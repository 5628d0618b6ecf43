/** Sequence helpers shared by the model: the last element and the prefix
    before it, Python's `del s[i]` with its inverse `s.insert(i, x)`, and
    selection of a subsequence by a keep-mask. */
module Seqs {

  function Last<T>(s: seq<T>): T
    requires |s| > 0
  {
    s[|s| - 1]
  }

  function Init<T>(s: seq<T>): seq<T>
    requires |s| > 0
  {
    s[..|s| - 1]
  }

  /** A non-empty sequence is its prefix followed by its last element. */
  lemma InitLast<T>(s: seq<T>)
    requires |s| > 0
    ensures Init(s) + [Last(s)] == s
    ensures multiset(s) == multiset(Init(s)) + multiset{Last(s)}
  {
    assert s == Init(s) + [Last(s)];
  }

  /** `s` with position `i` taken out, as Python's `del s[i]` leaves a list:
      the elements before `i` stay in place, the ones after move down by one,
      and exactly one copy of `s[i]` is gone. */
  function RemoveAt<T>(s: seq<T>, i: nat): (r: seq<T>)
    requires i < |s|
    ensures |r| == |s| - 1
    ensures forall j :: 0 <= j < i ==> r[j] == s[j]
    ensures forall j :: i <= j < |r| ==> r[j] == s[j + 1]
    ensures multiset(r) + multiset{s[i]} == multiset(s)
  {
    assert s == s[..i] + [s[i]] + s[i + 1..];
    s[..i] + s[i + 1..]
  }

  /** `s` with `x` placed at position `i`, as Python's `s.insert(i, x)`. */
  function InsertAt<T>(s: seq<T>, i: nat, x: T): (r: seq<T>)
    requires i <= |s|
    ensures |r| == |s| + 1
    ensures r[i] == x
  {
    s[..i] + [x] + s[i..]
  }

  /** Putting the removed element back where it was restores the sequence. */
  lemma InsertUndoesRemove<T>(s: seq<T>, i: nat)
    requires i < |s|
    ensures InsertAt(RemoveAt(s, i), i, s[i]) == s
  {
    var r := RemoveAt(s, i);
    assert r[..i] == s[..i];
    assert r[i..] == s[i + 1..];
    assert s == s[..i] + [s[i]] + s[i + 1..];
  }

  /** Removing a freshly inserted element restores the sequence. */
  lemma RemoveUndoesInsert<T>(s: seq<T>, i: nat, x: T)
    requires i <= |s|
    ensures RemoveAt(InsertAt(s, i, x), i) == s
  {
    var t := InsertAt(s, i, x);
    assert t[..i] == s[..i];
    assert t[i + 1..] == s[i..];
    assert s == s[..i] + s[i..];
  }

  /** The elements of `b` whose position is marked in `keep`, in order. */
  function Select<T>(b: seq<T>, keep: seq<bool>): seq<T>
    requires |keep| == |b|
  {
    if |b| == 0 then []
    else Select(Init(b), Init(keep)) + (if Last(keep) then [Last(b)] else [])
  }

  /** `a` is obtained from `b` by deleting elements, keeping the order of
      the rest. */
  ghost predicate IsSubsequence<T>(a: seq<T>, b: seq<T>) {
    exists keep: seq<bool> :: |keep| == |b| && Select(b, keep) == a
  }
}

/** `Scan.mark_to_keep` (main.py:42-49): for each group, in key order, one
    answer is read and the file at that index is taken out of the group, so
    that what stays in the group is the set of files to delete. The console
    `input()` is replaced by a sequence of answers, one per group, already
    read as integers. */
module Keeping {
  import opened Results
  import opened Seqs
  import opened Files
  import opened Grouping

  /** Why `mark_to_keep` stops before the last group. */
  datatype KeepError =
    | /** `input()` had no answer left for the group under `checksum`. */
      NoChoice(checksum: Checksum)
    | /** `del v[choice]` raised `IndexError` on the group under `checksum`. */
      IndexOutOfRange(checksum: Checksum, choice: int)

  /** The position Python's `del v[choice]` removes from a list of length
      `len`: a negative choice counts from the end, and outside
      `-len .. len - 1` there is none. */
  function ListIndex(choice: int, len: nat): (r: Option<nat>)
    ensures r.Some? <==> -(len as int) <= choice < len
    ensures r.Some? ==> r.value < len && r.value == choice % len
  {
    if 0 <= choice < len then Some(choice)
    else if -(len as int) <= choice < 0 then Some(len + choice)
    else None
  }

  /** The answer read for group `i` exists and names one of its files. */
  predicate ValidAt(gs: Groups, choices: seq<int>, i: nat)
    requires i < |gs|
  {
    i < |choices| && ListIndex(choices[i], |gs[i].members|).Some?
  }

  /** Every group gets an answer that names one of its files. */
  predicate ValidChoices(gs: Groups, choices: seq<int>) {
    forall i :: 0 <= i < |gs| ==> ValidAt(gs, choices, i)
  }

  /** The position of the kept file in group `i`. */
  function KeepIndex(gs: Groups, choices: seq<int>, i: nat): (j: nat)
    requires i < |gs| && ValidAt(gs, choices, i)
    ensures j < |gs[i].members|
  {
    ListIndex(choices[i], |gs[i].members|).value
  }

  /** The file kept from each group, in key order. */
  function Kept(gs: Groups, choices: seq<int>): seq<File>
    requires ValidChoices(gs, choices)
  {
    seq(|gs|, i requires 0 <= i < |gs| =>
      gs[i].members[KeepIndex(gs, choices, i)])
  }

  /** `mark_to_keep`: it completes exactly when every group gets an answer
      naming one of its files; then the keys and their order are unchanged
      and each group has lost exactly the file at its chosen position. */
  function MarkToKeep(gs: Groups, choices: seq<int>): (r: Result<Groups, KeepError>)
    ensures r.Ok? <==> ValidChoices(gs, choices)
    ensures r.Ok? ==> Keys(r.value) == Keys(gs)
    ensures r.Ok? ==> forall i :: 0 <= i < |gs| ==>
      r.value[i].members == RemoveAt(gs[i].members, KeepIndex(gs, choices, i))
  {
    if |gs| == 0 then Ok([])
    else if |choices| == 0 then
      assert !ValidAt(gs, choices, 0);
      Err(NoChoice(gs[0].checksum))
    else match ListIndex(choices[0], |gs[0].members|)
      case None =>
        assert !ValidAt(gs, choices, 0);
        Err(IndexOutOfRange(gs[0].checksum, choices[0]))
      case Some(j) =>
        ValidChoicesTail(gs, choices);
        match MarkToKeep(gs[1..], choices[1..])
        case Err(e) => Err(e)
        case Ok(rest) =>
          var r := [Group(gs[0].checksum, RemoveAt(gs[0].members, j))] + rest;
          MarkToKeepStep(gs, choices, rest);
          Ok(r)
  }

  /** The answers are valid for all groups exactly when the first is valid
      for the first group and the rest for the rest. */
  lemma ValidChoicesTail(gs: Groups, choices: seq<int>)
    requires |gs| > 0 && |choices| > 0
    ensures ValidChoices(gs, choices) <==> ValidAt(gs, choices, 0) && ValidChoices(gs[1..], choices[1..])
  {
    forall i | 0 <= i < |gs| - 1
      ensures ValidAt(gs[1..], choices[1..], i) == ValidAt(gs, choices, i + 1)
    {
    }
    if ValidAt(gs, choices, 0) && ValidChoices(gs[1..], choices[1..]) {
      forall i | 0 <= i < |gs|
        ensures ValidAt(gs, choices, i)
      {
        if i > 0 {
          assert ValidAt(gs[1..], choices[1..], i - 1);
        }
      }
    }
  }

  /** One step of `mark_to_keep`: removing the chosen file from the first
      group in front of the already resolved rest keeps its contract. */
  lemma MarkToKeepStep(gs: Groups, choices: seq<int>, rest: Groups)
    requires ValidChoices(gs, choices) && |gs| > 0 && |choices| > 0
    requires ValidChoices(gs[1..], choices[1..])
    requires Keys(rest) == Keys(gs[1..])
    requires forall i :: 0 <= i < |gs| - 1 ==>
      rest[i].members == RemoveAt(gs[1..][i].members, KeepIndex(gs[1..], choices[1..], i))
    ensures var r := [Group(gs[0].checksum, RemoveAt(gs[0].members, KeepIndex(gs, choices, 0)))] + rest;
      Keys(r) == Keys(gs) &&
      forall i :: 0 <= i < |gs| ==> r[i].members == RemoveAt(gs[i].members, KeepIndex(gs, choices, i))
  {
    var r := [Group(gs[0].checksum, RemoveAt(gs[0].members, KeepIndex(gs, choices, 0)))] + rest;
    assert |Keys(rest)| == |Keys(gs[1..])|;
    assert Keys(r) == Keys(gs) by {
      forall i | 0 < i < |gs|
        ensures Keys(r)[i] == Keys(gs)[i]
      {
        assert Keys(rest)[i - 1] == Keys(gs[1..])[i - 1];
      }
    }
    forall i | 0 < i < |gs|
      ensures r[i].members == RemoveAt(gs[i].members, KeepIndex(gs, choices, i))
    {
      StepAt(gs, choices, rest, i);
    }
  }

  lemma StepAt(gs: Groups, choices: seq<int>, rest: Groups, i: nat)
    requires ValidChoices(gs, choices) && 0 < i < |gs| && |choices| > 0
    requires ValidChoices(gs[1..], choices[1..])
    requires |rest| == |gs| - 1
    requires rest[i - 1].members == RemoveAt(gs[1..][i - 1].members, KeepIndex(gs[1..], choices[1..], i - 1))
    ensures rest[i - 1].members == RemoveAt(gs[i].members, KeepIndex(gs, choices, i))
  {
    assert gs[1..][i - 1] == gs[i];
    assert ValidAt(gs, choices, i);
    assert choices[1..][i - 1] == choices[i];
    assert KeepIndex(gs[1..], choices[1..], i - 1) == KeepIndex(gs, choices, i);
  }

  /** A run stops at the first group whose answer is missing or names no
      file, with the error that group raises; earlier groups do not matter
      beyond being valid. */
  lemma {:induction false} MarkToKeepStopsAtFirstBadAnswer(gs: Groups, choices: seq<int>, i: nat)
    requires i < |gs|
    requires forall j :: 0 <= j < i ==> ValidAt(gs, choices, j)
    requires !ValidAt(gs, choices, i)
    ensures MarkToKeep(gs, choices)
         == Err(if i < |choices| then IndexOutOfRange(gs[i].checksum, choices[i])
                else NoChoice(gs[i].checksum))
  {
    if i > 0 {
      assert ValidAt(gs, choices, 0);
      forall j | 0 <= j < i - 1
        ensures ValidAt(gs[1..], choices[1..], j)
      {
        assert ValidAt(gs, choices, j + 1);
      }
      MarkToKeepStopsAtFirstBadAnswer(gs[1..], choices[1..], i - 1);
    }
  }

  /** Exactly one answer is read per group: answers beyond the number of
      groups are never looked at. */
  lemma {:induction false} MarkToKeepReadsOneAnswerPerGroup(gs: Groups, choices: seq<int>, more: seq<int>)
    requires |choices| >= |gs|
    ensures MarkToKeep(gs, choices + more) == MarkToKeep(gs, choices)
  {
    if |gs| > 0 {
      assert (choices + more)[1..] == choices[1..] + more;
      MarkToKeepReadsOneAnswerPerGroup(gs[1..], choices[1..], more);
    }
  }

  /** Group by group, `after` keeps all of `before` but one file each, the
      files listed in `kept`: then so do the flattened lists. */
  lemma {:induction false} FlattenLosesKept(before: Groups, after: Groups, kept: seq<File>)
    requires |after| == |before| == |kept|
    requires forall i :: 0 <= i < |before| ==>
      multiset(after[i].members) + multiset{kept[i]} == multiset(before[i].members)
    ensures multiset(Flatten(after)) + multiset(kept) == multiset(Flatten(before))
  {
    if |before| > 0 {
      FlattenLosesKept(Init(before), Init(after), Init(kept));
      InitLast(kept);
    }
  }

  /** After `mark_to_keep`, the files left for deletion together with the
      kept files are the files the groups held before, and there is one
      fewer per group. */
  lemma MarkToKeepPartition(gs: Groups, choices: seq<int>)
    requires ValidChoices(gs, choices)
    ensures multiset(Flatten(MarkToKeep(gs, choices).value)) + multiset(Kept(gs, choices))
         == multiset(Flatten(gs))
    ensures |Flatten(MarkToKeep(gs, choices).value)| == |Flatten(gs)| - |gs|
  {
    var after := MarkToKeep(gs, choices).value;
    var kept := Kept(gs, choices);
    assert |Keys(after)| == |Keys(gs)|;
    forall i | 0 <= i < |gs|
      ensures multiset(after[i].members) + multiset{kept[i]} == multiset(gs[i].members)
    {
      assert kept[i] == gs[i].members[KeepIndex(gs, choices, i)];
    }
    FlattenLosesKept(gs, after, kept);
    assert |multiset(Flatten(after))| + |multiset(kept)| == |multiset(Flatten(gs))|;
  }

  /** In a group of distinct files, the kept file is no longer a deletion
      candidate. */
  lemma KeptNotCandidate(gs: Groups, choices: seq<int>, i: nat)
    requires ValidChoices(gs, choices)
    requires i < |gs|
    requires forall a, b :: 0 <= a < b < |gs[i].members| ==> gs[i].members[a] != gs[i].members[b]
    ensures Kept(gs, choices)[i] !in MarkToKeep(gs, choices).value[i].members
  {
    var after := MarkToKeep(gs, choices).value;
    assert |Keys(after)| == |Keys(gs)|;
    var j := KeepIndex(gs, choices, i);
    var v := gs[i].members;
    assert Kept(gs, choices)[i] == v[j];
  }
}

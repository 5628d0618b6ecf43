/** `Scan.check_duplicates`: the scanned files partitioned by checksum into an
    insertion-ordered dictionary, of which only the checksums shared by two
    or more files are kept. */
module Grouping {
  import opened Results
  import opened Seqs
  import opened Files

  /** One dictionary entry: a checksum and the list of files filed under it. */
  datatype Group = Group(checksum: Checksum, members: seq<File>)

  /** A Python dict from checksum to list of files, written as its entries in
      insertion order (the order `dict.items()` walks them). */
  type Groups = seq<Group>

  function Keys(gs: Groups): seq<Checksum> {
    seq(|gs|, i requires 0 <= i < |gs| => gs[i].checksum)
  }

  /** A dict holds each key once. */
  predicate DistinctKeys(gs: Groups) {
    forall i, j :: 0 <= i < j < |gs| ==> gs[i].checksum != gs[j].checksum
  }

  /** `d.get(k)`: the list filed under `k`, if `k` is a key. */
  function Get(gs: Groups, k: Checksum): (r: Option<seq<File>>)
    requires DistinctKeys(gs)
    ensures r.Some? <==> k in Keys(gs)
    ensures forall i :: 0 <= i < |gs| && gs[i].checksum == k ==> r == Some(gs[i].members)
  {
    if |gs| == 0 then None
    else if gs[0].checksum == k then
      assert Keys(gs)[0] == k;
      Some(gs[0].members)
    else
      assert Keys(gs) == [gs[0].checksum] + Keys(gs[1..]);
      Get(gs[1..], k)
  }

  /** One step of the loop at main.py:37-38,
      `d[f.checksum] = d.get(f.checksum, []) + [f]`: the list under the
      file's checksum grows by the file at its end, a key already present
      keeps its place, a new key goes last with the list `[f]`, and no other
      entry changes. */
  function Add(gs: Groups, f: File): (r: Groups)
    requires DistinctKeys(gs)
    ensures DistinctKeys(r)
    ensures |r| == if f.checksum in Keys(gs) then |gs| else |gs| + 1
    ensures forall i :: 0 <= i < |gs| ==> r[i].checksum == gs[i].checksum
    ensures forall i :: 0 <= i < |gs| && gs[i].checksum != f.checksum ==> r[i] == gs[i]
    ensures forall i :: 0 <= i < |gs| && gs[i].checksum == f.checksum ==> r[i].members == gs[i].members + [f]
    ensures f.checksum !in Keys(gs) ==> r[|gs|] == Group(f.checksum, [f])
  {
    if |gs| == 0 then [Group(f.checksum, [f])]
    else if gs[0].checksum == f.checksum then
      assert Keys(gs)[0] == f.checksum;
      [Group(f.checksum, gs[0].members + [f])] + gs[1..]
    else
      assert Keys(gs) == [gs[0].checksum] + Keys(gs[1..]);
      [gs[0]] + Add(gs[1..], f)
  }

  /** Line 38 read as a dictionary update: afterwards `d.get(f.checksum)` is
      what `d.get(f.checksum, [])` was, with `f` appended. */
  lemma AddGet(gs: Groups, f: File)
    requires DistinctKeys(gs)
    ensures Get(Add(gs, f), f.checksum) == Some(Get(gs, f.checksum).GetOr([]) + [f])
  {
    var r := Add(gs, f);
    if f.checksum in Keys(gs) {
      var i :| 0 <= i < |gs| && Keys(gs)[i] == f.checksum;
      assert Get(r, f.checksum) == Some(r[i].members);
    } else {
      assert Get(r, f.checksum) == Some(r[|gs|].members);
      assert Get(gs, f.checksum).GetOr([]) + [f] == [f];
    }
  }

  /** The dictionary the loop at main.py:36-38 has built once it has seen
      every entry of `files`. */
  function Accumulate(files: seq<File>): (gs: Groups)
    ensures DistinctKeys(gs)
  {
    if |files| == 0 then [] else Add(Accumulate(Init(files)), Last(files))
  }

  /** Line 40: `{k: v for k, v in d.items() if len(v) > 1}`, which keeps the
      surviving entries in their order. */
  function KeepShared(gs: Groups): (r: Groups)
    ensures forall g :: g in r <==> g in gs && |g.members| > 1
  {
    if |gs| == 0 then []
    else KeepShared(Init(gs)) + (if |Last(gs).members| > 1 then [Last(gs)] else [])
  }

  /** Marks the entries of `gs` holding more than one file. */
  function SharedMask(gs: Groups): (keep: seq<bool>)
    ensures |keep| == |gs|
  {
    seq(|gs|, i requires 0 <= i < |gs| => |gs[i].members| > 1)
  }

  /** Line 40 keeps the surviving entries in their order: the result is the
      subsequence of the entries holding more than one file. */
  lemma {:induction false} KeepSharedSelects(gs: Groups)
    ensures KeepShared(gs) == Select(gs, SharedMask(gs))
  {
    if |gs| > 0 {
      KeepSharedSelects(Init(gs));
      assert Init(SharedMask(gs)) == SharedMask(Init(gs));
    }
  }

  /** `Scan.check_duplicates` on `file_list`: every group has two or more
      members, each member carries its group's checksum, and no checksum is
      a key twice. */
  function CheckDuplicates(files: seq<File>): (r: Groups)
    ensures DistinctKeys(r)
    ensures forall g :: g in r ==> |g.members| >= 2
    ensures forall g, f :: g in r && f in g.members ==> f.checksum == g.checksum
  {
    AccumulateFiled(files);
    AccumulateOrder(files);
    KeepSharedInOrder(Accumulate(files), files);
    OrderedKeysDistinct(KeepShared(Accumulate(files)), files);
    KeepShared(Accumulate(files))
  }

  /** Every member of every group, group after group: what
      `Scan.file_to_be_deleted_list` (main.py:63-67) walks and lists. */
  function Flatten(gs: Groups): seq<File> {
    if |gs| == 0 then [] else Flatten(Init(gs)) + Last(gs).members
  }

  // ---------------------------------------------------------------------
  // Reference definitions, stated on `file_list` alone.

  /** The entries of `files` whose checksum is `k`, in `file_list` order. */
  function WithChecksum(files: seq<File>, k: Checksum): (r: seq<File>)
    ensures forall f :: f in r ==> f.checksum == k
    ensures |r| <= |files|
  {
    if |files| == 0 then []
    else WithChecksum(Init(files), k) + (if Last(files).checksum == k then [Last(files)] else [])
  }

  /** Marks the positions of `files` whose checksum is `k`. */
  function ChecksumMask(files: seq<File>, k: Checksum): (keep: seq<bool>)
    ensures |keep| == |files|
  {
    seq(|files|, i requires 0 <= i < |files| => files[i].checksum == k)
  }

  /** Checksum `k` is carried by at least two entries of `files`. */
  predicate Shared(files: seq<File>, k: Checksum) {
    |WithChecksum(files, k)| >= 2
  }

  /** The entries of `s` whose checksum is shared within `files`, in order. */
  function SharedIn(s: seq<File>, files: seq<File>): (r: seq<File>)
    ensures forall f :: f in r <==> f in s && Shared(files, f.checksum)
  {
    if |s| == 0 then []
    else SharedIn(Init(s), files) + (if Shared(files, Last(s).checksum) then [Last(s)] else [])
  }

  /** The position of the first entry of `files` with checksum `k`, or
      `|files|` when there is none. */
  function FirstIndex(files: seq<File>, k: Checksum): (n: nat)
    ensures n <= |files|
    ensures n < |files| ==> files[n].checksum == k
    ensures forall m :: 0 <= m < n ==> files[m].checksum != k
  {
    if |files| == 0 then 0
    else if files[0].checksum == k then 0
    else 1 + FirstIndex(files[1..], k)
  }

  /** Each group holds exactly the entries of `files` with its checksum, in
      `file_list` order. */
  predicate FiledByChecksum(gs: Groups, files: seq<File>) {
    forall i :: 0 <= i < |gs| ==> gs[i].members == WithChecksum(files, gs[i].checksum)
  }

  /** The keys appear in the order their checksums first occur in `files`. */
  predicate InFirstSeenOrder(gs: Groups, files: seq<File>) {
    forall i, j :: 0 <= i < j < |gs| ==>
      FirstIndex(files, gs[i].checksum) < FirstIndex(files, gs[j].checksum)
  }

  // ---------------------------------------------------------------------
  // Facts about the reference definitions.

  lemma FirstIndexUnique(files: seq<File>, k: Checksum, n: nat)
    requires n <= |files|
    requires n < |files| ==> files[n].checksum == k
    requires forall m :: 0 <= m < n ==> files[m].checksum != k
    ensures FirstIndex(files, k) == n
  {
  }

  /** The first occurrence of `k` in `files` exists exactly when `k` is one
      of the checksums of `files`. */
  lemma FirstIndexFound(files: seq<File>, k: Checksum)
    ensures FirstIndex(files, k) < |files| <==> k in Checksums(files)
  {
    if k in Checksums(files) {
      var m :| 0 <= m < |files| && Checksums(files)[m] == k;
      assert files[m].checksum == k;
    }
  }

  /** Appending an entry leaves earlier first occurrences where they were. */
  lemma FirstIndexAppend(pre: seq<File>, f: File, k: Checksum)
    ensures FirstIndex(pre + [f], k) ==
      if FirstIndex(pre, k) < |pre| then FirstIndex(pre, k)
      else if f.checksum == k then |pre| else |pre| + 1
  {
    var files := pre + [f];
    var n := FirstIndex(pre, k);
    if n < |pre| {
      FirstIndexUnique(files, k, n);
    } else if f.checksum == k {
      FirstIndexUnique(files, k, |pre|);
    } else {
      FirstIndexUnique(files, k, |pre| + 1);
    }
  }

  /** No entry carries `k` exactly when none is filed under `k`. */
  lemma {:induction false} WithChecksumEmpty(files: seq<File>, k: Checksum)
    ensures WithChecksum(files, k) == [] <==> k !in Checksums(files)
  {
    if |files| > 0 {
      WithChecksumEmpty(Init(files), k);
      assert Checksums(files) == Checksums(Init(files)) + [Last(files).checksum];
    }
  }

  /** `WithChecksum` keeps every copy of a file with checksum `k` and no
      file with another checksum. */
  lemma {:induction false} WithChecksumCount(files: seq<File>, k: Checksum, x: File)
    ensures multiset(WithChecksum(files, k))[x] == if x.checksum == k then multiset(files)[x] else 0
  {
    if |files| > 0 {
      WithChecksumCount(Init(files), k, x);
      InitLast(files);
    }
  }

  /** `SharedIn` keeps every copy of a file whose checksum is shared and no
      other file. */
  lemma {:induction false} SharedInCount(s: seq<File>, files: seq<File>, x: File)
    ensures multiset(SharedIn(s, files))[x] == if Shared(files, x.checksum) then multiset(s)[x] else 0
  {
    if |s| > 0 {
      SharedInCount(Init(s), files, x);
      InitLast(s);
    }
  }

  /** `WithChecksum` keeps `file_list` order: it is the subsequence of the
      entries carrying `k`. */
  lemma {:induction false} WithChecksumSelects(files: seq<File>, k: Checksum)
    ensures WithChecksum(files, k) == Select(files, ChecksumMask(files, k))
  {
    if |files| > 0 {
      WithChecksumSelects(Init(files), k);
      assert Init(ChecksumMask(files, k)) == ChecksumMask(Init(files), k);
    }
  }

  /** Two entries share a checksum exactly when that checksum is filed at
      least twice. */
  lemma {:induction false} TwoEntriesShare(files: seq<File>, m: nat, n: nat)
    requires m < n < |files|
    requires files[m].checksum == files[n].checksum
    ensures Shared(files, files[n].checksum)
  {
    var k := files[n].checksum;
    var pre := Init(files);
    if n == |files| - 1 {
      assert pre[m].checksum == k;
      assert k in Checksums(pre);
      WithChecksumEmpty(pre, k);
    } else {
      TwoEntriesShare(pre, m, n);
    }
  }

  /** A checksum filed at least twice has two entries carrying it, one of
      them at any given position that carries it. */
  lemma {:induction false} SharedHasOther(files: seq<File>, n: nat)
    requires n < |files|
    requires Shared(files, files[n].checksum)
    ensures exists m :: 0 <= m < |files| && m != n && files[m].checksum == files[n].checksum
  {
    var k := files[n].checksum;
    var pre := Init(files);
    if Last(files).checksum == k {
      if n == |files| - 1 {
        WithChecksumEmpty(pre, k);
        var m :| 0 <= m < |pre| && Checksums(pre)[m] == k;
        assert files[m].checksum == k;
      } else {
        assert files[|files| - 1].checksum == k;
      }
    } else {
      assert n < |pre|;
      SharedHasOther(pre, n);
      var m :| 0 <= m < |pre| && m != n && pre[m].checksum == k;
      assert files[m].checksum == k;
    }
  }

  // ---------------------------------------------------------------------
  // The accumulation loop and the filter.

  /** The keys of the dictionary built by the loop at main.py:37-38 are
      exactly the checksums of the entries seen. */
  lemma {:induction false} AccumulateKeys(files: seq<File>)
    ensures forall k :: k in Keys(Accumulate(files)) <==> k in Checksums(files)
  {
    if |files| > 0 {
      var pre, f := Init(files), Last(files);
      AccumulateKeys(pre);
      var g0 := Accumulate(pre);
      var gs := Accumulate(files);
      assert gs == Add(g0, f);
      assert Checksums(files) == Checksums(pre) + [f.checksum];
      if f.checksum in Keys(g0) {
        assert Keys(gs) == Keys(g0);
      } else {
        assert Keys(gs) == Keys(g0) + [f.checksum];
      }
    }
  }

  /** Under each key the loop at main.py:37-38 has filed exactly the entries
      carrying it, in `file_list` order. */
  lemma {:induction false} AccumulateFiled(files: seq<File>)
    ensures FiledByChecksum(Accumulate(files), files)
  {
    if |files| > 0 {
      var pre, f := Init(files), Last(files);
      AccumulateFiled(pre);
      AccumulateKeys(pre);
      var g0 := Accumulate(pre);
      var gs := Accumulate(files);
      assert gs == Add(g0, f);
      InitLast(files);
      forall i | 0 <= i < |gs|
        ensures gs[i].members == WithChecksum(files, gs[i].checksum)
      {
        AccumulateFiledAt(pre, f, g0, i);
      }
    }
  }

  lemma AccumulateFiledAt(pre: seq<File>, f: File, g0: Groups, i: nat)
    requires DistinctKeys(g0)
    requires FiledByChecksum(g0, pre)
    requires forall k :: k in Keys(g0) <==> k in Checksums(pre)
    requires i < |Add(g0, f)|
    ensures Add(g0, f)[i].members == WithChecksum(pre + [f], Add(g0, f)[i].checksum)
  {
    var gs := Add(g0, f);
    var k := gs[i].checksum;
    assert Init(pre + [f]) == pre;
    assert WithChecksum(pre + [f], k) == WithChecksum(pre, k) + (if f.checksum == k then [f] else []);
    if i < |g0| {
      assert k == g0[i].checksum;
    } else {
      assert k == f.checksum && f.checksum !in Keys(g0);
      WithChecksumEmpty(pre, k);
    }
  }

  /** The loop at main.py:37-38 lists its keys in the order their checksums
      first occur in `file_list`. */
  lemma {:induction false} AccumulateOrder(files: seq<File>)
    ensures InFirstSeenOrder(Accumulate(files), files)
  {
    if |files| > 0 {
      var pre, f := Init(files), Last(files);
      AccumulateOrder(pre);
      AccumulateKeys(pre);
      var g0 := Accumulate(pre);
      var gs := Accumulate(files);
      assert gs == Add(g0, f);
      InitLast(files);
      assert forall m :: 0 <= m < |g0| ==> gs[m].checksum == g0[m].checksum;
      forall i, j | 0 <= i < j < |gs|
        ensures FirstIndex(files, gs[i].checksum) < FirstIndex(files, gs[j].checksum)
      {
        AccumulateOrderAt(pre, f, g0, gs, i, j);
      }
    }
  }

  lemma AccumulateOrderAt(pre: seq<File>, f: File, g0: Groups, gs: Groups, i: nat, j: nat)
    requires InFirstSeenOrder(g0, pre)
    requires forall k :: k in Keys(g0) <==> k in Checksums(pre)
    requires |g0| <= |gs| <= |g0| + 1
    requires forall m :: 0 <= m < |g0| ==> gs[m].checksum == g0[m].checksum
    requires |gs| == |g0| + 1 ==> gs[|g0|].checksum == f.checksum && f.checksum !in Keys(g0)
    requires i < j < |gs|
    ensures FirstIndex(pre + [f], gs[i].checksum) < FirstIndex(pre + [f], gs[j].checksum)
  {
    var ki, kj := gs[i].checksum, gs[j].checksum;
    assert Keys(g0)[i] == ki;
    FirstIndexFound(pre, ki);
    if j < |g0| {
      assert Keys(g0)[j] == kj;
      FirstIndexFound(pre, kj);
      OldKeysKeepOrder(pre, f, ki, kj);
    } else {
      NewKeyComesLast(pre, f, ki);
    }
  }

  /** Appending an entry keeps the order of two checksums already seen. */
  lemma OldKeysKeepOrder(pre: seq<File>, f: File, ki: Checksum, kj: Checksum)
    requires FirstIndex(pre, ki) < FirstIndex(pre, kj) < |pre|
    ensures FirstIndex(pre + [f], ki) < FirstIndex(pre + [f], kj)
  {
    FirstIndexAppend(pre, f, ki);
    FirstIndexAppend(pre, f, kj);
  }

  /** A checksum first seen in the appended entry comes after every
      checksum already seen. */
  lemma NewKeyComesLast(pre: seq<File>, f: File, ki: Checksum)
    requires FirstIndex(pre, ki) < |pre|
    requires f.checksum !in Checksums(pre)
    ensures FirstIndex(pre + [f], ki) < FirstIndex(pre + [f], f.checksum)
  {
    FirstIndexAppend(pre, f, ki);
    FirstIndexAppend(pre, f, f.checksum);
    FirstIndexFound(pre, f.checksum);
  }

  /** Filtering keeps the first-occurrence order of the keys. */
  lemma {:induction false} KeepSharedInOrder(gs: Groups, files: seq<File>)
    requires InFirstSeenOrder(gs, files)
    ensures InFirstSeenOrder(KeepShared(gs), files)
  {
    if |gs| > 0 {
      KeepSharedInOrder(Init(gs), files);
      var r0 := KeepShared(Init(gs));
      if |Last(gs).members| > 1 {
        forall i | 0 <= i < |r0|
          ensures FirstIndex(files, r0[i].checksum) < FirstIndex(files, Last(gs).checksum)
        {
          assert r0[i] in Init(gs);
          var j :| 0 <= j < |Init(gs)| && Init(gs)[j] == r0[i];
          assert gs[j] == r0[i];
        }
      }
    }
  }

  /** Keys in strict first-occurrence order are distinct. */
  lemma OrderedKeysDistinct(gs: Groups, files: seq<File>)
    requires InFirstSeenOrder(gs, files)
    ensures DistinctKeys(gs)
  {
  }

  // ---------------------------------------------------------------------
  // What `check_duplicates` computes.

  /** Filtering keeps every surviving group's contents. */
  lemma KeepSharedFiled(gs: Groups, files: seq<File>)
    requires FiledByChecksum(gs, files)
    ensures FiledByChecksum(KeepShared(gs), files)
  {
    var r := KeepShared(gs);
    forall i | 0 <= i < |r|
      ensures r[i].members == WithChecksum(files, r[i].checksum)
    {
      assert r[i] in gs;
    }
  }

  /** Filtering a dict that files every checksum of `files` leaves exactly
      the shared checksums as keys. */
  lemma KeepSharedKeys(gs: Groups, files: seq<File>, k: Checksum)
    requires FiledByChecksum(gs, files)
    requires forall c :: c in Keys(gs) <==> c in Checksums(files)
    ensures k in Keys(KeepShared(gs)) <==> Shared(files, k)
  {
    var r := KeepShared(gs);
    if k in Keys(r) {
      var i :| 0 <= i < |r| && Keys(r)[i] == k;
      assert r[i] in gs;
      var j :| 0 <= j < |gs| && gs[j] == r[i];
    }
    if Shared(files, k) {
      WithChecksumEmpty(files, k);
      assert k in Keys(gs);
      var j :| 0 <= j < |gs| && Keys(gs)[j] == k;
      assert gs[j] in r;
      var i :| 0 <= i < |r| && r[i] == gs[j];
      assert Keys(r)[i] == k;
    }
  }

  /** `check_duplicates` keeps a key exactly when its checksum is carried by
      two or more entries, files under it exactly those entries in
      `file_list` order, and orders its keys by first occurrence. */
  lemma CheckDuplicatesSpec(files: seq<File>)
    ensures FiledByChecksum(CheckDuplicates(files), files)
    ensures forall k :: k in Keys(CheckDuplicates(files)) <==> Shared(files, k)
    ensures InFirstSeenOrder(CheckDuplicates(files), files)
  {
    var acc := Accumulate(files);
    AccumulateKeys(files);
    AccumulateFiled(files);
    AccumulateOrder(files);
    KeepSharedFiled(acc, files);
    KeepSharedInOrder(acc, files);
    forall k
      ensures k in Keys(CheckDuplicates(files)) <==> Shared(files, k)
    {
      KeepSharedKeys(acc, files, k);
    }
  }

  /** Looking a checksum up in the result of `check_duplicates` finds the
      entries carrying it, in `file_list` order, when there are two or more of
      them, and nothing otherwise. */
  lemma GetCheckDuplicates(files: seq<File>, k: Checksum)
    ensures Get(CheckDuplicates(files), k)
         == if Shared(files, k) then Some(WithChecksum(files, k)) else None
  {
    var r := CheckDuplicates(files);
    CheckDuplicatesSpec(files);
    if Shared(files, k) {
      var i :| 0 <= i < |r| && Keys(r)[i] == k;
      assert r[i].checksum == k;
    }
  }

  /** An entry of `file_list` lands in some group exactly when another entry
      carries its checksum. */
  lemma GroupedIffOtherShares(files: seq<File>, n: nat)
    requires n < |files|
    ensures files[n] in Flatten(CheckDuplicates(files))
        <==> exists m :: 0 <= m < |files| && m != n && files[m].checksum == files[n].checksum
  {
    var r := CheckDuplicates(files);
    var x := files[n];
    CheckDuplicatesSpec(files);
    FlattenCount(r, files, x);
    assert multiset(files)[x] > 0;
    assert x in Flatten(r) <==> Shared(files, x.checksum);
    if Shared(files, x.checksum) {
      SharedHasOther(files, n);
    }
    if exists m :: 0 <= m < |files| && m != n && files[m].checksum == x.checksum {
      var m :| 0 <= m < |files| && m != n && files[m].checksum == x.checksum;
      if m < n { TwoEntriesShare(files, m, n); } else { TwoEntriesShare(files, n, m); }
    }
  }

  /** In a dict whose groups hold exactly the entries carrying their key,
      a file occurs as often as in `files` if its checksum is a key, and
      never otherwise. */
  lemma {:induction false} FlattenCount(gs: Groups, files: seq<File>, x: File)
    requires DistinctKeys(gs)
    requires FiledByChecksum(gs, files)
    ensures multiset(Flatten(gs))[x] == if x.checksum in Keys(gs) then multiset(files)[x] else 0
  {
    if |gs| > 0 {
      var pre, g := Init(gs), Last(gs);
      InitFiled(gs, files);
      FlattenCount(pre, files, x);
      WithChecksumCount(files, g.checksum, x);
      assert multiset(Flatten(gs)) == multiset(Flatten(pre)) + multiset(g.members);
    }
  }

  /** Dropping the last group of a filed dict leaves a filed dict whose keys
      do not include the dropped one. */
  lemma InitFiled(gs: Groups, files: seq<File>)
    requires |gs| > 0 && DistinctKeys(gs) && FiledByChecksum(gs, files)
    ensures DistinctKeys(Init(gs)) && FiledByChecksum(Init(gs), files)
    ensures Last(gs).members == WithChecksum(files, Last(gs).checksum)
    ensures Last(gs).checksum !in Keys(Init(gs))
    ensures forall k :: k in Keys(gs) <==> k in Keys(Init(gs)) || k == Last(gs).checksum
  {
    var pre := Init(gs);
    assert forall i :: 0 <= i < |pre| ==> pre[i] == gs[i];
    assert Keys(gs) == Keys(pre) + [Last(gs).checksum];
  }

  /** Every entry whose checksum is shared appears in the groups exactly as
      often as in `file_list` and no other entry appears: the groups are a
      rearrangement of the shared entries, and the group sizes add up to
      their number. */
  lemma CheckDuplicatesPartition(files: seq<File>)
    ensures multiset(Flatten(CheckDuplicates(files))) == multiset(SharedIn(files, files))
    ensures |Flatten(CheckDuplicates(files))| == |SharedIn(files, files)|
  {
    var r := CheckDuplicates(files);
    CheckDuplicatesSpec(files);
    forall x
      ensures multiset(Flatten(r))[x] == multiset(SharedIn(files, files))[x]
    {
      FlattenCount(r, files, x);
      SharedInCount(files, files, x);
    }
    assert multiset(Flatten(r)) == multiset(SharedIn(files, files));
    assert |multiset(Flatten(r))| == |Flatten(r)|;
  }

  /** Each group lists its members in the order they have in `file_list`. */
  lemma MembersInFileOrder(files: seq<File>)
    ensures forall g :: g in CheckDuplicates(files) ==> IsSubsequence(g.members, files)
  {
    CheckDuplicatesSpec(files);
    forall g | g in CheckDuplicates(files)
      ensures IsSubsequence(g.members, files)
    {
      var i :| 0 <= i < |CheckDuplicates(files)| && CheckDuplicates(files)[i] == g;
      WithChecksumSelects(files, g.checksum);
    }
  }

  // ---------------------------------------------------------------------
  // Grouping the grouped files again.

  /** The loop at main.py:37-38 run over `files`, starting from the
      dictionary `gs` instead of an empty one. */
  function AddAll(gs: Groups, files: seq<File>): (r: Groups)
    requires DistinctKeys(gs)
    ensures DistinctKeys(r)
  {
    if |files| == 0 then gs else Add(AddAll(gs, Init(files)), Last(files))
  }

  /** Looping over `a + b` is looping over `a`, then carrying on over `b`. */
  lemma {:induction false} AccumulateConcat(a: seq<File>, b: seq<File>)
    ensures Accumulate(a + b) == AddAll(Accumulate(a), b)
  {
    if |b| == 0 {
      assert a + b == a;
    } else {
      AccumulateConcat(a, Init(b));
      assert Init(a + b) == a + Init(b);
      assert Last(a + b) == Last(b);
    }
  }

  /** A non-empty run of files under a checksum that is not yet a key
      becomes one new entry, last, holding the run in order. */
  lemma {:induction false} AddAllNewKey(gs: Groups, k: Checksum, ms: seq<File>)
    requires DistinctKeys(gs) && k !in Keys(gs) && |ms| > 0
    requires forall j :: 0 <= j < |ms| ==> ms[j].checksum == k
    ensures AddAll(gs, ms) == gs + [Group(k, ms)]
  {
    InitLast(ms);
    if |ms| == 1 {
      AddNewKey(gs, Last(ms));
    } else {
      AddAllNewKey(gs, k, Init(ms));
      AddToLast(gs, k, Init(ms), Last(ms));
    }
  }

  /** A file under a checksum that is not a key opens a new entry, last. */
  lemma AddNewKey(gs: Groups, f: File)
    requires DistinctKeys(gs) && f.checksum !in Keys(gs)
    ensures Add(gs, f) == gs + [Group(f.checksum, [f])]
  {
    var r := Add(gs, f);
    assert forall i :: 0 <= i < |gs| ==> gs[i].checksum == Keys(gs)[i];
  }

  /** A file under the last key joins the end of the last entry. */
  lemma AddToLast(gs: Groups, k: Checksum, run: seq<File>, f: File)
    requires DistinctKeys(gs + [Group(k, run)]) && f.checksum == k
    ensures Add(gs + [Group(k, run)], f) == gs + [Group(k, run + [f])]
  {
    var q := gs + [Group(k, run)];
    assert Keys(q)[|gs|] == k;
    var r := Add(q, f);
    assert |r| == |q|;
    forall i | 0 <= i < |gs|
      ensures r[i] == gs[i]
    {
      assert q[i] == gs[i] && q[i].checksum != q[|gs|].checksum;
    }
    assert r[|gs|].checksum == k && r[|gs|].members == run + [f];
  }

  /** A dictionary whose entries each hold a non-empty run of files carrying
      their own key is what the loop builds from its flattened files. */
  lemma {:induction false} AccumulateFlatten(gs: Groups)
    requires DistinctKeys(gs)
    requires forall i :: 0 <= i < |gs| ==> |gs[i].members| > 0
    requires forall i, j :: 0 <= i < |gs| && 0 <= j < |gs[i].members| ==>
      gs[i].members[j].checksum == gs[i].checksum
    ensures Accumulate(Flatten(gs)) == gs
  {
    if |gs| > 0 {
      var pre, g := Init(gs), Last(gs);
      assert forall i :: 0 <= i < |pre| ==> pre[i] == gs[i];
      AccumulateFlatten(pre);
      AccumulateConcat(Flatten(pre), g.members);
      assert g == gs[|gs| - 1];
      assert g.checksum !in Keys(pre) by {
        assert forall i :: 0 <= i < |pre| ==> Keys(pre)[i] == gs[i].checksum;
      }
      AddAllNewKey(pre, g.checksum, g.members);
      InitLast(gs);
    }
  }

  /** Line 40 keeps a dictionary whose entries all hold two or more files as
      it is. */
  lemma {:induction false} KeepSharedAll(gs: Groups)
    requires forall i :: 0 <= i < |gs| ==> |gs[i].members| > 1
    ensures KeepShared(gs) == gs
  {
    if |gs| > 0 {
      KeepSharedAll(Init(gs));
      assert Last(gs) == gs[|gs| - 1];
      InitLast(gs);
    }
  }

  /** Grouping the files `check_duplicates` grouped finds the same groups
      again, in the same order and with the same members. */
  lemma CheckDuplicatesRegroup(files: seq<File>)
    ensures CheckDuplicates(Flatten(CheckDuplicates(files))) == CheckDuplicates(files)
  {
    var gs := CheckDuplicates(files);
    forall i | 0 <= i < |gs|
      ensures |gs[i].members| > 1
      ensures forall j :: 0 <= j < |gs[i].members| ==> gs[i].members[j].checksum == gs[i].checksum
    {
      assert gs[i] in gs;
    }
    AccumulateFlatten(gs);
    KeepSharedAll(gs);
  }
}

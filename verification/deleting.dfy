/** `Scan.delete` (main.py:51-56) and `Scan.file_to_be_deleted_list`
    (main.py:63-67). The call to `os.remove` is commented out in the source,
    so `delete` only reports, as "Removing", the remaining group members
    whose path exists; the file system is read, never changed. It is given
    as the set of paths that exist, standing for `os.path.exists`. */
module Deleting {
  import opened Seqs
  import opened Files
  import opened Grouping

  /** The files of `fs` whose path exists, in order. */
  function Existing(fs: seq<File>, present: set<Path>): seq<File> {
    if |fs| == 0 then []
    else Existing(Init(fs), present) + (if Last(fs).path in present then [Last(fs)] else [])
  }

  /** A file is kept by `Existing` exactly when it is walked and its path
      exists. */
  lemma {:induction false} ExistingMembers(fs: seq<File>, present: set<Path>, f: File)
    ensures f in Existing(fs, present) <==> f in fs && f.path in present
  {
    if |fs| > 0 {
      ExistingMembers(Init(fs), present, f);
      InitLast(fs);
    }
  }

  /** Marks the positions of `fs` whose path exists. */
  function PresentMask(fs: seq<File>, present: set<Path>): (keep: seq<bool>)
    ensures |keep| == |fs|
  {
    seq(|fs|, i requires 0 <= i < |fs| => fs[i].path in present)
  }

  /** `Scan.delete`: walks the groups in key order and each group's members
      in order, and reports the path of every member whose path exists —
      the paths of the existing files among those `file_to_be_deleted_list`
      lists, in the same order. */
  method Delete(gs: Groups, present: set<Path>) returns (removing: seq<Path>)
    ensures removing == Paths(Existing(Flatten(gs), present))
  {
    removing := [];
    var i := 0;
    while i < |gs|
      invariant 0 <= i <= |gs|
      invariant removing == Paths(Existing(Flatten(gs[..i]), present))
    {
      var v := gs[i].members;
      ghost var before := removing;
      var j := 0;
      while j < |v|
        invariant 0 <= j <= |v|
        invariant removing == before + Paths(Existing(v[..j], present))
      {
        ReportStep(v[..j], v[j], present);
        assert v[..j + 1] == v[..j] + [v[j]];
        if v[j].path in present {
          removing := removing + [v[j].path];
        }
        j := j + 1;
      }
      assert v[..j] == v;
      FlattenStep(gs, i);
      ReportConcat(Flatten(gs[..i]), v, present);
      i := i + 1;
    }
    assert gs[..i] == gs;
  }

  /** One more file walked adds its path to the report when it exists. */
  lemma ReportStep(done: seq<File>, f: File, present: set<Path>)
    ensures Paths(Existing(done + [f], present))
         == Paths(Existing(done, present)) + (if f.path in present then [f.path] else [])
  {
    assert Init(done + [f]) == done;
    if f.path in present {
      var e := Existing(done, present);
      assert Init(e + [f]) == e;
    }
  }

  /** The report on two walks one after the other is the two reports one
      after the other. */
  lemma {:induction false} ReportConcat(a: seq<File>, b: seq<File>, present: set<Path>)
    ensures Paths(Existing(a + b, present)) == Paths(Existing(a, present)) + Paths(Existing(b, present))
  {
    if |b| > 0 {
      ReportConcat(a, Init(b), present);
      assert a + b == (a + Init(b)) + [Last(b)];
      InitLast(b);
      ReportStep(a + Init(b), Last(b), present);
      ReportStep(Init(b), Last(b), present);
    } else {
      assert a + b == a;
    }
  }

  /** One more group walked adds its members to the walk. */
  lemma FlattenStep(gs: Groups, i: nat)
    requires i < |gs|
    ensures Flatten(gs[..i + 1]) == Flatten(gs[..i]) + gs[i].members
  {
    assert Init(gs[..i + 1]) == gs[..i];
  }

  /** `file_to_be_deleted_list` lists each file once per group holding it:
      a file is listed exactly when some group holds it. */
  lemma {:induction false} FlattenMembers(gs: Groups, f: File)
    ensures f in Flatten(gs) <==> exists i :: 0 <= i < |gs| && f in gs[i].members
  {
    if |gs| > 0 {
      FlattenMembers(Init(gs), f);
      if f in Flatten(Init(gs)) {
        var i :| 0 <= i < |Init(gs)| && f in Init(gs)[i].members;
        assert f in gs[i].members;
      }
      if exists i :: 0 <= i < |gs| && f in gs[i].members {
        var i :| 0 <= i < |gs| && f in gs[i].members;
        if i < |gs| - 1 {
          assert f in Init(gs)[i].members;
        }
      }
    }
  }

  /** `Existing` keeps the order of its input: it selects the positions
      whose path exists. */
  lemma {:induction false} ExistingSelects(fs: seq<File>, present: set<Path>)
    ensures Existing(fs, present) == Select(fs, PresentMask(fs, present))
  {
    if |fs| > 0 {
      ExistingSelects(Init(fs), present);
      assert Init(PresentMask(fs, present)) == PresentMask(Init(fs), present);
    }
  }

  /** What `delete` reports is a subsequence of the paths
      `file_to_be_deleted_list` lists: the same walk, skipping the paths that
      do not exist. */
  lemma DeleteReportIsSubsequence(gs: Groups, present: set<Path>)
    ensures IsSubsequence(Paths(Existing(Flatten(gs), present)), Paths(Flatten(gs)))
  {
    var fs := Flatten(gs);
    var keep := PresentMask(fs, present);
    ExistingSelects(fs, present);
    PathsSelect(fs, keep);
    assert Select(Paths(fs), keep) == Paths(Existing(fs, present));
  }

  /** A path is reported exactly when it exists and some remaining group
      member has it. */
  lemma DeleteReportsExactly(gs: Groups, present: set<Path>, p: Path)
    ensures p in Paths(Existing(Flatten(gs), present))
        <==> p in present && exists f :: f in Flatten(gs) && f.path == p
  {
    var e := Existing(Flatten(gs), present);
    if p in Paths(e) {
      var i :| 0 <= i < |e| && Paths(e)[i] == p;
      ExistingMembers(Flatten(gs), present, e[i]);
    }
    if p in present && exists f :: f in Flatten(gs) && f.path == p {
      var f :| f in Flatten(gs) && f.path == p;
      ExistingMembers(Flatten(gs), present, f);
      var i :| 0 <= i < |e| && e[i] == f;
      assert Paths(e)[i] == p;
    }
  }
}

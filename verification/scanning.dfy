/** The `Scan` object and the `main` driver (main.py:14-30): a scan holds the
    listed files and the current duplicate dictionary, and `main` runs
    `check_duplicates`, `mark_to_keep` and `delete` in that order. The
    directory listing and the hashing of each file are not modelled: the
    listed files are given as a sequence. */
module Scanning {
  import opened Results
  import opened Seqs
  import opened Files
  import opened Grouping
  import opened Keeping
  import opened Deleting

  /** A `Scan` object: `file_list` and `duplicates`. The root path is only
      used by the listing, which is given. */
  datatype Scan = Scan(fileList: seq<File>, duplicates: Groups)

  /** `Scan(path)`: `file_list` is what the listing yielded and the
      dictionary starts empty. */
  function NewScan(listing: seq<File>): (s: Scan)
    ensures s.fileList == listing && |s.duplicates| == 0
  {
    Scan(listing, [])
  }

  /** `scan.check_duplicates()`: the dictionary is replaced, whatever it
      held, by the duplicate groups of `file_list`: a checksum is a key
      exactly when two or more listed files carry it, its group holds those
      files in listing order, and the keys follow first occurrence. The list
      is untouched. */
  function ScanCheckDuplicates(s: Scan): (r: Scan)
    ensures r.fileList == s.fileList
    ensures forall g :: g in r.duplicates ==> |g.members| >= 2
    ensures DistinctKeys(r.duplicates)
    ensures FiledByChecksum(r.duplicates, s.fileList)
    ensures forall k :: k in Keys(r.duplicates) <==> Shared(s.fileList, k)
    ensures InFirstSeenOrder(r.duplicates, s.fileList)
  {
    CheckDuplicatesSpec(s.fileList);
    s.(duplicates := CheckDuplicates(s.fileList))
  }

  /** Checking twice gives the same scan as checking once. */
  lemma CheckDuplicatesIdempotent(s: Scan)
    ensures ScanCheckDuplicates(ScanCheckDuplicates(s)) == ScanCheckDuplicates(s)
  {
  }

  /** The result does not depend on what the dictionary held before. */
  lemma CheckDuplicatesForgetsPrevious(s: Scan, t: Scan)
    requires s.fileList == t.fileList
    ensures ScanCheckDuplicates(s) == ScanCheckDuplicates(t)
  {
  }

  /** `scan.mark_to_keep()` on a scan, with the answers read in turn: each
      group loses the file at its chosen position, and nothing else
      changes. */
  function ScanMarkToKeep(s: Scan, choices: seq<int>): (r: Result<Scan, KeepError>)
    ensures r.Ok? <==> ValidChoices(s.duplicates, choices)
    ensures r.Ok? ==> r.value.fileList == s.fileList && Keys(r.value.duplicates) == Keys(s.duplicates)
    ensures r.Ok? ==> forall i :: 0 <= i < |s.duplicates| ==>
      r.value.duplicates[i].members == RemoveAt(s.duplicates[i].members, KeepIndex(s.duplicates, choices, i))
  {
    match MarkToKeep(s.duplicates, choices)
    case Err(e) => Err(e)
    case Ok(d) => Ok(s.(duplicates := d))
  }

  /** `main` after argument parsing: check, mark, then delete. It completes
      exactly when every duplicate group gets an answer naming one of its
      files; then it reports, in walk order, the path of every file left in
      a group whose path exists, hence only paths that exist, and, when the
      listing has no path twice, never the path of a file chosen to keep. */
  method Run(listing: seq<File>, choices: seq<int>, present: set<Path>)
    returns (r: Result<seq<Path>, KeepError>)
    ensures r.Ok? <==> ValidChoices(CheckDuplicates(listing), choices)
    ensures r.Ok? ==>
      r.value == Paths(Existing(Flatten(MarkToKeep(CheckDuplicates(listing), choices).value), present))
    ensures r.Ok? ==> forall p :: p in r.value ==> p in present
    ensures r.Ok? && DistinctPaths(listing) ==>
      forall f :: f in Kept(CheckDuplicates(listing), choices) ==> f.path !in r.value
  {
    var s := ScanCheckDuplicates(NewScan(listing));
    var marked := ScanMarkToKeep(s, choices);
    if marked.Err? {
      return Err(marked.error);
    }
    var removing := Delete(marked.value.duplicates, present);
    forall p | p in removing
      ensures p in present
    {
      DeleteReportsExactly(marked.value.duplicates, present, p);
    }
    if DistinctPaths(listing) {
      KeptNeverReported(listing, choices, present);
    }
    return Ok(removing);
  }

  /** The files left for deletion are the files whose checksum is shared,
      minus the one kept per group: together with the kept files they are a
      rearrangement of the shared entries of `file_list`, and they number
      the shared entries less the number of groups. */
  lemma CandidatesAfterKeep(listing: seq<File>, choices: seq<int>)
    requires ValidChoices(CheckDuplicates(listing), choices)
    ensures var gs := CheckDuplicates(listing);
      multiset(Flatten(MarkToKeep(gs, choices).value)) + multiset(Kept(gs, choices))
        == multiset(SharedIn(listing, listing))
    ensures var gs := CheckDuplicates(listing);
      |Flatten(MarkToKeep(gs, choices).value)| == |SharedIn(listing, listing)| - |gs|
    ensures forall g :: g in MarkToKeep(CheckDuplicates(listing), choices).value ==> |g.members| >= 1
  {
    var gs := CheckDuplicates(listing);
    var after := MarkToKeep(gs, choices).value;
    CheckDuplicatesPartition(listing);
    MarkToKeepPartition(gs, choices);
    assert |Keys(after)| == |Keys(gs)|;
    forall g | g in after
      ensures |g.members| >= 1
    {
      var i :| 0 <= i < |after| && after[i] == g;
      assert gs[i] in gs;
    }
  }

  /** When no path is listed twice, `delete` never reports the path of a
      file chosen to keep. */
  lemma KeptNeverReported(listing: seq<File>, choices: seq<int>, present: set<Path>)
    requires DistinctPaths(listing)
    requires ValidChoices(CheckDuplicates(listing), choices)
    ensures var gs := CheckDuplicates(listing);
      forall f :: f in Kept(gs, choices) ==>
        f.path !in Paths(Existing(Flatten(MarkToKeep(gs, choices).value), present))
  {
    var gs := CheckDuplicates(listing);
    var after := Flatten(MarkToKeep(gs, choices).value);
    var kept := Kept(gs, choices);
    CandidatesAfterKeep(listing, choices);
    forall f | f in kept
      ensures f.path !in Paths(Existing(after, present))
    {
      if f.path in Paths(Existing(after, present)) {
        DeleteReportsExactly(MarkToKeep(gs, choices).value, present, f.path);
        var h :| h in after && h.path == f.path;
        SharedInCount(listing, listing, f);
        SharedInCount(listing, listing, h);
        assert multiset(kept)[f] >= 1;
        assert multiset(after)[h] >= 1;
        if h == f {
          DistinctPathsOccurOnce(listing, f);
        }
        assert false;
      }
    }
  }

  // ---------------------------------------------------------------------
  // The repository's test directory: `image.jpg`, `text_copy.txt`,
  // `text_different.txt` and `text.txt`, where the two text copies have
  // equal content, listed in that order.

  const Image := File("files/image.jpg", "d68e763c825dc0e388929ae1b375ce18")
  const TextCopy := File("files/text_copy.txt", "51037a4a37730f52c8732586d3aaa316")
  const TextDifferent := File("files/text_different.txt", "29e4b66fa8076de4d7a26c727b8dbdfa")
  const Text := File("files/text.txt", "51037a4a37730f52c8732586d3aaa316")

  function Fixture(): seq<File> {
    [Image, TextCopy, TextDifferent, Text]
  }

  /** The loop at main.py:37-38 on the test directory files the two text
      copies together under one key, between the two single files. */
  lemma FixtureAccumulate()
    ensures Accumulate(Fixture()) == [Group(Image.checksum, [Image]), Group(Text.checksum, [TextCopy, Text]),
                                      Group(TextDifferent.checksum, [TextDifferent])]
  {
    var fs := Fixture();
    assert Image.checksum != TextCopy.checksum;
    assert TextDifferent.checksum != TextCopy.checksum;
    assert Image.checksum != TextDifferent.checksum;
    assert Init(fs[..2]) == fs[..1] && Init(fs[..3]) == fs[..2] && Init(fs) == fs[..3];
    assert Accumulate(fs[..1]) == [Group(Image.checksum, [Image])];
    assert Accumulate(fs[..2]) == [Group(Image.checksum, [Image]), Group(Text.checksum, [TextCopy])];
    var g3 := Accumulate(fs[..3]);
    assert g3 == [Group(Image.checksum, [Image]), Group(Text.checksum, [TextCopy]),
                  Group(TextDifferent.checksum, [TextDifferent])];
    assert Accumulate(fs) == Add(g3, Text);
    assert g3[1..] == [Group(Text.checksum, [TextCopy]), Group(TextDifferent.checksum, [TextDifferent])];
    assert [TextCopy] + [Text] == [TextCopy, Text];
    assert Add(g3[1..], Text) == [Group(Text.checksum, [TextCopy, Text]), Group(TextDifferent.checksum, [TextDifferent])];
  }

  /** On the test directory the dictionary starts empty and
      `check_duplicates` finds exactly one group, the two text copies in
      listing order (`test_check_duplicates`). */
  lemma FixtureCheckDuplicates()
    ensures NewScan(Fixture()).duplicates == []
    ensures CheckDuplicates(Fixture()) == [Group(Text.checksum, [TextCopy, Text])]
  {
    FixtureAccumulate();
    var acc := Accumulate(Fixture());
    assert Init(acc) == [Group(Image.checksum, [Image]), Group(Text.checksum, [TextCopy, Text])];
    assert Init(Init(acc)) == [Group(Image.checksum, [Image])];
    assert KeepShared(Init(Init(acc))) == [];
  }

  /** Answering 0 for a single group of two keeps the first file and
      leaves the second. */
  lemma KeepFirstOfPair(k: Checksum, a: File, b: File)
    ensures MarkToKeep([Group(k, [a, b])], [0]) == Ok([Group(k, [b])])
  {
    var gs := [Group(k, [a, b])];
    assert ValidAt(gs, [0], 0);
    var r := MarkToKeep(gs, [0]);
    assert KeepIndex(gs, [0], 0) == 0;
    assert RemoveAt([a, b], 0) == [b];
    assert |Keys(r.value)| == 1 && Keys(r.value)[0] == k;
    assert r.value == [Group(k, [b])];
  }

  /** Answering 0 keeps `text_copy.txt` and leaves `text.txt` alone in the
      group (`test_mark_to_keep`). */
  lemma FixtureKeep()
    ensures MarkToKeep(CheckDuplicates(Fixture()), [0]) == Ok([Group(Text.checksum, [Text])])
  {
    FixtureCheckDuplicates();
    KeepFirstOfPair(Text.checksum, TextCopy, Text);
  }

  /** With every file of the test directory present, `delete` then reports
      exactly `text.txt`. */
  lemma FixtureDelete()
    ensures Paths(Existing(Flatten([Group(Text.checksum, [Text])]),
                           {Image.path, TextCopy.path, TextDifferent.path, Text.path}))
         == [Text.path]
  {
    var gs := [Group(Text.checksum, [Text])];
    assert Init(gs) == [];
    assert Flatten(gs) == [Text];
    assert Init([Text]) == [];
    assert Existing([Text], {Image.path, TextCopy.path, TextDifferent.path, Text.path}) == [Text];
  }
}

/** A scanned file, reduced to what the duplicate pipeline reads of it. */
module Files {
  import opened Seqs

  type Path = string

  /** A content digest; equal digests are taken to mean equal content. */
  type Checksum = string

  /** One entry of `Scan.file_list`. Name, extension and size are carried by
      the source only for display and are not modelled. */
  datatype File = File(path: Path, checksum: Checksum)

  /** The paths of `fs`, position by position. */
  function Paths(fs: seq<File>): seq<Path> {
    seq(|fs|, i requires 0 <= i < |fs| => fs[i].path)
  }

  /** The checksums of `fs`, position by position. */
  function Checksums(fs: seq<File>): (r: seq<Checksum>)
    ensures |r| == |fs|
    ensures forall i :: 0 <= i < |fs| ==> r[i] == fs[i].checksum
  {
    if |fs| == 0 then [] else Checksums(Init(fs)) + [Last(fs).checksum]
  }

  /** No two positions of `fs` carry the same path, as a directory listing
      never yields one path twice. */
  predicate DistinctPaths(fs: seq<File>) {
    forall i, j :: 0 <= i < j < |fs| ==> fs[i].path != fs[j].path
  }

  /** With distinct paths, no file occurs twice. */
  lemma {:induction false} DistinctPathsOccurOnce(fs: seq<File>, x: File)
    requires DistinctPaths(fs)
    ensures multiset(fs)[x] <= 1
  {
    if |fs| > 0 {
      InitLast(fs);
      DistinctPathsOccurOnce(Init(fs), x);
    }
  }

  /** Selecting positions and then taking paths is taking paths and then
      selecting the same positions. */
  lemma {:induction false} PathsSelect(fs: seq<File>, keep: seq<bool>)
    requires |keep| == |fs|
    ensures Paths(Select(fs, keep)) == Select(Paths(fs), keep)
  {
    if |fs| > 0 {
      PathsSelect(Init(fs), Init(keep));
      assert Init(Paths(fs)) == Paths(Init(fs));
      var s := Select(Init(fs), Init(keep));
      if Last(keep) {
        assert Init(s + [Last(fs)]) == s;
      }
    }
  }
}

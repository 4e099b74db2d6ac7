/** The parsed diff (src/models/mod.rs) and the machine integers it uses. */
module DiffModel {
  import opened Sequences

  const U32_MAX: nat := 0xFFFF_FFFF
  const USIZE_MAX: nat := 0xFFFF_FFFF_FFFF_FFFF

  type u8 = n: nat | n <= 255
  type u32 = n: nat | n <= U32_MAX
  type usize = n: nat | n <= USIZE_MAX

  datatype DiffLineKind = Add | Delete | Context

  datatype DiffLine = DiffLine(kind: DiffLineKind, content: string, oldLineNo: Option<u32>, newLineNo: Option<u32>)

  datatype DiffHunk = DiffHunk(
    header: string, oldStart: u32, oldLines: u32, newStart: u32, newLines: u32, lines: seq<DiffLine>)

  datatype DiffFile = DiffFile(
    path: string, oldPath: string, newPath: string, status: string,
    additions: nat, deletions: nat, hunks: seq<DiffHunk>)
  {
    /** Everything about the file except which of its hunks are present. */
    function Identity(): DiffFile {
      this.(hunks := [])
    }

    /** The file cut down to the given hunks. */
    function Partial(kept: seq<DiffHunk>): DiffFile {
      this.(hunks := kept)
    }

    /** One (file, hunk) pair per hunk, in order. */
    function HunkPairs(): seq<HunkPair> {
      seq(|hunks|, i requires 0 <= i < |hunks| => HunkPair(Identity(), hunks[i]))
    }
  }

  /** A hunk together with the file it belongs to. */
  datatype HunkPair = HunkPair(file: DiffFile, hunk: DiffHunk)

  /** The (file, hunk) pairs of a list of files, in order. */
  function PairsOf(files: seq<DiffFile>): seq<HunkPair> {
    if files == [] then [] else files[0].HunkPairs() + PairsOf(files[1..])
  }

  lemma {:induction false} PairsOfConcat(a: seq<DiffFile>, b: seq<DiffFile>)
    ensures PairsOf(a + b) == PairsOf(a) + PairsOf(b)
  {
    if a == [] {
      assert a + b == b;
    } else {
      assert (a + b)[0] == a[0] && (a + b)[1..] == a[1..] + b;
      PairsOfConcat(a[1..], b);
    }
  }

  lemma {:induction false} PairsOfMember(files: seq<DiffFile>, i: nat, p: HunkPair)
    requires i < |files| && p in files[i].HunkPairs()
    ensures p in PairsOf(files)
  {
    if i > 0 {
      PairsOfMember(files[1..], i - 1, p);
    }
  }

  lemma {:induction false} PairsOfOrigin(files: seq<DiffFile>, p: HunkPair) returns (i: nat)
    requires p in PairsOf(files)
    ensures i < |files| && p in files[i].HunkPairs()
  {
    if p in files[0].HunkPairs() {
      i := 0;
    } else {
      var j := PairsOfOrigin(files[1..], p);
      i := j + 1;
    }
  }
}

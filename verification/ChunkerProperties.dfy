/** What the chunkers promise, for every list of files and every budget. */
module ChunkingProperties {
  import opened Sequences
  import opened DiffModel
  import opened Packing
  import opened Chunking

  // ----- conservation -----

  /** What one input file contributes: itself when it fits, otherwise one partial file per group of hunks. */
  function Unfold(c: Chunker, file: DiffFile): seq<DiffFile> {
    if c.Oversized(file) then Flatten(c.Pieces(file)) else [file]
  }

  function UnfoldAll(c: Chunker, files: seq<DiffFile>): seq<DiffFile> {
    if files == [] then [] else Unfold(c, files[0]) + UnfoldAll(c, files[1..])
  }

  lemma FlattenClosed(cur: seq<DiffFile>)
    ensures Flatten(Closed(cur)) == cur
  {
  }

  /** An oversized file closes the open run, and its pieces follow. */
  lemma OversizedUnfold(c: Chunker, cur: seq<DiffFile>, f: DiffFile, rest: seq<DiffFile>)
    requires c.Oversized(f) && Flatten(c.HunkRuns([], rest)) == [] + UnfoldAll(c, rest)
    ensures Flatten(c.HunkRuns(cur, [f] + rest)) == cur + UnfoldAll(c, [f] + rest)
  {
    var pieces, runs := c.Pieces(f), c.HunkRuns([], rest);
    assert c.HunkRuns(cur, [f] + rest) == Closed(cur) + (pieces + runs);
    FlattenConcat(pieces, runs);
    FlattenConcat(Closed(cur), pieces + runs);
    FlattenClosed(cur);
  }

  /** A file that fits stays whole, in the run after the one it closes or in the open one. */
  lemma FittingUnfold(c: Chunker, cur: seq<DiffFile>, f: DiffFile, rest: seq<DiffFile>, runs: seq<seq<DiffFile>>)
    requires !c.Oversized(f)
    ensures Flatten(runs) == [f] + UnfoldAll(c, rest) ==> Flatten([cur] + runs) == cur + UnfoldAll(c, [f] + rest)
    ensures (cur + [f]) + UnfoldAll(c, rest) == cur + UnfoldAll(c, [f] + rest)
  {
    assert ([cur] + runs)[1..] == runs;
    assert UnfoldAll(c, [f] + rest) == [f] + UnfoldAll(c, rest);
  }

  /** The chunks hold exactly the contributions of the files, in order: a file that fits is
      whole in one chunk. */
  lemma {:induction false} HunkRunsUnfold(c: Chunker, cur: seq<DiffFile>, files: seq<DiffFile>)
    ensures Flatten(c.HunkRuns(cur, files)) == cur + UnfoldAll(c, files)
    decreases |files|
  {
    if files == [] {
      FlattenClosed(cur);
    } else {
      var f, rest := files[0], files[1..];
      assert files == [f] + rest;
      if c.Oversized(f) {
        HunkRunsUnfold(c, [], rest);
        OversizedUnfold(c, cur, f, rest);
      } else {
        FittingUnfold(c, cur, f, rest, c.HunkRuns([f], rest));
        if cur != [] && Exceeds(Cost(c.fileTokens, cur) + c.fileTokens(f), c.budget) {
          HunkRunsUnfold(c, [f], rest);
        } else {
          HunkRunsUnfold(c, cur + [f], rest);
        }
      }
    }
  }

  lemma ByHunksUnfold(c: Chunker, files: seq<DiffFile>)
    ensures Flatten(Runs(c.ByHunks(files))) == UnfoldAll(c, files)
  {
    RunsOfNumbered(c.HunkRuns([], files), |c.HunkRuns([], files)|);
    HunkRunsUnfold(c, [], files);
    assert [] + UnfoldAll(c, files) == UnfoldAll(c, files);
  }

  lemma {:induction false} HunkRunsNonEmpty(c: Chunker, cur: seq<DiffFile>, files: seq<DiffFile>, i: nat)
    requires i < |c.HunkRuns(cur, files)|
    ensures c.HunkRuns(cur, files)[i] != []
    decreases |files|
  {
    if files != [] {
      var f, rest := files[0], files[1..];
      if c.Oversized(f) {
        var n := |Closed(cur)| + |c.Pieces(f)|;
        if n <= i { HunkRunsNonEmpty(c, [], rest, i - n); }
      } else if cur != [] && Exceeds(Cost(c.fileTokens, cur) + c.fileTokens(f), c.budget) {
        if i > 0 { HunkRunsNonEmpty(c, [f], rest, i - 1); }
      } else {
        HunkRunsNonEmpty(c, cur + [f], rest, i);
      }
    }
  }

  lemma PartialPairs(file: DiffFile, a: seq<DiffHunk>, b: seq<DiffHunk>)
    ensures file.Partial(a + b).HunkPairs() == file.Partial(a).HunkPairs() + file.Partial(b).HunkPairs()
  {
    assert file.Partial(a).Identity() == file.Partial(b).Identity() == file.Identity();
    assert file.Partial(a + b).Identity() == file.Identity();
  }

  lemma {:induction false} SinglesPairs(file: DiffFile, groups: seq<seq<DiffHunk>>)
    ensures PairsOf(Flatten(Chunker.Singles(file, groups))) == file.Partial(Flatten(groups)).HunkPairs()
  {
    if groups == [] {
      assert Chunker.Singles(file, groups) == [];
    } else {
      SinglesPairs(file, groups[1..]);
      var head := file.Partial(groups[0]);
      assert Chunker.Singles(file, groups) == [[head]] + Chunker.Singles(file, groups[1..]);
      FlattenConcat([[head]], Chunker.Singles(file, groups[1..]));
      assert Flatten([[head]]) == [head] + Flatten([]) == [head];
      PairsOfConcat([head], Flatten(Chunker.Singles(file, groups[1..])));
      assert PairsOf([head]) == head.HunkPairs() + PairsOf([]) == head.HunkPairs();
      PartialPairs(file, groups[0], Flatten(groups[1..]));
    }
  }

  lemma UnfoldPairs(c: Chunker, file: DiffFile)
    ensures PairsOf(Unfold(c, file)) == file.HunkPairs()
  {
    if c.Oversized(file) {
      PackConserves(c.hunkTokens, c.budget, [], file.hunks);
      SinglesPairs(file, Pack(c.hunkTokens, c.budget, [], file.hunks));
      assert [] + file.hunks == file.hunks;
      assert file.Partial(file.hunks) == file;
    } else {
      assert PairsOf([file]) == file.HunkPairs() + PairsOf([]);
    }
  }

  lemma {:induction false} UnfoldAllPairs(c: Chunker, files: seq<DiffFile>)
    ensures PairsOf(UnfoldAll(c, files)) == PairsOf(files)
  {
    if files != [] {
      UnfoldPairs(c, files[0]);
      UnfoldAllPairs(c, files[1..]);
      PairsOfConcat(Unfold(c, files[0]), UnfoldAll(c, files[1..]));
    }
  }

  /** Hunk-level chunking keeps the (file, hunk) sequence of its input, in order. */
  lemma ByHunksConserves(c: Chunker, files: seq<DiffFile>)
    ensures ChunkPairs(c.ByHunks(files)) == PairsOf(files)
  {
    ByHunksUnfold(c, files);
    UnfoldAllPairs(c, files);
  }

  /** A file leaves no trace in the chunks exactly when it is oversized and has no hunks. */
  lemma LostFile(c: Chunker, file: DiffFile)
    ensures Unfold(c, file) == [] <==> c.Oversized(file) && file.hunks == []
    ensures forall i :: 0 <= i < |Unfold(c, file)| ==> Unfold(c, file)[i].Identity() == file.Identity()
  {
    if c.Oversized(file) {
      var groups := Pack(c.hunkTokens, c.budget, [], file.hunks);
      PackConserves(c.hunkTokens, c.budget, [], file.hunks);
      assert [] + file.hunks == file.hunks;
      SinglesFlatten(file, groups);
      assert groups == [] <==> file.hunks == [] by {
        if groups != [] { assert Flatten(groups) == groups[0] + Flatten(groups[1..]); }
      }
    }
  }

  lemma {:induction false} SinglesFlatten(file: DiffFile, groups: seq<seq<DiffHunk>>)
    ensures Flatten(Chunker.Singles(file, groups)) ==
      seq(|groups|, i requires 0 <= i < |groups| => file.Partial(groups[i]))
  {
    if groups != [] {
      SinglesFlatten(file, groups[1..]);
      assert Chunker.Singles(file, groups)[1..] == Chunker.Singles(file, groups[1..]);
    }
  }

  // ----- budgets -----

  /** What a chunk of hunk-level chunking holds: whole files that fit, together within budget or
      one alone; or one piece of an oversized file whose hunks are within budget or a single hunk. */
  ghost predicate WellFilled(c: Chunker, files: seq<DiffFile>, run: seq<DiffFile>) {
    || (&& (forall f :: f in run ==> f in files && !c.Oversized(f))
        && Cost(c.fileTokens, run) <= c.budget)
    || (exists f: DiffFile, group: seq<DiffHunk> ::
          && run == [f.Partial(group)] && f in files && c.Oversized(f)
          && group != [] && (Cost(c.hunkTokens, group) <= c.budget || |group| == 1))
  }

  lemma PieceWellFilled(c: Chunker, files: seq<DiffFile>, file: DiffFile, i: nat)
    requires c.budget < USIZE_MAX && file in files && c.Oversized(file) && i < |c.Pieces(file)|
    ensures WellFilled(c, files, c.Pieces(file)[i])
  {
    var groups := Pack(c.hunkTokens, c.budget, [], file.hunks);
    PackConserves(c.hunkTokens, c.budget, [], file.hunks);
    PackAdmissible(c.hunkTokens, c.budget, [], file.hunks);
    assert Admissible(c.hunkTokens, c.budget, groups[i]) && groups[i] != [];
    assert c.Pieces(file)[i] == [file.Partial(groups[i])];
  }

  ghost predicate AllWellFilled(c: Chunker, files: seq<DiffFile>, runs: seq<seq<DiffFile>>) {
    forall i :: 0 <= i < |runs| ==> WellFilled(c, files, runs[i])
  }

  lemma WellFilledConcat(c: Chunker, files: seq<DiffFile>, a: seq<seq<DiffFile>>, b: seq<seq<DiffFile>>)
    requires AllWellFilled(c, files, a) && AllWellFilled(c, files, b)
    ensures AllWellFilled(c, files, a + b)
  {
  }

  lemma ClosedWellFilled(c: Chunker, files: seq<DiffFile>, cur: seq<DiffFile>)
    requires forall f :: f in cur ==> f in files && !c.Oversized(f)
    requires Cost(c.fileTokens, cur) <= c.budget
    ensures AllWellFilled(c, files, Closed(cur)) && AllWellFilled(c, files, [cur])
  {
  }

  lemma PiecesWellFilled(c: Chunker, files: seq<DiffFile>, file: DiffFile)
    requires c.budget < USIZE_MAX && file in files && c.Oversized(file)
    ensures AllWellFilled(c, files, c.Pieces(file))
  {
    forall i | 0 <= i < |c.Pieces(file)| ensures WellFilled(c, files, c.Pieces(file)[i]) {
      PieceWellFilled(c, files, file, i);
    }
  }

  /** Every chunk of hunk-level chunking is well filled. */
  lemma {:induction false} HunkRunsWellFilled(c: Chunker, all: seq<DiffFile>, cur: seq<DiffFile>, files: seq<DiffFile>)
    requires c.budget < USIZE_MAX
    requires forall f :: f in files ==> f in all
    requires forall f :: f in cur ==> f in all && !c.Oversized(f)
    requires Cost(c.fileTokens, cur) <= c.budget
    ensures AllWellFilled(c, all, c.HunkRuns(cur, files))
    decreases |files|
  {
    ClosedWellFilled(c, all, cur);
    if files != [] {
      var f, rest := files[0], files[1..];
      if c.Oversized(f) {
        PiecesWellFilled(c, all, f);
        HunkRunsWellFilled(c, all, [], rest);
        WellFilledConcat(c, all, c.Pieces(f), c.HunkRuns([], rest));
        WellFilledConcat(c, all, Closed(cur), c.Pieces(f) + c.HunkRuns([], rest));
      } else if cur != [] && Exceeds(Cost(c.fileTokens, cur) + c.fileTokens(f), c.budget) {
        CostOne(c.fileTokens, f);
        HunkRunsWellFilled(c, all, [f], rest);
        WellFilledConcat(c, all, [cur], c.HunkRuns([f], rest));
      } else {
        CostOne(c.fileTokens, f);
        CostConcat(c.fileTokens, cur, [f]);
        HunkRunsWellFilled(c, all, cur + [f], rest);
      }
    }
  }

  // ----- the fallback -----

  lemma {:induction false} HunkRunsWithoutOversized(c: Chunker, cur: seq<DiffFile>, files: seq<DiffFile>)
    requires forall i :: 0 <= i < |files| ==> !c.Oversized(files[i])
    ensures c.HunkRuns(cur, files) == Pack(c.fileTokens, c.budget, cur, files)
    decreases |files|
  {
    if files != [] {
      HunkRunsWithoutOversized(c, [files[0]], files[1..]);
      HunkRunsWithoutOversized(c, cur + [files[0]], files[1..]);
    }
  }

  /** Adaptive chunking: whole files first, hunks when some file is oversized. Since the two
      agree when nothing is oversized, it always equals hunk-level chunking. */
  method AdaptiveChunk(c: Chunker, files: seq<DiffFile>) returns (chunks: seq<DiffChunk>)
    ensures chunks == c.ByHunks(files)
  {
    var fileChunks, anyOversized := c.ChunkByFilesInner(files);
    if anyOversized {
      chunks := c.ChunkByHunks(files);
    } else {
      chunks := fileChunks;
      c.AnyOversizedExists(files);
      HunkRunsWithoutOversized(c, [], files);
    }
  }

  /** A chunk of whole-file chunking is over budget exactly when it is one oversized file alone. */
  lemma FileRunOverBudget(c: Chunker, files: seq<DiffFile>, i: nat)
    requires c.budget < USIZE_MAX && i < |c.FileRuns(files)|
    ensures var run := c.FileRuns(files)[i];
      Cost(c.fileTokens, run) > c.budget <==> |run| == 1 && c.Oversized(run[0])
  {
    var run := c.FileRuns(files)[i];
    PackAdmissible(c.fileTokens, c.budget, [], files);
    PackConserves(c.fileTokens, c.budget, [], files);
    assert Admissible(c.fileTokens, c.budget, run) && run != [];
    if |run| == 1 {
      CostConcat(c.fileTokens, [], run);
      assert run[..0] == [];
    }
  }

  /** The flag that triggers the fallback says "some chunk is over budget", except that with the
      largest budget there is no flag and everything lands in one chunk. */
  lemma FallbackFlag(c: Chunker, files: seq<DiffFile>)
    ensures (exists i :: 0 <= i < |c.FileRuns(files)| && Cost(c.fileTokens, c.FileRuns(files)[i]) > c.budget)
      <==> c.AnyOversized(files) || (c.budget == USIZE_MAX && Cost(c.fileTokens, files) > USIZE_MAX)
  {
    var runs := c.FileRuns(files);
    c.AnyOversizedExists(files);
    PackConserves(c.fileTokens, c.budget, [], files);
    assert [] + files == files;
    if c.budget == USIZE_MAX {
      PackUnlimited(c.fileTokens, [], files);
    } else {
      if i :| 0 <= i < |runs| && Cost(c.fileTokens, runs[i]) > c.budget {
        FileRunOverBudget(c, files, i);
        FlattenMember(runs, i, runs[i][0]);
        assert runs[i][0] in files;
      }
      if j :| 0 <= j < |files| && c.Oversized(files[j]) {
        var i := FlattenOrigin(runs, files[j]);
        var k :| 0 <= k < |runs[i]| && runs[i][k] == files[j];
        CostElement(c.fileTokens, runs[i], k);
      }
    }
  }

  lemma {:induction false} PackUnlimited<T>(cost: T -> usize, cur: seq<T>, rest: seq<T>)
    ensures Pack(cost, USIZE_MAX, cur, rest) == if cur + rest == [] then [] else [cur + rest]
    decreases |rest|
  {
    if rest == [] {
      assert cur + rest == cur;
    } else {
      PackUnlimited(cost, cur + [rest[0]], rest[1..]);
      assert cur + [rest[0]] + rest[1..] == cur + rest;
    }
  }

  // ----- optimality -----

  /** Whole-file chunking: nothing lost or reordered, no empty chunk, and as few chunks as any
      division of the list into consecutive runs that are within budget or a single file. */
  lemma ByFilesOptimal(c: Chunker, files: seq<DiffFile>, split: seq<seq<DiffFile>>)
    requires Flatten(split) == files
    requires forall i :: 0 <= i < |split| ==> Admissible(c.fileTokens, c.budget, split[i])
    ensures Flatten(Runs(c.ByFiles(files))) == files
    ensures |c.ByFiles(files)| <= |split|
  {
    RunsOfNumbered(c.FileRuns(files), |c.FileRuns(files)|);
    PackConserves(c.fileTokens, c.budget, [], files);
    PackOptimal(c.fileTokens, c.budget, split);
    assert [] + files == files;
  }

  /** An oversized file is cut into as few pieces as any consecutive grouping of its hunks allows. */
  lemma PiecesOptimal(c: Chunker, file: DiffFile, split: seq<seq<DiffHunk>>)
    requires Flatten(split) == file.hunks
    requires forall i :: 0 <= i < |split| ==> Admissible(c.hunkTokens, c.budget, split[i])
    ensures |c.Pieces(file)| <= |split|
  {
    PackOptimal(c.hunkTokens, c.budget, split);
  }

  /** Files already open never save a chunk, and cost at most one. */
  lemma {:induction false} HunkHeadStart(c: Chunker, u: seq<DiffFile>, v: seq<DiffFile>, files: seq<DiffFile>)
    ensures |c.HunkRuns(v, files)| <= |c.HunkRuns(u + v, files)| <= 1 + |c.HunkRuns(v, files)|
    decreases |files|
  {
    if files != [] && !c.Oversized(files[0]) {
      var f, rest := files[0], files[1..];
      CostConcat(c.fileTokens, u, v);
      assert (u + v) + [f] == u + (v + [f]);
      assert [] + [f] == [f];
      HunkHeadStart(c, u, v + [f], rest);
      HunkHeadStart(c, v, [f], rest);
      HunkHeadStart(c, u, [f], rest);
    }
  }

  /** Fitting files that are admissible together share a chunk. */
  lemma {:induction false} HunkRunsKeepWhole(c: Chunker, cur: seq<DiffFile>, run: seq<DiffFile>, files: seq<DiffFile>)
    requires Admissible(c.fileTokens, c.budget, cur + run)
    requires forall f :: f in run ==> !c.Oversized(f)
    ensures c.HunkRuns(cur, run + files) == c.HunkRuns(cur + run, files)
    decreases |run|
  {
    if run == [] {
      assert run + files == files && cur + run == cur;
    } else {
      var f := run[0];
      assert (run + files)[0] == f && (run + files)[1..] == run[1..] + files;
      assert (cur + [f]) + run[1..] == cur + run;
      CostConcat(c.fileTokens, cur, [f]);
      CostConcat(c.fileTokens, cur + [f], run[1..]);
      HunkRunsKeepWhole(c, cur + [f], run[1..], files);
    }
  }

  /** One step of a division of a file list: some files whole in one chunk, or one file cut into
      groups of hunks, each a chunk. */
  datatype Part = Together(run: seq<DiffFile>) | Cut(file: DiffFile, groups: seq<seq<DiffHunk>>) {
    function Files(): seq<DiffFile> {
      if Together? then run else [file]
    }

    function Chunks(): nat {
      if Together? then 1 else |groups|
    }

    /** Fitting files stay whole, oversized files are cut, and no chunk that could be smaller is over budget. */
    ghost predicate Allowed(c: Chunker) {
      if Together? then
        Admissible(c.fileTokens, c.budget, run) && forall f :: f in run ==> !c.Oversized(f)
      else
        && c.Oversized(file) && Flatten(groups) == file.hunks
        && forall i :: 0 <= i < |groups| ==> Admissible(c.hunkTokens, c.budget, groups[i])
    }
  }

  function PartFiles(parts: seq<Part>): seq<DiffFile> {
    if parts == [] then [] else parts[0].Files() + PartFiles(parts[1..])
  }

  function PartChunks(parts: seq<Part>): nat {
    if parts == [] then 0 else parts[0].Chunks() + PartChunks(parts[1..])
  }

  lemma {:induction false} DivisionOptimal(c: Chunker, parts: seq<Part>)
    requires forall i :: 0 <= i < |parts| ==> parts[i].Allowed(c)
    ensures |c.HunkRuns([], PartFiles(parts))| <= PartChunks(parts)
  {
    if parts != [] {
      var part, rest := parts[0], PartFiles(parts[1..]);
      DivisionOptimal(c, parts[1..]);
      match part
      case Together(run) =>
        assert [] + run == run && run + [] == run;
        HunkRunsKeepWhole(c, [], run, rest);
        HunkHeadStart(c, run, [], rest);
      case Cut(file, groups) =>
        PiecesOptimal(c, file, groups);
    }
  }

  /** The files that leave no trace: oversized and without hunks. */
  predicate Vanishes(c: Chunker, file: DiffFile) {
    c.Oversized(file) && file.hunks == []
  }

  function Kept(c: Chunker, files: seq<DiffFile>): seq<DiffFile> {
    if files == [] then [] else (if Vanishes(c, files[0]) then [] else [files[0]]) + Kept(c, files[1..])
  }

  function Vanishing(c: Chunker, files: seq<DiffFile>): nat {
    if files == [] then 0 else (if Vanishes(c, files[0]) then 1 else 0) + Vanishing(c, files[1..])
  }

  /** A file that leaves no trace costs at most the one chunk it closes. */
  lemma {:induction false} VanishingCost(c: Chunker, cur: seq<DiffFile>, files: seq<DiffFile>)
    ensures |c.HunkRuns(cur, files)| <= |c.HunkRuns(cur, Kept(c, files))| + Vanishing(c, files)
    decreases |files|
  {
    if files != [] {
      var f, rest := files[0], files[1..];
      if Vanishes(c, f) {
        VanishingCost(c, [], rest);
        assert files == [f] + rest && cur + [] == cur;
        VanishingCloses(c, cur, f, rest);
        HunkHeadStart(c, cur, [], Kept(c, rest));
      } else {
        VanishingCost(c, [], rest);
        VanishingCost(c, [f], rest);
        VanishingCost(c, cur + [f], rest);
      }
    }
  }

  /** Hunk-level chunking uses as few chunks as any division that keeps fitting files whole and cuts
      oversized ones alone; each oversized file without hunks may cost one chunk more. */
  lemma ByHunksOptimal(c: Chunker, files: seq<DiffFile>, parts: seq<Part>)
    requires PartFiles(parts) == Kept(c, files)
    requires forall i :: 0 <= i < |parts| ==> parts[i].Allowed(c)
    ensures |c.ByHunks(files)| <= PartChunks(parts) + Vanishing(c, files)
  {
    VanishingCost(c, [], files);
    DivisionOptimal(c, parts);
  }

  lemma FittingOpens(c: Chunker, f: DiffFile, rest: seq<DiffFile>)
    requires !c.Oversized(f)
    ensures c.HunkRuns([], [f] + rest) == c.HunkRuns([f], rest)
  {
    assert [] + [f] == [f];
  }

  lemma VanishingCloses(c: Chunker, cur: seq<DiffFile>, f: DiffFile, rest: seq<DiffFile>)
    requires Vanishes(c, f)
    ensures c.HunkRuns(cur, [f] + rest) == Closed(cur) + c.HunkRuns([], rest)
    ensures Kept(c, [f] + rest) == Kept(c, rest)
  {
    assert c.Pieces(f) == [];
  }

  lemma PairCost(c: Chunker, a: DiffFile, b: DiffFile)
    ensures Cost(c.fileTokens, [a, b]) == c.fileTokens(a) + c.fileTokens(b)
  {
    CostConcat(c.fileTokens, [a], [b]);
    CostOne(c.fileTokens, a);
    CostOne(c.fileTokens, b);
    assert [a] + [b] == [a, b];
  }

  /** That extra chunk is real: an oversized file without hunks between two small ones that fit together. */
  lemma ExtraChunk(c: Chunker, a: DiffFile, lost: DiffFile, b: DiffFile)
    requires Vanishes(c, lost) && c.fileTokens(a) + c.fileTokens(b) <= c.budget
    ensures |c.ByHunks([a, lost, b])| == 2
    ensures PartFiles([Together([a, b])]) == Kept(c, [a, lost, b])
    ensures Together([a, b]).Allowed(c) && PartChunks([Together([a, b])]) == 1
  {
    assert [a, lost, b] == [a] + ([lost] + [b]) && [b] == [b] + [];
    FittingOpens(c, a, [lost] + [b]);
    VanishingCloses(c, [a], lost, [b]);
    FittingOpens(c, b, []);
    PairCost(c, a, b);
    assert Kept(c, [b]) == [b];
  }

  // ----- what a list of chunks must be -----

  ghost predicate AllAdmissible<T>(cost: T -> usize, budget: usize, split: seq<seq<T>>) {
    forall i :: 0 <= i < |split| ==> Admissible(cost, budget, split[i])
  }

  ghost predicate AllAllowed(c: Chunker, parts: seq<Part>) {
    forall i :: 0 <= i < |parts| ==> parts[i].Allowed(c)
  }

  /** Whole files in order, each chunk within budget or one file alone, and as few chunks as can be. */
  ghost predicate WholeFileChunks(c: Chunker, files: seq<DiffFile>, chunks: seq<DiffChunk>) {
    && Flatten(Runs(chunks)) == files
    && (c.budget < USIZE_MAX ==> AllAdmissible(c.fileTokens, c.budget, Runs(chunks)))
    && (c.budget == USIZE_MAX ==> |chunks| <= 1)
    && forall split :: Flatten(split) == files && AllAdmissible(c.fileTokens, c.budget, split) ==> |chunks| <= |split|
  }

  /** Every (file, hunk) pair in order, every fitting file whole in some chunk, every chunk well filled,
      and as few chunks as can be, but for one per oversized file without hunks. */
  ghost predicate HunkLevelChunks(c: Chunker, files: seq<DiffFile>, chunks: seq<DiffChunk>) {
    && ChunkPairs(chunks) == PairsOf(files)
    && (forall f :: f in files && !c.Oversized(f) ==> f in Flatten(Runs(chunks)))
    && (c.budget < USIZE_MAX ==> forall i :: 0 <= i < |chunks| ==> WellFilled(c, files, chunks[i].files))
    && (c.budget == USIZE_MAX ==> |chunks| <= 1)
    && forall parts :: PartFiles(parts) == Kept(c, files) && AllAllowed(c, parts) ==>
         |chunks| <= PartChunks(parts) + Vanishing(c, files)
  }

  lemma ByFilesIsWholeFile(c: Chunker, files: seq<DiffFile>)
    ensures WholeFileChunks(c, files, c.ByFiles(files))
  {
    var runs := c.FileRuns(files);
    RunsOfNumbered(runs, |runs|);
    PackConserves(c.fileTokens, c.budget, [], files);
    assert [] + files == files;
    if c.budget < USIZE_MAX {
      PackAdmissible(c.fileTokens, c.budget, [], files);
    } else {
      PackUnlimited(c.fileTokens, [], files);
    }
    forall split | Flatten(split) == files && AllAdmissible(c.fileTokens, c.budget, split)
      ensures |c.ByFiles(files)| <= |split|
    {
      PackOptimal(c.fileTokens, c.budget, split);
    }
  }

  lemma {:induction false} UnfoldKeepsFitting(c: Chunker, files: seq<DiffFile>, f: DiffFile)
    requires f in files && !c.Oversized(f)
    ensures f in UnfoldAll(c, files)
  {
    if f != files[0] { UnfoldKeepsFitting(c, files[1..], f); }
  }

  lemma ByHunksIsHunkLevel(c: Chunker, files: seq<DiffFile>)
    ensures HunkLevelChunks(c, files, c.ByHunks(files))
  {
    var chunks := c.ByHunks(files);
    ByHunksConserves(c, files);
    ByHunksUnfold(c, files);
    forall f | f in files && !c.Oversized(f) ensures f in Flatten(Runs(chunks)) {
      UnfoldKeepsFitting(c, files, f);
    }
    if c.budget < USIZE_MAX {
      HunkRunsWellFilled(c, files, [], files);
      forall i | 0 <= i < |chunks| ensures WellFilled(c, files, chunks[i].files) {}
    } else {
      HunkRunsWithoutOversized(c, [], files);
      PackUnlimited(c.fileTokens, [], files);
    }
    forall parts | PartFiles(parts) == Kept(c, files) && AllAllowed(c, parts)
      ensures |chunks| <= PartChunks(parts) + Vanishing(c, files)
    {
      ByHunksOptimal(c, files, parts);
    }
  }

  /** The token sums of two neighbouring whole-file chunks together exceed the budget. */
  lemma ByFilesNeighbours(c: Chunker, files: seq<DiffFile>, i: nat)
    requires i + 1 < |c.ByFiles(files)|
    ensures Cost(c.fileTokens, c.ByFiles(files)[i].files) + Cost(c.fileTokens, c.ByFiles(files)[i + 1].files) > c.budget
  {
    PackNeighbours(c.fileTokens, c.budget, [], files, i);
  }
}

/** Splitting a diff into chunks under a token budget (src/diff/chunker.rs). */
module Chunking {
  import opened Sequences
  import opened DiffModel
  import opened Packing

  /** A chunk of diff files to be processed together. */
  datatype DiffChunk = DiffChunk(files: seq<DiffFile>, chunkIndex: nat, totalChunks: nat)

  /** The chunks that carry the given runs, numbered in order. */
  function Numbered(runs: seq<seq<DiffFile>>, total: nat): seq<DiffChunk> {
    seq(|runs|, i requires 0 <= i < |runs| => DiffChunk(runs[i], i, total))
  }

  /** The file lists of the chunks. */
  function Runs(chunks: seq<DiffChunk>): seq<seq<DiffFile>> {
    seq(|chunks|, i requires 0 <= i < |chunks| => chunks[i].files)
  }

  /** Every (file, hunk) pair the chunks hold, in order. */
  function ChunkPairs(chunks: seq<DiffChunk>): seq<HunkPair> {
    PairsOf(Flatten(Runs(chunks)))
  }

  lemma RunsOfNumbered(runs: seq<seq<DiffFile>>, total: nat)
    ensures Runs(Numbered(runs, total)) == runs
  {
  }

  /** The open run as a closed one, if there is one. */
  function Closed(cur: seq<DiffFile>): seq<seq<DiffFile>> {
    if cur == [] then [] else [cur]
  }

  /** Closes the open run, if there is one, into a new chunk. `closed` are the runs closed so far. */
  method FinishChunk(chunks: seq<DiffChunk>, current: seq<DiffFile>, ghost closed: seq<seq<DiffFile>>)
    returns (chunks': seq<DiffChunk>)
    requires chunks == Numbered(closed, 0)
    ensures chunks' == Numbered(closed + Closed(current), 0)
  {
    chunks' := chunks;
    if current != [] {
      chunks' := chunks + [DiffChunk(current, |chunks|, 0)];
    } else {
      assert closed + Closed(current) == closed;
    }
  }

  /** Writes the final count into every chunk. */
  method FillTotalChunks(chunks: seq<DiffChunk>, ghost closed: seq<seq<DiffFile>>) returns (filled: seq<DiffChunk>)
    requires chunks == Numbered(closed, 0)
    ensures filled == Numbered(closed, |closed|)
  {
    filled := chunks;
    for i := 0 to |chunks|
      invariant |filled| == |chunks|
      invariant forall j :: 0 <= j < |chunks| ==> filled[j] == DiffChunk(closed[j], j, if j < i then |chunks| else 0)
    {
      filled := filled[i := filled[i].(totalChunks := |chunks|)];
    }
  }

  /** Closing a run moves it from the remaining runs to the closed ones. */
  lemma MoveRun<T>(closed: seq<T>, run: T, rest: seq<T>)
    ensures (closed + [run]) + rest == closed + ([run] + rest)
  {
  }

  lemma MoveRuns<T>(closed: seq<T>, cur: seq<T>, pieces: seq<T>, rest: seq<T>)
    ensures ((closed + cur) + pieces) + rest == closed + (cur + (pieces + rest))
  {
  }

  /** A chunker with its token counters and its per-chunk budget. Token counts come from
      a tokenizer that is not modelled: any function will do. */
  datatype Chunker = Chunker(fileTokens: DiffFile -> usize, hunkTokens: DiffHunk -> usize, budget: usize) {

    predicate Oversized(file: DiffFile) {
      fileTokens(file) > budget
    }

    predicate AnyOversized(files: seq<DiffFile>) {
      files != [] && (AnyOversized(files[..|files| - 1]) || Oversized(files[|files| - 1]))
    }

    lemma {:induction false} AnyOversizedExists(files: seq<DiffFile>)
      ensures AnyOversized(files) <==> exists i :: 0 <= i < |files| && Oversized(files[i])
    {
      if files != [] {
        var prefix := files[..|files| - 1];
        AnyOversizedExists(prefix);
        assert forall i :: 0 <= i < |prefix| ==> prefix[i] == files[i];
      }
    }

    /** The runs of whole-file chunking. */
    function FileRuns(files: seq<DiffFile>): seq<seq<DiffFile>> {
      Pack(fileTokens, budget, [], files)
    }

    /** An oversized file becomes one run per group of its hunks. */
    function Pieces(file: DiffFile): seq<seq<DiffFile>> {
      Singles(file, Pack(hunkTokens, budget, [], file.hunks))
    }

    static function Singles(file: DiffFile, groups: seq<seq<DiffHunk>>): seq<seq<DiffFile>> {
      seq(|groups|, i requires 0 <= i < |groups| => [file.Partial(groups[i])])
    }

    /** The runs of hunk-level chunking when the run `cur` is still open. */
    function HunkRuns(cur: seq<DiffFile>, files: seq<DiffFile>): seq<seq<DiffFile>>
      decreases |files|
    {
      if files == [] then
        Closed(cur)
      else if Oversized(files[0]) then
        Closed(cur) + (Pieces(files[0]) + HunkRuns([], files[1..]))
      else if cur != [] && Exceeds(Cost(fileTokens, cur) + fileTokens(files[0]), budget) then
        [cur] + HunkRuns([files[0]], files[1..])
      else
        HunkRuns(cur + [files[0]], files[1..])
    }

    function ByFiles(files: seq<DiffFile>): seq<DiffChunk> {
      Numbered(FileRuns(files), |FileRuns(files)|)
    }

    function ByHunks(files: seq<DiffFile>): seq<DiffChunk> {
      Numbered(HunkRuns([], files), |HunkRuns([], files)|)
    }

    // ----- the algorithms -----

    /** Adds a whole file to the open run, closing that run first when the file would overflow it. */
    method AddWholeFile(file: DiffFile, chunks: seq<DiffChunk>, current: seq<DiffFile>, currentTokens: usize,
                        ghost closed: seq<seq<DiffFile>>)
      returns (chunks': seq<DiffChunk>, current': seq<DiffFile>, currentTokens': usize,
               ghost closed': seq<seq<DiffFile>>)
      requires chunks == Numbered(closed, 0)
      requires currentTokens == Saturated(Cost(fileTokens, current))
      ensures if current != [] && Exceeds(Cost(fileTokens, current) + fileTokens(file), budget)
              then current' == [] + [file] && closed' == closed + [current]
              else current' == current + [file] && closed' == closed
      ensures chunks' == Numbered(closed', 0)
      ensures currentTokens' == Saturated(Cost(fileTokens, current'))
    {
      var tokens := fileTokens(file);
      chunks', current', currentTokens', closed' := chunks, current, currentTokens, closed;
      SaturationDecides(Cost(fileTokens, current), tokens, budget);
      if SaturatingAdd(currentTokens, tokens) > budget && current != [] {
        chunks' := FinishChunk(chunks, current, closed);
        closed' := closed + [current];
        current', currentTokens' := [], 0;
      }
      SaturationDecides(Cost(fileTokens, current'), tokens, budget);
      CostConcat(fileTokens, current', [file]);
      current', currentTokens' := current' + [file], SaturatingAdd(currentTokens', tokens);
    }

    /** Whole-file chunking, together with the report whether some file is oversized. */
    method ChunkByFilesInner(files: seq<DiffFile>) returns (chunks: seq<DiffChunk>, anyOversized: bool)
      ensures chunks == ByFiles(files)
      ensures anyOversized <==> AnyOversized(files)
    {
      chunks, anyOversized := [], false;
      var current: seq<DiffFile>, currentTokens: usize := [], 0;
      ghost var closed: seq<seq<DiffFile>> := [];
      assert files[0..] == files && closed + FileRuns(files) == FileRuns(files);
      for i := 0 to |files|
        invariant anyOversized <==> AnyOversized(files[..i])
        invariant currentTokens == Saturated(Cost(fileTokens, current))
        invariant chunks == Numbered(closed, 0)
        invariant closed + Pack(fileTokens, budget, current, files[i..]) == FileRuns(files)
      {
        assert files[..i + 1][..i] == files[..i];
        if Oversized(files[i]) {
          anyOversized := true;
        }
        PackStep(fileTokens, budget, current, files, i);
        MoveRun(closed, current, Pack(fileTokens, budget, [files[i]], files[i + 1..]));
        chunks, current, currentTokens, closed := AddWholeFile(files[i], chunks, current, currentTokens, closed);
      }
      chunks := FinishChunk(chunks, current, closed);
      closed := closed + Closed(current);
      assert closed == FileRuns(files) && files[..|files|] == files;
      chunks := FillTotalChunks(chunks, closed);
    }

    /** Closes a group of hunks as a chunk of its own; `before` are the runs closed before this file. */
    static method FlushGroup(file: DiffFile, group: seq<DiffHunk>, chunks: seq<DiffChunk>,
                             ghost before: seq<seq<DiffFile>>, ghost groups: seq<seq<DiffHunk>>)
      returns (chunks': seq<DiffChunk>)
      requires chunks == Numbered(before + Singles(file, groups), 0)
      ensures chunks' == Numbered(before + Singles(file, groups + [group]), 0)
    {
      chunks' := FinishChunk(chunks, [file.Partial(group)], before + Singles(file, groups));
      assert (before + Singles(file, groups)) + Closed([file.Partial(group)])
        == before + Singles(file, groups + [group]);
    }

    /** One chunk per group of hunks of an oversized file. Nothing is open when it is called. */
    method SplitFileByHunks(file: DiffFile, chunks: seq<DiffChunk>, ghost before: seq<seq<DiffFile>>)
      returns (chunks': seq<DiffChunk>)
      requires chunks == Numbered(before, 0)
      ensures chunks' == Numbered(before + Pieces(file), 0)
    {
      chunks' := chunks;
      var group: seq<DiffHunk>, groupTokens: usize := [], 0;
      ghost var groups: seq<seq<DiffHunk>> := [];
      assert before + Singles(file, groups) == before && file.hunks[0..] == file.hunks;
      assert groups + Pack(hunkTokens, budget, [], file.hunks) == Pack(hunkTokens, budget, [], file.hunks);
      for i := 0 to |file.hunks|
        invariant groupTokens == Saturated(Cost(hunkTokens, group))
        invariant chunks' == Numbered(before + Singles(file, groups), 0)
        invariant groups + Pack(hunkTokens, budget, group, file.hunks[i..]) == Pack(hunkTokens, budget, [], file.hunks)
      {
        var hunk, tokens := file.hunks[i], hunkTokens(file.hunks[i]);
        ghost var groups0, group0 := groups, group;
        SaturationDecides(Cost(hunkTokens, group), tokens, budget);
        if tokens > budget {
          if group != [] {
            chunks' := FlushGroup(file, group, chunks', before, groups);
            groups, group, groupTokens := groups + [group], [], 0;
          }
          chunks' := FlushGroup(file, [hunk], chunks', before, groups);
          groups := groups + [[hunk]];
        } else {
          if SaturatingAdd(groupTokens, tokens) > budget && group != [] {
            chunks' := FlushGroup(file, group, chunks', before, groups);
            groups, group, groupTokens := groups + [group], [], 0;
            SaturationDecides(0, tokens, budget);
          }
          CostConcat(hunkTokens, group, [hunk]);
          group, groupTokens := group + [hunk], SaturatingAdd(groupTokens, tokens);
        }
        GroupsStep(groups0, group0, file.hunks, i, groups, group);
      }
      if group != [] {
        chunks' := FlushGroup(file, group, chunks', before, groups);
        groups := groups + [group];
      }
      assert groups == Pack(hunkTokens, budget, [], file.hunks);
    }

    /** What one more hunk does to the closed groups and the open one. */
    ghost predicate AdvancesGroup(hunk: DiffHunk, groups: seq<seq<DiffHunk>>, group: seq<DiffHunk>,
                                  groups': seq<seq<DiffHunk>>, group': seq<DiffHunk>)
    {
      if hunkTokens(hunk) > budget then
        groups' == (if group == [] then groups else groups + [group]) + [[hunk]] && group' == []
      else if group != [] && Exceeds(Cost(hunkTokens, group) + hunkTokens(hunk), budget) then
        groups' == groups + [group] && group' == [] + [hunk]
      else groups' == groups && group' == group + [hunk]
    }

    /** The groups to come stay the same. */
    lemma GroupsStep(groups: seq<seq<DiffHunk>>, group: seq<DiffHunk>, hunks: seq<DiffHunk>, i: nat,
                     groups': seq<seq<DiffHunk>>, group': seq<DiffHunk>)
      requires i < |hunks| && AdvancesGroup(hunks[i], groups, group, groups', group')
      ensures groups' + Pack(hunkTokens, budget, group', hunks[i + 1..])
           == groups + Pack(hunkTokens, budget, group, hunks[i..])
    {
      var hunk, rest := hunks[i], hunks[i + 1..];
      PackStep(hunkTokens, budget, group, hunks, i);
      if hunkTokens(hunk) > budget {
        OversizedStandsAlone(hunk, rest);
        MoveRun(if group == [] then groups else groups + [group], [hunk], Pack(hunkTokens, budget, [], rest));
      }
      if group != [] {
        MoveRun(groups, group, Pack(hunkTokens, budget, [hunk], rest));
      }
    }

    lemma OversizedStandsAlone(hunk: DiffHunk, rest: seq<DiffHunk>)
      requires Exceeds(hunkTokens(hunk), budget)
      ensures Pack(hunkTokens, budget, [hunk], rest) == [[hunk]] + Pack(hunkTokens, budget, [], rest)
    {
      CostElement(hunkTokens, [hunk], 0);
      if rest != [] {
        assert [] + [rest[0]] == [rest[0]];
      }
    }

    /** What one more file does to the closed runs and the open one. */
    ghost predicate Advances(file: DiffFile, closed: seq<seq<DiffFile>>, cur: seq<DiffFile>,
                             closed': seq<seq<DiffFile>>, cur': seq<DiffFile>)
    {
      if Oversized(file) then closed' == closed + Closed(cur) + Pieces(file) && cur' == []
      else if cur != [] && Exceeds(Cost(fileTokens, cur) + fileTokens(file), budget) then
        closed' == closed + [cur] && cur' == [] + [file]
      else closed' == closed && cur' == cur + [file]
    }

    /** The runs to come stay the same. */
    lemma HunkRunsStep(closed: seq<seq<DiffFile>>, cur: seq<DiffFile>, files: seq<DiffFile>, i: nat,
                       closed': seq<seq<DiffFile>>, cur': seq<DiffFile>)
      requires i < |files| && Advances(files[i], closed, cur, closed', cur')
      ensures closed' + HunkRuns(cur', files[i + 1..]) == closed + HunkRuns(cur, files[i..])
    {
      var runs := HunkRuns(cur', files[i + 1..]);
      assert files[i..][0] == files[i] && files[i..][1..] == files[i + 1..];
      if Oversized(files[i]) {
        MoveRuns(closed, Closed(cur), Pieces(files[i]), runs);
      } else if cur != [] && Exceeds(Cost(fileTokens, cur) + fileTokens(files[i]), budget) {
        assert cur' == [files[i]];
        MoveRun(closed, cur, runs);
      }
    }

    /** Closes the open run and splits an oversized file after it. */
    method AddSplitFile(file: DiffFile, chunks: seq<DiffChunk>, current: seq<DiffFile>,
                        ghost closed: seq<seq<DiffFile>>)
      returns (chunks': seq<DiffChunk>, ghost closed': seq<seq<DiffFile>>)
      requires chunks == Numbered(closed, 0)
      ensures closed' == closed + Closed(current) + Pieces(file)
      ensures chunks' == Numbered(closed', 0)
    {
      chunks' := FinishChunk(chunks, current, closed);
      closed' := closed + Closed(current);
      chunks' := SplitFileByHunks(file, chunks', closed');
      closed' := closed' + Pieces(file);
    }

    /** Hunk-level chunking. */
    method ChunkByHunks(files: seq<DiffFile>) returns (chunks: seq<DiffChunk>)
      ensures chunks == ByHunks(files)
    {
      chunks := [];
      var current: seq<DiffFile>, currentTokens: usize := [], 0;
      ghost var closed: seq<seq<DiffFile>> := [];
      assert files[0..] == files && closed + HunkRuns([], files) == HunkRuns([], files);
      for i := 0 to |files|
        invariant currentTokens == Saturated(Cost(fileTokens, current))
        invariant chunks == Numbered(closed, 0)
        invariant closed + HunkRuns(current, files[i..]) == HunkRuns([], files)
      {
        var file := files[i];
        ghost var closed0, current0 := closed, current;
        if fileTokens(file) <= budget {
          chunks, current, currentTokens, closed := AddWholeFile(file, chunks, current, currentTokens, closed);
        } else {
          chunks, closed := AddSplitFile(file, chunks, current, closed);
          current, currentTokens := [], 0;
        }
        HunkRunsStep(closed0, current0, files, i, closed, current);
      }
      chunks := FinishChunk(chunks, current, closed);
      closed := closed + Closed(current);
      assert closed == HunkRuns([], files);
      chunks := FillTotalChunks(chunks, closed);
    }
  }
}

/** Full-path review puts every line of every file in scope (src/input/full_path.rs:3-11). */
module FullScope {
  import opened Sequences
  import opened DiffModel
  import opened Parser
  import opened FullPath
  import opened FullPathProperties
  import opened Ranges
  import opened Coverage
  import Text

  /** The (path, hunks) pairs the ledger is built from. */
  function DiffPairs(files: seq<DiffFile>): seq<(string, seq<DiffHunk>)> {
    seq(|files|, i requires 0 <= i < |files| => (files[i].path, files[i].hunks))
  }

  /** How many of the file's own lines are in scope: all, unless the content is a lone line feed. */
  function ScopedLines(content: string): nat {
    if content == "\n" then 0 else |Text.Lines(content)|
  }

  /** One target per file with lines in scope, and its one changed range is the whole file. */
  function WholeTargets(files: seq<SourceFile>): seq<CoverageTarget> {
    if files == [] then []
    else
      var n := ScopedLines(files[0].content);
      (if n == 0 then [] else [CoverageTarget(files[0].rel, [Range(1, Min(n, U32_MAX))], [], Pending, [])])
      + WholeTargets(files[1..])
  }

  function LineCount(files: seq<SourceFile>): nat {
    if files == [] then 0 else |Text.Lines(files[0].content)| + LineCount(files[1..])
  }

  /** The files whose one line is blank. */
  function LoneLineFeeds(files: seq<SourceFile>): nat {
    if files == [] then 0 else (if files[0].content == "\n" then 1 else 0) + LoneLineFeeds(files[1..])
  }

  ghost predicate CountsFit(files: seq<SourceFile>) {
    forall i :: 0 <= i < |files| ==> ScopedLines(files[i].content) <= U32_MAX
  }

  lemma PrintedFileRange(f: SourceFile)
    requires ScopedLines(f.content) <= U32_MAX
    ensures var n := ScopedLines(f.content);
      ChangedRanges(PrintedFile(f).hunks) == if n == 0 then [] else [Range(1, n)]
  {
    LinesShown(f.content);
  }

  lemma DiffPairsCons(file: DiffFile, rest: seq<DiffFile>)
    ensures DiffPairs([file] + rest) == [(file.path, file.hunks)] + DiffPairs(rest)
  {
  }

  lemma {:induction false} TargetsConcat(a: seq<(string, seq<DiffHunk>)>, b: seq<(string, seq<DiffHunk>)>)
    ensures TargetsOf(a + b) == TargetsOf(a) + TargetsOf(b)
  {
    if b == [] {
      assert a + b == a;
    } else {
      assert (a + b)[..|a + b| - 1] == a + b[..|b| - 1];
      TargetsConcat(a, b[..|b| - 1]);
    }
  }

  lemma TargetsCons(pair: (string, seq<DiffHunk>), rest: seq<(string, seq<DiffHunk>)>)
    ensures var changed := ChangedRanges(pair.1);
      TargetsOf([pair] + rest) ==
        (if changed == [] then [] else [CoverageTarget(pair.0, changed, [], Pending, [])]) + TargetsOf(rest)
  {
    TargetsConcat([pair], rest);
    var one := [pair];
    assert one[..|one| - 1] == [];
  }

  lemma {:induction false} PrintedTargets(files: seq<SourceFile>)
    requires CountsFit(files)
    ensures TargetsOf(DiffPairs(Mapped(PrintedFile, files))) == WholeTargets(files)
  {
    if files != [] {
      assert forall i :: 0 <= i < |files[1..]| ==> files[1..][i] == files[i + 1];
      PrintedTargets(files[1..]);
      DiffPairsCons(PrintedFile(files[0]), Mapped(PrintedFile, files[1..]));
      PrintedFileRange(files[0]);
      TargetsCons((files[0].rel, PrintedFile(files[0]).hunks), DiffPairs(Mapped(PrintedFile, files[1..])));
    } else {
      assert DiffPairs(Mapped(PrintedFile, files)) == [];
    }
  }

  lemma {:induction false} SummarizeTotalConcat(a: seq<CoverageTarget>, b: seq<CoverageTarget>)
    requires AllMeasurable(a + b)
    ensures AllMeasurable(a) && AllMeasurable(b)
    ensures Summarize(a + b).totalChangedLines == Summarize(a).totalChangedLines + Summarize(b).totalChangedLines
  {
    assert forall t :: t in a || t in b ==> t in a + b;
    if b == [] {
      assert a + b == a;
    } else {
      assert (a + b)[..|a + b| - 1] == a + b[..|b| - 1];
      SummarizeTotalConcat(a, b[..|b| - 1]);
    }
  }

  lemma {:induction false} WholeTotal(files: seq<SourceFile>)
    requires CountsFit(files)
    ensures AllMeasurable(WholeTargets(files))
    ensures Summarize(WholeTargets(files)).totalChangedLines + LoneLineFeeds(files) == LineCount(files)
  {
    if files != [] {
      var n, rest := ScopedLines(files[0].content), WholeTargets(files[1..]);
      assert forall i :: 0 <= i < |files[1..]| ==> files[1..][i] == files[i + 1];
      WholeTotal(files[1..]);
      if files[0].content == "\n" { LinesLost(); }
      if n == 0 {
        assert [] + rest == rest;
      } else {
        var t := CoverageTarget(files[0].rel, [Range(1, n)], [], Pending, []);
        assert WholeTargets(files) == [t] + rest;
        SummarizeTotalConcat([t], rest);
        OneTargetTotal(t, n);
      }
    }
  }

  lemma OneTargetTotal(t: CoverageTarget, n: nat)
    requires 1 <= n <= U32_MAX && t.changedRanges == [Range(1, n)]
    ensures AllMeasurable([t]) && Summarize([t]).totalChangedLines == n
  {
    var one := [t];
    assert one[..|one| - 1] == [] && Summarize(one[..|one| - 1]) == CoverageSummary(0, 0, []);
    assert t.changedRanges[1..] == [];
    assert TotalLines(t.changedRanges) == n;
  }

  /** Full scope: within the size limit and away from `b/`, the ledger built from the parsed diff
      asks for lines 1 to n of every file with n lines and for nothing else, except that the blank line
      of a lone line feed is left out; its total falls short of all lines by just those. */
  lemma EveryLineInScope(files: seq<SourceFile>)
    requires AllSafe(files) && NoneBelowB(files)
    requires Text.ByteLength(RenderAll(files)) <= MAX_DIFF_SIZE
    ensures var targets := TargetsOf(DiffPairs(Parse(RenderAll(files))));
      && targets == WholeTargets(files) && CountsFit(files) && AllMeasurable(targets)
      && Summarize(targets).totalChangedLines + LoneLineFeeds(files) == LineCount(files)
  {
    PrintedBack(files);
    forall i | 0 <= i < |files| ensures ScopedLines(files[i].content) <= U32_MAX {
      LineCountFits(files, i);
      LinesShown(files[i].content);
    }
    PrintedTargets(files);
    WholeTotal(files);
  }

  /** Beyond the size limit nothing is in scope at all. */
  lemma NothingInScope(files: seq<SourceFile>)
    requires Text.ByteLength(RenderAll(files)) > MAX_DIFF_SIZE
    ensures TargetsOf(DiffPairs(Parse(RenderAll(files)))) == []
  {
  }
}

/** The coverage ledger of a review run (src/coverage/mod.rs). */
module Coverage {
  import opened Sequences
  import opened DiffModel
  import opened Ranges

  datatype CoverageStatus = Pending | Touched

  datatype CoverageTarget = CoverageTarget(
    file: string, changedRanges: seq<Range>, touchedRanges: seq<Range>, status: CoverageStatus, touchedBy: seq<string>)

  datatype UncoveredRange = UncoveredRange(file: string, range: Range)

  datatype CoverageSummary = CoverageSummary(
    totalChangedLines: nat, coveredChangedLines: nat, debt: seq<UncoveredRange>)
  {
    function UncoveredChangedLines(): nat {
      if totalChangedLines >= coveredChangedLines then totalChangedLines - coveredChangedLines else 0
    }

    /** `covered / total >= 0.7`, and 1 when there is nothing to cover, by cross-multiplication. */
    predicate IsSufficient() {
      totalChangedLines == 0 || 10 * coveredChangedLines >= 7 * totalChangedLines
    }
  }

  /** The new-file lines of a hunk; a pure deletion has none. */
  function HunkNewRange(hunk: DiffHunk): Option<Range> {
    if hunk.newLines == 0 then None
    else Some(Range(hunk.newStart, Min(hunk.newStart + (hunk.newLines - 1), U32_MAX)))
  }

  function ChangedRanges(hunks: seq<DiffHunk>): seq<Range> {
    if hunks == [] then []
    else
      ChangedRanges(hunks[..|hunks| - 1])
      + match HunkNewRange(hunks[|hunks| - 1]) case Some(r) => [r] case None => []
  }

  /** One fresh target per file that has changed lines. */
  function TargetsOf(diffFiles: seq<(string, seq<DiffHunk>)>): seq<CoverageTarget> {
    if diffFiles == [] then []
    else
      var (file, hunks) := diffFiles[|diffFiles| - 1];
      var changed := ChangedRanges(hunks);
      TargetsOf(diffFiles[..|diffFiles| - 1])
      + if changed == [] then [] else [CoverageTarget(file, changed, [], Pending, [])]
  }

  /** A changed range whose length fits a `u32`. */
  predicate Measurable(r: Range) {
    r.lo <= r.hi && r.hi - r.lo < U32_MAX
  }

  ghost predicate AllMeasurable(targets: seq<CoverageTarget>) {
    forall t, r :: t in targets && r in t.changedRanges ==> Measurable(r)
  }

  /** Ranges built from hunks are measurable, and as long as the hunk unless the end saturates. */
  lemma HunkRangeMeasurable(hunk: DiffHunk)
    ensures HunkNewRange(hunk).Some? <==> hunk.newLines > 0
    ensures hunk.newLines > 0 ==>
      var r := HunkNewRange(hunk).value;
      && Measurable(r) && r.lo == hunk.newStart
      && (r.hi - r.lo + 1 == hunk.newLines <==> hunk.newStart + hunk.newLines <= U32_MAX + 1)
  {
  }

  lemma {:induction false} ChangedRangesMeasurable(hunks: seq<DiffHunk>)
    ensures forall r :: r in ChangedRanges(hunks) ==> Measurable(r)
  {
    if hunks != [] { ChangedRangesMeasurable(hunks[..|hunks| - 1]); }
  }

  lemma {:induction false} TargetsMeasurable(diffFiles: seq<(string, seq<DiffHunk>)>)
    ensures AllMeasurable(TargetsOf(diffFiles))
  {
    if diffFiles != [] {
      ChangedRangesMeasurable(diffFiles[|diffFiles| - 1].1);
      TargetsMeasurable(diffFiles[..|diffFiles| - 1]);
    }
  }

  // ----- what a fresh ledger must be, in terms of the hunks themselves -----

  predicate AddsLines(hunk: DiffHunk) {
    hunk.newLines > 0
  }

  predicate HasNewLines(diffFile: (string, seq<DiffHunk>)) {
    exists k :: 0 <= k < |diffFile.1| && AddsLines(diffFile.1[k])
  }

  ghost predicate RangesAt(ranges: seq<Range>, hunks: seq<DiffHunk>, at: seq<nat>) {
    && |ranges| == |at|
    && forall k :: 0 <= k < |at| ==>
         && at[k] < |hunks|
         && ranges[k].lo == hunks[at[k]].newStart
         && ranges[k].hi == Min(hunks[at[k]].newStart + hunks[at[k]].newLines - 1, U32_MAX)
  }

  /** One range per hunk that adds lines, in order: from the hunk's first new line to its last, or to
      the largest line number there is. `at` are the positions of those hunks. */
  ghost predicate RangesOfHunks(ranges: seq<Range>, hunks: seq<DiffHunk>, at: seq<nat>) {
    Picks(at, hunks, AddsLines) && RangesAt(ranges, hunks, at)
  }

  /** An untouched target with the file's name and the ranges of its hunks. */
  ghost predicate IsTarget(t: CoverageTarget, diffFile: (string, seq<DiffHunk>)) {
    && t.file == diffFile.0 && t.touchedRanges == [] && t.status == Pending && t.touchedBy == []
    && exists hunkAt :: RangesOfHunks(t.changedRanges, diffFile.1, hunkAt)
  }

  function FreshTarget(diffFile: (string, seq<DiffHunk>)): CoverageTarget {
    CoverageTarget(diffFile.0, ChangedRanges(diffFile.1), [], Pending, [])
  }

  ghost predicate TargetsAt(targets: seq<CoverageTarget>, diffFiles: seq<(string, seq<DiffHunk>)>, at: seq<nat>) {
    && |targets| == |at|
    && forall k :: 0 <= k < |at| ==> at[k] < |diffFiles| && targets[k] == FreshTarget(diffFiles[at[k]])
  }

  /** One fresh target per file that has new lines, in order. `at` are the positions of those files. */
  ghost predicate TargetsOfFiles(targets: seq<CoverageTarget>, diffFiles: seq<(string, seq<DiffHunk>)>, at: seq<nat>) {
    Picks(at, diffFiles, HasNewLines) && TargetsAt(targets, diffFiles, at)
  }

  lemma RangesAtSnoc(ranges: seq<Range>, hunks: seq<DiffHunk>, at: seq<nat>, r: Range)
    requires hunks != [] && RangesAt(ranges, hunks[..|hunks| - 1], at)
    ensures RangesAt(ranges, hunks, at)
    ensures var last := hunks[|hunks| - 1];
      r.lo == last.newStart && r.hi == Min(last.newStart + last.newLines - 1, U32_MAX) ==>
        RangesAt(ranges + [r], hunks, at + [|hunks| - 1])
  {
    assert forall k :: 0 <= k < |at| ==> hunks[..|hunks| - 1][at[k]] == hunks[at[k]];
  }

  lemma {:induction false} ChangedRangesOfHunks(hunks: seq<DiffHunk>) returns (at: seq<nat>)
    ensures RangesOfHunks(ChangedRanges(hunks), hunks, at)
  {
    at := [];
    if hunks != [] {
      var n := |hunks| - 1;
      at := ChangedRangesOfHunks(hunks[..n]);
      var ranges := ChangedRanges(hunks[..n]);
      RangesAtSnoc(ranges, hunks, at, HunkNewRange(hunks[n]).UnwrapOr(Range(0, 0)));
      PicksSnoc(at, hunks, AddsLines);
      if AddsLines(hunks[n]) {
        at := at + [n];
      } else {
        assert ranges + [] == ranges && at + [] == at;
      }
    }
  }

  lemma ChangedRangesEmpty(file: string, hunks: seq<DiffHunk>)
    ensures ChangedRanges(hunks) == [] <==> !HasNewLines((file, hunks))
  {
    var at := ChangedRangesOfHunks(hunks);
    if at != [] {
      assert AddsLines(hunks[at[0]]);
    }
  }

  lemma TargetsAtSnoc(targets: seq<CoverageTarget>, diffFiles: seq<(string, seq<DiffHunk>)>, at: seq<nat>)
    requires diffFiles != [] && TargetsAt(targets, diffFiles[..|diffFiles| - 1], at)
    ensures TargetsAt(targets, diffFiles, at)
    ensures TargetsAt(targets + [FreshTarget(diffFiles[|diffFiles| - 1])], diffFiles, at + [|diffFiles| - 1])
  {
    assert forall k :: 0 <= k < |at| ==> diffFiles[..|diffFiles| - 1][at[k]] == diffFiles[at[k]];
  }

  /** A fresh target is what its file's hunks make it. */
  lemma FreshIsTarget(diffFile: (string, seq<DiffHunk>))
    ensures IsTarget(FreshTarget(diffFile), diffFile)
  {
    var at := ChangedRangesOfHunks(diffFile.1);
  }

  lemma TargetsSnoc(init: seq<(string, seq<DiffHunk>)>, last: (string, seq<DiffHunk>))
    ensures HasNewLines(last) ==> TargetsOf(init + [last]) == TargetsOf(init) + [FreshTarget(last)]
    ensures !HasNewLines(last) ==> TargetsOf(init + [last]) == TargetsOf(init)
  {
    var all := init + [last];
    assert all[..|all| - 1] == init && all[|all| - 1] == last;
    ChangedRangesEmpty(last.0, last.1);
  }

  lemma TargetAdded(targets: seq<CoverageTarget>, diffFiles: seq<(string, seq<DiffHunk>)>, before: seq<nat>,
                    last: (string, seq<DiffHunk>))
    requires TargetsOfFiles(targets, diffFiles, before) && HasNewLines(last)
    ensures TargetsOfFiles(targets + [FreshTarget(last)], diffFiles + [last], before + [|diffFiles|])
  {
    var all := diffFiles + [last];
    assert all[..|all| - 1] == diffFiles && all[|all| - 1] == last;
    TargetsAtSnoc(targets, all, before);
    PicksSnoc(before, all, HasNewLines);
  }

  lemma TargetSkipped(targets: seq<CoverageTarget>, diffFiles: seq<(string, seq<DiffHunk>)>, before: seq<nat>,
                      last: (string, seq<DiffHunk>))
    requires TargetsOfFiles(targets, diffFiles, before) && !HasNewLines(last)
    ensures TargetsOfFiles(targets, diffFiles + [last], before)
  {
    var all := diffFiles + [last];
    assert all[..|all| - 1] == diffFiles && all[|all| - 1] == last;
    TargetsAtSnoc(targets, all, before);
    PicksSnoc(before, all, HasNewLines);
    assert before + [] == before;
  }

  lemma TargetsOfDiffSnoc(init: seq<(string, seq<DiffHunk>)>, last: (string, seq<DiffHunk>), before: seq<nat>)
    returns (at: seq<nat>)
    requires TargetsOfFiles(TargetsOf(init), init, before)
    ensures TargetsOfFiles(TargetsOf(init + [last]), init + [last], at)
  {
    TargetsSnoc(init, last);
    if HasNewLines(last) {
      TargetAdded(TargetsOf(init), init, before, last);
      at := before + [|init|];
    } else {
      TargetSkipped(TargetsOf(init), init, before, last);
      at := before;
    }
  }

  lemma {:induction false} TargetsOfDiff(diffFiles: seq<(string, seq<DiffHunk>)>) returns (at: seq<nat>)
    ensures TargetsOfFiles(TargetsOf(diffFiles), diffFiles, at)
  {
    at := [];
    if diffFiles != [] {
      var init, last := diffFiles[..|diffFiles| - 1], diffFiles[|diffFiles| - 1];
      var before := TargetsOfDiff(init);
      at := TargetsOfDiffSnoc(init, last, before);
      assert init + [last] == diffFiles;
    }
  }

  /** One target per file that has new lines, in order, as the file's hunks make it. */
  ghost predicate Describes(targets: seq<CoverageTarget>, diffFiles: seq<(string, seq<DiffHunk>)>, at: seq<nat>) {
    && Picks(at, diffFiles, HasNewLines) && |targets| == |at|
    && forall k :: 0 <= k < |at| ==> at[k] < |diffFiles| && IsTarget(targets[k], diffFiles[at[k]])
  }

  lemma FreshDescribes(diffFiles: seq<(string, seq<DiffHunk>)>) returns (at: seq<nat>)
    ensures Describes(TargetsOf(diffFiles), diffFiles, at)
  {
    at := TargetsOfDiff(diffFiles);
    forall k | 0 <= k < |at| ensures IsTarget(TargetsOf(diffFiles)[k], diffFiles[at[k]]) {
      FreshIsTarget(diffFiles[at[k]]);
    }
  }

  /** Line `x` is a new line of the hunk. */
  predicate Spans(hunk: DiffHunk, x: int) {
    hunk.newLines > 0 && hunk.newStart <= x <= Min(hunk.newStart + hunk.newLines - 1, U32_MAX)
  }

  /** Line by line: a line is asked for exactly when some hunk that adds lines spans it. */
  lemma ChangedLines(hunks: seq<DiffHunk>, x: int)
    ensures Hits(ChangedRanges(hunks), x) <==> exists k :: 0 <= k < |hunks| && Spans(hunks[k], x)
  {
    var ranges := ChangedRanges(hunks);
    var at := ChangedRangesOfHunks(hunks);
    if Hits(ranges, x) {
      var k := HitsIndex(ranges, x);
      assert Spans(hunks[at[k]], x);
    }
    if k :| 0 <= k < |hunks| && Spans(hunks[k], x) {
      assert AddsLines(hunks[k]);
      var i :| 0 <= i < |at| && at[i] == k;
      IndexHits(ranges, i, x);
    }
  }

  // ----- marking -----

  function AddName(names: seq<string>, name: string): seq<string> {
    if name in names then names else names + [name]
  }

  function Touch(t: CoverageTarget, range: Range, expert: string): CoverageTarget {
    t.(touchedRanges := UnionPush(t.touchedRanges, range), status := Touched, touchedBy := AddName(t.touchedBy, expert))
  }

  /** The first target of that file is touched; other targets stay as they are. */
  function Marked(targets: seq<CoverageTarget>, file: string, range: Range, expert: string): seq<CoverageTarget> {
    if targets == [] then []
    else if targets[0].file == file then [Touch(targets[0], range, expert)] + targets[1..]
    else [targets[0]] + Marked(targets[1..], file, range, expert)
  }

  lemma {:induction false} MarkedFirst(targets: seq<CoverageTarget>, file: string, range: Range, expert: string, i: nat)
    requires i < |targets| && targets[i].file == file
    requires forall j :: 0 <= j < i ==> targets[j].file != file
    ensures Marked(targets, file, range, expert) == targets[i := Touch(targets[i], range, expert)]
  {
    if i > 0 { MarkedFirst(targets[1..], file, range, expert, i - 1); }
  }

  lemma {:induction false} MarkedNone(targets: seq<CoverageTarget>, file: string, range: Range, expert: string)
    requires forall j :: 0 <= j < |targets| ==> targets[j].file != file
    ensures Marked(targets, file, range, expert) == targets
  {
    if targets != [] { MarkedNone(targets[1..], file, range, expert); }
  }

  // ----- the summary -----

  /** `overlap_len`, on `u32`. */
  function OverlapLen(t: Range, c: Range): (n: u32)
    requires Measurable(c)
  {
    var lo, hi := Max(t.lo, c.lo), Min(t.hi, c.hi);
    if lo > hi then 0 else hi - lo + 1
  }

  function OverlapSum(touched: seq<Range>, c: Range): nat
    requires Measurable(c)
  {
    if touched == [] then 0 else OverlapLen(touched[0], c) + OverlapSum(touched[1..], c)
  }

  function TotalLines(changed: seq<Range>): nat
    requires forall r :: r in changed ==> Measurable(r)
  {
    if changed == [] then 0
    else
      assert Measurable(changed[0]);
      changed[0].hi - changed[0].lo + 1 + TotalLines(changed[1..])
  }

  function CoveredLines(changed: seq<Range>, touched: seq<Range>): nat
    requires forall r :: r in changed ==> Measurable(r)
  {
    if changed == [] then 0 else OverlapSum(touched, changed[0]) + CoveredLines(changed[1..], touched)
  }

  /** A list of ranges, pushed one by one into a canonical union. */
  function PushAll(acc: seq<Range>, ranges: seq<Range>): seq<Range>
    decreases |ranges|
  {
    if ranges == [] then acc else PushAll(UnionPush(acc, ranges[0]), ranges[1..])
  }

  function DebtRanges(t: CoverageTarget): seq<Range> {
    PushAll([], UncoveredWithin(t.changedRanges, t.touchedRanges))
  }

  function Label(file: string, ranges: seq<Range>): seq<UncoveredRange> {
    seq(|ranges|, i requires 0 <= i < |ranges| => UncoveredRange(file, ranges[i]))
  }

  function Summarize(targets: seq<CoverageTarget>): CoverageSummary
    requires AllMeasurable(targets)
  {
    if targets == [] then CoverageSummary(0, 0, [])
    else
      var init, t := Summarize(targets[..|targets| - 1]), targets[|targets| - 1];
      CoverageSummary(
        init.totalChangedLines + TotalLines(t.changedRanges),
        init.coveredChangedLines + CoveredLines(t.changedRanges, t.touchedRanges),
        init.debt + Label(t.file, DebtRanges(t)))
  }

  // ----- the ledger -----

  class CoverageLedger {
    var targets: seq<CoverageTarget>

    ghost predicate Valid()
      reads this
    {
      AllMeasurable(targets)
    }

    constructor FromDiffFiles(diffFiles: seq<(string, seq<DiffHunk>)>)
      ensures Valid() && targets == TargetsOf(diffFiles)
      ensures exists at :: Describes(targets, diffFiles, at)
    {
      TargetsMeasurable(diffFiles);
      var at := FreshDescribes(diffFiles);
      targets := TargetsOf(diffFiles);
    }

    /** Records that `expert` touched `range` of `file`. */
    method MarkTouched(file: string, range: Range, expert: string)
      requires Valid()
      modifies this
      ensures Valid() && targets == Marked(old(targets), file, range, expert)
    {
      MarkedShape(targets, file, range, expert);
      for i := 0 to |targets|
        invariant targets == old(targets)
        invariant forall j :: 0 <= j < i ==> targets[j].file != file
      {
        if targets[i].file == file {
          var union := UnionPushLoop(targets[i].touchedRanges, range);
          var names := if expert in targets[i].touchedBy then targets[i].touchedBy else targets[i].touchedBy + [expert];
          MarkedFirst(targets, file, range, expert, i);
          targets := targets[i := targets[i].(touchedRanges := union, status := Touched, touchedBy := names)];
          return;
        }
      }
      MarkedNone(targets, file, range, expert);
    }

    /** The gaps of one target, pushed one by one into a canonical union. */
    static method CollectDebt(t: CoverageTarget) returns (ranges: seq<Range>)
      ensures ranges == DebtRanges(t)
    {
      var gaps := UncoveredWithinLoop(t.changedRanges, t.touchedRanges);
      ranges := [];
      assert gaps[0..] == gaps;
      for i := 0 to |gaps|
        invariant PushAll(ranges, gaps[i..]) == PushAll([], gaps)
      {
        assert gaps[i..][0] == gaps[i] && gaps[i..][1..] == gaps[i + 1..];
        ranges := UnionPushLoop(ranges, gaps[i]);
      }
      assert gaps[|gaps|..] == [];
    }

    /** The changed and covered line counts of one target. */
    static method CountLines(t: CoverageTarget) returns (total: nat, covered: nat)
      requires forall r :: r in t.changedRanges ==> Measurable(r)
      ensures total == TotalLines(t.changedRanges)
      ensures covered == CoveredLines(t.changedRanges, t.touchedRanges)
    {
      var changed, touched := t.changedRanges, t.touchedRanges;
      total, covered := 0, 0;
      assert changed[0..] == changed;
      for i := 0 to |changed|
        invariant total + TotalLines(changed[i..]) == TotalLines(changed)
        invariant covered + CoveredLines(changed[i..], touched) == CoveredLines(changed, touched)
      {
        var c := changed[i];
        assert c in changed && changed[i..][0] == c && changed[i..][1..] == changed[i + 1..];
        var len: u32 := (if c.hi >= c.lo then c.hi - c.lo else 0) + 1;
        total, covered := total + len, covered + OverlapSum(touched, c);
      }
      assert changed[|changed|..] == [];
    }

    method Summary() returns (s: CoverageSummary)
      requires Valid()
      ensures s == Summarize(targets)
    {
      var total, covered, debt := 0, 0, [];
      for i := 0 to |targets|
        invariant Summarize(targets[..i]) == CoverageSummary(total, covered, debt)
      {
        assert targets[..i + 1][..i] == targets[..i];
        var ranges := CollectDebt(targets[i]);
        var len, hit := CountLines(targets[i]);
        total, covered, debt := total + len, covered + hit, debt + Label(targets[i].file, ranges);
      }
      assert targets[..|targets|] == targets;
      s := CoverageSummary(total, covered, debt);
    }
  }

  /** Marking changes neither the files nor their changed ranges. */
  lemma {:induction false} MarkedShape(targets: seq<CoverageTarget>, file: string, range: Range, expert: string)
    ensures |Marked(targets, file, range, expert)| == |targets|
    ensures forall i :: 0 <= i < |targets| ==>
      Marked(targets, file, range, expert)[i].file == targets[i].file
      && Marked(targets, file, range, expert)[i].changedRanges == targets[i].changedRanges
    ensures AllMeasurable(targets) ==> AllMeasurable(Marked(targets, file, range, expert))
  {
    if targets != [] && targets[0].file != file {
      MarkedShape(targets[1..], file, range, expert);
    }
    var after := Marked(targets, file, range, expert);
    forall t, r | AllMeasurable(targets) && t in after && r in t.changedRanges ensures Measurable(r) {
      var i :| 0 <= i < |after| && after[i] == t;
      assert targets[i] in targets;
    }
  }
}

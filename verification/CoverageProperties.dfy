/** What the coverage ledger promises over any run of marks. */
module CoverageProperties {
  import opened Sequences
  import opened DiffModel
  import opened Ranges
  import opened Coverage

  // ----- runs -----

  datatype Mark = Mark(file: string, range: Range, expert: string)

  function Replay(targets: seq<CoverageTarget>, marks: seq<Mark>): seq<CoverageTarget>
    decreases |marks|
  {
    if marks == [] then targets
    else Replay(Marked(targets, marks[0].file, marks[0].range, marks[0].expert), marks[1..])
  }

  /** Some mark of the run touches line `x` of `file`. */
  ghost predicate MarksLine(marks: seq<Mark>, file: string, x: int) {
    exists m :: m in marks && m.file == file && m.range.lo <= x <= m.range.hi
  }

  ghost predicate WellFormedMarks(marks: seq<Mark>) {
    forall m :: m in marks ==> m.range.WellFormed()
  }

  /** The target that marks of its file reach. */
  ghost predicate FirstOfFile(targets: seq<CoverageTarget>, i: nat)
    requires i < |targets|
  {
    forall j :: 0 <= j < i ==> targets[j].file != targets[i].file
  }

  lemma {:induction false} MarkedAt(targets: seq<CoverageTarget>, m: Mark, i: nat)
    requires i < |targets|
    ensures |Marked(targets, m.file, m.range, m.expert)| == |targets|
    ensures Marked(targets, m.file, m.range, m.expert)[i] ==
      if m.file == targets[i].file && FirstOfFile(targets, i) then Touch(targets[i], m.range, m.expert) else targets[i]
  {
    MarkedShape(targets, m.file, m.range, m.expert);
    if i > 0 && targets[0].file != m.file {
      MarkedAt(targets[1..], m, i - 1);
      assert targets[i].file == m.file ==> (FirstOfFile(targets, i) <==> FirstOfFile(targets[1..], i - 1)) by {
        assert forall j :: 1 <= j < i ==> targets[1..][j - 1] == targets[j];
        assert forall j :: 0 <= j < i - 1 ==> targets[1..][j] == targets[j + 1];
      }
    } else if i > 0 && targets[0].file == targets[i].file {
      assert !FirstOfFile(targets, i);
    }
  }

  /** After any run of well-formed marks, a target's touched list is canonical and denotes what it
      denoted before together with the marked lines of its file. */
  lemma {:induction false} ReplayTouched(targets: seq<CoverageTarget>, marks: seq<Mark>, i: nat)
    requires WellFormedMarks(marks) && i < |targets| && Canonical(targets[i].touchedRanges)
    ensures |Replay(targets, marks)| == |targets|
    ensures var t := Replay(targets, marks)[i];
      && t.file == targets[i].file && t.changedRanges == targets[i].changedRanges
      && Canonical(t.touchedRanges)
      && forall x :: Hits(t.touchedRanges, x) <==>
           Hits(targets[i].touchedRanges, x) || (FirstOfFile(targets, i) && MarksLine(marks, targets[i].file, x))
    decreases |marks|
  {
    if marks != [] {
      var m, rest := marks[0], marks[1..];
      var next := Marked(targets, m.file, m.range, m.expert);
      MarkedShape(targets, m.file, m.range, m.expert);
      MarkedAt(targets, m, i);
      assert m in marks;
      UnionPushCanonical(targets[i].touchedRanges, m.range);
      assert FirstOfFile(next, i) <==> FirstOfFile(targets, i);
      ReplayTouched(next, rest, i);
      forall x ensures MarksLine(marks, targets[i].file, x) <==>
        (m.file == targets[i].file && m.range.lo <= x <= m.range.hi) || MarksLine(rest, targets[i].file, x)
      {
        assert marks == [m] + rest;
      }
    }
  }

  /** Some mark of the run is on `file`, by `expert`. */
  ghost predicate MarkedBy(marks: seq<Mark>, file: string, expert: string) {
    exists m :: m in marks && m.file == file && m.expert == expert
  }

  ghost predicate MarkedAtAll(marks: seq<Mark>, file: string) {
    exists m :: m in marks && m.file == file
  }

  /** After any run a target names exactly the experts that marked it, each once, and is touched
      exactly when it was marked. */
  lemma {:induction false} ReplayExperts(targets: seq<CoverageTarget>, marks: seq<Mark>, i: nat, expert: string)
    requires i < |targets| && NoDuplicates(targets[i].touchedBy)
    ensures |Replay(targets, marks)| == |targets|
    ensures var t := Replay(targets, marks)[i];
      && NoDuplicates(t.touchedBy)
      && (expert in t.touchedBy <==>
            expert in targets[i].touchedBy || (FirstOfFile(targets, i) && MarkedBy(marks, targets[i].file, expert)))
      && (t.status == Touched <==>
            targets[i].status == Touched || (FirstOfFile(targets, i) && MarkedAtAll(marks, targets[i].file)))
    decreases |marks|
  {
    if marks != [] {
      var m, rest := marks[0], marks[1..];
      var next := Marked(targets, m.file, m.range, m.expert);
      MarkedShape(targets, m.file, m.range, m.expert);
      MarkedAt(targets, m, i);
      assert FirstOfFile(next, i) <==> FirstOfFile(targets, i);
      ReplayExperts(next, rest, i, expert);
      assert marks == [m] + rest;
      assert MarkedBy(marks, targets[i].file, expert) <==>
        (m.file == targets[i].file && m.expert == expert) || MarkedBy(rest, targets[i].file, expert);
      assert MarkedAtAll(marks, targets[i].file) <==> m.file == targets[i].file || MarkedAtAll(rest, targets[i].file);
    }
  }

  lemma {:induction false} ReplayMeasurable(targets: seq<CoverageTarget>, marks: seq<Mark>)
    requires AllMeasurable(targets)
    ensures AllMeasurable(Replay(targets, marks))
    decreases |marks|
  {
    if marks != [] {
      MarkedShape(targets, marks[0].file, marks[0].range, marks[0].expert);
      ReplayMeasurable(Marked(targets, marks[0].file, marks[0].range, marks[0].expert), marks[1..]);
    }
  }

  // ----- the summary depends only on what was touched -----

  ghost predicate SameRanges(a: CoverageTarget, b: CoverageTarget) {
    a.file == b.file && a.changedRanges == b.changedRanges && a.touchedRanges == b.touchedRanges
  }

  lemma {:induction false} SummarySame(a: seq<CoverageTarget>, b: seq<CoverageTarget>)
    requires AllMeasurable(a) && AllMeasurable(b)
    requires |a| == |b| && forall i :: 0 <= i < |a| ==> SameRanges(a[i], b[i])
    ensures Summarize(a) == Summarize(b)
  {
    if a != [] { SummarySame(a[..|a| - 1], b[..|b| - 1]); }
  }

  /** Order and repetition do not matter: two runs that mark the same lines of every file give
      the same touched lists and the same summary. */
  lemma OrderIndependent(targets: seq<CoverageTarget>, a: seq<Mark>, b: seq<Mark>)
    requires AllMeasurable(targets)
    requires forall i :: 0 <= i < |targets| ==> Canonical(targets[i].touchedRanges)
    requires WellFormedMarks(a) && WellFormedMarks(b)
    requires forall file, x :: MarksLine(a, file, x) <==> MarksLine(b, file, x)
    ensures AllMeasurable(Replay(targets, a)) && AllMeasurable(Replay(targets, b))
    ensures |Replay(targets, a)| == |Replay(targets, b)| == |targets|
    ensures forall i :: 0 <= i < |targets| ==> SameRanges(Replay(targets, a)[i], Replay(targets, b)[i])
    ensures Summarize(Replay(targets, a)) == Summarize(Replay(targets, b))
  {
    var ta, tb := Replay(targets, a), Replay(targets, b);
    ReplayMeasurable(targets, a);
    ReplayMeasurable(targets, b);
    ReplayLength(targets, a);
    ReplayLength(targets, b);
    forall i | 0 <= i < |targets| ensures SameRanges(ta[i], tb[i]) {
      ReplayTouched(targets, a, i);
      ReplayTouched(targets, b, i);
      CanonicalUnique(ta[i].touchedRanges, tb[i].touchedRanges);
    }
    SummarySame(ta, tb);
  }

  lemma {:induction false} ReplayLength(targets: seq<CoverageTarget>, marks: seq<Mark>)
    ensures |Replay(targets, marks)| == |targets|
    decreases |marks|
  {
    if marks != [] {
      MarkedShape(targets, marks[0].file, marks[0].range, marks[0].expert);
      ReplayLength(Marked(targets, marks[0].file, marks[0].range, marks[0].expert), marks[1..]);
    }
  }

  /** Permuting or repeating marks is a special case. */
  lemma SameMarksSameLines(a: seq<Mark>, b: seq<Mark>)
    requires forall m :: m in a <==> m in b
    ensures forall file, x :: MarksLine(a, file, x) <==> MarksLine(b, file, x)
  {
  }

  // ----- counting lines -----

  ghost function Span(r: Range): set<int> {
    Interval(r.lo, r.hi)
  }

  lemma SpanOverlap(a: Range, b: Range)
    ensures Span(a) * Span(b) == Interval(Max(b.lo, a.lo), Min(b.hi, a.hi))
  {
    IntervalMembers(a.lo, a.hi);
    IntervalMembers(b.lo, b.hi);
    var both := Interval(Max(b.lo, a.lo), Min(b.hi, a.hi));
    IntervalMembers(Max(b.lo, a.lo), Min(b.hi, a.hi));
    forall x ensures x in Span(a) * Span(b) <==> x in both {}
  }

  lemma HeadDisjoint(ranges: seq<Range>)
    requires Canonical(ranges) && ranges != []
    ensures Span(ranges[0]) * Lines(ranges[1..]) == {}
  {
    FirstOfCanonical(ranges);
    LinesHits(ranges[1..]);
    IntervalMembers(ranges[0].lo, ranges[0].hi);
    forall x | x in Span(ranges[0]) ensures x !in Lines(ranges[1..]) {}
  }

  /** The overlap lengths with a canonical list count the touched lines of the changed range. */
  lemma {:induction false} OverlapCounts(touched: seq<Range>, c: Range)
    requires Canonical(touched) && Measurable(c)
    ensures OverlapSum(touched, c) == |Span(c) * Lines(touched)|
  {
    if touched != [] {
      var t, rest := touched[0], touched[1..];
      OverlapCounts(rest, c);
      SpanOverlap(c, t);
      IntervalMembers(Max(t.lo, c.lo), Min(t.hi, c.hi));
      HeadDisjoint(touched);
      SplitCount(Span(c), Span(t), Lines(rest));
    } else {
      assert Span(c) * Lines(touched) == {};
    }
  }

  lemma SplitCount(c: set<int>, a: set<int>, b: set<int>)
    requires a * b == {}
    ensures |c * (a + b)| == |c * a| + |c * b|
  {
    assert c * (a + b) == (c * a) + (c * b);
    assert (c * a) * (c * b) == {};
  }

  ghost function Size(ranges: seq<Range>): int {
    if ranges == [] then 0 else ranges[0].hi - ranges[0].lo + 1 + Size(ranges[1..])
  }

  lemma {:induction false} CanonicalSize(ranges: seq<Range>)
    requires Canonical(ranges)
    ensures Size(ranges) == |Lines(ranges)|
  {
    if ranges != [] {
      CanonicalSize(ranges[1..]);
      HeadDisjoint(ranges);
      IntervalMembers(ranges[0].lo, ranges[0].hi);
    }
  }

  lemma {:induction false} PushAllCanonical(acc: seq<Range>, ranges: seq<Range>, x: int)
    requires Canonical(acc) && forall i :: 0 <= i < |ranges| ==> ranges[i].WellFormed()
    ensures Canonical(PushAll(acc, ranges))
    ensures Hits(PushAll(acc, ranges), x) <==> Hits(acc, x) || Hits(ranges, x)
    decreases |ranges|
  {
    if ranges != [] {
      UnionPushHits(acc, ranges[0], x);
      PushAllCanonical(UnionPush(acc, ranges[0]), ranges[1..], x);
    }
  }

  lemma CanonicalSweepable(touched: seq<Range>)
    requires Canonical(touched)
    ensures Sweepable(touched)
  {
  }

  /** The debt of a target: canonical, and exactly the changed lines that were not touched. */
  lemma DebtExact(t: CoverageTarget)
    requires Canonical(t.touchedRanges)
    ensures Canonical(DebtRanges(t))
    ensures forall x :: Hits(DebtRanges(t), x) <==> Hits(t.changedRanges, x) && !Hits(t.touchedRanges, x)
  {
    var gaps := UncoveredWithin(t.changedRanges, t.touchedRanges);
    CanonicalSweepable(t.touchedRanges);
    forall i | 0 <= i < |gaps| ensures gaps[i].WellFormed() {
      var c := UncoveredInside(t.changedRanges, t.touchedRanges, i);
    }
    PushAllCanonical([], gaps, 0);
    forall x ensures Hits(DebtRanges(t), x) <==> Hits(t.changedRanges, x) && !Hits(t.touchedRanges, x) {
      PushAllCanonical([], gaps, x);
      UncoveredExact(t.changedRanges, t.touchedRanges, x);
    }
  }

  lemma DebtLines(t: CoverageTarget)
    requires Canonical(t.touchedRanges)
    ensures Lines(DebtRanges(t)) == Lines(t.changedRanges) - Lines(t.touchedRanges)
  {
    DebtExact(t);
    SameLines(DebtRanges(t), t.changedRanges, t.touchedRanges);
  }

  lemma SameLines(debt: seq<Range>, changed: seq<Range>, touched: seq<Range>)
    requires forall x :: Hits(debt, x) <==> Hits(changed, x) && !Hits(touched, x)
    ensures Lines(debt) == Lines(changed) - Lines(touched)
  {
    LinesHits(debt);
    LinesHits(changed);
    LinesHits(touched);
    forall x ensures x in Lines(debt) <==> x in Lines(changed) - Lines(touched) {}
  }

  // ----- conservation -----

  ghost predicate InBoth(a: Range, b: Range, x: int) {
    a.lo <= x <= a.hi && b.lo <= x <= b.hi
  }

  /** No uncovered line is claimed by two changed ranges of the target. */
  ghost predicate NoSharedDebt(changed: seq<Range>, touched: set<int>) {
    forall i, j, x :: 0 <= i < j < |changed| && InBoth(changed[i], changed[j], x) ==> x in touched
  }

  /** Total minus covered adds up the untouched lines range by range; the debt counts each once. */
  lemma {:induction false} LinesBalance(changed: seq<Range>, touched: seq<Range>)
    requires Canonical(touched) && forall r :: r in changed ==> Measurable(r)
    ensures CoveredLines(changed, touched) + |Lines(changed) - Lines(touched)| <= TotalLines(changed)
    ensures CoveredLines(changed, touched) + |Lines(changed) - Lines(touched)| == TotalLines(changed)
      <==> NoSharedDebt(changed, Lines(touched))
    ensures CoveredLines(changed, touched) == TotalLines(changed) <==> Lines(changed) <= Lines(touched)
  {
    if changed != [] {
      var c, rest, t := changed[0], changed[1..], Lines(touched);
      LinesBalance(rest, touched);
      OverlapCounts(touched, c);
      IntervalMembers(c.lo, c.hi);
      var a, b := Span(c) - t, Lines(rest) - t;
      assert Span(c) == (Span(c) * t) + a;
      assert |Span(c)| == |Span(c) * t| + |a|;
      assert Lines(changed) - t == a + b;
      UnionCount(a, b);
      SharedSplit(changed, t);
    } else {
      assert Lines(changed) - Lines(touched) == {};
    }
  }

  lemma UnionCount(a: set<int>, b: set<int>)
    ensures |a + b| == |a| + |b| - |a * b|
    ensures |a + b| == |a| + |b| <==> a * b == {}
    ensures |a| == 0 <==> a == {}
  {
  }

  lemma SharedSplit(changed: seq<Range>, touched: set<int>)
    requires changed != []
    ensures NoSharedDebt(changed, touched) <==>
      NoSharedDebt(changed[1..], touched) && (Span(changed[0]) - touched) * (Lines(changed[1..]) - touched) == {}
  {
    var c, rest := changed[0], changed[1..];
    IntervalMembers(c.lo, c.hi);
    LinesHits(rest);
    if NoSharedDebt(changed, touched) {
      forall i, j, x | 0 <= i < j < |rest| && InBoth(rest[i], rest[j], x) ensures x in touched {
        assert InBoth(changed[i + 1], changed[j + 1], x);
      }
      forall x | x in Span(c) && x in Lines(rest) ensures x in touched {
        var j := HitsIndex(rest, x);
        assert InBoth(changed[0], changed[j + 1], x);
      }
    } else {
      var i, j, x :| 0 <= i < j < |changed| && InBoth(changed[i], changed[j], x) && x !in touched;
      if i == 0 {
        IndexHits(rest, j - 1, x);
        assert x in (Span(c) - touched) * (Lines(rest) - touched);
      } else {
        assert InBoth(rest[i - 1], rest[j - 1], x);
      }
    }
  }

  ghost function DebtSize(debt: seq<UncoveredRange>): int {
    if debt == [] then 0 else DebtSize(debt[..|debt| - 1]) + (debt[|debt| - 1].range.hi - debt[|debt| - 1].range.lo + 1)
  }

  lemma {:induction false} DebtSizeConcat(debt: seq<UncoveredRange>, file: string, ranges: seq<Range>)
    ensures DebtSize(debt + Label(file, ranges)) == DebtSize(debt) + Size(ranges)
    decreases |ranges|
  {
    if ranges == [] {
      assert debt + Label(file, ranges) == debt;
    } else {
      var one := debt + [UncoveredRange(file, ranges[0])];
      assert one[..|one| - 1] == debt;
      DebtSizeConcat(one, file, ranges[1..]);
      assert debt + Label(file, ranges) == one + Label(file, ranges[1..]);
    }
  }

  ghost predicate AllCanonical(targets: seq<CoverageTarget>) {
    forall t :: t in targets ==> Canonical(t.touchedRanges)
  }

  ghost predicate DebtUnshared(targets: seq<CoverageTarget>) {
    forall t :: t in targets ==> NoSharedDebt(t.changedRanges, Lines(t.touchedRanges))
  }

  /** The law for one target. */
  lemma TargetBalance(t: CoverageTarget)
    requires Canonical(t.touchedRanges) && forall r :: r in t.changedRanges ==> Measurable(r)
    ensures var total, covered := TotalLines(t.changedRanges), CoveredLines(t.changedRanges, t.touchedRanges);
      && covered + Size(DebtRanges(t)) <= total
      && (covered + Size(DebtRanges(t)) == total <==> NoSharedDebt(t.changedRanges, Lines(t.touchedRanges)))
      && (DebtRanges(t) == [] <==> covered == total)
    ensures |DebtRanges(t)| <= Size(DebtRanges(t))
  {
    DebtExact(t);
    DebtLines(t);
    CanonicalSize(DebtRanges(t));
    SizeAtLeastLength(DebtRanges(t));
    LinesBalance(t.changedRanges, t.touchedRanges);
    assert Lines(t.changedRanges) - Lines(t.touchedRanges) == {} <==> Lines(t.changedRanges) <= Lines(t.touchedRanges);
    assert DebtRanges(t) == [] <==> Lines(DebtRanges(t)) == {};
  }

  /** Covered lines plus the size of the debt never exceed the total, and equal it exactly when no
      uncovered line lies in two changed ranges of one target. The debt is empty exactly when every
      changed line is covered. */
  ghost predicate Conserved(targets: seq<CoverageTarget>)
    requires AllMeasurable(targets)
  {
    var s := Summarize(targets);
    && s.coveredChangedLines + DebtSize(s.debt) <= s.totalChangedLines
    && (s.coveredChangedLines + DebtSize(s.debt) == s.totalChangedLines <==> DebtUnshared(targets))
    && (s.debt == [] <==> s.coveredChangedLines == s.totalChangedLines)
    && DebtSize(s.debt) >= |s.debt|
  }

  lemma ConservedSnoc(init: seq<CoverageTarget>, t: CoverageTarget)
    requires AllMeasurable(init) && AllMeasurable(init + [t]) && Canonical(t.touchedRanges) && Conserved(init)
    ensures Conserved(init + [t])
  {
    SummarizeSnoc(init, t);
    TargetBalance(t);
    DebtSizeConcat(Summarize(init).debt, t.file, DebtRanges(t));
    UnsharedSnoc(init, t);
  }

  lemma GoodPrefix(init: seq<CoverageTarget>, t: CoverageTarget)
    requires AllMeasurable(init + [t])
    ensures AllMeasurable(init) && forall r :: r in t.changedRanges ==> Measurable(r)
    ensures AllCanonical(init + [t]) ==> AllCanonical(init) && Canonical(t.touchedRanges)
  {
    assert t in init + [t] && forall u :: u in init ==> u in init + [t];
  }

  /** The conservation law, and that the uncovered lines number the size of the debt exactly when no
      uncovered line is shared. */
  lemma {:induction false} Conservation(targets: seq<CoverageTarget>)
    requires AllMeasurable(targets) && AllCanonical(targets)
    ensures Conserved(targets)
    ensures var s := Summarize(targets); DebtUnshared(targets) <==> s.UncoveredChangedLines() == DebtSize(s.debt)
  {
    if targets != [] {
      var init, t := targets[..|targets| - 1], targets[|targets| - 1];
      assert targets == init + [t];
      GoodPrefix(init, t);
      Conservation(init);
      ConservedSnoc(init, t);
    }
  }

  lemma SummarizeSnoc(init: seq<CoverageTarget>, t: CoverageTarget)
    requires AllMeasurable(init) && AllMeasurable(init + [t])
    ensures forall r :: r in t.changedRanges ==> Measurable(r)
    ensures var s, all := Summarize(init), Summarize(init + [t]);
      && all.totalChangedLines == s.totalChangedLines + TotalLines(t.changedRanges)
      && all.coveredChangedLines == s.coveredChangedLines + CoveredLines(t.changedRanges, t.touchedRanges)
      && all.debt == s.debt + Label(t.file, DebtRanges(t))
  {
    var all := init + [t];
    GoodPrefix(init, t);
    assert all[..|all| - 1] == init && all[|all| - 1] == t;
  }

  lemma UnsharedSnoc(init: seq<CoverageTarget>, t: CoverageTarget)
    ensures DebtUnshared(init + [t]) <==> DebtUnshared(init) && NoSharedDebt(t.changedRanges, Lines(t.touchedRanges))
  {
    assert forall u :: u in init + [t] <==> u in init || u == t;
  }

  lemma {:induction false} SizeAtLeastLength(ranges: seq<Range>)
    requires forall i :: 0 <= i < |ranges| ==> ranges[i].WellFormed()
    ensures Size(ranges) >= |ranges|
  {
    if ranges != [] { SizeAtLeastLength(ranges[1..]); }
  }

  /** Two overlapping hunks: the shared line counts twice in the total and once in the debt. */
  lemma OverlappingHunks()
    ensures var t := CoverageTarget("a", [Range(1, 2), Range(2, 3)], [], Pending, []);
      AllMeasurable([t]) && Summarize([t]).totalChangedLines == 4 && Summarize([t]).coveredChangedLines == 0
      && DebtSize(Summarize([t]).debt) == 3
  {
    var t := CoverageTarget("a", [Range(1, 2), Range(2, 3)], [], Pending, []);
    var changed, s := t.changedRanges, Summarize([t]);
    assert changed[1..] == [Range(2, 3)];
    assert TotalLines(changed) == 4 && CoveredLines(changed, []) == 0;
    SummarizeOne(t);
    DebtSizeConcat([], "a", DebtRanges(t));
    assert [] + Label("a", DebtRanges(t)) == Label("a", DebtRanges(t));
    DebtExact(t);
    DebtLines(t);
    CanonicalSize(DebtRanges(t));
    TwoHunkLines(changed);
  }

  lemma SummarizeOne(t: CoverageTarget)
    requires AllMeasurable([t])
    ensures Summarize([t]) ==
      CoverageSummary(TotalLines(t.changedRanges), CoveredLines(t.changedRanges, t.touchedRanges),
                      Label(t.file, DebtRanges(t)))
  {
  }

  lemma TwoHunkLines(changed: seq<Range>)
    requires changed == [Range(1, 2), Range(2, 3)]
    ensures |Lines(changed) - Lines([])| == 3
  {
    LinesHits(changed);
    IntervalMembers(1, 3);
    assert changed[1..] == [Range(2, 3)];
    forall x ensures x in Lines(changed) - Lines([]) <==> x in Interval(1, 3) {
      assert Hits(changed, x) <==> 1 <= x <= 2 || Hits([Range(2, 3)], x);
    }
    assert Lines(changed) - Lines([]) == Interval(1, 3);
  }

  // ----- progress -----

  /** Every line the first list touches, the second touches too. */
  ghost predicate TouchesMore(a: CoverageTarget, b: CoverageTarget) {
    a.file == b.file && a.changedRanges == b.changedRanges && Lines(a.touchedRanges) <= Lines(b.touchedRanges)
  }

  lemma {:induction false} CoveredMonotone(changed: seq<Range>, a: seq<Range>, b: seq<Range>)
    requires Canonical(a) && Canonical(b) && Lines(a) <= Lines(b)
    requires forall r :: r in changed ==> Measurable(r)
    ensures CoveredLines(changed, a) <= CoveredLines(changed, b)
  {
    if changed != [] {
      CoveredMonotone(changed[1..], a, b);
      OverlapCounts(a, changed[0]);
      OverlapCounts(b, changed[0]);
      var small, large := Span(changed[0]) * Lines(a), Span(changed[0]) * Lines(b);
      assert large == small + (large - small);
    }
  }

  lemma {:induction false} SummaryMonotone(a: seq<CoverageTarget>, b: seq<CoverageTarget>)
    requires AllMeasurable(a) && AllMeasurable(b) && AllCanonical(a) && AllCanonical(b)
    requires |a| == |b| && forall i :: 0 <= i < |a| ==> TouchesMore(a[i], b[i])
    ensures Summarize(a).totalChangedLines == Summarize(b).totalChangedLines
    ensures Summarize(a).coveredChangedLines <= Summarize(b).coveredChangedLines
  {
    if a != [] {
      var ta, tb := a[|a| - 1], b[|b| - 1];
      assert ta in a && tb in b && TouchesMore(ta, tb);
      SummaryMonotone(a[..|a| - 1], b[..|b| - 1]);
      CoveredMonotone(ta.changedRanges, ta.touchedRanges, tb.touchedRanges);
    }
  }

  lemma MoreLines(a: seq<Range>, b: seq<Range>)
    requires forall x :: Hits(a, x) ==> Hits(b, x)
    ensures Lines(a) <= Lines(b)
  {
    LinesHits(a);
    LinesHits(b);
    forall x | x in Lines(a) ensures x in Lines(b) {}
  }

  /** One more mark never lowers coverage, never changes the total, and never turns a
      sufficient review into an insufficient one. */
  lemma MarkNeverHurts(targets: seq<CoverageTarget>, m: Mark)
    requires AllMeasurable(targets) && AllCanonical(targets) && m.range.WellFormed()
    ensures var after := Marked(targets, m.file, m.range, m.expert);
      && AllMeasurable(after) && AllCanonical(after)
      && Summarize(after).totalChangedLines == Summarize(targets).totalChangedLines
      && Summarize(after).coveredChangedLines >= Summarize(targets).coveredChangedLines
      && (Summarize(targets).IsSufficient() ==> Summarize(after).IsSufficient())
  {
    var after := Marked(targets, m.file, m.range, m.expert);
    MarkedShape(targets, m.file, m.range, m.expert);
    forall i | 0 <= i < |targets| ensures TouchesMore(targets[i], after[i]) && Canonical(after[i].touchedRanges) {
      MarkedAt(targets, m, i);
      assert targets[i] in targets;
      UnionPushCanonical(targets[i].touchedRanges, m.range);
      MoreLines(targets[i].touchedRanges, after[i].touchedRanges);
    }
    SummaryMonotone(targets, after);
  }
  /** A mark pays off exactly its own lines: the debt of the target it reaches loses those, and every
      other debt stays. */
  lemma MarkPaysDebt(targets: seq<CoverageTarget>, m: Mark, i: nat, x: int)
    requires i < |targets| && Canonical(targets[i].touchedRanges) && m.range.WellFormed()
    ensures var after := Marked(targets, m.file, m.range, m.expert);
      && |after| == |targets|
      && (Hits(DebtRanges(after[i]), x) <==>
            && Hits(DebtRanges(targets[i]), x)
            && !(m.file == targets[i].file && FirstOfFile(targets, i) && m.range.lo <= x <= m.range.hi))
  {
    MarkedAt(targets, m, i);
    UnionPushCanonical(targets[i].touchedRanges, m.range);
    DebtExact(targets[i]);
    DebtExact(Marked(targets, m.file, m.range, m.expert)[i]);
  }
  // ----- what the summary says, line by line -----

  /** The debt lists line `x` under `file` exactly when a target of that file has it changed and untouched. */
  lemma {:induction false} DebtNames(targets: seq<CoverageTarget>, file: string, x: int)
    requires AllMeasurable(targets) && AllCanonical(targets)
    ensures (exists d :: d in Summarize(targets).debt && d.file == file && d.range.lo <= x <= d.range.hi) <==>
      exists t :: t in targets && t.file == file && Hits(t.changedRanges, x) && !Hits(t.touchedRanges, x)
  {
    if targets != [] {
      var init, t := targets[..|targets| - 1], targets[|targets| - 1];
      assert t in targets && targets == init + [t];
      GoodPrefix(init, t);
      DebtNames(init, file, x);
      SummarizeSnoc(init, t);
      DebtExact(t);
      LabelNames(t.file, DebtRanges(t), file, x);
      var before, added := Summarize(init).debt, Label(t.file, DebtRanges(t));
      assert forall d :: d in before + added <==> d in before || d in added;
      assert forall u :: u in targets <==> u in init || u == t;
    }
  }

  lemma LabelNames(owner: string, ranges: seq<Range>, file: string, x: int)
    ensures (exists d :: d in Label(owner, ranges) && d.file == file && d.range.lo <= x <= d.range.hi) <==>
      owner == file && Hits(ranges, x)
  {
    var entries := Label(owner, ranges);
    if d :| d in entries && d.file == file && d.range.lo <= x <= d.range.hi {
      var k :| 0 <= k < |entries| && entries[k] == d;
      IndexHits(ranges, k, x);
    }
    if owner == file && Hits(ranges, x) {
      var k := HitsIndex(ranges, x);
      assert entries[k] in entries;
    }
  }

  /** A review is sufficient exactly when at most three tenths of the changed lines are uncovered. */
  lemma SufficientExactly(targets: seq<CoverageTarget>)
    requires AllMeasurable(targets) && AllCanonical(targets)
    ensures var s := Summarize(targets); s.IsSufficient() <==> 10 * s.UncoveredChangedLines() <= 3 * s.totalChangedLines
  {
    Conservation(targets);
  }

  /** The new lines of a hunk, as far as line numbers reach. */
  function NewLinesOf(hunk: DiffHunk): nat {
    Min(hunk.newLines, U32_MAX + 1 - hunk.newStart)
  }

  function NewLinesIn(hunks: seq<DiffHunk>): nat {
    if hunks == [] then 0 else NewLinesIn(hunks[..|hunks| - 1]) + NewLinesOf(hunks[|hunks| - 1])
  }

  function NewLinesInAll(diffFiles: seq<(string, seq<DiffHunk>)>): nat {
    if diffFiles == [] then 0
    else NewLinesInAll(diffFiles[..|diffFiles| - 1]) + NewLinesIn(diffFiles[|diffFiles| - 1].1)
  }

  lemma {:induction false} TotalLinesSnoc(changed: seq<Range>, r: Range)
    requires Measurable(r) && forall c :: c in changed ==> Measurable(c)
    ensures TotalLines(changed + [r]) == TotalLines(changed) + r.hi - r.lo + 1
  {
    if changed == [] {
      assert [r][1..] == [] && changed + [r] == [r];
    } else {
      assert (changed + [r])[0] == changed[0] && (changed + [r])[1..] == changed[1..] + [r];
      TotalLinesSnoc(changed[1..], r);
    }
  }

  lemma {:induction false} TotalOfHunks(hunks: seq<DiffHunk>)
    ensures forall r :: r in ChangedRanges(hunks) ==> Measurable(r)
    ensures TotalLines(ChangedRanges(hunks)) == NewLinesIn(hunks)
  {
    ChangedRangesMeasurable(hunks);
    if hunks != [] {
      var init, last := hunks[..|hunks| - 1], hunks[|hunks| - 1];
      TotalOfHunks(init);
      HunkRangeMeasurable(last);
      if last.newLines > 0 {
        TotalLinesSnoc(ChangedRanges(init), HunkNewRange(last).value);
      } else {
        assert ChangedRanges(init) + [] == ChangedRanges(init);
      }
    }
  }

  lemma TotalSnoc(init: seq<CoverageTarget>, last: (string, seq<DiffHunk>))
    requires AllMeasurable(init) && AllMeasurable(init + [FreshTarget(last)])
    ensures var s, all := Summarize(init), Summarize(init + [FreshTarget(last)]);
      && all.totalChangedLines == s.totalChangedLines + NewLinesIn(last.1)
      && all.coveredChangedLines == s.coveredChangedLines
  {
    SummarizeSnoc(init, FreshTarget(last));
    TotalOfHunks(last.1);
    NothingCovered(ChangedRanges(last.1));
  }

  lemma NoLinesIn(file: string, hunks: seq<DiffHunk>)
    requires !HasNewLines((file, hunks))
    ensures NewLinesIn(hunks) == 0
  {
    ChangedRangesEmpty(file, hunks);
    TotalOfHunks(hunks);
  }

  lemma TotalStep(all: seq<(string, seq<DiffHunk>)>, init: seq<(string, seq<DiffHunk>)>, last: (string, seq<DiffHunk>))
    requires all == init + [last]
    requires AllMeasurable(TargetsOf(init)) && AllMeasurable(TargetsOf(all))
    ensures Summarize(TargetsOf(all)).totalChangedLines
         == Summarize(TargetsOf(init)).totalChangedLines + NewLinesIn(last.1)
    ensures Summarize(TargetsOf(all)).coveredChangedLines == Summarize(TargetsOf(init)).coveredChangedLines
  {
    TargetsSnoc(init, last);
    if HasNewLines(last) {
      TotalSnoc(TargetsOf(init), last);
    } else {
      NoLinesIn(last.0, last.1);
    }
  }

  lemma {:induction false} TotalOfTargets(diffFiles: seq<(string, seq<DiffHunk>)>)
    requires AllMeasurable(TargetsOf(diffFiles))
    ensures Summarize(TargetsOf(diffFiles)).totalChangedLines == NewLinesInAll(diffFiles)
    ensures Summarize(TargetsOf(diffFiles)).coveredChangedLines == 0
  {
    if diffFiles != [] {
      var init, last := diffFiles[..|diffFiles| - 1], diffFiles[|diffFiles| - 1];
      TargetsMeasurable(init);
      TotalOfTargets(init);
      TotalStep(diffFiles, init, last);
    }
  }

  /** A fresh ledger's total is the number of new lines of all hunks, and all of them are uncovered. */
  lemma TotalOfDiff(diffFiles: seq<(string, seq<DiffHunk>)>)
    ensures AllMeasurable(TargetsOf(diffFiles))
    ensures Summarize(TargetsOf(diffFiles)).totalChangedLines == NewLinesInAll(diffFiles)
    ensures Summarize(TargetsOf(diffFiles)).coveredChangedLines == 0
  {
    TargetsMeasurable(diffFiles);
    TotalOfTargets(diffFiles);
  }

  lemma {:induction false} NothingCovered(changed: seq<Range>)
    requires forall r :: r in changed ==> Measurable(r)
    ensures CoveredLines(changed, []) == 0
  {
    if changed != [] { NothingCovered(changed[1..]); }
  }
}

/** Building the coverage ledger from expert findings (src/team/orchestrator/validation.rs:45-73). */
module Findings {
  import opened Sequences
  import opened DiffModel
  import opened Ranges
  import opened Coverage
  import opened CoverageProperties

  /** Where a finding points: one line, a span of lines, or the whole file. */
  datatype Finding = Finding(file: string, line: Option<u32>, lineEnd: Option<u32>, expert: string)

  /** The changed ranges of a file's first target. */
  function ChangedOf(targets: seq<CoverageTarget>, file: string): seq<Range> {
    if targets == [] then []
    else if targets[0].file == file then targets[0].changedRanges
    else ChangedOf(targets[1..], file)
  }

  function MarkAll(file: string, ranges: seq<Range>, expert: string): seq<Mark> {
    seq(|ranges|, i requires 0 <= i < |ranges| => Mark(file, ranges[i], expert))
  }

  /** The marks one finding makes. A finding without a line marks everything changed in its file. */
  function MarksOf(targets: seq<CoverageTarget>, f: Finding): seq<Mark> {
    match f.line
    case Some(l) => [Mark(f.file, Range(l, Max(f.lineEnd.UnwrapOr(l), l)), f.expert)]
    case None => MarkAll(f.file, ChangedOf(targets, f.file), f.expert)
  }

  function MarksOfAll(targets: seq<CoverageTarget>, findings: seq<Finding>): seq<Mark> {
    if findings == [] then []
    else MarksOfAll(targets, findings[..|findings| - 1]) + MarksOf(targets, findings[|findings| - 1])
  }

  lemma {:induction false} ReplayConcat(targets: seq<CoverageTarget>, a: seq<Mark>, b: seq<Mark>)
    ensures Replay(targets, a + b) == Replay(Replay(targets, a), b)
    decreases |a|
  {
    if a == [] {
      assert a + b == b;
    } else {
      assert (a + b)[0] == a[0] && (a + b)[1..] == a[1..] + b;
      ReplayConcat(Marked(targets, a[0].file, a[0].range, a[0].expert), a[1..], b);
    }
  }

  lemma {:induction false} ChangedOfMarked(targets: seq<CoverageTarget>, m: Mark, file: string)
    ensures ChangedOf(Marked(targets, m.file, m.range, m.expert), file) == ChangedOf(targets, file)
  {
    if targets != [] && targets[0].file != m.file { ChangedOfMarked(targets[1..], m, file); }
  }

  lemma {:induction false} ChangedOfReplay(targets: seq<CoverageTarget>, marks: seq<Mark>, file: string)
    ensures ChangedOf(Replay(targets, marks), file) == ChangedOf(targets, file)
    decreases |marks|
  {
    if marks != [] {
      ChangedOfMarked(targets, marks[0], file);
      ChangedOfReplay(Marked(targets, marks[0].file, marks[0].range, marks[0].expert), marks[1..], file);
    }
  }

  lemma ReplayOne(targets: seq<CoverageTarget>, m: Mark)
    ensures Replay(targets, [m]) == Marked(targets, m.file, m.range, m.expert)
  {
  }

  /** Plays the marks of one finding on the ledger. */
  method MarkRanges(ledger: CoverageLedger, file: string, ranges: seq<Range>, expert: string)
    requires ledger.Valid()
    modifies ledger
    ensures ledger.Valid() && ledger.targets == Replay(old(ledger.targets), MarkAll(file, ranges, expert))
  {
    ghost var start, marks := ledger.targets, MarkAll(file, ranges, expert);
    assert marks[..0] == [];
    for i := 0 to |ranges|
      invariant ledger.Valid() && ledger.targets == Replay(start, marks[..i])
    {
      assert marks[..i + 1] == marks[..i] + [marks[i]];
      ReplayConcat(start, marks[..i], [marks[i]]);
      ReplayOne(ledger.targets, marks[i]);
      ledger.MarkTouched(file, ranges[i], expert);
    }
    assert marks[..|ranges|] == marks;
  }

  lemma {:induction false} ChangedOfMeasurable(targets: seq<CoverageTarget>, file: string)
    requires AllMeasurable(targets)
    ensures forall r :: r in ChangedOf(targets, file) ==> Measurable(r)
  {
    if targets != [] { ChangedOfMeasurable(targets[1..], file); }
  }

  /** Whatever lines the findings name, their marks are well-formed. */
  lemma {:induction false} FindingMarksWellFormed(targets: seq<CoverageTarget>, findings: seq<Finding>)
    requires AllMeasurable(targets)
    ensures WellFormedMarks(MarksOfAll(targets, findings))
  {
    if findings != [] {
      var f := findings[|findings| - 1];
      FindingMarksWellFormed(targets, findings[..|findings| - 1]);
      ChangedOfMeasurable(targets, f.file);
      forall m | m in MarksOf(targets, f) ensures m.range.WellFormed() {
        if f.line.None? {
          var i :| 0 <= i < |ChangedOf(targets, f.file)| && m == Mark(f.file, ChangedOf(targets, f.file)[i], f.expert);
          assert ChangedOf(targets, f.file)[i] in ChangedOf(targets, f.file);
        }
      }
    }
  }

  lemma {:induction false} FreshTargets(diffFiles: seq<(string, seq<DiffHunk>)>)
    ensures forall t :: t in TargetsOf(diffFiles) ==> t.touchedRanges == []
  {
    if diffFiles != [] { FreshTargets(diffFiles[..|diffFiles| - 1]); }
  }

  // ----- what the ledger must be, in terms of the findings themselves -----

  /** The finding is about line `x` of a file with the given changed ranges: its one line, or its lines
      up to the end it names, or, when it names no line, every changed line. */
  ghost predicate About(f: Finding, changed: seq<Range>, x: int) {
    match f.line
    case Some(l) => x == l || (f.lineEnd.Some? && l <= x <= f.lineEnd.value)
    case None => Hits(changed, x)
  }

  /** The `i`-th target keeps its file and changed ranges. When it is the first of its file, the touched
      lines are those the findings on the file are about, and it names exactly the experts that made
      one; a later target of the same file stays untouched. */
  ghost predicate Records(targets: seq<CoverageTarget>, start: seq<CoverageTarget>, findings: seq<Finding>, i: nat)
    requires i < |targets| == |start|
  {
    var t := targets[i];
    && t.file == start[i].file && t.changedRanges == start[i].changedRanges
    && Canonical(t.touchedRanges) && NoDuplicates(t.touchedBy)
    && (forall x :: Hits(t.touchedRanges, x) <==>
          FirstOfFile(start, i) && exists f :: f in findings && f.file == t.file && About(f, t.changedRanges, x))
    && (forall expert :: expert in t.touchedBy <==>
          FirstOfFile(start, i) && exists f :: f in findings && f.file == t.file && f.expert == expert)
    && (t.status == Touched <==> FirstOfFile(start, i) && exists f :: f in findings && f.file == t.file)
  }

  lemma {:induction false} MarkOrigin(targets: seq<CoverageTarget>, findings: seq<Finding>, m: Mark)
    returns (f: Finding)
    requires m in MarksOfAll(targets, findings)
    ensures f in findings && m in MarksOf(targets, f) && f.file == m.file && f.expert == m.expert
  {
    var last := findings[|findings| - 1];
    if m in MarksOf(targets, last) {
      f := last;
    } else {
      f := MarkOrigin(targets, findings[..|findings| - 1], m);
    }
  }

  lemma {:induction false} MarksInclude(targets: seq<CoverageTarget>, findings: seq<Finding>, f: Finding)
    requires f in findings
    ensures forall m :: m in MarksOf(targets, f) ==> m in MarksOfAll(targets, findings)
  {
    if findings[|findings| - 1] != f {
      MarksInclude(targets, findings[..|findings| - 1], f);
    }
  }

  /** The marks of a finding lie on the lines it is about. */
  lemma MarksAbout(start: seq<CoverageTarget>, f: Finding, i: nat, x: int)
    requires i < |start| && FirstOfFile(start, i) && f.file == start[i].file
    ensures (exists m :: m in MarksOf(start, f) && m.range.lo <= x <= m.range.hi)
      <==> About(f, start[i].changedRanges, x)
  {
    ChangedOfFirst(start, i);
    var marks, changed := MarksOf(start, f), start[i].changedRanges;
    if f.line.Some? {
      assert marks[0] in marks;
    } else {
      if m :| m in marks && m.range.lo <= x <= m.range.hi {
        var k :| 0 <= k < |marks| && marks[k] == m;
        IndexHits(changed, k, x);
      }
      if Hits(changed, x) {
        var k := HitsIndex(changed, x);
        assert marks[k] in marks;
      }
    }
  }

  lemma MarksLineFrom(start: seq<CoverageTarget>, findings: seq<Finding>, i: nat, x: int) returns (f: Finding)
    requires i < |start| && FirstOfFile(start, i) && MarksLine(MarksOfAll(start, findings), start[i].file, x)
    ensures f in findings && f.file == start[i].file && About(f, start[i].changedRanges, x)
  {
    var m :| m in MarksOfAll(start, findings) && m.file == start[i].file && m.range.lo <= x <= m.range.hi;
    f := MarkOrigin(start, findings, m);
    MarksAbout(start, f, i, x);
  }

  lemma MarksLineTo(start: seq<CoverageTarget>, findings: seq<Finding>, i: nat, x: int, f: Finding)
    requires i < |start| && FirstOfFile(start, i)
    requires f in findings && f.file == start[i].file && About(f, start[i].changedRanges, x)
    ensures MarksLine(MarksOfAll(start, findings), start[i].file, x)
  {
    MarksAbout(start, f, i, x);
    MarksInclude(start, findings, f);
    var m :| m in MarksOf(start, f) && m.range.lo <= x <= m.range.hi;
    assert m.file == start[i].file;
  }

  lemma MarksLineExactly(start: seq<CoverageTarget>, findings: seq<Finding>, i: nat, x: int)
    requires i < |start| && FirstOfFile(start, i)
    ensures MarksLine(MarksOfAll(start, findings), start[i].file, x) <==>
      exists f :: f in findings && f.file == start[i].file && About(f, start[i].changedRanges, x)
  {
    if MarksLine(MarksOfAll(start, findings), start[i].file, x) {
      var f := MarksLineFrom(start, findings, i, x);
    }
    if f :| f in findings && f.file == start[i].file && About(f, start[i].changedRanges, x) {
      MarksLineTo(start, findings, i, x, f);
    }
  }

  lemma MarkedByExactly(start: seq<CoverageTarget>, findings: seq<Finding>, i: nat, expert: string)
    requires i < |start| && FirstOfFile(start, i) && start[i].changedRanges != []
    ensures MarkedBy(MarksOfAll(start, findings), start[i].file, expert) <==>
      exists f :: f in findings && f.file == start[i].file && f.expert == expert
  {
    var marks := MarksOfAll(start, findings);
    if MarkedBy(marks, start[i].file, expert) {
      var m :| m in marks && m.file == start[i].file && m.expert == expert;
      var f := MarkOrigin(start, findings, m);
    }
    if f :| f in findings && f.file == start[i].file && f.expert == expert {
      ChangedOfFirst(start, i);
      MarksInclude(start, findings, f);
      assert MarksOf(start, f)[0] in MarksOf(start, f);
    }
  }

  lemma MarkedAtAllExactly(start: seq<CoverageTarget>, findings: seq<Finding>, i: nat)
    requires i < |start| && FirstOfFile(start, i) && start[i].changedRanges != []
    ensures MarkedAtAll(MarksOfAll(start, findings), start[i].file) <==>
      exists f :: f in findings && f.file == start[i].file
  {
    var marks := MarksOfAll(start, findings);
    if MarkedAtAll(marks, start[i].file) {
      var m :| m in marks && m.file == start[i].file;
      MarkedByExactly(start, findings, i, m.expert);
      assert MarkedBy(marks, start[i].file, m.expert);
    }
    if f :| f in findings && f.file == start[i].file {
      MarkedByExactly(start, findings, i, f.expert);
    }
  }

  lemma TargetIsFresh(diffFiles: seq<(string, seq<DiffHunk>)>, i: nat)
    requires i < |TargetsOf(diffFiles)|
    ensures var t := TargetsOf(diffFiles)[i];
      t.changedRanges != [] && t.touchedRanges == [] && t.touchedBy == [] && t.status == Pending
  {
    var at := TargetsOfDiff(diffFiles);
    assert HasNewLines(diffFiles[at[i]]);
    var k :| 0 <= k < |diffFiles[at[i]].1| && AddsLines(diffFiles[at[i]].1[k]);
    var hunkAt := ChangedRangesOfHunks(diffFiles[at[i]].1);
    assert k in hunkAt;
  }

  lemma RecordsAt(diffFiles: seq<(string, seq<DiffHunk>)>, findings: seq<Finding>, i: nat)
    requires i < |TargetsOf(diffFiles)|
    ensures var start := TargetsOf(diffFiles); var targets := Replay(start, MarksOfAll(start, findings));
      |targets| == |start| && Records(targets, start, findings, i)
  {
    var start := TargetsOf(diffFiles);
    var marks := MarksOfAll(start, findings);
    TargetsMeasurable(diffFiles);
    FindingMarksWellFormed(start, findings);
    TargetIsFresh(diffFiles, i);
    ReplayTouched(start, marks, i);
    ReplayExperts(start, marks, i, "");
    var t := Replay(start, marks)[i];
    forall x ensures Hits(t.touchedRanges, x) <==>
      FirstOfFile(start, i) && exists f :: f in findings && f.file == t.file && About(f, t.changedRanges, x)
    {
      if FirstOfFile(start, i) { MarksLineExactly(start, findings, i, x); }
    }
    forall expert ensures expert in t.touchedBy <==>
      FirstOfFile(start, i) && exists f :: f in findings && f.file == t.file && f.expert == expert
    {
      ReplayExperts(start, marks, i, expert);
      if FirstOfFile(start, i) { MarkedByExactly(start, findings, i, expert); }
    }
    if FirstOfFile(start, i) { MarkedAtAllExactly(start, findings, i); }
  }

  lemma LedgerRecords(diffFiles: seq<(string, seq<DiffHunk>)>, findings: seq<Finding>)
    ensures var start := TargetsOf(diffFiles); var targets := Replay(start, MarksOfAll(start, findings));
      && |targets| == |start|
      && forall i :: 0 <= i < |targets| ==> Records(targets, start, findings, i)
  {
    ReplayLength(TargetsOf(diffFiles), MarksOfAll(TargetsOf(diffFiles), findings));
    forall i | 0 <= i < |TargetsOf(diffFiles)|
      ensures Records(Replay(TargetsOf(diffFiles), MarksOfAll(TargetsOf(diffFiles), findings)), TargetsOf(diffFiles),
                      findings, i)
    {
      RecordsAt(diffFiles, findings, i);
    }
  }

  method BuildCoverageLedger(diffFiles: seq<(string, seq<DiffHunk>)>, findings: seq<Finding>)
    returns (ledger: CoverageLedger)
    ensures fresh(ledger) && ledger.Valid()
    ensures ledger.targets == Replay(TargetsOf(diffFiles), MarksOfAll(TargetsOf(diffFiles), findings))
    ensures exists at :: Describes(TargetsOf(diffFiles), diffFiles, at)
    ensures |ledger.targets| == |TargetsOf(diffFiles)|
    ensures forall i :: 0 <= i < |ledger.targets| ==> Records(ledger.targets, TargetsOf(diffFiles), findings, i)
  {
    ledger := new CoverageLedger.FromDiffFiles(diffFiles);
    ghost var start := ledger.targets;
    for i := 0 to |findings|
      invariant fresh(ledger) && ledger.Valid()
      invariant ledger.targets == Replay(start, MarksOfAll(start, findings[..i]))
    {
      var f := findings[i];
      assert findings[..i + 1][..i] == findings[..i];
      ReplayConcat(start, MarksOfAll(start, findings[..i]), MarksOf(start, f));
      ChangedOfReplay(start, MarksOfAll(start, findings[..i]), f.file);
      match f.line {
        case Some(l) =>
          var hi := match f.lineEnd case Some(e) => Max(e, l) case None => l;
          ReplayOne(ledger.targets, Mark(f.file, Range(l, hi), f.expert));
          ledger.MarkTouched(f.file, Range(l, hi), f.expert);
        case None =>
          MarkRanges(ledger, f.file, ChangedOf(ledger.targets, f.file), f.expert);
      }
    }
    assert findings[..|findings|] == findings;
    LedgerRecords(diffFiles, findings);
    ghost var at := FreshDescribes(diffFiles);
  }

  /** The ledger of any review run, from any diff and any findings: every touched list is
      canonical, and the conservation law holds. */
  lemma RunConserves(diffFiles: seq<(string, seq<DiffHunk>)>, findings: seq<Finding>)
    ensures var targets := Replay(TargetsOf(diffFiles), MarksOfAll(TargetsOf(diffFiles), findings));
      && AllMeasurable(targets) && AllCanonical(targets)
      && var s := Summarize(targets);
         && s.coveredChangedLines + DebtSize(s.debt) <= s.totalChangedLines
         && (s.UncoveredChangedLines() == DebtSize(s.debt) <==> DebtUnshared(targets))
         && (s.debt == [] <==> s.coveredChangedLines == s.totalChangedLines)
  {
    var start := TargetsOf(diffFiles);
    var marks := MarksOfAll(start, findings);
    var targets := Replay(start, marks);
    TargetsMeasurable(diffFiles);
    FreshTargets(diffFiles);
    FindingMarksWellFormed(start, findings);
    ReplayMeasurable(start, marks);
    ReplayLength(start, marks);
    forall i | 0 <= i < |targets| ensures Canonical(targets[i].touchedRanges) {
      assert start[i] in start;
      ReplayTouched(start, marks, i);
    }
    Conservation(targets);
  }

  /** A finding on a whole file leaves the first target of that file without debt. */
  lemma WholeFileFindingClears(diffFiles: seq<(string, seq<DiffHunk>)>, findings: seq<Finding>, f: Finding, i: nat)
    requires f in findings && f.line.None?
    requires i < |TargetsOf(diffFiles)| && TargetsOf(diffFiles)[i].file == f.file
    requires FirstOfFile(TargetsOf(diffFiles), i)
    ensures |Replay(TargetsOf(diffFiles), MarksOfAll(TargetsOf(diffFiles), findings))| == |TargetsOf(diffFiles)|
    ensures DebtRanges(Replay(TargetsOf(diffFiles), MarksOfAll(TargetsOf(diffFiles), findings))[i]) == []
  {
    var start := TargetsOf(diffFiles);
    var marks := MarksOfAll(start, findings);
    TargetsMeasurable(diffFiles);
    FreshTargets(diffFiles);
    FindingMarksWellFormed(start, findings);
    assert start[i] in start;
    ReplayTouched(start, marks, i);
    ReplayLength(start, marks);
    var t := Replay(start, marks)[i];
    ChangedOfFirst(start, i);
    DebtExact(t);
    forall x ensures !Hits(DebtRanges(t), x) {
      if Hits(t.changedRanges, x) {
        var k := HitsIndex(t.changedRanges, x);
        MarkIn(start, findings, f, k);
        assert MarksLine(marks, f.file, x);
      }
    }
    if DebtRanges(t) != [] {
      FirstOfCanonical(DebtRanges(t));
    }
  }

  lemma {:induction false} ChangedOfFirst(targets: seq<CoverageTarget>, i: nat)
    requires i < |targets| && FirstOfFile(targets, i)
    ensures ChangedOf(targets, targets[i].file) == targets[i].changedRanges
  {
    if i > 0 {
      assert forall j :: 0 <= j < i - 1 ==> targets[1..][j] == targets[j + 1];
      ChangedOfFirst(targets[1..], i - 1);
    }
  }

  lemma {:induction false} MarkIn(targets: seq<CoverageTarget>, findings: seq<Finding>, f: Finding, k: nat)
    requires f in findings && f.line.None? && k < |ChangedOf(targets, f.file)|
    ensures Mark(f.file, ChangedOf(targets, f.file)[k], f.expert) in MarksOfAll(targets, findings)
  {
    var last := findings[|findings| - 1];
    if last == f {
      assert MarksOf(targets, f)[k] == Mark(f.file, ChangedOf(targets, f.file)[k], f.expert);
    } else {
      MarkIn(targets, findings[..|findings| - 1], f, k);
    }
  }
}

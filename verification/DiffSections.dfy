/** Reading back the sections of an ordinary diff, for any modified file: its paths, the numbers of its
    hunk headers and the kinds of its lines (src/diff/parser.rs). */
module DiffSections {
  import opened Sequences
  import opened DiffModel
  import opened Text
  import opened Parser
  import opened ParserProperties
  import opened FullPath

  // ----- the file header -----

  lemma GitWords(a: string, b: string)
    requires a != "" && b != "" && Solid(a) && Solid(b)
    ensures SplitWhitespace("diff --git " + a + " " + b) == ["diff", "--git", a, b]
  {
    var tail := a + " " + b;
    assert "diff --git " + a + " " + b == "diff" + " " + ("--git" + " " + tail);
    SplitWord("diff", "--git" + " " + tail);
    SplitWord("--git", tail);
    SplitWord(a, b);
    SplitLastWord(b);
  }

  lemma HeaderWords(rel: string)
    requires Solid(rel)
    ensures SplitWhitespace(HeaderLine(rel)) == ["diff", "--git", "a/" + rel, "b/" + rel]
  {
    GitWords("a/" + rel, "b/" + rel);
    assert HeaderLine(rel) == "diff --git " + ("a/" + rel) + " " + ("b/" + rel);
  }

  lemma PathOfWords(line: string, a: string)
    requires SplitWhitespace(line) == ["diff", "--git", a, "/dev/null"]
    requires Contained(TrimStart(a, "a/"))
    ensures ParsePath(line) == TrimStart(a, "a/")
  {
    assert "/dev/null"[0] != 'b';
    SafeExactly(TrimStart(a, "a/"));
  }

  /** The header of a deleted file, in the form without a second path, names the first one. */
  lemma DeletedHeader(rel: string)
    requires Contained(rel) && Solid(rel) && !("a/" <= rel)
    ensures ParsePath("diff --git " + ("a/" + rel) + " " + "/dev/null") == rel
  {
    GitWords("a/" + rel, "/dev/null");
    TrimStartOnce("a/", rel);
    PathOfWords("diff --git " + ("a/" + rel) + " " + "/dev/null", "a/" + rel);
  }

  // ----- hunk headers -----

  lemma {:induction false} BeforeMark(a: string, b: string)
    requires '@' !in a
    ensures Before(a + "@@" + b, "@@") == a
  {
    var s := a + "@@" + b;
    if a == [] {
      assert s == "@@" + b;
    } else {
      assert s[0] == a[0] && s[1..] == a[1..] + "@@" + b;
      BeforeMark(a[1..], b);
    }
  }

  lemma TrimSpaces(s: string)
    requires s != "" && !IsWhitespace(s[0]) && !IsWhitespace(s[|s| - 1])
    ensures Trim(" " + s + " ") == s
  {
    var t := " " + s + " ";
    var u := s + " ";
    assert t[1..] == u && t[0] == ' ' && u[0] == s[0];
    assert TrimLeft(t) == TrimLeft(u) == u;
    assert u[|u| - 1] == ' ' && u[..|u| - 1] == s;
    assert TrimRight(u) == TrimRight(s) == s;
  }

  /** A line range in a hunk header: where it starts and, unless it is one line, how long it is. */
  function RangeText(start: nat, count: Option<nat>): string {
    Decimal(start) + if count.Some? then "," + Decimal(count.value) else ""
  }

  function HunkHeader(oldStart: nat, oldCount: Option<nat>, newStart: nat, newCount: Option<nat>,
                      heading: string): string
  {
    "@@ -" + RangeText(oldStart, oldCount) + " +" + RangeText(newStart, newCount) + " @@" + heading
  }

  /** A number the parser can hold, or what it puts in its place. */
  function Fit(n: nat, default: u32): u32 {
    if n <= U32_MAX then n else default
  }

  lemma DecimalSolid(n: nat)
    ensures Solid(Decimal(n)) && '@' !in Decimal(n) && ',' !in Decimal(n)
  {
    assert forall i :: 0 <= i < |Decimal(n)| ==> IsDigit(Decimal(n)[i]);
  }

  lemma RangeTextShape(start: nat, count: Option<nat>)
    ensures var s := RangeText(start, count);
      s != "" && Solid(s) && '@' !in s && IsDigit(s[0]) && IsDigit(s[|s| - 1])
  {
    DecimalSolid(start);
    if count.Some? {
      DecimalSolid(count.value);
      var s := RangeText(start, count);
      assert s[|s| - 1] == Decimal(count.value)[|Decimal(count.value)| - 1];
    }
  }

  lemma NumberAt(parts: seq<string>, i: nat, n: nat, default: u32)
    requires i < |parts| && parts[i] == Decimal(n)
    ensures Number(parts, i, default) == Fit(n, default)
  {
    DecimalRoundTrip(n);
  }

  lemma RangeTextParts(start: nat, count: Option<nat>)
    ensures Split(RangeText(start, count), ',') ==
      [Decimal(start)] + if count.Some? then [Decimal(count.value)] else []
  {
    var x := Decimal(start);
    DecimalSolid(start);
    if count.Some? {
      var y := Decimal(count.value);
      DecimalSolid(count.value);
      assert x + ("," + y) == x + [','] + y;
      SplitAfter(x, ',', y);
    } else {
      assert x + "" == x;
    }
  }

  lemma RangeTextNumbers(start: nat, count: Option<nat>)
    ensures var parts := Split(RangeText(start, count), ',');
      && Number(parts, 0, 0) == Fit(start, 0)
      && Number(parts, 1, 1) == (if count.Some? then Fit(count.value, 1) else 1)
  {
    var parts := Split(RangeText(start, count), ',');
    RangeTextParts(start, count);
    NumberAt(parts, 0, start, 0);
    if count.Some? { NumberAt(parts, 1, count.value, 1); }
  }

  /** The old or the new part of a header, behind its sign. */
  lemma SignedNumbers(sign: string, start: nat, count: Option<nat>)
    requires sign == "-" || sign == "+"
    ensures var parts := Split(TrimStart(sign + RangeText(start, count), sign), ',');
      && Number(parts, 0, 0) == Fit(start, 0)
      && Number(parts, 1, 1) == (if count.Some? then Fit(count.value, 1) else 1)
  {
    RangeTextShape(start, count);
    RangeTextNumbers(start, count);
    TrimStartOnce(sign, RangeText(start, count));
    assert TrimStart(RangeText(start, count), sign) == RangeText(start, count);
  }

  /** What stands between the marks. */
  lemma HeaderBody(a: string, b: string, heading: string)
    requires a != "" && b != "" && Solid(a) && Solid(b) && '@' !in a && '@' !in b
    ensures Trim(Before(TrimStart("@@ " + a + " " + b + " @@" + heading, HUNK_MARK), HUNK_MARK)) == a + " " + b
  {
    var body := a + " " + b;
    var spaced := " " + body + " ";
    var rest := spaced + "@@" + heading;
    assert "@@ " + a + " " + b + " @@" + heading == "@@" + rest;
    TrimStartOnce("@@", rest);
    assert rest[0] == ' ';
    assert '@' !in spaced;
    BeforeMark(spaced, heading);
    assert body[0] == a[0] && body[|body| - 1] == b[|b| - 1];
    TrimSpaces(body);
  }

  /** The two words of a hunk header, read from between the marks. */
  lemma HeaderTwoWords(a: string, b: string, heading: string)
    requires a != "" && b != "" && Solid(a) && Solid(b) && '@' !in a && '@' !in b
    ensures var line := "@@ " + a + " " + b + " @@" + heading;
      SplitWhitespace(Trim(Before(TrimStart(line, HUNK_MARK), HUNK_MARK))) == [a, b]
  {
    HeaderBody(a, b, heading);
    SplitWord(a, b);
    SplitLastWord(b);
  }

  lemma NumbersOfWords(line: string, a: string, b: string)
    requires SplitWhitespace(Trim(Before(TrimStart(line, HUNK_MARK), HUNK_MARK))) == [a, b]
    ensures var before, after := Split(TrimStart(a, "-"), ','), Split(TrimStart(b, "+"), ',');
      ParseHunkHeader(line) ==
        HunkNumbers(Number(before, 0, 0), Number(before, 1, 1), Number(after, 0, 0), Number(after, 1, 1))
  {
  }

  lemma HeaderShape(oldStart: nat, oldCount: Option<nat>, newStart: nat, newCount: Option<nat>, heading: string)
    ensures var a, b := "-" + RangeText(oldStart, oldCount), "+" + RangeText(newStart, newCount);
      HunkHeader(oldStart, oldCount, newStart, newCount, heading) == "@@ " + a + " " + b + " @@" + heading
  {
    var x, y := RangeText(oldStart, oldCount), RangeText(newStart, newCount);
    assert "@@ -" + x == "@@ " + ("-" + x);
    assert "@@ -" + x + " +" + y == "@@ " + ("-" + x) + " " + ("+" + y);
  }

  /** The numbers of any hunk header, with or without counts, whatever heading follows it. */
  lemma HeaderNumbers(oldStart: nat, oldCount: Option<nat>, newStart: nat, newCount: Option<nat>, heading: string)
    ensures ParseHunkHeader(HunkHeader(oldStart, oldCount, newStart, newCount, heading)) ==
      HunkNumbers(Fit(oldStart, 0), if oldCount.Some? then Fit(oldCount.value, 1) else 1,
                  Fit(newStart, 0), if newCount.Some? then Fit(newCount.value, 1) else 1)
  {
    var a, b := "-" + RangeText(oldStart, oldCount), "+" + RangeText(newStart, newCount);
    RangeTextShape(oldStart, oldCount);
    RangeTextShape(newStart, newCount);
    HeaderShape(oldStart, oldCount, newStart, newCount, heading);
    HeaderTwoWords(a, b, heading);
    NumbersOfWords("@@ " + a + " " + b + " @@" + heading, a, b);
    SignedNumbers("-", oldStart, oldCount);
    SignedNumbers("+", newStart, newCount);
  }

  // ----- a modified file -----

  /** A hunk as a diff shows it. */
  datatype HunkText = HunkText(
    oldStart: nat, oldCount: Option<nat>, newStart: nat, newCount: Option<nat>, heading: string, body: seq<string>)
  {
    function Header(): string {
      HunkHeader(oldStart, oldCount, newStart, newCount, heading)
    }

    /** The hunk it stands for. */
    function Meaning(): DiffHunk {
      DiffHunk(Header(), Fit(oldStart, 0), if oldCount.Some? then Fit(oldCount.value, 1) else 1,
               Fit(newStart, 0), if newCount.Some? then Fit(newCount.value, 1) else 1, Mapped(MeaningOfLine, body))
    }

    /** Its lines are not mistaken for headers. */
    ghost predicate Proper() {
      forall i :: 0 <= i < |body| ==> !(HUNK_MARK <= body[i]) && !(FILE_MARK <= body[i])
    }
  }

  /** The kind of a diff line is its first character. */
  function MeaningOfLine(line: string): DiffLine {
    var kind := if line != "" && line[0] == '+' then Add else if line != "" && line[0] == '-' then Delete else Context;
    DiffLine(kind, line, None, None)
  }

  function HunkMeaning(hunk: HunkText): DiffHunk {
    hunk.Meaning()
  }

  function HunkLines(hunks: seq<HunkText>): seq<string> {
    if hunks == [] then [] else [hunks[0].Header()] + hunks[0].body + HunkLines(hunks[1..])
  }

  function CountText(hunks: seq<HunkText>, test: DiffLine -> bool): nat {
    if hunks == [] then 0 else Count(hunks[0].Meaning().lines, test) + CountText(hunks[1..], test)
  }

  /** The lines of a modified file in a diff; `extra` are the lines Git puts before the paths. */
  function ModifiedLines(rel: string, extra: seq<string>, hunks: seq<HunkText>): seq<string> {
    [HeaderLine(rel)] + (extra + (["--- a/" + rel] + (["+++ b/" + rel] + HunkLines(hunks))))
  }

  /** The file those lines stand for. */
  function ModifiedMeaning(rel: string, hunks: seq<HunkText>): DiffFile {
    DiffFile(rel, rel, rel, "modified", CountText(hunks, IsPlus), CountText(hunks, IsMinus), Mapped(HunkMeaning, hunks))
  }

  ghost predicate NoMark(line: string) {
    !(FILE_MARK <= line) && !(OLD_MARK <= line) && !(NEW_MARK <= line) && !(HUNK_MARK <= line)
  }

  lemma LineMeaning(line: string)
    ensures MeaningOfLine(line) == DiffLine(KindOf(line), line, None, None)
    ensures (KindOf(line) == Add <==> IsPlus(MeaningOfLine(line)))
    ensures (KindOf(line) == Delete <==> IsMinus(MeaningOfLine(line)))
  {
  }

  /** The open file with more lines in its last hunk. */
  function Extended(before: seq<DiffHunk>, hunk: DiffHunk, file: DiffFile, lines: seq<DiffLine>): DiffFile {
    file.(hunks := before + [hunk.(lines := hunk.lines + lines)],
          additions := file.additions + Count(lines, IsPlus),
          deletions := file.deletions + Count(lines, IsMinus))
  }

  lemma ExtendedCons(before: seq<DiffHunk>, hunk: DiffHunk, file: DiffFile, line: DiffLine, rest: seq<DiffLine>)
    ensures Extended(before, hunk, file, [line] + rest) ==
      Extended(before, hunk.(lines := hunk.lines + [line]), Extended(before, hunk, file, [line]), rest)
  {
    CountCons(line, rest, IsPlus);
    CountCons(line, rest, IsMinus);
    CountCons(line, [], IsPlus);
    CountCons(line, [], IsMinus);
    assert [line] + [] == [line];
    assert hunk.lines + ([line] + rest) == (hunk.lines + [line]) + rest;
  }

  lemma BodyStep(before: seq<DiffHunk>, hunk: DiffHunk, file: DiffFile, line: string)
    requires file.hunks == before + [hunk] && file.oldPath != "" && file.newPath != ""
    requires !(HUNK_MARK <= line)
    ensures FileStep(file, line) == Extended(before, hunk, file, [MeaningOfLine(line)])
  {
    LineMeaning(line);
    CountCons(MeaningOfLine(line), [], IsPlus);
    CountCons(MeaningOfLine(line), [], IsMinus);
    assert [MeaningOfLine(line)] + [] == [MeaningOfLine(line)];
    var grown := WithLine(hunk, line);
    assert file.hunks[|file.hunks| - 1 := grown] == before + [grown];
  }

  /** The body of a hunk goes into the last hunk of the open file. */
  lemma {:induction false} RunBody(before: seq<DiffHunk>, hunk: DiffHunk, file: DiffFile, body: seq<string>)
    requires file.hunks == before + [hunk] && file.oldPath != "" && file.newPath != ""
    requires forall i :: 0 <= i < |body| ==> !(HUNK_MARK <= body[i]) && !(FILE_MARK <= body[i])
    ensures Run(State([], Some(file)), body)
         == State([], Some(Extended(before, hunk, file, Mapped(MeaningOfLine, body))))
    decreases |body|
  {
    if body == [] {
      assert hunk.lines + [] == hunk.lines;
    } else {
      var line, rest := body[0], body[1..];
      BodyStep(before, hunk, file, line);
      StepOpen(file, FileStep(file, line), line);
      RunBody(before, hunk.(lines := hunk.lines + [MeaningOfLine(line)]), FileStep(file, line), rest);
      ExtendedCons(before, hunk, file, MeaningOfLine(line), Mapped(MeaningOfLine, rest));
    }
  }

  lemma HeaderMarks(h: HunkText)
    ensures HUNK_MARK <= h.Header() && !(FILE_MARK <= h.Header())
    ensures !(OLD_MARK <= h.Header()) && !(NEW_MARK <= h.Header())
  {
    assert h.Header()[0] == '@' && h.Header()[1] == '@';
  }

  /** The open file with one more hunk, and with several more. */
  function WithHunk(file: DiffFile, h: HunkText): DiffFile {
    file.(hunks := file.hunks + [h.Meaning()],
          additions := file.additions + Count(h.Meaning().lines, IsPlus),
          deletions := file.deletions + Count(h.Meaning().lines, IsMinus))
  }

  function WithHunks(file: DiffFile, hunks: seq<HunkText>): DiffFile {
    file.(hunks := file.hunks + Mapped(HunkMeaning, hunks),
          additions := file.additions + CountText(hunks, IsPlus),
          deletions := file.deletions + CountText(hunks, IsMinus))
  }

  lemma HeaderStep(file: DiffFile, h: HunkText)
    ensures Step(State([], Some(file)), h.Header())
         == State([], Some(file.(hunks := file.hunks + [h.Meaning().(lines := [])])))
  {
    HeaderMarks(h);
    HeaderNumbers(h.oldStart, h.oldCount, h.newStart, h.newCount, h.heading);
    assert NewHunk(h.Header()) == h.Meaning().(lines := []);
  }

  lemma ExtendedBare(file: DiffFile, h: HunkText)
    ensures var bare := h.Meaning().(lines := []);
      Extended(file.hunks, bare, file.(hunks := file.hunks + [bare]), h.Meaning().lines) == WithHunk(file, h)
  {
    assert [] + h.Meaning().lines == h.Meaning().lines;
  }

  /** One whole hunk. */
  lemma RunHunk(file: DiffFile, h: HunkText)
    requires file.oldPath != "" && file.newPath != "" && h.Proper()
    ensures Run(State([], Some(file)), [h.Header()] + h.body) == State([], Some(WithHunk(file, h)))
  {
    var bare := h.Meaning().(lines := []);
    HeaderStep(file, h);
    RunCons(State([], Some(file)), h.Header(), h.body);
    RunBody(file.hunks, bare, file.(hunks := file.hunks + [bare]), h.body);
    ExtendedBare(file, h);
  }

  lemma WithHunksCons(file: DiffFile, all: seq<HunkText>, h: HunkText, rest: seq<HunkText>)
    requires all != [] && h == all[0] && rest == all[1..]
    ensures WithHunks(WithHunk(file, h), rest) == WithHunks(file, all)
  {
    assert (file.hunks + [h.Meaning()]) + Mapped(HunkMeaning, rest)
        == file.hunks + ([h.Meaning()] + Mapped(HunkMeaning, rest));
  }

  lemma HunkLinesCons(all: seq<HunkText>, h: HunkText, rest: seq<HunkText>)
    requires all != [] && h == all[0] && rest == all[1..]
    ensures HunkLines(all) == ([h.Header()] + h.body) + HunkLines(rest)
  {
  }

  lemma {:induction false} RunHunks(file: DiffFile, hunks: seq<HunkText>)
    requires file.oldPath != "" && file.newPath != ""
    requires forall i :: 0 <= i < |hunks| ==> hunks[i].Proper()
    ensures Run(State([], Some(file)), HunkLines(hunks)) == State([], Some(WithHunks(file, hunks)))
    decreases |hunks|
  {
    if hunks == [] {
      assert file.hunks + [] == file.hunks;
    } else {
      var h, rest := hunks[0], hunks[1..];
      RunHunk(file, h);
      RunConcat(State([], Some(file)), [h.Header()] + h.body, HunkLines(rest));
      RunHunks(WithHunk(file, h), rest);
      WithHunksCons(file, hunks, h, rest);
      HunkLinesCons(hunks, h, rest);
    }
  }

  lemma {:induction false} RunExtra(file: DiffFile, extra: seq<string>)
    requires file.hunks == [] && forall i :: 0 <= i < |extra| ==> NoMark(extra[i])
    ensures Run(State([], Some(file)), extra) == State([], Some(file))
    decreases |extra|
  {
    if extra != [] {
      assert NoMark(extra[0]);
      RunExtra(file, extra[1..]);
    }
  }

  lemma OldPathStep(file: DiffFile, rel: string)
    requires file.oldPath == "" && rel != "" && !("a/" <= rel)
    ensures Step(State([], Some(file)), "--- a/" + rel) == State([], Some(file.(oldPath := rel)))
  {
    var line := "--- a/" + rel;
    assert line == "--- " + ("a/" + rel) && line[4..] == "a/" + rel && line[0] == '-';
    TrimStartOnce("a/", rel);
  }

  lemma NewPathStep(file: DiffFile, rel: string)
    requires file.newPath == "" && rel != "" && !("b/" <= rel)
    ensures Step(State([], Some(file)), "+++ b/" + rel) == State([], Some(file.(newPath := rel)))
  {
    var line := "+++ b/" + rel;
    assert line == "+++ " + ("b/" + rel) && line[4..] == "b/" + rel && line[0] == '+';
    TrimStartOnce("b/", rel);
  }

  /** The two path lines of a modified file. */
  lemma RunPaths(file: DiffFile, rel: string, rest: seq<string>)
    requires file.oldPath == "" && file.newPath == "" && rel != "" && !("a/" <= rel) && !("b/" <= rel)
    ensures Run(State([], Some(file)), ["--- a/" + rel] + (["+++ b/" + rel] + rest))
         == Run(State([], Some(file.(oldPath := rel, newPath := rel))), rest)
  {
    OldPathStep(file, rel);
    NewPathStep(file.(oldPath := rel), rel);
    RunCons(State([], Some(file)), "--- a/" + rel, ["+++ b/" + rel] + rest);
    RunCons(State([], Some(file.(oldPath := rel))), "+++ b/" + rel, rest);
  }

  lemma HeaderOpens(rel: string)
    requires Contained(rel) && Solid(rel) && !("b/" <= rel)
    ensures Step(START, HeaderLine(rel)) == State([], Some(NewFile(rel)))
  {
    HeaderWords(rel);
    TrimStartOnce("a/", rel);
    TrimStartOnce("b/", rel);
    SafeExactly(rel);
    assert FILE_MARK <= HeaderLine(rel);
    assert ParsePath(HeaderLine(rel)) == rel;
  }

  lemma MeaningIsWithHunks(rel: string, hunks: seq<HunkText>)
    ensures WithHunks(NewFile(rel).(oldPath := rel, newPath := rel), hunks) == ModifiedMeaning(rel, hunks)
  {
    assert [] + Mapped(HunkMeaning, hunks) == Mapped(HunkMeaning, hunks);
  }

  lemma RunSection(rel: string, extra: seq<string>, hunks: seq<HunkText>)
    requires rel != "" && !("a/" <= rel) && !("b/" <= rel)
    requires forall i :: 0 <= i < |extra| ==> NoMark(extra[i])
    requires forall i :: 0 <= i < |hunks| ==> hunks[i].Proper()
    ensures Run(State([], Some(NewFile(rel))), extra + (["--- a/" + rel] + (["+++ b/" + rel] + HunkLines(hunks))))
         == State([], Some(ModifiedMeaning(rel, hunks)))
  {
    var file := NewFile(rel);
    RunExtra(file, extra);
    RunConcat(State([], Some(file)), extra, ["--- a/" + rel] + (["+++ b/" + rel] + HunkLines(hunks)));
    RunPaths(file, rel, HunkLines(hunks));
    RunHunks(file.(oldPath := rel, newPath := rel), hunks);
    MeaningIsWithHunks(rel, hunks);
  }

  /** The section of a modified file reads back as the file it stands for. */
  lemma ModifiedSection(rel: string, extra: seq<string>, hunks: seq<HunkText>)
    requires Contained(rel) && Solid(rel) && !("a/" <= rel) && !("b/" <= rel)
    requires forall i :: 0 <= i < |extra| ==> NoMark(extra[i])
    requires forall i :: 0 <= i < |hunks| ==> hunks[i].Proper()
    ensures Run(START, ModifiedLines(rel, extra, hunks)).Closed() == [ModifiedMeaning(rel, hunks)]
  {
    HeaderOpens(rel);
    RunCons(START, HeaderLine(rel), extra + (["--- a/" + rel] + (["+++ b/" + rel] + HunkLines(hunks))));
    RunSection(rel, extra, hunks);
  }

  /** Any text whose lines are those of a modified file parses to exactly that file. */
  lemma ModifiedFile(text: string, rel: string, extra: seq<string>, hunks: seq<HunkText>)
    requires ByteLength(text) <= MAX_DIFF_SIZE && Lines(text) == ModifiedLines(rel, extra, hunks)
    requires Contained(rel) && Solid(rel) && !("a/" <= rel) && !("b/" <= rel)
    requires forall i :: 0 <= i < |extra| ==> NoMark(extra[i])
    requires forall i :: 0 <= i < |hunks| ==> hunks[i].Proper()
    ensures Parse(text) == [ModifiedMeaning(rel, hunks)]
  {
    ModifiedSection(rel, extra, hunks);
  }
}

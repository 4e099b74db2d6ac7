/** Printing whole files and parsing them back. */
module FullPathProperties {
  import opened Sequences
  import opened DiffModel
  import opened Text
  import opened Parser
  import opened ParserProperties
  import opened DiffSections
  import opened FullPath

  /** The paths full-path review prints are those the parser lets in, without blanks or control characters. */
  lemma PrintablePaths(rel: string)
    ensures IsParserSafePath(rel) <==>
      Contained(rel) && forall i :: 0 <= i < |rel| ==> !IsWhitespace(rel[i]) && !IsControl(rel[i])
  {
    ParentSegmentExactly(rel);
  }

  // ----- the printed lines -----

  /** A text line without line feeds, and without a carriage return that reading would drop. */
  ghost predicate Plain(line: string) {
    '\n' !in line && DropCR(line) == line
  }

  lemma PlainLine(line: string)
    requires Plain(line)
    ensures Lines(line + "\n") == [line]
  {
  }

  lemma SafeIsPlain(rel: string)
    requires IsParserSafePath(rel)
    ensures Solid(rel) && Plain(HeaderLine(rel)) && Plain("+++ b/" + rel)
  {
  }

  lemma HunkLinePlain(n: nat)
    ensures Plain(HunkLine(n))
  {
  }

  /** Only one carriage return survives printing when a line ends in two, and reading drops that one. */
  function Printed(line: string): string {
    "+" + DropCR(DropCR(line))
  }

  function PrintedAll(lines: seq<string>): seq<string> {
    if lines == [] then [] else [Printed(lines[0])] + PrintedAll(lines[1..])
  }

  lemma DropCRAfterPlus(s: string)
    ensures DropCR("+" + s) == "+" + DropCR(s)
  {
  }

  lemma {:induction false} PlusLinesRead(lines: seq<string>)
    requires forall i :: 0 <= i < |lines| ==> '\n' !in lines[i]
    ensures Lines(PlusLines(lines)) == PrintedAll(lines)
  {
    if lines != [] {
      PlusLinesRead(lines[1..]);
      DropCRAfterPlus(DropCR(lines[0]));
      LinesCons("+" + DropCR(lines[0]), PlusLines(lines[1..]));
    }
  }

  lemma {:induction false} SplitFree(s: string, c: char)
    ensures forall i :: 0 <= i < |Split(s, c)| ==> c !in Split(s, c)[i]
    decreases |s|
  {
    match IndexOf(s, c)
    case None =>
    case Some(i) => SplitFree(s[i + 1..], c);
  }

  function SectionLines(rel: string, content: string): seq<string> {
    [HeaderLine(rel), "--- /dev/null", "+++ b/" + rel, HunkLine(|ContentLines(content)|)]
    + PrintedAll(ContentLines(content))
  }

  lemma ContentLinesFree(content: string)
    ensures forall i :: 0 <= i < |ContentLines(content)| ==> '\n' !in ContentLines(content)[i]
  {
    SplitFree(if content != "" && content[|content| - 1] == '\n' then content[..|content| - 1] else content, '\n');
  }

  lemma LinesJoin(a: string, b: string, c: string, d: string)
    requires EndsLine(a) && EndsLine(b) && EndsLine(c) && EndsLine(d)
    ensures Lines(a + b + c + d) == Lines(a) + Lines(b) + Lines(c) + Lines(d)
    ensures EndsLine(a + b + c + d)
  {
    assert EndsLine(a + b) && EndsLine(a + b + c);
    LinesConcat(a, b);
    LinesConcat(a + b, c);
    LinesConcat(a + b + c, d);
  }

  lemma FourLines(a: string, b: string, c: string, d: string)
    requires Plain(a) && Plain(b) && Plain(c) && Plain(d)
    ensures var text := (a + "\n") + (b + "\n") + (c + "\n") + (d + "\n");
      EndsLine(text) && Lines(text) == [a, b, c, d]
  {
    LinesJoin(a + "\n", b + "\n", c + "\n", d + "\n");
    PlainLine(a);
    PlainLine(b);
    PlainLine(c);
    PlainLine(d);
  }

  /** The printed text, line by line. */
  lemma RenderLines(rel: string, content: string)
    requires IsParserSafePath(rel)
    ensures Lines(Render(rel, content)) == SectionLines(rel, content)
  {
    ContentLinesFree(content);
    PlusLinesRead(ContentLines(content));
    SafeIsPlain(rel);
    HunkLinePlain(|ContentLines(content)|);
    FourLines(HeaderLine(rel), "--- /dev/null", "+++ b/" + rel, HunkLine(|ContentLines(content)|));
    LinesConcat(Preamble(rel, |ContentLines(content)|), PlusLines(ContentLines(content)));
  }

  // ----- reading the header lines -----

  /** The path read back from the header: the path itself, unless it starts with `b/`. */
  lemma HeaderPath(rel: string)
    requires IsParserSafePath(rel)
    ensures !("b/" <= rel) ==> ParsePath(HeaderLine(rel)) == rel && IsSafeDiffPath(rel)
    ensures IsSafeDiffPath(ParsePath(HeaderLine(rel))) ==> TrimStart(rel, "b/") != ""
  {
    HeaderWords(rel);
    TrimStartOnce("a/", rel);
    TrimStartOnce("b/", rel);
    TrimStartShrinks(rel, "b/");
  }

  /** The numbers of the printed hunk header, read back. */
  lemma HunkLineNumbers(n: nat)
    ensures ParseHunkHeader(HunkLine(n)) == HunkNumbers(0, 0, if n == 0 then 0 else 1, if n <= U32_MAX then n else 1)
  {
    HeaderNumbers(0, Some(0), if n == 0 then 0 else 1, Some(n), "");
    HunkLineIsHeader(n);
  }

  lemma HunkLineIsHeader(n: nat)
    ensures HunkLine(n) == HunkHeader(0, Some(0), if n == 0 then 0 else 1, Some(n), "")
  {
    var start, count := Decimal(if n == 0 then 0 else 1), Decimal(n);
    var range := start + ("," + count);
    assert RangeText(0, Some(0)) == "0,0";
    assert "@@ -" + "0,0" + " +" + range + " @@" + "" == "@@ -0,0 +" + range + " @@";
    assert "@@ -0,0 +" + range + " @@" == "@@ -0,0 +" + start + "," + count + " @@";
  }

  // ----- one section -----

  function AddLines(printed: seq<string>): seq<DiffLine> {
    seq(|printed|, i requires 0 <= i < |printed| => DiffLine(Add, printed[i], None, None))
  }

  /** What a section reads back as, given the path its header yields. */
  function SectionFile(path: string, rel: string, content: string): DiffFile {
    var n := |ContentLines(content)|;
    DiffFile(path, "/dev/null", TrimStart(rel, "b/"), "modified", n, 0,
             [FreshHunk(n).(lines := AddLines(PrintedAll(ContentLines(content))))])
  }

  lemma {:induction false} PrintedLength(lines: seq<string>)
    ensures |PrintedAll(lines)| == |lines|
    ensures forall i :: 0 <= i < |lines| ==> PrintedAll(lines)[i] == Printed(lines[i])
  {
    if lines != [] { PrintedLength(lines[1..]); }
  }

  /** Lines that start with a plus sign become Add lines of the open hunk. */
  lemma {:induction false} RunPlus(files: seq<DiffFile>, file: DiffFile, hunk: DiffHunk, lines: seq<string>)
    requires file.hunks == [hunk] && file.oldPath != "" && file.newPath != ""
    requires forall i :: 0 <= i < |lines| ==> "+" <= lines[i]
    ensures Run(State(files, Some(file)), lines) ==
      State(files, Some(file.(additions := file.additions + |lines|,
                              hunks := [hunk.(lines := hunk.lines + AddLines(lines))])))
    decreases |lines|
  {
    if lines == [] {
      assert hunk.lines + AddLines(lines) == hunk.lines;
    } else {
      var line := lines[0];
      assert line[0] == '+';
      var next := FileStep(file, line);
      var grown := hunk.(lines := hunk.lines + [DiffLine(Add, line, None, None)]);
      assert next == file.(additions := file.additions + 1, hunks := [grown]);
      RunPlus(files, next, grown, lines[1..]);
      assert AddLines(lines) == [DiffLine(Add, line, None, None)] + AddLines(lines[1..]);
      assert hunk.lines + AddLines(lines) == grown.lines + AddLines(lines[1..]);
    }
  }

  /** The section of a path the parser rejects yields nothing; any other yields one file. */
  function SectionResult(f: SourceFile): seq<DiffFile> {
    var path := ParsePath(HeaderLine(f.rel));
    if IsSafeDiffPath(path) then [SectionFile(path, f.rel, f.content)] else []
  }

  lemma OldLineStep(file: DiffFile)
    requires file.oldPath == ""
    ensures FileStep(file, "--- /dev/null") == file.(oldPath := "/dev/null")
  {
    assert "--- /dev/null"[4..] == "/dev/null" && "/dev/null"[0] != 'a';
  }

  lemma NewLineStep(file: DiffFile, rel: string)
    requires file.newPath == ""
    ensures FileStep(file, "+++ b/" + rel) == file.(newPath := TrimStart(rel, "b/"))
  {
    var line := "+++ b/" + rel;
    assert line == "+++ " + ("b/" + rel) && line[4..] == "b/" + rel && line[0] == '+';
    TrimStartOnce("b/", rel);
  }

  lemma HunkLineStep(file: DiffFile, n: nat)
    ensures FileStep(file, HunkLine(n)) == file.(hunks := file.hunks + [NewHunk(HunkLine(n))])
  {
    assert HunkLine(n)[0] == HunkLine(n)[1] == '@';
  }

  lemma RunThree(st: State, a: string, b: string, c: string, rest: seq<string>)
    ensures Run(st, [a, b, c] + rest) == Run(Step(Step(Step(st, a), b), c), rest)
  {
    assert [a, b, c] + rest == [a] + ([b] + ([c] + rest));
    RunCons(st, a, [b] + ([c] + rest));
    RunCons(Step(st, a), b, [c] + rest);
    RunCons(Step(Step(st, a), b), c, rest);
  }

  lemma PreambleMarks(rel: string, n: nat)
    ensures !(FILE_MARK <= "--- /dev/null") && !(FILE_MARK <= "+++ b/" + rel) && !(FILE_MARK <= HunkLine(n))
  {
    assert FILE_MARK[0] == 'd' && "--- /dev/null"[0] == '-' && ("+++ b/" + rel)[0] == '+' && HunkLine(n)[0] == '@';
  }

  /** The hunk the printed hunk header opens. */
  function FreshHunk(n: nat): DiffHunk {
    DiffHunk(HunkLine(n), 0, 0, if n == 0 then 0 else 1, if n <= U32_MAX then n else 1, [])
  }

  lemma NewHunkShape(n: nat)
    ensures NewHunk(HunkLine(n)) == FreshHunk(n)
  {
    HunkLineNumbers(n);
  }

  lemma RunPreamble(f0: DiffFile, rel: string, n: nat, rest: seq<string>)
    requires f0.oldPath == "" && f0.newPath == "" && f0.hunks == []
    ensures Run(State([], Some(f0)), ["--- /dev/null", "+++ b/" + rel, HunkLine(n)] + rest) ==
      Run(State([], Some(f0.(oldPath := "/dev/null", newPath := TrimStart(rel, "b/"), hunks := [FreshHunk(n)]))), rest)
  {
    var a, b, c := "--- /dev/null", "+++ b/" + rel, HunkLine(n);
    var f1 := f0.(oldPath := "/dev/null");
    var f2 := f1.(newPath := TrimStart(rel, "b/"));
    OldLineStep(f0);
    NewLineStep(f1, rel);
    HunkLineStep(f2, n);
    NewHunkShape(n);
    PreambleMarks(rel, n);
    StepOpen(f0, f1, a);
    StepOpen(f1, f2, b);
    StepOpen(f2, f2.(hunks := [FreshHunk(n)]), c);
    RunThree(State([], Some(f0)), a, b, c, rest);
  }

  lemma SectionLinesShape(rel: string, content: string)
    ensures SectionLines(rel, content)[1..] ==
      ["--- /dev/null", "+++ b/" + rel, HunkLine(|ContentLines(content)|)] + PrintedAll(ContentLines(content))
  {
  }

  /** The open file of a section before its content lines. */
  function OpenFile(path: string, rel: string, n: nat): DiffFile {
    DiffFile(path, "/dev/null", TrimStart(rel, "b/"), "modified", 0, 0, [FreshHunk(n)])
  }

  lemma RunContent(path: string, rel: string, content: string)
    requires TrimStart(rel, "b/") != ""
    ensures Run(State([], Some(OpenFile(path, rel, |ContentLines(content)|))), PrintedAll(ContentLines(content)))
         == State([], Some(SectionFile(path, rel, content)))
  {
    var printed := PrintedAll(ContentLines(content));
    var n := |ContentLines(content)|;
    PrintedLength(ContentLines(content));
    RunPlus([], OpenFile(path, rel, n), FreshHunk(n), printed);
    assert [] + AddLines(printed) == AddLines(printed);
  }

  lemma RunSection(rel: string, content: string, path: string)
    requires TrimStart(rel, "b/") != ""
    ensures Run(State([], Some(NewFile(path))), SectionLines(rel, content)[1..])
         == State([], Some(SectionFile(path, rel, content)))
  {
    RunPreamble(NewFile(path), rel, |ContentLines(content)|, PrintedAll(ContentLines(content)));
    SectionLinesShape(rel, content);
    RunContent(path, rel, content);
  }

  lemma OnlyHeaderMarks(rel: string, content: string, i: nat)
    requires 1 <= i < |SectionLines(rel, content)|
    ensures !(FILE_MARK <= SectionLines(rel, content)[i])
  {
    var line := SectionLines(rel, content)[i];
    PrintedLength(ContentLines(content));
    assert line[0] == '-' || line[0] == '+' || line[0] == '@';
  }

  /** Printing one file and parsing it back. */
  lemma ParseRender(f: SourceFile)
    requires IsParserSafePath(f.rel) && ByteLength(Render(f.rel, f.content)) <= MAX_DIFF_SIZE
    ensures Parse(Render(f.rel, f.content)) == SectionResult(f)
  {
    RenderLines(f.rel, f.content);
    HeaderPath(f.rel);
    SectionRun(f);
  }

  lemma HeaderStep(rel: string)
    ensures FILE_MARK <= HeaderLine(rel)
  {
  }

  lemma SectionRun(f: SourceFile)
    requires IsSafeDiffPath(ParsePath(HeaderLine(f.rel))) ==> TrimStart(f.rel, "b/") != ""
    ensures Run(START, SectionLines(f.rel, f.content)).Closed() == SectionResult(f)
  {
    var lines, path := SectionLines(f.rel, f.content), ParsePath(HeaderLine(f.rel));
    HeaderStep(f.rel);
    assert Run(START, lines) == Run(Step(START, lines[0]), lines[1..]);
    if IsSafeDiffPath(path) {
      RunSection(f.rel, f.content, path);
    } else {
      SilentRest(f);
    }
  }

  lemma SilentRest(f: SourceFile)
    ensures Run(State([], None), SectionLines(f.rel, f.content)[1..]) == State([], None)
  {
    var rest := SectionLines(f.rel, f.content)[1..];
    forall i | 0 <= i < |rest| ensures !(FILE_MARK <= rest[i]) {
      OnlyHeaderMarks(f.rel, f.content, i + 1);
    }
    RunClosed(State([], None), rest);
  }

  // ----- all sections -----

  function Sections(files: seq<SourceFile>): seq<DiffFile> {
    if files == [] then [] else SectionResult(files[0]) + Sections(files[1..])
  }

  ghost predicate AllSafe(files: seq<SourceFile>) {
    forall i :: 0 <= i < |files| ==> IsParserSafePath(files[i].rel)
  }

  lemma RenderShape(f: SourceFile)
    ensures FILE_MARK <= Render(f.rel, f.content) && EndsLine(Render(f.rel, f.content))
  {
    var lines := ContentLines(f.content);
    assert Preamble(f.rel, |lines|)[..|FILE_MARK|] == FILE_MARK;
    PlusLinesEnd(lines);
  }

  lemma {:induction false} PlusLinesEnd(lines: seq<string>)
    ensures EndsLine(PlusLines(lines))
  {
    if lines != [] { PlusLinesEnd(lines[1..]); }
  }

  /** Parsing the concatenation of printed files reads each section on its own. */
  lemma {:induction false} ParseRenderAll(files: seq<SourceFile>)
    requires AllSafe(files) && ByteLength(RenderAll(files)) <= MAX_DIFF_SIZE
    ensures Parse(RenderAll(files)) == Sections(files)
  {
    if files != [] {
      var f, rest := files[0], files[1..];
      var head, tail := Render(f.rel, f.content), RenderAll(rest);
      ByteLengthConcat(head, tail);
      ParseRenderAll(rest);
      ParseRender(f);
      RenderShape(f);
      if rest != [] {
        RenderShape(rest[0]);
        assert FILE_MARK <= Render(rest[0].rel, rest[0].content) <= tail;
      }
      ParseConcat(head, tail);
    }
  }

  // ----- what printing keeps of a file -----

  predicate EndsInCR(line: string) {
    line != "" && line[|line| - 1] == '\r'
  }

  /** Line `k` of the file as the parsed diff shows it. A carriage return at its end is lost, and from
      an unterminated last line two are, once in printing and once in reading. */
  function Shown(content: string, k: nat): string
    requires k < |Lines(content)|
  {
    var line := Lines(content)[k];
    if k == |Lines(content)| - 1 && content[|content| - 1] != '\n' then DropCR(DropCR(line)) else DropCR(line)
  }

  lemma ShownWhole(content: string, k: nat)
    requires k < |Lines(content)|
    ensures Shown(content, k) == Lines(content)[k] <==> !EndsInCR(Lines(content)[k])
  {
    var line := Lines(content)[k];
    assert EndsInCR(line) ==> |DropCR(DropCR(line))| <= |DropCR(line)| < |line|;
  }

  lemma OneLine(body: string)
    requires '\n' !in body
    ensures Split(body, '\n') == [body] && Lines(body + "\n") == [DropCR(body)]
    ensures Lines(body) == if body == "" then [] else [body]
  {
    LinesCons(body, "");
    assert body + "\n" + "" == body + "\n";
  }

  lemma LinesBreak(a: string, b: string)
    requires '\n' !in a
    ensures Lines(a + ['\n'] + b) == [DropCR(a)] + Lines(b)
  {
    LinesCons(a, b);
    assert "\n" == ['\n'];
  }

  lemma Regroup<T>(a: seq<T>, x: seq<T>, b: seq<T>, y: seq<T>)
    ensures (a + x + b) + y == a + x + (b + y)
  {
  }

  /** The first line of a text that has several, and the rest. */
  lemma CutLine(body: string) returns (a: string, b: string)
    requires '\n' in body
    ensures body == a + ['\n'] + b
    ensures Split(body, '\n') == [a] + Split(b, '\n') && Lines(body) == [DropCR(a)] + Lines(b)
    ensures Lines(body + "\n") == [DropCR(a)] + Lines(b + "\n")
  {
    a, b := CutAt(body, '\n');
    SplitAfter(a, '\n', b);
    LinesBreak(a, b);
    LinesBreak(a, b + "\n");
    Regroup(a, ['\n'], b, "\n");
  }

  /** The parts of a text are its lines once a final line feed is added. */
  lemma {:induction false} SplitTerminated(body: string)
    ensures Lines(body + "\n") == Mapped(DropCR, Split(body, '\n'))
    decreases |body|
  {
    if '\n' in body {
      var a, b := CutLine(body);
      SplitTerminated(b);
      MappedCons(DropCR, a, Split(b, '\n'));
    } else {
      OneLine(body);
      MappedCons(DropCR, body, []);
    }
  }

  /** The last line of an unterminated text keeps its carriage return. */
  lemma {:induction false} SplitUnterminated(body: string)
    requires body != "" && body[|body| - 1] != '\n'
    ensures var parts := Split(body, '\n'); var last := |parts| - 1;
      Lines(body) == Mapped(DropCR, parts[..last]) + [parts[last]]
    decreases |body|
  {
    if '\n' in body {
      var a, b := CutLine(body);
      assert b != "" && b[|b| - 1] == body[|body| - 1];
      SplitUnterminated(b);
      InitMapped(a, Split(b, '\n'));
    } else {
      OneLine(body);
    }
  }

  lemma InitMapped(a: string, rest: seq<string>)
    requires rest != []
    ensures var parts := [a] + rest;
      Mapped(DropCR, parts[..|parts| - 1]) + [parts[|parts| - 1]]
        == [DropCR(a)] + (Mapped(DropCR, rest[..|rest| - 1]) + [rest[|rest| - 1]])
  {
    var init := rest[..|rest| - 1];
    assert ([a] + rest)[..|rest|] == [a] + init;
    assert ([a] + init)[1..] == init;
  }

  /** The printer keeps the number of lines, and what is read back of each is what `Shown` says,
      except that the one line of a lone line feed is not printed at all. */
  lemma LinesShown(content: string)
    ensures |ContentLines(content)| == if content == "\n" then 0 else |Lines(content)|
    ensures content != "\n" ==>
      forall k: nat :: k < |Lines(content)| ==> Printed(ContentLines(content)[k]) == Plus(Shown(content, k))
  {
    if content == "\n" {
      OneLine("");
    } else if content != "" && content[|content| - 1] == '\n' {
      TerminatedShown(content);
    } else if content != "" {
      UnterminatedShown(content);
    }
  }

  lemma TerminatedShown(content: string)
    requires |content| > 1 && content[|content| - 1] == '\n'
    ensures |ContentLines(content)| == |Lines(content)|
    ensures forall k: nat :: k < |Lines(content)| ==> Printed(ContentLines(content)[k]) == Plus(Shown(content, k))
  {
    var body := content[..|content| - 1];
    assert content == body + "\n";
    SplitTerminated(body);
    MappedAt(DropCR, Split(body, '\n'));
  }

  lemma LastKept(lines: seq<string>, parts: seq<string>)
    requires parts != [] && lines == Mapped(DropCR, parts[..|parts| - 1]) + [parts[|parts| - 1]]
    ensures |lines| == |parts|
    ensures forall k :: 0 <= k < |lines| ==> lines[k] == if k < |parts| - 1 then DropCR(parts[k]) else parts[k]
  {
    MappedAt(DropCR, parts[..|parts| - 1]);
  }

  lemma PrintedPart(part: string, line: string, last: bool)
    requires line == if last then part else DropCR(part)
    ensures Printed(part) == Plus(if last then DropCR(DropCR(line)) else DropCR(line))
  {
  }

  lemma UnterminatedShown(content: string)
    requires content != "" && content[|content| - 1] != '\n'
    ensures |ContentLines(content)| == |Lines(content)|
    ensures forall k: nat :: k < |Lines(content)| ==> Printed(ContentLines(content)[k]) == Plus(Shown(content, k))
  {
    var parts := ContentLines(content);
    SplitUnterminated(content);
    LastKept(Lines(content), parts);
    forall k: nat | k < |Lines(content)| ensures Printed(parts[k]) == Plus(Shown(content, k)) {
      PrintedPart(parts[k], Lines(content)[k], k == |parts| - 1);
    }
  }

  /** Line `k` is printed at all, and has no carriage return to lose. */
  predicate KeepsLine(content: string, k: nat)
    requires k < |Lines(content)|
  {
    content != "\n" && !EndsInCR(Lines(content)[k])
  }

  ghost predicate Intact(content: string) {
    forall k: nat :: k < |Lines(content)| ==> KeepsLine(content, k)
  }

  function Plus(line: string): string {
    "+" + line
  }

  /** What full-path review promises for a file: its own path, and every line an addition. */
  function WholeFile(f: SourceFile): DiffFile {
    var lines := Lines(f.content);
    DiffFile(f.rel, "/dev/null", f.rel, "modified", |lines|, 0,
             [FreshHunk(|lines|).(lines := AddLines(Mapped(Plus, lines)))])
  }

  /** What printing leaves of a file whose path comes back. */
  function PrintedFile(f: SourceFile): DiffFile {
    SectionFile(f.rel, f.rel, f.content).(newPath := f.rel)
  }

  lemma AddLinesInjective(a: seq<string>, b: seq<string>)
    ensures AddLines(a) == AddLines(b) <==> a == b
  {
    if AddLines(a) == AddLines(b) {
      assert |a| == |AddLines(a)| == |b|;
      assert forall i :: 0 <= i < |a| ==> AddLines(a)[i].content == a[i] && AddLines(b)[i].content == b[i];
    }
  }

  lemma IntactExactly(f: SourceFile)
    ensures PrintedFile(f) == WholeFile(f) <==> Intact(f.content)
  {
    var lines, given := Lines(f.content), PrintedAll(ContentLines(f.content));
    LinesShown(f.content);
    PrintedLength(ContentLines(f.content));
    MappedAt(Plus, lines);
    if f.content != "\n" {
      forall k: nat | k < |lines| ensures given[k] == Plus(lines[k]) <==> KeepsLine(f.content, k) {
        ShownWhole(f.content, k);
        assert Plus(Shown(f.content, k))[1..] == Shown(f.content, k) && Plus(lines[k])[1..] == lines[k];
      }
      assert given == Mapped(Plus, lines) <==> Intact(f.content);
      AddLinesInjective(given, Mapped(Plus, lines));
    } else {
      OneLine("");
      assert |lines| == 1 && !KeepsLine(f.content, 0);
    }
  }

  /** Both losses in their smallest form: a file of one blank line, and a last line that ends in a
      carriage return. */
  lemma LinesLost()
    ensures Lines("\n") == [""] && ContentLines("\n") == []
    ensures Lines("x\r") == ["x\r"] && PrintedAll(ContentLines("x\r")) == ["+x"]
  {
    OneLine("");
    OneLine("x\r");
    assert DropCR("x\r") == "x" && DropCR("x") == "x";
    assert ContentLines("x\r") == ["x\r"];
    PrintedLength(["x\r"]);
    assert Printed("x\r") == "+x";
  }

  // ----- the round trip -----

  lemma {:induction false} SectionsCount(files: seq<SourceFile>)
    ensures |Sections(files)| <= |files|
  {
    if files != [] { SectionsCount(files[1..]); }
  }

  lemma PrintedSection(f: SourceFile)
    requires IsParserSafePath(f.rel)
    ensures SectionResult(f) == [PrintedFile(f)] <==> !("b/" <= f.rel)
    ensures SectionResult(f) == [WholeFile(f)] <==> !("b/" <= f.rel) && Intact(f.content)
  {
    HeaderPath(f.rel);
    TrimStartShrinks(f.rel, "b/");
    IntactExactly(f);
  }

  ghost predicate NoneBelowB(files: seq<SourceFile>) {
    forall i :: 0 <= i < |files| ==> !("b/" <= files[i].rel)
  }

  ghost predicate AllIntact(files: seq<SourceFile>) {
    forall i :: 0 <= i < |files| ==> Intact(files[i].content)
  }

  lemma NoneBelowBStep(files: seq<SourceFile>)
    requires files != []
    ensures NoneBelowB(files) <==> !("b/" <= files[0].rel) && NoneBelowB(files[1..])
    ensures AllIntact(files) <==> Intact(files[0].content) && AllIntact(files[1..])
  {
  }

  lemma HeadsAgree<T>(head: seq<T>, rest: seq<T>, x: T, rest': seq<T>)
    requires |head| <= 1 && |rest| <= |rest'|
    ensures head + rest == [x] + rest' <==> head == [x] && rest == rest'
  {
    if head + rest == [x] + rest' {
      assert |head| == 1;
      assert (head + rest)[0] == head[0] && (head + rest)[1..] == rest;
      assert ([x] + rest')[1..] == rest';
    }
  }

  lemma {:induction false} SectionsWhole(files: seq<SourceFile>)
    requires AllSafe(files)
    ensures Sections(files) == Mapped(PrintedFile, files) <==> NoneBelowB(files)
    ensures Sections(files) == Mapped(WholeFile, files) <==> NoneBelowB(files) && AllIntact(files)
  {
    if files != [] {
      var f, rest := files[0], files[1..];
      SectionsWhole(rest);
      SectionsCount(rest);
      MappedAt(PrintedFile, rest);
      MappedAt(WholeFile, rest);
      PrintedSection(f);
      NoneBelowBStep(files);
      HeadsAgree(SectionResult(f), Sections(rest), PrintedFile(f), Mapped(PrintedFile, rest));
      HeadsAgree(SectionResult(f), Sections(rest), WholeFile(f), Mapped(WholeFile, rest));
    }
  }

  /** The round trip: every file comes back with all its lines, in order, exactly when the printed diff
      is within the parser's size limit, no path starts with `b/`, and no content is a lone line feed or
      has a line that ends in a carriage return. */
  lemma RoundTrip(files: seq<SourceFile>)
    requires AllSafe(files)
    ensures Parse(RenderAll(files)) == Mapped(WholeFile, files) <==>
      ByteLength(RenderAll(files)) <= MAX_DIFF_SIZE && NoneBelowB(files) && AllIntact(files)
  {
    if ByteLength(RenderAll(files)) <= MAX_DIFF_SIZE {
      ParseRenderAll(files);
      SectionsWhole(files);
    } else {
      assert Parse(RenderAll(files)) == [] && |Mapped(WholeFile, files)| > 0;
    }
  }

  /** Whatever the contents, what printing leaves of the files comes back exactly when the first two
      conditions hold. */
  lemma PrintedBack(files: seq<SourceFile>)
    requires AllSafe(files)
    ensures Parse(RenderAll(files)) == Mapped(PrintedFile, files) <==>
      ByteLength(RenderAll(files)) <= MAX_DIFF_SIZE && NoneBelowB(files)
  {
    if ByteLength(RenderAll(files)) <= MAX_DIFF_SIZE {
      ParseRenderAll(files);
      SectionsWhole(files);
    } else {
      assert Parse(RenderAll(files)) == [] && |Mapped(PrintedFile, files)| > 0;
    }
  }

  /** A path below a directory named `b` does not come back. */
  lemma DirectoryB()
    ensures IsParserSafePath("b/x") && ParsePath(HeaderLine("b/x")) == "x"
  {
    SmallPaths();
    HeaderWords("b/x");
    TrimStartOnce("b/", "b/x");
    TrimStartOnce("b/", "x");
    assert "b/x" == "b/" + "x" && !("b/" <= "x");
  }

  lemma SmallPaths()
    ensures !HasParentSegment("x") && !HasParentSegment("b/x")
  {
  }

  lemma OneCountFits(f: SourceFile)
    requires IsParserSafePath(f.rel) && ByteLength(Render(f.rel, f.content)) <= MAX_DIFF_SIZE
    ensures |ContentLines(f.content)| <= U32_MAX
  {
    RenderLines(f.rel, f.content);
    PrintedLength(ContentLines(f.content));
    LinesBounded(Render(f.rel, f.content));
  }

  lemma SizesAdd(files: seq<SourceFile>)
    requires files != []
    ensures ByteLength(RenderAll(files)) ==
      ByteLength(Render(files[0].rel, files[0].content)) + ByteLength(RenderAll(files[1..]))
  {
    ByteLengthConcat(Render(files[0].rel, files[0].content), RenderAll(files[1..]));
  }

  /** Within the size limit the line count of a file fits its header. */
  lemma {:induction false} LineCountFits(files: seq<SourceFile>, i: nat)
    requires AllSafe(files) && i < |files| && ByteLength(RenderAll(files)) <= MAX_DIFF_SIZE
    ensures |ContentLines(files[i].content)| <= U32_MAX
  {
    SizesAdd(files);
    if i == 0 {
      OneCountFits(files[0]);
    } else {
      LineCountFits(files[1..], i - 1);
    }
  }
}

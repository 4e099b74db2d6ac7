/** What the parser promises for every input. */
module ParserProperties {
  import opened Sequences
  import opened DiffModel
  import opened Text
  import opened Parser

  // ----- compositionality -----

  lemma {:induction false} RunConcat(st: State, a: seq<string>, b: seq<string>)
    ensures Run(st, a + b) == Run(Run(st, a), b)
    decreases |a|
  {
    if a == [] {
      assert a + b == b;
    } else {
      assert (a + b)[0] == a[0] && (a + b)[1..] == a[1..] + b;
      RunConcat(Step(st, a[0]), a[1..], b);
    }
  }

  lemma RunCons(st: State, line: string, rest: seq<string>)
    ensures Run(st, [line] + rest) == Run(Step(st, line), rest)
  {
  }

  /** A line that is not a file header feeds the open file. */
  lemma StepOpen(file: DiffFile, next: DiffFile, line: string)
    requires !(FILE_MARK <= line) && FileStep(file, line) == next
    ensures Step(State([], Some(file)), line) == State([], Some(next))
  {
  }

  /** Files that are already closed do not influence the rest. */
  lemma {:induction false} RunFrame(before: seq<DiffFile>, st: State, lines: seq<string>)
    ensures Run(State(before + st.files, st.current), lines)
         == State(before + Run(st, lines).files, Run(st, lines).current)
    decreases |lines|
  {
    if lines != [] {
      var next := Step(st, lines[0]);
      assert Step(State(before + st.files, st.current), lines[0]) == State(before + next.files, next.current);
      RunFrame(before, next, lines[1..]);
    }
  }

  /** A file header line starts afresh. */
  lemma RunSections(a: seq<string>, b: seq<string>)
    requires b != [] && FILE_MARK <= b[0]
    ensures Run(START, a + b).Closed() == Run(START, a).Closed() + Run(START, b).Closed()
  {
    var st := Run(START, a);
    RunConcat(START, a, b);
    var first := Step(START, b[0]);
    assert Step(st, b[0]) == State(st.Closed() + first.files, first.current);
    RunFrame(st.Closed(), first, b[1..]);
  }

  ghost predicate EndsLine(text: string) {
    text == "" || text[|text| - 1] == '\n'
  }

  lemma EndsLineConcat(a: string, b: string)
    requires EndsLine(a) && EndsLine(b)
    ensures EndsLine(a + b)
  {
  }

  ghost predicate StartsFile(text: string) {
    text == "" || FILE_MARK <= text
  }

  lemma FirstLineKeeps(text: string, mark: string)
    requires mark != "" && mark <= text && '\n' !in mark && '\r' !in mark
    ensures Lines(text) != [] && mark <= Lines(text)[0]
  {
    if '\n' in text {
      var i := IndexOf(text, '\n').value;
      assert forall k :: 0 <= k < |mark| ==> text[k] == mark[k] && mark[k] in mark;
      assert i >= |mark| && mark <= text[..i];
    }
  }

  lemma FirstLineMark(text: string)
    requires FILE_MARK <= text
    ensures Lines(text) != [] && FILE_MARK <= Lines(text)[0]
  {
    FirstLineKeeps(text, FILE_MARK);
  }

  /** Compositionality: where a file section begins, parsing can be cut in two. */
  lemma ParseConcat(a: string, b: string)
    requires EndsLine(a) && StartsFile(b) && ByteLength(a + b) <= MAX_DIFF_SIZE
    ensures Parse(a + b) == Parse(a) + Parse(b)
  {
    ByteLengthConcat(a, b);
    LinesConcat(a, b);
    if b == "" {
      assert a + b == a && Lines(b) == [];
    } else {
      FirstLineMark(b);
      RunSections(Lines(a), Lines(b));
    }
  }

  /** A section whose header names an unsafe path, up to the next header. */
  ghost predicate UnsafeSection(text: string) {
    && FILE_MARK <= text && EndsLine(text)
    && !IsSafeDiffPath(ParsePath(Lines(text)[0]))
    && forall i :: 1 <= i < |Lines(text)| ==> !(FILE_MARK <= Lines(text)[i])
  }

  lemma {:induction false} RunClosed(st: State, lines: seq<string>)
    requires st.current.None? && forall i :: 0 <= i < |lines| ==> !(FILE_MARK <= lines[i])
    ensures Run(st, lines) == st
    decreases |lines|
  {
    if lines != [] { RunClosed(st, lines[1..]); }
  }

  lemma UnsafeSectionSilent(u: string)
    requires UnsafeSection(u)
    ensures Parse(u) == []
  {
    FirstLineMark(u);
    RunClosed(Step(START, Lines(u)[0]), Lines(u)[1..]);
  }

  lemma SizesWithin(a: string, u: string, b: string)
    requires ByteLength(a + u + b) <= MAX_DIFF_SIZE
    ensures ByteLength(a + u) <= MAX_DIFF_SIZE && ByteLength(a + b) <= MAX_DIFF_SIZE
  {
    ByteLengthConcat(a + u, b);
    ByteLengthConcat(a, u);
    ByteLengthConcat(a, b);
  }

  /** A section that yields nothing adds nothing to what comes before it. */
  lemma SilentTail(a: string, u: string)
    requires EndsLine(a) && StartsFile(u) && Parse(u) == []
    requires ByteLength(a + u) <= MAX_DIFF_SIZE
    ensures Parse(a + u) == Parse(a)
  {
    ParseConcat(a, u);
  }

  /** An unsafe section vanishes without changing any other file. */
  lemma UnsafeSectionVanishes(a: string, u: string, b: string)
    requires EndsLine(a) && UnsafeSection(u) && StartsFile(b)
    requires ByteLength(a + u + b) <= MAX_DIFF_SIZE
    ensures Parse(a + u + b) == Parse(a + b)
  {
    UnsafeSectionSilent(u);
    SizesWithin(a, u, b);
    EndsLineConcat(a, u);
    ParseConcat(a + u, b);
    SilentTail(a, u);
    ParseConcat(a, b);
  }

  // ----- every parsed file -----

  predicate IsPlus(line: DiffLine) {
    line.content != "" && line.content[0] == '+'
  }

  predicate IsMinus(line: DiffLine) {
    line.content != "" && line.content[0] == '-'
  }

  function CountHunks(hunks: seq<DiffHunk>, test: DiffLine -> bool): nat {
    if hunks == [] then 0
    else CountHunks(hunks[..|hunks| - 1], test) + Count(hunks[|hunks| - 1].lines, test)
  }

  /** A line is an addition exactly when it starts with a plus sign, a deletion exactly when it starts
      with a minus sign, and context otherwise. */
  ghost predicate Classified(hunk: DiffHunk) {
    forall j :: 0 <= j < |hunk.lines| ==>
      var line := hunk.lines[j];
      && (line.kind == Add <==> IsPlus(line)) && (line.kind == Delete <==> IsMinus(line))
      && (line.kind == Context <==> !IsPlus(line) && !IsMinus(line))
  }

  /** The counters say how many lines start with a plus and with a minus sign. */
  ghost predicate Counted(file: DiffFile) {
    && file.additions == CountHunks(file.hunks, IsPlus)
    && file.deletions == CountHunks(file.hunks, IsMinus)
    && AllClassified(file.hunks)
  }

  ghost predicate AllClassified(hunks: seq<DiffHunk>) {
    forall i :: 0 <= i < |hunks| ==> Classified(hunks[i])
  }

  /** A path that stays inside the repository, on its characters: it is relative, starts neither with a
      slash nor with a tilde, has no parent segment, and no backslash, colon or NUL. */
  ghost predicate Contained(path: string) {
    && path != "" && path[0] != '/' && path[0] != '~'
    && !Climbs(path)
    && forall i :: 0 <= i < |path| ==> path[i] != '\\' && path[i] != ':' && path[i] != '\0'
  }

  /** Those are exactly the paths the parser lets in. */
  lemma SafeExactly(path: string)
    ensures IsSafeDiffPath(path) <==> Contained(path)
  {
    ParentSegmentExactly(path);
  }

  ghost predicate Consistent(file: DiffFile) {
    Contained(file.path) && Counted(file)
  }

  lemma WithLineCounts(hunks: seq<DiffHunk>, line: string, test: DiffLine -> bool)
    requires hunks != []
    ensures var last := |hunks| - 1;
      CountHunks(hunks[last := WithLine(hunks[last], line)], test)
        == CountHunks(hunks, test) + if test(DiffLine(KindOf(line), line, None, None)) then 1 else 0
  {
    var last := |hunks| - 1;
    var after := hunks[last := WithLine(hunks[last], line)];
    var lines, grown := hunks[last].lines, after[last].lines;
    assert after[..last] == hunks[..last];
    assert grown[..|grown| - 1] == lines;
  }

  lemma LineCounted(file: DiffFile, line: string)
    requires Counted(file) && file.hunks != []
    ensures var last := |file.hunks| - 1;
      Counted(file.(hunks := file.hunks[last := WithLine(file.hunks[last], line)],
            additions := file.additions + (if KindOf(line) == Add then 1 else 0),
            deletions := file.deletions + (if KindOf(line) == Delete then 1 else 0)))
  {
    KindFits(line);
    WithLineCounts(file.hunks, line, IsPlus);
    WithLineCounts(file.hunks, line, IsMinus);
    WithLineClassified(file.hunks, line);
  }

  lemma KindFits(line: string)
    ensures var read := DiffLine(KindOf(line), line, None, None);
      && (KindOf(line) == Add <==> IsPlus(read)) && (KindOf(line) == Delete <==> IsMinus(read))
      && (KindOf(line) == Context <==> !IsPlus(read) && !IsMinus(read))
  {
  }

  lemma WithLineClassified(hunks: seq<DiffHunk>, line: string)
    requires hunks != [] && AllClassified(hunks)
    ensures AllClassified(hunks[|hunks| - 1 := WithLine(hunks[|hunks| - 1], line)])
  {
    KindFits(line);
    assert Classified(WithLine(hunks[|hunks| - 1], line));
  }

  lemma HunkCounted(file: DiffFile, line: string)
    requires Counted(file)
    ensures Counted(file.(hunks := file.hunks + [NewHunk(line)]))
  {
  }

  lemma FileStepConsistent(file: DiffFile, line: string)
    requires Consistent(file)
    ensures Consistent(FileStep(file, line))
    ensures FileStep(file, line).additions + FileStep(file, line).deletions <= file.additions + file.deletions + 1
  {
    HunkCounted(file, line);
    if file.hunks != [] { LineCounted(file, line); }
  }

  ghost predicate ConsistentState(st: State, bound: nat) {
    && (forall f :: f in st.files ==> Consistent(f) && f.additions + f.deletions <= bound)
    && (st.current.Some? ==>
          Consistent(st.current.value) && st.current.value.additions + st.current.value.deletions <= bound)
  }

  lemma {:induction false} RunConsistent(st: State, lines: seq<string>, bound: nat)
    requires ConsistentState(st, bound)
    ensures ConsistentState(Run(st, lines), bound + |lines|)
    decreases |lines|
  {
    if lines != [] {
      if FILE_MARK <= lines[0] {
        SafeExactly(ParsePath(lines[0]));
      } else if st.current.Some? {
        FileStepConsistent(st.current.value, lines[0]);
      }
      RunConsistent(Step(st, lines[0]), lines[1..], bound + 1);
    }
  }

  /** Every parsed file has a contained path, lines classified by their first character, counters that
      agree with those characters, and counters far below the `u32` limit. */
  lemma ParsedConsistent(text: string, i: nat)
    requires i < |Parse(text)|
    ensures Consistent(Parse(text)[i])
    ensures Parse(text)[i].additions + Parse(text)[i].deletions <= MAX_DIFF_SIZE <= U32_MAX
  {
    RunConsistent(START, Lines(text), 0);
    LinesBounded(text);
  }
  // ----- the loop -----

  /** A line that is not a file header, applied to the open file. */
  method FeedLine(start: DiffFile, line: string) returns (file: DiffFile)
    ensures file == FileStep(start, line)
  {
    file := start;
    if OLD_MARK <= line && file.oldPath == "" {
      file := file.(oldPath := TrimStart(line[4..], "a/"));
    } else if NEW_MARK <= line && file.newPath == "" {
      file := file.(newPath := TrimStart(line[4..], "b/"));
    } else if HUNK_MARK <= line {
      file := file.(hunks := file.hunks + [NewHunk(line)]);
    } else if file.hunks != [] {
      var kind := Context;
      if "+" <= line {
        file := file.(additions := file.additions + 1);
        kind := Add;
      } else if "-" <= line {
        file := file.(deletions := file.deletions + 1);
        kind := Delete;
      }
      var last := file.hunks[|file.hunks| - 1];
      last := last.(lines := last.lines + [DiffLine(kind, line, None, None)]);
      file := file.(hunks := file.hunks[|file.hunks| - 1 := last]);
    }
  }

  /** The parser as the loop it is. Every file has a contained path, lines classified by their first
      character, and counters that agree with those characters. */
  method ParseUnifiedDiff(text: string) returns (files: seq<DiffFile>)
    ensures files == Parse(text)
    ensures forall i :: 0 <= i < |files| ==>
      Consistent(files[i]) && files[i].additions + files[i].deletions <= MAX_DIFF_SIZE
  {
    forall i | 0 <= i < |Parse(text)|
      ensures Consistent(Parse(text)[i]) && Parse(text)[i].additions + Parse(text)[i].deletions <= MAX_DIFF_SIZE
    {
      ParsedConsistent(text, i);
    }
    files := [];
    if ByteLength(text) > MAX_DIFF_SIZE {
      return;
    }
    var current: Option<DiffFile> := None;
    var lines := Lines(text);
    assert lines[0..] == lines;
    for i := 0 to |lines|
      invariant Run(State(files, current), lines[i..]) == Run(START, lines)
    {
      var line := lines[i];
      assert lines[i..][0] == line && lines[i..][1..] == lines[i + 1..];
      if FILE_MARK <= line {
        if current.Some? {
          files := files + [current.value];
        }
        var path := ParsePath(line);
        current := if IsSafeDiffPath(path) then Some(NewFile(path)) else None;
      } else if current.Some? {
        var file := FeedLine(current.value, line);
        current := Some(file);
      }
    }
    assert lines[|lines|..] == [];
    if current.Some? {
      files := files + [current.value];
    }
  }}

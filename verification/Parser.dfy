/** The unified-diff parser (src/diff/parser.rs). The format is the one of POSIX.1-2017,
    utility `diff`, section "Diff -u or -U Output Format". */
module Parser {
  import opened Sequences
  import opened DiffModel
  import opened Text

  /** 10 MiB. */
  const MAX_DIFF_SIZE: nat := 10 * 1024 * 1024

  const FILE_MARK := "diff --git"
  const OLD_MARK := "--- "
  const NEW_MARK := "+++ "
  const HUNK_MARK := "@@"

  predicate IsSafeDiffPath(path: string) {
    && path != "" && path[0] != '/' && path[0] != '~'
    && !HasParentSegment(path)
    && '\\' !in path && ':' !in path && '\0' !in path
  }

  function ParsePath(line: string): string {
    var parts := SplitWhitespace(line);
    if |parts| < 4 then "unknown"
    else
      var a, b := TrimStart(parts[2], "a/"), TrimStart(parts[3], "b/");
      var path := if b == "/dev/null" then a else b;
      if HasParentSegment(path) || (path != "" && path[0] == '/') then "" else path
  }

  function Number(parts: seq<string>, i: nat, default: u32): u32 {
    if i < |parts| then ParseU32(parts[i]).UnwrapOr(default) else default
  }

  datatype HunkNumbers = HunkNumbers(oldStart: u32, oldLines: u32, newStart: u32, newLines: u32)

  function ParseHunkHeader(line: string): HunkNumbers {
    var parts := SplitWhitespace(Trim(Before(TrimStart(line, HUNK_MARK), HUNK_MARK)));
    var before := Split(TrimStart(if |parts| > 0 then parts[0] else "-0,0", "-"), ',');
    var after := Split(TrimStart(if |parts| > 1 then parts[1] else "+0,0", "+"), ',');
    HunkNumbers(Number(before, 0, 0), Number(before, 1, 1), Number(after, 0, 0), Number(after, 1, 1))
  }

  function KindOf(line: string): DiffLineKind {
    if "+" <= line then Add else if "-" <= line then Delete else Context
  }

  function NewHunk(line: string): DiffHunk {
    var n := ParseHunkHeader(line);
    DiffHunk(line, n.oldStart, n.oldLines, n.newStart, n.newLines, [])
  }

  function NewFile(path: string): DiffFile {
    DiffFile(path, "", "", "modified", 0, 0, [])
  }

  function WithLine(hunk: DiffHunk, line: string): DiffHunk {
    hunk.(lines := hunk.lines + [DiffLine(KindOf(line), line, None, None)])
  }

  /** What a line that is not a file header does to the open file. */
  function FileStep(file: DiffFile, line: string): DiffFile {
    if OLD_MARK <= line && file.oldPath == "" then
      file.(oldPath := TrimStart(line[4..], "a/"))
    else if NEW_MARK <= line && file.newPath == "" then
      file.(newPath := TrimStart(line[4..], "b/"))
    else if HUNK_MARK <= line then
      file.(hunks := file.hunks + [NewHunk(line)])
    else if file.hunks != [] then
      var last := |file.hunks| - 1;
      file.(hunks := file.hunks[last := WithLine(file.hunks[last], line)],
            additions := file.additions + (if KindOf(line) == Add then 1 else 0),
            deletions := file.deletions + (if KindOf(line) == Delete then 1 else 0))
    else
      file
  }

  /** The closed files and the open one. */
  datatype State = State(files: seq<DiffFile>, current: Option<DiffFile>) {
    /** The files once the open one is closed. */
    function Closed(): seq<DiffFile> {
      match current
      case Some(file) => files + [file]
      case None => files
    }
  }

  function Step(st: State, line: string): State {
    if FILE_MARK <= line then
      var path := ParsePath(line);
      State(st.Closed(), if IsSafeDiffPath(path) then Some(NewFile(path)) else None)
    else match st.current
      case Some(file) => st.(current := Some(FileStep(file, line)))
      case None => st
  }

  function Run(st: State, lines: seq<string>): State
    decreases |lines|
  {
    if lines == [] then st else Run(Step(st, lines[0]), lines[1..])
  }

  const START := State([], None)

  function Parse(text: string): seq<DiffFile> {
    if ByteLength(text) > MAX_DIFF_SIZE then [] else Run(START, Lines(text)).Closed()
  }
}

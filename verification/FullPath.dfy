/** Full-path review: every file printed as a brand-new file (src/input/full_path.rs). */
module FullPath {
  import opened Text

  /** Can the diff parser represent the path in a header? */
  predicate IsParserSafePath(rel: string) {
    && rel != "" && rel[0] != '/' && rel[0] != '~'
    && !HasParentSegment(rel)
    && '\\' !in rel && ':' !in rel && '\0' !in rel
    && forall i :: 0 <= i < |rel| ==> !IsWhitespace(rel[i]) && !IsControl(rel[i])
  }

  /** The lines the printer sees: what one final line feed closes, and none when nothing is left of
      the content without it. */
  function ContentLines(content: string): seq<string> {
    var body := if content != "" && content[|content| - 1] == '\n' then content[..|content| - 1] else content;
    if body == "" then [] else Split(body, '\n')
  }

  function HeaderLine(rel: string): string {
    "diff --git a/" + rel + " b/" + rel
  }

  function HunkLine(n: nat): string {
    "@@ -0,0 +" + Decimal(if n == 0 then 0 else 1) + "," + Decimal(n) + " @@"
  }

  function Preamble(rel: string, n: nat): string {
    (HeaderLine(rel) + "\n") + ("--- /dev/null" + "\n") + ("+++ b/" + rel + "\n") + (HunkLine(n) + "\n")
  }

  function PlusLines(lines: seq<string>): string {
    if lines == [] then "" else "+" + DropCR(lines[0]) + "\n" + PlusLines(lines[1..])
  }

  /** One file as a new-file diff. */
  function Render(rel: string, content: string): string {
    Preamble(rel, |ContentLines(content)|) + PlusLines(ContentLines(content))
  }

  method RenderNewFileDiff(rel: string, content: string) returns (out: string)
    ensures out == Render(rel, content)
  {
    var lines := ContentLines(content);
    out := Preamble(rel, |lines|);
    assert lines[0..] == lines;
    for i := 0 to |lines|
      invariant out + PlusLines(lines[i..]) == Render(rel, content)
    {
      assert lines[i..][0] == lines[i] && lines[i..][1..] == lines[i + 1..];
      PlusLinesStep(out, lines[i], PlusLines(lines[i + 1..]));
      out := out + "+";
      out := out + DropCR(lines[i]);
      out := out + "\n";
    }
    assert lines[|lines|..] == [] && out + "" == out;
  }

  lemma PlusLinesStep(out: string, line: string, rest: string)
    ensures ((out + "+") + DropCR(line)) + "\n" + rest == out + ("+" + DropCR(line) + "\n" + rest)
  {
  }

  /** A file to review: its repository-relative path and its content. */
  datatype SourceFile = SourceFile(rel: string, content: string)

  /** The diff of a full-path review. */
  function RenderAll(files: seq<SourceFile>): string {
    if files == [] then "" else Render(files[0].rel, files[0].content) + RenderAll(files[1..])
  }
}

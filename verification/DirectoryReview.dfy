/** The whole way of a full-path review: print every file, parse the diff, chunk it, route it
    (src/input/full_path.rs, src/team/orchestrator/pipeline.rs). */
module DirectoryReview {
  import opened Sequences
  import opened DiffModel
  import opened Parser
  import opened ParserProperties
  import opened FullPath
  import opened FullPathProperties
  import opened Chunking
  import opened RouteChunks
  import opened Pipeline
  import Text

  /** Some expert was given `text` as line `k` of the file, an addition to that file. */
  ghost predicate LineGiven(plan: seq<Assignment>, f: SourceFile, k: nat, text: string) {
    exists p :: Reviewed(plan, p) && p.file.path == f.rel && p.file.newPath == f.rel
      && k < |p.hunk.lines| && p.hunk.lines[k] == DiffLine(Add, Plus(text), None, None)
  }

  /** The one hunk of a printed file, as a (file, hunk) pair. */
  function PrintedPair(f: SourceFile): HunkPair {
    HunkPair(PrintedFile(f).Identity(), PrintedFile(f).hunks[0])
  }

  lemma OnlyPair(file: DiffFile)
    requires |file.hunks| == 1
    ensures file.HunkPairs() == [HunkPair(file.Identity(), file.hunks[0])]
  {
  }

  /** The pairs of a printed diff are one per file. */
  lemma PrintedPairs(files: seq<SourceFile>, p: HunkPair)
    ensures p in PairsOf(Mapped(PrintedFile, files)) <==> exists f :: f in files && p == PrintedPair(f)
  {
    MappedAt(PrintedFile, files);
    if p in PairsOf(Mapped(PrintedFile, files)) {
      var i := PairsOfOrigin(Mapped(PrintedFile, files), p);
      OnlyPair(PrintedFile(files[i]));
      assert files[i] in files;
    }
    if f :| f in files && p == PrintedPair(f) {
      var i :| 0 <= i < |files| && files[i] == f;
      OnlyPair(PrintedFile(f));
      PairsOfMember(Mapped(PrintedFile, files), i, p);
    }
  }

  /** The lines of that hunk. */
  lemma PrintedPairLine(f: SourceFile, k: nat)
    requires k < |Text.Lines(f.content)|
    ensures k < |PrintedPair(f).hunk.lines| <==> f.content != "\n"
    ensures f.content != "\n" ==>
      PrintedPair(f).hunk.lines[k] == DiffLine(Add, Plus(Shown(f.content, k)), None, None)
  {
    LinesShown(f.content);
    PrintedLength(ContentLines(f.content));
    if f.content == "\n" { LinesLost(); }
  }

  /** Line `k` of `f` is in the pair of `f` as it is, exactly when printing does not lose it. */
  lemma PairKeepsLine(f: SourceFile, k: nat)
    requires k < |Text.Lines(f.content)|
    ensures (&& k < |PrintedPair(f).hunk.lines|
             && PrintedPair(f).hunk.lines[k] == DiffLine(Add, Plus(Text.Lines(f.content)[k]), None, None))
      <==> KeepsLine(f.content, k)
  {
    var line := Text.Lines(f.content)[k];
    PrintedPairLine(f, k);
    ShownWhole(f.content, k);
    assert Plus(line)[1..] == line && Plus(Shown(f.content, k))[1..] == Shown(f.content, k);
  }

  /** No two files have the same path. */
  ghost predicate DistinctPaths(files: seq<SourceFile>) {
    forall f, g :: f in files && g in files && f.rel == g.rel ==> f == g
  }

  /** The files full-path review prints: representable paths of kinds that are not ignored. */
  function Selected(files: seq<SourceFile>, ignored: string -> bool): seq<SourceFile> {
    if files == [] then []
    else
      (if IsParserSafePath(files[0].rel) && !ignored(files[0].rel) then [files[0]] else [])
      + Selected(files[1..], ignored)
  }

  /** The parsed files that the pipeline's own filter keeps. */
  function Retained(files: seq<DiffFile>, ignored: string -> bool): seq<DiffFile> {
    if files == [] then []
    else (if ignored(files[0].newPath) then [] else [files[0]]) + Retained(files[1..], ignored)
  }

  lemma {:induction false} SelectedMembers(files: seq<SourceFile>, ignored: string -> bool)
    ensures AllSafe(Selected(files, ignored))
    ensures forall f :: f in Selected(files, ignored) <==> f in files && IsParserSafePath(f.rel) && !ignored(f.rel)
  {
    if files != [] { SelectedMembers(files[1..], ignored); }
  }

  lemma {:induction false} RetainedMembers(files: seq<DiffFile>, ignored: string -> bool)
    ensures forall f :: f in Retained(files, ignored) <==> f in files && !ignored(f.newPath)
  {
    if files != [] { RetainedMembers(files[1..], ignored); }
  }

  /** What was selected for printing survives the filter after parsing. */
  lemma {:induction false} SelectedRetained(files: seq<SourceFile>, ignored: string -> bool)
    requires forall f :: f in files ==> !ignored(f.rel)
    ensures Retained(Mapped(PrintedFile, files), ignored) == Mapped(PrintedFile, files)
  {
    if files != [] {
      assert files[0] in files;
      SelectedRetained(files[1..], ignored);
    }
  }

  ghost predicate Reviewable(f: SourceFile, ignored: string -> bool) {
    IsParserSafePath(f.rel) && !ignored(f.rel)
  }

  /** The printed diff fits the parser, no printed path starts with `b/`, every review expert
      accepts every chunk, and the quota leaves room. */
  ghost predicate Complete(printed: seq<SourceFile>, chunks: seq<DiffChunk>, experts: seq<ExpertDef>, quota: nat,
                           globMatch: GlobMatch) {
    && Text.ByteLength(RenderAll(printed)) <= MAX_DIFF_SIZE
    && NoneBelowB(printed)
    && Roomy(chunks, experts, quota, globMatch)
  }

  /** When the plan covers exactly the pairs of the printed files, it gives a line as it is exactly
      when printing does not lose it. */
  lemma LineGivenExactly(plan: seq<Assignment>, printed: seq<SourceFile>, f: SourceFile, k: nat)
    requires forall p :: Reviewed(plan, p) <==> p in PairsOf(Mapped(PrintedFile, printed))
    requires f in printed && k < |Text.Lines(f.content)|
    ensures f.content != "\n" ==> LineGiven(plan, f, k, Shown(f.content, k))
    ensures DistinctPaths(printed) ==>
      (LineGiven(plan, f, k, Text.Lines(f.content)[k]) <==> KeepsLine(f.content, k))
  {
    var line := Text.Lines(f.content)[k];
    PrintedPairs(printed, PrintedPair(f));
    assert Reviewed(plan, PrintedPair(f));
    PrintedPairLine(f, k);
    PairKeepsLine(f, k);
    if DistinctPaths(printed) && LineGiven(plan, f, k, line) {
      var p :| Reviewed(plan, p) && p.file.path == f.rel && p.file.newPath == f.rel
        && k < |p.hunk.lines| && p.hunk.lines[k] == DiffLine(Add, Plus(line), None, None);
      PrintedPairs(printed, p);
      var g :| g in printed && p == PrintedPair(g);
      assert g == f;
    }
  }

  /** Full-path review fails exactly when nothing is reviewable. Otherwise, under `Complete`, some
      expert is given every line of every reviewable file as `Shown`, unless the file is a lone line
      feed; and it is given the line as it is exactly when it does not end in a carriage return. */
  method ReviewDirectory(files: seq<SourceFile>, ignored: string -> bool, experts: seq<ExpertDef>, strategy: string,
                         c: Chunker, quota: nat, globMatch: GlobMatch)
    returns (ok: bool, chunks: seq<DiffChunk>, plan: seq<Assignment>)
    ensures ok <==> exists f :: f in files && Reviewable(f, ignored)
    ensures WithinQuota(plan, experts, quota)
    ensures ok && Complete(Selected(files, ignored), chunks, experts, quota, globMatch) ==>
      forall f, k: nat :: f in files && Reviewable(f, ignored) && k < |Text.Lines(f.content)| ==>
        && (f.content != "\n" ==> LineGiven(plan, f, k, Shown(f.content, k)))
        && (DistinctPaths(files) ==>
              (LineGiven(plan, f, k, Text.Lines(f.content)[k]) <==> KeepsLine(f.content, k)))
  {
    var printed := Selected(files, ignored);
    SelectedMembers(files, ignored);
    ok, chunks, plan := printed != [], [], [];
    if !ok {
      return;
    }
    assert printed[0] in printed;
    var parsed := ParseUnifiedDiff(RenderAll(printed));
    var kept := Retained(parsed, ignored);
    chunks, plan := ChunkAndRoute(kept, experts, strategy, c, quota, globMatch);
    if Complete(printed, chunks, experts, quota, globMatch) {
      PrintedBack(printed);
      SelectedRetained(printed, ignored);
      forall f, k: nat | f in printed && k < |Text.Lines(f.content)|
        ensures f.content != "\n" ==> LineGiven(plan, f, k, Shown(f.content, k))
        ensures DistinctPaths(printed) ==>
          (LineGiven(plan, f, k, Text.Lines(f.content)[k]) <==> KeepsLine(f.content, k))
      {
        LineGivenExactly(plan, printed, f, k);
      }
    }
  }
}

/** From a list of changed files to the file groups each expert reviews
    (src/team/orchestrator/pipeline.rs): chunking by the configured strategy, then routing. */
module Pipeline {
  import opened Sequences
  import opened DiffModel
  import opened Packing
  import opened Chunking
  import opened ChunkingProperties
  import opened SemanticChunking
  import opened RoutingProperties
  import opened RouteChunks

  /** Chunks of the list `order`: the files themselves, except that the semantic strategy first
      brings them into module order. */
  ghost predicate ChunksOf(strategy: string, c: Chunker, files: seq<DiffFile>, order: seq<DiffFile>,
                           chunks: seq<DiffChunk>)
  {
    && (if strategy == "semantic" then StablyByModule(files, order) && Sorted(KeyOf, Flatten(Runs(chunks)))
        else order == files)
    && (if strategy == "files" then WholeFileChunks(c, order, chunks) else HunkLevelChunks(c, order, chunks))
  }

  /** No chunk is empty, and the chunks are numbered. */
  ghost predicate WellNumbered(chunks: seq<DiffChunk>) {
    forall i :: 0 <= i < |chunks| ==>
      chunks[i].files != [] && chunks[i].chunkIndex == i && chunks[i].totalChunks == |chunks|
  }

  method ChunkWith(strategy: string, c: Chunker, files: seq<DiffFile>)
    returns (chunks: seq<DiffChunk>, ghost order: seq<DiffFile>)
    ensures multiset(ChunkPairs(chunks)) == multiset(PairsOf(files))
    ensures strategy != "semantic" ==> ChunkPairs(chunks) == PairsOf(files)
    ensures WellNumbered(chunks)
    ensures ChunksOf(strategy, c, files, order, chunks)
  {
    order := files;
    if strategy == "files" {
      var oversized;
      chunks, oversized := c.ChunkByFilesInner(files);
      ByFilesConserves(c, files);
      ByFilesIsWholeFile(c, files);
    } else if strategy == "hunks" {
      chunks := c.ChunkByHunks(files);
      ByHunksShape(c, files);
    } else if strategy == "semantic" {
      chunks := SemanticChunk(c, files);
      order := SortByModule(files);
      SemanticShape(c, files);
    } else {
      chunks := AdaptiveChunk(c, files);
      ByHunksShape(c, files);
    }
  }

  lemma ByFilesConserves(c: Chunker, files: seq<DiffFile>)
    ensures ChunkPairs(c.ByFiles(files)) == PairsOf(files) && WellNumbered(c.ByFiles(files))
  {
    RunsOfNumbered(c.FileRuns(files), |c.FileRuns(files)|);
    PackConserves(c.fileTokens, c.budget, [], files);
    assert [] + files == files;
  }

  lemma ByHunksShape(c: Chunker, files: seq<DiffFile>)
    ensures HunkLevelChunks(c, files, c.ByHunks(files)) && WellNumbered(c.ByHunks(files))
  {
    ByHunksIsHunkLevel(c, files);
    forall i | 0 <= i < |c.ByHunks(files)| ensures c.ByHunks(files)[i].files != [] {
      HunkRunsNonEmpty(c, [], files, i);
    }
  }

  lemma SemanticShape(c: Chunker, files: seq<DiffFile>)
    ensures var order := SortByModule(files);
      && StablyByModule(files, order) && HunkLevelChunks(c, order, c.ByHunks(order))
      && Sorted(KeyOf, Flatten(Runs(c.ByHunks(order)))) && WellNumbered(c.ByHunks(order))
  {
    var order := SortByModule(files);
    SortedByModule(files);
    ByHunksShape(c, order);
    ByHunksUnfold(c, order);
    UnfoldSorted(c, order);
  }

  /** The expert list without the aggregator, which only merges reports. */
  function NonAggregators(experts: seq<ExpertDef>): seq<ExpertDef> {
    if experts == [] then []
    else
      var last := experts[|experts| - 1];
      NonAggregators(experts[..|experts| - 1]) + if last.name != "aggregator" then [last] else []
  }

  /** The expert takes part in a review and is not the aggregator. */
  predicate TakesPart(expert: ExpertDef) {
    "review" in expert.commands && expert.name != "aggregator"
  }

  function TeamOf(experts: seq<ExpertDef>): seq<ExpertDef> {
    ReviewTeam(NonAggregators(experts))
  }

  lemma ReviewTeamSnoc(before: seq<ExpertDef>, last: ExpertDef)
    ensures ReviewTeam(before + [last]) == ReviewTeam(before) + if "review" in last.commands then [last] else []
  {
    var all := before + [last];
    assert all[..|all| - 1] == before;
  }

  lemma TeamStep(experts: seq<ExpertDef>)
    requires experts != []
    ensures var n := |experts| - 1;
      TeamOf(experts) == TeamOf(experts[..n]) + if TakesPart(experts[n]) then [experts[n]] else []
  {
    var n := |experts| - 1;
    var before, last := NonAggregators(experts[..n]), experts[n];
    if last.name != "aggregator" {
      ReviewTeamSnoc(before, last);
    } else {
      assert NonAggregators(experts) == before;
    }
  }

  lemma {:induction false} TeamMembers(experts: seq<ExpertDef>)
    ensures |TeamOf(experts)| == Count(experts, TakesPart)
    ensures forall i :: 0 <= i < |TeamOf(experts)| ==> TeamOf(experts)[i] in experts && TakesPart(TeamOf(experts)[i])
  {
    if experts != [] {
      TeamStep(experts);
      TeamMembers(experts[..|experts| - 1]);
    }
  }

  lemma {:induction false} NonAggregatorMembers(experts: seq<ExpertDef>)
    ensures forall e :: e in NonAggregators(experts) ==> e in experts && e.name != "aggregator"
  {
    if experts != [] { NonAggregatorMembers(experts[..|experts| - 1]); }
  }

  /** Some expert reviews the pair: it is in one of the file groups the expert was given. */
  ghost predicate Reviewed(plan: seq<Assignment>, p: HunkPair) {
    exists a, g :: 0 <= a < |plan| && 0 <= g < |plan[a].1| && p in PairsOf(plan[a].1[g])
  }

  lemma {:induction false} AssignmentOf(
    chunks: seq<DiffChunk>, team: seq<ExpertDef>, lists: seq<seq<nat>>, k: nat, e: nat) returns (a: nat)
    requires e < k <= |team| == |lists| && InRange(chunks, lists) && lists[e] != []
    ensures var plan := Assignments(chunks, team, lists, k);
      a < |plan| && plan[a] == (team[e], Groups(chunks, lists[e]))
  {
    if e == k - 1 {
      a := |Assignments(chunks, team, lists, k - 1)|;
    } else {
      a := AssignmentOf(chunks, team, lists, k - 1, e);
    }
  }

  lemma {:induction false} AssignmentGroups(
    chunks: seq<DiffChunk>, team: seq<ExpertDef>, lists: seq<seq<nat>>, k: nat, a: nat, g: nat) returns (ci: nat)
    requires k <= |team| == |lists| && InRange(chunks, lists)
    requires a < |Assignments(chunks, team, lists, k)| && g < |Assignments(chunks, team, lists, k)[a].1|
    ensures ci < |chunks| && Assignments(chunks, team, lists, k)[a].1[g] == chunks[ci].files
  {
    if a < |Assignments(chunks, team, lists, k - 1)| {
      ci := AssignmentGroups(chunks, team, lists, k - 1, a, g);
    } else {
      ci := lists[k - 1][g];
    }
  }

  /** A pair of a listed chunk is reviewed. */
  lemma ListedIsReviewed(
    chunks: seq<DiffChunk>, team: seq<ExpertDef>, lists: seq<seq<nat>>, e: nat, ci: nat, p: HunkPair)
    requires e < |team| == |lists| && InRange(chunks, lists) && ci < |chunks|
    requires ci in lists[e] && p in PairsOf(chunks[ci].files)
    ensures Reviewed(Assignments(chunks, team, lists, |team|), p)
  {
    var a := AssignmentOf(chunks, team, lists, |team|, e);
    var g :| 0 <= g < |lists[e]| && lists[e][g] == ci;
    var plan := Assignments(chunks, team, lists, |team|);
    assert plan[a].1[g] == chunks[ci].files;
  }

  lemma ChunkPairOrigin(chunks: seq<DiffChunk>, p: HunkPair) returns (ci: nat)
    requires p in ChunkPairs(chunks)
    ensures ci < |chunks| && p in PairsOf(chunks[ci].files)
  {
    var all := Flatten(Runs(chunks));
    var i := PairsOfOrigin(all, p);
    ci := FlattenOrigin(Runs(chunks), all[i]);
    var j :| 0 <= j < |chunks[ci].files| && chunks[ci].files[j] == all[i];
    PairsOfMember(chunks[ci].files, j, p);
  }

  lemma ChunkPairMember(chunks: seq<DiffChunk>, ci: nat, p: HunkPair)
    requires ci < |chunks| && p in PairsOf(chunks[ci].files)
    ensures p in ChunkPairs(chunks)
  {
    var i := PairsOfOrigin(chunks[ci].files, p);
    FlattenMember(Runs(chunks), ci, chunks[ci].files[i]);
    var all := Flatten(Runs(chunks));
    var j :| 0 <= j < |all| && all[j] == chunks[ci].files[i];
    PairsOfMember(all, j, p);
  }

  /** Nothing reviewed is outside the chunks. */
  lemma PlanWithin(chunks: seq<DiffChunk>, team: seq<ExpertDef>, quota: nat, globMatch: GlobMatch, p: HunkPair)
    requires Reviewed(Plan(chunks, team, quota, globMatch), p)
    ensures p in ChunkPairs(chunks)
  {
    var r := RouterFor(chunks, team, quota, globMatch);
    var plan := Plan(chunks, team, quota, globMatch);
    r.ListsInRange();
    var a, g :| 0 <= a < |plan| && 0 <= g < |plan[a].1| && p in PairsOf(plan[a].1[g]);
    var ci := AssignmentGroups(chunks, team, r.Lists(), |team|, a, g);
    ChunkPairMember(chunks, ci, p);
  }

  /** Every expert that takes part lets every chunk through, and the quota leaves room for all of them. */
  ghost predicate Roomy(chunks: seq<DiffChunk>, experts: seq<ExpertDef>, quota: nat, globMatch: GlobMatch) {
    && Count(experts, TakesPart) > 0
    && (forall e, chunk :: e in experts && TakesPart(e) && chunk in chunks ==> LetsThrough(e, chunk, globMatch))
    && (quota == 0 || |chunks| <= Count(experts, TakesPart) * quota)
  }

  lemma RoomyIsOpen(chunks: seq<DiffChunk>, experts: seq<ExpertDef>, quota: nat, globMatch: GlobMatch)
    requires Roomy(chunks, experts, quota, globMatch)
    ensures var r := RouterFor(chunks, TeamOf(experts), quota, globMatch);
      r.experts > 0 && Open(r) && (quota == 0 || r.chunks <= r.experts * quota)
  {
    var team := TeamOf(experts);
    TeamMembers(experts);
    forall t: nat, ci: nat | t < |team| && ci < |chunks| ensures Accepts(team[t], chunks[ci], globMatch) {
      assert team[t] in team && LetsThrough(team[t], chunks[ci], globMatch);
    }
  }

  /** Then everything in the chunks is reviewed. */
  lemma PlanCovers(chunks: seq<DiffChunk>, experts: seq<ExpertDef>, quota: nat, globMatch: GlobMatch, p: HunkPair)
    requires Roomy(chunks, experts, quota, globMatch) && p in ChunkPairs(chunks)
    ensures Reviewed(Plan(chunks, TeamOf(experts), quota, globMatch), p)
  {
    var team := TeamOf(experts);
    var r := RouterFor(chunks, team, quota, globMatch);
    var ci := ChunkPairOrigin(chunks, p);
    RoomyIsOpen(chunks, experts, quota, globMatch);
    CoverageGuarantee(r);
    assert Covered(r, ci);
    var e: nat :| e < r.experts && ci in r.Final(e);
    r.ListsInRange();
    ListedIsReviewed(chunks, team, r.Lists(), e, ci, p);
  }

  /** Every entry is for an expert that takes part, with at least one group and no more than the quota. */
  ghost predicate WithinQuota(plan: seq<Assignment>, experts: seq<ExpertDef>, quota: nat) {
    forall a :: 0 <= a < |plan| ==>
      && plan[a].0 in experts && TakesPart(plan[a].0)
      && 1 <= |plan[a].1| && (quota > 0 ==> |plan[a].1| <= quota)
  }

  /** End to end. The chunks are those of the strategy, the plan is the routing of those chunks, and it
      respects the quota. Chunking and routing never invent a (file, hunk) pair, and lose none when every
      expert lets every chunk through and the quota leaves room. */
  method ChunkAndRoute(files: seq<DiffFile>, experts: seq<ExpertDef>, strategy: string, c: Chunker, quota: nat,
                       globMatch: GlobMatch)
    returns (chunks: seq<DiffChunk>, plan: seq<Assignment>)
    ensures multiset(ChunkPairs(chunks)) == multiset(PairsOf(files)) && WellNumbered(chunks)
    ensures exists order :: ChunksOf(strategy, c, files, order, chunks)
    ensures exists seats, held, rows ::
      Routes(plan, chunks, NonAggregators(experts), quota, globMatch, seats, held, rows)
    ensures WithinQuota(plan, experts, quota)
    ensures forall p :: Reviewed(plan, p) ==> p in PairsOf(files)
    ensures Roomy(chunks, experts, quota, globMatch) ==> forall p :: p in PairsOf(files) ==> Reviewed(plan, p)
  {
    ghost var order, seats, held, rows;
    chunks, order := ChunkWith(strategy, c, files);
    plan, seats, held, rows := Route(chunks, NonAggregators(experts), quota, globMatch);
    NonAggregatorMembers(experts);
    SamePairs(chunks, files);
    forall p | Reviewed(plan, p) ensures p in PairsOf(files) {
      PlanWithin(chunks, TeamOf(experts), quota, globMatch, p);
    }
    if Roomy(chunks, experts, quota, globMatch) {
      forall p | p in PairsOf(files) ensures Reviewed(plan, p) {
        PlanCovers(chunks, experts, quota, globMatch, p);
      }
    }
  }

  lemma SamePairs(chunks: seq<DiffChunk>, files: seq<DiffFile>)
    requires multiset(ChunkPairs(chunks)) == multiset(PairsOf(files))
    ensures forall p :: p in ChunkPairs(chunks) <==> p in PairsOf(files)
  {
    forall p ensures p in ChunkPairs(chunks) <==> p in PairsOf(files) {
      assert p in multiset(ChunkPairs(chunks)) <==> p in multiset(PairsOf(files));
    }
  }
}

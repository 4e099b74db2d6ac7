/** `route_chunks` itself: the allocation of `Routing`, on real chunks and experts. */
module RouteChunks {
  import opened Sequences
  import opened DiffModel
  import opened Chunking
  import opened Routing
  import opened RoutingProperties

  datatype Trigger =
    | Always
    | OnDemand
    | FilePatterns(patterns: seq<string>)
    | Languages(languages: seq<string>)
    | DiffSize(maxFiles: nat)

  datatype ExpertDef = ExpertDef(name: string, commands: seq<string>, trigger: Trigger, contentPatterns: seq<string>)

  /** The glob matcher behind file-pattern triggers is not modelled: any function will do. */
  type GlobMatch = (seq<string>, string) -> bool

  predicate Contains(text: string, part: string) {
    exists i :: 0 <= i <= |text| && part <= text[i..]
  }

  function RenderLines(lines: seq<DiffLine>): string {
    if lines == [] then "" else lines[0].content + "\n" + RenderLines(lines[1..])
  }

  function RenderHunks(hunks: seq<DiffHunk>): string {
    if hunks == [] then "" else hunks[0].header + "\n" + RenderLines(hunks[0].lines) + RenderHunks(hunks[1..])
  }

  /** The file as unified-diff text, which is what content patterns are searched in. */
  function RenderFileDiff(file: DiffFile): string {
    "diff --git a/" + file.oldPath + " b/" + file.newPath + "\n" + RenderHunks(file.hunks)
  }

  /** The experts that take part in reviews, in order. */
  function ReviewTeam(experts: seq<ExpertDef>): seq<ExpertDef> {
    if experts == [] then []
    else
      var last := experts[|experts| - 1];
      ReviewTeam(experts[..|experts| - 1]) + if "review" in last.commands then [last] else []
  }

  predicate Accepts(expert: ExpertDef, chunk: DiffChunk, globMatch: GlobMatch) {
    match expert.trigger
    case FilePatterns(patterns) => exists i :: 0 <= i < |chunk.files| && globMatch(patterns, chunk.files[i].newPath)
    case _ => true
  }

  predicate ContainsPattern(expert: ExpertDef, chunk: DiffChunk) {
    exists i, p :: 0 <= i < |chunk.files| && 0 <= p < |expert.contentPatterns|
      && Contains(RenderFileDiff(chunk.files[i]), expert.contentPatterns[p])
  }

  function RouterFor(chunks: seq<DiffChunk>, team: seq<ExpertDef>, quota: nat, globMatch: GlobMatch): Router {
    Router(|team|, |chunks|, quota,
           (e: nat, ci: nat) => e < |team| && ci < |chunks| && Accepts(team[e], chunks[ci], globMatch),
           (e: nat) => e < |team| && team[e].contentPatterns != [],
           (e: nat, ci: nat) => e < |team| && ci < |chunks| && ContainsPattern(team[e], chunks[ci]))
  }

  /** Every listed chunk exists. */
  ghost predicate InRange(chunks: seq<DiffChunk>, lists: seq<seq<nat>>) {
    forall e, i :: 0 <= e < |lists| && 0 <= i < |lists[e]| ==> lists[e][i] < |chunks|
  }

  /** The file groups of a list of chunk indices. */
  function Groups(chunks: seq<DiffChunk>, list: seq<nat>): seq<seq<DiffFile>>
    requires forall i :: 0 <= i < |list| ==> list[i] < |chunks|
  {
    seq(|list|, i requires 0 <= i < |list| => chunks[list[i]].files)
  }

  type Assignment = (ExpertDef, seq<seq<DiffFile>>)

  /** The experts among the first `k` that hold something, with their chunks as file groups. */
  function Assignments(chunks: seq<DiffChunk>, team: seq<ExpertDef>, lists: seq<seq<nat>>, k: nat): seq<Assignment>
    requires k <= |team| == |lists| && InRange(chunks, lists)
  {
    if k == 0 then []
    else
      Assignments(chunks, team, lists, k - 1)
        + (if lists[k - 1] == [] then [] else [(team[k - 1], Groups(chunks, lists[k - 1]))])
  }

  /** The whole plan: each expert's groups are the chunks on its final list. */
  ghost function Plan(chunks: seq<DiffChunk>, team: seq<ExpertDef>, quota: nat, globMatch: GlobMatch): seq<Assignment> {
    var r := RouterFor(chunks, team, quota, globMatch);
    r.ListsInRange();
    Assignments(chunks, team, r.Lists(), |team|)
  }

  // ----- what a plan must be, in terms of the experts and chunks themselves -----

  /** The expert takes part in reviews. */
  predicate Reviews(expert: ExpertDef) {
    "review" in expert.commands
  }

  /** The expert's trigger lets the chunk through: only file patterns can refuse one. */
  ghost predicate LetsThrough(expert: ExpertDef, chunk: DiffChunk, globMatch: GlobMatch) {
    expert.trigger.FilePatterns? ==> exists f :: f in chunk.files && globMatch(expert.trigger.patterns, f.newPath)
  }

  /** One routing decision: the review team, the chunks and the quota. */
  datatype Round = Round(team: seq<ExpertDef>, chunks: seq<DiffChunk>, quota: nat, globMatch: GlobMatch) {

    ghost predicate Willing(t: nat, ci: nat) {
      t < |team| && ci < |chunks| && LetsThrough(team[t], chunks[ci], globMatch)
    }

    /** Some file of the chunk, as diff text, contains one of the expert's content patterns. */
    ghost predicate Interested(t: nat, ci: nat) {
      && t < |team| && ci < |chunks|
      && exists f, p :: f in chunks[ci].files && p in team[t].contentPatterns && Contains(RenderFileDiff(f), p)
    }

    ghost function WillingBelow(t: nat, ci: nat): set<nat> {
      set d: nat | d < t && Willing(d, ci)
    }

    /** It is the expert's turn: counting only the willing experts, it has the number of the chunk,
        modulo how many they are. */
    ghost predicate InTurn(t: nat, ci: nat) {
      && Willing(t, ci) && |WillingBelow(|team|, ci)| > 0
      && |WillingBelow(t, ci)| == ci % |WillingBelow(|team|, ci)|
    }

    ghost predicate Extra(t: nat, ci: nat) {
      Interested(t, ci) && !InTurn(t, ci)
    }

    ghost predicate Spare(t: nat, ci: nat) {
      Willing(t, ci) && !InTurn(t, ci) && !Interested(t, ci)
    }

    ghost function Turns(t: nat, k: nat): set<nat> {
      set c: nat | c < k && InTurn(t, c)
    }

    ghost function Extras(t: nat, k: nat): set<nat> {
      set c: nat | c < k && Extra(t, c)
    }

    ghost function Spares(t: nat, k: nat): set<nat> {
      set c: nat | c < k && Spare(t, c)
    }

    /** Exactly when the expert is given the chunk. With quota 0: in turn, or by content. Otherwise
        the chunks in turn go first, then those by content, both up to the quota; other chunks its
        trigger lets through only fill it up to the quota and an even share of the chunks. */
    ghost predicate Gets(t: nat, ci: nat) {
      var turns, extras := |Turns(t, |chunks|)|, |Extras(t, |chunks|)|;
      if quota == 0 then InTurn(t, ci) || Interested(t, ci)
      else
        || (InTurn(t, ci) && |Turns(t, ci)| < quota)
        || (Extra(t, ci) && turns + |Extras(t, ci)| < quota)
        || (Spare(t, ci)
            && turns + extras + |Spares(t, ci)| < quota
            && (turns + extras + |Spares(t, ci)|) * |team| < |chunks|)
    }

    /** In turn before by content, by content before the rest, and by chunk number within each. */
    ghost predicate Precedes(t: nat, c: nat, d: nat) {
      || (InTurn(t, c) && !InTurn(t, d))
      || (!InTurn(t, d) && Interested(t, c) && !Interested(t, d))
      || ((InTurn(t, c) <==> InTurn(t, d)) && (InTurn(t, c) || (Interested(t, c) <==> Interested(t, d))) && c < d)
    }
  }

  /** The experts at the given positions. */
  function At(experts: seq<ExpertDef>, seats: seq<nat>): seq<ExpertDef>
    requires forall i :: 0 <= i < |seats| ==> seats[i] < |experts|
  {
    seq(|seats|, i requires 0 <= i < |seats| => experts[seats[i]])
  }

  /** `held[t]` lists the chunks of the team's `t`-th expert, exactly and in order. */
  ghost predicate Allocates(v: Round, held: seq<seq<nat>>) {
    && |held| == |v.team|
    && (forall t: nat :: t < |held| ==> NoDuplicates(held[t]))
    && (forall t: nat, ci: nat :: t < |held| ==> (ci in held[t] <==> ci < |v.chunks| && v.Gets(t, ci)))
    && (forall t: nat, g, h :: t < |held| && 0 <= g < h < |held[t]| ==> v.Precedes(t, held[t][g], held[t][h]))
  }

  ghost predicate NonEmpty(list: seq<nat>) {
    list != []
  }

  /** The plan has one entry for each expert that holds something, in order, and one group of files
      for each chunk the expert holds, in order. */
  ghost predicate Presents(result: seq<Assignment>, v: Round, held: seq<seq<nat>>, rows: seq<nat>) {
    && |held| == |v.team| && InRange(v.chunks, held)
    && Picks(rows, held, NonEmpty) && |result| == |rows|
    && forall a :: 0 <= a < |rows| ==>
      && rows[a] < |held| && result[a].0 == v.team[rows[a]]
      && |result[a].1| == |held[rows[a]]|
      && forall g :: 0 <= g < |result[a].1| ==> result[a].1[g] == v.chunks[held[rows[a]][g]].files
  }

  /** `seats` are the positions of the review experts among all experts, `held` the chunks of each of
      them, and `rows` the review experts that have an entry. */
  ghost predicate Routes(result: seq<Assignment>, chunks: seq<DiffChunk>, experts: seq<ExpertDef>, quota: nat,
                         globMatch: GlobMatch, seats: seq<nat>, held: seq<seq<nat>>, rows: seq<nat>)
  {
    && Picks(seats, experts, Reviews)
    && Allocates(Round(At(experts, seats), chunks, quota, globMatch), held)
    && Presents(result, Round(At(experts, seats), chunks, quota, globMatch), held, rows)
  }

  // ----- the plan is what it must be -----

  lemma AtSnoc(experts: seq<ExpertDef>, seats: seq<nat>)
    requires experts != [] && forall i :: 0 <= i < |seats| ==> seats[i] < |experts| - 1
    ensures var n := |experts| - 1;
      && At(experts, seats) == At(experts[..n], seats)
      && At(experts, seats + [n]) == At(experts[..n], seats) + [experts[n]]
  {
  }

  /** The positions of the review experts. */
  lemma {:induction false} TeamSeats(experts: seq<ExpertDef>) returns (seats: seq<nat>)
    ensures Picks(seats, experts, Reviews)
    ensures ReviewTeam(experts) == At(experts, seats)
  {
    seats := [];
    if experts != [] {
      var n := |experts| - 1;
      seats := TeamSeats(experts[..n]);
      AtSnoc(experts, seats);
      PicksSnoc(seats, experts, Reviews);
      seats := seats + if Reviews(experts[n]) then [n] else [];
    }
  }

  /** The allocator's notions are the ones above. */
  lemma RouterIsRound(v: Round, t: nat, ci: nat)
    ensures var r := RouterFor(v.chunks, v.team, v.quota, v.globMatch);
      && (r.accepts(t, ci) <==> v.Willing(t, ci))
      && (r.Matches(t, ci) <==> v.Interested(t, ci))
      && (r.Owns(t, ci) <==> v.InTurn(t, ci))
  {
    var r := RouterFor(v.chunks, v.team, v.quota, v.globMatch);
    forall d: nat ensures r.accepts(d, ci) <==> v.Willing(d, ci) {}
    MatchesInterested(v, t, ci);
    OwnsInTurn(r, t, ci);
    assert AcceptingBelow(r, r.experts, ci) == v.WillingBelow(|v.team|, ci);
    assert AcceptingBelow(r, t, ci) == v.WillingBelow(t, ci);
  }

  lemma MatchesInterested(v: Round, t: nat, ci: nat)
    ensures RouterFor(v.chunks, v.team, v.quota, v.globMatch).Matches(t, ci) <==> v.Interested(t, ci)
  {
    if v.Interested(t, ci) {
      var f, p :| f in v.chunks[ci].files && p in v.team[t].contentPatterns && Contains(RenderFileDiff(f), p);
      var i :| 0 <= i < |v.chunks[ci].files| && v.chunks[ci].files[i] == f;
      var k :| 0 <= k < |v.team[t].contentPatterns| && v.team[t].contentPatterns[k] == p;
      assert Contains(RenderFileDiff(v.chunks[ci].files[i]), v.team[t].contentPatterns[k]);
      assert ContainsPattern(v.team[t], v.chunks[ci]);
    }
    if t < |v.team| && ci < |v.chunks| && ContainsPattern(v.team[t], v.chunks[ci]) {
      var i, k :| 0 <= i < |v.chunks[ci].files| && 0 <= k < |v.team[t].contentPatterns|
        && Contains(RenderFileDiff(v.chunks[ci].files[i]), v.team[t].contentPatterns[k]);
      assert v.chunks[ci].files[i] in v.chunks[ci].files;
      assert v.team[t].contentPatterns[k] in v.team[t].contentPatterns;
    }
  }

  /** The three counts the decision is made on. */
  lemma RoundCounts(v: Round, t: nat, k: nat)
    ensures var r := RouterFor(v.chunks, v.team, v.quota, v.globMatch);
      |r.Owned(t, k)| == |v.Turns(t, k)| && |r.Added(t, k)| == |v.Extras(t, k)| && |r.Filler(t, k)| == |v.Spares(t, k)|
  {
    var r := RouterFor(v.chunks, v.team, v.quota, v.globMatch);
    var owns, adds, fills := (c: nat) => r.Owns(t, c), (c: nat) => r.Adds(t, c), (c: nat) => r.Fills(t, c);
    SelectCount(k, owns);
    SelectCount(k, adds);
    SelectCount(k, fills);
    forall c: nat
      ensures owns(c) <==> v.InTurn(t, c)
      ensures adds(c) <==> v.Extra(t, c)
      ensures fills(c) <==> v.Spare(t, c)
    {
      RouterIsRound(v, t, c);
    }
    assert (set c: nat | c < k && owns(c)) == v.Turns(t, k);
    assert (set c: nat | c < k && adds(c)) == v.Extras(t, k);
    assert (set c: nat | c < k && fills(c)) == v.Spares(t, k);
  }

  /** Below the even share, without division. */
  lemma BelowShare(x: nat, chunks: nat, experts: nat)
    requires experts > 0
    ensures x < (chunks + experts - 1) / experts <==> x * experts < chunks
  {
    CeilingDivision(chunks, experts);
    QuotientBound(x * experts, experts, 0);
    var q, m := chunks / experts, chunks % experts;
    assert chunks == q * experts + m;
    if x < q {
      MultiplesApart(x, q, experts);
    } else if q < x {
      MultiplesApart(q, x, experts);
    }
  }

  lemma GetsExactly(v: Round, t: nat, ci: nat)
    requires t < |v.team| && ci < |v.chunks|
    ensures var r := RouterFor(v.chunks, v.team, v.quota, v.globMatch); ci in r.Final(t) <==> v.Gets(t, ci)
  {
    RouterIsRound(v, t, ci);
    if v.quota == 0 {
      HeldUnlimited(RouterFor(v.chunks, v.team, v.quota, v.globMatch), t, ci);
    } else {
      RoomIsGets(v, t, ci);
      HeldExactly(RouterFor(v.chunks, v.team, v.quota, v.globMatch), t, ci);
    }
  }

  lemma ShareIsEven(v: Round, x: nat)
    requires v.team != []
    ensures x < RouterFor(v.chunks, v.team, v.quota, v.globMatch).FairShare() <==>
      x < v.quota && x * |v.team| < |v.chunks|
  {
    BelowShare(x, |v.chunks|, |v.team|);
  }

  lemma RoomInTurn(v: Round, t: nat, ci: nat)
    requires t < |v.team| && ci < |v.chunks| && v.quota > 0 && v.InTurn(t, ci)
    ensures HasRoom(RouterFor(v.chunks, v.team, v.quota, v.globMatch), t, ci) <==> v.Gets(t, ci)
  {
    RouterIsRound(v, t, ci);
    RoundCounts(v, t, ci);
  }

  lemma RoomExtra(v: Round, t: nat, ci: nat)
    requires t < |v.team| && ci < |v.chunks| && v.quota > 0 && v.Extra(t, ci)
    ensures HasRoom(RouterFor(v.chunks, v.team, v.quota, v.globMatch), t, ci) <==> v.Gets(t, ci)
  {
    RouterIsRound(v, t, ci);
    RoundCounts(v, t, ci);
    RoundCounts(v, t, |v.chunks|);
  }

  lemma RoomSpare(v: Round, t: nat, ci: nat)
    requires t < |v.team| && ci < |v.chunks| && v.quota > 0 && v.Spare(t, ci)
    ensures HasRoom(RouterFor(v.chunks, v.team, v.quota, v.globMatch), t, ci) <==> v.Gets(t, ci)
  {
    var r := RouterFor(v.chunks, v.team, v.quota, v.globMatch);
    RouterIsRound(v, t, ci);
    RoundCounts(v, t, ci);
    RoundCounts(v, t, |v.chunks|);
    var before := |r.Base(t)| + |r.Filler(t, ci)|;
    ShareIsEven(v, before);
    GetsSpare(v, t, ci, before);
  }

  lemma GetsSpare(v: Round, t: nat, ci: nat, before: nat)
    requires v.quota > 0 && v.Spare(t, ci)
    requires before == |v.Turns(t, |v.chunks|)| + |v.Extras(t, |v.chunks|)| + |v.Spares(t, ci)|
    ensures v.Gets(t, ci) <==> before < v.quota && before * |v.team| < |v.chunks|
  {
  }

  lemma RoomIsGets(v: Round, t: nat, ci: nat)
    requires t < |v.team| && ci < |v.chunks| && v.quota > 0
    ensures HasRoom(RouterFor(v.chunks, v.team, v.quota, v.globMatch), t, ci) <==> v.Gets(t, ci)
  {
    RouterIsRound(v, t, ci);
    if v.InTurn(t, ci) {
      RoomInTurn(v, t, ci);
    } else if v.Interested(t, ci) {
      RoomExtra(v, t, ci);
    } else if v.Willing(t, ci) {
      RoomSpare(v, t, ci);
    }
  }

  lemma ListsAllocate(v: Round)
    requires v.team != []
    ensures Allocates(v, RouterFor(v.chunks, v.team, v.quota, v.globMatch).Lists())
  {
    var r := RouterFor(v.chunks, v.team, v.quota, v.globMatch);
    var held := r.Lists();
    r.ListsInRange();
    forall t: nat | t < |held| ensures NoDuplicates(held[t]) {
      AllocationInvariant(r, t);
    }
    forall t: nat, ci: nat | t < |held| ensures ci in held[t] <==> ci < |v.chunks| && v.Gets(t, ci) {
      if ci < |v.chunks| { GetsExactly(v, t, ci); }
    }
    forall t: nat, g: nat, h: nat | t < |held| && g < h < |held[t]|
      ensures v.Precedes(t, held[t][g], held[t][h])
    {
      FinalOrdered(r, t, g, h);
      RouterIsRound(v, t, held[t][g]);
      RouterIsRound(v, t, held[t][h]);
    }
  }

  /** The entries of a plan, from the positions of the lists that are not empty. */
  lemma {:induction false} AssignmentsPresent(v: Round, held: seq<seq<nat>>, k: nat) returns (rows: seq<nat>)
    requires k <= |held| == |v.team| && InRange(v.chunks, held)
    ensures Picks(rows, held[..k], NonEmpty)
    ensures |Assignments(v.chunks, v.team, held, k)| == |rows|
    ensures forall a :: 0 <= a < |rows| ==>
      && rows[a] < k
      && Assignments(v.chunks, v.team, held, k)[a] == (v.team[rows[a]], Groups(v.chunks, held[rows[a]]))
  {
    rows := [];
    if k > 0 {
      var before := AssignmentsPresent(v, held, k - 1);
      assert held[..k][..k - 1] == held[..k - 1] && held[..k][k - 1] == held[k - 1];
      PicksSnoc(before, held[..k], NonEmpty);
      rows := before + if NonEmpty(held[k - 1]) then [k - 1] else [];
    }
  }

  method Assemble(chunks: seq<DiffChunk>, team: seq<ExpertDef>, lists: seq<seq<nat>>) returns (result: seq<Assignment>)
    requires |team| == |lists| && InRange(chunks, lists)
    ensures result == Assignments(chunks, team, lists, |team|)
  {
    result := [];
    for e := 0 to |team|
      invariant result == Assignments(chunks, team, lists, e)
    {
      if lists[e] != [] {
        result := result + [(team[e], Groups(chunks, lists[e]))];
      }
    }
  }

  method Route(chunks: seq<DiffChunk>, experts: seq<ExpertDef>, quota: nat, globMatch: GlobMatch)
    returns (result: seq<Assignment>, ghost seats: seq<nat>, ghost held: seq<seq<nat>>, ghost rows: seq<nat>)
    ensures result == Plan(chunks, ReviewTeam(experts), quota, globMatch)
    ensures Routes(result, chunks, experts, quota, globMatch, seats, held, rows)
    ensures forall a :: 0 <= a < |result| ==>
      && result[a].0 in experts && "review" in result[a].0.commands
      && 1 <= |result[a].1| && (quota > 0 ==> |result[a].1| <= quota)
  {
    var team := ReviewTeam(experts);
    seats := TeamSeats(experts);
    ghost var v := Round(team, chunks, quota, globMatch);
    held, rows := [], [];
    if team == [] {
      return [], seats, held, rows;
    }
    var r := RouterFor(chunks, team, quota, globMatch);
    var lists := r.Allocate();
    r.ListsInRange();
    result := Assemble(chunks, team, lists);
    held := lists;
    ListsAllocate(v);
    rows := AssignmentsPresent(v, held, |held|);
    assert held[..|held|] == held;
    forall a | 0 <= a < |result|
      ensures result[a].0 in experts && "review" in result[a].0.commands
      ensures 1 <= |result[a].1| && (quota > 0 ==> |result[a].1| <= quota)
    {
      assert result[a].0 == team[rows[a]] == experts[seats[rows[a]]];
      AllocationInvariant(r, rows[a]);
    }
  }

  lemma HeldIsFinal(v: Round, held: seq<seq<nat>>, t: nat)
    requires Allocates(v, held) && t < |v.team|
    ensures var f := RouterFor(v.chunks, v.team, v.quota, v.globMatch).Final(t);
      |held[t]| == |f| && forall ci :: ci in held[t] <==> ci in f
  {
    var r := RouterFor(v.chunks, v.team, v.quota, v.globMatch);
    ListsAllocate(v);
    r.ListsInRange();
    assert r.Lists()[t] == r.Final(t);
    forall ci: nat ensures ci in held[t] <==> ci in r.Lists()[t] {}
    SameMembersLength(held[t], r.Final(t));
  }

  /** The fair share: with a quota, an expert ends with the quota, or an even share of the chunks, or
      every chunk its trigger lets through. */
  lemma FairShareFloor(v: Round, held: seq<seq<nat>>, t: nat)
    requires Allocates(v, held) && t < |v.team| && v.quota > 0
    ensures |held[t]| >= v.quota || |held[t]| * |v.team| >= |v.chunks|
      || forall ci: nat :: v.Willing(t, ci) ==> ci in held[t]
  {
    HeldIsFinal(v, held, t);
    ShareIsEven(v, |held[t]|);
    AllocationInvariant(RouterFor(v.chunks, v.team, v.quota, v.globMatch), t);
    forall ci: nat
      ensures RouterFor(v.chunks, v.team, v.quota, v.globMatch).accepts(t, ci) <==> v.Willing(t, ci)
    {
      RouterIsRound(v, t, ci);
    }
  }

  lemma SameMembersLength(a: seq<nat>, b: seq<nat>)
    requires NoDuplicates(a) && NoDuplicates(b) && forall x :: x in a <==> x in b
    ensures |a| == |b|
  {
    MembersCount(a);
    MembersCount(b);
    assert Members(a) == Members(b);
  }

  // ----- what content patterns see -----

  lemma EndsBeforeBreak(a: string, b: string, p: string, i: nat)
    requires '\n' !in p && i <= |a| && p <= (a + "\n" + b)[i..]
    ensures i + |p| <= |a|
  {
    var s := a + "\n" + b;
    assert s[|a|] == '\n' && forall k :: i <= k < i + |p| ==> s[k] == p[k - i] && p[k - i] in p;
  }

  lemma ContainsJoin(a: string, b: string, p: string)
    requires '\n' !in p
    ensures Contains(a + "\n" + b, p) <==> Contains(a, p) || Contains(b, p)
  {
    var s := a + "\n" + b;
    if i :| 0 <= i <= |a| && p <= a[i..] {
      assert s[i..][..|p|] == a[i..][..|p|];
    }
    if i :| 0 <= i <= |b| && p <= b[i..] {
      assert s[|a| + 1 + i..] == b[i..];
    }
    if i :| 0 <= i <= |s| && p <= s[i..] {
      if i > |a| {
        assert s[i..] == b[i - |a| - 1..];
      } else {
        EndsBeforeBreak(a, b, p, i);
        assert a[i..][..|p|] == s[i..][..|p|];
      }
    }
  }

  lemma {:induction false} LinesContain(lines: seq<DiffLine>, rest: string, p: string)
    requires '\n' !in p
    ensures Contains(RenderLines(lines) + rest, p) <==>
      Contains(rest, p) || exists i :: 0 <= i < |lines| && Contains(lines[i].content, p)
  {
    if lines == [] {
      assert RenderLines(lines) + rest == rest;
    } else {
      var tail := RenderLines(lines[1..]) + rest;
      assert RenderLines(lines) + rest == lines[0].content + "\n" + tail;
      ContainsJoin(lines[0].content, tail, p);
      LinesContain(lines[1..], rest, p);
      assert forall i :: 0 <= i < |lines[1..]| ==> lines[1..][i] == lines[i + 1];
    }
  }

  ghost predicate HunkContains(hunk: DiffHunk, p: string) {
    Contains(hunk.header, p) || exists i :: 0 <= i < |hunk.lines| && Contains(hunk.lines[i].content, p)
  }

  lemma {:induction false} HunksContain(hunks: seq<DiffHunk>, p: string)
    requires '\n' !in p
    ensures Contains(RenderHunks(hunks), p) <==> p == "" || exists k :: 0 <= k < |hunks| && HunkContains(hunks[k], p)
  {
    if hunks == [] {
      if p == "" { assert p <= ""[0..]; }
    } else {
      var h, rest := hunks[0], RenderHunks(hunks[1..]);
      assert RenderHunks(hunks) == h.header + "\n" + (RenderLines(h.lines) + rest);
      ContainsJoin(h.header, RenderLines(h.lines) + rest, p);
      LinesContain(h.lines, rest, p);
      HunksContain(hunks[1..], p);
      assert forall k :: 0 <= k < |hunks[1..]| ==> hunks[1..][k] == hunks[k + 1];
    }
  }

  /** A one-line pattern is found exactly in the file header, a hunk header or a diff line. */
  lemma PatternFound(file: DiffFile, p: string)
    requires '\n' !in p && p != ""
    ensures Contains(RenderFileDiff(file), p) <==>
      || Contains("diff --git a/" + file.oldPath + " b/" + file.newPath, p)
      || exists k :: 0 <= k < |file.hunks| && HunkContains(file.hunks[k], p)
  {
    var header := "diff --git a/" + file.oldPath + " b/" + file.newPath;
    ContainsJoin(header, RenderHunks(file.hunks), p);
    HunksContain(file.hunks, p);
  }
}

/** The four-phase allocation of chunks to experts (src/diff/large_pr.rs, `route_chunks`),
    over chunk and expert numbers. */
module Routing {
  import opened Sequences

  /** One allocation problem: how many experts and chunks there are, the quota
      (`max_chunks_per_expert`, 0 for no limit), whether an expert's trigger accepts a chunk,
      which experts have content patterns, and whether a chunk contains one of them. */
  datatype Router = Router(
    experts: nat, chunks: nat, quota: nat,
    accepts: (nat, nat) -> bool, patterned: nat -> bool, contains: (nat, nat) -> bool)
  {
    predicate Matches(e: nat, ci: nat) {
      patterned(e) && contains(e, ci)
    }

    function Candidates(ci: nat): seq<nat> {
      Select(experts, (e: nat) => accepts(e, ci))
    }

    /** The round-robin owner of a chunk among the experts that accept it. */
    function Owner(ci: nat): Option<nat> {
      var candidates := Candidates(ci);
      if candidates == [] then None else Some(candidates[ci % |candidates|])
    }

    // ----- the closed form -----
    // An expert's chunks are a prefix of one fixed list: the chunks it owns, then those that
    // match its content patterns, then every other chunk it accepts. The quota only decides
    // how long the prefix is.

    predicate Owns(e: nat, ci: nat) {
      Owner(ci) == Some(e)
    }

    predicate Adds(e: nat, ci: nat) {
      Matches(e, ci) && !Owns(e, ci)
    }

    predicate Fills(e: nat, ci: nat) {
      accepts(e, ci) && !Owns(e, ci) && !Matches(e, ci)
    }

    function Owned(e: nat, k: nat): seq<nat> {
      Select(k, (ci: nat) => Owns(e, ci))
    }

    function Added(e: nat, k: nat): seq<nat> {
      Select(k, (ci: nat) => Adds(e, ci))
    }

    function Filler(e: nat, k: nat): seq<nat> {
      Select(k, (ci: nat) => Fills(e, ci))
    }

    /** What the expert holds when nothing is limited: owned, then content-matched. */
    function Base(e: nat): seq<nat> {
      Owned(e, chunks) + Added(e, chunks)
    }

    function Preference(e: nat): seq<nat> {
      Base(e) + Filler(e, chunks)
    }

    /** ceil(C / N), capped by the quota. */
    function FairShare(): nat
      requires experts > 0
    {
      Min((chunks + experts - 1) / experts, quota)
    }

    /** How far into its preference list an expert gets. */
    function Cut(e: nat): nat
      requires experts > 0
    {
      if quota == 0 then |Base(e)| else Min(quota, Max(|Base(e)|, FairShare()))
    }

    function Final(e: nat): seq<nat>
      requires experts > 0
    {
      Take(Preference(e), Cut(e))
    }

    /** The final lists of all experts. */
    function Lists(): seq<seq<nat>> {
      if experts == 0 then [] else seq(experts, e requires 0 <= e < experts => Final(e))
    }

    // ----- the four phases -----

    /** Phase 1, mandatory coverage: every chunk goes to its round-robin owner. */
    method CoveragePass() returns (lists: seq<seq<nat>>)
      ensures |lists| == experts
      ensures forall e :: 0 <= e < experts ==> lists[e] == Owned(e, chunks)
    {
      lists := seq(experts, _ => []);
      for ci := 0 to chunks
        invariant |lists| == experts
        invariant forall e :: 0 <= e < experts ==> lists[e] == Owned(e, ci)
      {
        var candidates := Candidates(ci);
        SelectMembers(experts, (e: nat) => accepts(e, ci));
        if candidates != [] {
          var owner := candidates[ci % |candidates|];
          assert owner in candidates;
          lists := lists[owner := lists[owner] + [ci]];
        }
      }
    }

    /** The expert's list once phase 2 has seen the first `k` chunks. */
    function WithContent(e: nat, k: nat): seq<nat> {
      var owned := Owned(e, chunks);
      owned + (if quota == 0 then Added(e, k) else Take(Added(e, k), Max(0, quota - |owned|)))
    }

    lemma WithContentMember(e: nat, ci: nat)
      requires ci < chunks
      ensures ci in WithContent(e, ci) <==> Owns(e, ci)
    {
      SelectMembers(chunks, (c: nat) => Owns(e, c));
      SelectMembers(ci, (c: nat) => Adds(e, c));
      var room := Max(0, quota - |Owned(e, chunks)|);
      assert forall x :: x in Take(Added(e, ci), room) ==> x in Added(e, ci);
    }

    lemma WithContentStep(e: nat, ci: nat)
      requires ci < chunks
      ensures WithContent(e, ci + 1) ==
        if Adds(e, ci) && (quota == 0 || |WithContent(e, ci)| < quota) then WithContent(e, ci) + [ci]
        else WithContent(e, ci)
    {
    }

    /** Offers one chunk to every expert whose content patterns it contains. */
    method OfferByContent(ci: nat, start: seq<seq<nat>>) returns (lists: seq<seq<nat>>)
      requires ci < chunks && |start| == experts
      requires forall e :: 0 <= e < experts ==> start[e] == WithContent(e, ci)
      ensures |lists| == experts
      ensures forall e :: 0 <= e < experts ==> lists[e] == WithContent(e, ci + 1)
    {
      lists := start;
      for e := 0 to experts
        invariant |lists| == experts
        invariant forall f :: 0 <= f < e ==> lists[f] == WithContent(f, ci + 1)
        invariant forall f :: e <= f < experts ==> lists[f] == WithContent(f, ci)
      {
        WithContentMember(e, ci);
        WithContentStep(e, ci);
        if patterned(e) && ci !in lists[e] {
          if contains(e, ci) && (quota == 0 || |lists[e]| < quota) {
            lists := lists[e := lists[e] + [ci]];
          }
        }
      }
    }

    lemma {:induction false} NothingToOffer(e: nat, k: nat)
      requires !patterned(e)
      ensures Added(e, k) == []
    {
      if k > 0 { NothingToOffer(e, k - 1); }
    }

    /** Phase 2, additive: a chunk also goes to the experts whose content patterns it contains. */
    method ContentPass(start: seq<seq<nat>>) returns (lists: seq<seq<nat>>)
      requires |start| == experts
      requires forall e :: 0 <= e < experts ==> start[e] == Owned(e, chunks)
      ensures |lists| == experts
      ensures forall e :: 0 <= e < experts ==> lists[e] == WithContent(e, chunks)
    {
      lists := start;
      var anyPatterns := exists e :: 0 <= e < experts && patterned(e);
      if anyPatterns {
        for ci := 0 to chunks
          invariant |lists| == experts
          invariant forall e :: 0 <= e < experts ==> lists[e] == WithContent(e, ci)
        {
          lists := OfferByContent(ci, lists);
        }
      } else {
        forall e | 0 <= e < experts ensures Added(e, chunks) == [] {
          NothingToOffer(e, chunks);
        }
      }
    }

    /** The first chunk the expert accepts and does not hold. */
    method FirstMissing(e: nat, held: seq<nat>) returns (next: Option<nat>)
      ensures next.Some? ==> next.value < chunks && next.value !in held && accepts(e, next.value)
      ensures next.Some? ==> forall ci: nat :: ci < next.value && accepts(e, ci) ==> ci in held
      ensures next.None? ==> forall ci: nat :: ci < chunks && accepts(e, ci) ==> ci in held
    {
      for ci := 0 to chunks
        invariant forall c: nat :: c < ci && accepts(e, c) ==> c in held
      {
        if ci !in held && accepts(e, ci) {
          return Some(ci);
        }
      }
      return None;
    }

    /** With the base list and the first `j` fillers held, the first missing chunk is filler `j`. */
    lemma NextFiller(e: nat, j: nat, next: Option<nat>)
      requires e < experts && j <= |Filler(e, chunks)|
      requires var held := Base(e) + Filler(e, chunks)[..j];
        && (next.Some? ==> next.value < chunks && next.value !in held && accepts(e, next.value))
        && (next.Some? ==> forall ci: nat :: ci < next.value && accepts(e, ci) ==> ci in held)
        && (next.None? ==> forall ci: nat :: ci < chunks && accepts(e, ci) ==> ci in held)
      ensures next == if j < |Filler(e, chunks)| then Some(Filler(e, chunks)[j]) else None
    {
      var filler := Filler(e, chunks);
      SelectMembers(chunks, (c: nat) => Owns(e, c));
      SelectMembers(chunks, (c: nat) => Adds(e, c));
      SelectMembers(chunks, (c: nat) => Fills(e, c));
      assert forall i :: 0 <= i < j ==> filler[..j][i] == filler[i] && filler[i] in filler[..j];
      if j < |filler| {
        assert filler[j] in filler;
        assert filler[j] !in Base(e) && filler[j] !in filler[..j];
      }
      if next.Some? {
        assert next.value in filler;
      }
    }

    /** Without the balance pass, what is kept is a prefix of the base list. */
    lemma WithContentKept(e: nat)
      requires quota > 0
      ensures Take(WithContent(e, chunks), quota) == Take(Base(e), quota)
      ensures |WithContent(e, chunks)| < quota ==> WithContent(e, chunks) == Base(e)
    {
    }

    /** Gives one expert the first chunks it accepts and does not hold, up to its fair share. */
    method FillUp(e: nat, start: seq<nat>) returns (held: seq<nat>)
      requires e < experts && quota > 0
      requires start == WithContent(e, chunks)
      ensures Take(held, quota) == Final(e)
    {
      held := start;
      var fairShare := FairShare();
      ghost var filler, j := Filler(e, chunks), 0;
      WithContentKept(e);
      assert Base(e) + filler[..0] == Base(e);
      while |held| < fairShare
        invariant j <= |filler|
        invariant if |start| < fairShare then held == Base(e) + filler[..j] && |held| <= fairShare else held == start
        decreases fairShare - |held|
      {
        var next := FirstMissing(e, held);
        NextFiller(e, j, next);
        if next.None? {
          break;
        }
        assert filler[..j + 1] == filler[..j] + [filler[j]];
        held, j := held + [next.value], j + 1;
      }
    }

    /** Phase 3, balance: idle experts get chunks they accept, up to their fair share. */
    method BalancePass(start: seq<seq<nat>>) returns (lists: seq<seq<nat>>)
      requires experts > 0 && quota > 0
      requires |start| == experts
      requires forall e :: 0 <= e < experts ==> start[e] == WithContent(e, chunks)
      ensures |lists| == experts
      ensures forall e :: 0 <= e < experts ==> Take(lists[e], quota) == Final(e)
    {
      lists := start;
      for e := 0 to experts
        invariant |lists| == experts
        invariant forall f :: 0 <= f < e ==> Take(lists[f], quota) == Final(f)
        invariant forall f :: e <= f < experts ==> lists[f] == WithContent(f, chunks)
      {
        var filled := FillUp(e, lists[e]);
        lists := lists[e := filled];
      }
    }

    /** Phase 4, quota: each expert keeps the head of its list. */
    method Truncate(start: seq<seq<nat>>) returns (lists: seq<seq<nat>>)
      requires quota > 0
      ensures |lists| == |start|
      ensures forall e :: 0 <= e < |start| ==> lists[e] == Take(start[e], quota)
    {
      lists := start;
      for e := 0 to |start|
        invariant |lists| == |start|
        invariant forall f :: 0 <= f < |start| ==> lists[f] == if f < e then Take(start[f], quota) else start[f]
      {
        if |lists[e]| > quota {
          lists := lists[e := lists[e][..quota]];
        }
      }
    }

    /** All four phases: every expert ends with its prefix of its preference list. */
    method Allocate() returns (lists: seq<seq<nat>>)
      requires experts > 0
      ensures lists == Lists()
    {
      lists := CoveragePass();
      lists := ContentPass(lists);
      if quota > 0 {
        lists := BalancePass(lists);
        lists := Truncate(lists);
      }
      assert |lists| == experts && forall e :: 0 <= e < experts ==> lists[e] == Final(e) == Lists()[e];
    }

    lemma PreferenceMembers(e: nat)
      ensures forall ci: nat :: ci in Preference(e) <==>
        ci < chunks && (Owns(e, ci) || Matches(e, ci) || accepts(e, ci))
      ensures forall ci: nat :: ci in Base(e) <==> ci < chunks && (Owns(e, ci) || Matches(e, ci))
    {
      SelectMembers(chunks, (c: nat) => Owns(e, c));
      SelectMembers(chunks, (c: nat) => Adds(e, c));
      SelectMembers(chunks, (c: nat) => Fills(e, c));
    }

    lemma FinalInRange(e: nat)
      requires experts > 0
      ensures forall i :: 0 <= i < |Final(e)| ==> Final(e)[i] < chunks
    {
      PreferenceMembers(e);
      assert forall i :: 0 <= i < |Final(e)| ==> Final(e)[i] == Preference(e)[i] && Preference(e)[i] in Preference(e);
    }

    lemma ListsInRange()
      ensures |Lists()| == experts
      ensures forall e, i :: 0 <= e < experts && 0 <= i < |Lists()[e]| ==> Lists()[e][i] < chunks
    {
      forall e: nat | e < experts ensures forall i :: 0 <= i < |Lists()[e]| ==> Lists()[e][i] < chunks {
        FinalInRange(e);
      }
    }
  }
}

/** What the four phases promise together, for every team, every trigger, every content match
    and every quota. */
module RoutingProperties {
  import opened Sequences
  import opened Routing

  ghost predicate Covered(r: Router, ci: nat) {
    exists e: nat :: e < r.experts && ci in r.Final(e)
  }

  /** Every trigger accepts every chunk. */
  ghost predicate Open(r: Router) {
    forall e: nat, ci: nat :: e < r.experts && ci < r.chunks ==> r.accepts(e, ci)
  }

  // ----- ownership -----

  lemma OwnerAccepts(r: Router, ci: nat)
    ensures r.Owner(ci).Some? ==> r.Owner(ci).value < r.experts && r.accepts(r.Owner(ci).value, ci)
    ensures r.Owner(ci).None? <==> forall e: nat :: e < r.experts ==> !r.accepts(e, ci)
  {
    var candidates := r.Candidates(ci);
    SelectMembers(r.experts, (e: nat) => r.accepts(e, ci));
    forall e: nat | e < r.experts && r.accepts(e, ci) ensures e in candidates {}
    if candidates != [] {
      assert candidates[0] in candidates && candidates[ci % |candidates|] in candidates;
    }
  }

  /** The experts below `n` whose trigger accepts the chunk. */
  ghost function AcceptingBelow(r: Router, n: nat, ci: nat): set<nat> {
    set e: nat | e < n && r.accepts(e, ci)
  }

  /** Round-robin: the experts whose trigger accepts the chunk are counted from 0, and the one with
      the chunk's number, modulo how many there are, owns it. */
  lemma OwnsInTurn(r: Router, e: nat, ci: nat)
    ensures r.Owns(e, ci) <==>
      && e < r.experts && r.accepts(e, ci)
      && |AcceptingBelow(r, r.experts, ci)| > 0
      && |AcceptingBelow(r, e, ci)| == ci % |AcceptingBelow(r, r.experts, ci)|
  {
    OwnerAccepts(r, ci);
    if e < r.experts && r.accepts(e, ci) {
      AcceptingRank(r, e, ci);
      CandidateRank(r.Candidates(ci), ci, |AcceptingBelow(r, e, ci)|);
    }
  }

  /** Among the candidates an expert has the number of accepting experts before it. */
  lemma AcceptingRank(r: Router, e: nat, ci: nat)
    requires e < r.experts && r.accepts(e, ci)
    ensures var candidates, rank := r.Candidates(ci), |AcceptingBelow(r, e, ci)|;
      && |candidates| == |AcceptingBelow(r, r.experts, ci)|
      && rank < |candidates| && candidates[rank] == e
      && forall i, j :: 0 <= i < j < |candidates| ==> candidates[i] < candidates[j]
  {
    var test := (d: nat) => r.accepts(d, ci);
    SelectMembers(r.experts, test);
    SelectCount(r.experts, test);
    SelectCount(e, test);
    SelectRank(r.experts, test, e);
    assert (set i: nat | i < r.experts && test(i)) == AcceptingBelow(r, r.experts, ci);
    assert (set i: nat | i < e && test(i)) == AcceptingBelow(r, e, ci);
  }

  lemma CandidateRank(candidates: seq<nat>, ci: nat, rank: nat)
    requires rank < |candidates|
    requires forall i, j :: 0 <= i < j < |candidates| ==> candidates[i] < candidates[j]
    ensures candidates[ci % |candidates|] == candidates[rank] <==> rank == ci % |candidates|
  {
  }

  lemma {:induction false} SelectAll(n: nat, test: nat -> bool)
    requires forall i: nat :: i < n ==> test(i)
    ensures |Select(n, test)| == n
    ensures forall i: nat :: i < n ==> Select(n, test)[i] == i
  {
    if n > 0 { SelectAll(n - 1, test); }
  }

  lemma {:induction false} SelectNone(n: nat, test: nat -> bool)
    requires forall i: nat :: i < n ==> !test(i)
    ensures Select(n, test) == []
  {
    if n > 0 { SelectNone(n - 1, test); }
  }

  /** With open triggers ownership is plain round-robin. */
  lemma OpenOwner(r: Router, ci: nat)
    requires Open(r) && ci < r.chunks && r.experts > 0
    ensures r.Owner(ci) == Some(ci % r.experts)
  {
    SelectAll(r.experts, (e: nat) => r.accepts(e, ci));
  }

  lemma {:induction false} MultiplesApart(a: nat, b: nat, n: nat)
    requires a < b
    ensures a * n + n <= b * n
  {
    if a + 1 < b {
      MultiplesApart(a, b - 1, n);
      assert b * n == (b - 1) * n + n;
    } else {
      assert b * n == a * n + n;
    }
  }

  lemma DivModUnique(k: nat, n: nat, q: nat, m: nat)
    requires n > 0 && m < n && k == q * n + m
    ensures k / n == q && k % n == m
  {
    var q', m' := k / n, k % n;
    assert k == q' * n + m' && m' < n;
    if q < q' {
      MultiplesApart(q, q', n);
    } else if q' < q {
      MultiplesApart(q', q, n);
    }
  }

  lemma DivModStep(k: nat, n: nat)
    requires n > 0
    ensures if k % n == n - 1 then (k + 1) / n == k / n + 1 && (k + 1) % n == 0
            else (k + 1) / n == k / n && (k + 1) % n == k % n + 1
  {
    var q, m := k / n, k % n;
    assert k == q * n + m;
    if m == n - 1 {
      assert (q + 1) * n == q * n + n;
      DivModUnique(k + 1, n, q + 1, 0);
    } else {
      DivModUnique(k + 1, n, q, m + 1);
    }
  }

  /** The quotient is below a bound exactly when the number is below that multiple. */
  lemma QuotientBound(k: nat, n: nat, bound: nat)
    requires n > 0
    ensures k / n < bound <==> k < n * bound
  {
    var q := k / n;
    assert k == q * n + k % n;
    if q < bound {
      MultiplesApart(q, bound, n);
    } else if bound < q {
      MultiplesApart(bound, q, n);
    }
  }

  /** With open triggers the ownership load is even. */
  lemma {:induction false} OpenLoad(r: Router, e: nat, k: nat)
    requires Open(r) && e < r.experts && k <= r.chunks
    ensures |r.Owned(e, k)| == k / r.experts + if e < k % r.experts then 1 else 0
  {
    if k == 0 {
      DivModUnique(0, r.experts, 0, 0);
    } else {
      OpenLoad(r, e, k - 1);
      OpenOwner(r, k - 1);
      DivModStep(k - 1, r.experts);
    }
  }

  // ----- every run keeps -----

  lemma NoDuplicatesConcat(a: seq<nat>, b: seq<nat>)
    requires NoDuplicates(a) && NoDuplicates(b)
    requires forall x :: x in a ==> x !in b
    ensures NoDuplicates(a + b)
  {
    assert forall i :: 0 <= i < |a| ==> a[i] in a;
    assert forall i :: 0 <= i < |b| ==> b[i] in b;
  }

  lemma PreferenceNoDuplicates(r: Router, e: nat)
    ensures NoDuplicates(r.Preference(e))
  {
    SelectMembers(r.chunks, (c: nat) => r.Owns(e, c));
    SelectMembers(r.chunks, (c: nat) => r.Adds(e, c));
    SelectMembers(r.chunks, (c: nat) => r.Fills(e, c));
    r.PreferenceMembers(e);
    NoDuplicatesConcat(r.Owned(e, r.chunks), r.Added(e, r.chunks));
    NoDuplicatesConcat(r.Base(e), r.Filler(e, r.chunks));
  }

  /** No chunk twice, every chunk justified by the trigger or by content, never more than the
      quota, and never less than the fair share unless the expert already holds everything it accepts. */
  lemma AllocationInvariant(r: Router, e: nat)
    requires e < r.experts
    ensures NoDuplicates(r.Final(e))
    ensures forall ci: nat :: ci in r.Final(e) ==> ci < r.chunks && (r.accepts(e, ci) || r.Matches(e, ci))
    ensures r.quota > 0 ==> |r.Final(e)| <= r.quota
    ensures |r.Final(e)| >= r.FairShare() || forall ci: nat :: ci < r.chunks && r.accepts(e, ci) ==> ci in r.Final(e)
  {
    PreferenceNoDuplicates(r, e);
    r.PreferenceMembers(e);
    var p, f := r.Preference(e), r.Final(e);
    assert forall ci :: ci in f ==> ci in p;
    forall ci: nat | r.Owns(e, ci) ensures r.accepts(e, ci) {
      OwnerAccepts(r, ci);
    }
    if r.quota > 0 && |f| < r.FairShare() {
      assert f == p;
    }
  }

  /** The documentation says no expert gets more than its fair share. That holds exactly when
      the chunks it owns and matches, cut at the quota, are no more than its fair share. */
  lemma FairShareBound(r: Router, e: nat)
    requires e < r.experts && r.quota > 0
    ensures |r.Final(e)| <= r.FairShare() <==> Min(|r.Base(e)|, r.quota) <= r.FairShare()
  {
  }

  /** Two chunks only the first expert accepts: it gets both, twice its fair share. */
  lemma FairShareExceeded()
    ensures var r := Router(2, 2, 2, (e: nat, ci: nat) => e == 0, (e: nat) => false, (e: nat, ci: nat) => false);
      r.FairShare() == 1 && |r.Final(0)| == 2
  {
  }

  /** With open triggers and no content matches the whole team works evenly: every expert ends
      with exactly its fair share. */
  lemma EvenTeam(r: Router, e: nat)
    requires Open(r) && e < r.experts && r.quota > 0
    requires forall ci: nat :: ci < r.chunks ==> !r.Matches(e, ci)
    ensures |r.Final(e)| == r.FairShare()
  {
    var n, c := r.experts, r.chunks;
    OpenLoad(r, e, c);
    SelectNone(c, (ci: nat) => r.Adds(e, ci));
    PreferenceLength(r, e);
    CeilingDivision(c, n);
  }

  lemma CeilingDivision(c: nat, n: nat)
    requires n > 0
    ensures (c + n - 1) / n == c / n + if c % n > 0 then 1 else 0
    ensures (c + n - 1) / n <= c
  {
    var q, m := c / n, c % n;
    assert c == q * n + m;
    if m > 0 {
      assert (q + 1) * n == q * n + n;
      DivModUnique(c + n - 1, n, q + 1, m - 1);
      AtLeastFactor(q, n);
    } else {
      DivModUnique(c + n - 1, n, q, n - 1);
      AtLeastFactor(q, n);
    }
  }

  lemma AtLeastFactor(q: nat, n: nat)
    requires n > 0
    ensures q <= q * n
  {
  }

  /** With open triggers every chunk is on every preference list. */
  lemma PreferenceLength(r: Router, e: nat)
    requires Open(r) && e < r.experts
    ensures |r.Preference(e)| == r.chunks
  {
    PreferenceNoDuplicates(r, e);
    r.PreferenceMembers(e);
    var p := r.Preference(e);
    forall ci: nat | ci in p ensures ci < r.chunks {}
    MembersCount(p);
    BelowCount(r.chunks);
    assert Members(p) == Below(r.chunks);
  }

  // ----- counting -----

  lemma {:induction false} FlattenLength<T>(lists: seq<seq<T>>, bound: nat)
    requires forall i :: 0 <= i < |lists| ==> |lists[i]| <= bound
    ensures |Flatten(lists)| <= |lists| * bound
  {
    if lists != [] {
      FlattenLength(lists[1..], bound);
      MultiplesApart(|lists| - 1, |lists|, bound);
    }
  }

  // ----- coverage -----

  lemma TakesUpTo(p: seq<nat>, cut: nat, rank: nat)
    requires NoDuplicates(p) && rank < |p|
    ensures p[rank] in Take(p, cut) <==> rank < cut
  {
    var f := Take(p, cut);
    if rank < cut {
      assert f[rank] == p[rank];
    } else {
      assert forall i :: 0 <= i < |f| ==> f[i] == p[i] && p[i] != p[rank];
    }
  }

  /** A chunk's owner keeps it exactly when fewer earlier chunks than the quota went to that owner. */
  lemma OwnerKeeps(r: Router, ci: nat, e: nat)
    requires ci < r.chunks && r.Owner(ci) == Some(e)
    ensures e < r.experts
    ensures ci in r.Final(e) <==> r.quota == 0 || |r.Owned(e, ci)| < r.quota
  {
    OwnerAccepts(r, ci);
    SelectRank(r.chunks, (c: nat) => r.Owns(e, c), ci);
    PreferenceNoDuplicates(r, e);
    var rank, p := |r.Owned(e, ci)|, r.Preference(e);
    assert p[rank] == ci && rank < |r.Base(e)|;
    TakesUpTo(p, r.Cut(e), rank);
  }

  /** All owners keep all their chunks exactly when no expert owns more chunks than the quota. */
  lemma AllOwnersKeep(r: Router)
    requires r.experts > 0
    ensures (forall ci: nat :: ci < r.chunks && r.Owner(ci).Some? ==> ci in r.Final(r.Owner(ci).value))
      <==> r.quota == 0 || forall e: nat :: e < r.experts ==> |r.Owned(e, r.chunks)| <= r.quota
  {
    forall ci: nat | ci < r.chunks && r.Owner(ci).Some?
      ensures |r.Owned(r.Owner(ci).value, ci)| < |r.Owned(r.Owner(ci).value, r.chunks)|
      ensures ci in r.Final(r.Owner(ci).value) <==> r.quota == 0 || |r.Owned(r.Owner(ci).value, ci)| < r.quota
      ensures r.Owner(ci).value < r.experts
    {
      var e := r.Owner(ci).value;
      OwnerKeeps(r, ci, e);
      SelectRank(r.chunks, (c: nat) => r.Owns(e, c), ci);
    }
    if r.quota > 0 {
      forall e: nat | e < r.experts && |r.Owned(e, r.chunks)| > r.quota
        ensures exists ci: nat :: ci < r.chunks && r.Owner(ci) == Some(e) && ci !in r.Final(e)
      {
        var owned := r.Owned(e, r.chunks);
        var ci := owned[r.quota];
        SelectMembers(r.chunks, (c: nat) => r.Owns(e, c));
        assert ci in owned;
        SelectRank(r.chunks, (c: nat) => r.Owns(e, c), ci);
        OwnerKeeps(r, ci, e);
        assert |r.Owned(e, ci)| == r.quota;
      }
    }
  }

  /** The room the phases leave an expert for a chunk: it owns fewer earlier chunks than the quota;
      or it matches the chunk, and what it owns together with the earlier matches stays below the
      quota; or it only accepts the chunk, and everything it prefers stays below its fair share. */
  ghost predicate HasRoom(r: Router, e: nat, ci: nat)
    requires r.experts > 0
  {
    || (r.Owns(e, ci) && |r.Owned(e, ci)| < r.quota)
    || (r.Adds(e, ci) && |r.Owned(e, r.chunks)| + |r.Added(e, ci)| < r.quota)
    || (r.Fills(e, ci) && |r.Base(e)| + |r.Filler(e, ci)| < r.FairShare())
  }

  /** An expert ends with a chunk exactly when the phases leave it room for that chunk. */
  lemma HeldExactly(r: Router, e: nat, ci: nat)
    requires e < r.experts && ci < r.chunks && r.quota > 0
    ensures ci in r.Final(e) <==> HasRoom(r, e, ci)
  {
    var p, owned, base := r.Preference(e), |r.Owned(e, r.chunks)|, |r.Base(e)|;
    PreferenceNoDuplicates(r, e);
    r.PreferenceMembers(e);
    if r.Owns(e, ci) {
      SelectRank(r.chunks, (c: nat) => r.Owns(e, c), ci);
      assert p[|r.Owned(e, ci)|] == ci;
      TakesUpTo(p, r.Cut(e), |r.Owned(e, ci)|);
    } else if r.Adds(e, ci) {
      SelectRank(r.chunks, (c: nat) => r.Adds(e, c), ci);
      assert p[owned + |r.Added(e, ci)|] == ci;
      TakesUpTo(p, r.Cut(e), owned + |r.Added(e, ci)|);
    } else if r.Fills(e, ci) {
      SelectRank(r.chunks, (c: nat) => r.Fills(e, c), ci);
      assert p[base + |r.Filler(e, ci)|] == ci;
      TakesUpTo(p, r.Cut(e), base + |r.Filler(e, ci)|);
    } else {
      assert ci !in p && forall x :: x in r.Final(e) ==> x in p;
    }
  }

  /** Without a quota an expert ends with what it owns and what matches its content patterns. */
  lemma HeldUnlimited(r: Router, e: nat, ci: nat)
    requires e < r.experts && ci < r.chunks && r.quota == 0
    ensures ci in r.Final(e) <==> r.Owns(e, ci) || r.Matches(e, ci)
  {
    r.PreferenceMembers(e);
    assert r.Final(e) == r.Base(e);
  }

  /** What an expert prefers a chunk for: owning it, its content, or only its trigger. */
  function Rank(r: Router, e: nat, ci: nat): nat {
    if r.Owns(e, ci) then 0 else if r.Matches(e, ci) then 1 else 2
  }

  /** An expert's list goes by rank, and by chunk number within a rank. */
  lemma FinalOrdered(r: Router, e: nat, g: nat, h: nat)
    requires e < r.experts && g < h < |r.Final(e)|
    ensures var c, d := r.Final(e)[g], r.Final(e)[h];
      Rank(r, e, c) < Rank(r, e, d) || (Rank(r, e, c) == Rank(r, e, d) && c < d)
  {
    SelectMembers(r.chunks, (c: nat) => r.Owns(e, c));
    SelectMembers(r.chunks, (c: nat) => r.Adds(e, c));
    SelectMembers(r.chunks, (c: nat) => r.Fills(e, c));
    PreferenceAt(r, e, g);
    PreferenceAt(r, e, h);
  }

  lemma PreferenceAt(r: Router, e: nat, g: nat)
    requires g < |r.Preference(e)|
    ensures var a, b, c := r.Owned(e, r.chunks), r.Added(e, r.chunks), r.Filler(e, r.chunks);
      if g < |a| then r.Preference(e)[g] == a[g] && Rank(r, e, a[g]) == 0
      else if g < |a| + |b| then r.Preference(e)[g] == b[g - |a|] && Rank(r, e, b[g - |a|]) == 1
      else r.Preference(e)[g] == c[g - |a| - |b|] && Rank(r, e, c[g - |a| - |b|]) == 2
  {
    var a, b, c := r.Owned(e, r.chunks), r.Added(e, r.chunks), r.Filler(e, r.chunks);
    SelectMembers(r.chunks, (ci: nat) => r.Owns(e, ci));
    SelectMembers(r.chunks, (ci: nat) => r.Adds(e, ci));
    SelectMembers(r.chunks, (ci: nat) => r.Fills(e, ci));
    if g < |a| {
      assert a[g] in a;
    } else if g < |a| + |b| {
      assert b[g - |a|] in b;
    } else {
      assert c[g - |a| - |b|] in c;
    }
  }

  /** The coverage guarantee for arbitrary triggers: a chunk has a reviewer exactly when the phases
      leave some expert room for it. */
  lemma CoveredExactly(r: Router, ci: nat)
    requires r.experts > 0 && ci < r.chunks && r.quota > 0
    ensures Covered(r, ci) <==> exists e: nat :: e < r.experts && HasRoom(r, e, ci)
  {
    forall e: nat | e < r.experts ensures ci in r.Final(e) <==> HasRoom(r, e, ci) {
      HeldExactly(r, e, ci);
    }
  }

  /** A chunk its owner drops is not lost: phase 3 hands chunk 2 to the idle expert. */
  lemma DroppedByOwnerKeptByTeam()
    ensures var r := Router(2, 3, 1, (e: nat, ci: nat) => e == 0 || ci == 2,
                            (e: nat) => false, (e: nat, ci: nat) => false);
      r.Owner(2) == Some(0) && 2 !in r.Final(0) && Covered(r, 2)
  {
    var r := Router(2, 3, 1, (e: nat, ci: nat) => e == 0 || ci == 2,
                    (e: nat) => false, (e: nat, ci: nat) => false);
    OwnerKeeps(r, 2, 0);
    HeldExactly(r, 1, 2);
    assert HasRoom(r, 1, 2);
  }

  /** With no limit, a chunk is covered exactly when some expert accepts it or matches its content. */
  lemma UnlimitedCoverage(r: Router, ci: nat)
    requires r.experts > 0 && r.quota == 0 && ci < r.chunks
    ensures Covered(r, ci) <==> exists e: nat :: e < r.experts && (r.accepts(e, ci) || r.Matches(e, ci))
  {
    OwnerAccepts(r, ci);
    forall e: nat | e < r.experts ensures ci in r.Final(e) <==> r.Owns(e, ci) || r.Matches(e, ci) {
      r.PreferenceMembers(e);
      assert r.Final(e) == r.Base(e);
    }
    if r.Owner(ci).Some? {
      assert r.Owns(r.Owner(ci).value, ci);
    }
  }

  /** A quota that leaves room for fewer chunks than there are cannot cover them all. */
  lemma Pigeonhole(r: Router)
    requires r.experts > 0 && r.quota > 0
    requires forall ci: nat :: ci < r.chunks ==> Covered(r, ci)
    ensures r.chunks <= r.experts * r.quota
  {
    var lists := r.Lists();
    forall e: nat | e < r.experts ensures |lists[e]| <= r.quota {
      AllocationInvariant(r, e);
    }
    FlattenLength(lists, r.quota);
    MembersCount(Flatten(lists));
    BelowCount(r.chunks);
    forall ci: nat | ci < r.chunks ensures ci in Flatten(lists) {
      assert Covered(r, ci);
      var e: nat :| e < r.experts && ci in r.Final(e);
      FlattenMember(lists, e, ci);
    }
    SubsetCount(Below(r.chunks), Members(Flatten(lists)));
  }

  /** The coverage guarantee: with open triggers every chunk stays with its round-robin owner,
      and so is covered, exactly when the quota is 0 or C <= N * quota. */
  lemma CoverageGuarantee(r: Router)
    requires Open(r) && r.experts > 0
    ensures r.quota == 0 || r.chunks <= r.experts * r.quota ==>
      forall ci: nat :: ci < r.chunks ==> ci in r.Final(ci % r.experts) && Covered(r, ci)
    ensures (forall ci: nat :: ci < r.chunks ==> Covered(r, ci)) <==> r.quota == 0 || r.chunks <= r.experts * r.quota
  {
    if r.quota == 0 || r.chunks <= r.experts * r.quota {
      forall ci: nat | ci < r.chunks ensures ci in r.Final(ci % r.experts) && Covered(r, ci) {
        var e := ci % r.experts;
        OpenOwner(r, ci);
        OwnerKeeps(r, ci, e);
        OpenLoad(r, e, ci);
        QuotientBound(ci, r.experts, r.quota);
      }
    } else if forall ci: nat :: ci < r.chunks ==> Covered(r, ci) {
      Pigeonhole(r);
    }
  }

  /** The comment on quota truncation suggests that chunks are lost only when C > N * quota.
      With triggers that is not so: here C = N * quota and chunk 1 has no reviewer. */
  lemma LostWithinCapacity()
    ensures var r := Router(2, 2, 1, (e: nat, ci: nat) => e == 0, (e: nat) => false, (e: nat, ci: nat) => false);
      r.chunks <= r.experts * r.quota && r.accepts(0, 1) && !Covered(r, 1)
  {
  }

  // ----- the quota -----

  /** The preference lists do not depend on the quota. */
  lemma QuotaFree(r: Router, quota: nat, e: nat)
    ensures r.(quota := quota).Base(e) == r.Base(e)
    ensures r.(quota := quota).Preference(e) == r.Preference(e)
  {
    var s := r.(quota := quota);
    forall ci: nat ensures s.Owner(ci) == r.Owner(ci) {
      SelectSame(r.experts, (e: nat) => r.accepts(e, ci), (e: nat) => s.accepts(e, ci));
    }
    SelectSame(r.chunks, (c: nat) => r.Owns(e, c), (c: nat) => s.Owns(e, c));
    SelectSame(r.chunks, (c: nat) => r.Adds(e, c), (c: nat) => s.Adds(e, c));
    SelectSame(r.chunks, (c: nat) => r.Fills(e, c), (c: nat) => s.Fills(e, c));
  }

  /** Raising the quota only ever extends an expert's list. */
  lemma QuotaMonotone(r: Router, low: nat, high: nat, e: nat)
    requires e < r.experts && 1 <= low <= high
    ensures r.(quota := low).Final(e) <= r.(quota := high).Final(e)
  {
    QuotaFree(r, low, e);
    QuotaFree(r, high, e);
  }

  /** Raising the quota, or lifting it with 0, never uncovers a chunk. */
  lemma CoverageMonotone(r: Router, low: nat, high: nat, ci: nat)
    requires r.experts > 0 && 1 <= low && (high == 0 || low <= high) && ci < r.chunks
    requires Covered(r.(quota := low), ci)
    ensures Covered(r.(quota := high), ci)
  {
    var a, b := r.(quota := low), r.(quota := high);
    var e: nat :| e < r.experts && ci in a.Final(e);
    if high == 0 {
      AllocationInvariant(a, e);
      assert b.accepts(e, ci) || b.Matches(e, ci);
      UnlimitedCoverage(b, ci);
    } else {
      QuotaMonotone(r, low, high, e);
      assert ci in b.Final(e);
    }
  }
}

/** Greedy packing of a list into consecutive runs under a budget: the algorithm
    both chunkers run, once over files and once over the hunks of one file. */
module Packing {
  import opened Sequences
  import opened DiffModel

  /** `usize::saturating_add`. */
  function SaturatingAdd(a: usize, b: usize): usize {
    if a + b > USIZE_MAX then USIZE_MAX else a + b
  }

  /** The true token sum of a run. */
  function Cost<T>(cost: T -> usize, run: seq<T>): nat {
    if run == [] then 0 else Cost(cost, run[..|run| - 1]) + cost(run[|run| - 1])
  }

  /** A saturating accumulator holds at most `USIZE_MAX`, so a budget of exactly
      `USIZE_MAX` is never exceeded; any smaller budget is compared with the true sum. */
  predicate Exceeds(total: nat, budget: usize) {
    budget < USIZE_MAX && total > budget
  }

  /** What the accumulator holds when the true sum is `total`. */
  function Saturated(total: nat): usize {
    if total > USIZE_MAX then USIZE_MAX else total
  }

  /** The saturating accumulator decides "would exceed the budget" as the true sum does. */
  lemma SaturationDecides(total: nat, x: usize, budget: usize)
    ensures SaturatingAdd(Saturated(total), x) == Saturated(total + x)
    ensures SaturatingAdd(Saturated(total), x) > budget <==> Exceeds(total + x, budget)
  {
  }

  /** The runs produced for `rest` when the run `cur` is still open. */
  function Pack<T>(cost: T -> usize, budget: usize, cur: seq<T>, rest: seq<T>): seq<seq<T>>
    decreases |rest|
  {
    if rest == [] then
      if cur == [] then [] else [cur]
    else if cur != [] && Exceeds(Cost(cost, cur) + cost(rest[0]), budget) then
      [cur] + Pack(cost, budget, [rest[0]], rest[1..])
    else
      Pack(cost, budget, cur + [rest[0]], rest[1..])
  }

  /** One step of packing, in terms of a position in the list. */
  lemma PackStep<T>(cost: T -> usize, budget: usize, cur: seq<T>, list: seq<T>, i: nat)
    requires i < |list|
    ensures Pack(cost, budget, cur, list[i..]) ==
      if cur != [] && Exceeds(Cost(cost, cur) + cost(list[i]), budget)
      then [cur] + Pack(cost, budget, [list[i]], list[i + 1..])
      else Pack(cost, budget, cur + [list[i]], list[i + 1..])
    ensures [] + [list[i]] == [list[i]]
  {
  }

  lemma {:induction false} CostConcat<T>(cost: T -> usize, a: seq<T>, b: seq<T>)
    ensures Cost(cost, a + b) == Cost(cost, a) + Cost(cost, b)
  {
    if b == [] {
      assert a + b == a;
    } else {
      assert (a + b)[..|a + b| - 1] == a + b[..|b| - 1];
      CostConcat(cost, a, b[..|b| - 1]);
    }
  }

  lemma CostOne<T>(cost: T -> usize, x: T)
    ensures Cost(cost, [x]) == cost(x)
  {
    assert [x][..0] == [];
    assert Cost(cost, [x]) == Cost(cost, []) + cost(x);
  }

  lemma {:induction false} CostElement<T>(cost: T -> usize, run: seq<T>, i: nat)
    requires i < |run|
    ensures cost(run[i]) <= Cost(cost, run)
  {
    if i < |run| - 1 {
      assert run[..|run| - 1][i] == run[i];
      CostElement(cost, run[..|run| - 1], i);
    }
  }

  /** Nothing is lost, added or reordered, and no run is empty. */
  lemma {:induction false} PackConserves<T>(cost: T -> usize, budget: usize, cur: seq<T>, rest: seq<T>)
    ensures Flatten(Pack(cost, budget, cur, rest)) == cur + rest
    ensures forall i :: 0 <= i < |Pack(cost, budget, cur, rest)| ==> Pack(cost, budget, cur, rest)[i] != []
    decreases |rest|
  {
    if rest == [] {
      assert Flatten([cur]) == cur + Flatten([]);
    } else if cur != [] && Exceeds(Cost(cost, cur) + cost(rest[0]), budget) {
      PackConserves(cost, budget, [rest[0]], rest[1..]);
      assert Pack(cost, budget, cur, rest)[1..] == Pack(cost, budget, [rest[0]], rest[1..]);
      assert [rest[0]] + rest[1..] == rest;
    } else {
      PackConserves(cost, budget, cur + [rest[0]], rest[1..]);
      assert cur + [rest[0]] + rest[1..] == cur + rest;
    }
  }

  /** A run the packer may produce: within budget, or a single element that cannot be split. */
  ghost predicate Admissible<T>(cost: T -> usize, budget: usize, run: seq<T>) {
    |run| <= 1 || Cost(cost, run) <= budget
  }

  /** Below the largest budget every run is admissible, so only an oversized element
      standing alone can push a run over the budget. */
  lemma {:induction false} PackAdmissible<T>(cost: T -> usize, budget: usize, cur: seq<T>, rest: seq<T>)
    requires budget < USIZE_MAX
    requires Admissible(cost, budget, cur)
    ensures forall i :: 0 <= i < |Pack(cost, budget, cur, rest)| ==>
      Admissible(cost, budget, Pack(cost, budget, cur, rest)[i])
    decreases |rest|
  {
    if rest == [] {
    } else if cur != [] && Exceeds(Cost(cost, cur) + cost(rest[0]), budget) {
      PackAdmissible(cost, budget, [rest[0]], rest[1..]);
    } else {
      CostConcat(cost, cur, [rest[0]]);
      PackAdmissible(cost, budget, cur + [rest[0]], rest[1..]);
    }
  }

  /** An open run stays at the front of the run that closes it. */
  lemma {:induction false} PackOpensWith<T>(cost: T -> usize, budget: usize, cur: seq<T>, rest: seq<T>)
    requires cur != []
    ensures Pack(cost, budget, cur, rest) != [] && cur <= Pack(cost, budget, cur, rest)[0]
    decreases |rest|
  {
    if rest != [] && !Exceeds(Cost(cost, cur) + cost(rest[0]), budget) {
      PackOpensWith(cost, budget, cur + [rest[0]], rest[1..]);
    }
  }

  /** A run was closed only because the next element did not fit, so two neighbouring runs
      never fit into one. */
  lemma {:induction false} PackNeighbours<T>(cost: T -> usize, budget: usize, cur: seq<T>, rest: seq<T>, i: nat)
    requires i + 1 < |Pack(cost, budget, cur, rest)|
    ensures var p := Pack(cost, budget, cur, rest);
      Cost(cost, p[i]) + Cost(cost, p[i + 1]) > budget
    decreases |rest|
  {
    if rest == [] {
    } else if cur != [] && Exceeds(Cost(cost, cur) + cost(rest[0]), budget) {
      if i == 0 {
        var tail := Pack(cost, budget, [rest[0]], rest[1..]);
        PackOpensWith(cost, budget, [rest[0]], rest[1..]);
        CostElement(cost, tail[0], 0);
      } else {
        PackNeighbours(cost, budget, [rest[0]], rest[1..], i - 1);
      }
    } else {
      PackNeighbours(cost, budget, cur + [rest[0]], rest[1..], i);
    }
  }

  /** Opening a run later never costs a run, and dropping the open part of a run saves at most one.
      The two halves need each other. */
  lemma {:induction false} PackHeadStart<T>(cost: T -> usize, budget: usize, u: seq<T>, v: seq<T>, rest: seq<T>)
    requires v != []
    ensures |Pack(cost, budget, v, rest)| <= |Pack(cost, budget, u + v, rest)| <= 1 + |Pack(cost, budget, v, rest)|
    decreases |rest|
  {
    if rest != [] {
      var x := rest[0];
      CostConcat(cost, u, v);
      assert (u + v) + [x] == u + (v + [x]);
      PackHeadStart(cost, budget, u, v + [x], rest[1..]);
      PackHeadStart(cost, budget, v, [x], rest[1..]);
    }
  }

  /** An admissible run is packed as a whole when nothing is open. */
  lemma {:induction false} PackKeepsWhole<T>(cost: T -> usize, budget: usize, cur: seq<T>, run: seq<T>, rest: seq<T>)
    requires Admissible(cost, budget, cur + run)
    ensures Pack(cost, budget, cur, run + rest) == Pack(cost, budget, cur + run, rest)
    decreases |run|
  {
    if run == [] {
      assert run + rest == rest && cur + run == cur;
    } else {
      var x := run[0];
      assert (run + rest)[0] == x && (run + rest)[1..] == run[1..] + rest;
      assert (cur + [x]) + run[1..] == cur + run;
      CostConcat(cost, cur, [x]);
      CostConcat(cost, cur + [x], run[1..]);
      PackKeepsWhole(cost, budget, cur + [x], run[1..], rest);
    }
  }

  /** Greedy packing is optimal: no division of the list into consecutive admissible runs
      uses fewer runs. */
  lemma {:induction false} PackOptimal<T>(cost: T -> usize, budget: usize, split: seq<seq<T>>)
    requires forall i :: 0 <= i < |split| ==> Admissible(cost, budget, split[i])
    ensures |Pack(cost, budget, [], Flatten(split))| <= |split|
  {
    if split != [] {
      var run, rest := split[0], Flatten(split[1..]);
      PackOptimal(cost, budget, split[1..]);
      assert [] + run == run;
      PackKeepsWhole(cost, budget, [], run, rest);
      if run != [] && rest != [] {
        assert [] + [rest[0]] == [rest[0]];
        PackHeadStart(cost, budget, run, [rest[0]], rest[1..]);
      }
    }
  }
}

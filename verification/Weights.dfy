/** Automatic weight allocation for a new team (src/actions/init.rs:493-509), with the
    percentages as exact rationals rounded half up. */
module Weights {
  import opened Sequences
  import opened DiffModel

  function Sum(ws: seq<nat>): nat {
    if ws == [] then 0 else Sum(ws[..|ws| - 1]) + ws[|ws| - 1]
  }

  /** round(100 * w / total), half up. */
  function Percent(w: nat, total: nat): nat
    requires total > 0
  {
    (200 * w + total) / (2 * total)
  }

  function Percents(ws: seq<nat>, total: nat): seq<nat>
    requires total > 0
  {
    seq(|ws|, i requires 0 <= i < |ws| => Percent(ws[i], total))
  }

  /** The position of the last largest weight. */
  function LastMax(ws: seq<nat>): (m: nat)
    requires ws != []
    ensures m < |ws| && forall i :: 0 <= i < |ws| ==> ws[i] <= ws[m]
    ensures forall i :: m < i < |ws| ==> ws[i] < ws[m]
  {
    if |ws| == 1 then 0
    else
      var m := LastMax(ws[..|ws| - 1]);
      assert forall i :: 0 <= i < |ws| - 1 ==> ws[..|ws| - 1][i] == ws[i];
      if ws[|ws| - 1] >= ws[m] then |ws| - 1 else m
  }

  /** The `as i8` cast: it wraps around. */
  function ToI8(x: int): int {
    (x + 128) % 256 - 128
  }

  function Clamp(x: int): u8 {
    if x < 0 then 0 else if x > 255 then 255 else x
  }

  /** Shifts one largest weight by what is missing from 100, through the cast and the clamp. */
  function Corrected(ws: seq<nat>): seq<nat> {
    if Sum(ws) == 100 || ws == [] then ws
    else ws[LastMax(ws) := Clamp(ws[LastMax(ws)] + ToI8(100 - Sum(ws)))]
  }

  method AutoWeights(defaults: seq<u8>) returns (weights: seq<u8>)
    requires defaults != [] ==> Sum(defaults) > 0
    ensures weights == if defaults == [] then [] else Corrected(Percents(defaults, Sum(defaults)))
    ensures |weights| == |defaults|
  {
    if defaults == [] {
      return [];
    }
    var total := Sum(defaults);
    var percents := Percents(defaults, total);
    forall i | 0 <= i < |percents| ensures percents[i] <= 100 {
      SumElement(defaults, i);
      PercentBounds(defaults[i], total);
    }
    weights := percents;
    var sum: int := Sum(percents);
    if sum != 100 {
      var diff := ToI8(100 - sum);
      var m := LastMax(percents);
      weights := weights[m := Clamp(weights[m] + diff)];
    }
  }

  lemma {:induction false} SumElement(ws: seq<nat>, i: nat)
    requires i < |ws|
    ensures ws[i] <= Sum(ws)
  {
    if i < |ws| - 1 { SumElement(ws[..|ws| - 1], i); }
  }

  lemma {:induction false} SumUpdate(ws: seq<nat>, i: nat, v: nat)
    requires i < |ws|
    ensures Sum(ws[i := v]) == Sum(ws) - ws[i] + v
  {
    var last := |ws| - 1;
    if i == last {
      assert ws[i := v][..last] == ws[..last];
    } else {
      assert ws[i := v][..last] == ws[..last][i := v];
      SumUpdate(ws[..last], i, v);
    }
  }

  // ----- rounding -----

  lemma Distribute(a: nat, b: nat, t: nat)
    ensures (a + b) * t == a * t + b * t
  {
  }

  lemma AtLeast(k: nat, p: nat, t: nat)
    requires k <= p
    ensures k * t <= p * t
  {
  }

  lemma FloorBounds(a: nat, b: nat)
    requires b > 0
    ensures (a / b) * b <= a < (a / b) * b + b
  {
  }

  /** A rounded percentage is off by at most a half, at most twice the exact one, and never above 100. */
  lemma PercentBounds(w: nat, total: nat)
    requires total > 0
    ensures 2 * (Percent(w, total) * total) <= 200 * w + total
    ensures 200 * w < 2 * (Percent(w, total) * total) + total
    ensures Percent(w, total) * total <= 200 * w
    ensures w <= total ==> Percent(w, total) <= 100
  {
    var p := Percent(w, total);
    FloorBounds(200 * w + total, 2 * total);
    var x := p * total;
    assert p * (2 * total) == 2 * x;
    if p >= 1 { AtLeast(1, p, total); }
    if p >= 101 { AtLeast(101, p, total); }
  }

  lemma {:induction false} PercentsSum(ws: seq<nat>, total: nat)
    requires total > 0
    ensures 2 * (Sum(Percents(ws, total)) * total) <= 200 * Sum(ws) + |ws| * total
    ensures Sum(Percents(ws, total)) * total <= 200 * Sum(ws)
  {
    var ps := Percents(ws, total);
    if ws != [] {
      var last := |ws| - 1;
      PercentsSum(ws[..last], total);
      PercentBounds(ws[last], total);
      assert ps[..last] == Percents(ws[..last], total);
      Distribute(Sum(ps[..last]), ps[last], total);
      Distribute(last, 1, total);
    }
  }

  lemma CancelFactor(a: nat, b: nat, t: nat)
    requires t > 0 && a * t <= b * t
    ensures a <= b
  {
  }

  /** The percentages sum to between 0 and 200, so the `i8` cast never changes the difference. */
  lemma CastIsExact(ws: seq<nat>)
    requires Sum(ws) > 0
    ensures var sum := Sum(Percents(ws, Sum(ws)));
      sum <= 200 && ToI8(100 - sum) == 100 - sum
  {
    PercentsSum(ws, Sum(ws));
    CancelFactor(Sum(Percents(ws, Sum(ws))), 200, Sum(ws));
  }

  /** The weights sum to 100 exactly when the percentages exceed 100 by no more than the largest
      one; that is also exactly when the clamp leaves the corrected value alone. */
  lemma SumsToHundred(ws: seq<nat>)
    requires Sum(ws) > 0
    ensures var ps := Percents(ws, Sum(ws)); var m := LastMax(ps);
      && (Sum(Corrected(ps)) == 100 <==> Sum(ps) <= 100 + ps[m])
      && (Clamp(ps[m] + (100 - Sum(ps))) == ps[m] + (100 - Sum(ps)) <==> Sum(ps) <= 100 + ps[m])
      && forall i :: 0 <= i < |ps| && i != m ==> Corrected(ps)[i] == ps[i]
  {
    var ps := Percents(ws, Sum(ws));
    var m := LastMax(ps);
    CastIsExact(ws);
    SumElement(ps, m);
    SumUpdate(ps, m, Clamp(ps[m] + (100 - Sum(ps))));
  }

  lemma {:induction false} SumAtMost(ws: seq<nat>, bound: nat)
    requires forall i :: 0 <= i < |ws| ==> ws[i] <= bound
    ensures Sum(ws) <= |ws| * bound
  {
    if ws != [] {
      SumAtMost(ws[..|ws| - 1], bound);
      Distribute(|ws| - 1, 1, bound);
    }
  }

  /** Rounding at most 15 percentages adds at most 7. */
  lemma FifteenRoundUp(ws: seq<nat>)
    requires Sum(ws) > 0 && |ws| <= 15
    ensures Sum(Percents(ws, Sum(ws))) <= 107
  {
    var total := Sum(ws);
    var s := Sum(Percents(ws, total));
    PercentsSum(ws, total);
    AtLeast(|ws|, 15, total);
    if s >= 108 { AtLeast(108, s, total); }
  }

  /** Teams of at most 15 experts always get weights that sum to 100. */
  lemma FifteenSumToHundred(ws: seq<nat>)
    requires Sum(ws) > 0 && |ws| <= 15
    ensures Sum(Corrected(Percents(ws, Sum(ws)))) == 100
  {
    var ps := Percents(ws, Sum(ws));
    var m := LastMax(ps);
    FifteenRoundUp(ws);
    SumAtMost(ps, ps[m]);
    AtLeast(|ps|, 15, ps[m]);
    SumsToHundred(ws);
  }

  // ----- the teams there are -----

  /** The default weights of the experts on offer. */
  const AVAILABLE_EXPERTS: seq<nat> := [20, 15, 10, 10, 12, 5, 8, 5, 5, 5, 5]

  /** The default weights of a selection, by position on offer. */
  function Defaults(selected: seq<nat>): seq<nat>
    requires forall i :: 0 <= i < |selected| ==> selected[i] < |AVAILABLE_EXPERTS|
  {
    seq(|selected|, i requires 0 <= i < |selected| => AVAILABLE_EXPERTS[selected[i]])
  }

  /** Every team that can be selected gets weights that sum to 100. */
  lemma EveryTeamSumsToHundred(selected: seq<nat>)
    requires selected != [] && NoDuplicates(selected)
    requires forall i :: 0 <= i < |selected| ==> selected[i] < |AVAILABLE_EXPERTS|
    ensures Sum(Defaults(selected)) > 0
    ensures Sum(Corrected(Percents(Defaults(selected), Sum(Defaults(selected))))) == 100
  {
    DistinctBelow(selected, |AVAILABLE_EXPERTS|);
    SumElement(Defaults(selected), 0);
    FifteenSumToHundred(Defaults(selected));
  }

  lemma {:induction false} SumOfTwo(ws: seq<nat>, k: nat, a: nat, b: nat)
    requires k <= |ws|
    requires forall i :: 0 <= i < |ws| ==> ws[i] == if i < k then a else b
    ensures Sum(ws) == k * a + (|ws| - k) * b
  {
    var last := |ws| - 1;
    if |ws| > k {
      SumOfTwo(ws[..last], k, a, b);
      Distribute(last - k, 1, b);
    } else if k > 0 {
      SumOfTwo(ws[..last], k - 1, a, b);
      Distribute(k - 1, 1, a);
    }
  }

  /** The bound of 15 is tight: four weights of 11 and twelve of 13 end at 101. */
  lemma SixteenMayFail()
    ensures var ws := seq(16, i => if i < 4 then 11 else 13);
      Sum(ws) == 200 && Sum(Corrected(Percents(ws, Sum(ws)))) == 101
  {
    var ws: seq<nat> := seq(16, i => if i < 4 then 11 else 13);
    SumOfTwo(ws, 4, 11, 13);
    var ps := Percents(ws, 200);
    SumOfTwo(ps, 4, 6, 7);
    var m := LastMax(ps);
    assert ps[15] == 7 && ps[m] == 7;
    SumUpdate(ps, m, 0);
  }
}

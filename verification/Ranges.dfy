/** Inclusive line ranges and the sets of lines they denote (src/coverage/mod.rs:400-483). */
module Ranges {
  import opened DiffModel

  datatype Range = Range(lo: u32, hi: u32) {
    predicate WellFormed() {
      lo <= hi
    }
  }

  // ----- the lines a range list denotes -----

  /** Line `x` lies in one of the ranges. */
  ghost predicate Hits(ranges: seq<Range>, x: int) {
    ranges != [] && (ranges[0].lo <= x <= ranges[0].hi || Hits(ranges[1..], x))
  }

  lemma {:induction false} HitsConcat(a: seq<Range>, b: seq<Range>, x: int)
    ensures Hits(a + b, x) <==> Hits(a, x) || Hits(b, x)
  {
    if a == [] {
      assert a + b == b;
    } else {
      assert (a + b)[0] == a[0] && (a + b)[1..] == a[1..] + b;
      HitsConcat(a[1..], b, x);
    }
  }

  lemma {:induction false} HitsIndex(ranges: seq<Range>, x: int) returns (i: nat)
    requires Hits(ranges, x)
    ensures i < |ranges| && ranges[i].lo <= x <= ranges[i].hi
  {
    if ranges[0].lo <= x <= ranges[0].hi {
      i := 0;
    } else {
      var j := HitsIndex(ranges[1..], x);
      i := j + 1;
    }
  }

  lemma {:induction false} IndexHits(ranges: seq<Range>, i: nat, x: int)
    requires i < |ranges| && ranges[i].lo <= x <= ranges[i].hi
    ensures Hits(ranges, x)
  {
    if i > 0 { IndexHits(ranges[1..], i - 1, x); }
  }

  ghost function Interval(lo: int, hi: int): set<int>
    decreases hi - lo
  {
    if hi < lo then {} else Interval(lo, hi - 1) + {hi}
  }

  lemma {:induction false} IntervalMembers(lo: int, hi: int)
    ensures forall x :: x in Interval(lo, hi) <==> lo <= x <= hi
    ensures |Interval(lo, hi)| == if lo <= hi then hi - lo + 1 else 0
    decreases hi - lo
  {
    if lo <= hi { IntervalMembers(lo, hi - 1); }
  }

  ghost function Lines(ranges: seq<Range>): set<int> {
    if ranges == [] then {} else Interval(ranges[0].lo, ranges[0].hi) + Lines(ranges[1..])
  }

  lemma {:induction false} LinesHits(ranges: seq<Range>)
    ensures forall x :: x in Lines(ranges) <==> Hits(ranges, x)
  {
    if ranges != [] {
      IntervalMembers(ranges[0].lo, ranges[0].hi);
      LinesHits(ranges[1..]);
    }
  }

  /** Sorted, non-overlapping and non-adjacent: at least one line lies between any two ranges. */
  ghost predicate Canonical(ranges: seq<Range>) {
    && (forall i :: 0 <= i < |ranges| ==> ranges[i].WellFormed())
    && (forall i, j :: 0 <= i < j < |ranges| ==> ranges[i].hi + 1 < ranges[j].lo)
  }

  /** What the first range of a canonical list says about the lines. */
  lemma FirstOfCanonical(ranges: seq<Range>)
    requires Canonical(ranges) && ranges != []
    ensures Hits(ranges, ranges[0].lo) && !Hits(ranges, ranges[0].lo - 1) && !Hits(ranges, ranges[0].hi + 1)
    ensures forall x :: x < ranges[0].lo ==> !Hits(ranges, x)
    ensures forall x :: x <= ranges[0].hi ==> !Hits(ranges[1..], x)
  {
  }

  /** A set of lines has only one canonical form. */
  lemma {:induction false} CanonicalUnique(a: seq<Range>, b: seq<Range>)
    requires Canonical(a) && Canonical(b)
    requires forall x :: Hits(a, x) <==> Hits(b, x)
    ensures a == b
  {
    if a != [] { FirstOfCanonical(a); }
    if b != [] { FirstOfCanonical(b); }
    if a != [] && b != [] {
      assert a[0].lo == b[0].lo;
      assert Hits(a, a[0].hi) && Hits(b, b[0].hi);
      assert Hits(a, b[0].hi + 1) <==> Hits(b, b[0].hi + 1);
      assert a[0].hi == b[0].hi;
      forall x ensures Hits(a[1..], x) <==> Hits(b[1..], x) {
        assert Hits(a, x) <==> Hits(b, x);
      }
      CanonicalUnique(a[1..], b[1..]);
    }
  }

  // ----- union_push -----

  /** The tuple order of the ranges. */
  predicate Leq(a: Range, b: Range) {
    a.lo < b.lo || (a.lo == b.lo && a.hi <= b.hi)
  }

  function InsertRange(r: Range, sorted: seq<Range>): seq<Range> {
    if sorted == [] || Leq(r, sorted[0]) then [r] + sorted
    else [sorted[0]] + InsertRange(r, sorted[1..])
  }

  /** The standard library's sort; on a total order its result is the only sorted rearrangement. */
  function SortRanges(ranges: seq<Range>): seq<Range> {
    if ranges == [] then [] else InsertRange(ranges[0], SortRanges(ranges[1..]))
  }

  ghost predicate SortedRanges(ranges: seq<Range>) {
    forall i, j :: 0 <= i < j < |ranges| ==> Leq(ranges[i], ranges[j])
  }

  lemma {:induction false} InsertRangeSorted(r: Range, sorted: seq<Range>)
    requires SortedRanges(sorted)
    ensures SortedRanges(InsertRange(r, sorted))
    ensures forall q :: q in InsertRange(r, sorted) <==> q == r || q in sorted
  {
    if sorted != [] && !Leq(r, sorted[0]) {
      InsertRangeSorted(r, sorted[1..]);
      var tail := InsertRange(r, sorted[1..]);
      forall i | 0 <= i < |tail| ensures Leq(sorted[0], tail[i]) {
        assert tail[i] in tail;
      }
    }
  }

  lemma {:induction false} InsertRangeHits(r: Range, sorted: seq<Range>, x: int)
    ensures Hits(InsertRange(r, sorted), x) <==> r.lo <= x <= r.hi || Hits(sorted, x)
    ensures multiset(InsertRange(r, sorted)) == multiset{r} + multiset(sorted)
  {
    if sorted == [] || Leq(r, sorted[0]) {
      assert ([r] + sorted)[1..] == sorted;
    } else {
      InsertRangeHits(r, sorted[1..], x);
      assert sorted == [sorted[0]] + sorted[1..];
      assert InsertRange(r, sorted)[1..] == InsertRange(r, sorted[1..]);
    }
  }

  lemma {:induction false} SortRangesCorrect(ranges: seq<Range>, x: int)
    ensures SortedRanges(SortRanges(ranges))
    ensures multiset(SortRanges(ranges)) == multiset(ranges)
    ensures Hits(SortRanges(ranges), x) <==> Hits(ranges, x)
  {
    if ranges != [] {
      SortRangesCorrect(ranges[1..], x);
      InsertRangeSorted(ranges[0], SortRanges(ranges[1..]));
      InsertRangeHits(ranges[0], SortRanges(ranges[1..]), x);
      assert ranges == [ranges[0]] + ranges[1..];
    }
  }

  lemma SortedHead(a: seq<Range>, r: Range)
    requires SortedRanges(a) && r in multiset(a)
    ensures Leq(a[0], r)
  {
  }

  /** A sorted rearrangement is unique, so any sort of the ranges is `SortRanges`. */
  lemma {:induction false} SortedUnique(a: seq<Range>, b: seq<Range>)
    requires SortedRanges(a) && SortedRanges(b) && multiset(a) == multiset(b)
    ensures a == b
  {
    assert |a| == |multiset(a)| == |multiset(b)| == |b|;
    if a != [] {
      assert a[0] in multiset(a) && b[0] in multiset(b);
      SortedHead(a, b[0]);
      SortedHead(b, a[0]);
      assert a == [a[0]] + a[1..] && b == [b[0]] + b[1..];
      assert multiset(a[1..]) == multiset(a) - multiset{a[0]} == multiset(b[1..]);
      SortedUnique(a[1..], b[1..]);
    }
  }

  function SaturatingSucc(n: u32): u32 {
    if n == U32_MAX then n else n + 1
  }

  /** Merges one more range, in sorted order, into the ranges merged so far. */
  function MergeStep(out: seq<Range>, r: Range): seq<Range> {
    if out != [] && r.lo <= SaturatingSucc(out[|out| - 1].hi) then
      if r.hi > out[|out| - 1].hi then out[|out| - 1 := Range(out[|out| - 1].lo, r.hi)] else out
    else
      out + [r]
  }

  function Merge(out: seq<Range>, rest: seq<Range>): seq<Range>
    decreases |rest|
  {
    if rest == [] then out else Merge(MergeStep(out, rest[0]), rest[1..])
  }

  function UnionPush(ranges: seq<Range>, r: Range): seq<Range> {
    Merge([], SortRanges(ranges + [r]))
  }

  /** Inserts a range into a list, re-sorting and merging. */
  method UnionPushLoop(ranges: seq<Range>, r: Range) returns (out: seq<Range>)
    ensures out == UnionPush(ranges, r)
  {
    var all := SortRanges(ranges + [r]);
    out := [];
    assert all[0..] == all;
    for i := 0 to |all|
      invariant Merge(out, all[i..]) == Merge([], all)
    {
      var next := all[i];
      assert all[i..][0] == next && all[i..][1..] == all[i + 1..];
      if out != [] && next.lo <= SaturatingSucc(out[|out| - 1].hi) {
        if next.hi > out[|out| - 1].hi {
          out := out[|out| - 1 := Range(out[|out| - 1].lo, next.hi)];
        }
      } else {
        out := out + [next];
      }
    }
    assert all[|all|..] == [];
  }

  lemma MergeStepCanonical(out: seq<Range>, r: Range)
    requires Canonical(out) && r.WellFormed()
    requires out != [] ==> out[|out| - 1].lo <= r.lo
    ensures Canonical(MergeStep(out, r))
    ensures MergeStep(out, r) != [] && MergeStep(out, r)[|MergeStep(out, r)| - 1].lo <= r.lo
  {
  }

  lemma MergeStepHits(out: seq<Range>, r: Range, x: int)
    requires Canonical(out) && r.WellFormed()
    requires out != [] ==> out[|out| - 1].lo <= r.lo
    ensures Hits(MergeStep(out, r), x) <==> Hits(out, x) || r.lo <= x <= r.hi
  {
    if out == [] {
      assert out + [r] == [r];
    } else {
      var init, last, merged := out[..|out| - 1], out[|out| - 1], MergeStep(out, r);
      assert out == init + [last];
      HitsConcat(init, [last], x);
      if r.lo <= SaturatingSucc(last.hi) {
        assert merged == init + [merged[|out| - 1]];
        HitsConcat(init, [merged[|out| - 1]], x);
      } else {
        HitsConcat(out, [r], x);
      }
    }
  }

  lemma {:induction false} MergeCanonical(out: seq<Range>, rest: seq<Range>, x: int)
    requires Canonical(out) && SortedRanges(rest)
    requires forall i :: 0 <= i < |rest| ==> rest[i].WellFormed()
    requires out != [] && rest != [] ==> out[|out| - 1].lo <= rest[0].lo
    ensures Canonical(Merge(out, rest))
    ensures Hits(Merge(out, rest), x) <==> Hits(out, x) || Hits(rest, x)
    decreases |rest|
  {
    if rest != [] {
      MergeStepCanonical(out, rest[0]);
      MergeStepHits(out, rest[0], x);
      if |rest| > 1 { assert Leq(rest[0], rest[1]); }
      MergeCanonical(MergeStep(out, rest[0]), rest[1..], x);
    }
  }

  lemma UnionPushHits(ranges: seq<Range>, r: Range, x: int)
    requires forall i :: 0 <= i < |ranges| ==> ranges[i].WellFormed()
    requires r.WellFormed()
    ensures Canonical(UnionPush(ranges, r))
    ensures Hits(UnionPush(ranges, r), x) <==> Hits(ranges, x) || r.lo <= x <= r.hi
  {
    var sorted := SortRanges(ranges + [r]);
    SortRangesCorrect(ranges + [r], x);
    forall i | 0 <= i < |sorted| ensures sorted[i].WellFormed() {
      assert sorted[i] in multiset(sorted);
      assert sorted[i] in ranges + [r];
    }
    MergeCanonical([], sorted, x);
    HitsConcat(ranges, [r], x);
  }

  /** The union with a well-formed range, in canonical form, whatever order the list was in. */
  lemma UnionPushCanonical(ranges: seq<Range>, r: Range)
    requires forall i :: 0 <= i < |ranges| ==> ranges[i].WellFormed()
    requires r.WellFormed()
    ensures Canonical(UnionPush(ranges, r))
    ensures forall x :: Hits(UnionPush(ranges, r), x) <==> Hits(ranges, x) || r.lo <= x <= r.hi
  {
    UnionPushHits(ranges, r, 0);
    forall x ensures Hits(UnionPush(ranges, r), x) <==> Hits(ranges, x) || r.lo <= x <= r.hi {
      UnionPushHits(ranges, r, x);
    }
  }

  // ----- uncovered_within -----

  /** The gaps the touched ranges leave between `cursor` and `hi`. */
  function Gaps(cursor: u32, hi: u32, touched: seq<Range>): seq<Range>
    requires cursor <= hi
    decreases |touched|
  {
    if touched == [] || touched[0].lo > hi then [Range(cursor, hi)]
    else if touched[0].hi < cursor then Gaps(cursor, hi, touched[1..])
    else
      (if touched[0].lo > cursor then [Range(cursor, touched[0].lo - 1)] else [])
      + (if touched[0].hi >= hi then [] else Gaps(touched[0].hi + 1, hi, touched[1..]))
  }

  /** The gaps within one changed range; a malformed range has none. */
  function GapsOf(c: Range, touched: seq<Range>): seq<Range> {
    if c.WellFormed() then Gaps(c.lo, c.hi, touched) else []
  }

  function UncoveredWithin(changed: seq<Range>, touched: seq<Range>): seq<Range> {
    if changed == [] then [] else GapsOf(changed[0], touched) + UncoveredWithin(changed[1..], touched)
  }

  lemma GapsStep(cursor: u32, hi: u32, touched: seq<Range>, j: nat)
    requires cursor <= hi && j < |touched|
    ensures Gaps(cursor, hi, touched[j..]) ==
      if touched[j].lo > hi then [Range(cursor, hi)]
      else if touched[j].hi < cursor then Gaps(cursor, hi, touched[j + 1..])
      else
        (if touched[j].lo > cursor then [Range(cursor, touched[j].lo - 1)] else [])
        + (if touched[j].hi >= hi then [] else Gaps(touched[j].hi + 1, hi, touched[j + 1..]))
  {
  }

  /** One pass over the touched ranges for one changed range. The subset type of `cursor` makes
      the verifier check that stepping past a touched range never overflows. */
  method GapsLoop(c: Range, touched: seq<Range>, start: seq<Range>) returns (out: seq<Range>)
    requires c.WellFormed()
    ensures out == start + GapsOf(c, touched)
  {
    out := start;
    var cursor: u32 := c.lo;
    assert touched[0..] == touched;
    for j := 0 to |touched|
      invariant cursor <= c.hi
      invariant out + Gaps(cursor, c.hi, touched[j..]) == start + GapsOf(c, touched)
    {
      var t := touched[j];
      GapsStep(cursor, c.hi, touched, j);
      if t.lo > c.hi {
        break;
      }
      if t.hi < cursor {
        continue;
      }
      if t.lo > cursor {
        out := out + [Range(cursor, t.lo - 1)];
      }
      if t.hi >= c.hi {
        return;
      }
      cursor := t.hi + 1;
    }
    out := out + [Range(cursor, c.hi)];
  }

  lemma UncoveredStep(changed: seq<Range>, touched: seq<Range>, i: nat)
    requires i < |changed|
    ensures UncoveredWithin(changed[i..], touched)
         == GapsOf(changed[i], touched) + UncoveredWithin(changed[i + 1..], touched)
  {
  }

  method UncoveredWithinLoop(changed: seq<Range>, touched: seq<Range>) returns (out: seq<Range>)
    ensures out == UncoveredWithin(changed, touched)
  {
    out := [];
    assert changed[0..] == changed && out + UncoveredWithin(changed, touched) == UncoveredWithin(changed, touched);
    for i := 0 to |changed|
      invariant out + UncoveredWithin(changed[i..], touched) == UncoveredWithin(changed, touched)
    {
      UncoveredStep(changed, touched, i);
      if changed[i].lo > changed[i].hi {
        continue;
      }
      out := GapsLoop(changed[i], touched, out);
    }
    assert changed[|changed|..] == [];
  }

  /** Ranges the sweep can handle: well-formed and sorted by start. */
  ghost predicate Sweepable(touched: seq<Range>) {
    && (forall i :: 0 <= i < |touched| ==> touched[i].WellFormed())
    && (forall i, j :: 0 <= i < j < |touched| ==> touched[i].lo <= touched[j].lo)
  }

  lemma {:induction false} NotBeforeFirst(touched: seq<Range>, x: int)
    requires Sweepable(touched) && touched != [] && x < touched[0].lo
    ensures !Hits(touched, x)
  {
    if |touched| > 1 { NotBeforeFirst(touched[1..], x); }
  }

  /** Between `cursor` and `hi`, the gaps are exactly what the touched ranges leave out. */
  lemma {:induction false} GapsExact(cursor: u32, hi: u32, touched: seq<Range>, x: int)
    requires cursor <= hi && Sweepable(touched)
    ensures Hits(Gaps(cursor, hi, touched), x) <==> cursor <= x <= hi && !Hits(touched, x)
    decreases |touched|
  {
    if touched != [] && x < touched[0].lo {
      NotBeforeFirst(touched, x);
    }
    if touched != [] && touched[0].lo <= hi {
      var t, rest := touched[0], touched[1..];
      if t.hi < cursor {
        GapsExact(cursor, hi, rest, x);
      } else if t.hi < hi {
        GapsExact(t.hi + 1, hi, rest, x);
        var head := if t.lo > cursor then [Range(cursor, t.lo - 1)] else [];
        HitsConcat(head, Gaps(t.hi + 1, hi, rest), x);
      }
    }
  }

  lemma {:induction false} GapsInside(cursor: u32, hi: u32, touched: seq<Range>, i: nat)
    requires cursor <= hi && i < |Gaps(cursor, hi, touched)|
    ensures cursor <= Gaps(cursor, hi, touched)[i].lo <= Gaps(cursor, hi, touched)[i].hi <= hi
    decreases |touched|
  {
    if touched != [] && touched[0].lo <= hi {
      var t, rest := touched[0], touched[1..];
      if t.hi < cursor {
        GapsInside(cursor, hi, rest, i);
      } else {
        var h := if t.lo > cursor then 1 else 0;
        if i >= h { GapsInside(t.hi + 1, hi, rest, i - h); }
      }
    }
  }

  /** Exact complement: a line is uncovered exactly when it is changed and not touched. */
  lemma {:induction false} UncoveredExact(changed: seq<Range>, touched: seq<Range>, x: int)
    requires Sweepable(touched)
    ensures Hits(UncoveredWithin(changed, touched), x) <==> Hits(changed, x) && !Hits(touched, x)
  {
    if changed != [] {
      UncoveredExact(changed[1..], touched, x);
      HitsConcat(GapsOf(changed[0], touched), UncoveredWithin(changed[1..], touched), x);
      if changed[0].WellFormed() { GapsExact(changed[0].lo, changed[0].hi, touched, x); }
    }
  }

  /** Every uncovered range is well-formed and lies inside one changed range. */
  lemma {:induction false} UncoveredInside(changed: seq<Range>, touched: seq<Range>, i: nat) returns (c: nat)
    requires i < |UncoveredWithin(changed, touched)|
    ensures var gap := UncoveredWithin(changed, touched)[i];
      c < |changed| && changed[c].lo <= gap.lo <= gap.hi <= changed[c].hi
  {
    var gaps := GapsOf(changed[0], touched);
    if i < |gaps| {
      GapsInside(changed[0].lo, changed[0].hi, touched, i);
      c := 0;
    } else {
      var d := UncoveredInside(changed[1..], touched, i - |gaps|);
      c := d + 1;
    }
  }
}

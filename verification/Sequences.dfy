/** Facts about sequences that more than one component needs. */
module Sequences {

  datatype Option<+T> = None | Some(value: T) {
    function UnwrapOr(default: T): T {
      if Some? then value else default
    }
  }

  /** The runs of `ss`, joined in order. */
  function Flatten<T>(ss: seq<seq<T>>): seq<T> {
    if ss == [] then [] else ss[0] + Flatten(ss[1..])
  }

  lemma {:induction false} FlattenConcat<T>(a: seq<seq<T>>, b: seq<seq<T>>)
    ensures Flatten(a + b) == Flatten(a) + Flatten(b)
  {
    if a == [] {
      assert a + b == b;
    } else {
      assert (a + b)[0] == a[0] && (a + b)[1..] == a[1..] + b;
      FlattenConcat(a[1..], b);
    }
  }

  lemma {:induction false} FlattenMember<T>(ss: seq<seq<T>>, i: nat, x: T)
    requires i < |ss| && x in ss[i]
    ensures x in Flatten(ss)
  {
    if i > 0 {
      FlattenMember(ss[1..], i - 1, x);
    }
  }

  lemma {:induction false} FlattenOrigin<T>(ss: seq<seq<T>>, x: T) returns (i: nat)
    requires x in Flatten(ss)
    ensures i < |ss| && x in ss[i]
  {
    if x in ss[0] {
      i := 0;
    } else {
      var j := FlattenOrigin(ss[1..], x);
      i := j + 1;
    }
  }

  function Mapped<S, T>(f: S -> T, s: seq<S>): seq<T> {
    if s == [] then [] else [f(s[0])] + Mapped(f, s[1..])
  }

  lemma MappedCons<S, T>(f: S -> T, x: S, s: seq<S>)
    ensures Mapped(f, [x] + s) == [f(x)] + Mapped(f, s)
  {
  }

  lemma {:induction false} MappedAt<S, T>(f: S -> T, s: seq<S>)
    ensures |Mapped(f, s)| == |s| && forall i :: 0 <= i < |s| ==> Mapped(f, s)[i] == f(s[i])
  {
    if s != [] { MappedAt(f, s[1..]); }
  }

  function Max(a: int, b: int): int {
    if a < b then b else a
  }

  function Min(a: int, b: int): int {
    if a < b then a else b
  }

  /** The first `n` elements of `s`, or all of `s` when it is shorter. */
  function Take<T>(s: seq<T>, n: nat): seq<T> {
    if n < |s| then s[..n] else s
  }

  ghost predicate NoDuplicates<T(!new)>(s: seq<T>) {
    forall i, j :: 0 <= i < j < |s| ==> s[i] != s[j]
  }
  // ----- counting -----

  ghost function Members(s: seq<nat>): set<nat> {
    set x | x in s
  }

  ghost function Below(n: nat): set<nat> {
    if n == 0 then {} else Below(n - 1) + {n - 1}
  }

  lemma {:induction false} MembersCount(s: seq<nat>)
    ensures |Members(s)| <= |s|
    ensures NoDuplicates(s) ==> |Members(s)| == |s|
  {
    if s != [] {
      var init, last := s[..|s| - 1], s[|s| - 1];
      MembersCount(init);
      assert Members(s) == Members(init) + {last};
      if NoDuplicates(s) {
        assert last !in init;
      }
    }
  }

  lemma {:induction false} BelowCount(n: nat)
    ensures |Below(n)| == n && forall x: nat :: x in Below(n) <==> x < n
  {
    if n > 0 {
      BelowCount(n - 1);
    }
  }

  lemma SubsetCount(a: set<nat>, b: set<nat>)
    requires a <= b
    ensures |a| <= |b|
  {
    assert b == a + (b - a);
  }

  /** There are only `n` different numbers below `n`. */
  lemma DistinctBelow(s: seq<nat>, n: nat)
    requires NoDuplicates(s) && forall i :: 0 <= i < |s| ==> s[i] < n
    ensures |s| <= n
  {
    MembersCount(s);
    BelowCount(n);
    SubsetCount(Members(s), Below(n));
  }
  // ----- selecting -----

  /** The numbers below `n` that pass `test`, in increasing order. */
  function Select(n: nat, test: nat -> bool): (s: seq<nat>) {
    if n == 0 then [] else Select(n - 1, test) + (if test(n - 1) then [n - 1] else [])
  }

  lemma {:induction false} SelectMembers(n: nat, test: nat -> bool)
    ensures forall x: nat :: x in Select(n, test) <==> x < n && test(x)
    ensures forall i, j :: 0 <= i < j < |Select(n, test)| ==> Select(n, test)[i] < Select(n, test)[j]
  {
    if n > 0 {
      SelectMembers(n - 1, test);
      var s := Select(n - 1, test);
      assert forall i :: 0 <= i < |s| ==> s[i] in s;
    }
  }

  /** A member's position is the number of members below it. */
  lemma SelectRank(n: nat, test: nat -> bool, x: nat)
    requires x < n && test(x)
    ensures |Select(x, test)| < |Select(n, test)| && Select(n, test)[|Select(x, test)|] == x
  {
  }

  lemma {:induction false} SelectSame(n: nat, a: nat -> bool, b: nat -> bool)
    requires forall i: nat :: i < n ==> a(i) == b(i)
    ensures Select(n, a) == Select(n, b)
  {
    if n > 0 { SelectSame(n - 1, a, b); }
  }

  /** The length of a selection is the number of numbers that pass. */
  lemma {:induction false} SelectCount(n: nat, test: nat -> bool)
    ensures |Select(n, test)| == |set i: nat | i < n && test(i)|
  {
    if n > 0 {
      SelectCount(n - 1, test);
      var below := set i: nat | i < n - 1 && test(i);
      assert (set i: nat | i < n && test(i)) == if test(n - 1) then below + {n - 1} else below;
    }
  }

  /** `at` lists, in order, the positions of exactly those elements of `s` that pass `test`. */
  ghost predicate Picks<T>(at: seq<nat>, s: seq<T>, test: T -> bool) {
    && (forall i, j :: 0 <= i < j < |at| ==> at[i] < at[j])
    && (forall k :: 0 <= k < |at| ==> at[k] < |s| && test(s[at[k]]))
    && (forall i: nat :: i < |s| && test(s[i]) ==> i in at)
  }

  /** The positions picked from a list, from those picked from all but its last element. */
  lemma PicksSnoc<T>(at: seq<nat>, s: seq<T>, test: T -> bool)
    requires s != [] && Picks(at, s[..|s| - 1], test)
    ensures Picks(at + (if test(s[|s| - 1]) then [|s| - 1] else []), s, test)
  {
    var n := |s| - 1;
    var all := at + if test(s[n]) then [n] else [];
    forall i: nat | i < |s| && test(s[i]) ensures i in all {
      if i < n { assert s[..n][i] == s[i] && i in at; }
    }
  }

  /** How many elements pass. */
  function Count<T>(s: seq<T>, test: T -> bool): nat {
    if s == [] then 0 else Count(s[..|s| - 1], test) + if test(s[|s| - 1]) then 1 else 0
  }
  lemma {:induction false} CountCons<T>(x: T, s: seq<T>, test: T -> bool)
    ensures Count([x] + s, test) == (if test(x) then 1 else 0) + Count(s, test)
  {
    if s == [] {
      assert [x] + s == [x] && [x][..0] == [];
    } else {
      assert ([x] + s)[..|s|] == [x] + s[..|s| - 1];
      CountCons(x, s[..|s| - 1], test);
    }
  }
}

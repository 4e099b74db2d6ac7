/** The feedback log on findings (src/feedback.rs). */
module Feedback {
  import opened Sequences

  datatype Verdict = Useful | FalsePositive

  /** One record; the timestamp is an instant on one clock. */
  datatype FindingFeedback = FindingFeedback(fingerprint: string, verdict: Verdict, comment: Option<string>,
                                             category: Option<string>, createdAt: int)

  const UNKNOWN_CATEGORY := "unknown"

  // ----- the latest verdict -----

  /** The positions of the winning records, one per fingerprint. */
  function Latest(entries: seq<FindingFeedback>): (m: map<string, nat>)
    ensures forall fp :: fp in m ==> m[fp] < |entries|
  {
    if entries == [] then map[]
    else
      var init, last := entries[..|entries| - 1], entries[|entries| - 1];
      var m := Latest(init);
      if last.fingerprint in m && entries[m[last.fingerprint]].createdAt > last.createdAt then m
      else m[last.fingerprint := |entries| - 1]
  }

  /** The record at `i` is the verdict on its finding: no record of the same finding is newer, and
      none of the same age comes later. */
  ghost predicate Wins(entries: seq<FindingFeedback>, i: nat)
    requires i < |entries|
  {
    forall j :: 0 <= j < |entries| && entries[j].fingerprint == entries[i].fingerprint ==>
      entries[j].createdAt <= entries[i].createdAt && (entries[j].createdAt == entries[i].createdAt ==> j <= i)
  }

  /** A finding has a verdict exactly when it has a record, and the verdict is the winning record. */
  lemma {:induction false} LatestWins(entries: seq<FindingFeedback>, fp: string)
    ensures fp in Latest(entries) <==> exists i :: 0 <= i < |entries| && entries[i].fingerprint == fp
    ensures fp in Latest(entries) ==>
      entries[Latest(entries)[fp]].fingerprint == fp && Wins(entries, Latest(entries)[fp])
  {
    if entries != [] {
      var init := entries[..|entries| - 1];
      LatestWins(init, fp);
      assert forall i :: 0 <= i < |init| ==> init[i] == entries[i];
      if fp in Latest(init) {
        assert Wins(init, Latest(init)[fp]);
      }
    }
  }

  /** The record at `i` calls the finding a false positive, and wins. */
  ghost predicate WinsFalse(entries: seq<FindingFeedback>, fp: string, i: nat)
    requires i < |entries|
  {
    entries[i].fingerprint == fp && entries[i].verdict == FalsePositive && Wins(entries, i)
  }

  /** The winning record of the finding calls it a false positive. */
  ghost predicate MarkedFalse(entries: seq<FindingFeedback>, fp: string) {
    exists i :: 0 <= i < |entries| && WinsFalse(entries, fp, i)
  }

  lemma MarkedFalseIsLatest(entries: seq<FindingFeedback>, fp: string)
    ensures MarkedFalse(entries, fp) <==> fp in Latest(entries) && entries[Latest(entries)[fp]].verdict == FalsePositive
  {
    LatestWins(entries, fp);
    if i :| 0 <= i < |entries| && WinsFalse(entries, fp, i) {
      assert i == Latest(entries)[fp];
    }
    if fp in Latest(entries) && entries[Latest(entries)[fp]].verdict == FalsePositive {
      assert WinsFalse(entries, fp, Latest(entries)[fp]);
    }
  }

  method LoadFalsePositives(entries: seq<FindingFeedback>) returns (fps: set<string>)
    ensures forall fp :: fp in fps <==> MarkedFalse(entries, fp)
  {
    var latest: map<string, FindingFeedback> := map[];
    for i := 0 to |entries|
      invariant latest.Keys == Latest(entries[..i]).Keys
      invariant forall fp :: fp in latest ==> latest[fp] == entries[Latest(entries[..i])[fp]]
    {
      var entry := entries[i];
      assert entries[..i + 1][..i] == entries[..i];
      if entry.fingerprint in latest && latest[entry.fingerprint].createdAt > entry.createdAt {
      } else {
        latest := latest[entry.fingerprint := entry];
      }
    }
    assert entries[..|entries|] == entries;
    fps := set fp | fp in latest && latest[fp].verdict == FalsePositive;
    forall fp ensures fp in fps <==> MarkedFalse(entries, fp) {
      MarkedFalseIsLatest(entries, fp);
    }
  }

  // ----- statistics -----

  datatype Stats = Stats(total: nat, useful: nat, falsePositive: nat) {
    function Add(verdict: Verdict): Stats {
      Stats(total + 1, useful + (if verdict == Useful then 1 else 0),
            falsePositive + (if verdict == FalsePositive then 1 else 0))
    }

    function Plus(other: Stats): Stats {
      Stats(total + other.total, useful + other.useful, falsePositive + other.falsePositive)
    }
  }

  const ZERO := Stats(0, 0, 0)

  function CategoryOf(entry: FindingFeedback): string {
    entry.category.UnwrapOr(UNKNOWN_CATEGORY)
  }

  /** The statistics of the records in one category. */
  function StatsOf(entries: seq<FindingFeedback>, category: string): Stats {
    if entries == [] then ZERO
    else
      var init, last := StatsOf(entries[..|entries| - 1], category), entries[|entries| - 1];
      if CategoryOf(last) == category then init.Add(last.verdict) else init
  }

  function Overall(entries: seq<FindingFeedback>): Stats {
    if entries == [] then ZERO else Overall(entries[..|entries| - 1]).Add(entries[|entries| - 1].verdict)
  }

  function Categories(entries: seq<FindingFeedback>): set<string> {
    set i | 0 <= i < |entries| :: CategoryOf(entries[i])
  }

  /** The statistics of the listed categories, added up. */
  function SumOver(entries: seq<FindingFeedback>, categories: seq<string>): Stats {
    if categories == [] then ZERO
    else SumOver(entries, categories[..|categories| - 1]).Plus(StatsOf(entries, categories[|categories| - 1]))
  }

  /** One more record counts once, in its own category. */
  lemma {:induction false} SumOverStep(entries: seq<FindingFeedback>, categories: seq<string>)
    requires entries != [] && NoDuplicates(categories)
    ensures var init, last := entries[..|entries| - 1], entries[|entries| - 1];
      SumOver(entries, categories) ==
        if CategoryOf(last) in categories then SumOver(init, categories).Add(last.verdict)
        else SumOver(init, categories)
  {
    if categories != [] {
      var rest, c := categories[..|categories| - 1], categories[|categories| - 1];
      SumOverStep(entries, rest);
      assert categories == rest + [c] && c !in rest;
    }
  }

  lemma {:induction false} SumOverNothing(entries: seq<FindingFeedback>, categories: seq<string>)
    requires entries == []
    ensures SumOver(entries, categories) == ZERO
  {
    if categories != [] {
      var init, c := categories[..|categories| - 1], categories[|categories| - 1];
      SumOverNothing(entries, init);
      assert StatsOf(entries, c) == ZERO;
    }
  }

  /** The record is in the category: its own, or "unknown" when it has none. */
  predicate IsIn(entry: FindingFeedback, category: string) {
    entry.category == Some(category) || (entry.category.None? && category == "unknown")
  }

  ghost function PositionsIn(entries: seq<FindingFeedback>, category: string): set<nat> {
    set i: nat | i < |entries| && IsIn(entries[i], category)
  }

  ghost function PositionsOf(entries: seq<FindingFeedback>, category: string, verdict: Verdict): set<nat> {
    set i: nat | i < |entries| && IsIn(entries[i], category) && entries[i].verdict == verdict
  }

  lemma PositionsInSnoc(init: seq<FindingFeedback>, last: FindingFeedback, category: string)
    ensures |PositionsIn(init + [last], category)| ==
      |PositionsIn(init, category)| + if IsIn(last, category) then 1 else 0
  {
    var n := |init|;
    assert PositionsIn(init + [last], category) ==
      PositionsIn(init, category) + if IsIn(last, category) then {n} else {};
  }

  lemma PositionsOfSnoc(init: seq<FindingFeedback>, last: FindingFeedback, category: string, verdict: Verdict)
    ensures |PositionsOf(init + [last], category, verdict)| ==
      |PositionsOf(init, category, verdict)| + if IsIn(last, category) && last.verdict == verdict then 1 else 0
  {
    var n := |init|;
    assert PositionsOf(init + [last], category, verdict) ==
      PositionsOf(init, category, verdict) + if IsIn(last, category) && last.verdict == verdict then {n} else {};
  }

  /** The statistics of a category count its records, those called useful and those called false. */
  lemma {:induction false} StatsExactly(entries: seq<FindingFeedback>, category: string)
    ensures var s := StatsOf(entries, category);
      && s.total == |PositionsIn(entries, category)|
      && s.useful == |PositionsOf(entries, category, Useful)|
      && s.falsePositive == |PositionsOf(entries, category, FalsePositive)|
  {
    if entries != [] {
      var init, last := entries[..|entries| - 1], entries[|entries| - 1];
      assert entries == init + [last];
      StatsExactly(init, category);
      PositionsInSnoc(init, last, category);
      PositionsOfSnoc(init, last, category, Useful);
      PositionsOfSnoc(init, last, category, FalsePositive);
    }
  }

  ghost function PositionsWith(entries: seq<FindingFeedback>, verdict: Verdict): set<nat> {
    set i: nat | i < |entries| && entries[i].verdict == verdict
  }

  lemma PositionsWithSnoc(init: seq<FindingFeedback>, last: FindingFeedback, verdict: Verdict)
    ensures |PositionsWith(init + [last], verdict)| ==
      |PositionsWith(init, verdict)| + if last.verdict == verdict then 1 else 0
  {
    var n := |init|;
    assert PositionsWith(init + [last], verdict) ==
      PositionsWith(init, verdict) + if last.verdict == verdict then {n} else {};
  }

  /** So do the overall ones. */
  lemma {:induction false} OverallExactly(entries: seq<FindingFeedback>)
    ensures var s := Overall(entries);
      && s.total == |entries|
      && s.useful == |PositionsWith(entries, Useful)| && s.falsePositive == |PositionsWith(entries, FalsePositive)|
  {
    if entries != [] {
      var init, last := entries[..|entries| - 1], entries[|entries| - 1];
      assert entries == init + [last];
      OverallExactly(init);
      PositionsWithSnoc(init, last, Useful);
      PositionsWithSnoc(init, last, FalsePositive);
    }
  }

  /** Over any list of distinct categories that covers the log, the category statistics add up to
      the overall ones, and every record is one of the two verdicts. */
  lemma {:induction false} CategoriesAddUp(entries: seq<FindingFeedback>, categories: seq<string>)
    requires NoDuplicates(categories)
    requires forall i :: 0 <= i < |entries| ==> CategoryOf(entries[i]) in categories
    ensures SumOver(entries, categories) == Overall(entries)
    ensures Overall(entries).total == |entries|
    ensures Overall(entries).useful + Overall(entries).falsePositive == |entries|
  {
    if entries == [] {
      SumOverNothing(entries, categories);
    } else {
      SumOverStep(entries, categories);
      CategoriesAddUp(entries[..|entries| - 1], categories);
    }
  }

  // ----- the store -----

  /** The feedback file: absent when it is missing, unreadable or corrupt. */
  class FeedbackFile {
    var content: Option<seq<FindingFeedback>>
  }

  class FeedbackStore {
    var entries: seq<FindingFeedback>
    const path: FeedbackFile?

    /** Loads what the file holds; without a usable file the log starts empty. */
    constructor WithPath(path: FeedbackFile?)
      ensures this.path == path
      ensures entries == if path == null then [] else path.content.UnwrapOr([])
    {
      this.path := path;
      entries := if path == null then [] else path.content.UnwrapOr([]);
    }

    /** Appends a record and writes the whole log. `writes` says whether the atomic write succeeds:
        when it fails the record stays in memory and the file keeps its old content. */
    method Record(feedback: FindingFeedback, writes: bool) returns (ok: bool)
      modifies this, path
      ensures entries == old(entries) + [feedback]
      ensures ok == (path == null || writes)
      ensures path != null ==> path.content == if writes then Some(entries) else old(path.content)
    {
      entries := entries + [feedback];
      ok := true;
      if path != null {
        if writes {
          path.content := Some(entries);
        } else {
          ok := false;
        }
      }
    }

    method StatsByCategory() returns (overall: Stats, byCategory: map<string, Stats>)
      ensures overall == Overall(entries)
      ensures byCategory.Keys == Categories(entries)
      ensures forall c :: c in byCategory ==> byCategory[c] == StatsOf(entries, c)
    {
      overall, byCategory := ZERO, map[];
      for i := 0 to |entries|
        invariant overall == Overall(entries[..i])
        invariant byCategory.Keys == Categories(entries[..i])
        invariant forall c :: StatsOf(entries[..i], c) == if c in byCategory then byCategory[c] else ZERO
      {
        assert entries[..i + 1][..i] == entries[..i];
        var category := CategoryOf(entries[i]);
        var before := if category in byCategory then byCategory[category] else ZERO;
        byCategory := byCategory[category := before.Add(entries[i].verdict)];
        overall := overall.Add(entries[i].verdict);
      }
      assert entries[..|entries|] == entries;
    }
  }

  /** A record that was written is there again after a restart. */
  method RecordAndReload(store: FeedbackStore, feedback: FindingFeedback, writes: bool) returns (again: FeedbackStore)
    requires store.path != null
    modifies store, store.path
    ensures writes ==> again.entries == old(store.entries) + [feedback]
    ensures !writes ==> again.entries == old(store.path.content).UnwrapOr([])
  {
    var ok := store.Record(feedback, writes);
    again := new FeedbackStore.WithPath(store.path);
  }
  /** One record, and whether its write succeeds. */
  datatype Attempt = Attempt(feedback: FindingFeedback, writes: bool)

  /** How many records there were at the last successful write. */
  function Secured(attempts: seq<Attempt>): (n: nat)
    ensures n <= |attempts|
    ensures n > 0 ==> attempts[n - 1].writes
    ensures forall i :: n <= i < |attempts| ==> !attempts[i].writes
  {
    if attempts == [] then 0
    else if attempts[|attempts| - 1].writes then |attempts|
    else Secured(attempts[..|attempts| - 1])
  }

  function FeedbackOf(attempts: seq<Attempt>): seq<FindingFeedback> {
    seq(|attempts|, i requires 0 <= i < |attempts| => attempts[i].feedback)
  }

  /** What one more attempt adds to the log in memory and on disk. */
  lemma SecuredStep(attempts: seq<Attempt>, i: nat, kept: seq<FindingFeedback>)
    requires i < |attempts|
    ensures kept + FeedbackOf(attempts[..i + 1]) == kept + FeedbackOf(attempts[..i]) + [attempts[i].feedback]
    ensures kept + FeedbackOf(attempts[..i + 1])[..Secured(attempts[..i + 1])] ==
      if attempts[i].writes then kept + FeedbackOf(attempts[..i + 1])
      else kept + FeedbackOf(attempts[..i])[..Secured(attempts[..i])]
  {
    var before, done := attempts[..i], attempts[..i + 1];
    assert done[..i] == before && done[i] == attempts[i];
    assert FeedbackOf(done) == FeedbackOf(before) + [attempts[i].feedback];
    assert FeedbackOf(done)[..i + 1] == FeedbackOf(done);
  }

  /** A whole session and a restart. Memory holds the old log and every new record; the restart finds
      the old log and every record up to the last successful write, those whose own write failed
      included. */
  method SessionAndRestart(path: FeedbackFile, attempts: seq<Attempt>)
    returns (store: FeedbackStore, again: FeedbackStore)
    modifies path
    ensures store.entries == old(path.content).UnwrapOr([]) + FeedbackOf(attempts)
    ensures again.entries == old(path.content).UnwrapOr([]) + FeedbackOf(attempts)[..Secured(attempts)]
  {
    ghost var kept := path.content.UnwrapOr([]);
    store := new FeedbackStore.WithPath(path);
    for i := 0 to |attempts|
      invariant fresh(store) && store.path == path
      invariant store.entries == kept + FeedbackOf(attempts[..i])
      invariant path.content.UnwrapOr([]) == kept + FeedbackOf(attempts[..i])[..Secured(attempts[..i])]
    {
      SecuredStep(attempts, i, kept);
      var ok := store.Record(attempts[i].feedback, attempts[i].writes);
    }
    assert attempts[..|attempts|] == attempts;
    again := new FeedbackStore.WithPath(path);
  }
}

/**
  Selections of stored runs, end to end: a selection is loaded, correlated and assessed, and two
  of them are compared. The two sides are cut out of the correlation of their union.
 */
module Selections {
  import opened Capture
  import opened CaptureLoops
  import opened Comparison
  import opened ComparisonSides
  import opened Correlation
  import opened CorrelationLaws
  import opened Evidence
  import opened Feedback
  import opened Runs
  import opened Wrappers

  // ---------------------------------------------------------------- runs picked from a list

  /** The runs that pass a test, in their order. */
  function Keep(sources: seq<RunSource>, test: RunSource -> bool): seq<RunSource> {
    if sources == [] then []
    else (if test(sources[0]) then [sources[0]] else []) + Keep(sources[1..], test)
  }

  /** The stored runs of a project under some identifiers. */
  function Loaded(project: string, stored: seq<RunSource>, ids: set<Uuid>): seq<RunSource> {
    Keep(stored, (s: RunSource) => s.project == project && s.runId in ids)
  }

  /** The runs under some identifiers. */
  function Picked(sources: seq<RunSource>, ids: set<Uuid>): seq<RunSource> {
    Keep(sources, (s: RunSource) => s.runId in ids)
  }

  function IdSet(ids: seq<Uuid>): set<Uuid> {
    set i | 0 <= i < |ids| :: ids[i]
  }

  predicate NoRepeats(ids: seq<Uuid>) {
    forall i, j | 0 <= i < j < |ids| :: ids[i] != ids[j]
  }

  /** The identifiers of either list. */
  function Union(a: seq<Uuid>, b: seq<Uuid>): (r: seq<Uuid>)
    ensures IdSet(r) == IdSet(a) + IdSet(b)
    ensures NoRepeats(a) && NoRepeats(b) ==> NoRepeats(r)
    ensures |a| <= |r|
    decreases |b|
  {
    if b == [] then
      a
    else
      var r := Union(a, b[..|b| - 1]);
      var last := b[|b| - 1];
      assert b == b[..|b| - 1] + [last];
      IdSetAppend(b[..|b| - 1], last);
      IdSetAppend(r, last);
      if last in r then r else r + [last]
  }

  lemma IdSetAppend(ids: seq<Uuid>, id: Uuid)
    ensures IdSet(ids + [id]) == IdSet(ids) + {id}
    ensures forall r :: r in ids <==> r in IdSet(ids)
  {
    var all := ids + [id];
    assert all[|ids|] == id;
    assert forall i | 0 <= i < |ids| :: all[i] == ids[i];
  }

  lemma {:induction false} KeepCount(sources: seq<RunSource>, test: RunSource -> bool, s: RunSource)
    ensures multiset(Keep(sources, test))[s] == if test(s) then multiset(sources)[s] else 0
  {
    if sources != [] {
      KeepCount(sources[1..], test, s);
      assert sources == [sources[0]] + sources[1..];
    }
  }

  lemma {:induction false} KeepMembers(sources: seq<RunSource>, test: RunSource -> bool)
    ensures forall s :: s in Keep(sources, test) <==> s in sources && test(s)
  {
    forall s
      ensures s in Keep(sources, test) <==> s in sources && test(s)
    {
      KeepCount(sources, test, s);
      assert s in Keep(sources, test) <==> s in multiset(Keep(sources, test));
      assert s in sources <==> s in multiset(sources);
    }
  }

  lemma {:induction false} KeepDistinct(sources: seq<RunSource>, test: RunSource -> bool)
    requires DistinctRuns(sources)
    ensures DistinctRuns(Keep(sources, test))
  {
    if sources != [] {
      var rest := sources[1..];
      assert DistinctRuns(rest) && forall s | s in rest :: s.runId != sources[0].runId by {
        assert forall i | 0 <= i < |rest| :: rest[i] == sources[i + 1];
      }
      KeepDistinct(rest, test);
      KeepMembers(rest, test);
      assert forall i | 0 <= i < |Keep(rest, test)| :: Keep(rest, test)[i] in rest;
    }
  }

  // ---------------------------------------------------------------- loading a selection

  datatype SelectionError = EmptySide | RepeatedOnSide | MissingRun | NotCorrelated(error: CorrelationError)

  predicate Holds(project: string, stored: seq<RunSource>, id: Uuid) {
    exists i :: 0 <= i < |stored| && stored[i].runId == id && stored[i].project == project
  }

  predicate HoldsAll(project: string, stored: seq<RunSource>, ids: set<Uuid>) {
    forall id | id in ids :: Holds(project, stored, id)
  }

  lemma {:induction false} DistinctCount(sources: seq<RunSource>)
    requires DistinctRuns(sources)
    ensures |RunIds(sources)| == |sources|
  {
    if sources != [] {
      var n := |sources| - 1;
      var before := sources[..n];
      assert forall i | 0 <= i < n :: before[i] == sources[i];
      DistinctCount(before);
      assert sources[n].runId !in RunIds(before);
      assert RunIds(sources) == RunIds(before) + {sources[n].runId} by {
        forall id
          ensures id in RunIds(sources) <==> id in RunIds(before) + {sources[n].runId}
        {
          if id in RunIds(before) {
            var i :| 0 <= i < n && before[i].runId == id;
            assert sources[i].runId == id;
          }
        }
      }
    }
  }

  lemma LoadedIds(project: string, stored: seq<RunSource>, ids: set<Uuid>)
    ensures forall id :: id in RunIds(Loaded(project, stored, ids)) <==> id in ids && Holds(project, stored, id)
  {
    var test := (s: RunSource) => s.project == project && s.runId in ids;
    var loaded := Keep(stored, test);
    KeepMembers(stored, test);
    forall id
      ensures id in RunIds(loaded) <==> id in ids && Holds(project, stored, id)
    {
      if id in RunIds(loaded) {
        var i :| 0 <= i < |loaded| && loaded[i].runId == id;
        assert loaded[i] in stored;
        var j :| 0 <= j < |stored| && stored[j] == loaded[i];
      }
      if id in ids && Holds(project, stored, id) {
        var j :| 0 <= j < |stored| && stored[j].runId == id && stored[j].project == project;
        assert stored[j] in loaded;
        var i :| 0 <= i < |loaded| && loaded[i] == stored[j];
      }
    }
  }

  lemma SameSize(small: set<Uuid>, large: set<Uuid>)
    requires small <= large
    ensures |small| == |large| <==> small == large
  {
    assert large == small + (large - small) && small !! (large - small);
    if |small| == |large| {
      assert |large - small| == 0;
    }
  }

  /** As many runs are loaded as were asked for exactly when all of them are stored. */
  lemma LoadedCount(project: string, stored: seq<RunSource>, ids: set<Uuid>)
    requires DistinctRuns(stored)
    ensures DistinctRuns(Loaded(project, stored, ids))
    ensures |Loaded(project, stored, ids)| == |ids| <==> HoldsAll(project, stored, ids)
    ensures HoldsAll(project, stored, ids) ==> RunIds(Loaded(project, stored, ids)) == ids
  {
    var loaded := Loaded(project, stored, ids);
    KeepDistinct(stored, (s: RunSource) => s.project == project && s.runId in ids);
    DistinctCount(loaded);
    LoadedIds(project, stored, ids);
    SameSize(RunIds(loaded), ids);
  }

  /** What a caller must select: some runs, each once, all of them stored under the project. */
  predicate Selectable(project: string, stored: seq<RunSource>, ids: seq<Uuid>) {
    ids != [] && NoRepeats(ids) && HoldsAll(project, stored, IdSet(ids))
  }

  /** `correlate_history` over the stored runs that have a completed report. */
  method CorrelateHistory(project: string, stored: seq<RunSource>, ids: seq<Uuid>, parsing: Parsing)
    returns (r: Result<CorrelationResult, SelectionError>)
    requires DistinctRuns(stored)
    ensures Selectable(project, stored, ids) ==>
              match Correlated(project, Loaded(project, stored, IdSet(ids)), parsing)
              case Failure(e) => r == Failure(NotCorrelated(e))
              case Success(c) => r == Success(c)
    ensures !Selectable(project, stored, ids) ==>
              r == Failure(if ids == [] then EmptySide else if !NoRepeats(ids) then RepeatedOnSide else MissingRun)
  {
    if ids == [] {
      return Failure(EmptySide);
    }
    if exists i, j :: 0 <= i < j < |ids| && ids[i] == ids[j] {
      return Failure(RepeatedOnSide);
    }
    var sources := Loaded(project, stored, IdSet(ids));
    LoadedCount(project, stored, IdSet(ids));
    if |sources| != |IdSet(ids)| {
      return Failure(MissingRun);
    }
    var c := Correlate(project, sources, parsing);
    if c.Failure? {
      return Failure(NotCorrelated(c.error));
    }
    return Success(c.value);
  }

  /** A selection of stored runs correlated and assessed: the assessor's condition on findings always holds. */
  method AssessSelection(project: string, sources: seq<RunSource>, parsing: Parsing, review: Review)
    returns (r: Result<(CorrelationResult, seq<Assessment>), CorrelationError>)
    ensures match Correlated(project, sources, parsing)
            case Failure(e) => r == Failure(e)
            case Success(c) => r.Success? && r.value.0 == c && ListsAll(r.value.1, c, review)
  {
    var c := Correlate(project, sources, parsing);
    if c.Failure? {
      return Failure(c.error);
    }
    CorrelatedOwn(project, sources, parsing);
    var list := AssessCorrelation(c.value, review);
    return Success((c.value, list));
  }

  lemma SortedEvidenced(project: string, sources: seq<RunSource>, parsing: Parsing)
    requires Correlated(project, sources, parsing).Success? && Evidenced(sources)
    ensures Evidenced(Correlated(project, sources, parsing).value.sources)
  {
    var selected := Correlated(project, sources, parsing).value.sources;
    forall i, k | 0 <= i < |selected| && 0 <= k < |selected[i].report.matches|
      ensures selected[i].report.matches[k].evidence != []
    {
      SortedMembers(sources, selected[i]);
      var j :| 0 <= j < |sources| && sources[j] == selected[i];
    }
  }

  /** A state that is given to some context of two selections of stored captures is never `resolved`. */
  lemma {:induction false} CapturesOnly(
    b: CorrelationResult, baseline: seq<Assessment>, c: CorrelationResult, current: seq<Assessment>,
    health: Option<map<(Uuid, Digest), Health>>, review: Review, x: Entries, y: Entries, key: ContextKey)
    requires ListsAll(baseline, b, review) && ListsAll(current, c, review)
    requires Build(CaptureBasis(b, health, review), baseline, |baseline|) == Success(x)
    requires Build(CaptureBasis(c, health, review), current, |current|) == Success(y)
    ensures Conclude(key.address, EntryAt(x, key), EntryAt(y, key), review.templates).state != Resolved
  {
    forall i | 0 <= i < |baseline|
      ensures baseline[i].id.claim == baseline[i].claim
    {
      ExpectedCites(b, baseline[i].id, review);
    }
    forall i | 0 <= i < |current|
      ensures current[i].id.claim == current[i].claim
    {
      ExpectedCites(c, current[i].id, review);
    }
    CapturesNeverResolve(
      CaptureBasis(b, health, review), baseline, x, CaptureBasis(c, health, review), current, y, key, review.templates);
  }

  lemma {:induction false} OwnSide(
    project: string, sources: seq<RunSource>, parsing: Parsing, list: seq<Assessment>, review: Review,
    health: Option<map<(Uuid, Digest), Health>>)
    requires Correlated(project, sources, parsing).Success? && Evidenced(sources)
    requires ListsAll(list, Correlated(project, sources, parsing).value, review)
    ensures var c := Correlated(project, sources, parsing).value;
            var side := SideOf(ReportOf(c, list), Support(Some(c), None, health), review);
            && c.project == project && side.Success?
            && Build(CaptureBasis(c, health, review), list, |list|) == side
  {
    var c := CorrelatedParts(project, sources, parsing);
    SortedEvidenced(project, sources, parsing);
    OwnReportAccepted(project, sources, parsing, list, review, health);
    OwnReportIds(c, list);
  }

  /** The side built of a correlation and the assessments it yields. */
  function OwnEntries(
    c: CorrelationResult, list: seq<Assessment>, review: Review, health: Option<map<(Uuid, Digest), Health>>)
    : Result<Entries, ComparisonError>
  {
    SideOf(ReportOf(c, list), Support(Some(c), None, health), review)
  }

  /** The results cover the contexts of what `earlier` and `later`, the assessments of two correlations, say. */
  ghost predicate ComparesLists(
    b: CorrelationResult, earlier: seq<Assessment>, c: CorrelationResult, later: seq<Assessment>, review: Review,
    health: Option<map<(Uuid, Digest), Health>>, r: seq<HistoricalComparison>)
  {
    && ListsAll(earlier, b, review) && ListsAll(later, c, review)
    && OwnEntries(b, earlier, review, health).Success? && OwnEntries(c, later, review, health).Success?
    && var x, y := OwnEntries(b, earlier, review, health).value, OwnEntries(c, later, review, health).value;
       Covers(r, x.Keys + y.Keys, b.project, x, y, review.templates)
  }

  /** The results compare the assessments of the first correlation, as the baseline, with those of the second. */
  ghost predicate Compares(
    b: CorrelationResult, c: CorrelationResult, review: Review, health: Option<map<(Uuid, Digest), Health>>,
    r: seq<HistoricalComparison>)
  {
    exists earlier, later :: ComparesLists(b, earlier, c, later, review, health, r)
  }

  /** Two selections that correlate are correlated, assessed and compared. */
  method CompareCorrelated(
    project: string, baseline: seq<RunSource>, current: seq<RunSource>, parsing: Parsing, review: Review,
    health: Option<map<(Uuid, Digest), Health>>)
    returns (r: seq<HistoricalComparison>)
    requires Correlated(project, baseline, parsing).Success? && Evidenced(baseline)
    requires Correlated(project, current, parsing).Success? && Evidenced(current)
    ensures ValidComparisons(project, r)
    ensures forall i | 0 <= i < |r| :: r[i].conclusion.state != Resolved
    ensures Compares(
              Correlated(project, baseline, parsing).value, Correlated(project, current, parsing).value, review, health, r)
  {
    var before := AssessSelection(project, baseline, parsing, review);
    var after := AssessSelection(project, current, parsing, review);
    var (b, earlier) := before.value;
    var (c, later) := after.value;
    OwnSide(project, baseline, parsing, earlier, review, health);
    OwnSide(project, current, parsing, later, review, health);
    var compared := CompareAssessments(
      ReportOf(b, earlier), ReportOf(c, later), Support(Some(b), None, health), Support(Some(c), None, health), review);
    ghost var x, y := OwnEntries(b, earlier, review, health).value, OwnEntries(c, later, review, health).value;
    r := compared.value;
    assert ComparesLists(b, earlier, c, later, review, health, r);
    forall i | 0 <= i < |r|
      ensures r[i].conclusion.state != Resolved
    {
      CapturesOnly(b, earlier, c, later, health, review, x, y, r[i].key);
    }
  }

  // ---------------------------------------------------------------- two selections compared

  /** A side cut out of the correlation of the union holds the runs that the side alone would load. */
  lemma SameRuns(project: string, stored: seq<RunSource>, ids: set<Uuid>, all: set<Uuid>)
    requires ids <= all
    ensures multiset(Picked(Sorted(Loaded(project, stored, all)), ids)) == multiset(Loaded(project, stored, ids))
  {
    var loaded := Loaded(project, stored, all);
    SortedKeeps(loaded);
    forall s: RunSource
      ensures multiset(Picked(Sorted(loaded), ids))[s] == multiset(Loaded(project, stored, ids))[s]
    {
      KeepCount(Sorted(loaded), (s: RunSource) => s.runId in ids, s);
      KeepCount(stored, (s: RunSource) => s.project == project && s.runId in all, s);
      KeepCount(stored, (s: RunSource) => s.project == project && s.runId in ids, s);
    }
  }

  lemma PartOfUnion(project: string, stored: seq<RunSource>, ids: set<Uuid>, all: set<Uuid>)
    requires DistinctRuns(stored) && ids <= all && ids != {} && HoldsAll(project, stored, ids)
    ensures var whole := Loaded(project, stored, all);
            var part := Picked(Sorted(whole), ids);
            && part != [] && DistinctRuns(part) && Within(part, whole)
            && multiset(part) == multiset(Loaded(project, stored, ids))
  {
    var whole := Loaded(project, stored, all);
    var part := Picked(Sorted(whole), ids);
    LoadedCount(project, stored, all);
    LoadedCount(project, stored, ids);
    SortedDistinct(whole);
    KeepDistinct(Sorted(whole), (s: RunSource) => s.runId in ids);
    KeepMembers(Sorted(whole), (s: RunSource) => s.runId in ids);
    forall s | s in part
      ensures s in whole
    {
      SortedMembers(whole, s);
    }
    SameRuns(project, stored, ids, all);
    assert |multiset(part)| == |part| == |Loaded(project, stored, ids)| == |ids|;
  }

  /** A selection that correlates is correlated whole. */
  lemma LoadedRuns(project: string, stored: seq<RunSource>, ids: set<Uuid>, parsing: Parsing)
    requires DistinctRuns(stored) && HoldsAll(project, stored, ids)
    requires Correlated(project, Loaded(project, stored, ids), parsing).Success?
    ensures RunIds(Correlated(project, Loaded(project, stored, ids), parsing).value.sources) == ids
  {
    LoadedCount(project, stored, ids);
    SortedDistinct(Loaded(project, stored, ids));
  }

  /**
    Cutting a side out of the correlation of the union and correlating it again is correlating
    the side alone; and when the union correlates, every side that is not empty does.
   */
  lemma SideOfUnion(project: string, stored: seq<RunSource>, ids: set<Uuid>, all: set<Uuid>, parsing: Parsing)
    requires DistinctRuns(stored) && ids <= all && ids != {} && HoldsAll(project, stored, ids)
    requires Correlated(project, Loaded(project, stored, all), parsing).Success?
    ensures var part := Picked(Correlated(project, Loaded(project, stored, all), parsing).value.sources, ids);
            && Correlated(project, part, parsing).Success?
            && Correlated(project, part, parsing) == Correlated(project, Loaded(project, stored, ids), parsing)
            && RunIds(Correlated(project, part, parsing).value.sources) == ids
  {
    var whole := Loaded(project, stored, all);
    var part := Picked(Sorted(whole), ids);
    PartOfUnion(project, stored, ids, all);
    RestrictionLaw(project, part, whole, parsing);
    IgnoresInputOrder(project, part, Loaded(project, stored, ids), parsing);
    LoadedRuns(project, stored, ids, parsing);
  }

  lemma {:induction false} KeepEvidenced(sources: seq<RunSource>, test: RunSource -> bool)
    requires Evidenced(sources)
    ensures Evidenced(Keep(sources, test))
  {
    var kept := Keep(sources, test);
    KeepMembers(sources, test);
    forall i | 0 <= i < |kept|
      ensures forall k | 0 <= k < |kept[i].report.matches| :: kept[i].report.matches[k].evidence != []
    {
      assert kept[i] in sources;
      var j :| 0 <= j < |sources| && sources[j] == kept[i];
    }
  }

  lemma UnionEvidenced(project: string, stored: seq<RunSource>, all: set<Uuid>, ids: set<Uuid>, parsing: Parsing)
    requires Evidenced(stored) && Correlated(project, Loaded(project, stored, all), parsing).Success?
    ensures Evidenced(Picked(Correlated(project, Loaded(project, stored, all), parsing).value.sources, ids))
  {
    KeepEvidenced(stored, (s: RunSource) => s.project == project && s.runId in all);
    SortedEvidenced(project, Loaded(project, stored, all), parsing);
    KeepEvidenced(
      Correlated(project, Loaded(project, stored, all), parsing).value.sources, (s: RunSource) => s.runId in ids);
  }

  lemma PartHolds(project: string, stored: seq<RunSource>, ids: set<Uuid>, all: set<Uuid>)
    requires ids <= all && HoldsAll(project, stored, all)
    ensures HoldsAll(project, stored, ids)
  {
  }

  /** What a caller of the comparison must select. */
  predicate BothSelectable(project: string, stored: seq<RunSource>, baseline: seq<Uuid>, current: seq<Uuid>) {
    Selectable(project, stored, baseline) && Selectable(project, stored, current)
  }

  lemma {:induction false} UnionSelectable(project: string, stored: seq<RunSource>, a: seq<Uuid>, b: seq<Uuid>)
    requires a != [] && b != [] && NoRepeats(a) && NoRepeats(b)
    ensures Selectable(project, stored, Union(a, b)) <==> BothSelectable(project, stored, a, b)
  {
    assert IdSet(Union(a, b)) == IdSet(a) + IdSet(b);
    if Selectable(project, stored, Union(a, b)) {
      PartHolds(project, stored, IdSet(a), IdSet(Union(a, b)));
      PartHolds(project, stored, IdSet(b), IdSet(Union(a, b)));
    }
  }

  /**
    `compare_history`. Once both selections are sensible and their union correlates, nothing
    fails: each side correlates, the comparator refuses neither, its report satisfies the
    validator and compares what each selection alone would yield, and no context is called
    resolved.
   */
  method CompareHistory(
    project: string, stored: seq<RunSource>, baseline: seq<Uuid>, current: seq<Uuid>, parsing: Parsing, review: Review,
    health: Option<map<(Uuid, Digest), Health>>)
    returns (r: Result<seq<HistoricalComparison>, SelectionError>)
    requires DistinctRuns(stored) && Evidenced(stored)
    ensures r.Success? <==>
            && BothSelectable(project, stored, baseline, current)
            && Correlated(project, Loaded(project, stored, IdSet(Union(baseline, current))), parsing).Success?
    ensures r.Success? ==>
              ValidComparisons(project, r.value)
              && forall i | 0 <= i < |r.value| :: r.value[i].conclusion.state != Resolved
    ensures r.Success? ==>
              && var b := Correlated(project, Loaded(project, stored, IdSet(baseline)), parsing);
                 var c := Correlated(project, Loaded(project, stored, IdSet(current)), parsing);
                 b.Success? && c.Success? && Compares(b.value, c.value, review, health, r.value)
  {
    if baseline == [] || current == [] {
      return Failure(EmptySide);
    }
    if !NoRepeats(baseline) || !NoRepeats(current) {
      return Failure(RepeatedOnSide);
    }
    UnionSelectable(project, stored, baseline, current);
    var combined := CorrelateHistory(project, stored, Union(baseline, current), parsing);
    if combined.Failure? {
      return Failure(combined.error);
    }
    ghost var all := IdSet(Union(baseline, current));
    assert baseline[0] in IdSet(baseline) && current[0] in IdSet(current);
    SideOfUnion(project, stored, IdSet(baseline), all, parsing);
    SideOfUnion(project, stored, IdSet(current), all, parsing);
    UnionEvidenced(project, stored, all, IdSet(baseline), parsing);
    UnionEvidenced(project, stored, all, IdSet(current), parsing);
    var compared := CompareCorrelated(
      project, Picked(combined.value.sources, IdSet(baseline)), Picked(combined.value.sources, IdSet(current)),
      parsing, review, health);
    return Success(compared);
  }
}

/**
  What grouping keeps: the input order does not matter, a smaller selection is the larger
  one cut down, every occurrence lands in exactly one group, and no reference dangles.
 */
module CorrelationLaws {
  import opened Correlation
  import opened Evidence
  import opened Runs

  // ---------------------------------------------------------------- where events come from

  /** `e` is an occurrence that run `s` contributes. */
  predicate Contributes(project: string, s: RunSource, e: Event, parsing: Parsing) {
    && e.ref.runId == s.runId
    && match e.ref
       case ContextRef(_) => e.mark in ContextMarks(s.webTarget)
       case ObservationRef(_, n) =>
         && n < |s.report.observations|
         && ObservationMarks(s.report.observations[n], parsing).Success?
         && e.mark in ObservationMarks(s.report.observations[n], parsing).value
       case MatchRef(_, n) =>
         && n < |s.report.matches|
         && MatchMarks(project, s.report.matches[n], parsing).Success?
         && e.mark in MatchMarks(project, s.report.matches[n], parsing).value
  }

  lemma TaggedMembers(marks: seq<Mark>, ref: SourceRef, e: Event)
    ensures e in Tagged(marks, ref) <==> e.ref == ref && e.mark in marks
  {
    if e.ref == ref && e.mark in marks {
      var i :| 0 <= i < |marks| && marks[i] == e.mark;
      assert Tagged(marks, ref)[i] == e;
    }
  }

  lemma {:induction false} ObservationMembers(project: string, s: RunSource, n: nat, parsing: Parsing, e: Event)
    requires n <= |s.report.observations| && ObservationEvents(s, n, parsing).Success?
    ensures e in ObservationEvents(s, n, parsing).value
            <==> Contributes(project, s, e, parsing)
                 && (e.ref.ContextRef? || (e.ref.ObservationRef? && e.ref.ordinal < n))
  {
    if n == 0 {
      TaggedMembers(ContextMarks(s.webTarget), ContextRef(s.runId), e);
    } else {
      ObservationMembers(project, s, n - 1, parsing, e);
      var marks := ObservationMarks(s.report.observations[n - 1], parsing).value;
      TaggedMembers(marks, ObservationRef(s.runId, n - 1), e);
    }
  }

  lemma {:induction false} MatchMembers(project: string, s: RunSource, n: nat, parsing: Parsing, e: Event)
    requires n <= |s.report.matches| && MatchEvents(project, s, n, parsing).Success?
    ensures e in MatchEvents(project, s, n, parsing).value
            <==> Contributes(project, s, e, parsing) && (e.ref.MatchRef? ==> e.ref.ordinal < n)
  {
    if n == 0 {
      ObservationMembers(project, s, |s.report.observations|, parsing, e);
    } else {
      MatchMembers(project, s, n - 1, parsing, e);
      var marks := MatchMarks(project, s.report.matches[n - 1], parsing).value;
      TaggedMembers(marks, MatchRef(s.runId, n - 1), e);
    }
  }

  /** Some run among the first `n` contributes `e`. */
  predicate Contributed(project: string, sources: seq<RunSource>, n: nat, e: Event, parsing: Parsing)
    requires n <= |sources|
  {
    exists i :: 0 <= i < n && Contributes(project, sources[i], e, parsing)
  }

  /** The recorded events are exactly the contributions of the selected runs. */
  lemma {:induction false} EventMembers(project: string, sources: seq<RunSource>, n: nat, parsing: Parsing, e: Event)
    requires n <= |sources| && EventsUpTo(project, sources, n, parsing).Success?
    ensures e in EventsUpTo(project, sources, n, parsing).value <==> Contributed(project, sources, n, e, parsing)
  {
    if n > 0 {
      EventMembers(project, sources, n - 1, parsing, e);
      var s := sources[n - 1];
      MatchMembers(project, s, |s.report.matches|, parsing, e);
    }
  }

  /** A selection can be read exactly when each of its runs can. */
  lemma {:induction false} AllReadable(project: string, sources: seq<RunSource>, n: nat, parsing: Parsing)
    requires n <= |sources|
    ensures EventsUpTo(project, sources, n, parsing).Success?
            <==> forall i | 0 <= i < n :: SourceEvents(project, sources[i], parsing).Success?
  {
    if n > 0 {
      AllReadable(project, sources, n - 1, parsing);
    }
  }

  lemma RefMembers(events: seq<Event>, m: Mark, r: SourceRef)
    ensures r in RefsOf(events, m) <==> Event(m, r) in events
    ensures Event(m, r) in events ==> m in MarksOf(events)
  {
    if Event(m, r) in events {
      var i :| 0 <= i < |events| && events[i] == Event(m, r);
      assert events[i].mark == m;
    }
  }

  /** A reference stands in a group exactly when some selected run contributes it. */
  lemma GroupMembers(project: string, sources: seq<RunSource>, parsing: Parsing, m: Mark, r: SourceRef)
    requires EventsOf(project, sources, parsing).Success?
    ensures var groups := GroupsOf(EventsOf(project, sources, parsing).value);
            && ((m in groups && r in groups[m]) <==> Contributed(project, sources, |sources|, Event(m, r), parsing))
            && (m in groups ==> groups[m] != {})
  {
    var events := EventsOf(project, sources, parsing).value;
    RefMembers(events, m, r);
    EventMembers(project, sources, |sources|, parsing, Event(m, r));
    if m in MarksOf(events) {
      var i :| 0 <= i < |events| && events[i].mark == m;
      assert events[i].ref in RefsOf(events, m);
    }
  }

  // ---------------------------------------------------------------- input order

  lemma {:induction false} InsertMultiset(s: RunSource, sorted: seq<RunSource>)
    ensures multiset(Insert(s, sorted)) == multiset(sorted) + multiset{s}
  {
    if sorted != [] {
      assert sorted == [sorted[0]] + sorted[1..];
      InsertMultiset(s, sorted[1..]);
    }
  }

  lemma {:induction false} InsertKeeps(s: RunSource, sorted: seq<RunSource>)
    requires Ordered(sorted)
    ensures Ordered(Insert(s, sorted)) && multiset(Insert(s, sorted)) == multiset(sorted) + multiset{s}
  {
    InsertMultiset(s, sorted);
    if sorted != [] && sorted[0].runId < s.runId {
      var first, others := sorted[0], sorted[1..];
      InsertKeeps(s, others);
      var rest := Insert(s, others);
      forall i | 0 <= i < |rest|
        ensures first.runId <= rest[i].runId
      {
        assert rest[i] in multiset(rest);
        assert rest[i] in multiset(others) || rest[i] == s;
      }
    }
  }

  lemma {:induction false} SortedKeeps(sources: seq<RunSource>)
    ensures Ordered(Sorted(sources)) && multiset(Sorted(sources)) == multiset(sources)
  {
    if sources != [] {
      SortedKeeps(sources[1..]);
      InsertKeeps(sources[0], Sorted(sources[1..]));
      assert sources == [sources[0]] + sources[1..];
    }
  }

  lemma SameFirst(a: seq<RunSource>, b: seq<RunSource>)
    requires Ordered(a) && Ordered(b) && multiset(a) == multiset(b) && DistinctRuns(a) && a != []
    ensures b != [] && a[0] == b[0]
  {
    assert forall i | 0 < i < |a| :: a[0].runId < a[i].runId;
    assert a[0] in multiset(b);
    var j :| 0 <= j < |b| && b[j] == a[0];
    assert b[0] in multiset(a);
    var k :| 0 <= k < |a| && a[k] == b[0];
    assert b[0].runId <= b[j].runId;
  }

  lemma {:induction false} SortedUnique(a: seq<RunSource>, b: seq<RunSource>)
    requires Ordered(a) && Ordered(b) && multiset(a) == multiset(b) && DistinctRuns(a)
    ensures a == b
  {
    assert |a| == |multiset(a)| == |multiset(b)| == |b|;
    if a != [] {
      SameFirst(a, b);
      RestMultiset(a);
      RestMultiset(b);
      SortedUnique(a[1..], b[1..]);
      assert a == [a[0]] + a[1..] && b == [b[0]] + b[1..];
    }
  }

  lemma RestMultiset(a: seq<RunSource>)
    requires a != []
    ensures multiset(a[1..]) == multiset(a) - multiset{a[0]}
  {
    assert a == [a[0]] + a[1..];
  }

  /** The order in which runs are given makes no difference, to the result or to the refusal. */
  lemma IgnoresInputOrder(project: string, a: seq<RunSource>, b: seq<RunSource>, parsing: Parsing)
    requires multiset(a) == multiset(b)
    ensures Correlated(project, a, parsing) == Correlated(project, b, parsing)
  {
    SortedKeeps(a);
    SortedKeeps(b);
    var x, y := Sorted(a), Sorted(b);
    if DistinctRuns(x) {
      SortedUnique(x, y);
    } else if DistinctRuns(y) {
      SortedUnique(y, x);
    } else {
      ForeignEither(project, x, y);
      ForeignEither(project, y, x);
    }
  }

  lemma ForeignEither(project: string, x: seq<RunSource>, y: seq<RunSource>)
    requires multiset(x) == multiset(y)
    ensures x == [] ==> y == []
    ensures (exists i :: 0 <= i < |x| && x[i].project != project) ==> exists i :: 0 <= i < |y| && y[i].project != project
  {
    if x == [] {
      assert |multiset(y)| == 0;
    }
    if i :| 0 <= i < |x| && x[i].project != project {
      assert x[i] in multiset(y);
      var j :| 0 <= j < |y| && y[j] == x[i];
    }
  }

  // ---------------------------------------------------------------- the restriction law

  function Cut(refs: set<SourceRef>, runs: set<Uuid>): set<SourceRef> {
    set r | r in refs && r.runId in runs
  }

  /** The groups with their references cut to some runs, and emptied groups dropped. */
  function Restrict(groups: Groups, runs: set<Uuid>): Groups {
    map m | m in groups && Cut(groups[m], runs) != {} :: Cut(groups[m], runs)
  }

  /** Every run of `part` is a run of `whole`. */
  predicate Within(part: seq<RunSource>, whole: seq<RunSource>) {
    forall s | s in part :: s in whole
  }

  lemma {:induction false} SortedMembers(sources: seq<RunSource>, s: RunSource)
    ensures s in Sorted(sources) <==> s in sources
  {
    SortedKeeps(sources);
    assert s in multiset(sources) <==> s in sources;
    assert s in multiset(Sorted(sources)) <==> s in Sorted(sources);
  }

  lemma ContributedWithin(project: string, part: seq<RunSource>, whole: seq<RunSource>, e: Event, parsing: Parsing)
    requires Within(part, whole) && DistinctRuns(whole)
    ensures Contributed(project, part, |part|, e, parsing)
            <==> Contributed(project, whole, |whole|, e, parsing) && e.ref.runId in RunIds(part)
  {
    if i :| 0 <= i < |part| && Contributes(project, part[i], e, parsing) {
      assert part[i] in whole;
      var j :| 0 <= j < |whole| && whole[j] == part[i];
    }
    if Contributed(project, whole, |whole|, e, parsing) && e.ref.runId in RunIds(part) {
      var j :| 0 <= j < |whole| && Contributes(project, whole[j], e, parsing);
      var i :| 0 <= i < |part| && part[i].runId == e.ref.runId;
      assert part[i] in whole;
      var k :| 0 <= k < |whole| && whole[k] == part[i];
      assert k == j;
    }
  }

  lemma RestrictedGroups(project: string, part: seq<RunSource>, whole: seq<RunSource>, parsing: Parsing)
    requires Within(part, whole) && DistinctRuns(whole)
    requires EventsOf(project, part, parsing).Success? && EventsOf(project, whole, parsing).Success?
    ensures GroupsOf(EventsOf(project, part, parsing).value)
            == Restrict(GroupsOf(EventsOf(project, whole, parsing).value), RunIds(part))
  {
    var small := GroupsOf(EventsOf(project, part, parsing).value);
    var large := GroupsOf(EventsOf(project, whole, parsing).value);
    var cut := Restrict(large, RunIds(part));
    forall m: Mark, r: SourceRef
      ensures (m in small && r in small[m]) <==> (m in cut && r in cut[m])
    {
      GroupMembers(project, part, parsing, m, r);
      GroupMembers(project, whole, parsing, m, r);
      ContributedWithin(project, part, whole, Event(m, r), parsing);
      RestrictMembers(large, RunIds(part), m, r);
    }
    forall m | m in small
      ensures small[m] != {}
    {
      GroupMembers(project, part, parsing, m, ContextRef(0));
    }
    SameGroups(small, cut);
  }

  lemma RestrictMembers(groups: Groups, runs: set<Uuid>, m: Mark, r: SourceRef)
    ensures (m in Restrict(groups, runs) && r in Restrict(groups, runs)[m])
            <==> (m in groups && r in groups[m] && r.runId in runs)
  {
    if m in groups && r in groups[m] && r.runId in runs {
      assert r in Cut(groups[m], runs);
    }
  }

  lemma SameGroups(a: Groups, b: Groups)
    requires forall m | m in a :: a[m] != {}
    requires forall m | m in b :: b[m] != {}
    requires forall m: Mark, r: SourceRef :: (m in a && r in a[m]) <==> (m in b && r in b[m])
    ensures a == b
  {
    forall m
      ensures m in a <==> m in b
    {
      if m in a {
        var r :| r in a[m];
        assert m in b && r in b[m];
      }
      if m in b {
        var r :| r in b[m];
        assert m in a && r in a[m];
      }
    }
    forall m | m in a
      ensures a[m] == b[m]
    {
      forall r
        ensures r in a[m] <==> r in b[m]
      {
        assert (m in a && r in a[m]) <==> (m in b && r in b[m]);
      }
    }
  }

  /**
    Correlating part of a selection gives the inventory, relationships, assertions and
    findings of the whole with their references cut to that part, and nothing else.
   */
  lemma RestrictionLaw(project: string, part: seq<RunSource>, whole: seq<RunSource>, parsing: Parsing)
    requires Correlated(project, whole, parsing).Success?
    requires part != [] && DistinctRuns(part) && Within(part, whole)
    ensures Correlated(project, part, parsing).Success?
    ensures Correlated(project, part, parsing).value.groups
            == Restrict(Correlated(project, whole, parsing).value.groups, RunIds(part))
  {
    var small, large := Sorted(part), Sorted(whole);
    forall s: RunSource
      ensures (s in small <==> s in part) && (s in large <==> s in whole)
    {
      SortedMembers(part, s);
      SortedMembers(whole, s);
    }
    assert part[0] in small;
    assert Within(small, large);
    SortedDistinct(part);
    forall i | 0 <= i < |small|
      ensures small[i].project == project && SourceEvents(project, small[i], parsing).Success?
    {
      assert small[i] in large;
      var j :| 0 <= j < |large| && large[j] == small[i];
      AllReadable(project, large, |large|, parsing);
    }
    AllReadable(project, small, |small|, parsing);
    RestrictedGroups(project, small, large, parsing);
    assert RunIds(small) == RunIds(part) by {
      SameRunIds(small, part);
    }
  }

  lemma SameRunIds(a: seq<RunSource>, b: seq<RunSource>)
    requires forall s :: s in a <==> s in b
    ensures RunIds(a) == RunIds(b)
  {
    forall id
      ensures id in RunIds(a) <==> id in RunIds(b)
    {
      if id in RunIds(a) {
        var i :| 0 <= i < |a| && a[i].runId == id;
        assert a[i] in b;
      }
      if id in RunIds(b) {
        var i :| 0 <= i < |b| && b[i].runId == id;
        assert b[i] in a;
      }
    }
  }

  lemma {:induction false} InsertDistinct(s: RunSource, sorted: seq<RunSource>)
    requires Ordered(sorted) && DistinctRuns(sorted) && s.runId !in RunIds(sorted)
    ensures DistinctRuns(Insert(s, sorted)) && RunIds(Insert(s, sorted)) == RunIds(sorted) + {s.runId}
  {
    if sorted != [] && sorted[0].runId < s.runId {
      var rest := sorted[1..];
      assert forall i | 0 <= i < |rest| :: rest[i] == sorted[i + 1];
      assert RunIds(sorted) == {sorted[0].runId} + RunIds(rest) by {
        RunIdsCons(sorted[0], rest);
        assert sorted == [sorted[0]] + rest;
      }
      InsertDistinct(s, rest);
      RunIdsCons(sorted[0], Insert(s, rest));
      DistinctCons(sorted[0], rest, Insert(s, rest), s);
    } else {
      RunIdsCons(s, sorted);
      NotIn(s.runId, sorted);
    }
  }

  lemma RunIdsCons(s: RunSource, rest: seq<RunSource>)
    ensures RunIds([s] + rest) == {s.runId} + RunIds(rest)
  {
    var all := [s] + rest;
    forall id
      ensures id in RunIds(all) <==> id == s.runId || id in RunIds(rest)
    {
      if id == s.runId {
        assert all[0].runId == id;
      }
      if id in RunIds(rest) {
        var i :| 0 <= i < |rest| && rest[i].runId == id;
        assert all[i + 1].runId == id;
      }
    }
  }

  lemma NotIn(id: Uuid, sources: seq<RunSource>)
    requires id !in RunIds(sources)
    ensures forall i | 0 <= i < |sources| :: sources[i].runId != id
  {
  }

  lemma DistinctCons(first: RunSource, rest: seq<RunSource>, inserted: seq<RunSource>, s: RunSource)
    requires DistinctRuns([first] + rest) && DistinctRuns(inserted)
    requires RunIds(inserted) == RunIds(rest) + {s.runId} && s.runId != first.runId
    ensures DistinctRuns([first] + inserted)
  {
    var before := [first] + rest;
    assert before[0] == first && forall i | 0 <= i < |rest| :: before[i + 1] == rest[i];
    NotIn(first.runId, inserted);
  }

  lemma {:induction false} SortedDistinct(sources: seq<RunSource>)
    requires DistinctRuns(sources)
    ensures DistinctRuns(Sorted(sources)) && RunIds(Sorted(sources)) == RunIds(sources)
  {
    if sources != [] {
      var rest := sources[1..];
      assert sources == [sources[0]] + rest;
      SortedDistinct(rest);
      SortedKeeps(rest);
      RunIdsCons(sources[0], rest);
      assert sources[0].runId !in RunIds(rest) by {
        assert forall i | 0 <= i < |rest| :: rest[i] == sources[i + 1];
      }
      InsertDistinct(sources[0], Sorted(rest));
    }
  }

  // ---------------------------------------------------------------- partition

  predicate NoOccurrences(marks: seq<Mark>) {
    forall m | m in marks :: m.Item? || m.Relation?
  }

  lemma {:induction false} AddressItemsPlain(origin: Origin, addresses: seq<Address>)
    ensures NoOccurrences(AddressItems(origin, addresses))
  {
    if addresses != [] {
      AddressItemsPlain(origin, addresses[..|addresses| - 1]);
    }
  }

  /** An observation asserts one thing, and finds nothing. */
  lemma OneAssertion(o: Observation, parsing: Parsing, m: Mark)
    requires ObservationMarks(o, parsing).Success? && (m.Assertion? || m.Finding?)
    ensures m in ObservationMarks(o, parsing).value <==> m == AssertionOf(o)
  {
    assert NoOccurrences(SubjectMarks(o.subject));
    assert NoOccurrences(AddressMarks(o, parsing).value);
  }

  /** A match finds one thing, and asserts nothing. */
  lemma OneFinding(project: string, x: ScannerMatch, parsing: Parsing, m: Mark)
    requires MatchMarks(project, x, parsing).Success? && (m.Assertion? || m.Finding?)
    ensures m in MatchMarks(project, x, parsing).value
            <==> m == Finding(FindingOf(project, x, parsing.matched(x.origin, x.location).value))
  {
    var resource := parsing.matched(x.origin, x.location).value;
    assert NoOccurrences(ResourceMarks(x.origin, resource));
  }

  /** A completed correlation, with the facts its own checks established. */
  lemma CorrelatedParts(project: string, sources: seq<RunSource>, parsing: Parsing) returns (r: CorrelationResult)
    requires Correlated(project, sources, parsing).Success?
    ensures r == Correlated(project, sources, parsing).value
    ensures r.project == project && r.sources != [] && DistinctRuns(r.sources)
    ensures forall i | 0 <= i < |r.sources| :: r.sources[i].project == project
    ensures EventsOf(project, r.sources, parsing).Success?
    ensures r.groups == GroupsOf(EventsOf(project, r.sources, parsing).value)
  {
    r := Correlated(project, sources, parsing).value;
  }

  lemma ReadableSource(project: string, sources: seq<RunSource>, parsing: Parsing, i: nat)
    requires i < |sources| && EventsOf(project, sources, parsing).Success?
    ensures SourceEvents(project, sources[i], parsing).Success?
  {
    AllReadable(project, sources, |sources|, parsing);
  }

  lemma {:induction false} ReadableMatch(project: string, s: RunSource, n: nat, parsing: Parsing, k: nat)
    requires k < n <= |s.report.matches| && MatchEvents(project, s, n, parsing).Success?
    ensures MatchMarks(project, s.report.matches[k], parsing).Success?
  {
    if k < n - 1 {
      ReadableMatch(project, s, n - 1, parsing, k);
    }
  }

  lemma {:induction false} ReadableObservations(project: string, s: RunSource, n: nat, parsing: Parsing)
    requires n <= |s.report.matches| && MatchEvents(project, s, n, parsing).Success?
    ensures ObservationEvents(s, |s.report.observations|, parsing).Success?
  {
    if n > 0 {
      ReadableObservations(project, s, n - 1, parsing);
    }
  }

  lemma {:induction false} ReadableObservation(s: RunSource, n: nat, parsing: Parsing, k: nat)
    requires k < n <= |s.report.observations| && ObservationEvents(s, n, parsing).Success?
    ensures ObservationMarks(s.report.observations[k], parsing).Success?
  {
    if k < n - 1 {
      ReadableObservation(s, n - 1, parsing, k);
    }
  }

  /** With distinct runs, a reference can only come from the run it names. */
  lemma ContributedBy(project: string, sources: seq<RunSource>, i: nat, e: Event, parsing: Parsing)
    requires i < |sources| && DistinctRuns(sources) && e.ref.runId == sources[i].runId
    ensures Contributed(project, sources, |sources|, e, parsing) <==> Contributes(project, sources[i], e, parsing)
  {
  }

  /** Each observation stands in exactly one assertion group, and in no finding. */
  lemma ObservationsPartition(project: string, sources: seq<RunSource>, parsing: Parsing, i: nat, n: nat, m: Mark)
    requires Correlated(project, sources, parsing).Success?
    requires i < |Correlated(project, sources, parsing).value.sources|
    requires n < |Correlated(project, sources, parsing).value.sources[i].report.observations|
    requires m.Assertion? || m.Finding?
    ensures var r := Correlated(project, sources, parsing).value;
            var s := r.sources[i];
            (m in r.groups && ObservationRef(s.runId, n) in r.groups[m])
            <==> m == AssertionOf(s.report.observations[n])
  {
    var r := CorrelatedParts(project, sources, parsing);
    var s := r.sources[i];
    var e := Event(m, ObservationRef(s.runId, n));
    GroupMembers(project, r.sources, parsing, m, e.ref);
    ContributedBy(project, r.sources, i, e, parsing);
    ReadableSource(project, r.sources, parsing, i);
    ReadableObservations(project, s, |s.report.matches|, parsing);
    ReadableObservation(s, |s.report.observations|, parsing, n);
    OneAssertion(s.report.observations[n], parsing, m);
  }

  /** Each match stands in exactly one finding group, and in no assertion. */
  lemma MatchesPartition(project: string, sources: seq<RunSource>, parsing: Parsing, i: nat, n: nat, m: Mark)
    requires Correlated(project, sources, parsing).Success?
    requires i < |Correlated(project, sources, parsing).value.sources|
    requires n < |Correlated(project, sources, parsing).value.sources[i].report.matches|
    requires m.Assertion? || m.Finding?
    ensures var r := Correlated(project, sources, parsing).value;
            var s := r.sources[i];
            var x := s.report.matches[n];
            && parsing.matched(x.origin, x.location).Some?
            && ((m in r.groups && MatchRef(s.runId, n) in r.groups[m])
                <==> m == Finding(FindingOf(project, x, parsing.matched(x.origin, x.location).value)))
  {
    var r := CorrelatedParts(project, sources, parsing);
    var s := r.sources[i];
    var e := Event(m, MatchRef(s.runId, n));
    GroupMembers(project, r.sources, parsing, m, e.ref);
    ContributedBy(project, r.sources, i, e, parsing);
    ReadableSource(project, r.sources, parsing, i);
    ReadableMatch(project, s, |s.report.matches|, parsing, n);
    OneFinding(project, s.report.matches[n], parsing, m);
  }

  // ---------------------------------------------------------------- no dangling reference

  /** The inventory identities that a group refers to. */
  function Mentions(m: Mark): set<Identity> {
    match m
    case Item(_) => {}
    case Relation(_, source, target) => {source, target}
    case Assertion(subject, _, _) => {subject}
    case Finding(f) => {HttpResource(f.origin, f.resource)}
  }

  /** Whatever a list of marks mentions, it also lists as an item. */
  predicate Closed(marks: seq<Mark>) {
    forall m, id | m in marks && id in Mentions(m) :: Item(id) in marks
  }

  lemma ClosedJoin(a: seq<Mark>, b: seq<Mark>)
    requires Closed(a) && Closed(b)
    ensures Closed(a + b)
  {
  }

  lemma {:induction false} ContextClosed(origin: Origin, addresses: seq<Address>)
    ensures Closed([Item(HttpOrigin(origin))] + AddressItems(origin, addresses))
  {
    var site := Item(HttpOrigin(origin));
    if addresses != [] {
      var n := |addresses| - 1;
      ContextClosed(origin, addresses[..n]);
      var host := Host(addresses[n]);
      var last := [Item(host), Relation(ConfiguredAddress, HttpOrigin(origin), host)];
      var before := [site] + AddressItems(origin, addresses[..n]);
      assert [site] + AddressItems(origin, addresses) == before + last;
      assert before[0] == site && last[0] == Item(host);
    }
  }

  lemma SubjectClosed(subject: Subject)
    ensures Closed(SubjectMarks(subject)) && Item(SubjectIdentity(subject)) in SubjectMarks(subject)
  {
  }

  lemma ObservationClosed(o: Observation, parsing: Parsing)
    requires ObservationMarks(o, parsing).Success?
    ensures Closed(ObservationMarks(o, parsing).value)
  {
    SubjectClosed(o.subject);
    var marks := AddressMarks(o, parsing).value;
    if ReportsAddress(o) {
      var host, site := Host(o.value.text), HttpOrigin(o.subject.origin);
      assert marks[0] == Item(host) && marks[1] == Item(site);
      if o.key == PeerAddress {
        var endpoint := ServiceEndpoint(o.value.text, Tcp, o.subject.origin.port);
        assert marks[3] == Item(NetworkService(endpoint));
      }
    }
    assert Closed(marks);
    var subject := SubjectMarks(o.subject);
    assert Closed(subject + [AssertionOf(o)]);
    ClosedJoin(subject + [AssertionOf(o)], marks);
  }

  lemma MatchClosed(project: string, x: ScannerMatch, parsing: Parsing)
    requires MatchMarks(project, x, parsing).Success?
    ensures Closed(MatchMarks(project, x, parsing).value)
  {
    var resource := parsing.matched(x.origin, x.location).value;
    assert ResourceMarks(x.origin, resource)[1] == Item(HttpResource(x.origin, resource));
  }

  /** A run that contributes a mark also contributes, at the same place, every item it mentions. */
  lemma ContributesItems(project: string, s: RunSource, e: Event, parsing: Parsing, id: Identity)
    requires Contributes(project, s, e, parsing) && id in Mentions(e.mark)
    ensures Contributes(project, s, Event(Item(id), e.ref), parsing)
  {
    match e.ref {
      case ContextRef(_) => ContextClosed(s.webTarget.value.origin, s.webTarget.value.addresses);
      case ObservationRef(_, n) => ObservationClosed(s.report.observations[n], parsing);
      case MatchRef(_, n) => MatchClosed(project, s.report.matches[n], parsing);
    }
  }

  /**
    Every endpoint of a relationship, every subject of an assertion and the resource of
    every finding is in the inventory, with at least the occurrences of the group itself.
   */
  lemma NothingDangles(project: string, sources: seq<RunSource>, parsing: Parsing, m: Mark, id: Identity)
    requires Correlated(project, sources, parsing).Success?
    requires m in Correlated(project, sources, parsing).value.groups && id in Mentions(m)
    ensures var groups := Correlated(project, sources, parsing).value.groups;
            Item(id) in groups && groups[m] <= groups[Item(id)]
  {
    var r := CorrelatedParts(project, sources, parsing);
    forall ref | ref in r.groups[m]
      ensures Item(id) in r.groups && ref in r.groups[Item(id)]
    {
      GroupMembers(project, r.sources, parsing, m, ref);
      var i :| 0 <= i < |r.sources| && Contributes(project, r.sources[i], Event(m, ref), parsing);
      ContributesItems(project, r.sources[i], Event(m, ref), parsing, id);
      GroupMembers(project, r.sources, parsing, Item(id), ref);
    }
    GroupMembers(project, r.sources, parsing, m, ContextRef(0));
    var ref :| ref in r.groups[m];
  }
}

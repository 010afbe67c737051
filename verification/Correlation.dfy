/**
  `analysis.correlation.correlate`: the observations and matches of selected runs, grouped
  into inventory, relationships, assertions and findings without losing an occurrence.
  Projection identities are digests of the identities themselves, so a group is keyed here
  by what it is a group of.
 */
module Correlation {
  import opened Evidence
  import opened Runs
  import opened Wrappers

  datatype Identity =
    | Host(address: Address)
    | NetworkService(endpoint: ServiceEndpoint)
    | HttpOrigin(origin: Origin)
    | HttpResource(origin: Origin, resource: Resource)

  datatype RelationshipKind =
    | ServiceOnHost
    | ResourceOnOrigin
    | ConfiguredAddress
    | ReportedTargetAddress
    | ReportedPeerAddress
    | ReportedPeerService

  datatype FindingIdentity = FindingIdentity(
    project: string, origin: Origin, resource: Resource, templateId: string, matcher: string)

  /** One thing an occurrence can be an occurrence of. */
  datatype Mark =
    | Item(identity: Identity)
    | Relation(kind: RelationshipKind, source: Identity, target: Identity)
    | Assertion(subject: Identity, key: Key, value: Value)
    | Finding(finding: FindingIdentity)

  datatype CorrelationError = EmptySelection | ForeignProject | RepeatedRun | BadAddress | BadResource

  /** URL and address parsing: `matched_resource`, and whether a text is an acceptable IPv4 address. */
  datatype Parsing = Parsing(matched: (Origin, string) -> Option<Resource>, isAddress: string -> bool)

  // ---------------------------------------------------------------- what one occurrence contributes

  function ServiceMarks(endpoint: ServiceEndpoint): seq<Mark> {
    var service, host := NetworkService(endpoint), Host(endpoint.address);
    [Item(service), Item(host), Relation(ServiceOnHost, service, host)]
  }

  function ResourceMarks(origin: Origin, path: Resource): seq<Mark> {
    var site, resource := HttpOrigin(origin), HttpResource(origin, path);
    [Item(site), Item(resource), Relation(ResourceOnOrigin, resource, site)]
  }

  function SubjectIdentity(subject: Subject): Identity {
    match subject
    case HostSubject(address) => Host(address)
    case OriginSubject(origin) => HttpOrigin(origin)
    case ServiceSubject(endpoint) => NetworkService(endpoint)
    case HttpSubject(origin) => HttpResource(origin, ROOT)
  }

  function SubjectMarks(subject: Subject): seq<Mark> {
    match subject
    case HostSubject(address) => [Item(Host(address))]
    case OriginSubject(origin) => [Item(HttpOrigin(origin))]
    case ServiceSubject(endpoint) => ServiceMarks(endpoint)
    case HttpSubject(origin) => ResourceMarks(origin, ROOT)
  }

  predicate ReportsAddress(o: Observation) {
    o.subject.HttpSubject? && (o.key == TargetAddress || o.key == PeerAddress)
  }

  /** What an HTTP observation of a target or peer address adds. */
  function AddressMarks(o: Observation, parsing: Parsing): Result<seq<Mark>, CorrelationError> {
    if !ReportsAddress(o) then Success([])
    else if !o.value.Text? || !parsing.isAddress(o.value.text) then Failure(BadAddress)
    else
      var host, site := Host(o.value.text), HttpOrigin(o.subject.origin);
      if o.key == TargetAddress then
        Success([Item(host), Item(site), Relation(ReportedTargetAddress, site, host)])
      else
        var endpoint := ServiceEndpoint(o.value.text, Tcp, o.subject.origin.port);
        Success(
          [Item(host), Item(site), Relation(ReportedPeerAddress, site, host)]
          + ServiceMarks(endpoint)
          + [Relation(ReportedPeerService, site, NetworkService(endpoint))])
  }

  function AssertionOf(o: Observation): Mark {
    Assertion(SubjectIdentity(o.subject), o.key, o.value)
  }

  function ObservationMarks(o: Observation, parsing: Parsing): Result<seq<Mark>, CorrelationError> {
    match AddressMarks(o, parsing)
    case Failure(e) => Failure(e)
    case Success(marks) => Success(SubjectMarks(o.subject) + [AssertionOf(o)] + marks)
  }

  function FindingOf(project: string, m: ScannerMatch, resource: Resource): FindingIdentity {
    FindingIdentity(project, m.origin, resource, m.templateId, m.matcher)
  }

  function MatchMarks(project: string, m: ScannerMatch, parsing: Parsing): Result<seq<Mark>, CorrelationError> {
    match parsing.matched(m.origin, m.location)
    case None => Failure(BadResource)
    case Some(resource) => Success(ResourceMarks(m.origin, resource) + [Finding(FindingOf(project, m, resource))])
  }

  function AddressItems(origin: Origin, addresses: seq<Address>): seq<Mark> {
    if addresses == [] then []
    else
      AddressItems(origin, addresses[..|addresses| - 1])
      + [ Item(Host(addresses[|addresses| - 1])),
          Relation(ConfiguredAddress, HttpOrigin(origin), Host(addresses[|addresses| - 1]))]
  }

  function ContextMarks(target: Option<WebTarget>): seq<Mark> {
    match target
    case None => []
    case Some(t) => [Item(HttpOrigin(t.origin))] + AddressItems(t.origin, t.addresses)
  }

  // ---------------------------------------------------------------- every occurrence of the selection

  datatype Event = Event(mark: Mark, ref: SourceRef)

  function Tagged(marks: seq<Mark>, ref: SourceRef): (r: seq<Event>)
    ensures |r| == |marks| && forall i | 0 <= i < |r| :: r[i] == Event(marks[i], ref)
  {
    seq(|marks|, i requires 0 <= i < |marks| => Event(marks[i], ref))
  }

  function ObservationEvents(s: RunSource, n: nat, parsing: Parsing): Result<seq<Event>, CorrelationError>
    requires n <= |s.report.observations|
  {
    if n == 0 then Success(Tagged(ContextMarks(s.webTarget), ContextRef(s.runId)))
    else
      match ObservationEvents(s, n - 1, parsing)
      case Failure(e) => Failure(e)
      case Success(events) =>
        match ObservationMarks(s.report.observations[n - 1], parsing)
        case Failure(e) => Failure(e)
        case Success(marks) => Success(events + Tagged(marks, ObservationRef(s.runId, n - 1)))
  }

  function MatchEvents(project: string, s: RunSource, n: nat, parsing: Parsing): Result<seq<Event>, CorrelationError>
    requires n <= |s.report.matches|
  {
    if n == 0 then ObservationEvents(s, |s.report.observations|, parsing)
    else
      match MatchEvents(project, s, n - 1, parsing)
      case Failure(e) => Failure(e)
      case Success(events) =>
        match MatchMarks(project, s.report.matches[n - 1], parsing)
        case Failure(e) => Failure(e)
        case Success(marks) => Success(events + Tagged(marks, MatchRef(s.runId, n - 1)))
  }

  /** The occurrences of one run: its context, then its observations, then its matches. */
  function SourceEvents(project: string, s: RunSource, parsing: Parsing): Result<seq<Event>, CorrelationError> {
    MatchEvents(project, s, |s.report.matches|, parsing)
  }

  function EventsUpTo(project: string, sources: seq<RunSource>, n: nat, parsing: Parsing)
    : Result<seq<Event>, CorrelationError>
    requires n <= |sources|
  {
    if n == 0 then Success([])
    else
      match EventsUpTo(project, sources, n - 1, parsing)
      case Failure(e) => Failure(e)
      case Success(events) =>
        match SourceEvents(project, sources[n - 1], parsing)
        case Failure(e) => Failure(e)
        case Success(more) => Success(events + more)
  }

  function EventsOf(project: string, sources: seq<RunSource>, parsing: Parsing): Result<seq<Event>, CorrelationError> {
    EventsUpTo(project, sources, |sources|, parsing)
  }

  // ---------------------------------------------------------------- grouping

  type Groups = map<Mark, set<SourceRef>>

  /** The references under which a mark occurs. */
  function RefsOf(events: seq<Event>, m: Mark): set<SourceRef> {
    set i | 0 <= i < |events| && events[i].mark == m :: events[i].ref
  }

  function MarksOf(events: seq<Event>): set<Mark> {
    set i | 0 <= i < |events| :: events[i].mark
  }

  function GroupsOf(events: seq<Event>): Groups {
    map m | m in MarksOf(events) :: RefsOf(events, m)
  }

  /** An artifact as one scanner stored it. */
  type ArtifactKey = (Scanner, Digest)

  function KeyOf(s: RunSource): ArtifactKey {
    (s.report.evidence.scanner, s.report.evidence.artifact)
  }

  /** The runs among the first `n` that hold an artifact. */
  function Holders(sources: seq<RunSource>, n: nat, k: ArtifactKey): seq<Uuid>
    requires n <= |sources|
  {
    if n == 0 then []
    else Holders(sources, n - 1, k) + (if KeyOf(sources[n - 1]) == k then [sources[n - 1].runId] else [])
  }

  function ArtifactKeys(sources: seq<RunSource>, n: nat): set<ArtifactKey>
    requires n <= |sources|
  {
    set i | 0 <= i < n :: KeyOf(sources[i])
  }

  /** The artifacts that more than one run holds. */
  function CopiesOf(sources: seq<RunSource>): map<ArtifactKey, seq<Uuid>> {
    map k | k in ArtifactKeys(sources, |sources|) && |Holders(sources, |sources|, k)| > 1
      :: Holders(sources, |sources|, k)
  }

  datatype CorrelationResult = CorrelationResult(
    project: string, sources: seq<RunSource>, groups: Groups, copies: map<ArtifactKey, seq<Uuid>>)

  // ---------------------------------------------------------------- the selection, in run order

  predicate Ordered(sources: seq<RunSource>) {
    forall i, j | 0 <= i < j < |sources| :: sources[i].runId <= sources[j].runId
  }

  function Insert(s: RunSource, sorted: seq<RunSource>): seq<RunSource> {
    if sorted == [] || s.runId <= sorted[0].runId then [s] + sorted
    else [sorted[0]] + Insert(s, sorted[1..])
  }

  /** `sorted(sources, key=run_id)` */
  function Sorted(sources: seq<RunSource>): seq<RunSource> {
    if sources == [] then [] else Insert(sources[0], Sorted(sources[1..]))
  }

  function Correlated(project: string, sources: seq<RunSource>, parsing: Parsing)
    : Result<CorrelationResult, CorrelationError>
  {
    var selected := Sorted(sources);
    if selected == [] then Failure(EmptySelection)
    else if exists i :: 0 <= i < |selected| && selected[i].project != project then Failure(ForeignProject)
    else if !DistinctRuns(selected) then Failure(RepeatedRun)
    else
      match EventsOf(project, selected, parsing)
      case Failure(e) => Failure(e)
      case Success(events) => Success(CorrelationResult(project, selected, GroupsOf(events), CopiesOf(selected)))
  }

  // ---------------------------------------------------------------- the dictionaries being filled

  type Table = map<Mark, seq<SourceRef>>

  predicate Elements(list: seq<SourceRef>, refs: set<SourceRef>) {
    (set i | 0 <= i < |list| :: list[i]) == refs
  }

  /** The dictionaries list, under each mark, exactly the references the events give it. */
  predicate Holds(table: Table, events: seq<Event>) {
    && table.Keys == MarksOf(events)
    && forall m | m in table :: Elements(table[m], RefsOf(events, m))
  }

  /** `setdefault(key, []).append(ref)` */
  function Append(table: Table, m: Mark, ref: SourceRef): Table {
    table[m := (if m in table then table[m] else []) + [ref]]
  }

  lemma RefsAppend(events: seq<Event>, e: Event, m: Mark)
    ensures RefsOf(events + [e], m) == RefsOf(events, m) + (if e.mark == m then {e.ref} else {})
  {
    var more := events + [e];
    forall r
      ensures r in RefsOf(more, m) <==> r in RefsOf(events, m) || (e.mark == m && r == e.ref)
    {
      if r in RefsOf(events, m) {
        var i :| 0 <= i < |events| && events[i].mark == m && events[i].ref == r;
        assert more[i] == events[i];
      }
      if e.mark == m && r == e.ref {
        assert more[|events|] == e;
      }
    }
  }

  lemma MarksAppend(events: seq<Event>, e: Event)
    ensures MarksOf(events + [e]) == MarksOf(events) + {e.mark}
  {
    var more := events + [e];
    forall m | m in MarksOf(events)
      ensures m in MarksOf(more)
    {
      var i :| 0 <= i < |events| && events[i].mark == m;
      assert more[i] == events[i];
    }
    assert more[|events|] == e;
  }

  lemma ElementsAppend(list: seq<SourceRef>, ref: SourceRef, refs: set<SourceRef>)
    requires Elements(list, refs)
    ensures Elements(list + [ref], refs + {ref})
  {
    var more := list + [ref];
    forall r
      ensures r in refs + {ref} <==> exists i :: 0 <= i < |more| && more[i] == r
    {
      if r in refs {
        var i :| 0 <= i < |list| && list[i] == r;
        assert more[i] == r;
      }
      assert more[|list|] == ref;
    }
  }

  lemma HoldsAppend(table: Table, events: seq<Event>, e: Event)
    requires Holds(table, events)
    ensures Holds(Append(table, e.mark, e.ref), events + [e])
  {
    MarksAppend(events, e);
    var next := Append(table, e.mark, e.ref);
    forall m | m in next
      ensures Elements(next[m], RefsOf(events + [e], m))
    {
      RefsAppend(events, e, m);
      if m == e.mark {
        if m !in table {
          NoRefs(events, m);
        }
        ElementsAppend(if m in table then table[m] else [], e.ref, RefsOf(events, m));
      }
    }
  }

  lemma NoRefs(events: seq<Event>, m: Mark)
    requires m !in MarksOf(events)
    ensures RefsOf(events, m) == {}
  {
  }

  /** Records one occurrence under each of its marks. */
  method Record(table: Table, marks: seq<Mark>, ref: SourceRef, ghost events: seq<Event>) returns (r: Table)
    requires Holds(table, events)
    ensures Holds(r, events + Tagged(marks, ref))
  {
    r := table;
    assert events + [] == events;
    for i := 0 to |marks|
      invariant Holds(r, events + Tagged(marks, ref)[..i])
    {
      HoldsAppend(r, events + Tagged(marks, ref)[..i], Event(marks[i], ref));
      r := Append(r, marks[i], ref);
      assert events + Tagged(marks, ref)[..i] + [Event(marks[i], ref)] == events + Tagged(marks, ref)[..i + 1];
    }
    assert Tagged(marks, ref)[..|marks|] == Tagged(marks, ref);
  }

  /** Records the context and the observations of one run. */
  method RecordObservations(s: RunSource, parsing: Parsing, table: Table, ghost events: seq<Event>)
    returns (r: Result<Table, CorrelationError>)
    requires Holds(table, events)
    ensures match ObservationEvents(s, |s.report.observations|, parsing)
            case Failure(e) => r == Failure(e)
            case Success(more) => r.Success? && Holds(r.value, events + more)
  {
    var current := Record(table, ContextMarks(s.webTarget), ContextRef(s.runId), events);
    ghost var seen := Tagged(ContextMarks(s.webTarget), ContextRef(s.runId));
    for i := 0 to |s.report.observations|
      invariant ObservationEvents(s, i, parsing) == Success(seen)
      invariant Holds(current, events + seen)
    {
      var marks := ObservationMarks(s.report.observations[i], parsing);
      if marks.Failure? {
        ObservationFailure(s, i + 1, parsing);
        return Failure(marks.error);
      }
      current := Record(current, marks.value, ObservationRef(s.runId, i), events + seen);
      ghost var added := Tagged(marks.value, ObservationRef(s.runId, i));
      assert events + seen + added == events + (seen + added);
      seen := seen + added;
    }
    return Success(current);
  }

  /** Records every occurrence of one run, or reports the first that cannot be read. */
  method RecordSource(project: string, s: RunSource, parsing: Parsing, table: Table, ghost events: seq<Event>)
    returns (r: Result<Table, CorrelationError>)
    requires Holds(table, events)
    ensures match SourceEvents(project, s, parsing)
            case Failure(e) => r == Failure(e)
            case Success(more) => r.Success? && Holds(r.value, events + more)
  {
    var observed := RecordObservations(s, parsing, table, events);
    if observed.Failure? {
      MatchFailure(project, s, 0, parsing);
      return observed;
    }
    var current := observed.value;
    ghost var seen := MatchEvents(project, s, 0, parsing).value;
    for i := 0 to |s.report.matches|
      invariant MatchEvents(project, s, i, parsing) == Success(seen)
      invariant Holds(current, events + seen)
    {
      var marks := MatchMarks(project, s.report.matches[i], parsing);
      if marks.Failure? {
        MatchFailure(project, s, i + 1, parsing);
        return Failure(marks.error);
      }
      current := Record(current, marks.value, MatchRef(s.runId, i), events + seen);
      ghost var added := Tagged(marks.value, MatchRef(s.runId, i));
      assert events + seen + added == events + (seen + added);
      seen := seen + added;
    }
    return Success(current);
  }

  lemma {:induction false} ObservationFailure(s: RunSource, n: nat, parsing: Parsing)
    requires n <= |s.report.observations| && ObservationEvents(s, n, parsing).Failure?
    ensures ObservationEvents(s, |s.report.observations|, parsing) == Failure(ObservationEvents(s, n, parsing).error)
    decreases |s.report.observations| - n
  {
    if n < |s.report.observations| {
      ObservationFailure(s, n + 1, parsing);
    }
  }

  lemma {:induction false} MatchFailure(project: string, s: RunSource, n: nat, parsing: Parsing)
    requires n <= |s.report.matches| && MatchEvents(project, s, n, parsing).Failure?
    ensures SourceEvents(project, s, parsing) == Failure(MatchEvents(project, s, n, parsing).error)
    decreases |s.report.matches| - n
  {
    if n < |s.report.matches| {
      MatchFailure(project, s, n + 1, parsing);
    }
  }

  lemma {:induction false} EventsFailure(project: string, sources: seq<RunSource>, n: nat, parsing: Parsing)
    requires n <= |sources| && EventsUpTo(project, sources, n, parsing).Failure?
    ensures EventsOf(project, sources, parsing) == Failure(EventsUpTo(project, sources, n, parsing).error)
    decreases |sources| - n
  {
    if n < |sources| {
      EventsFailure(project, sources, n + 1, parsing);
    }
  }

  /** The copies dictionary lists, for each artifact of the first `n` runs, the runs that hold it. */
  predicate CopiesHold(copies: map<ArtifactKey, seq<Uuid>>, sources: seq<RunSource>, n: nat)
    requires n <= |sources|
  {
    && copies.Keys == ArtifactKeys(sources, n)
    && forall k | k in copies :: copies[k] == Holders(sources, n, k)
  }

  lemma {:induction false} NoHolders(sources: seq<RunSource>, n: nat, k: ArtifactKey)
    requires n <= |sources| && k !in ArtifactKeys(sources, n)
    ensures Holders(sources, n, k) == []
  {
    if n > 0 {
      assert KeyOf(sources[n - 1]) in ArtifactKeys(sources, n);
      NoHolders(sources, n - 1, k);
    }
  }

  lemma CopiesStep(copies: map<ArtifactKey, seq<Uuid>>, sources: seq<RunSource>, n: nat)
    requires n < |sources| && CopiesHold(copies, sources, n)
    ensures var k := KeyOf(sources[n]);
            CopiesHold(copies[k := (if k in copies then copies[k] else []) + [sources[n].runId]], sources, n + 1)
  {
    var k := KeyOf(sources[n]);
    assert ArtifactKeys(sources, n + 1) == ArtifactKeys(sources, n) + {k};
    if k !in copies {
      NoHolders(sources, n, k);
    }
  }

  lemma TableGroups(table: Table, events: seq<Event>, groups: Groups)
    requires Holds(table, events)
    requires groups == map m | m in table :: set i | 0 <= i < |table[m]| :: table[m][i]
    ensures groups == GroupsOf(events)
  {
    forall m | m in table
      ensures groups[m] == RefsOf(events, m)
    {
      assert Elements(table[m], RefsOf(events, m));
    }
  }

  lemma RepeatedCopies(copies: map<ArtifactKey, seq<Uuid>>, sources: seq<RunSource>)
    requires CopiesHold(copies, sources, |sources|)
    ensures (map k | k in copies && |copies[k]| > 1 :: copies[k]) == CopiesOf(sources)
  {
  }

  /** The loops over the selected runs, filling the dictionaries. */
  method FillTables(project: string, selected: seq<RunSource>, parsing: Parsing)
    returns (r: Result<(Table, map<ArtifactKey, seq<Uuid>>), CorrelationError>)
    ensures match EventsOf(project, selected, parsing)
            case Failure(e) => r == Failure(e)
            case Success(events) =>
              r.Success? && Holds(r.value.0, events) && CopiesHold(r.value.1, selected, |selected|)
  {
    var table: Table := map[];
    var copies: map<ArtifactKey, seq<Uuid>> := map[];
    ghost var events: seq<Event> := [];
    for n := 0 to |selected|
      invariant EventsUpTo(project, selected, n, parsing) == Success(events)
      invariant Holds(table, events)
      invariant CopiesHold(copies, selected, n)
    {
      var s := selected[n];
      var k := KeyOf(s);
      CopiesStep(copies, selected, n);
      copies := copies[k := (if k in copies then copies[k] else []) + [s.runId]];
      var recorded := RecordSource(project, s, parsing, table, events);
      if recorded.Failure? {
        EventsFailure(project, selected, n + 1, parsing);
        return Failure(recorded.error);
      }
      table := recorded.value;
      events := events + SourceEvents(project, s, parsing).value;
    }
    return Success((table, copies));
  }

  /** `correlate` */
  method Correlate(project: string, sources: seq<RunSource>, parsing: Parsing)
    returns (r: Result<CorrelationResult, CorrelationError>)
    ensures r == Correlated(project, sources, parsing)
  {
    var selected := Sorted(sources);
    if selected == [] {
      return Failure(EmptySelection);
    }
    if exists i :: 0 <= i < |selected| && selected[i].project != project {
      return Failure(ForeignProject);
    }
    if !DistinctRuns(selected) {
      return Failure(RepeatedRun);
    }
    var filled := FillTables(project, selected, parsing);
    if filled.Failure? {
      return Failure(filled.error);
    }
    var (table, copies) := filled.value;
    var groups := map m | m in table :: set i | 0 <= i < |table[m]| :: table[m][i];
    TableGroups(table, EventsOf(project, selected, parsing).value, groups);
    RepeatedCopies(copies, selected);
    return Success(CorrelationResult(project, selected, groups, map k | k in copies && |copies[k]| > 1 :: copies[k]));
  }
}

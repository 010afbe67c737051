/**
  What a correlation says of the things it lists: each item, relationship, assertion and finding
  traced to the configured contexts, observations and matches it comes from, in both directions.
 */
module Relations {
  import opened Correlation
  import opened CorrelationLaws
  import opened Evidence
  import opened Runs
  import opened Wrappers

  /** The observation reports an address under the key, of an HTTP endpoint. */
  predicate ReportsAt(o: Observation, key: Key, address: Address) {
    o.subject.HttpSubject? && o.key == key && o.value == Text(address)
  }

  /** The service that the observation is about, or that answered on the port of its origin. */
  predicate ReportsService(o: Observation, endpoint: ServiceEndpoint) {
    || o.subject == ServiceSubject(endpoint)
    || (ReportsAt(o, PeerAddress, endpoint.address)
        && endpoint.transport == Tcp && endpoint.port == o.subject.origin.port)
  }

  predicate ObservationLists(o: Observation, id: Identity) {
    match id
    case Host(address) =>
      || o.subject == HostSubject(address)
      || (o.subject.ServiceSubject? && o.subject.endpoint.address == address)
      || ReportsAt(o, TargetAddress, address) || ReportsAt(o, PeerAddress, address)
    case NetworkService(endpoint) => ReportsService(o, endpoint)
    case HttpOrigin(origin) => o.subject == OriginSubject(origin) || o.subject == HttpSubject(origin)
    case HttpResource(origin, resource) => o.subject == HttpSubject(origin) && resource == "/"
  }

  predicate ObservationRelates(o: Observation, kind: RelationshipKind, source: Identity, target: Identity) {
    match kind
    case ServiceOnHost =>
      source.NetworkService? && target == Host(source.endpoint.address) && ReportsService(o, source.endpoint)
    case ResourceOnOrigin =>
      o.subject.HttpSubject? && source == HttpResource(o.subject.origin, "/") && target == HttpOrigin(o.subject.origin)
    case ConfiguredAddress => false
    case ReportedTargetAddress =>
      && target.Host? && ReportsAt(o, TargetAddress, target.address) && source == HttpOrigin(o.subject.origin)
    case ReportedPeerAddress =>
      && target.Host? && ReportsAt(o, PeerAddress, target.address) && source == HttpOrigin(o.subject.origin)
    case ReportedPeerService =>
      && target.NetworkService? && ReportsAt(o, PeerAddress, target.endpoint.address)
      && target.endpoint.transport == Tcp && target.endpoint.port == o.subject.origin.port
      && source == HttpOrigin(o.subject.origin)
  }

  /** What the observation asserts something about. */
  predicate About(o: Observation, id: Identity) {
    match o.subject
    case HostSubject(address) => id == Host(address)
    case OriginSubject(origin) => id == HttpOrigin(origin)
    case ServiceSubject(endpoint) => id == NetworkService(endpoint)
    case HttpSubject(origin) => id == HttpResource(origin, "/")
  }

  predicate ObservationSays(o: Observation, m: Mark) {
    match m
    case Item(id) => ObservationLists(o, id)
    case Relation(kind, source, target) => ObservationRelates(o, kind, source, target)
    case Assertion(subject, key, value) => About(o, subject) && key == o.key && value == o.value
    case Finding(_) => false
  }

  predicate MatchSays(project: string, x: ScannerMatch, resource: Resource, m: Mark) {
    match m
    case Item(id) => id == HttpOrigin(x.origin) || id == HttpResource(x.origin, resource)
    case Relation(kind, source, target) =>
      kind == ResourceOnOrigin && source == HttpResource(x.origin, resource) && target == HttpOrigin(x.origin)
    case Assertion(_, _, _) => false
    case Finding(f) => f == FindingIdentity(project, x.origin, resource, x.templateId, x.matcher)
  }

  predicate ContextSays(target: Option<WebTarget>, m: Mark) {
    && target.Some?
    && match m
       case Item(id) => id == HttpOrigin(target.value.origin) || (id.Host? && id.address in target.value.addresses)
       case Relation(kind, source, to) =>
         kind == ConfiguredAddress && source == HttpOrigin(target.value.origin) && to.Host? && to.address in target.value.addresses
       case _ => false
  }

  /** What one occurrence in a run says. */
  predicate Says(project: string, s: RunSource, r: SourceRef, parsing: Parsing, m: Mark) {
    && r.runId == s.runId
    && match r
       case ContextRef(_) => ContextSays(s.webTarget, m)
       case ObservationRef(_, n) => n < |s.report.observations| && ObservationSays(s.report.observations[n], m)
       case MatchRef(_, n) =>
         && n < |s.report.matches|
         && var x := s.report.matches[n];
            match parsing.matched(x.origin, x.location)
            case None => false
            case Some(resource) => MatchSays(project, x, resource, m)
  }

  lemma ObservationIs(o: Observation, parsing: Parsing, m: Mark)
    requires ObservationMarks(o, parsing).Success?
    ensures m in ObservationMarks(o, parsing).value <==> ObservationSays(o, m)
  {
    SubjectIs(o.subject, m);
    AddressIs(o, parsing, m);
  }

  lemma SubjectIs(subject: Subject, m: Mark)
    ensures m in SubjectMarks(subject) <==>
            match subject
            case HostSubject(address) => m == Item(Host(address))
            case OriginSubject(origin) => m == Item(HttpOrigin(origin))
            case ServiceSubject(e) =>
              || m == Item(NetworkService(e)) || m == Item(Host(e.address))
              || m == Relation(ServiceOnHost, NetworkService(e), Host(e.address))
            case HttpSubject(origin) =>
              || m == Item(HttpOrigin(origin)) || m == Item(HttpResource(origin, "/"))
              || m == Relation(ResourceOnOrigin, HttpResource(origin, "/"), HttpOrigin(origin))
  {
  }

  lemma AddressIs(o: Observation, parsing: Parsing, m: Mark)
    requires AddressMarks(o, parsing).Success?
    ensures m in AddressMarks(o, parsing).value <==>
            && o.subject.HttpSubject? && o.value.Text?
            && var site, host := HttpOrigin(o.subject.origin), Host(o.value.text);
               var service := NetworkService(ServiceEndpoint(o.value.text, Tcp, o.subject.origin.port));
               || ((o.key == TargetAddress || o.key == PeerAddress) && (m == Item(host) || m == Item(site)))
               || (o.key == TargetAddress && m == Relation(ReportedTargetAddress, site, host))
               || (o.key == PeerAddress
                   && (m == Relation(ReportedPeerAddress, site, host) || m == Item(service)
                       || m == Relation(ServiceOnHost, service, host) || m == Relation(ReportedPeerService, site, service)))
  {
  }

  lemma {:induction false} ContextAddresses(origin: Origin, addresses: seq<Address>, m: Mark)
    ensures m in AddressItems(origin, addresses)
            <==> exists a :: a in addresses && (m == Item(Host(a)) || m == Relation(ConfiguredAddress, HttpOrigin(origin), Host(a)))
  {
    if addresses != [] {
      var n := |addresses| - 1;
      ContextAddresses(origin, addresses[..n], m);
      assert addresses == addresses[..n] + [addresses[n]];
    }
  }

  lemma ContextIs(target: Option<WebTarget>, m: Mark)
    ensures m in ContextMarks(target) <==> ContextSays(target, m)
  {
    if target.Some? {
      ContextAddresses(target.value.origin, target.value.addresses, m);
    }
  }

  lemma MatchIs(project: string, x: ScannerMatch, parsing: Parsing, m: Mark)
    ensures MatchMarks(project, x, parsing).Success? <==> parsing.matched(x.origin, x.location).Some?
    ensures MatchMarks(project, x, parsing).Success? ==>
              (m in MatchMarks(project, x, parsing).value
               <==> MatchSays(project, x, parsing.matched(x.origin, x.location).value, m))
  {
  }

  /**
    Everything a correlation says, and where from: a reference stands under a mark exactly when
    the occurrence it names, in one of the selected runs, says so.
   */
  lemma SaysExactly(project: string, sources: seq<RunSource>, parsing: Parsing, m: Mark, r: SourceRef)
    requires Correlated(project, sources, parsing).Success?
    ensures var c := Correlated(project, sources, parsing).value;
            (m in c.groups && r in c.groups[m]) <==> exists i :: 0 <= i < |c.sources| && Says(project, c.sources[i], r, parsing, m)
  {
    var c := CorrelatedParts(project, sources, parsing);
    GroupMembers(project, c.sources, parsing, m, r);
    forall i | 0 <= i < |c.sources|
      ensures Contributes(project, c.sources[i], Event(m, r), parsing) <==> Says(project, c.sources[i], r, parsing, m)
    {
      SourceSays(project, c.sources, parsing, i, r, m);
    }
  }

  lemma SourceSays(project: string, sources: seq<RunSource>, parsing: Parsing, i: nat, r: SourceRef, m: Mark)
    requires i < |sources| && EventsOf(project, sources, parsing).Success?
    ensures Contributes(project, sources[i], Event(m, r), parsing) <==> Says(project, sources[i], r, parsing, m)
  {
    var s := sources[i];
    ReadableSource(project, sources, parsing, i);
    match r
    case ContextRef(_) => ContextIs(s.webTarget, m);
    case ObservationRef(_, n) =>
      if n < |s.report.observations| {
        ReadableObservations(project, s, |s.report.matches|, parsing);
        ReadableObservation(s, |s.report.observations|, parsing, n);
        ObservationIs(s.report.observations[n], parsing, m);
      }
    case MatchRef(_, n) =>
      if n < |s.report.matches| {
        MatchIs(project, s.report.matches[n], parsing, m);
      }
  }

  // ---------------------------------------------------------------- when a selection correlates

  /** Every address that an HTTP observation reports is one, and every match has a resource. */
  predicate Readable(s: RunSource, parsing: Parsing) {
    && (forall o | o in s.report.observations && o.subject.HttpSubject? && (o.key == TargetAddress || o.key == PeerAddress) ::
          o.value.Text? && parsing.isAddress(o.value.text))
    && (forall x | x in s.report.matches :: parsing.matched(x.origin, x.location).Some?)
  }

  lemma {:induction false} ObservationsReadable(s: RunSource, n: nat, parsing: Parsing)
    requires n <= |s.report.observations|
    ensures ObservationEvents(s, n, parsing).Success?
            <==> forall k | 0 <= k < n :: ObservationMarks(s.report.observations[k], parsing).Success?
  {
    if n > 0 {
      ObservationsReadable(s, n - 1, parsing);
    }
  }

  lemma {:induction false} MatchesReadable(project: string, s: RunSource, n: nat, parsing: Parsing)
    requires n <= |s.report.matches|
    ensures MatchEvents(project, s, n, parsing).Success?
            <==> ObservationEvents(s, |s.report.observations|, parsing).Success?
                 && forall k | 0 <= k < n :: MatchMarks(project, s.report.matches[k], parsing).Success?
  {
    if n > 0 {
      MatchesReadable(project, s, n - 1, parsing);
    }
  }

  lemma SourceReadable(project: string, s: RunSource, parsing: Parsing)
    ensures SourceEvents(project, s, parsing).Success? <==> Readable(s, parsing)
  {
    MatchesReadable(project, s, |s.report.matches|, parsing);
    ObservationsReadable(s, |s.report.observations|, parsing);
    forall k | 0 <= k < |s.report.matches|
      ensures MatchMarks(project, s.report.matches[k], parsing).Success?
              <==> parsing.matched(s.report.matches[k].origin, s.report.matches[k].location).Some?
    {
      MatchIs(project, s.report.matches[k], parsing, Item(Host("")));
    }
    assert forall k | 0 <= k < |s.report.matches| :: s.report.matches[k] in s.report.matches;
    assert forall k | 0 <= k < |s.report.observations| :: s.report.observations[k] in s.report.observations;
  }

  lemma DistinctTail(first: RunSource, rest: seq<RunSource>)
    ensures DistinctRuns([first] + rest) <==> DistinctRuns(rest) && first.runId !in RunIds(rest)
  {
    var all := [first] + rest;
    assert forall i | 0 <= i < |rest| :: all[i + 1] == rest[i];
    if DistinctRuns(all) {
      forall i, j | 0 <= i < j < |rest|
        ensures rest[i].runId != rest[j].runId
      {
        assert all[i + 1].runId != all[j + 1].runId;
      }
      forall i | 0 <= i < |rest|
        ensures rest[i].runId != first.runId
      {
        assert all[0].runId != all[i + 1].runId;
      }
    }
    if DistinctRuns(rest) && first.runId !in RunIds(rest) {
      NotIn(first.runId, rest);
    }
  }

  lemma {:induction false} InsertedOnce(s: RunSource, sorted: seq<RunSource>)
    requires DistinctRuns(Insert(s, sorted))
    ensures DistinctRuns(sorted) && s.runId !in RunIds(sorted)
    decreases |sorted|
  {
    if sorted == [] || s.runId <= sorted[0].runId {
      DistinctTail(s, sorted);
    } else {
      var first, rest := sorted[0], sorted[1..];
      DistinctTail(first, Insert(s, rest));
      InsertedOnce(s, rest);
      InsertMembers(s, rest);
      DistinctTail(first, rest);
      RunIdsCons(first, rest);
      assert sorted == [first] + rest;
    }
  }

  lemma {:induction false} InsertMembers(s: RunSource, sorted: seq<RunSource>)
    ensures RunIds(Insert(s, sorted)) == RunIds(sorted) + {s.runId}
    decreases |sorted|
  {
    if sorted == [] || s.runId <= sorted[0].runId {
      RunIdsCons(s, sorted);
    } else {
      InsertMembers(s, sorted[1..]);
      RunIdsCons(sorted[0], sorted[1..]);
      RunIdsCons(sorted[0], Insert(s, sorted[1..]));
      assert sorted == [sorted[0]] + sorted[1..];
    }
  }

  /** A run selected twice is selected twice in run order. */
  lemma {:induction false} RepeatsSurvive(sources: seq<RunSource>)
    requires DistinctRuns(Sorted(sources))
    ensures DistinctRuns(sources)
  {
    if sources != [] {
      var first, rest := sources[0], sources[1..];
      InsertedOnce(first, Sorted(rest));
      RepeatsSurvive(rest);
      SortedDistinct(rest);
      DistinctTail(first, rest);
      assert sources == [first] + rest;
    }
  }

  /**
    A selection correlates exactly when it is not empty, is of one project, selects no run
    twice, and every address and matched resource in it can be read.
   */
  lemma CorrelatesExactly(project: string, sources: seq<RunSource>, parsing: Parsing)
    ensures Correlated(project, sources, parsing).Success?
            <==> sources != [] && DistinctRuns(sources)
                 && forall s | s in sources :: s.project == project && Readable(s, parsing)
  {
    var sorted := Sorted(sources);
    AllReadable(project, sorted, |sorted|, parsing);
    forall s
      ensures SourceEvents(project, s, parsing).Success? <==> Readable(s, parsing)
      ensures s in sorted <==> s in sources
    {
      SourceReadable(project, s, parsing);
      SortedMembers(sources, s);
    }
    if DistinctRuns(sources) {
      SortedDistinct(sources);
    } else if DistinctRuns(sorted) {
      RepeatsSurvive(sources);
    }
    assert forall i | 0 <= i < |sorted| :: sorted[i] in sorted;
    assert sources != [] ==> sources[0] in sorted;
    assert sorted != [] ==> sorted[0] in sources;
  }

  // ---------------------------------------------------------------- copies

  /** The run holds the artifact, as that scanner's. */
  predicate HoldsCopy(s: RunSource, scanner: Scanner, artifact: Digest) {
    s.report.evidence.scanner == scanner && s.report.evidence.artifact == artifact
  }

  lemma {:induction false} HoldersAre(sources: seq<RunSource>, n: nat, k: ArtifactKey)
    requires n <= |sources| && Ordered(sources) && DistinctRuns(sources)
    ensures forall r :: r in Holders(sources, n, k) <==> exists i :: 0 <= i < n && HoldsCopy(sources[i], k.0, k.1) && sources[i].runId == r
    ensures forall i, j | 0 <= i < j < |Holders(sources, n, k)| :: Holders(sources, n, k)[i] < Holders(sources, n, k)[j]
    ensures forall r | r in Holders(sources, n, k) :: exists i :: 0 <= i < n && sources[i].runId == r
  {
    if n > 0 {
      HoldersAre(sources, n - 1, k);
      var before := Holders(sources, n - 1, k);
      forall i | 0 <= i < |before|
        ensures before[i] < sources[n - 1].runId
      {
        assert before[i] in before;
        var j :| 0 <= j < n - 1 && sources[j].runId == before[i];
      }
    }
  }

  ghost predicate Copied(sources: seq<RunSource>, k: ArtifactKey) {
    exists i, j :: 0 <= i < j < |sources| && HoldsCopy(sources[i], k.0, k.1) && HoldsCopy(sources[j], k.0, k.1)
  }

  lemma {:induction false} CopiedIf(sources: seq<RunSource>, k: ArtifactKey)
    requires Ordered(sources) && DistinctRuns(sources) && |Holders(sources, |sources|, k)| > 1
    ensures Copied(sources, k) && k in ArtifactKeys(sources, |sources|)
  {
    HoldersAre(sources, |sources|, k);
    var runs := Holders(sources, |sources|, k);
    var a, b := runs[0], runs[1];
    assert a in runs && b in runs && a < b;
    var i :| 0 <= i < |sources| && HoldsCopy(sources[i], k.0, k.1) && sources[i].runId == a;
    var j :| 0 <= j < |sources| && HoldsCopy(sources[j], k.0, k.1) && sources[j].runId == b;
    assert KeyOf(sources[i]) == k;
    assert i < j || j < i;
  }

  lemma {:induction false} IfCopied(sources: seq<RunSource>, k: ArtifactKey)
    requires Ordered(sources) && DistinctRuns(sources) && Copied(sources, k)
    ensures |Holders(sources, |sources|, k)| > 1
  {
    HoldersAre(sources, |sources|, k);
    var runs := Holders(sources, |sources|, k);
    var i, j :| 0 <= i < j < |sources| && HoldsCopy(sources[i], k.0, k.1) && HoldsCopy(sources[j], k.0, k.1);
    TwoMembers(runs, sources[i].runId, sources[j].runId);
  }

  /** An artifact is listed as copied exactly when two runs hold it, with the runs that do in order. */
  lemma CopiesExactly(project: string, sources: seq<RunSource>, parsing: Parsing, scanner: Scanner, artifact: Digest)
    requires Correlated(project, sources, parsing).Success?
    ensures var c := Correlated(project, sources, parsing).value;
            && ((scanner, artifact) in c.copies <==> Copied(c.sources, (scanner, artifact)))
            && ((scanner, artifact) in c.copies ==> ListsHolders(c.copies[(scanner, artifact)], c.sources, (scanner, artifact)))
  {
    var c := CorrelatedParts(project, sources, parsing);
    SortedKeeps(sources);
    var k := (scanner, artifact);
    HoldersAre(c.sources, |c.sources|, k);
    if |Holders(c.sources, |c.sources|, k)| > 1 {
      CopiedIf(c.sources, k);
    }
    if Copied(c.sources, k) {
      IfCopied(c.sources, k);
      assert k in CopiesOf(c.sources);
    }
  }

  /** The runs that hold an artifact, in order. */
  ghost predicate ListsHolders(runs: seq<Uuid>, sources: seq<RunSource>, k: ArtifactKey) {
    && (forall i, j | 0 <= i < j < |runs| :: runs[i] < runs[j])
    && (forall r :: r in runs <==> exists i :: 0 <= i < |sources| && HoldsCopy(sources[i], k.0, k.1) && sources[i].runId == r)
  }

  lemma TwoMembers(runs: seq<Uuid>, a: Uuid, b: Uuid)
    requires a in runs && b in runs && a != b
    ensures |runs| > 1
  {
    var i :| 0 <= i < |runs| && runs[i] == a;
    var j :| 0 <= j < |runs| && runs[j] == b;
  }
}

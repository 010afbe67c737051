/** The coverage accounting of `execution/nmap.scan_nmap`. */
module NmapScan {
  import opened Evidence
  import opened NmapReport
  import opened Wrappers
  import Runs

  /** What each permitted address may be asked for; `build_command` demands every requested port of each. */
  predicate Commanded(scope: map<Address, set<nat>>, requested: set<nat>) {
    requested != {} && scope != map[] && forall a | a in scope :: requested <= scope[a]
  }

  predicate Authorized(scope: map<Address, set<nat>>, e: ServiceEndpoint) {
    e.address in scope && e.port in scope[e.address]
  }

  /** The observation speaks of a permitted host, or of a requested TCP port of one. */
  predicate InScope(o: Observation, scope: map<Address, set<nat>>, requested: set<nat>) {
    match o.subject
    case ServiceAt(e) => e.transport == Runs.Tcp && e.port in requested && Authorized(scope, e)
    case HostAt(a) => a in scope && (o.key.PortsCount? ==> o.value.Count?)
  }

  predicate ReportsTimeout(o: Observation) {
    o.key == HostTimedOut && o.value == Truth(true)
  }

  /** What one observation adds to the coverage of an address. */
  function Adds(o: Observation, a: Address): nat {
    match o.subject
    case ServiceAt(e) => if e.address == a && o.key == ServiceState then 1 else 0
    case HostAt(b) => if b == a && o.key.PortsCount? && o.value.Count? then o.value.number else 0
  }

  /** `coverage[a]` after the first `n` observations. */
  function Counted(observations: seq<Observation>, n: nat, a: Address): nat
    requires n <= |observations|
  {
    if n == 0 then 0 else Counted(observations, n - 1, a) + Adds(observations[n - 1], a)
  }

  /** Every observation is in scope, and none reports a timeout. */
  predicate Admissible(observations: seq<Observation>, n: nat, scope: map<Address, set<nat>>, requested: set<nat>)
    requires n <= |observations|
  {
    forall i | 0 <= i < n :: InScope(observations[i], scope, requested) && !ReportsTimeout(observations[i])
  }

  /** The scan is accepted: all of it in scope, no timeout, and every requested port counted for. */
  predicate Covers(observations: seq<Observation>, scope: map<Address, set<nat>>, requested: set<nat>) {
    && Admissible(observations, |observations|, scope, requested)
    && forall a | a in scope :: Counted(observations, |observations|, a) == |requested|
  }

  predicate CoverageHolds(coverage: map<Address, nat>, observations: seq<Observation>, n: nat, scope: map<Address, set<nat>>)
    requires n <= |observations|
  {
    coverage.Keys == scope.Keys && forall a | a in scope :: coverage[a] == Counted(observations, n, a)
  }

  /** The accounting loop, with its dictionary of counts. */
  method CheckCoverage(observations: seq<Observation>, scope: map<Address, set<nat>>, requested: set<nat>)
    returns (accepted: bool)
    ensures accepted <==> Covers(observations, scope, requested)
  {
    var coverage: map<Address, nat> := map a | a in scope :: 0;
    for n := 0 to |observations|
      invariant CoverageHolds(coverage, observations, n, scope)
      invariant Admissible(observations, n, scope, requested)
    {
      var o := observations[n];
      match o.subject {
        case ServiceAt(e) =>
          if e.transport != Runs.Tcp || e.port !in requested || !Authorized(scope, e) {
            return false;
          }
          if o.key == ServiceState {
            coverage := coverage[e.address := coverage[e.address] + 1];
          }
        case HostAt(a) =>
          if a !in scope {
            return false;
          }
          if o.key.PortsCount? {
            if !o.value.Count? {
              return false;
            }
            coverage := coverage[a := coverage[a] + o.value.number];
          }
      }
      if ReportsTimeout(o) {
        return false;
      }
    }
    return forall a | a in coverage :: coverage[a] == |requested|;
  }

  // ---------------------------------------------------------------- the pigeonhole

  /** The ports of an address whose state is reported. */
  function ReportedPorts(observations: seq<Observation>, a: Address): set<nat> {
    set i | 0 <= i < |Endpoints(observations)| && Endpoints(observations)[i].address == a :: Endpoints(observations)[i].port
  }

  /** The sum of an address's summary counts. */
  function Summarized(observations: seq<Observation>, n: nat, a: Address): nat
    requires n <= |observations|
  {
    if n == 0 then 0
    else
      Summarized(observations, n - 1, a)
      + (if observations[n - 1].subject.HostAt? then Adds(observations[n - 1], a) else 0)
  }

  function PortsIn(endpoints: seq<ServiceEndpoint>, a: Address): set<nat> {
    set i | 0 <= i < |endpoints| && endpoints[i].address == a :: endpoints[i].port
  }

  predicate AllTcp(endpoints: seq<ServiceEndpoint>) {
    forall i | 0 <= i < |endpoints| :: endpoints[i].transport == Runs.Tcp
  }

  /** How many of the endpoints are at an address. */
  function EndpointsAt(endpoints: seq<ServiceEndpoint>, a: Address): nat {
    if endpoints == [] then 0
    else EndpointsAt(endpoints[..|endpoints| - 1], a) + (if endpoints[|endpoints| - 1].address == a then 1 else 0)
  }

  /** Without repeats, there are as many TCP endpoints at an address as different ports. */
  lemma {:induction false} Pigeonhole(endpoints: seq<ServiceEndpoint>, a: Address)
    requires NoRepeats(endpoints) && AllTcp(endpoints)
    ensures EndpointsAt(endpoints, a) == |PortsIn(endpoints, a)|
  {
    if endpoints != [] {
      var n := |endpoints| - 1;
      var before, last := endpoints[..n], endpoints[n];
      Pigeonhole(before, a);
      assert forall i | 0 <= i < n :: before[i] == endpoints[i];
      if last.address == a {
        assert last.port !in PortsIn(before, a);
        assert PortsIn(endpoints, a) == PortsIn(before, a) + {last.port} by {
          PortsAppend(endpoints, n, a);
        }
      } else {
        PortsAppend(endpoints, n, a);
      }
    }
  }

  lemma PortsAppend(endpoints: seq<ServiceEndpoint>, n: nat, a: Address)
    requires n == |endpoints| - 1
    ensures PortsIn(endpoints, a)
            == PortsIn(endpoints[..n], a) + (if endpoints[n].address == a then {endpoints[n].port} else {})
  {
    var before := endpoints[..n];
    assert forall i | 0 <= i < n :: before[i] == endpoints[i];
    forall p | p in PortsIn(before, a)
      ensures p in PortsIn(endpoints, a)
    {
      var i :| 0 <= i < n && before[i].address == a && before[i].port == p;
      assert endpoints[i].address == a && endpoints[i].port == p;
    }
  }

  function StateOf(o: Observation): seq<ServiceEndpoint> {
    if o.subject.ServiceAt? && o.key == ServiceState then [o.subject.endpoint] else []
  }

  lemma EndpointsNext(observations: seq<Observation>, n: nat)
    requires 0 < n <= |observations|
    ensures Endpoints(observations[..n]) == Endpoints(observations[..n - 1]) + StateOf(observations[n - 1])
  {
    assert observations[..n][..n - 1] == observations[..n - 1];
  }

  lemma {:induction false} EndpointsAtNext(endpoints: seq<ServiceEndpoint>, o: Observation, a: Address)
    ensures EndpointsAt(endpoints + StateOf(o), a)
            == EndpointsAt(endpoints, a) + (if o.subject.ServiceAt? then Adds(o, a) else 0)
  {
    assert endpoints + [] == endpoints;
    if o.subject.ServiceAt? {
      assert (endpoints + [o.subject.endpoint])[..|endpoints|] == endpoints;
    }
  }

  /** The count of an address is its reported states and its summaries. */
  lemma {:induction false} CountedParts(observations: seq<Observation>, n: nat, a: Address)
    requires n <= |observations|
    ensures Counted(observations, n, a) == EndpointsAt(Endpoints(observations[..n]), a) + Summarized(observations, n, a)
  {
    if n > 0 {
      CountedParts(observations, n - 1, a);
      EndpointsNext(observations, n);
      EndpointsAtNext(Endpoints(observations[..n - 1]), observations[n - 1], a);
    }
  }

  lemma {:induction false} EndpointsInScope(
    observations: seq<Observation>, n: nat, scope: map<Address, set<nat>>, requested: set<nat>)
    requires n <= |observations| && Admissible(observations, n, scope, requested)
    ensures AllTcp(Endpoints(observations[..n]))
    ensures forall i | 0 <= i < |Endpoints(observations[..n])| :: Endpoints(observations[..n])[i].port in requested
  {
    if n > 0 {
      EndpointsInScope(observations, n - 1, scope, requested);
      EndpointsNext(observations, n);
      assert InScope(observations[n - 1], scope, requested);
    }
  }

  /**
    An accepted scan accounts for every requested port of every permitted host: the ports
    without a reported state number exactly the sum of the host's summary counts; and a
    report all in scope and without timeout is accepted whenever that holds of every host.
   */
  lemma {:induction false} Coverage(observations: seq<Observation>, scope: map<Address, set<nat>>, requested: set<nat>)
    requires NoRepeats(Endpoints(observations))
    requires Admissible(observations, |observations|, scope, requested)
    ensures forall a | a in scope :: ReportedPorts(observations, a) <= requested
    ensures Covers(observations, scope, requested) <==>
            forall a | a in scope ::
              |requested - ReportedPorts(observations, a)| == Summarized(observations, |observations|, a)
  {
    forall a | a in scope
      ensures ReportedPorts(observations, a) <= requested
      ensures Counted(observations, |observations|, a) == |requested| <==>
              |requested - ReportedPorts(observations, a)| == Summarized(observations, |observations|, a)
    {
      HostCoverage(observations, scope, requested, a);
    }
  }

  lemma Complement(whole: set<nat>, part: set<nat>)
    requires part <= whole
    ensures |whole - part| == |whole| - |part|
  {
    assert whole == part + (whole - part);
  }

  lemma {:induction false} HostCoverage(observations: seq<Observation>, scope: map<Address, set<nat>>, requested: set<nat>, a: Address)
    requires NoRepeats(Endpoints(observations)) && Admissible(observations, |observations|, scope, requested)
    ensures ReportedPorts(observations, a) <= requested
    ensures Counted(observations, |observations|, a)
            == |requested| - |requested - ReportedPorts(observations, a)| + Summarized(observations, |observations|, a)
  {
    var endpoints := Endpoints(observations);
    assert observations[..|observations|] == observations;
    CountedParts(observations, |observations|, a);
    EndpointsInScope(observations, |observations|, scope, requested);
    Pigeonhole(endpoints, a);
    assert PortsIn(endpoints, a) == ReportedPorts(observations, a);
    Complement(requested, ReportedPorts(observations, a));
  }

  lemma NothingMissing(reported: set<nat>, requested: set<nat>)
    requires reported <= requested && |requested - reported| == 0
    ensures reported == requested
  {
    assert requested - reported == {};
    assert forall p | p in requested :: p in reported || p in requested - reported;
  }

  /** Without summaries for a host, its reported ports are exactly the requested ones. */
  lemma {:induction false} NoSummaries(observations: seq<Observation>, scope: map<Address, set<nat>>, requested: set<nat>, a: Address)
    requires NoRepeats(Endpoints(observations)) && Covers(observations, scope, requested) && a in scope
    requires Summarized(observations, |observations|, a) == 0
    ensures ReportedPorts(observations, a) == requested
  {
    Coverage(observations, scope, requested);
    NothingMissing(ReportedPorts(observations, a), requested);
  }

  /**
    `scan_nmap` after the process has ended: the report is read and its coverage checked.
    Whatever it accepts accounts for every requested port of every permitted host.
   */
  method ScanNmap(
    hosts: seq<HostElement>, succeeded: bool, normal: string -> Option<Address>,
    scope: map<Address, set<nat>>, requested: set<nat>)
    returns (report: Option<seq<Observation>>)
    requires Commanded(scope, requested)
    ensures report.Some? <==>
            succeeded && Normalized(hosts, normal).Some? && Covers(Normalized(hosts, normal).value, scope, requested)
    ensures report.Some? ==>
              forall a | a in scope ::
                && ReportedPorts(report.value, a) <= requested
                && |requested - ReportedPorts(report.value, a)| == Summarized(report.value, |report.value|, a)
                && (Summarized(report.value, |report.value|, a) == 0 ==> ReportedPorts(report.value, a) == requested)
  {
    var observations := Normalize(hosts, normal);
    if observations.None? || !succeeded {
      return None;
    }
    ReportedOnce(hosts, normal);
    var covered := CheckCoverage(observations.value, scope, requested);
    if !covered {
      return None;
    }
    Coverage(observations.value, scope, requested);
    forall a | a in scope && Summarized(observations.value, |observations.value|, a) == 0
      ensures ReportedPorts(observations.value, a) == requested
    {
      NoSummaries(observations.value, scope, requested, a);
    }
    return observations;
  }

  /** The observation is of a permitted host, or of a requested and authorized TCP port, and of no timeout. */
  predicate Permitted(o: Observation, scope: map<Address, set<nat>>, requested: set<nat>) {
    && !(o.key == HostTimedOut && o.value == Truth(true))
    && match o.subject
       case HostAt(a) => a in scope && (o.key.PortsCount? ==> o.value.Count?)
       case ServiceAt(e) =>
         e.transport == Runs.Tcp && e.port in requested && e.address in scope && e.port in scope[e.address]
  }

  /** An accepted scan reports nothing but permitted observations, and refuses any other. */
  lemma ScopeExactly(observations: seq<Observation>, scope: map<Address, set<nat>>, requested: set<nat>)
    ensures Admissible(observations, |observations|, scope, requested)
            <==> forall o | o in observations :: Permitted(o, scope, requested)
  {
    assert forall i | 0 <= i < |observations| :: observations[i] in observations;
  }
}

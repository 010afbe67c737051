/**
  `adapters/nmap.py`: the elements of an Nmap report turned into observations. A host's
  address and a service endpoint may each appear once.
 */
module NmapReport {
  import opened Evidence
  import opened Wrappers
  import Runs

  type Transport = Runs.Transport
  type ServiceEndpoint = Runs.ServiceEndpoint

  // ---------------------------------------------------------------- the elements

  /** A `port` element; `sound` covers the attributes of its service, which `details` lists. */
  datatype PortElement = PortElement(
    transport: Option<Transport>, number: Option<nat>, state: Option<string>, details: seq<Detail>, sound: bool)

  datatype Summary = Summary(state: string, count: Option<nat>)

  /** A `host` element with its IPv4 addresses; `sound` covers its time and the number of its parts. */
  datatype HostElement = HostElement(
    addresses: seq<string>, state: Option<string>, timedOut: Option<string>, details: seq<Detail>,
    summaries: seq<Summary>, ports: seq<PortElement>, sound: bool)

  datatype Detail = Detail(name: string, value: string)

  const PORT_STATES: set<string> := {"open", "closed", "filtered", "unfiltered", "open|filtered", "closed|filtered"}
  const HOST_STATES: set<string> := {"up", "down", "unknown", "skipped"}
  const MAX_PORT: nat := 65535
  const MAX_COUNT: nat := 3 * 65536

  // ---------------------------------------------------------------- the observations

  datatype Subject = HostAt(address: Address) | ServiceAt(endpoint: ServiceEndpoint)

  datatype ObservationKey = HostState | HostTimedOut | PortsCount(state: string) | ServiceState | OtherDetail(name: string)

  datatype ObservationValue = TextValue(text: string) | Count(number: nat) | Truth(flag: bool)

  datatype Observation = Observation(subject: Subject, key: ObservationKey, value: ObservationValue)

  function Details(subject: Subject, details: seq<Detail>): (r: seq<Observation>)
    ensures |r| == |details|
    ensures forall i | 0 <= i < |r| :: r[i] == Observation(subject, OtherDetail(details[i].name), TextValue(details[i].value))
  {
    seq(|details|, i requires 0 <= i < |details| =>
      Observation(subject, OtherDetail(details[i].name), TextValue(details[i].value)))
  }

  predicate SoundPort(p: PortElement) {
    && p.transport.Some? && p.number.Some? && 1 <= p.number.value <= MAX_PORT
    && p.state.Some? && p.state.value in PORT_STATES && p.sound
  }

  function EndpointOf(address: Address, p: PortElement): ServiceEndpoint
    requires SoundPort(p)
  {
    Runs.ServiceEndpoint.ServiceEndpoint(address, p.transport.value, p.number.value)
  }

  function PortObservations(address: Address, p: PortElement): seq<Observation>
    requires SoundPort(p)
  {
    var subject := ServiceAt(EndpointOf(address, p));
    [Observation(subject, ServiceState, TextValue(p.state.value))] + Details(subject, p.details)
  }

  predicate SoundSummary(s: Summary) {
    s.state in PORT_STATES && s.count.Some? && s.count.value <= MAX_COUNT
  }

  function SummaryObservations(address: Address, summaries: seq<Summary>): (r: seq<Observation>)
    requires forall i | 0 <= i < |summaries| :: SoundSummary(summaries[i])
    ensures |r| == |summaries|
    ensures forall i | 0 <= i < |r| ::
              SoundSummary(summaries[i])
              && r[i] == Observation(HostAt(address), PortsCount(summaries[i].state), Count(summaries[i].count.value))
  {
    seq(|summaries|, i requires 0 <= i < |summaries| && SoundSummary(summaries[i]) =>
      Observation(HostAt(address), PortsCount(summaries[i].state), Count(summaries[i].count.value)))
  }

  /** The endpoints of the first `n` ports, which must all be different. */
  function PortsUpTo(address: Address, ports: seq<PortElement>, n: nat): Option<(seq<Observation>, set<ServiceEndpoint>)>
    requires n <= |ports|
  {
    if n == 0 then Some(([], {}))
    else
      match PortsUpTo(address, ports, n - 1)
      case None => None
      case Some((before, seen)) =>
        if !SoundPort(ports[n - 1]) || EndpointOf(address, ports[n - 1]) in seen then None
        else
          Some((before + PortObservations(address, ports[n - 1]), seen + {EndpointOf(address, ports[n - 1])}))
  }

  predicate SoundHost(h: HostElement) {
    && h.sound && h.state.Some? && h.state.value in HOST_STATES
    && (h.timedOut.Some? ==> h.timedOut.value == "true" || h.timedOut.value == "false")
    && forall i | 0 <= i < |h.summaries| :: SoundSummary(h.summaries[i])
  }

  /** What a host element says before its ports. */
  function HostHead(h: HostElement, address: Address): seq<Observation>
    requires SoundHost(h)
  {
    [Observation(HostAt(address), HostState, TextValue(h.state.value))]
    + (if h.timedOut.Some? then [Observation(HostAt(address), HostTimedOut, Truth(h.timedOut.value == "true"))] else [])
    + Details(HostAt(address), h.details)
    + SummaryObservations(address, h.summaries)
  }

  /** `_host` */
  function HostObservations(h: HostElement, address: Address): Option<seq<Observation>> {
    if !SoundHost(h) then None
    else
      match PortsUpTo(address, h.ports, |h.ports|)
      case None => None
      case Some((observations, _)) => Some(HostHead(h, address) + observations)
  }

  /** `_normalize`, for the first `n` hosts; `normal` stands for `normalize_address`. */
  function HostsUpTo(hosts: seq<HostElement>, n: nat, normal: string -> Option<Address>)
    : Option<(seq<Observation>, set<Address>)>
    requires n <= |hosts|
  {
    if n == 0 then Some(([], {}))
    else
      match HostsUpTo(hosts, n - 1, normal)
      case None => None
      case Some((before, seen)) =>
        var h := hosts[n - 1];
        if |h.addresses| != 1 || normal(h.addresses[0]).None? then None
        else
          var address := normal(h.addresses[0]).value;
          if address in seen then None
          else
            match HostObservations(h, address)
            case None => None
            case Some(more) => Some((before + more, seen + {address}))
  }

  function Normalized(hosts: seq<HostElement>, normal: string -> Option<Address>): Option<seq<Observation>> {
    match HostsUpTo(hosts, |hosts|, normal)
    case None => None
    case Some((observations, _)) => Some(observations)
  }

  // ---------------------------------------------------------------- the loops

  lemma {:induction false} PortsFail(address: Address, ports: seq<PortElement>, n: nat)
    requires n <= |ports| && PortsUpTo(address, ports, n).None?
    ensures PortsUpTo(address, ports, |ports|).None?
    decreases |ports| - n
  {
    if n < |ports| {
      PortsFail(address, ports, n + 1);
    }
  }

  /** The port loop of `_host`, with the set of endpoints it has seen. */
  method NormalizeHost(h: HostElement, address: Address) returns (r: Option<seq<Observation>>)
    ensures r == HostObservations(h, address)
  {
    if !SoundHost(h) {
      return None;
    }
    var observations: seq<Observation> := [];
    var seenServices: set<ServiceEndpoint> := {};
    for n := 0 to |h.ports|
      invariant PortsUpTo(address, h.ports, n) == Some((observations, seenServices))
    {
      var p := h.ports[n];
      if !SoundPort(p) || EndpointOf(address, p) in seenServices {
        PortsFail(address, h.ports, n + 1);
        return None;
      }
      seenServices := seenServices + {EndpointOf(address, p)};
      observations := observations + PortObservations(address, p);
    }
    return Some(HostHead(h, address) + observations);
  }

  lemma {:induction false} HostsFail(hosts: seq<HostElement>, n: nat, normal: string -> Option<Address>)
    requires n <= |hosts| && HostsUpTo(hosts, n, normal).None?
    ensures HostsUpTo(hosts, |hosts|, normal).None?
    decreases |hosts| - n
  {
    if n < |hosts| {
      HostsFail(hosts, n + 1, normal);
    }
  }

  /** The host loop of `_normalize`, with the set of addresses it has seen. */
  method Normalize(hosts: seq<HostElement>, normal: string -> Option<Address>) returns (r: Option<seq<Observation>>)
    ensures r == Normalized(hosts, normal)
  {
    var observations: seq<Observation> := [];
    var seenAddresses: set<Address> := {};
    for n := 0 to |hosts|
      invariant HostsUpTo(hosts, n, normal) == Some((observations, seenAddresses))
    {
      var h := hosts[n];
      if |h.addresses| != 1 || normal(h.addresses[0]).None? || normal(h.addresses[0]).value in seenAddresses {
        HostsFail(hosts, n + 1, normal);
        return None;
      }
      var address := normal(h.addresses[0]).value;
      var more := NormalizeHost(h, address);
      if more.None? {
        HostsFail(hosts, n + 1, normal);
        return None;
      }
      seenAddresses := seenAddresses + {address};
      observations := observations + more.value;
    }
    return Some(observations);
  }

  // ---------------------------------------------------------------- no endpoint is reported twice

  /** The endpoints whose state is reported, in order. */
  function Endpoints(observations: seq<Observation>): seq<ServiceEndpoint> {
    if observations == [] then []
    else
      var n := |observations| - 1;
      Endpoints(observations[..n])
      + (if observations[n].subject.ServiceAt? && observations[n].key == ServiceState then [observations[n].subject.endpoint] else [])
  }

  predicate NoRepeats(endpoints: seq<ServiceEndpoint>) {
    forall i, j | 0 <= i < j < |endpoints| :: endpoints[i] != endpoints[j]
  }

  lemma {:induction false} EndpointsJoin(a: seq<Observation>, b: seq<Observation>)
    ensures Endpoints(a + b) == Endpoints(a) + Endpoints(b)
  {
    if b == [] {
      assert a + b == a;
    } else {
      var n := |b| - 1;
      EndpointsJoin(a, b[..n]);
      assert (a + b)[..|a| + n] == a + b[..n];
      assert (a + b)[|a| + n] == b[n];
    }
  }

  predicate NoStates(observations: seq<Observation>) {
    forall i | 0 <= i < |observations| :: observations[i].key != ServiceState
  }

  lemma {:induction false} NoEndpoints(observations: seq<Observation>)
    requires NoStates(observations)
    ensures Endpoints(observations) == []
  {
    if observations != [] {
      NoEndpoints(observations[..|observations| - 1]);
    }
  }

  lemma PortEndpoint(address: Address, p: PortElement)
    requires SoundPort(p)
    ensures Endpoints(PortObservations(address, p)) == [EndpointOf(address, p)]
  {
    var subject := ServiceAt(EndpointOf(address, p));
    var first := [Observation(subject, ServiceState, TextValue(p.state.value))];
    NoEndpoints(Details(subject, p.details));
    EndpointsJoin(first, Details(subject, p.details));
    assert first[..0] == [];
    assert Endpoints(first) == [EndpointOf(address, p)];
  }

  /** The listed endpoints are exactly those of a set, each once. */
  ghost predicate EachOnce(endpoints: seq<ServiceEndpoint>, seen: set<ServiceEndpoint>) {
    NoRepeats(endpoints) && forall e :: e in endpoints <==> e in seen
  }

  lemma {:induction false} PortsOnce(address: Address, ports: seq<PortElement>, n: nat)
    requires n <= |ports| && PortsUpTo(address, ports, n).Some?
    ensures EachOnce(Endpoints(PortsUpTo(address, ports, n).value.0), PortsUpTo(address, ports, n).value.1)
    ensures forall e | e in PortsUpTo(address, ports, n).value.1 :: e.address == address
  {
    if n > 0 {
      PortsOnce(address, ports, n - 1);
      PortEndpoint(address, ports[n - 1]);
      EndpointsJoin(PortsUpTo(address, ports, n - 1).value.0, PortObservations(address, ports[n - 1]));
    }
  }

  lemma HostOnce(h: HostElement, address: Address)
    requires HostObservations(h, address).Some?
    ensures NoRepeats(Endpoints(HostObservations(h, address).value))
    ensures forall e | e in Endpoints(HostObservations(h, address).value) :: e.address == address
  {
    PortsOnce(address, h.ports, |h.ports|);
    NoEndpoints(HostHead(h, address));
    EndpointsJoin(HostHead(h, address), PortsUpTo(address, h.ports, |h.ports|).value.0);
  }

  lemma NoRepeatsJoin(a: seq<ServiceEndpoint>, b: seq<ServiceEndpoint>)
    requires NoRepeats(a) && NoRepeats(b) && forall e, f | e in a && f in b :: e.address != f.address
    ensures NoRepeats(a + b)
  {
    var c := a + b;
    forall i, j | 0 <= i < j < |c|
      ensures c[i] != c[j]
    {
      if i < |a| <= j {
        assert c[i] in a && c[j] in b;
      }
    }
  }

  lemma {:induction false} HostsOnce(hosts: seq<HostElement>, n: nat, normal: string -> Option<Address>)
    requires n <= |hosts| && HostsUpTo(hosts, n, normal).Some?
    ensures var (observations, seen) := HostsUpTo(hosts, n, normal).value;
            NoRepeats(Endpoints(observations)) && forall e | e in Endpoints(observations) :: e.address in seen
  {
    if n > 0 {
      HostsOnce(hosts, n - 1, normal);
      var (before, seen) := HostsUpTo(hosts, n - 1, normal).value;
      var h := hosts[n - 1];
      var address := normal(h.addresses[0]).value;
      var more := HostObservations(h, address).value;
      HostOnce(h, address);
      EndpointsJoin(before, more);
      NoRepeatsJoin(Endpoints(before), Endpoints(more));
    }
  }

  /** The adapter's guarantee: the state of a service endpoint is reported at most once. */
  lemma ReportedOnce(hosts: seq<HostElement>, normal: string -> Option<Address>)
    requires Normalized(hosts, normal).Some?
    ensures NoRepeats(Endpoints(Normalized(hosts, normal).value))
  {
    HostsOnce(hosts, |hosts|, normal);
  }
}

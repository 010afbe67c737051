/**
  What an Nmap report that is read amounts to, element by element: when it is accepted, and
  which observations it yields, in both directions.
 */
module NmapElements {
  import opened Evidence
  import opened NmapReport
  import opened Wrappers

  predicate PortState(text: string) {
    text == "open" || text == "closed" || text == "filtered" || text == "unfiltered" || text == "open|filtered"
    || text == "closed|filtered"
  }

  /** The element names a port and its state. */
  predicate PortWell(p: PortElement) {
    && p.transport.Some? && p.number.Some? && 1 <= p.number.value <= 65535
    && p.state.Some? && PortState(p.state.value) && p.sound
  }

  predicate SummaryWell(s: Summary) {
    PortState(s.state) && s.count.Some? && s.count.value <= 196608
  }

  predicate SameEndpoint(p: PortElement, q: PortElement) {
    p.transport == q.transport && p.number == q.number
  }

  /** The element has a state and sound parts, and names no endpoint twice. */
  predicate HostWell(h: HostElement) {
    && h.sound && h.state.Some?
    && (h.state.value == "up" || h.state.value == "down" || h.state.value == "unknown" || h.state.value == "skipped")
    && (h.timedOut.None? || h.timedOut.value == "true" || h.timedOut.value == "false")
    && (forall s | s in h.summaries :: SummaryWell(s))
    && (forall p | p in h.ports :: PortWell(p))
    && (forall i, j | 0 <= i < j < |h.ports| :: !SameEndpoint(h.ports[i], h.ports[j]))
  }

  /** The host element is at the address. */
  predicate IsAt(h: HostElement, normal: string -> Option<Address>, address: Address) {
    |h.addresses| == 1 && normal(h.addresses[0]) == Some(address)
  }

  /** The element is sound, and at some address. */
  predicate WellPlaced(h: HostElement, normal: string -> Option<Address>) {
    HostWell(h) && |h.addresses| == 1 && normal(h.addresses[0]).Some?
  }

  /** Each of the first `n` elements is sound and at an address of its own. */
  predicate WellUpTo(hosts: seq<HostElement>, n: nat, normal: string -> Option<Address>)
    requires n <= |hosts|
  {
    && (forall i | 0 <= i < n :: WellPlaced(hosts[i], normal))
    && (forall i, j | 0 <= i < j < n :: normal(hosts[i].addresses[0]) != normal(hosts[j].addresses[0]))
  }

  // ---------------------------------------------------------------- when a report is accepted

  lemma PortWellIs(p: PortElement)
    ensures SoundPort(p) <==> PortWell(p)
  {
  }

  lemma SummaryWellIs(s: Summary)
    ensures SoundSummary(s) <==> SummaryWell(s)
  {
  }

  lemma {:induction false} PortsExactly(address: Address, ports: seq<PortElement>, n: nat)
    requires n <= |ports|
    ensures PortsUpTo(address, ports, n).Some? <==>
            && (forall i | 0 <= i < n :: PortWell(ports[i]))
            && (forall i, j | 0 <= i < j < n :: !SameEndpoint(ports[i], ports[j]))
    ensures PortsUpTo(address, ports, n).Some? ==>
              forall e :: e in PortsUpTo(address, ports, n).value.1
                <==> exists i :: 0 <= i < n && PortWell(ports[i]) && e == EndpointOf(address, ports[i])
  {
    if n > 0 {
      PortsExactly(address, ports, n - 1);
      PortWellIs(ports[n - 1]);
    }
  }

  lemma HostExactly(h: HostElement, address: Address)
    ensures HostObservations(h, address).Some? <==> HostWell(h)
  {
    PortsExactly(address, h.ports, |h.ports|);
    forall i | 0 <= i < |h.summaries|
      ensures SoundSummary(h.summaries[i]) <==> SummaryWell(h.summaries[i])
    {
      SummaryWellIs(h.summaries[i]);
    }
    assert forall i | 0 <= i < |h.ports| :: h.ports[i] in h.ports;
    assert forall i | 0 <= i < |h.summaries| :: h.summaries[i] in h.summaries;
  }

  predicate SeenAt(hosts: seq<HostElement>, n: nat, normal: string -> Option<Address>, a: Address)
    requires n <= |hosts|
  {
    exists i :: 0 <= i < n && IsAt(hosts[i], normal, a)
  }

  lemma {:induction false} HostsExactly(hosts: seq<HostElement>, n: nat, normal: string -> Option<Address>)
    requires n <= |hosts|
    ensures HostsUpTo(hosts, n, normal).Some? <==> WellUpTo(hosts, n, normal)
    ensures HostsUpTo(hosts, n, normal).Some? ==>
              forall a :: a in HostsUpTo(hosts, n, normal).value.1 <==> SeenAt(hosts, n, normal, a)
  {
    if n > 0 {
      HostsExactly(hosts, n - 1, normal);
      WellStep(hosts, n - 1, normal);
      var h := hosts[n - 1];
      if |h.addresses| == 1 && normal(h.addresses[0]).Some? {
        HostExactly(h, normal(h.addresses[0]).value);
        forall a
          ensures SeenAt(hosts, n, normal, a) <==> SeenAt(hosts, n - 1, normal, a) || a == normal(h.addresses[0]).value
        {
          SeenStep(hosts, n - 1, normal, a);
        }
      }
    }
  }

  lemma SeenStep(hosts: seq<HostElement>, n: nat, normal: string -> Option<Address>, a: Address)
    requires n < |hosts|
    ensures SeenAt(hosts, n + 1, normal, a) <==> SeenAt(hosts, n, normal, a) || IsAt(hosts[n], normal, a)
  {
  }

  lemma WellStep(hosts: seq<HostElement>, n: nat, normal: string -> Option<Address>)
    requires n < |hosts|
    ensures WellUpTo(hosts, n + 1, normal) <==>
            && WellUpTo(hosts, n, normal) && WellPlaced(hosts[n], normal)
            && !SeenAt(hosts, n, normal, normal(hosts[n].addresses[0]).value)
  {
    if WellUpTo(hosts, n, normal) && WellPlaced(hosts[n], normal) {
      forall i | 0 <= i < n
        ensures IsAt(hosts[i], normal, normal(hosts[n].addresses[0]).value)
                <==> normal(hosts[i].addresses[0]) == normal(hosts[n].addresses[0])
      {
        assert WellPlaced(hosts[i], normal);
      }
    }
  }

  /** A report is read exactly when every host and port element is sound and none is repeated. */
  lemma NormalizedExactly(hosts: seq<HostElement>, normal: string -> Option<Address>)
    ensures Normalized(hosts, normal).Some? <==> WellUpTo(hosts, |hosts|, normal)
  {
    HostsExactly(hosts, |hosts|, normal);
  }

  // ---------------------------------------------------------------- what it says

  /** What a host element says of its host: its state and timeout, its names, and the counts of its summaries. */
  predicate HostPartSays(h: HostElement, o: Observation) {
    match o.key
    case HostState => h.state.Some? && o.value == TextValue(h.state.value)
    case HostTimedOut => h.timedOut.Some? && o.value == Truth(h.timedOut.value == "true")
    case PortsCount(state) => exists s :: s in h.summaries && s.state == state && s.count.Some? && o.value == Count(s.count.value)
    case ServiceState => false
    case OtherDetail(name) => exists d :: d in h.details && d.name == name && o.value == TextValue(d.value)
  }

  /** What a host element says, of its host or of one of its ports. */
  predicate HostSays(h: HostElement, address: Address, o: Observation) {
    match o.subject
    case HostAt(at) => at == address && HostPartSays(h, o)
    case ServiceAt(_) => exists p :: p in h.ports && PortAt(address, p, o)
  }

  /** The observation is of the port of an element, and says what the element does. */
  predicate PortAt(address: Address, p: PortElement, o: Observation) {
    && o.subject.ServiceAt? && o.subject.endpoint.address == address
    && p.transport == Some(o.subject.endpoint.transport) && p.number == Some(o.subject.endpoint.port) && PortSays(p, o)
  }

  predicate PortSays(p: PortElement, o: Observation) {
    match o.key
    case ServiceState => p.state.Some? && o.value == TextValue(p.state.value)
    case OtherDetail(name) => exists d :: d in p.details && d.name == name && o.value == TextValue(d.value)
    case _ => false
  }

  lemma DetailsAre(subject: Subject, details: seq<Detail>, o: Observation)
    ensures o in Details(subject, details)
            <==> o.subject == subject && o.key.OtherDetail?
                 && exists d :: d in details && d.name == o.key.name && o.value == TextValue(d.value)
  {
    var all := Details(subject, details);
    if o.subject == subject && o.key.OtherDetail? {
      if d :| d in details && d.name == o.key.name && o.value == TextValue(d.value) {
        var i :| 0 <= i < |details| && details[i] == d;
        assert all[i] == o;
      }
    }
    if o in all {
      var i :| 0 <= i < |all| && all[i] == o;
      assert details[i] in details;
    }
  }

  lemma SummariesAre(address: Address, summaries: seq<Summary>, o: Observation)
    requires forall i | 0 <= i < |summaries| :: SoundSummary(summaries[i])
    ensures o in SummaryObservations(address, summaries)
            <==> o.subject == HostAt(address) && o.key.PortsCount?
                 && exists s :: s in summaries && s.state == o.key.state && s.count.Some? && o.value == Count(s.count.value)
  {
    var all := SummaryObservations(address, summaries);
    if o.subject == HostAt(address) && o.key.PortsCount? {
      if s :| s in summaries && s.state == o.key.state && s.count.Some? && o.value == Count(s.count.value) {
        var i :| 0 <= i < |summaries| && summaries[i] == s;
        assert all[i] == o;
      }
    }
    if o in all {
      var i :| 0 <= i < |all| && all[i] == o;
      assert summaries[i] in summaries;
    }
  }

  lemma PortIs(address: Address, p: PortElement, o: Observation)
    requires SoundPort(p)
    ensures o in PortObservations(address, p) <==> PortAt(address, p, o)
  {
    DetailsAre(ServiceAt(EndpointOf(address, p)), p.details, o);
  }

  lemma {:induction false} PortsAre(address: Address, ports: seq<PortElement>, n: nat, o: Observation)
    requires n <= |ports| && PortsUpTo(address, ports, n).Some?
    ensures o in PortsUpTo(address, ports, n).value.0 <==> exists i :: 0 <= i < n && PortAt(address, ports[i], o)
  {
    if n > 0 {
      PortsAre(address, ports, n - 1, o);
      PortIs(address, ports[n - 1], o);
    }
  }

  lemma HeadIs(h: HostElement, address: Address, o: Observation)
    requires SoundHost(h)
    ensures o in HostHead(h, address) <==> o.subject.HostAt? && HostSays(h, address, o)
  {
    DetailsAre(HostAt(address), h.details, o);
    SummariesAre(address, h.summaries, o);
  }

  lemma HostIs(h: HostElement, address: Address, o: Observation)
    requires HostObservations(h, address).Some?
    ensures o in HostObservations(h, address).value <==> HostSays(h, address, o)
  {
    HeadIs(h, address, o);
    PortsAre(address, h.ports, |h.ports|, o);
    if o.subject.ServiceAt? {
      assert (exists i :: 0 <= i < |h.ports| && PortAt(address, h.ports[i], o)) <==> HostSays(h, address, o) by {
        if HostSays(h, address, o) {
          var p :| p in h.ports && PortAt(address, p, o);
          var i :| 0 <= i < |h.ports| && h.ports[i] == p;
        }
        if i :| 0 <= i < |h.ports| && PortAt(address, h.ports[i], o) {
          assert h.ports[i] in h.ports;
        }
      }
    }
  }

  lemma {:induction false} HostsAre(hosts: seq<HostElement>, n: nat, normal: string -> Option<Address>, o: Observation)
    requires n <= |hosts| && HostsUpTo(hosts, n, normal).Some?
    ensures o in HostsUpTo(hosts, n, normal).value.0
            <==> exists i, a :: 0 <= i < n && IsAt(hosts[i], normal, a) && HostSays(hosts[i], a, o)
  {
    if n > 0 {
      HostsAre(hosts, n - 1, normal, o);
      HostIs(hosts[n - 1], normal(hosts[n - 1].addresses[0]).value, o);
    }
  }

  /** A report that is read yields an observation exactly when the element of its host says so. */
  lemma ReportSaysExactly(hosts: seq<HostElement>, normal: string -> Option<Address>, o: Observation)
    requires Normalized(hosts, normal).Some?
    ensures o in Normalized(hosts, normal).value
            <==> exists i, a :: 0 <= i < |hosts| && IsAt(hosts[i], normal, a) && HostSays(hosts[i], a, o)
  {
    HostsAre(hosts, |hosts|, normal, o);
  }
}

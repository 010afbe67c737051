/**
  Which backend address a piece of stored evidence is bound to, and which stretch of time it
  is from, said of the observations and runs themselves, in both directions.
 */
module Bindings {
  import opened Comparison
  import opened ComparisonLaws
  import opened ComparisonSides
  import opened Evidence
  import opened HistoricalStates
  import opened Runs
  import opened StateLaws
  import opened Wrappers

  // ---------------------------------------------------------------- one run

  /** Observation `i` gives the record, at the approved origin, a value for the key. */
  predicate Gives(s: RunSource, evidence: EvidenceRef, key: Key, i: nat) {
    && s.webTarget.Some? && i < |s.report.observations|
    && s.report.observations[i].subject == HttpSubject(s.webTarget.value.origin)
    && evidence in s.report.observations[i].evidence
    && s.report.observations[i].key == key
  }

  /** Some observation names the peer that answered, and every one names this one. */
  predicate AnsweredBy(s: RunSource, evidence: EvidenceRef, address: Address) {
    && (exists i: nat :: i < |s.report.observations| && Gives(s, evidence, PeerAddress, i))
    && forall i | 0 <= i < |s.report.observations| && Gives(s, evidence, PeerAddress, i) ::
         s.report.observations[i].value == Text(address)
  }

  /** The last value that the record gives for the key. */
  predicate LastGives(s: RunSource, evidence: EvidenceRef, key: Key, value: Value) {
    exists i: nat :: i < |s.report.observations| && LastAt(s, evidence, key, i) && s.report.observations[i].value == value
  }

  predicate LastAt(s: RunSource, evidence: EvidenceRef, key: Key, i: nat) {
    Gives(s, evidence, key, i) && forall j | i < j < |s.report.observations| :: !Gives(s, evidence, key, j)
  }

  /** Nobody answered: the probe of this address failed. */
  predicate FailedAt(s: RunSource, evidence: EvidenceRef, address: Address) {
    && (forall i | 0 <= i < |s.report.observations| :: !Gives(s, evidence, PeerAddress, i))
    && LastGives(s, evidence, ProbeSucceeded, Flag(false))
    && LastGives(s, evidence, TargetAddress, Text(address))
  }

  /**
    The record of a run is bound to an approved address: an httpx record to the one peer that
    answered, or the one address whose probe failed; a Nuclei scan to its only address.
   */
  predicate Bound(s: RunSource, evidence: EvidenceRef, address: Address) {
    && s.webTarget.Some? && address in s.webTarget.value.addresses
    && match evidence.scanner
       case Httpx => AnsweredBy(s, evidence, address) || FailedAt(s, evidence, address)
       case Nuclei => s.kind == Scan && s.webTarget.value.addresses == [address]
       case Nmap => false
  }

  lemma PeersAre(s: RunSource, evidence: EvidenceRef, address: Address)
    requires s.webTarget.Some?
    ensures var peers := Peers(s.report.observations, s.webTarget.value.origin, evidence);
            && (peers == {Text(address)} <==> AnsweredBy(s, evidence, address))
            && (peers == {} <==> forall i | 0 <= i < |s.report.observations| :: !Gives(s, evidence, PeerAddress, i))
  {
    var observations, origin := s.report.observations, s.webTarget.value.origin;
    var peers := Peers(observations, origin, evidence);
    forall i | 0 <= i < |observations| && Gives(s, evidence, PeerAddress, i)
      ensures Equated(observations[i].value) in peers
    {
      assert Concerns(observations[i], origin, evidence);
    }
    forall v | v in peers
      ensures exists i: nat :: i < |observations| && Gives(s, evidence, PeerAddress, i) && Equated(observations[i].value) == v
    {
      var i :| 0 <= i < |observations| && observations[i].key == PeerAddress && Concerns(observations[i], origin, evidence)
               && Equated(observations[i].value) == v;
      assert Gives(s, evidence, PeerAddress, i);
    }
  }

  lemma {:induction false} AttemptedIs(s: RunSource, n: nat, evidence: EvidenceRef, key: Key)
    requires s.webTarget.Some? && n <= |s.report.observations|
    ensures var v := Attempted(s.report.observations[..n], key, s.webTarget.value.origin, evidence);
            && (v.None? <==> forall i | 0 <= i < n :: !Gives(s, evidence, key, i))
            && (v.Some? ==> exists i: nat :: i < n && Gives(s, evidence, key, i) && s.report.observations[i].value == v.value
                                             && forall j | i < j < n :: !Gives(s, evidence, key, j))
  {
    if n > 0 {
      var part := s.report.observations[..n];
      assert part[..n - 1] == s.report.observations[..n - 1] && part[n - 1] == s.report.observations[n - 1];
      AttemptedIs(s, n - 1, evidence, key);
      assert Gives(s, evidence, key, n - 1)
        <==> part[n - 1].key == key && Concerns(part[n - 1], s.webTarget.value.origin, evidence);
    }
  }

  lemma {:induction false} LastIs(s: RunSource, evidence: EvidenceRef, key: Key, value: Value)
    requires s.webTarget.Some?
    ensures Attempted(s.report.observations, key, s.webTarget.value.origin, evidence) == Some(value)
            <==> LastGives(s, evidence, key, value)
  {
    var observations := s.report.observations;
    AttemptedIs(s, |observations|, evidence, key);
    assert observations[..|observations|] == observations;
    var v := Attempted(observations, key, s.webTarget.value.origin, evidence);
    if v.Some? {
      var i: nat :| i < |observations| && Gives(s, evidence, key, i) && observations[i].value == v.value
                    && forall j | i < j < |observations| :: !Gives(s, evidence, key, j);
      assert LastAt(s, evidence, key, i);
      forall k: nat | k < |observations| && LastAt(s, evidence, key, k)
        ensures k == i
      {
        assert k < i ==> !Gives(s, evidence, key, i);
      }
    }
  }

  /** The binding of a run's own evidence, exactly. */
  lemma BoundExactly(s: RunSource, evidence: EvidenceRef, address: Address)
    ensures CaptureAddress(s, evidence) == Some(address) <==> Bound(s, evidence, address)
  {
    if s.webTarget.Some? {
      PeersAre(s, evidence, address);
      LastIs(s, evidence, ProbeSucceeded, Flag(false));
      LastIs(s, evidence, TargetAddress, Text(address));
      if evidence.scanner == Httpx {
        HttpxBinding(s, evidence, address);
      }
    }
  }

  lemma {:induction false} HttpxBinding(s: RunSource, evidence: EvidenceRef, address: Address)
    requires s.webTarget.Some? && evidence.scanner == Httpx
    ensures var target, observations := s.webTarget.value, s.report.observations;
            var peers := Peers(observations, target.origin, evidence);
            CaptureAddress(s, evidence) == Some(address)
            <==> address in target.addresses
                 && (peers == {Text(address)}
                     || (peers == {} && Attempted(observations, ProbeSucceeded, target.origin, evidence) == Some(Flag(false))
                         && Attempted(observations, TargetAddress, target.origin, evidence) == Some(Text(address))))
  {
    var target := s.webTarget.value;
    OneAddress(target.addresses, Peers(s.report.observations, target.origin, evidence));
  }

  // ---------------------------------------------------------------- imports

  /** The scans of the selection with the bytes, scanner and target of an imported run. */
  predicate Repeats(sources: seq<RunSource>, source: RunSource, evidence: EvidenceRef, o: RunSource) {
    && o in sources && o.kind == Scan && o.webTarget == source.webTarget
    && o.report.evidence.scanner == evidence.scanner && o.report.evidence.artifact == evidence.artifact
  }

  /** There are such scans, and all of them are bound to one address. */
  predicate RepeatsAt(sources: seq<RunSource>, source: RunSource, evidence: EvidenceRef, address: Address) {
    && source.kind == Import
    && (exists o :: o in sources && Repeats(sources, source, evidence, o))
    && forall o | o in sources && Repeats(sources, source, evidence, o) :: Bound(o, evidence, address)
  }

  /** An import is bound where the scans it repeats are, if they agree; anything else where its own record is. */
  ghost predicate BoundIn(sources: seq<RunSource>, source: RunSource, evidence: EvidenceRef, address: Address) {
    if exists b :: RepeatsAt(sources, source, evidence, b) then RepeatsAt(sources, source, evidence, address)
    else Bound(source, evidence, address)
  }

  lemma {:induction false} RepeatsAre(sources: seq<RunSource>, source: RunSource, evidence: EvidenceRef)
    ensures forall o :: o in Originals(sources, source, evidence) <==> Repeats(sources, source, evidence, o)
  {
    forall o
      ensures o in Originals(sources, source, evidence) <==> Repeats(sources, source, evidence, o)
    {
      OriginalsAre(sources, source, evidence, o);
    }
  }

  lemma {:induction false} OriginalAddressIs(sources: seq<RunSource>, source: RunSource, evidence: EvidenceRef, address: Address)
    requires source.kind == Import
    ensures OriginalAddress(Originals(sources, source, evidence), evidence) == Some(address)
            <==> RepeatsAt(sources, source, evidence, address)
  {
    var originals := Originals(sources, source, evidence);
    RepeatsAre(sources, source, evidence);
    forall o
      ensures CaptureAddress(o, evidence) == Some(address) <==> Bound(o, evidence, address)
    {
      BoundExactly(o, evidence, address);
    }
    if originals != [] {
      assert originals[0] in originals;
      assert Repeats(sources, source, evidence, originals[0]);
    }
    if OriginalAddress(originals, evidence) == Some(address) {
      forall o | o in sources && Repeats(sources, source, evidence, o)
        ensures Bound(o, evidence, address)
      {
        assert o in originals;
        var i :| 0 <= i < |originals| && originals[i] == o;
      }
    }
    if RepeatsAt(sources, source, evidence, address) {
      forall i | 0 <= i < |originals|
        ensures CaptureAddress(originals[i], evidence) == Some(address)
      {
        assert originals[i] in originals;
      }
    }
  }

  /** The run that a use of stored evidence cites. */
  function CitedRun(basis: Basis, use: Use): RunSource
    requires basis.CaptureBasis? && Resolves(basis, use)
  {
    SourceOf(basis.correlation.sources, use.source.runId).value
  }

  /** The binding of a piece of stored evidence, exactly. */
  lemma ViewBoundExactly(basis: Basis, a: Assessment, use: Use, address: Address)
    requires basis.CaptureBasis? && Resolves(basis, use)
    ensures ViewOf(basis, a, use).address == Some(address)
            <==> BoundIn(basis.correlation.sources, CitedRun(basis, use), use.evidence, address)
  {
    var sources, source := basis.correlation.sources, CitedRun(basis, use);
    forall b
      ensures source.kind == Import ==>
                (OriginalAddress(Originals(sources, source, use.evidence), use.evidence) == Some(b)
                 <==> RepeatsAt(sources, source, use.evidence, b))
    {
      if source.kind == Import {
        OriginalAddressIs(sources, source, use.evidence, b);
      }
    }
    BoundExactly(source, use.evidence, address);
    var original := OriginalAddress(if source.kind == Import then Originals(sources, source, use.evidence) else [], use.evidence);
    assert original.Some? ==> RepeatsAt(sources, source, use.evidence, original.value);
  }

  /** The assessment of stored evidence stands at exactly the addresses that some of it is bound to, or at none. */
  lemma KeysExactly(basis: Basis, a: Assessment, key: ContextKey)
    requires basis.CaptureBasis? && AllResolve(basis, a) && a.uses != []
    ensures key in EntriesOf(basis, a) <==>
            && key == ComparisonSides.KeyOf(a, key.address)
            && exists i: nat :: i < |a.uses| && StandsFor(basis, a.uses[i], key.address)
  {
    EntriesStand(basis, a, key);
    forall i: nat | i < |a.uses|
      ensures ViewOf(basis, a, a.uses[i]).address == key.address <==> StandsFor(basis, a.uses[i], key.address)
    {
      forall b
        ensures ViewOf(basis, a, a.uses[i]).address == Some(b)
                <==> BoundIn(basis.correlation.sources, CitedRun(basis, a.uses[i]), a.uses[i].evidence, b)
      {
        ViewBoundExactly(basis, a, a.uses[i], b);
      }
    }
    var views := BoundViews(basis, a, key.address);
    if i: nat :| i < |a.uses| && StandsFor(basis, a.uses[i], key.address) {
      assert ViewOf(basis, a, a.uses[i]) in views;
    }
  }

  /** The evidence is bound to the address, or to nothing. */
  ghost predicate StandsFor(basis: Basis, use: Use, address: Option<Address>)
    requires basis.CaptureBasis? && Resolves(basis, use)
  {
    match address
    case Some(b) => BoundIn(basis.correlation.sources, CitedRun(basis, use), use.evidence, b)
    case None => forall b :: !BoundIn(basis.correlation.sources, CitedRun(basis, use), use.evidence, b)
  }

  // ---------------------------------------------------------------- time

  /** A scan that finished no earlier than it was created. */
  predicate Finished(s: RunSource) {
    s.kind == Scan && s.finishedAt.Some? && s.createdAt <= s.finishedAt.value
  }

  /** All of the scans that an import repeats finished, the first created and the last finished then. */
  predicate RepeatsDuring(sources: seq<RunSource>, source: RunSource, evidence: EvidenceRef, start: Time, end: Time) {
    && (forall o | o in sources && Repeats(sources, source, evidence, o) ::
          Finished(o) && start <= o.createdAt && o.finishedAt.value <= end)
    && (exists o :: o in sources && Repeats(sources, source, evidence, o) && o.createdAt == start)
    && (exists o :: o in sources && Repeats(sources, source, evidence, o) && o.finishedAt == Some(end))
  }

  /** The stretch of time that a piece of stored evidence is from. */
  ghost predicate During(sources: seq<RunSource>, source: RunSource, evidence: EvidenceRef, start: Time, end: Time) {
    match source.kind
    case Scan => Finished(source) && start == source.createdAt && end == source.finishedAt.value
    case Import =>
      (exists b :: RepeatsAt(sources, source, evidence, b)) && RepeatsDuring(sources, source, evidence, start, end)
  }

  /** All windows are known, the earliest start and the latest end are these. */
  predicate Spanned(windows: seq<Option<Window>>, start: Time, end: Time) {
    && (forall i | 0 <= i < |windows| ::
          windows[i].Some? && start <= windows[i].value.start && windows[i].value.end <= end)
    && (exists i :: 0 <= i < |windows| && windows[i].Some? && windows[i].value.start == start)
    && (exists i :: 0 <= i < |windows| && windows[i].Some? && windows[i].value.end == end)
  }

  lemma {:induction false} SpanKnown(windows: seq<Option<Window>>)
    requires windows != [] && forall i | 0 <= i < |windows| :: windows[i].Some?
    ensures Span(windows).Some?
  {
    var rest := windows[..|windows| - 1];
    if rest != [] {
      SpanKnown(rest);
    }
  }

  lemma {:induction false} SpanIsSpanned(windows: seq<Option<Window>>)
    requires Span(windows).Some?
    ensures Spanned(windows, Span(windows).value.start, Span(windows).value.end)
  {
    var n := |windows| - 1;
    var rest, w := windows[..n], Span(windows).value;
    assert windows[n].Some?;
    if rest != [] {
      SpanIsSpanned(rest);
      var u := Span(rest).value;
      assert forall i | 0 <= i < n :: windows[i] == rest[i];
      var i :| 0 <= i < n && rest[i].Some? && rest[i].value.start == u.start;
      var j :| 0 <= j < n && rest[j].Some? && rest[j].value.end == u.end;
      assert windows[i].value.start == u.start && windows[j].value.end == u.end;
    }
  }

  lemma {:induction false} SpanExactly(windows: seq<Option<Window>>, start: Time, end: Time)
    ensures Span(windows) == Some(Window(start, end)) <==> Spanned(windows, start, end)
  {
    if Spanned(windows, start, end) {
      SpanKnown(windows);
    }
    if Span(windows).Some? {
      SpanIsSpanned(windows);
    }
  }

  function WindowsOf(runs: seq<RunSource>): seq<Option<Window>> {
    seq(|runs|, i requires 0 <= i < |runs| => RunWindow(runs[i]))
  }

  lemma WindowAt(runs: seq<RunSource>, i: nat)
    requires i < |runs| && runs[i].kind == Scan
    ensures WindowsOf(runs)[i].Some? <==> Finished(runs[i])
    ensures Finished(runs[i]) ==> WindowsOf(runs)[i] == Some(Window(runs[i].createdAt, runs[i].finishedAt.value))
  {
  }

  lemma SpannedRepeats(
    sources: seq<RunSource>, source: RunSource, evidence: EvidenceRef, originals: seq<RunSource>, start: Time, end: Time)
    requires forall o :: o in originals <==> Repeats(sources, source, evidence, o)
    requires Spanned(WindowsOf(originals), start, end)
    ensures RepeatsDuring(sources, source, evidence, start, end)
  {
    var windows := WindowsOf(originals);
    forall i | 0 <= i < |originals|
      ensures Finished(originals[i]) && windows[i] == Some(Window(originals[i].createdAt, originals[i].finishedAt.value))
    {
      assert Repeats(sources, source, evidence, originals[i]);
      WindowAt(originals, i);
    }
    forall o | o in sources && Repeats(sources, source, evidence, o)
      ensures Finished(o) && start <= o.createdAt && o.finishedAt.value <= end
    {
      var i :| 0 <= i < |originals| && originals[i] == o;
      assert windows[i].Some?;
    }
    var i :| 0 <= i < |windows| && windows[i].Some? && windows[i].value.start == start;
    var j :| 0 <= j < |windows| && windows[j].Some? && windows[j].value.end == end;
    assert Repeats(sources, source, evidence, originals[i]) && Repeats(sources, source, evidence, originals[j]);
  }

  lemma RepeatsSpanned(
    sources: seq<RunSource>, source: RunSource, evidence: EvidenceRef, originals: seq<RunSource>, start: Time, end: Time)
    requires forall o :: o in originals <==> Repeats(sources, source, evidence, o)
    requires RepeatsDuring(sources, source, evidence, start, end)
    ensures Spanned(WindowsOf(originals), start, end)
  {
    var windows := WindowsOf(originals);
    forall k | 0 <= k < |windows|
      ensures Finished(originals[k]) && windows[k] == Some(Window(originals[k].createdAt, originals[k].finishedAt.value))
      ensures start <= windows[k].value.start && windows[k].value.end <= end
    {
      assert originals[k] in originals;
      assert Repeats(sources, source, evidence, originals[k]);
      WindowAt(originals, k);
    }
    var o :| o in sources && Repeats(sources, source, evidence, o) && o.createdAt == start;
    var p :| p in sources && Repeats(sources, source, evidence, p) && p.finishedAt == Some(end);
    var i :| 0 <= i < |originals| && originals[i] == o;
    var j :| 0 <= j < |originals| && originals[j] == p;
    assert windows[i].value.start == start && windows[j].value.end == end;
  }

  /** The stretch of time a piece of stored evidence is from, exactly. */
  lemma ViewTimedExactly(basis: Basis, a: Assessment, use: Use, start: Time, end: Time)
    requires basis.CaptureBasis? && Resolves(basis, use)
    ensures ViewOf(basis, a, use).window == Some(Window(start, end))
            <==> During(basis.correlation.sources, CitedRun(basis, use), use.evidence, start, end)
  {
    var sources, source := basis.correlation.sources, CitedRun(basis, use);
    if source.kind == Import {
      forall b
        ensures OriginalAddress(Originals(sources, source, use.evidence), use.evidence) == Some(b)
                <==> RepeatsAt(sources, source, use.evidence, b)
      {
        OriginalAddressIs(sources, source, use.evidence, b);
      }
      var original := OriginalAddress(Originals(sources, source, use.evidence), use.evidence);
      assert original.Some? ==> RepeatsAt(sources, source, use.evidence, original.value);
      var originals := Originals(sources, source, use.evidence);
      RepeatsAre(sources, source, use.evidence);
      SpanExactly(WindowsOf(originals), start, end);
      if RepeatsDuring(sources, source, use.evidence, start, end) {
        RepeatsSpanned(sources, source, use.evidence, originals, start, end);
      }
      if Spanned(WindowsOf(originals), start, end) {
        SpannedRepeats(sources, source, use.evidence, originals, start, end);
      }
      assert WindowsOf(originals) == seq(|originals|, i requires 0 <= i < |originals| => RunWindow(originals[i]));
    }
  }
}

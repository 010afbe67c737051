/**
  What stored httpx observations say of the HSTS header of an origin, from the observations to
  the assessment, in both directions.
 */
module HttpxHsts {
  import opened Capture
  import opened Correlation
  import opened CorrelationLaws
  import opened Evidence
  import opened Facts
  import opened Runs
  import opened Wrappers

  /** The keys that are read of a response record. */
  predicate HeaderKey(key: Key) {
    || key == ProbeSucceeded || key == StatusCode || key == LocationKey || key == HeaderLocation
    || key == HeaderWwwAuthenticate || key == TitleKey || key == HeaderStrictTransportSecurity
  }

  /** An httpx run tells, of one record at an origin, a value for a key. */
  predicate Tells(s: RunSource, origin: Origin, e: EvidenceRef, key: Key, v: Value) {
    && s.report.evidence.scanner == Httpx
    && exists n :: 0 <= n < |s.report.observations| && ToldBy(s.report.observations[n], origin, e, key, v)
  }

  predicate ToldBy(o: Observation, origin: Origin, e: EvidenceRef, key: Key, v: Value) {
    o.subject == HttpSubject(origin) && o.key == key && o.value == v && e in o.evidence
  }

  ghost predicate Mentions(s: RunSource, origin: Origin, e: EvidenceRef, key: Key) {
    exists v :: Tells(s, origin, e, key, v)
  }

  /** Something is told of the record. */
  ghost predicate IsRecord(s: RunSource, origin: Origin, e: EvidenceRef) {
    exists key :: HeaderKey(key) && Mentions(s, origin, e, key)
  }

  /**
    The record shows the header: every key is told once; the probe succeeded with status 200 and
    the header; no redirect, no challenge and no title of an access page is told.
   */
  ghost predicate Shows(c: CorrelationResult, s: RunSource, origin: Origin, e: EvidenceRef, review: Review) {
    && DistinctKeys(RecordFacts(AllSightings(c), RecordKey(s.runId, origin, e)))
    && Tells(s, origin, e, ProbeSucceeded, Flag(true))
    && (Tells(s, origin, e, StatusCode, Whole(200)) || Tells(s, origin, e, StatusCode, Fraction(200.0)))
    && Mentions(s, origin, e, HeaderStrictTransportSecurity)
    && !Mentions(s, origin, e, LocationKey) && !Mentions(s, origin, e, HeaderLocation)
    && !Mentions(s, origin, e, HeaderWwwAuthenticate)
    && (forall v | Tells(s, origin, e, TitleKey, v) :: !review.blockedTitle(v))
    && (Mentions(s, origin, e, TitleKey) || !review.blockedTitle(Text("")))
  }

  // ---------------------------------------------------------------- sightings and facts

  /** A sighting that observation `k` of a run makes. */
  predicate SightedAt(s: RunSource, k: nat, x: Sighting) {
    && k < |s.report.observations|
    && var o := s.report.observations[k];
       && o.subject.HttpSubject? && HeaderKey(o.key) && x.origin == o.subject.origin
       && exists e :: e in o.evidence && x.use == ExistingCapture(ObservationRef(s.runId, k), e, [Fact(o.key, o.value)])
  }

  lemma ObservationSights(s: RunSource, k: nat, x: Sighting)
    requires k < |s.report.observations|
    ensures x in ObservationSightings(s, k) <==> SightedAt(s, k, x)
  {
    var o := s.report.observations[k];
    var all := ObservationSightings(s, k);
    if SightedAt(s, k, x) {
      var e :| e in o.evidence && x.use == ExistingCapture(ObservationRef(s.runId, k), e, [Fact(o.key, o.value)]);
      var i :| 0 <= i < |o.evidence| && o.evidence[i] == e;
      assert all[i] == x;
    }
    if x in all {
      var i :| 0 <= i < |all| && all[i] == x;
      assert o.evidence[i] in o.evidence;
    }
  }

  lemma {:induction false} RunSights(s: RunSource, n: nat, x: Sighting)
    requires n <= |s.report.observations|
    ensures x in RunSightings(s, n) <==> exists k: nat :: k < n && SightedAt(s, k, x)
  {
    if n > 0 {
      RunSights(s, n - 1, x);
      ObservationSights(s, n - 1, x);
    }
  }

  predicate SightedIn(s: RunSource, x: Sighting) {
    s.report.evidence.scanner == Httpx && exists k: nat :: k < |s.report.observations| && SightedAt(s, k, x)
  }

  lemma {:induction false} SightingsAre(sources: seq<RunSource>, n: nat, x: Sighting)
    requires n <= |sources|
    ensures x in Sightings(sources, n) <==> exists i :: 0 <= i < n && SightedIn(sources[i], x)
  {
    if n > 0 {
      SightingsAre(sources, n - 1, x);
      RunSights(sources[n - 1], |sources[n - 1].report.observations|, x);
    }
  }

  predicate FactOf(x: Sighting, key: RecordKey, f: Fact) {
    RecordOf(x) == Some(key) && f in x.use.facts
  }

  lemma {:induction false} FactsAre(sightings: seq<Sighting>, key: RecordKey, f: Fact)
    ensures f in RecordFacts(sightings, key) <==> exists x :: x in sightings && FactOf(x, key, f)
  {
    if sightings != [] {
      var n := |sightings| - 1;
      FactsAre(sightings[..n], key, f);
      assert sightings == sightings[..n] + [sightings[n]];
      if x :| x in sightings[..n] && FactOf(x, key, f) {
        assert x in sightings;
      }
      assert FactOf(sightings[n], key, f) ==> sightings[n] in sightings;
    }
  }

  lemma {:induction false} UsesAre(sightings: seq<Sighting>, origin: Origin)
    ensures UsesFor(sightings, origin) != [] <==> exists x :: x in sightings && x.origin == origin
  {
    if sightings != [] {
      var n := |sightings| - 1;
      UsesAre(sightings[..n], origin);
      assert sightings == sightings[..n] + [sightings[n]];
    }
  }

  /** What is on record of a run's record is what the run tells of it. */
  lemma {:induction false} FactsAreTold(c: CorrelationResult, i: nat, origin: Origin, e: EvidenceRef, f: Fact)
    requires DistinctRuns(c.sources) && i < |c.sources|
    ensures f in RecordFacts(AllSightings(c), RecordKey(c.sources[i].runId, origin, e))
            <==> HeaderKey(f.key) && Tells(c.sources[i], origin, e, f.key, f.value)
  {
    var s := c.sources[i];
    var key := RecordKey(s.runId, origin, e);
    FactsAre(AllSightings(c), key, f);
    if x :| x in AllSightings(c) && FactOf(x, key, f) {
      SightingsAre(c.sources, |c.sources|, x);
      var j :| 0 <= j < |c.sources| && SightedIn(c.sources[j], x);
      assert c.sources[j].runId == s.runId;
      assert j == i;
      var k: nat :| k < |s.report.observations| && SightedAt(s, k, x);
      assert ToldBy(s.report.observations[k], origin, e, f.key, f.value);
    }
    if HeaderKey(f.key) && Tells(s, origin, e, f.key, f.value) {
      var k :| 0 <= k < |s.report.observations| && ToldBy(s.report.observations[k], origin, e, f.key, f.value);
      var x := Sighting(origin, ExistingCapture(ObservationRef(s.runId, k), e, [f]));
      assert SightedAt(s, k, x);
      SightingsAre(c.sources, |c.sources|, x);
      assert f in x.use.facts;
      assert FactOf(x, key, f);
    }
  }

  /** With distinct keys, looking a fact up is finding it. */
  lemma LookupFinds(facts: seq<Fact>, key: Key)
    requires DistinctKeys(facts)
    ensures forall v :: Lookup(facts, key) == Some(v) <==> Fact(key, v) in facts
  {
    LookupAll(facts);
    LookupListed(facts, key);
    forall v | Fact(key, v) in facts
      ensures Lookup(facts, key) == Some(v)
    {
      var i :| 0 <= i < |facts| && facts[i] == Fact(key, v);
    }
  }

  lemma {:induction false} LookupListed(facts: seq<Fact>, key: Key)
    ensures Lookup(facts, key).Some? ==> Fact(key, Lookup(facts, key).value) in facts
  {
    LastListed(facts, |facts|, key);
  }

  lemma {:induction false} LastListed(facts: seq<Fact>, n: nat, key: Key)
    requires n <= |facts|
    ensures LastValue(facts, n, key).Some? ==> Fact(key, LastValue(facts, n, key).value) in facts
  {
    if n > 0 {
      LastListed(facts, n - 1, key);
      assert facts[n - 1] in facts;
    }
  }

  lemma TwoHundred(v: Value)
    ensures Equated(v) == Equated(Whole(200)) <==> v == Whole(200) || v == Fraction(200.0)
  {
  }

  /** A record qualifies exactly if it shows the header. */
  lemma {:induction false} QualifiesExactly(c: CorrelationResult, i: nat, origin: Origin, e: EvidenceRef, review: Review)
    requires DistinctRuns(c.sources) && i < |c.sources|
    ensures Qualifies(RecordFacts(AllSightings(c), RecordKey(c.sources[i].runId, origin, e)), review)
            <==> Shows(c, c.sources[i], origin, e, review)
  {
    var facts := RecordFacts(AllSightings(c), RecordKey(c.sources[i].runId, origin, e));
    forall f
      ensures f in facts <==> HeaderKey(f.key) && Tells(c.sources[i], origin, e, f.key, f.value)
    {
      FactsAreTold(c, i, origin, e, f);
    }
    if DistinctKeys(facts) {
      forall key, v | HeaderKey(key)
        ensures Lookup(facts, key) == Some(v) <==> Tells(c.sources[i], origin, e, key, v)
      {
        LookupFinds(facts, key);
        assert Fact(key, v) in facts <==> Tells(c.sources[i], origin, e, key, v);
      }
      LookedUp(facts, c.sources[i], origin, e, review);
    }
  }

  lemma LookedUp(facts: seq<Fact>, s: RunSource, origin: Origin, e: EvidenceRef, review: Review)
    requires forall key, v | HeaderKey(key) :: Lookup(facts, key) == Some(v) <==> Tells(s, origin, e, key, v)
    requires DistinctKeys(facts)
    ensures Qualifies(facts, review) <==>
            && Tells(s, origin, e, ProbeSucceeded, Flag(true))
            && (Tells(s, origin, e, StatusCode, Whole(200)) || Tells(s, origin, e, StatusCode, Fraction(200.0)))
            && Mentions(s, origin, e, HeaderStrictTransportSecurity)
            && !Mentions(s, origin, e, LocationKey) && !Mentions(s, origin, e, HeaderLocation)
            && !Mentions(s, origin, e, HeaderWwwAuthenticate)
            && (forall v | Tells(s, origin, e, TitleKey, v) :: !review.blockedTitle(v))
            && (Mentions(s, origin, e, TitleKey) || !review.blockedTitle(Text("")))
  {
    forall key | HeaderKey(key)
      ensures Mentions(s, origin, e, key) <==> Lookup(facts, key).Some?
    {
      if Lookup(facts, key).Some? {
        assert Tells(s, origin, e, key, Lookup(facts, key).value);
      }
    }
    if Lookup(facts, StatusCode).Some? {
      TwoHundred(Lookup(facts, StatusCode).value);
    }
  }

  // ---------------------------------------------------------------- the assessment

  /** A sighting is of a record that some run tells something of. */
  lemma SightingTells(c: CorrelationResult, x: Sighting) returns (i: nat, e: EvidenceRef)
    requires x in AllSightings(c)
    ensures i < |c.sources| && IsRecord(c.sources[i], x.origin, e)
    ensures RecordOf(x) == Some(RecordKey(c.sources[i].runId, x.origin, e))
  {
    SightingsAre(c.sources, |c.sources|, x);
    i :| 0 <= i < |c.sources| && SightedIn(c.sources[i], x);
    var k: nat :| k < |c.sources[i].report.observations| && SightedAt(c.sources[i], k, x);
    var o := c.sources[i].report.observations[k];
    e :| e in o.evidence && x.use == ExistingCapture(ObservationRef(c.sources[i].runId, k), e, [Fact(o.key, o.value)]);
    assert ToldBy(o, x.origin, e, o.key, o.value);
    assert Tells(c.sources[i], x.origin, e, o.key, o.value);
    assert Mentions(c.sources[i], x.origin, e, o.key);
  }

  /** Whatever a run tells of a record is sighted. */
  lemma RecordSighted(c: CorrelationResult, i: nat, origin: Origin, e: EvidenceRef) returns (x: Sighting)
    requires DistinctRuns(c.sources) && i < |c.sources| && IsRecord(c.sources[i], origin, e)
    ensures x in AllSightings(c) && RecordOf(x) == Some(RecordKey(c.sources[i].runId, origin, e))
  {
    var key :| HeaderKey(key) && Mentions(c.sources[i], origin, e, key);
    var v :| Tells(c.sources[i], origin, e, key, v);
    FactsAreTold(c, i, origin, e, Fact(key, v));
    FactsAre(AllSightings(c), RecordKey(c.sources[i].runId, origin, e), Fact(key, v));
    x :| x in AllSightings(c) && FactOf(x, RecordKey(c.sources[i].runId, origin, e), Fact(key, v));
  }

  lemma RecordsAre(c: CorrelationResult, origin: Origin, key: RecordKey)
    requires DistinctRuns(c.sources)
    ensures key in RecordsFor(AllSightings(c), origin)
            <==> key.origin == origin
                 && exists i :: 0 <= i < |c.sources| && c.sources[i].runId == key.runId && IsRecord(c.sources[i], origin, key.evidence)
  {
    var sightings := AllSightings(c);
    if key in RecordsFor(sightings, origin) {
      var n :| 0 <= n < |sightings| && sightings[n].origin == origin && RecordOf(sightings[n]) == Some(key);
      assert sightings[n] in sightings;
      var i, e := SightingTells(c, sightings[n]);
    }
    if key.origin == origin {
      if i :| 0 <= i < |c.sources| && c.sources[i].runId == key.runId && IsRecord(c.sources[i], origin, key.evidence) {
        var x := RecordSighted(c, i, origin, key.evidence);
        var n :| 0 <= n < |sightings| && sightings[n] == x;
        assert RecordOf(sightings[n]).Some?;
      }
    }
  }

  ghost predicate AnyRecord(c: CorrelationResult, origin: Origin) {
    exists i, e :: 0 <= i < |c.sources| && IsRecord(c.sources[i], origin, e)
  }

  ghost predicate AllShow(c: CorrelationResult, origin: Origin, review: Review) {
    forall i, e | 0 <= i < |c.sources| && IsRecord(c.sources[i], origin, e) :: Shows(c, c.sources[i], origin, e, review)
  }

  lemma AllQualifyExactly(c: CorrelationResult, origin: Origin, review: Review)
    requires DistinctRuns(c.sources)
    ensures AllQualify(AllSightings(c), origin, review) <==> AnyRecord(c, origin) && AllShow(c, origin, review)
  {
    var records := RecordsFor(AllSightings(c), origin);
    forall key
      ensures key in records
              <==> key.origin == origin
                   && exists i :: 0 <= i < |c.sources| && c.sources[i].runId == key.runId && IsRecord(c.sources[i], origin, key.evidence)
    {
      RecordsAre(c, origin, key);
    }
    forall i, e | 0 <= i < |c.sources|
      ensures Qualifies(RecordFacts(AllSightings(c), RecordKey(c.sources[i].runId, origin, e)), review)
              <==> Shows(c, c.sources[i], origin, e, review)
    {
      QualifiesExactly(c, i, origin, e, review);
    }
    forall i, e | 0 <= i < |c.sources| && IsRecord(c.sources[i], origin, e)
      ensures RecordKey(c.sources[i].runId, origin, e) in records
    {
    }
    if records != {} {
      var key :| key in records;
    }
  }

  lemma {:induction false} SightedExactly(c: CorrelationResult, origin: Origin)
    requires DistinctRuns(c.sources)
    ensures UsesFor(AllSightings(c), origin) != [] <==> AnyRecord(c, origin)
  {
    var sightings := AllSightings(c);
    UsesAre(sightings, origin);
    if x :| x in sightings && x.origin == origin {
      var i, e := SightingTells(c, x);
    }
    if i, e :| 0 <= i < |c.sources| && IsRecord(c.sources[i], origin, e) {
      var x := RecordSighted(c, i, origin, e);
      assert x.origin == origin;
    }
  }

  /**
    From httpx observations to the HSTS assessment of an origin: there is one exactly if some
    record tells something of it; it is never positive; and the header counts as present exactly
    for an HTTPS hostname of which every record shows it.
   */
  lemma HttpxHstsExactly(project: string, sources: seq<RunSource>, parsing: Parsing, origin: Origin, review: Review)
    requires Correlated(project, sources, parsing).Success?
    ensures var c := Correlated(project, sources, parsing).value;
            var a := Expected(c, AssessmentId(project, Claim(HstsMissing, "1", origin, "/")), review);
            && (a.Some? <==> AnyRecord(c, origin))
            && (a.Some? ==>
                  && a.value.outcome != SupportedPositive
                  && (a.value.outcome == SupportedNegative
                      <==> origin.https && !origin.literalAddress && AllShow(c, origin, review)))
  {
    var c := CorrelatedParts(project, sources, parsing);
    SightedExactly(c, origin);
    AllQualifyExactly(c, origin, review);
    HstsIsExpected(c, origin, review);
  }

  /** Under the identity of the HSTS claim, nothing is expected but the HSTS assessment. */
  lemma {:induction false} HstsIsExpected(c: CorrelationResult, origin: Origin, review: Review)
    ensures Expected(c, AssessmentId(c.project, Claim(HstsMissing, "1", origin, "/")), review)
            == if UsesFor(AllSightings(c), origin) != [] then Some(HstsAssessment(c, origin, review)) else None
  {
  }

  // ---------------------------------------------------------------- what it rests on

  /** The use cites one observation of the origin, with what it tells. */
  ghost predicate CitesTold(s: RunSource, origin: Origin, u: Use) {
    && s.report.evidence.scanner == Httpx
    && exists k: nat, e :: k < |s.report.observations| && CitesObservation(s, k, origin, e, u)
  }

  predicate CitesObservation(s: RunSource, k: nat, origin: Origin, e: EvidenceRef, u: Use)
    requires k < |s.report.observations|
  {
    var o := s.report.observations[k];
    && o.subject == HttpSubject(origin) && HeaderKey(o.key) && e in o.evidence
    && u == ExistingCapture(ObservationRef(s.runId, k), e, [Fact(o.key, o.value)])
  }

  lemma {:induction false} UsesForAre(sightings: seq<Sighting>, origin: Origin, u: Use)
    ensures u in UsesFor(sightings, origin) <==> Sighting(origin, u) in sightings
  {
    if sightings != [] {
      var n := |sightings| - 1;
      UsesForAre(sightings[..n], origin, u);
      assert sightings == sightings[..n] + [sightings[n]];
    }
  }

  /** What the HSTS assessment of an origin needed, and the evidence it names: everything told of it, and no more. */
  lemma HstsCites(c: CorrelationResult, origin: Origin, review: Review, u: Use)
    ensures var a := HstsAssessment(c, origin, review);
            && (u in a.uses <==> exists i :: 0 <= i < |c.sources| && CitesTold(c.sources[i], origin, u))
            && a.prerequisites == [
                 Prerequisite(HttpsOrigin, if origin.https then Met else NotMet),
                 Prerequisite(HostnameOrigin, if origin.literalAddress then NotMet else Met),
                 Prerequisite(CompleteHeaders, Unknown)]
            && a.reason == (if !origin.https || origin.literalAddress then HstsNotApplicable
                            else if a.outcome == SupportedNegative then HstsHeaderObserved else HeaderCaptureIncomplete)
  {
    var x := Sighting(origin, u);
    UsesForAre(AllSightings(c), origin, u);
    SightingsAre(c.sources, |c.sources|, x);
    forall i | 0 <= i < |c.sources|
      ensures SightedIn(c.sources[i], x) <==> CitesTold(c.sources[i], origin, u)
    {
      var s := c.sources[i];
      if SightedIn(s, x) {
        var k: nat :| k < |s.report.observations| && SightedAt(s, k, x);
        var o := s.report.observations[k];
        var e :| e in o.evidence && x.use == ExistingCapture(ObservationRef(s.runId, k), e, [Fact(o.key, o.value)]);
        assert CitesObservation(s, k, origin, e, u);
      }
      if CitesTold(s, origin, u) {
        var k: nat, e :| k < |s.report.observations| && CitesObservation(s, k, origin, e, u);
        assert SightedAt(s, k, x);
      }
    }
  }
}

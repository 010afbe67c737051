/**
  What a comparison reports beside its states: why evidence counts as unhealthy or as valid,
  when a selection is refused at once, and the reason and coverage of every conclusion. The
  decision chain and its checks are said again here without their order.
 */
module ReportedReasons {
  import opened Capture
  import opened Comparison
  import opened ComparisonSides
  import opened Correlation
  import opened Evidence
  import opened Runs
  import opened StateLaws
  import opened Wrappers

  // ---------------------------------------------------------------- health

  /** What verification found of an artifact, if it looked. */
  predicate Found<K(==)>(health: Option<map<K, Health>>, key: K, what: Health) {
    health.Some? && key in health.value && health.value[key] == what
  }

  predicate Looked<K(==)>(health: Option<map<K, Health>>, key: K) {
    health.Some? && key in health.value
  }

  /** The reason that stored evidence counts as unhealthy, exactly. */
  lemma CaptureHealthExactly(basis: Basis, a: Assessment, use: Use)
    requires basis.CaptureBasis? && Resolves(basis, use)
    ensures var s := SourceOf(basis.correlation.sources, use.source.runId).value;
            var recorded := exists x :: x in s.artifacts && x.role == Stdout && x.sha == use.evidence.artifact;
            var key := (s.runId, use.evidence.artifact);
            var v := ViewOf(basis, a, use);
            && (v.healthy <==> recorded && Found(basis.captureHealth, key, Ready))
            && (v.reason == Some(EvidenceArtifactUnavailable) <==> !recorded)
            && (v.reason == Some(CaptureHealthUnverified) <==> recorded && !Looked(basis.captureHealth, key))
            && (v.reason == Some(EvidenceArtifactUnhealthy)
                <==> recorded && Looked(basis.captureHealth, key) && !Found(basis.captureHealth, key, Ready))
            && (v.healthy <==> v.reason.None?)
  {
    var s := SourceOf(basis.correlation.sources, use.source.runId).value;
    if x :| x in s.artifacts && x.role == Stdout && x.sha == use.evidence.artifact {
      assert x == StoredArtifact(Stdout, use.evidence.artifact);
      var i :| 0 <= i < |s.artifacts| && s.artifacts[i] == x;
    }
    if i :| 0 <= i < |s.artifacts| && s.artifacts[i] == StoredArtifact(Stdout, use.evidence.artifact) {
      assert s.artifacts[i] in s.artifacts;
    }
  }

  /** The reason that fresh evidence counts as unhealthy, exactly; without an artifact there is none. */
  lemma FreshHealthExactly(basis: Basis, a: Assessment, use: Use)
    requires basis.FreshBasis? && Resolves(basis, use)
    ensures var q := AcquisitionOf(basis.acquisitions, use.acquisition).value;
            var v := ViewOf(basis, a, use);
            && (v.healthy <==> q.evidence.None? || Found(basis.acquisitionHealth, q.id, Ready))
            && (v.reason == Some(FreshHealthUnverified) <==> q.evidence.Some? && !Looked(basis.acquisitionHealth, q.id))
            && (v.reason == Some(FreshArtifactUnhealthy)
                <==> q.evidence.Some? && Looked(basis.acquisitionHealth, q.id) && !Found(basis.acquisitionHealth, q.id, Ready))
            && (v.healthy <==> v.reason.None?)
            && v.address == Some(q.address) && v.capturedAt == q.startedAt
            && (q.evidence.Some? ==> v.digest == Some(q.evidence.value.sha)) && (q.evidence.None? ==> v.digest.None?)
            && (v.window.Some? <==> q.finishedAt.Some? && q.startedAt <= q.finishedAt.value)
            && (v.window.Some? ==> v.window == Some(Window(q.startedAt, q.finishedAt.value)))
  {
  }

  // ---------------------------------------------------------------- the same evidence

  /** Values that Python's `==` takes for one: the same, or the same number. */
  predicate Equal(v: Value, w: Value) {
    match (v, w)
    case (Flag(a), Flag(b)) => a == b
    case (Flag(a), Whole(n)) => n == if a then 1 else 0
    case (Whole(n), Flag(a)) => n == if a then 1 else 0
    case (Flag(a), Fraction(r)) => r == if a then 1.0 else 0.0
    case (Fraction(r), Flag(a)) => r == if a then 1.0 else 0.0
    case (Whole(m), Fraction(r)) => r == m as real
    case (Fraction(r), Whole(m)) => r == m as real
    case _ => v == w
  }

  lemma EqualIs(v: Value, w: Value)
    ensures Equated(v) == Equated(w) <==> Equal(v, w)
  {
  }

  /** The values that some facts give for a key, in order. */
  function Given(facts: seq<Fact>, key: Key): seq<Value> {
    if facts == [] then []
    else (if facts[0].key == key then [facts[0].value] else []) + Given(facts[1..], key)
  }

  predicate AllEqual(xs: seq<Value>, ys: seq<Value>) {
    |xs| == |ys| && forall i | 0 <= i < |xs| :: Equal(xs[i], ys[i])
  }

  /** Two pieces of stored evidence that give the same for every key, however the keys are ordered. */
  ghost predicate SameUse(u: Use, v: Use) {
    && u.ExistingCapture? && v.ExistingCapture? && u.source == v.source && u.evidence == v.evidence
    && forall key :: AllEqual(Given(u.facts, key), Given(v.facts, key))
  }

  function AllEquated(xs: seq<Value>): seq<Value> {
    seq(|xs|, i requires 0 <= i < |xs| => Equated(xs[i]))
  }

  lemma {:induction false} GivenLast(facts: seq<Fact>, f: Fact, key: Key)
    ensures Given(facts + [f], key) == Given(facts, key) + (if f.key == key then [f.value] else [])
  {
    if facts != [] {
      GivenLast(facts[1..], f, key);
      assert (facts + [f])[1..] == facts[1..] + [f];
    }
  }

  lemma {:induction false} UnderIsGiven(facts: seq<Fact>, key: Key)
    ensures ValuesUnder(facts, key) == AllEquated(Given(facts, key))
  {
    if facts != [] {
      var n := |facts| - 1;
      UnderIsGiven(facts[..n], key);
      GivenLast(facts[..n], facts[n], key);
      assert facts == facts[..n] + [facts[n]];
    }
  }

  lemma EquatedLists(xs: seq<Value>, ys: seq<Value>)
    ensures AllEquated(xs) == AllEquated(ys) <==> AllEqual(xs, ys)
  {
    if AllEquated(xs) == AllEquated(ys) {
      assert |AllEquated(xs)| == |xs| && |AllEquated(ys)| == |ys|;
      forall i | 0 <= i < |xs|
        ensures Equal(xs[i], ys[i])
      {
        assert Equated(xs[i]) == AllEquated(xs)[i] == AllEquated(ys)[i] == Equated(ys[i]);
        EqualIs(xs[i], ys[i]);
      }
    }
    if AllEqual(xs, ys) {
      forall i | 0 <= i < |xs|
        ensures AllEquated(xs)[i] == AllEquated(ys)[i]
      {
        EqualIs(xs[i], ys[i]);
      }
      assert AllEquated(xs) == AllEquated(ys);
    }
  }

  /** What `Normalised` keeps of some facts. */
  function ValuesOf(facts: seq<Fact>): map<Key, seq<Value>> {
    var keys := set i | 0 <= i < |facts| :: facts[i].key;
    map k | k in keys :: ValuesUnder(facts, k)
  }

  lemma {:induction false} GivenSome(facts: seq<Fact>, key: Key)
    ensures key in ValuesOf(facts) <==> Given(facts, key) != []
  {
    if facts != [] {
      var rest := facts[1..];
      GivenSome(rest, key);
      assert forall i | 0 <= i < |rest| :: rest[i] == facts[i + 1];
      if key in ValuesOf(rest) {
        var i :| 0 <= i < |rest| && rest[i].key == key;
        assert facts[i + 1].key == key;
      }
      if key in ValuesOf(facts) && facts[0].key != key {
        var i :| 0 <= i < |facts| && facts[i].key == key;
        assert rest[i - 1].key == key;
      }
    }
  }

  predicate AgreeAt(x: map<Key, seq<Value>>, y: map<Key, seq<Value>>, key: Key) {
    (key in x <==> key in y) && (key in x && key in y ==> x[key] == y[key])
  }

  lemma AgreeEverywhere(x: map<Key, seq<Value>>, y: map<Key, seq<Value>>)
    ensures x == y <==> forall key :: AgreeAt(x, y, key)
  {
    if forall key :: AgreeAt(x, y, key) {
      forall key
        ensures (key in x <==> key in y) && (key in x && key in y ==> x[key] == y[key])
      {
        assert AgreeAt(x, y, key);
      }
      assert x == y;
    }
  }

  lemma {:induction false} ValuesAgree(facts: seq<Fact>, others: seq<Fact>, key: Key)
    ensures AgreeAt(ValuesOf(facts), ValuesOf(others), key) <==> AllEqual(Given(facts, key), Given(others, key))
  {
    GivenSome(facts, key);
    GivenSome(others, key);
    UnderIsGiven(facts, key);
    UnderIsGiven(others, key);
    EquatedLists(Given(facts, key), Given(others, key));
  }

  lemma NormalisedIs(u: Use)
    requires u.ExistingCapture?
    ensures Normalised(u) == Some(Normal(u.source, u.evidence, ValuesOf(u.facts)))
  {
    assert Normalised(u).value.values == ValuesOf(u.facts);
  }

  lemma SameUseIs(u: Use, v: Use)
    requires u.ExistingCapture? && v.ExistingCapture?
    ensures Normalised(u) == Normalised(v) <==> SameUse(u, v)
  {
    var x, y := ValuesOf(u.facts), ValuesOf(v.facts);
    NormalisedIs(u);
    NormalisedIs(v);
    AgreeEverywhere(x, y);
    forall key
      ensures AgreeAt(x, y, key) <==> AllEqual(Given(u.facts, key), Given(v.facts, key))
    {
      ValuesAgree(u.facts, v.facts, key);
    }
  }

  predicate AllStored(uses: seq<Use>) {
    forall u | u in uses :: u.ExistingCapture?
  }

  ghost predicate RestatedUses(uses: seq<Use>, others: seq<Use>) {
    forall u | u in uses :: exists v :: v in others && SameUse(u, v)
  }

  lemma RestatedUsesIs(a: Assessment, b: Assessment)
    requires AllStored(a.uses) && AllStored(b.uses)
    ensures NormalUses(a) <= NormalUses(b) <==> RestatedUses(a.uses, b.uses)
  {
    forall u, v | u in a.uses && v in b.uses
      ensures Normalised(u) == Normalised(v) <==> SameUse(u, v)
    {
      SameUseIs(u, v);
    }
    if NormalUses(a) <= NormalUses(b) {
      forall u | u in a.uses
        ensures exists v :: v in b.uses && SameUse(u, v)
      {
        var i :| 0 <= i < |a.uses| && a.uses[i] == u;
        assert Normalised(a.uses[i]) in NormalUses(a);
        var j :| 0 <= j < |b.uses| && Normalised(b.uses[j]) == Normalised(u);
        assert b.uses[j] in b.uses;
      }
    }
    if RestatedUses(a.uses, b.uses) {
      forall n | n in NormalUses(a)
        ensures n in NormalUses(b)
      {
        var i :| 0 <= i < |a.uses| && Normalised(a.uses[i]) == n;
        assert a.uses[i] in a.uses;
        var v :| v in b.uses && SameUse(a.uses[i], v);
        var j :| 0 <= j < |b.uses| && b.uses[j] == v;
      }
    }
  }

  /**
    When a stored assessment is taken for the one its correlation yields: the same outcome,
    reason and prerequisites, and the same evidence, in whatever order its uses and the keys of
    their facts come.
   */
  lemma SameEvidenceExactly(a: Assessment, b: Assessment)
    requires AllStored(a.uses) && AllStored(b.uses)
    ensures SameAssessmentEvidence(a, Some(b)) <==>
            && a.outcome == b.outcome && a.reason == b.reason
            && RestatedUses(a.uses, b.uses) && RestatedUses(b.uses, a.uses)
            && (forall p :: p in a.prerequisites <==> p in b.prerequisites)
  {
    RestatedUsesIs(a, b);
    RestatedUsesIs(b, a);
    forall p
      ensures p in PrerequisiteSet(a) <==> p in a.prerequisites
      ensures p in PrerequisiteSet(b) <==> p in b.prerequisites
    {
    }
  }

  // ---------------------------------------------------------------- what is refused at once

  predicate CoversRuns(c: CorrelationResult, runIds: seq<Uuid>) {
    && (forall id | id in runIds :: exists s :: s in c.sources && s.runId == id)
    && (forall s | s in c.sources :: s.runId in runIds)
  }

  /** The checks that open the comparison of a selection, and which of them refuses it. */
  lemma OpeningExactly(report: Report, support: Support, review: Review)
    ensures var r := BasisOf(report, support, review);
            match report
            case CaptureReport(project, runIds, _) =>
              && (r == Failure(CaptureWithAcquisitionHealth) <==> support.acquisitionHealth.Some?)
              && (r == Failure(CorrelationRequired) <==> support.acquisitionHealth.None? && support.correlation.None?)
              && (r.Success? <==>
                    && support.acquisitionHealth.None? && support.correlation.Some?
                    && var c := support.correlation.value;
                       c.project == project && CoversRuns(c, runIds) && forall s | s in c.sources :: s.project == project)
              && (r.Success? ==> r.value == CaptureBasis(support.correlation.value, support.captureHealth, review))
            case FreshReport(_, acquisitions, _) =>
              && (r.Success? <==> support.correlation.None? && support.captureHealth.None?)
              && (r.Success? ==> r.value == FreshBasis(acquisitions, support.acquisitionHealth))
              && (r.Failure? ==> r == Failure(FreshWithCorrelation))
  {
    if report.CaptureReport? && support.correlation.Some? {
      var c := support.correlation.value;
      RunsCovered(c, report.runIds);
      assert forall i | 0 <= i < |c.sources| :: c.sources[i] in c.sources;
    }
  }

  lemma RunsCovered(c: CorrelationResult, runIds: seq<Uuid>)
    ensures (set i | 0 <= i < |runIds| :: runIds[i]) == RunIds(c.sources) <==> CoversRuns(c, runIds)
  {
    var ids := set i | 0 <= i < |runIds| :: runIds[i];
    forall id
      ensures id in ids <==> id in runIds
      ensures id in RunIds(c.sources) <==> exists s :: s in c.sources && s.runId == id
    {
      if id in RunIds(c.sources) {
        var i :| 0 <= i < |c.sources| && c.sources[i].runId == id;
        assert c.sources[i] in c.sources;
      }
      if s :| s in c.sources && s.runId == id {
        var i :| 0 <= i < |c.sources| && c.sources[i] == s;
      }
    }
    if CoversRuns(c, runIds) {
      assert forall id :: id in ids <==> id in RunIds(c.sources);
    }
  }

  // ---------------------------------------------------------------- the reason and coverage of a conclusion

  predicate Sick(e: Option<Entry>) {
    e.Some? && !e.value.healthy
  }

  /** Both sides have a supported outcome, and can be held against each other. */
  predicate BothSupported(b: Entry, c: Entry, templates: map<string, string>) {
    Compatible(b, c, templates) && b.assessment.outcome != Inconclusive && c.assessment.outcome != Inconclusive
  }

  /** The reason of every conclusion about two healthy entries of which the current one is valid. */
  predicate PairReason(b: Entry, c: Entry, templates: map<string, string>, reason: Code) {
    var appears := Positive(c) && !Positive(b) && !Compatible(b, c, templates);
    var same := b.digests == c.digests != {} && b.assessment.outcome == c.assessment.outcome;
    && (reason == NoComparableBaselineSupport <==> appears)
    && (reason == CurrentCheckNotCompleted <==> Unperformed(c))
    && (reason == CurrentCheckUnusable <==> c.assessment.outcome == Inconclusive && !Unperformed(c))
    && (reason == IncompatibleCheckSemantics
        <==> c.assessment.outcome != Inconclusive && !appears && !Compatible(b, c, templates))
    && (reason == BaselineSupportAbsent <==> Positive(c) && b.assessment.outcome == Inconclusive && Compatible(b, c, templates))
    && (reason == BaselineCheckUnusable
        <==> c.assessment.outcome == SupportedNegative && b.assessment.outcome == Inconclusive && Compatible(b, c, templates))
    && (reason == SameCaptureNoNewAcquisition <==> BothSupported(b, c, templates) && same)
    && (reason == CurrentEvidenceNotLater <==> BothSupported(b, c, templates) && !same && !IsLater(b, c))
    && (reason == ComparableNegativeEvidence
        <==> BothSupported(b, c, templates) && IsLater(b, c) && Positive(b) && !Positive(c))
    && (reason == ConditionNowSupported
        <==> BothSupported(b, c, templates) && IsLater(b, c) && !Positive(b) && Positive(c))
    && (reason == SupportedConclusionUnchanged
        <==> BothSupported(b, c, templates) && !same && IsLater(b, c) && (Positive(b) <==> Positive(c)))
  }

  /** The coverage of such a conclusion. */
  predicate PairCoverage(b: Entry, c: Entry, templates: map<string, string>, conclusion: Conclusion) {
    var coverage := conclusion.coverage;
    && (coverage.status == Comparable
        <==> conclusion.state == Unchanged || conclusion.state == Resolved || conclusion.reason == ConditionNowSupported)
    && (coverage.status == Comparable ==> coverage.reason == ExactCheckCovered)
    && (coverage.status == Insufficient <==> Unperformed(c) || conclusion.reason == BaselineSupportAbsent
                                             || conclusion.reason == BaselineCheckUnusable)
    && (c.assessment.outcome == Inconclusive ==> coverage.reason == AssessmentCode(c.assessment.reason))
    && (conclusion.reason == BaselineSupportAbsent || conclusion.reason == BaselineCheckUnusable ==>
          coverage.reason == BaselineCheckInconclusive)
    && (conclusion.reason == NoComparableBaselineSupport ==> coverage == Coverage(Unusable, IncompatibleBaselineSemantics))
    && (conclusion.reason == IncompatibleCheckSemantics ==> coverage == Coverage(Unusable, IncompatibleCheckSemantics))
    && (conclusion.reason == CurrentEvidenceNotLater ==> coverage == Coverage(Unusable, CurrentEvidenceNotLater))
  }

  lemma PairExactly(b: Entry, c: Entry, templates: map<string, string>)
    ensures PairReason(b, c, templates, ConcludeBoth(b, c, templates).reason)
    ensures PairCoverage(b, c, templates, ConcludeBoth(b, c, templates))
  {
    assert IsLater(b, c) ==> b.digests !! c.digests;
    assert b.digests == c.digests != {} ==> !IsLater(b, c);
  }

  /** The reason and coverage of every conclusion, whatever entries there are. */
  lemma ConclusionExactly(address: Option<Address>, b: Option<Entry>, c: Option<Entry>, templates: map<string, string>)
    ensures var x := Conclude(address, b, c, templates);
            && (Sick(b) || Sick(c) ==>
                  && x.state == UnknownState && x.reason == RequiredEvidenceUnavailable && x.coverage.status == Unusable
                  && var why := if Sick(b) then b.value.healthReason else c.value.healthReason;
                     why.Some? ==> x.coverage.reason == HealthCode(why.value))
            && (!Sick(b) && c.None? ==>
                  x == if address.None? then Conclusion(UnknownState, BackendContextUnavailable, Coverage(Unusable, BackendContextUnavailable))
                       else Conclusion(NotObserved, CurrentCheckNotSelected, Coverage(Insufficient, CurrentCheckNotSelected)))
            && (!Sick(b) && c.Some? && !Sick(c) && !c.value.semanticsValid ==>
                  x == Conclusion(UnknownState, IncompatibleCheckSemantics, Coverage(Unusable, IncompatibleCheckSemantics)))
            && (b.None? && c.Some? && UsableEntry(c.value) ==>
                  && x.coverage == Coverage(NotAssessed, BaselineNotAssessed)
                  && x.reason == if Positive(c.value) then NoComparableBaselineSupport else BaselineNotAssessed)
            && (b.Some? && !Sick(b) && c.Some? && UsableEntry(c.value) ==>
                  && PairReason(b.value, c.value, templates, x.reason) && PairCoverage(b.value, c.value, templates, x))
  {
    if b.Some? && c.Some? {
      PairExactly(b.value, c.value, templates);
    }
  }
}

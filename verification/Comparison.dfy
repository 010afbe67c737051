/**
  The decisions of `comparison/compare.py`: how one piece of evidence is read, what an
  entry of a selection records, and the historical state that two entries support.
 */
module Comparison {
  import opened Capture
  import opened Correlation
  import opened Evidence
  import opened FreshContext
  import opened Runs
  import opened Wrappers

  /** The result of verifying an artifact for this comparison. */
  datatype Health = Ready | Lost | Corrupt

  datatype HealthReason =
    | NoEvidenceContext
    | CaptureHealthUnverified
    | EvidenceArtifactUnavailable
    | EvidenceArtifactUnhealthy
    | FreshArtifactUnhealthy
    | FreshHealthUnverified

  /** The place of a reason code in the order in which the comparator sorts them. */
  function Rank(r: HealthReason): nat {
    match r
    case NoEvidenceContext => 0
    case CaptureHealthUnverified => 1
    case EvidenceArtifactUnavailable => 2
    case EvidenceArtifactUnhealthy => 3
    case FreshArtifactUnhealthy => 4
    case FreshHealthUnverified => 5
  }

  /** What a selection's evidence refers to, and how healthy its artifacts were found. */
  datatype Basis =
    | CaptureBasis(correlation: CorrelationResult, captureHealth: Option<map<(Uuid, Digest), Health>>, review: Review)
    | FreshBasis(acquisitions: seq<Acquisition>, acquisitionHealth: Option<map<Uuid, Health>>)

  datatype Window = Window(start: Time, end: Time)

  /** One piece of evidence as the comparator reads it; no digest where no artifact was captured. */
  datatype View = View(
    use: Use, address: Option<Address>, digest: Option<Digest>, healthy: bool, reason: Option<HealthReason>,
    window: Option<Window>, valid: bool, capturedAt: Time)

  // ---------------------------------------------------------------- looking references up

  function SourceOf(sources: seq<RunSource>, runId: Uuid): Option<RunSource> {
    if sources == [] then None
    else
      var last := sources[|sources| - 1];
      if last.runId == runId then Some(last) else SourceOf(sources[..|sources| - 1], runId)
  }

  function AcquisitionOf(acquisitions: seq<Acquisition>, id: Uuid): Option<Acquisition> {
    if acquisitions == [] then None
    else
      var last := acquisitions[|acquisitions| - 1];
      if last.id == id then Some(last) else AcquisitionOf(acquisitions[..|acquisitions| - 1], id)
  }

  /** The reference can be followed; the report validators see to it. */
  predicate Resolves(basis: Basis, use: Use) {
    match basis
    case CaptureBasis(c, _, _) => use.ExistingCapture? && SourceOf(c.sources, use.source.runId).Some?
    case FreshBasis(acquisitions, _) => use.FreshRecheck? && AcquisitionOf(acquisitions, use.acquisition).Some?
  }

  // ---------------------------------------------------------------- stored captures

  /** The observation speaks of the origin's endpoint, from the record that `evidence` points to. */
  predicate Concerns(o: Observation, origin: Origin, evidence: EvidenceRef) {
    o.subject == HttpSubject(origin) && evidence in o.evidence
  }

  function Peers(observations: seq<Observation>, origin: Origin, evidence: EvidenceRef): set<Value> {
    set i | 0 <= i < |observations| && observations[i].key == PeerAddress && Concerns(observations[i], origin, evidence)
      :: Equated(observations[i].value)
  }

  /** The last value that the record gives for a key. */
  function Attempted(observations: seq<Observation>, key: Key, origin: Origin, evidence: EvidenceRef): Option<Value> {
    if observations == [] then None
    else
      var last := observations[|observations| - 1];
      if last.key == key && Concerns(last, origin, evidence) then Some(last.value)
      else Attempted(observations[..|observations| - 1], key, origin, evidence)
  }

  function Approved(target: WebTarget, v: Value): Option<Address> {
    if v.Text? && v.text in target.addresses then Some(v.text) else None
  }

  /** `_capture_address` */
  function CaptureAddress(source: RunSource, evidence: EvidenceRef): Option<Address> {
    match source.webTarget
    case None => None
    case Some(target) =>
      var observations := source.report.observations;
      if evidence.scanner == Httpx then
        var peers := Peers(observations, target.origin, evidence);
        var attempted := Attempted(observations, TargetAddress, target.origin, evidence);
        if exists a :: a in target.addresses && peers == {Text(a)} then
          var a :| a in target.addresses && peers == {Text(a)};
          OneAddress(target.addresses, peers);
          Some(a)
        else if peers == {} && attempted.Some?
                && Attempted(observations, ProbeSucceeded, target.origin, evidence) == Some(Flag(false)) then
          Approved(target, attempted.value)
        else None
      else if evidence.scanner == Nuclei && source.kind == Scan && |target.addresses| == 1 then
        Some(target.addresses[0])
      else None
  }

  lemma OneAddress(addresses: seq<Address>, peers: set<Value>)
    ensures forall a, b | a in addresses && b in addresses && peers == {Text(a)} && peers == {Text(b)} :: a == b
  {
    forall a, b | a in addresses && b in addresses && peers == {Text(a)} && peers == {Text(b)}
      ensures a == b
    {
      assert Text(a) in peers;
    }
  }

  /** `_evidence_health` */
  function EvidenceHealth(source: RunSource, evidence: EvidenceRef, health: Option<map<(Uuid, Digest), Health>>)
    : Option<HealthReason>
  {
    if !exists i :: 0 <= i < |source.artifacts| && source.artifacts[i] == StoredArtifact(Stdout, evidence.artifact) then
      Some(EvidenceArtifactUnavailable)
    else if health.None? || (source.runId, evidence.artifact) !in health.value then Some(CaptureHealthUnverified)
    else if health.value[(source.runId, evidence.artifact)] != Ready then Some(EvidenceArtifactUnhealthy)
    else None
  }

  /** A use up to the order of facts with different keys, and Python's equality of their values. */
  datatype Normal = Normal(source: SourceRef, evidence: EvidenceRef, values: map<Key, seq<Value>>)

  function ValuesUnder(facts: seq<Fact>, key: Key): seq<Value> {
    if facts == [] then []
    else
      var last := facts[|facts| - 1];
      ValuesUnder(facts[..|facts| - 1], key) + (if last.key == key then [Equated(last.value)] else [])
  }

  function Normalised(use: Use): Option<Normal> {
    match use
    case ExistingCapture(source, evidence, facts) =>
      var keys := set i | 0 <= i < |facts| :: facts[i].key;
      Some(Normal(source, evidence, map k | k in keys :: ValuesUnder(facts, k)))
    case FreshRecheck(_, _) => None
  }

  function NormalUses(a: Assessment): set<Option<Normal>> {
    set i | 0 <= i < |a.uses| :: Normalised(a.uses[i])
  }

  function PrerequisiteSet(a: Assessment): set<Prerequisite> {
    set i | 0 <= i < |a.prerequisites| :: a.prerequisites[i]
  }

  /** `_same_assessment_evidence` */
  predicate SameAssessmentEvidence(a: Assessment, expected: Option<Assessment>) {
    && expected.Some?
    && a.outcome == expected.value.outcome && a.reason == expected.value.reason
    && NormalUses(a) == NormalUses(expected.value)
    && PrerequisiteSet(a) == PrerequisiteSet(expected.value)
  }

  function RunWindow(s: RunSource): Option<Window> {
    if s.finishedAt.Some? && s.createdAt <= s.finishedAt.value then Some(Window(s.createdAt, s.finishedAt.value))
    else None
  }

  /** A scan whose output an imported artifact repeats. */
  predicate OriginalOf(original: RunSource, imported: RunSource, evidence: EvidenceRef) {
    && original.kind == Scan && original.webTarget == imported.webTarget
    && original.report.evidence.scanner == evidence.scanner
    && original.report.evidence.artifact == evidence.artifact
  }

  function Originals(sources: seq<RunSource>, imported: RunSource, evidence: EvidenceRef): seq<RunSource> {
    if sources == [] then []
    else
      var n := |sources| - 1;
      Originals(sources[..n], imported, evidence)
      + (if OriginalOf(sources[n], imported, evidence) then [sources[n]] else [])
  }

  /** The earliest start and latest end of some windows, all of which must be known. */
  function Span(windows: seq<Option<Window>>): Option<Window> {
    if windows == [] || windows[|windows| - 1].None? then None
    else
      var last, rest := windows[|windows| - 1].value, windows[..|windows| - 1];
      if rest == [] then Some(last)
      else
        match Span(rest)
        case None => None
        case Some(w) =>
          Some(Window(if last.start < w.start then last.start else w.start, if last.end > w.end then last.end else w.end))
  }

  /** The one address that all the original scans were bound to, if there is one. */
  function OriginalAddress(originals: seq<RunSource>, evidence: EvidenceRef): Option<Address> {
    if originals != [] && forall i | 0 <= i < |originals| ::
         CaptureAddress(originals[i], evidence) == CaptureAddress(originals[0], evidence)
    then CaptureAddress(originals[0], evidence)
    else None
  }

  // ---------------------------------------------------------------- reading one piece of evidence

  function RuleResource(rule: RuleId): Option<Resource> {
    match rule
    case DirectoryListing => Some(ROOT)
    case GitConfigExposure => Some(GIT_CONFIG)
    case HstsMissing => Some(ROOT)
    case _ => None
  }

  predicate KnownRule(claim: Claim) {
    claim.version == "1" && RuleResource(claim.rule) == Some(claim.resource)
  }

  function CaptureView(basis: Basis, a: Assessment, use: Use): View
    requires basis.CaptureBasis? && Resolves(basis, use)
  {
    var sources := basis.correlation.sources;
    var source, evidence := SourceOf(sources, use.source.runId).value, use.evidence;
    var failure := EvidenceHealth(source, evidence, basis.captureHealth);
    var valid := KnownRule(a.claim)
                 && SameAssessmentEvidence(a, Expected(basis.correlation, a.id, basis.review));
    var originals := if source.kind == Import then Originals(sources, source, evidence) else [];
    var original := OriginalAddress(originals, evidence);
    View(
      use,
      if original.Some? then original else CaptureAddress(source, evidence),
      Some(evidence.artifact), failure.None?, failure,
      if source.kind == Scan then RunWindow(source)
      else if original.Some? then Span(seq(|originals|, i requires 0 <= i < |originals| => RunWindow(originals[i])))
      else None,
      valid, evidence.capturedAt)
  }

  function FreshView(basis: Basis, a: Assessment, use: Use): View
    requires basis.FreshBasis? && Resolves(basis, use)
  {
    var q := AcquisitionOf(basis.acquisitions, use.acquisition).value;
    var health := basis.acquisitionHealth;
    var failure :=
      if q.evidence.None? then None
      else if health.None? || q.id !in health.value then Some(FreshHealthUnverified)
      else if health.value[q.id] != Ready then Some(FreshArtifactUnhealthy)
      else None;
    View(
      use, Some(q.address),
      match q.evidence case Some(e) => Some(e.sha) case None => None,
      failure.None?, failure,
      if q.finishedAt.Some? && q.startedAt <= q.finishedAt.value then Some(Window(q.startedAt, q.finishedAt.value))
      else None,
      KnownRule(a.claim) && FreshContextValid(a, q, use), q.startedAt)
  }

  function ViewOf(basis: Basis, a: Assessment, use: Use): View
    requires Resolves(basis, use)
  {
    match basis
    case CaptureBasis(_, _, _) => CaptureView(basis, a, use)
    case FreshBasis(_, _) => FreshView(basis, a, use)
  }

  // ---------------------------------------------------------------- entries and states

  datatype ContextKey = ContextKey(rule: RuleId, origin: Origin, resource: Resource, address: Option<Address>)

  datatype Entry = Entry(
    assessment: Assessment, address: Option<Address>, evidence: seq<Use>, observedAt: set<Time>,
    healthy: bool, healthReason: Option<HealthReason>, semanticsValid: bool,
    startedAt: Option<Time>, finishedAt: Option<Time>, digests: set<Digest>)

  datatype State = New | Unchanged | Resolved | NotObserved | UnknownState

  datatype CoverageStatus = Comparable | Insufficient | Unusable | NotAssessed

  /** The reason codes of states and coverage decisions. */
  datatype Code =
    | HealthCode(reason: HealthReason)
    | AssessmentCode(why: Reason)
    | RequiredEvidenceUnavailable
    | BackendContextUnavailable
    | CurrentCheckNotSelected
    | IncompatibleCheckSemantics
    | NoComparableBaselineSupport
    | BaselineNotAssessed
    | IncompatibleBaselineSemantics
    | CurrentCheckNotCompleted
    | CurrentCheckUnusable
    | BaselineSupportAbsent
    | BaselineCheckUnusable
    | BaselineCheckInconclusive
    | SameCaptureNoNewAcquisition
    | CurrentEvidenceNotLater
    | ComparableNegativeEvidence
    | ConditionNowSupported
    | SupportedConclusionUnchanged
    | ExactCheckCovered

  datatype Coverage = Coverage(status: CoverageStatus, reason: Code)

  datatype Conclusion = Conclusion(state: State, reason: Code, coverage: Coverage)

  /** The template revisions that an entry's evidence names. */
  function TemplateRevisions(e: Entry): set<Value> {
    set i, j | 0 <= i < |e.evidence| && 0 <= j < |e.evidence[i].facts| && e.evidence[i].facts[j].key == TemplateRevision
      :: e.evidence[i].facts[j].value
  }

  /** The digest of the reviewed template of an exposure rule. */
  function ReviewedRevision(rule: RuleId, templates: map<string, string>): Option<string> {
    match TemplateOf(rule)
    case None => None
    case Some((templateId, _)) =>
      if !rule.UnreviewedNuclei? && templateId in templates then Some(templates[templateId]) else None
  }

  predicate RevisionsReviewed(b: Entry, c: Entry, templates: map<string, string>) {
    var revisions := TemplateRevisions(b) + TemplateRevisions(c);
    var expected := ReviewedRevision(b.assessment.claim.rule, templates);
    revisions == {} || (expected.Some? && revisions == {Text(expected.value)})
  }

  /** `_compatible` */
  predicate Compatible(b: Entry, c: Entry, templates: map<string, string>) {
    && b.semanticsValid && c.semanticsValid
    && b.assessment.claim == c.assessment.claim
    && b.address.Some? && b.address == c.address
    && RevisionsReviewed(b, c, templates)
  }

  /** `_is_later` */
  predicate IsLater(b: Entry, c: Entry) {
    && b.finishedAt.Some? && c.startedAt.Some?
    && c.startedAt.value > b.finishedAt.value
    && b.digests !! c.digests
  }

  function HealthCoverage(e: Entry): Coverage {
    Coverage(
      Unusable,
      match e.healthReason case Some(r) => HealthCode(r) case None => RequiredEvidenceUnavailable)
  }

  function Positive(e: Entry): bool {
    e.assessment.outcome == SupportedPositive
  }

  /** Both entries compatible and supported. */
  function ConcludeComparable(b: Entry, c: Entry): Conclusion {
    var before, after := b.assessment.outcome, c.assessment.outcome;
    var covered := Coverage(Comparable, ExactCheckCovered);
    if b.digests != {} && b.digests == c.digests && before == after then
      Conclusion(Unchanged, SameCaptureNoNewAcquisition, covered)
    else if !IsLater(b, c) then
      Conclusion(UnknownState, CurrentEvidenceNotLater, Coverage(Unusable, CurrentEvidenceNotLater))
    else if before == SupportedPositive && after == SupportedNegative then
      Conclusion(Resolved, ComparableNegativeEvidence, covered)
    else if before == SupportedNegative && after == SupportedPositive then
      Conclusion(New, ConditionNowSupported, covered)
    else Conclusion(Unchanged, SupportedConclusionUnchanged, covered)
  }

  /** Both entries healthy, the current one valid. */
  function ConcludeBoth(b: Entry, c: Entry, templates: map<string, string>): Conclusion {
    if Positive(c) && !Positive(b) && !Compatible(b, c, templates) then
      Conclusion(New, NoComparableBaselineSupport, Coverage(Unusable, IncompatibleBaselineSemantics))
    else if c.assessment.outcome == Inconclusive then
      if c.assessment.reason == CheckNotRun || c.assessment.reason == NoSupportedNegativeEvidence then
        Conclusion(NotObserved, CurrentCheckNotCompleted, Coverage(Insufficient, AssessmentCode(c.assessment.reason)))
      else
        Conclusion(UnknownState, CurrentCheckUnusable, Coverage(Unusable, AssessmentCode(c.assessment.reason)))
    else if !Compatible(b, c, templates) then
      Conclusion(UnknownState, IncompatibleCheckSemantics, Coverage(Unusable, IncompatibleCheckSemantics))
    else if b.assessment.outcome == Inconclusive then
      if Positive(c) then
        Conclusion(New, BaselineSupportAbsent, Coverage(Insufficient, BaselineCheckInconclusive))
      else
        Conclusion(UnknownState, BaselineCheckUnusable, Coverage(Insufficient, BaselineCheckInconclusive))
    else ConcludeComparable(b, c)
  }

  /** `_result`: the historical state of one context. */
  function Conclude(
    address: Option<Address>, baseline: Option<Entry>, current: Option<Entry>, templates: map<string, string>): Conclusion
  {
    if baseline.Some? && !baseline.value.healthy then
      Conclusion(UnknownState, RequiredEvidenceUnavailable, HealthCoverage(baseline.value))
    else if current.None? then
      if address.None? then
        Conclusion(UnknownState, BackendContextUnavailable, Coverage(Unusable, BackendContextUnavailable))
      else
        Conclusion(NotObserved, CurrentCheckNotSelected, Coverage(Insufficient, CurrentCheckNotSelected))
    else if !current.value.healthy then
      Conclusion(UnknownState, RequiredEvidenceUnavailable, HealthCoverage(current.value))
    else if !current.value.semanticsValid then
      Conclusion(UnknownState, IncompatibleCheckSemantics, Coverage(Unusable, IncompatibleCheckSemantics))
    else if baseline.None? then
      if Positive(current.value) then
        Conclusion(New, NoComparableBaselineSupport, Coverage(NotAssessed, BaselineNotAssessed))
      else
        Conclusion(UnknownState, BaselineNotAssessed, Coverage(NotAssessed, BaselineNotAssessed))
    else ConcludeBoth(baseline.value, current.value, templates)
  }
}

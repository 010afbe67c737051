/**
  `assessment.capture.assess_correlation`: assessments drawn from stored scanner evidence.
  Nuclei matches can support an exposure but never its absence; httpx observations can
  support the presence of an HSTS header but never its absence.
 */
module Capture {
  import opened Correlation
  import opened Evidence
  import opened Facts
  import opened Rules
  import opened Runs
  import opened Wrappers

  /** The reviewed templates' digests by template identifier, and the access-page test on a title. */
  datatype Review = Review(templates: map<string, string>, blockedTitle: Value -> bool)

  // ---------------------------------------------------------------- stored Nuclei matches

  function ReviewedRule(templateId: string, matcher: string): Option<RuleId> {
    if templateId == "scopelens-directory-listing" && matcher == "listing" then Some(DirectoryListing)
    else if templateId == "scopelens-exposed-git-config" && matcher == "git-config" then Some(GitConfigExposure)
    else None
  }

  /** The template and matcher behind a reviewed exposure rule. */
  function TemplateOf(rule: RuleId): Option<(string, string)> {
    match rule
    case DirectoryListing => Some(("scopelens-directory-listing", "listing"))
    case GitConfigExposure => Some(("scopelens-exposed-git-config", "git-config"))
    case UnreviewedNuclei(templateId, matcher) =>
      if ReviewedRule(templateId, matcher).None? then Some((templateId, matcher)) else None
    case _ => None
  }

  function FindingRule(f: FindingIdentity): RuleId {
    match ReviewedRule(f.templateId, f.matcher)
    case Some(rule) => rule
    case None => UnreviewedNuclei(f.templateId, f.matcher)
  }

  /** The claim a finding is about: its rule, at the resource that matched. */
  function FindingClaim(f: FindingIdentity): Claim {
    Claim(FindingRule(f), RULE_VERSION, f.origin, f.resource)
  }

  /** The finding matched at the resource its reviewed rule defines. */
  predicate CorrectResource(f: FindingIdentity) {
    match ExposureClaim(FindingRule(f), f.origin)
    case Some(claim) => f.resource == claim.resource
    case None => false
  }

  function MatchUses(ref: SourceRef, x: ScannerMatch): seq<Use> {
    seq(|x.evidence|, i requires 0 <= i < |x.evidence| => ExistingCapture(ref, x.evidence[i], [
      Fact(TemplateId, Text(x.templateId)), Fact(MatcherKey, Text(x.matcher)),
      Fact(TemplateRevision, Text(x.templateRevision)), Fact(MatchedLocation, Text(x.location))]))
  }

  /** An occurrence that bears out the reviewed template. */
  predicate ReviewedMatch(x: ScannerMatch, revision: string) {
    x.templateRevision == revision && forall i | 0 <= i < |x.evidence| :: x.evidence[i].scanner == Nuclei
  }

  /** One match of one run. */
  datatype Occurrence = Occurrence(ref: SourceRef, hit: ScannerMatch)

  /** The occurrences of a finding among the first `n` matches of a run. */
  function RunOccurrences(s: RunSource, n: nat, refs: set<SourceRef>): seq<Occurrence>
    requires n <= |s.report.matches|
  {
    if n == 0 then []
    else
      var ref := MatchRef(s.runId, n - 1);
      RunOccurrences(s, n - 1, refs) + (if ref in refs then [Occurrence(ref, s.report.matches[n - 1])] else [])
  }

  function Occurrences(sources: seq<RunSource>, n: nat, refs: set<SourceRef>): seq<Occurrence>
    requires n <= |sources|
  {
    if n == 0 then []
    else Occurrences(sources, n - 1, refs) + RunOccurrences(sources[n - 1], |sources[n - 1].report.matches|, refs)
  }

  function UsesOf(occurrences: seq<Occurrence>, n: nat): seq<Use>
    requires n <= |occurrences|
  {
    if n == 0 then []
    else UsesOf(occurrences, n - 1) + MatchUses(occurrences[n - 1].ref, occurrences[n - 1].hit)
  }

  /** The references grouped under a finding. */
  function FindingRefs(c: CorrelationResult, f: FindingIdentity): set<SourceRef> {
    if Finding(f) in c.groups then c.groups[Finding(f)] else {}
  }

  function FindingOccurrences(c: CorrelationResult, f: FindingIdentity): seq<Occurrence> {
    Occurrences(c.sources, |c.sources|, FindingRefs(c, f))
  }

  /** The first `n` occurrences all bear out the reviewed template, at the reviewed resource. */
  predicate Reviewed(f: FindingIdentity, occurrences: seq<Occurrence>, n: nat, review: Review)
    requires n <= |occurrences|
  {
    && CorrectResource(f) && f.templateId in review.templates
    && forall i | 0 <= i < n :: ReviewedMatch(occurrences[i].hit, review.templates[f.templateId])
  }

  function FindingResult(project: string, f: FindingIdentity, reviewed: bool, uses: seq<Use>): Assessment {
    Assessment(
      AssessmentId(project, FindingClaim(f)), FindingClaim(f),
      [Required(ReviewedTemplate, reviewed), Prerequisite(PositiveMatchEvidence, Met)],
      if reviewed then SupportedPositive else Inconclusive,
      if reviewed then ReviewedScannerMatch else UnreviewedMatchContext,
      uses)
  }

  function FindingAssessment(c: CorrelationResult, f: FindingIdentity, review: Review): Assessment {
    var occurrences := FindingOccurrences(c, f);
    var uses := UsesOf(occurrences, |occurrences|);
    FindingResult(c.project, f, Reviewed(f, occurrences, |occurrences|, review) && uses != [], uses)
  }

  function FindingsOf(c: CorrelationResult): set<FindingIdentity> {
    set m | m in c.groups && m.Finding? :: m.finding
  }

  // ---------------------------------------------------------------- Nuclei runs without a match

  predicate NucleiRun(s: RunSource, origin: Origin) {
    s.report.evidence.scanner == Nuclei && s.webTarget.Some? && s.webTarget.value.origin == origin
  }

  /** The runs, among the first `n`, in which Nuclei looked at an origin. */
  function NucleiRuns(sources: seq<RunSource>, n: nat, origin: Origin): seq<RunSource>
    requires n <= |sources|
  {
    if n == 0 then []
    else NucleiRuns(sources, n - 1, origin) + (if NucleiRun(sources[n - 1], origin) then [sources[n - 1]] else [])
  }

  function MissingUses(runs: seq<RunSource>): seq<Use> {
    seq(|runs|, i requires 0 <= i < |runs| => ExistingCapture(
      ContextRef(runs[i].runId), runs[i].report.evidence, [Fact(MatchCount, Whole(|runs[i].report.matches|))]))
  }

  function MissingAssessment(c: CorrelationResult, claim: Claim): Assessment {
    Assessment(
      AssessmentId(c.project, claim), claim,
      [Prerequisite(ReviewedTemplate, Met), Prerequisite(CompleteNegativeEvidence, Unknown)],
      Inconclusive, NoSupportedNegativeEvidence,
      MissingUses(NucleiRuns(c.sources, |c.sources|, claim.origin)))
  }

  /** A finding at the reviewed resource already speaks for this origin and rule. */
  predicate Assessed(c: CorrelationResult, origin: Origin, rule: RuleId) {
    exists f :: f in FindingsOf(c) && CorrectResource(f) && f.origin == origin && FindingRule(f) == rule
  }

  // ---------------------------------------------------------------- stored httpx observations

  const HSTS_KEYS: set<Key> :=
    {ProbeSucceeded, StatusCode, LocationKey, HeaderLocation, HeaderWwwAuthenticate, TitleKey, HeaderStrictTransportSecurity}

  /** One piece of header evidence about an origin. */
  datatype Sighting = Sighting(origin: Origin, use: Use)

  predicate Sights(o: Observation) {
    o.subject.HttpSubject? && o.key in HSTS_KEYS
  }

  function ObservationSightings(s: RunSource, ordinal: nat): seq<Sighting>
    requires ordinal < |s.report.observations|
  {
    var o := s.report.observations[ordinal];
    if !Sights(o) then []
    else
      seq(|o.evidence|, i requires 0 <= i < |o.evidence| => Sighting(
        o.subject.origin,
        ExistingCapture(ObservationRef(s.runId, ordinal), o.evidence[i], [Fact(o.key, o.value)])))
  }

  function RunSightings(s: RunSource, n: nat): seq<Sighting>
    requires n <= |s.report.observations|
  {
    if n == 0 then [] else RunSightings(s, n - 1) + ObservationSightings(s, n - 1)
  }

  function Sightings(sources: seq<RunSource>, n: nat): seq<Sighting>
    requires n <= |sources|
  {
    if n == 0 then []
    else
      var s := sources[n - 1];
      Sightings(sources, n - 1)
      + (if s.report.evidence.scanner == Httpx then RunSightings(s, |s.report.observations|) else [])
  }

  function AllSightings(c: CorrelationResult): seq<Sighting> {
    Sightings(c.sources, |c.sources|)
  }

  /** `by_origin[origin]` */
  function UsesFor(sightings: seq<Sighting>, origin: Origin): seq<Use> {
    if sightings == [] then []
    else
      var n := |sightings| - 1;
      UsesFor(sightings[..n], origin) + (if sightings[n].origin == origin then [sightings[n].use] else [])
  }

  /** One response record: a run, an origin, and the scanner record the evidence points to. */
  datatype RecordKey = RecordKey(runId: Uuid, origin: Origin, evidence: EvidenceRef)

  function RecordOf(s: Sighting): Option<RecordKey> {
    match s.use
    case ExistingCapture(source, evidence, _) => Some(RecordKey(source.runId, s.origin, evidence))
    case FreshRecheck(_, _) => None
  }

  /** `records[key]`, reduced to the facts it is read for. */
  function RecordFacts(sightings: seq<Sighting>, key: RecordKey): seq<Fact> {
    if sightings == [] then []
    else
      var n := |sightings| - 1;
      RecordFacts(sightings[..n], key) + (if RecordOf(sightings[n]) == Some(key) then sightings[n].use.facts else [])
  }

  /** A response record that shows the header in a usable, unblocked, unredirected response. */
  predicate Qualifies(facts: seq<Fact>, review: Review) {
    var title := match Lookup(facts, TitleKey) case Some(v) => v case None => Text("");
    && DistinctKeys(facts)
    && !review.blockedTitle(title)
    && Lookup(facts, HeaderWwwAuthenticate).None?
    && Lookup(facts, HeaderLocation).None?
    && Is(facts, ProbeSucceeded, true)
    && Equals(facts, StatusCode, Whole(200))
    && Lookup(facts, LocationKey).None?
    && Lookup(facts, HeaderStrictTransportSecurity).Some?
  }

  function RecordsFor(sightings: seq<Sighting>, origin: Origin): set<RecordKey> {
    set i | 0 <= i < |sightings| && sightings[i].origin == origin && RecordOf(sightings[i]).Some?
      :: RecordOf(sightings[i]).value
  }

  predicate AllQualify(sightings: seq<Sighting>, origin: Origin, review: Review) {
    && RecordsFor(sightings, origin) != {}
    && forall key | key in RecordsFor(sightings, origin) :: Qualifies(RecordFacts(sightings, key), review)
  }

  function HstsResult(project: string, origin: Origin, qualified: bool, uses: seq<Use>): Assessment {
    var claim := HstsClaim(origin);
    var applicable := origin.https && !origin.literalAddress;
    Assessment(
      AssessmentId(project, claim), claim,
      [ Required(HttpsOrigin, origin.https), Required(HostnameOrigin, !origin.literalAddress),
        Prerequisite(CompleteHeaders, Unknown)],
      if applicable && qualified then SupportedNegative else Inconclusive,
      if !applicable then HstsNotApplicable else if qualified then HstsHeaderObserved else HeaderCaptureIncomplete,
      uses)
  }

  function HstsAssessment(c: CorrelationResult, origin: Origin, review: Review): Assessment {
    HstsResult(
      c.project, origin, AllQualify(AllSightings(c), origin, review), UsesFor(AllSightings(c), origin))
  }

  // ---------------------------------------------------------------- the assessment under an identity

  /** The finding that an identity can belong to. */
  function FindingUnder(c: CorrelationResult, claim: Claim): Option<FindingIdentity> {
    match TemplateOf(claim.rule)
    case None => None
    case Some((templateId, matcher)) =>
      var f := FindingIdentity(c.project, claim.origin, claim.resource, templateId, matcher);
      if f in FindingsOf(c) then Some(f) else None
  }

  /** A Nuclei run looked for the claim, and no finding at its resource speaks for it. */
  predicate Missing(c: CorrelationResult, claim: Claim) {
    && ExposureClaim(claim.rule, claim.origin) == Some(claim)
    && NucleiRuns(c.sources, |c.sources|, claim.origin) != []
    && !Assessed(c, claim.origin, claim.rule)
  }

  /** The one assessment a correlation yields under an identity, if any. */
  function Expected(c: CorrelationResult, id: AssessmentId, review: Review): Option<Assessment> {
    var claim := id.claim;
    if id.project != c.project || claim.version != RULE_VERSION then None
    else if FindingUnder(c, claim).Some? then Some(FindingAssessment(c, FindingUnder(c, claim).value, review))
    else if Missing(c, claim) then Some(MissingAssessment(c, claim))
    else if claim == HstsClaim(claim.origin) && UsesFor(AllSightings(c), claim.origin) != [] then
      Some(HstsAssessment(c, claim.origin, review))
    else None
  }
}

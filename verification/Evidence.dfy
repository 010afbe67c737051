/** The frozen records that acquisitions, assessments and comparisons exchange. */
module Evidence {
  import opened Bytes
  import opened Wrappers

  type Uuid = nat
  type Time = int

  /** SHA-256, taken to be injective: a digest is known by the content it was made from. */
  datatype Digest = Sha256(content: seq<Byte>)

  /** An HTTP(S) origin, with what `urlsplit` and `IPv4Address` read off its text. */
  datatype Origin = Origin(text: string, https: bool, literalAddress: bool, port: nat)

  type Address = string
  type Resource = string

  const ROOT: Resource := "/"
  const GIT_CONFIG: Resource := "/.git/config"

  datatype Scanner = Nmap | Httpx | Nuclei

  // ---------------------------------------------------------------- claims and outcomes

  datatype RuleId =
    | DirectoryListing
    | GitConfigExposure
    | HstsMissing
    | UnreviewedNuclei(templateId: string, matcher: string)
    | OtherRule(text: string)

  const RULE_VERSION := "1"

  datatype Claim = Claim(rule: RuleId, version: string, origin: Origin, resource: Resource)

  /** `assessment_id`: a digest of exactly these five values. */
  datatype AssessmentId = AssessmentId(project: string, claim: Claim)

  datatype PrerequisiteId =
    | AuthorizedTarget
    | IntendedResource
    | CompleteResponse
    | HttpsOrigin
    | HostnameOrigin
    | CompleteHeaders
    | UsableResponse
    | ReviewedTemplate
    | PositiveMatchEvidence
    | CompleteNegativeEvidence
    | OtherPrerequisite(text: string)

  datatype PrerequisiteState = Met | NotMet | Unknown

  datatype Prerequisite = Prerequisite(id: PrerequisiteId, state: PrerequisiteState)

  datatype Outcome = SupportedPositive | SupportedNegative | Inconclusive

  datatype Reason =
    | WrongResource
    | RecheckTimedOut
    | TransportFailed
    | RecheckCancelled
    | ResponseMalformed
    | ResponseTruncated
    | CheckNotRun
    | ResponseUnusable
    | RedirectPreventedEvaluation
    | ResponseBlockedOrAmbiguous
    | ResponseStatusAmbiguous
    | UnsupportedContentEncoding
    | ReviewedMarkersPresent
    | ReviewedConditionAbsent
    | HstsNotApplicable
    | HstsHeaderAbsent
    | HstsHeaderPresent
    | HstsHeaderObserved
    | HeaderCaptureIncomplete
    | ReviewedScannerMatch
    | UnreviewedMatchContext
    | NoSupportedNegativeEvidence
    | OtherReason(text: string)

  // ---------------------------------------------------------------- facts and references

  /** Observation and fact keys; the ones no rule reads are kept by their text. */
  datatype Key =
    | AcquisitionStatusKey
    | StatusCode
    | BodyShaKey
    | BodyCompleteKey
    | HeadersCompleteKey
    | HstsPresentKey
    | MarkersPresent
    | TemplateId
    | MatcherKey
    | TemplateRevision
    | MatchedLocation
    | MatchCount
    | ProbeSucceeded
    | LocationKey
    | HeaderLocation
    | HeaderWwwAuthenticate
    | TitleKey
    | HeaderStrictTransportSecurity
    | TargetAddress
    | PeerAddress
    | OtherKey(text: string)

  datatype Value =
    | Text(text: string)
    | DigestText(digest: Digest)
    | StatusText(status: AcquisitionStatus)
    | Flag(flag: bool)
    | Whole(number: int)
    | Fraction(fraction: real)

  /** The number a value equals in Python, where `True == 1 == 1.0`. */
  function AsNumber(v: Value): Option<real> {
    match v
    case Flag(b) => Some(if b then 1.0 else 0.0)
    case Whole(n) => Some(n as real)
    case Fraction(r) => Some(r)
    case _ => None
  }

  /** A value up to Python's `==`. */
  function Equated(v: Value): Value {
    match AsNumber(v)
    case Some(r) => Fraction(r)
    case None => v
  }

  datatype Fact = Fact(key: Key, value: Value)

  datatype EvidenceRef = EvidenceRef(
    artifact: Digest, locator: string, scanner: Scanner, capturedAt: Time, provenance: string)

  /** One occurrence in one run: its configured context, an observation, or a match. */
  datatype SourceRef =
    | ContextRef(runId: Uuid)
    | ObservationRef(runId: Uuid, ordinal: nat)
    | MatchRef(runId: Uuid, ordinal: nat)

  datatype Use =
    | ExistingCapture(source: SourceRef, evidence: EvidenceRef, facts: seq<Fact>)
    | FreshRecheck(acquisition: Uuid, facts: seq<Fact>)

  datatype Assessment = Assessment(
    id: AssessmentId, claim: Claim, prerequisites: seq<Prerequisite>,
    outcome: Outcome, reason: Reason, uses: seq<Use>)

  /** `supported_results_have_evidence` */
  predicate ValidAssessment(a: Assessment) {
    && a.prerequisites != []
    && (a.outcome != Inconclusive ==> a.uses != [])
    && forall i | 0 <= i < |a.uses| :: a.uses[i].facts != []
  }

  // ---------------------------------------------------------------- acquisitions

  datatype AcquisitionStatus = Completed | Timeout | TransportError | Cancelled | MalformedReply | Truncated | NotRun

  /** What the reader kept of a response; the body itself is kept as an artifact. */
  datatype CapturedResponse = CapturedResponse(
    status: nat,
    headersComplete: bool,
    bodyComplete: bool,
    bodySha: Digest,
    hstsPresent: bool,
    challengePresent: bool,
    identityEncoding: bool)

  const MAX_ARTIFACT_BYTES: nat := 8 * 1024 * 1024

  datatype Artifact = Artifact(path: string, sha: Digest, size: nat)

  datatype Acquisition = Acquisition(
    id: Uuid, startedAt: Time, finishedAt: Option<Time>,
    origin: Origin, address: Address, resource: Resource,
    status: AcquisitionStatus, evidence: Option<Artifact>, response: Option<CapturedResponse>)

  /** The field bounds and `RecheckAcquisition.consistent_result`. */
  predicate ValidAcquisition(a: Acquisition) {
    && (a.finishedAt.Some? ==> a.startedAt <= a.finishedAt.value)
    && (a.evidence.Some? ==> a.evidence.value.size <= MAX_ARTIFACT_BYTES)
    && (a.response.Some? ==> 100 <= a.response.value.status <= 599)
    && (a.status.Completed? ==>
          && a.response.Some? && a.evidence.Some?
          && a.response.value.headersComplete && a.response.value.bodyComplete)
    && (a.response.Some? ==> a.status.Completed? || a.status.Truncated?)
    && (a.response.Some? ==> a.evidence.Some?)
  }

  /** An acquisition together with the body bytes it captured. */
  datatype Exchange = Exchange(acquisition: Acquisition, body: seq<Byte>)

  /** `CapturedExchange.__post_init__`, for a valid acquisition. */
  predicate ValidExchange(x: Exchange) {
    && ValidAcquisition(x.acquisition)
    && match x.acquisition.response
       case None => x.body == []
       case Some(r) => r.bodySha == Sha256(x.body)
  }
}

/** The deterministic assessors of `assessment/rules.py`. */
module Rules {
  import opened Bytes
  import opened Evidence
  import opened Wrappers

  predicate Contains(body: seq<Byte>, pattern: seq<Byte>) {
    Find(body, pattern, 0).Some?
  }

  /** The claim an exposure rule makes about an origin; only two rules make one. */
  function ExposureClaim(rule: RuleId, origin: Origin): Option<Claim> {
    match rule
    case DirectoryListing => Some(Claim(rule, RULE_VERSION, origin, ROOT))
    case GitConfigExposure => Some(Claim(rule, RULE_VERSION, origin, GIT_CONFIG))
    case _ => None
  }

  function HstsClaim(origin: Origin): Claim {
    Claim(HstsMissing, RULE_VERSION, origin, ROOT)
  }

  function Required(id: PrerequisiteId, met: bool): Prerequisite {
    Prerequisite(id, if met then Met else NotMet)
  }

  function FailureReason(a: Acquisition): Reason {
    match a.status
    case Timeout => RecheckTimedOut
    case TransportError => TransportFailed
    case Cancelled => RecheckCancelled
    case MalformedReply => ResponseMalformed
    case Truncated => ResponseTruncated
    case NotRun => CheckNotRun
    case Completed => ResponseUnusable
  }

  function FreshUse(a: Acquisition, facts: seq<Fact>): seq<Use> {
    [FreshRecheck(a.id, facts)]
  }

  function StatusFact(a: Acquisition): Fact {
    Fact(AcquisitionStatusKey, StatusText(a.status))
  }

  function ResponseFacts(r: CapturedResponse): seq<Fact> {
    [Fact(StatusCode, Whole(r.status)), Fact(BodyShaKey, DigestText(r.bodySha)), Fact(BodyCompleteKey, Flag(r.bodyComplete))]
  }

  /** The reviewed body markers of an exposure rule. */
  predicate Markers(rule: RuleId, body: seq<Byte>) {
    || (&& rule == DirectoryListing
        && (Contains(body, Ascii("<title>Directory listing for /")) || Contains(body, Ascii("<title>Index of /")))
        && Contains(body, Ascii("href=")))
    || (&& rule == GitConfigExposure
        && Contains(body, Ascii("[core]")) && Contains(body, Ascii("repositoryformatversion")))
  }

  /** The status and markers under which an exposure is supported. */
  predicate Exposed(rule: RuleId, r: CapturedResponse, body: seq<Byte>) {
    r.status == 200 && Markers(rule, body)
  }

  predicate BlockedStatus(status: nat) {
    status == 401 || status == 403 || status == 407 || status == 429 || status >= 500
  }

  /**
    Why a complete response cannot be evaluated, in the order the assessor asks;
    `accessPage` stands for the access-page expressions.
   */
  function ExposureObstacle(r: CapturedResponse, body: seq<Byte>, accessPage: seq<Byte> -> bool): Option<Reason> {
    if 300 <= r.status < 400 then Some(RedirectPreventedEvaluation)
    else if r.challengePresent || accessPage(body) || BlockedStatus(r.status) then Some(ResponseBlockedOrAmbiguous)
    else if r.status != 200 && r.status != 404 && r.status != 410 then Some(ResponseStatusAmbiguous)
    else if !r.identityEncoding then Some(UnsupportedContentEncoding)
    else None
  }

  predicate CompleteReply(a: Acquisition) {
    && a.status.Completed? && a.response.Some?
    && a.response.value.headersComplete && a.response.value.bodyComplete
  }

  function AssessExposureClaim(
    project: string, claim: Claim, x: Exchange, accessPage: seq<Byte> -> bool): Assessment
  {
    var a := x.acquisition;
    var id := AssessmentId(project, claim);
    var correct := a.resource == claim.resource;
    var prerequisites := [
      Required(AuthorizedTarget, true), Required(IntendedResource, correct), Required(CompleteResponse, CompleteReply(a))];
    if !correct then
      Assessment(id, claim, prerequisites, Inconclusive, WrongResource, FreshUse(a, [StatusFact(a)]))
    else if !CompleteReply(a) then
      Assessment(id, claim, prerequisites, Inconclusive, FailureReason(a), FreshUse(a, [StatusFact(a)]))
    else
      var r := a.response.value;
      match ExposureObstacle(r, x.body, accessPage)
      case Some(reason) =>
        Assessment(id, claim, prerequisites, Inconclusive, reason, FreshUse(a, ResponseFacts(r)))
      case None =>
        var matched := Exposed(claim.rule, r, x.body);
        Assessment(
          id, claim, prerequisites,
          if matched then SupportedPositive else SupportedNegative,
          if matched then ReviewedMarkersPresent else ReviewedConditionAbsent,
          FreshUse(a, ResponseFacts(r) + [Fact(MarkersPresent, Flag(matched))]))
  }

  /** `assess_exposure_recheck`: nothing for a rule that is not an exposure rule. */
  function AssessExposure(
    project: string, rule: RuleId, x: Exchange, accessPage: seq<Byte> -> bool): Option<Assessment>
  {
    match ExposureClaim(rule, x.acquisition.origin)
    case None => None
    case Some(claim) => Some(AssessExposureClaim(project, claim, x, accessPage))
  }

  predicate HstsUsable(x: Exchange, accessPage: seq<Byte> -> bool) {
    var a := x.acquisition;
    && a.resource == ROOT
    && (a.status.Completed? || a.status.Truncated?)
    && a.response.Some?
    && a.response.value.headersComplete
    && a.response.value.status == 200
    && a.response.value.identityEncoding
    && !a.response.value.challengePresent
    && !accessPage(x.body)
  }

  function HstsFailure(x: Exchange, accessPage: seq<Byte> -> bool): Reason {
    match x.acquisition.response
    case Some(r) =>
      if 300 <= r.status < 400 then RedirectPreventedEvaluation
      else if r.challengePresent || accessPage(x.body) || r.status >= 400 then ResponseBlockedOrAmbiguous
      else FailureReason(x.acquisition)
    case None => FailureReason(x.acquisition)
  }

  function HstsPrerequisites(x: Exchange, accessPage: seq<Byte> -> bool): seq<Prerequisite> {
    var a := x.acquisition;
    [ Required(HttpsOrigin, a.origin.https),
      Required(HostnameOrigin, !a.origin.literalAddress),
      Required(IntendedResource, a.resource == ROOT),
      match a.response
      case Some(r) => Required(CompleteHeaders, r.headersComplete)
      case None => Prerequisite(CompleteHeaders, Unknown),
      Required(UsableResponse, HstsUsable(x, accessPage))]
  }

  /** `assess_hsts_recheck` */
  function AssessHsts(project: string, x: Exchange, accessPage: seq<Byte> -> bool): Assessment {
    var a := x.acquisition;
    var claim := HstsClaim(a.origin);
    var id := AssessmentId(project, claim);
    var prerequisites := HstsPrerequisites(x, accessPage);
    if !a.origin.https || a.origin.literalAddress then
      Assessment(id, claim, prerequisites, Inconclusive, HstsNotApplicable, FreshUse(a, [StatusFact(a)]))
    else if a.resource != ROOT then
      Assessment(id, claim, prerequisites, Inconclusive, WrongResource, FreshUse(a, [StatusFact(a)]))
    else if !HstsUsable(x, accessPage) then
      var facts := match a.response
                   case Some(r) => [StatusFact(a), Fact(StatusCode, Whole(r.status))]
                   case None => [StatusFact(a)];
      Assessment(id, claim, prerequisites, Inconclusive, HstsFailure(x, accessPage), FreshUse(a, facts))
    else
      var r := a.response.value;
      Assessment(
        id, claim, prerequisites,
        if r.hstsPresent then SupportedNegative else SupportedPositive,
        if r.hstsPresent then HstsHeaderPresent else HstsHeaderAbsent,
        FreshUse(a, [
          Fact(StatusCode, Whole(r.status)), Fact(HeadersCompleteKey, Flag(r.headersComplete)),
          Fact(BodyCompleteKey, Flag(r.bodyComplete)), Fact(HstsPresentKey, Flag(r.hstsPresent))]))
  }
}

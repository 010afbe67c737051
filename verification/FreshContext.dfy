/**
  The comparator's re-validation of fresh rechecks (`comparison.compare._fresh_context_valid`)
  against the assessors that produce them.
 */
module FreshContext {
  import opened Bytes
  import opened Evidence
  import opened Facts
  import opened Rules
  import opened Wrappers

  function RequiredIds(rule: RuleId): set<PrerequisiteId> {
    if rule == HstsMissing then {HttpsOrigin, HostnameOrigin, IntendedResource, CompleteHeaders, UsableResponse}
    else {AuthorizedTarget, IntendedResource, CompleteResponse}
  }

  predicate AllMet(prerequisites: seq<Prerequisite>, ids: set<PrerequisiteId>) {
    && (forall i | 0 <= i < |prerequisites| :: prerequisites[i].state == Met)
    && (set i | 0 <= i < |prerequisites| :: prerequisites[i].id) == ids
  }

  /** Conditions on the acquisition that every supported fresh outcome needs. */
  predicate UsableEvidence(q: Acquisition) {
    && q.evidence.Some? && q.response.Some?
    && q.response.value.headersComplete
    && !q.response.value.challengePresent
    && q.response.value.identityEncoding
  }

  /** `_fresh_context_valid` */
  predicate FreshContextValid(a: Assessment, q: Acquisition, use: Use) {
    if a.claim.origin != q.origin || a.claim.resource != q.resource then false
    else if a.outcome.Inconclusive? then
      a.reason != NoSupportedNegativeEvidence && (a.reason != CheckNotRun || q.status.NotRun?)
    else if !UsableEvidence(q) || !AllMet(a.prerequisites, RequiredIds(a.claim.rule)) then false
    else
      var r, facts, positive := q.response.value, use.facts, a.outcome.SupportedPositive?;
      && DistinctKeys(facts)
      && Equals(facts, StatusCode, Whole(r.status))
      && if a.claim.rule == HstsMissing then
           && (q.status.Completed? || q.status.Truncated?)
           && r.status == 200
           && Is(facts, HeadersCompleteKey, true)
           && r.hstsPresent == !positive
           && Is(facts, HstsPresentKey, !positive)
         else
           && q.status.Completed?
           && r.bodyComplete
           && (r.status == 200 || (!positive && (r.status == 404 || r.status == 410)))
           && Is(facts, BodyCompleteKey, true)
           && Equals(facts, BodyShaKey, DigestText(r.bodySha))
           && Is(facts, MarkersPresent, positive)
  }

  // ---------------------------------------------------------------- what the assessors produce is accepted

  lemma PrerequisitesOf3(p: Prerequisite, q: Prerequisite, r: Prerequisite)
    requires p.state == q.state == r.state == Met
    ensures AllMet([p, q, r], {p.id, q.id, r.id})
  {
    var s := [p, q, r];
    assert s[0].id == p.id && s[1].id == q.id && s[2].id == r.id;
    assert (set i | 0 <= i < |s| :: s[i].id) == {p.id, q.id, r.id};
  }

  /**
    Whatever the exposure assessor says of a valid exchange, supported or not, is accepted
    by the comparator exactly when the exchange is at the rule's own resource.
   */
  lemma ExposureAccepted(project: string, rule: RuleId, x: Exchange, accessPage: seq<Byte> -> bool)
    requires ValidExchange(x) && AssessExposure(project, rule, x, accessPage).Some?
    ensures var a := AssessExposure(project, rule, x, accessPage).value;
            && |a.uses| == 1
            && (FreshContextValid(a, x.acquisition, a.uses[0]) <==> x.acquisition.resource == a.claim.resource)
  {
    var a := AssessExposure(project, rule, x, accessPage).value;
    if a.outcome != Inconclusive {
      SupportedExposureFacts(x.acquisition.response.value, a.outcome.SupportedPositive?, a.uses[0].facts);
      SupportedExposureMet(project, a.claim, x, accessPage);
    }
  }

  lemma SupportedExposureMet(project: string, claim: Claim, x: Exchange, accessPage: seq<Byte> -> bool)
    requires AssessExposureClaim(project, claim, x, accessPage).outcome != Inconclusive
    ensures AllMet(
              AssessExposureClaim(project, claim, x, accessPage).prerequisites,
              {AuthorizedTarget, IntendedResource, CompleteResponse})
  {
    var a := AssessExposureClaim(project, claim, x, accessPage);
    PrerequisitesOf3(a.prerequisites[0], a.prerequisites[1], a.prerequisites[2]);
  }

  lemma SupportedExposureFacts(r: CapturedResponse, matched: bool, facts: seq<Fact>)
    requires facts == ResponseFacts(r) + [Fact(MarkersPresent, Flag(matched))]
    ensures DistinctKeys(facts)
    ensures Lookup(facts, StatusCode) == Some(Whole(r.status))
    ensures Lookup(facts, BodyShaKey) == Some(DigestText(r.bodySha))
    ensures Lookup(facts, BodyCompleteKey) == Some(Flag(r.bodyComplete))
    ensures Lookup(facts, MarkersPresent) == Some(Flag(matched))
  {
    LookupAll(facts);
    assert facts[0].key == StatusCode && facts[1].key == BodyShaKey;
    assert facts[2].key == BodyCompleteKey && facts[3].key == MarkersPresent;
  }

  lemma SupportedHstsFacts(r: CapturedResponse, facts: seq<Fact>)
    requires facts == [
               Fact(StatusCode, Whole(r.status)), Fact(HeadersCompleteKey, Flag(r.headersComplete)),
               Fact(BodyCompleteKey, Flag(r.bodyComplete)), Fact(HstsPresentKey, Flag(r.hstsPresent))]
    ensures DistinctKeys(facts)
    ensures Lookup(facts, StatusCode) == Some(Whole(r.status))
    ensures Lookup(facts, HeadersCompleteKey) == Some(Flag(r.headersComplete))
    ensures Lookup(facts, HstsPresentKey) == Some(Flag(r.hstsPresent))
  {
    LookupAll(facts);
    assert facts[0].key == StatusCode && facts[1].key == HeadersCompleteKey && facts[3].key == HstsPresentKey;
  }

  lemma HstsPrerequisitesMet(x: Exchange, accessPage: seq<Byte> -> bool)
    requires HstsUsable(x, accessPage) && x.acquisition.origin.https && !x.acquisition.origin.literalAddress
    ensures AllMet(HstsPrerequisites(x, accessPage), RequiredIds(HstsMissing))
  {
    var s := HstsPrerequisites(x, accessPage);
    var ids := [HttpsOrigin, HostnameOrigin, IntendedResource, CompleteHeaders, UsableResponse];
    assert forall i | 0 <= i < |s| :: s[i] == Prerequisite(ids[i], Met);
    assert RequiredIds(HstsMissing) == {ids[0], ids[1], ids[2], ids[3], ids[4]};
    assert s[0].id == ids[0] && s[1].id == ids[1] && s[2].id == ids[2] && s[3].id == ids[3] && s[4].id == ids[4];
  }

  /** The same for the HSTS assessor. */
  lemma HstsAccepted(project: string, x: Exchange, accessPage: seq<Byte> -> bool)
    requires ValidExchange(x)
    ensures var a := AssessHsts(project, x, accessPage);
            && |a.uses| == 1
            && (FreshContextValid(a, x.acquisition, a.uses[0]) <==> x.acquisition.resource == a.claim.resource)
  {
    var a := AssessHsts(project, x, accessPage);
    if a.outcome != Inconclusive {
      SupportedHstsFacts(x.acquisition.response.value, a.uses[0].facts);
      HstsPrerequisitesMet(x, accessPage);
    }
  }

  // ---------------------------------------------------------------- what acceptance forces

  /**
    A supported HSTS outcome that the comparator accepts, wherever it came from, is the one
    the captured header block dictates; and it is the assessor's own outcome exactly when the
    origin is an HTTPS hostname and the body is no access page.
   */
  lemma AcceptedHsts(a: Assessment, x: Exchange, use: Use, accessPage: seq<Byte> -> bool)
    requires ValidExchange(x) && a.claim.rule == HstsMissing && a.claim.resource == ROOT
    requires a.outcome != Inconclusive && FreshContextValid(a, x.acquisition, use)
    ensures x.acquisition.response.Some?
    ensures a.outcome == if x.acquisition.response.value.hstsPresent then SupportedNegative else SupportedPositive
    ensures Equals(use.facts, StatusCode, Whole(200))
    ensures AssessHsts(a.id.project, x, accessPage).outcome == a.outcome
            <==> x.acquisition.origin.https && !x.acquisition.origin.literalAddress && !accessPage(x.body)
  {
  }

  /**
    An accepted supported exposure outcome rests on a complete, ready-to-judge response, and
    is the assessor's own outcome exactly when the body is no access page and bears the
    markers if and only if the outcome is positive: the comparator does not see the body.
   */
  lemma AcceptedExposure(a: Assessment, x: Exchange, use: Use, accessPage: seq<Byte> -> bool)
    requires ValidExchange(x) && ExposureClaim(a.claim.rule, x.acquisition.origin) == Some(a.claim)
    requires a.outcome != Inconclusive && FreshContextValid(a, x.acquisition, use)
    ensures CompleteReply(x.acquisition) && Equals(use.facts, BodyShaKey, DigestText(Sha256(x.body)))
    ensures var r := x.acquisition.response.value;
            && (a.outcome == SupportedPositive ==> r.status == 200)
            && (a.outcome == SupportedNegative ==> r.status == 200 || r.status == 404 || r.status == 410)
    ensures AssessExposure(a.id.project, a.claim.rule, x, accessPage).value.outcome == a.outcome
            <==> !accessPage(x.body)
                 && (a.outcome == SupportedPositive <==> Exposed(a.claim.rule, x.acquisition.response.value, x.body))
  {
  }
}

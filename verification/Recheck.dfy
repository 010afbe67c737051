/**
  From captured bytes to a recheck report: the end of `recheck._acquire`, and the resource
  loop of `recheck.recheck_web`.
 */
module Recheck {
  import opened Acquire
  import opened Bytes
  import opened Evidence
  import opened FreshContext
  import opened HttpHead
  import opened Response
  import opened Rules
  import opened Wrappers

  /** The one origin and destination address that a recheck visits. */
  datatype Target = Target(origin: Origin, address: Address)

  /** One connection attempt: its identity and clock readings, and what the network did. */
  datatype Attempt = Attempt(
    id: Uuid, startedAt: Time, finishedAt: Time, path: string, segments: seq<seq<Byte>>, ending: Ending)

  predicate ValidAttempt(t: Attempt) {
    t.startedAt <= t.finishedAt && NonEmpty(t.segments)
  }

  /** The acquisition that a finished read loop reports, with the body it captured. */
  function ExchangeOf(target: Target, resource: Resource, t: Attempt, r: Reading): Exchange {
    var evidence := if r.raw == [] then None else Some(Artifact(t.path, Sha256(r.raw), |r.raw|));
    var captured := Captured(r);
    Exchange(
      Acquisition(
        t.id, t.startedAt, Some(t.finishedAt), target.origin, target.address, resource, r.status, evidence,
        match captured case Some(c) => Some(c.response) case None => None),
      match captured case Some(c) => c.body case None => [])
  }

  /** A resource that the deadline left unvisited. */
  function NotRunExchange(target: Target, resource: Resource, t: Attempt): Exchange {
    Exchange(Acquisition(t.id, t.startedAt, None, target.origin, target.address, resource, NotRun, None, None), [])
  }

  /** Everything a capture records about a response, except its body, is read off the head. */
  lemma CapturedFromHead(segments: seq<seq<Byte>>, ending: Ending, budget: nat)
    ensures var r := Read(segments, ending, budget);
            Captured(r).Some? ==>
              && ParseHead(r.raw).Complete?
              && var head, c := ParseHead(r.raw).value, Captured(r).value;
                 c.response == Capture(head.status, head.fields, c.body, r.status.Completed?)
  {
    Retained(segments, 0, ending, budget);
    var r := Read(segments, ending, budget);
    if r.parsed.Some? {
      CompleteHasHead(r.raw);
    }
  }

  lemma CompleteHasHead(raw: seq<Byte>)
    requires ParseResponse(raw, false).Complete?
    ensures ParseHead(raw).Complete?
    ensures var head, w := ParseHead(raw).value, ParseResponse(raw, false).value;
            w.status == head.status && w.fields == head.fields
  {
  }

  lemma StatusInRange(raw: seq<Byte>)
    requires ParseHead(raw).Complete?
    ensures raw != [] && 100 <= ParseHead(raw).value.status <= 599
  {
  }

  /** Whatever the network does, the acquisition satisfies its own validator. */
  lemma AcquiredIsValid(target: Target, resource: Resource, t: Attempt, budget: nat)
    requires ValidAttempt(t) && budget <= MAX_ARTIFACT_BYTES
    ensures ValidExchange(ExchangeOf(target, resource, t, Read(t.segments, t.ending, budget)))
  {
    var r := Read(t.segments, t.ending, budget);
    Retained(t.segments, 0, t.ending, budget);
    CapturedFromHead(t.segments, t.ending, budget);
    if Captured(r).Some? {
      StatusInRange(r.raw);
    }
  }

  // ---------------------------------------------------------------- truncation never flips a verdict

  /** Two prefixes of one stream that both hold a complete head hold the same head. */
  lemma SameHead(x: seq<Byte>, y: seq<Byte>, stream: seq<Byte>)
    requires x <= stream && y <= stream && ParseHead(x).Complete? && ParseHead(y).Complete?
    ensures ParseHead(x) == ParseHead(y)
  {
    HeadExtend(x, stream[|x|..]);
    HeadExtend(y, stream[|y|..]);
    assert x + stream[|x|..] == stream == y + stream[|y|..];
  }

  /**
    Captures of one stream never support opposite HSTS outcomes, however the stream was
    split, whatever the budgets were, and whether each capture is complete or truncated.
   */
  lemma HstsNeverOpposite(
    project: string, target: Target, resource: Resource, a: Attempt, aBudget: nat, b: Attempt, bBudget: nat,
    accessPage: seq<Byte> -> bool)
    requires Stream(a.segments) == Stream(b.segments)
    ensures var x := AssessHsts(project, ExchangeOf(target, resource, a, Read(a.segments, a.ending, aBudget)), accessPage);
            var y := AssessHsts(project, ExchangeOf(target, resource, b, Read(b.segments, b.ending, bBudget)), accessPage);
            x.outcome != Inconclusive && y.outcome != Inconclusive ==> x.outcome == y.outcome
  {
    var r, s := Read(a.segments, a.ending, aBudget), Read(b.segments, b.ending, bBudget);
    Retained(a.segments, 0, a.ending, aBudget);
    Retained(b.segments, 0, b.ending, bBudget);
    CapturedFromHead(a.segments, a.ending, aBudget);
    CapturedFromHead(b.segments, b.ending, bBudget);
    if Captured(r).Some? && Captured(s).Some? {
      SameHead(r.raw, s.raw, Stream(a.segments));
    }
  }

  // ---------------------------------------------------------------- the report

  datatype RecheckReport = RecheckReport(
    project: string, acquisitions: seq<Acquisition>, assessments: seq<Assessment>)

  /** An acquisition of the report that a piece of evidence cites. */
  predicate Cites(r: RecheckReport, use: Use, i: nat) {
    use.FreshRecheck? && i < |r.acquisitions| && r.acquisitions[i].id == use.acquisition
  }

  ghost predicate CitesOne(r: RecheckReport, use: Use) {
    exists k :: Cites(r, use, k)
  }

  /** `RecheckReport.references_acquisitions`, with the validators of its parts. */
  ghost predicate ValidRecheckReport(r: RecheckReport) {
    && r.acquisitions != [] && r.assessments != []
    && (forall i | 0 <= i < |r.acquisitions| :: ValidAcquisition(r.acquisitions[i]))
    && (forall i, j | 0 <= i < j < |r.acquisitions| :: r.acquisitions[i].id != r.acquisitions[j].id)
    && (forall i | 0 <= i < |r.assessments| :: ValidAssessment(r.assessments[i]))
    && (forall i | 0 <= i < |r.assessments| :: r.assessments[i].id == AssessmentId(r.project, r.assessments[i].claim))
    && (forall i, j | 0 <= i < j < |r.assessments| :: r.assessments[i].id != r.assessments[j].id)
    && (forall i, u | 0 <= i < |r.assessments| && 0 <= u < |r.assessments[i].uses| ::
          CitesOne(r, r.assessments[i].uses[u]))
  }

  const RESOURCES: seq<Resource> := [ROOT, GIT_CONFIG]

  /** What the clock shows when a resource is considered, and again after any pause before it. */
  datatype Visit = Visit(considered: real, resumed: real, attempt: Attempt)

  /** The deadline test of the resource loop. */
  predicate Skipped(index: nat, v: Visit, deadline: real, delay: real) {
    (index > 0 && v.considered + delay >= deadline) || deadline - v.resumed <= 0.0
  }

  function VisitExchange(target: Target, index: nat, v: Visit, deadline: real, delay: real, budget: nat): Exchange
    requires index < |RESOURCES|
  {
    if Skipped(index, v, deadline, delay) then NotRunExchange(target, RESOURCES[index], v.attempt)
    else ExchangeOf(target, RESOURCES[index], v.attempt, Read(v.attempt.segments, v.attempt.ending, budget))
  }

  /** The report on the two exchanges: both exposure rules and the HSTS rule, in that order. */
  function ReportOn(project: string, root: Exchange, git: Exchange, accessPage: seq<Byte> -> bool): RecheckReport {
    RecheckReport(
      project,
      [root.acquisition, git.acquisition],
      [ AssessExposure(project, DirectoryListing, root, accessPage).value,
        AssessExposure(project, GitConfigExposure, git, accessPage).value,
        AssessHsts(project, root, accessPage)])
  }

  /** Each assessment rests on one acquisition of the report, and the comparator accepts it. */
  ghost predicate AllAccepted(r: RecheckReport) {
    forall i | 0 <= i < |r.assessments| :: AcceptedOn(r, r.assessments[i])
  }

  ghost predicate AcceptedOn(r: RecheckReport, a: Assessment) {
    && |a.uses| == 1
    && exists k: nat :: Cites(r, a.uses[0], k) && FreshContextValid(a, r.acquisitions[k], a.uses[0])
  }

  /** What `OrchestrationStore.persist_recheck` demands of a report for a planned target. */
  predicate MatchesPlan(r: RecheckReport, target: Target) {
    && |r.acquisitions| == |RESOURCES|
    && (forall i | 0 <= i < |RESOURCES| :: r.acquisitions[i].resource == RESOURCES[i])
    && (forall i | 0 <= i < |RESOURCES| ::
          r.acquisitions[i].origin == target.origin && r.acquisitions[i].address == target.address)
    && (set i | 0 <= i < |r.assessments| :: r.assessments[i].claim.rule)
       == {DirectoryListing, GitConfigExposure, HstsMissing}
  }

  /** An assessment under its own identity, resting on one acquisition, that the comparator accepts. */
  predicate SoundOn(project: string, rule: RuleId, a: Assessment, q: Acquisition) {
    && ValidAssessment(a) && a.id == AssessmentId(project, a.claim) && a.claim.rule == rule
    && |a.uses| == 1 && a.uses[0].FreshRecheck? && a.uses[0].acquisition == q.id
    && FreshContextValid(a, q, a.uses[0])
  }

  lemma ExposureSound(project: string, rule: RuleId, x: Exchange, accessPage: seq<Byte> -> bool)
    requires ValidExchange(x) && AssessExposure(project, rule, x, accessPage).Some?
    requires ExposureClaim(rule, x.acquisition.origin).value.resource == x.acquisition.resource
    ensures SoundOn(project, rule, AssessExposure(project, rule, x, accessPage).value, x.acquisition)
  {
    ExposureAccepted(project, rule, x, accessPage);
  }

  lemma HstsSound(project: string, x: Exchange, accessPage: seq<Byte> -> bool)
    requires ValidExchange(x) && x.acquisition.resource == ROOT
    ensures SoundOn(project, HstsMissing, AssessHsts(project, x, accessPage), x.acquisition)
  {
    HstsAccepted(project, x, accessPage);
  }

  /** No two assessments of a report speak of one rule. */
  predicate DistinctRules(r: RecheckReport) {
    forall i, j | 0 <= i < j < |r.assessments| :: r.assessments[i].claim.rule != r.assessments[j].claim.rule
  }

  /** The assessment at an index rests soundly on the acquisition its citation names. */
  predicate SoundAt(r: RecheckReport, cited: seq<nat>, i: nat)
    requires i < |r.assessments| == |cited|
  {
    && cited[i] < |r.acquisitions|
    && SoundOn(r.project, r.assessments[i].claim.rule, r.assessments[i], r.acquisitions[cited[i]])
  }

  lemma SoundIsAccepted(r: RecheckReport, cited: seq<nat>, i: nat)
    requires i < |r.assessments| == |cited| && SoundAt(r, cited, i)
    ensures AcceptedOn(r, r.assessments[i]) && CitesOne(r, r.assessments[i].uses[0])
    ensures ValidAssessment(r.assessments[i]) && r.assessments[i].id == AssessmentId(r.project, r.assessments[i].claim)
  {
    assert Cites(r, r.assessments[i].uses[0], cited[i]);
  }

  lemma SoundReport(r: RecheckReport, cited: seq<nat>)
    requires |r.acquisitions| == 2 && |cited| == |r.assessments| > 0
    requires ValidAcquisition(r.acquisitions[0]) && ValidAcquisition(r.acquisitions[1])
    requires r.acquisitions[0].id != r.acquisitions[1].id
    requires DistinctRules(r)
    requires forall i | 0 <= i < |cited| :: SoundAt(r, cited, i)
    ensures ValidRecheckReport(r) && AllAccepted(r)
  {
    forall i | 0 <= i < |r.assessments|
      ensures AcceptedOn(r, r.assessments[i]) && CitesOne(r, r.assessments[i].uses[0])
      ensures ValidAssessment(r.assessments[i]) && r.assessments[i].id == AssessmentId(r.project, r.assessments[i].claim)
    {
      assert SoundAt(r, cited, i);
      SoundIsAccepted(r, cited, i);
    }
    assert AllAccepted(r);
  }

  /** The three assessments of a recheck speak of the three rules. */
  predicate RulesInOrder(r: RecheckReport) {
    && |r.assessments| == 3
    && r.assessments[0].claim.rule == DirectoryListing
    && r.assessments[1].claim.rule == GitConfigExposure
    && r.assessments[2].claim.rule == HstsMissing
  }

  lemma ThreeRules(r: RecheckReport)
    requires RulesInOrder(r)
    ensures DistinctRules(r)
    ensures (set i | 0 <= i < |r.assessments| :: r.assessments[i].claim.rule)
            == {DirectoryListing, GitConfigExposure, HstsMissing}
  {
    var rules := set i | 0 <= i < |r.assessments| :: r.assessments[i].claim.rule;
    assert r.assessments[0].claim.rule in rules && r.assessments[1].claim.rule in rules
      && r.assessments[2].claim.rule in rules;
  }

  /** Each of the three assessments is sound on the resource it cites. */
  lemma EachIsSound(project: string, root: Exchange, git: Exchange, accessPage: seq<Byte> -> bool)
    requires ValidExchange(root) && ValidExchange(git)
    requires root.acquisition.resource == ROOT && git.acquisition.resource == GIT_CONFIG
    ensures var r := ReportOn(project, root, git, accessPage);
            RulesInOrder(r) && SoundAt(r, [0, 1, 0], 0) && SoundAt(r, [0, 1, 0], 1) && SoundAt(r, [0, 1, 0], 2)
  {
    ExposureSound(project, DirectoryListing, root, accessPage);
    ExposureSound(project, GitConfigExposure, git, accessPage);
    HstsSound(project, root, accessPage);
  }

  lemma ReportOnExchanges(project: string, target: Target, root: Exchange, git: Exchange, accessPage: seq<Byte> -> bool)
    requires ValidExchange(root) && ValidExchange(git)
    requires root.acquisition.resource == ROOT && git.acquisition.resource == GIT_CONFIG
    requires root.acquisition.id != git.acquisition.id
    requires root.acquisition.origin == git.acquisition.origin == target.origin
    requires root.acquisition.address == git.acquisition.address == target.address
    ensures var r := ReportOn(project, root, git, accessPage);
            ValidRecheckReport(r) && AllAccepted(r) && MatchesPlan(r, target)
  {
    EachIsSound(project, root, git, accessPage);
    var r := ReportOn(project, root, git, accessPage);
    ThreeRules(r);
    SoundReport(r, [0, 1, 0]);
  }

  lemma VisitIsValid(target: Target, index: nat, v: Visit, deadline: real, delay: real, budget: nat)
    requires index < |RESOURCES| && ValidAttempt(v.attempt) && budget <= MAX_ARTIFACT_BYTES
    ensures var x := VisitExchange(target, index, v, deadline, delay, budget);
            && ValidExchange(x) && x.acquisition.resource == RESOURCES[index] && x.acquisition.id == v.attempt.id
            && x.acquisition.origin == target.origin && x.acquisition.address == target.address
  {
    AcquiredIsValid(target, RESOURCES[index], v.attempt, budget);
  }

  /**
    The resource loop. Whatever the network and the clock do, the report is valid, covers
    exactly the planned resources at the approved target and exactly the three rules, and
    every one of its assessments is one the comparator accepts.
   */
  method RecheckWeb(
    project: string, target: Target, visits: seq<Visit>, deadline: real, delay: real, budget: nat,
    accessPage: seq<Byte> -> bool)
    returns (report: RecheckReport)
    requires |visits| == |RESOURCES| && budget <= MAX_ARTIFACT_BYTES
    requires forall i | 0 <= i < |visits| :: ValidAttempt(visits[i].attempt)
    requires visits[0].attempt.id != visits[1].attempt.id
    ensures ValidRecheckReport(report) && AllAccepted(report) && MatchesPlan(report, target)
    ensures report == ReportOn(
                        project,
                        VisitExchange(target, 0, visits[0], deadline, delay, budget),
                        VisitExchange(target, 1, visits[1], deadline, delay, budget), accessPage)
  {
    var exchanges: seq<Exchange> := [];
    for index := 0 to |RESOURCES|
      invariant |exchanges| == index
      invariant forall i | 0 <= i < index ::
                  exchanges[i] == VisitExchange(target, i, visits[i], deadline, delay, budget)
    {
      var visit, resource := visits[index], RESOURCES[index];
      if (index > 0 && visit.considered + delay >= deadline) || deadline - visit.resumed <= 0.0 {
        exchanges := exchanges + [NotRunExchange(target, resource, visit.attempt)];
      } else {
        var reading := ReadResponse(visit.attempt.segments, visit.attempt.ending, budget);
        exchanges := exchanges + [ExchangeOf(target, resource, visit.attempt, reading)];
      }
    }
    VisitIsValid(target, 0, visits[0], deadline, delay, budget);
    VisitIsValid(target, 1, visits[1], deadline, delay, budget);
    ReportOnExchanges(project, target, exchanges[0], exchanges[1], accessPage);
    report := ReportOn(project, exchanges[0], exchanges[1], accessPage);
  }
}

/**
  The condition on template revisions in `resolved`: reports made by a recheck meet it without
  any hypothesis, and a valid pair of selections that fails it alone is not resolved.
 */
module ReviewedRevisions {
  import opened Capture
  import opened Comparison
  import opened ComparisonLaws
  import opened ComparisonSides
  import opened Evidence
  import opened Facts
  import opened Feedback
  import opened FreshContext
  import opened HistoricalStates
  import opened Rules
  import opened Wrappers
  import Bytes
  import Recheck

  // ---------------------------------------------------------------- rechecks name no revision

  predicate NamesNone(facts: seq<Fact>) {
    forall n | 0 <= n < |facts| :: facts[n].key != TemplateRevision
  }

  predicate AllNameNone(a: Assessment) {
    forall i | 0 <= i < |a.uses| :: NamesNone(a.uses[i].facts)
  }

  /** No assessor of a recheck names a template revision. */
  lemma ReportNamesNone(
    project: string, root: Exchange, git: Exchange, accessPage: seq<Bytes.Byte> -> bool, i: nat)
    requires i < |Recheck.ReportOn(project, root, git, accessPage).assessments|
    ensures AllNameNone(Recheck.ReportOn(project, root, git, accessPage).assessments[i])
  {
    if i == 0 {
      ExposureNamesNone(project, DirectoryListing, root, accessPage);
    } else if i == 1 {
      ExposureNamesNone(project, GitConfigExposure, git, accessPage);
    }
  }

  lemma ExposureNamesNone(project: string, rule: RuleId, x: Exchange, accessPage: seq<Bytes.Byte> -> bool)
    requires AssessExposure(project, rule, x, accessPage).Some?
    ensures AllNameNone(AssessExposure(project, rule, x, accessPage).value)
  {
  }

  lemma NoRevisions(basis: Basis, a: Assessment, address: Option<Address>)
    requires AllResolve(basis, a) && AllNameNone(a)
    ensures Revisions(BoundViews(basis, a, address)) == {}
  {
    forall v | v in BoundViews(basis, a, address)
      ensures NamesNone(v.use.facts)
    {
      var i :| 0 <= i < |a.uses| && ViewOf(basis, a, a.uses[i]).address == address && v == ViewOf(basis, a, a.uses[i]);
      assert v.use == a.uses[i];
    }
  }

  /** A report that a recheck of two exchanges makes, as a selection with its verified health. */
  function RecheckBasis(r: Recheck.RecheckReport, health: Option<map<Uuid, Health>>): Basis {
    FreshBasis(r.acquisitions, health)
  }

  /** The evidence of a recheck cites its own acquisitions. */
  lemma ReportResolves(
    project: string, root: Exchange, git: Exchange, accessPage: seq<Bytes.Byte> -> bool,
    health: Option<map<Uuid, Health>>, i: nat)
    requires i < |Recheck.ReportOn(project, root, git, accessPage).assessments|
    ensures var r := Recheck.ReportOn(project, root, git, accessPage);
            AllResolve(RecheckBasis(r, health), r.assessments[i])
  {
    var r := Recheck.ReportOn(project, root, git, accessPage);
    var a := r.assessments[i];
    assert |a.uses| == 1 && a.uses[0].FreshRecheck?
      && (a.uses[0].acquisition == r.acquisitions[0].id || a.uses[0].acquisition == r.acquisitions[1].id);
    AcquisitionFound(r.acquisitions, 0);
    AcquisitionFound(r.acquisitions, 1);
  }

  /**
    Whatever two rechecks saw, the revisions that their evidence names at a context are the
    reviewed ones, because they name none: between rechecks the condition never decides.
   */
  lemma RechecksAreReviewed(
    project: string, root: Exchange, git: Exchange, root': Exchange, git': Exchange,
    accessPage: seq<Bytes.Byte> -> bool, health: Option<map<Uuid, Health>>, health': Option<map<Uuid, Health>>,
    i: nat, j: nat, rule: RuleId, address: Option<Address>, templates: map<string, string>)
    requires var r := Recheck.ReportOn(project, root, git, accessPage);
             i < |r.assessments|
    requires var r := Recheck.ReportOn(project, root', git', accessPage);
             j < |r.assessments|
    ensures AllResolve(
              RecheckBasis(Recheck.ReportOn(project, root, git, accessPage), health),
              Recheck.ReportOn(project, root, git, accessPage).assessments[i])
    ensures AllResolve(
              RecheckBasis(Recheck.ReportOn(project, root', git', accessPage), health'),
              Recheck.ReportOn(project, root', git', accessPage).assessments[j])
    ensures var r := Recheck.ReportOn(project, root, git, accessPage);
            var s := Recheck.ReportOn(project, root', git', accessPage);
            HistoricalStates.Reviewed(
              rule,
              Revisions(BoundViews(RecheckBasis(r, health), r.assessments[i], address))
              + Revisions(BoundViews(RecheckBasis(s, health'), s.assessments[j], address)), templates)
  {
    var r := Recheck.ReportOn(project, root, git, accessPage);
    var s := Recheck.ReportOn(project, root', git', accessPage);
    ReportResolves(project, root, git, accessPage, health, i);
    ReportResolves(project, root', git', accessPage, health', j);
    ReportNamesNone(project, root, git, accessPage, i);
    ReportNamesNone(project, root', git', accessPage, j);
    NoRevisions(RecheckBasis(r, health), r.assessments[i], address);
    NoRevisions(RecheckBasis(s, health'), s.assessments[j], address);
  }

  // ---------------------------------------------------------------- a pair that the condition decides

  lemma {:induction false} ExtraFactFound(facts: seq<Fact>, extra: Fact, n: nat, key: Key)
    requires n <= |facts| && key != extra.key
    ensures LastValue(facts + [extra], n, key) == LastValue(facts, n, key)
  {
    if n > 0 {
      ExtraFactFound(facts, extra, n - 1, key);
    }
  }

  lemma ExtraFactLookup(facts: seq<Fact>, extra: Fact, key: Key)
    requires key != extra.key
    ensures Lookup(facts + [extra], key) == Lookup(facts, key)
  {
    ExtraFactFound(facts, extra, |facts|, key);
  }

  /** The same fresh evidence with one more fact. */
  function Marked(a: Assessment, revision: Value): Assessment
    requires |a.uses| == 1 && a.uses[0].FreshRecheck?
  {
    a.(uses := [FreshRecheck(a.uses[0].acquisition, a.uses[0].facts + [Fact(TemplateRevision, revision)])])
  }

  /** Naming a revision beside the facts of a rule does not make fresh evidence invalid. */
  lemma MarkedIsValid(a: Assessment, q: Acquisition, revision: Value)
    requires |a.uses| == 1 && a.uses[0].FreshRecheck? && NamesNone(a.uses[0].facts)
    requires FreshContextValid(a, q, a.uses[0])
    ensures FreshContextValid(Marked(a, revision), q, Marked(a, revision).uses[0])
  {
    var facts, extra := a.uses[0].facts, Fact(TemplateRevision, revision);
    forall key | key != TemplateRevision
      ensures Lookup(facts + [extra], key) == Lookup(facts, key)
    {
      ExtraFactLookup(facts, extra, key);
    }
  }

  // ---------------------------------------------------------------- one check against another

  /** A valid supported assessment on one finished acquisition, which the comparator accepts. */
  predicate OneCheck(a: Assessment, q: Acquisition) {
    && ValidAssessment(a) && KnownRule(a.claim) && a.outcome != Inconclusive
    && |a.uses| == 1 && a.uses[0].FreshRecheck? && a.uses[0].acquisition == q.id
    && FreshContextValid(a, q, a.uses[0])
    && q.finishedAt.Some? && q.startedAt <= q.finishedAt.value && q.evidence.Some?
  }

  /** The health of one readable acquisition. */
  function OneReady(q: Acquisition): map<Uuid, Health> {
    map[q.id := Ready]
  }

  function OneBasis(q: Acquisition): Basis {
    FreshBasis([q], Some(OneReady(q)))
  }

  lemma OneResolves(a: Assessment, q: Acquisition)
    requires OneCheck(a, q)
    ensures AllResolve(OneBasis(q), a)
    ensures AcquisitionOf(OneBasis(q).acquisitions, a.uses[0].acquisition) == Some(q)
  {
    assert OneBasis(q).acquisitions[|OneBasis(q).acquisitions| - 1] == q;
  }

  /** The one view of the evidence. */
  lemma OneView(a: Assessment, q: Acquisition) returns (v: View)
    requires OneCheck(a, q)
    ensures AllResolve(OneBasis(q), a)
    ensures BoundViews(OneBasis(q), a, Some(q.address)) == {v}
    ensures v.use == a.uses[0] && v.valid && v.healthy
    ensures v.window == Some(Window(q.startedAt, q.finishedAt.value))
    ensures v.digest == Some(q.evidence.value.sha)
  {
    OneResolves(a, q);
    v := ViewOf(OneBasis(q), a, a.uses[0]);
  }

  lemma OneSupports(a: Assessment, q: Acquisition)
    requires OneCheck(a, q)
    ensures AllResolve(OneBasis(q), a)
    ensures Supports(OneBasis(q), a, Some(q.address), a.outcome)
  {
    var v := OneView(a, q);
    assert v in {v} && ReadableAt({v}, v.digest);
  }

  lemma OnePrecedes(a: Assessment, q: Acquisition, b: Assessment, r: Acquisition)
    requires OneCheck(a, q) && OneCheck(b, r)
    requires q.finishedAt.value < r.startedAt && q.evidence.value.sha != r.evidence.value.sha
    ensures AllResolve(OneBasis(q), a) && AllResolve(OneBasis(r), b)
    ensures Precede(BoundViews(OneBasis(q), a, Some(q.address)), BoundViews(OneBasis(r), b, Some(r.address)))
  {
    var v := OneView(a, q);
    var w := OneView(b, r);
    assert DigestSet({v}) == {v.digest.value} && DigestSet({w}) == {w.digest.value} by {
      assert v in {v} && w in {w};
    }
  }

  /** The revisions that the evidence names. */
  function Named(facts: seq<Fact>): set<Value> {
    set n | 0 <= n < |facts| && facts[n].key == TemplateRevision :: facts[n].value
  }

  lemma OneNames(a: Assessment, q: Acquisition)
    requires OneCheck(a, q)
    ensures AllResolve(OneBasis(q), a)
    ensures Revisions(BoundViews(OneBasis(q), a, Some(q.address))) == Named(a.uses[0].facts)
  {
    var v := OneView(a, q);
    RevisionsOfOne(v);
  }

  lemma RevisionsOfOne(v: View)
    ensures Revisions({v}) == Named(v.use.facts)
  {
    forall r | r in Named(v.use.facts)
      ensures r in Revisions({v})
    {
      var n :| 0 <= n < |v.use.facts| && v.use.facts[n].key == TemplateRevision && v.use.facts[n].value == r;
      assert v in {v};
    }
  }

  /**
    Of two checks of one claim at one address, the condition supported by the earlier and its
    absence by the later, the revisions they name alone decide.
   */
  lemma OneSettles(a: Assessment, q: Acquisition, b: Assessment, r: Acquisition, templates: map<string, string>)
    requires OneCheck(a, q) && OneCheck(b, r) && a.claim == b.claim && q.address == r.address
    requires a.outcome == SupportedPositive && b.outcome == SupportedNegative
    requires q.finishedAt.value < r.startedAt && q.evidence.value.sha != r.evidence.value.sha
    ensures AllResolve(OneBasis(q), a) && AllResolve(OneBasis(r), b)
    ensures Settles(OneBasis(q), a, OneBasis(r), b, KeyOf(a, Some(q.address)), templates)
            <==> HistoricalStates.Reviewed(a.claim.rule, Named(a.uses[0].facts) + Named(b.uses[0].facts), templates)
  {
    OneSupports(a, q);
    OneSupports(b, r);
    OnePrecedes(a, q, b, r);
    OneNames(a, q);
    OneNames(b, r);
  }

  function OneReport(project: string, a: Assessment, q: Acquisition): Report {
    FreshReport(project, [q], [a])
  }

  function OneSide(project: string, a: Assessment, q: Acquisition, review: Review): Result<Entries, ComparisonError> {
    SideOf(OneReport(project, a, q), Support(None, Some(OneReady(q)), None), review)
  }

  lemma OneReportValid(project: string, a: Assessment, q: Acquisition)
    requires OneCheck(a, q) && a.id == AssessmentId(project, a.claim)
    ensures ValidReport(OneReport(project, a, q))
  {
    assert OneReport(project, a, q).acquisitions[0] == q;
  }

  lemma OneBuilds(project: string, a: Assessment, q: Acquisition, review: Review)
    requires OneCheck(a, q) && a.id == AssessmentId(project, a.claim)
    ensures OneSide(project, a, q, review).Success?
    ensures Build(OneBasis(q), [a], 1) == OneSide(project, a, q, review)
  {
    OneReportValid(project, a, q);
    OnlyAmbiguousVersions(OneReport(project, a, q), Support(None, Some(OneReady(q)), None), review);
  }

  /** What the comparison says of the two checks. */
  lemma OneResolved(project: string, a: Assessment, q: Acquisition, b: Assessment, r: Acquisition, review: Review)
    requires OneCheck(a, q) && OneCheck(b, r) && a.claim == b.claim && q.address == r.address
    requires a.id == b.id == AssessmentId(project, a.claim)
    requires a.outcome == SupportedPositive && b.outcome == SupportedNegative
    requires q.finishedAt.value < r.startedAt && q.evidence.value.sha != r.evidence.value.sha
    ensures OneSide(project, a, q, review).Success? && OneSide(project, b, r, review).Success?
    ensures var x, y := OneSide(project, a, q, review).value, OneSide(project, b, r, review).value;
            var key := KeyOf(a, Some(q.address));
            Conclude(key.address, EntryAt(x, key), EntryAt(y, key), review.templates).state == Resolved
            <==> HistoricalStates.Reviewed(
                   a.claim.rule, Named(a.uses[0].facts) + Named(b.uses[0].facts), review.templates)
  {
    OneBuilds(project, a, q, review);
    OneBuilds(project, b, r, review);
    OneSettles(a, q, b, r, review.templates);
    var x, y := OneSide(project, a, q, review).value, OneSide(project, b, r, review).value;
    var key, before, after := KeyOf(a, Some(q.address)), [a], [b];
    if Conclude(key.address, EntryAt(x, key), EntryAt(y, key), review.templates).state == Resolved {
      var i, j := ResolvedNeeds(OneBasis(q), before, x, OneBasis(r), after, y, key, review.templates);
      assert before[i] == a && after[j] == b;
    }
    if Settles(OneBasis(q), a, OneBasis(r), b, key, review.templates) {
      ResolvedSuffices(OneBasis(q), before, x, OneBasis(r), after, y, key, review.templates, 0, 0);
    }
  }

  // ---------------------------------------------------------------- a pair that the condition decides

  const ORIGIN := Origin("https://h.example", true, false, 443)
  const ADDRESS: Address := "192.0.2.1"

  /** A complete reply, which carries the HSTS header or does not. */
  function Reply(present: bool): Exchange {
    var response := CapturedResponse(200, true, true, Sha256([]), present, false, true);
    var artifact := Artifact("response.http", Sha256(if present then [80] else [72]), 1);
    Exchange(
      if present then Acquisition(2, 2, Some(3), ORIGIN, ADDRESS, ROOT, Completed, Some(artifact), Some(response))
      else Acquisition(1, 0, Some(1), ORIGIN, ADDRESS, ROOT, Completed, Some(artifact), Some(response)),
      [])
  }

  function Plain(present: bool): Assessment {
    AssessHsts("p", Reply(present), (body: seq<Bytes.Byte>) => false)
  }

  /** What the assessor says of the reply, with a template revision named beside it if `named`. */
  function Check(present: bool, named: bool): Assessment {
    if named then Marked(Plain(present), Text("r1")) else Plain(present)
  }

  /** What is known of an assessment, kept apart from how it is made. */
  predicate PlainCheck(a: Assessment, q: Acquisition, present: bool) {
    && OneCheck(a, q) && NamesNone(a.uses[0].facts)
    && a.claim == HstsClaim(ORIGIN) && a.id == AssessmentId("p", a.claim)
    && a.outcome == if present then SupportedNegative else SupportedPositive
  }

  /** What the assessor says of a usable reply is a check that names no revision. */
  lemma UsableIsCheck(project: string, x: Exchange, accessPage: seq<Bytes.Byte> -> bool)
    requires ValidExchange(x) && HstsUsable(x, accessPage)
    requires x.acquisition.origin.https && !x.acquisition.origin.literalAddress && x.acquisition.finishedAt.Some?
    ensures var a := AssessHsts(project, x, accessPage);
            && OneCheck(a, x.acquisition) && NamesNone(a.uses[0].facts)
            && a.claim == HstsClaim(x.acquisition.origin) && a.id == AssessmentId(project, a.claim)
            && a.outcome == if x.acquisition.response.value.hstsPresent then SupportedNegative else SupportedPositive
  {
    HstsAccepted(project, x, accessPage);
  }

  lemma ReplyIsUsable(present: bool)
    ensures ValidExchange(Reply(present)) && ValidAcquisition(Reply(present).acquisition)
    ensures HstsUsable(Reply(present), (body: seq<Bytes.Byte>) => false)
  {
  }

  lemma PlainIsCheck(present: bool)
    ensures ValidAcquisition(Reply(present).acquisition)
    ensures PlainCheck(Plain(present), Reply(present).acquisition, present)
  {
    ReplyIsUsable(present);
    UsableIsCheck("p", Reply(present), (body: seq<Bytes.Byte>) => false);
  }

  lemma MarkedIsCheck(a: Assessment, q: Acquisition, present: bool, revision: Value)
    requires PlainCheck(a, q, present)
    ensures OneCheck(Marked(a, revision), q) && Named(Marked(a, revision).uses[0].facts) == {revision}
  {
    MarkedIsValid(a, q, revision);
    var facts := Marked(a, revision).uses[0].facts;
    assert facts[|facts| - 1] == Fact(TemplateRevision, revision);
    assert forall k | 0 <= k < |facts| - 1 :: facts[k] == a.uses[0].facts[k];
  }

  lemma NoneIsNamed(facts: seq<Fact>)
    requires NamesNone(facts)
    ensures Named(facts) == {}
  {
  }

  /** Nothing reviews a revision of the HSTS check. */
  lemma PairDecides(a: Assessment, q: Acquisition, b: Assessment, r: Acquisition, named: bool, review: Review)
    requires OneCheck(a, q) && a.claim == HstsClaim(ORIGIN) && a.id == AssessmentId("p", a.claim)
    requires a.outcome == SupportedPositive && Named(a.uses[0].facts) == if named then {Text("r1")} else {}
    requires PlainCheck(b, r, true) && q.address == r.address
    requires q.finishedAt.value < r.startedAt && q.evidence.value.sha != r.evidence.value.sha
    ensures OneSide("p", a, q, review).Success? && OneSide("p", b, r, review).Success?
    ensures var x, y := OneSide("p", a, q, review).value, OneSide("p", b, r, review).value;
            var key := KeyOf(a, Some(q.address));
            Conclude(key.address, EntryAt(x, key), EntryAt(y, key), review.templates).state == Resolved <==> !named
  {
    NoneIsNamed(b.uses[0].facts);
    var revisions := Named(a.uses[0].facts) + Named(b.uses[0].facts);
    assert revisions == Named(a.uses[0].facts);
    assert named ==> Text("r1") in revisions;
    assert HistoricalStates.Reviewed(a.claim.rule, revisions, review.templates) <==> !named;
    OneResolved("p", a, q, b, r, review);
  }

  /**
    The condition decides: two valid selections of fresh rechecks, accepted by the comparator,
    that support the condition and its later absence at one address. The context is resolved,
    and it no longer is if the earlier evidence also names a template revision, although every
    other condition still holds.
   */
  lemma RevisionDecides(named: bool, review: Review)
    ensures var q, r := Reply(false).acquisition, Reply(true).acquisition;
            var a, b := Check(false, named), Check(true, false);
            && ValidAcquisition(q) && ValidAcquisition(r)
            && ValidReport(OneReport("p", a, q)) && ValidReport(OneReport("p", b, r))
            && AllResolve(OneBasis(q), a) && AllResolve(OneBasis(r), b)
            && Supports(OneBasis(q), a, Some(ADDRESS), SupportedPositive)
            && Supports(OneBasis(r), b, Some(ADDRESS), SupportedNegative)
            && Precede(BoundViews(OneBasis(q), a, Some(ADDRESS)), BoundViews(OneBasis(r), b, Some(ADDRESS)))
    ensures var q, r := Reply(false).acquisition, Reply(true).acquisition;
            var a, b := Check(false, named), Check(true, false);
            var x, y := OneSide("p", a, q, review), OneSide("p", b, r, review);
            var key := ContextKey(HstsMissing, ORIGIN, ROOT, Some(ADDRESS));
            && x.Success? && y.Success?
            && (Conclude(key.address, EntryAt(x.value, key), EntryAt(y.value, key), review.templates).state == Resolved
                <==> !named)
  {
    var q, r := Reply(false).acquisition, Reply(true).acquisition;
    var a, b := Check(false, named), Check(true, false);
    ChecksAre(false, named);
    ChecksAre(true, false);
    assert Sha256([72]).content[0] != Sha256([80]).content[0];
    OneReportValid("p", a, q);
    OneReportValid("p", b, r);
    OneSupports(a, q);
    OneSupports(b, r);
    OnePrecedes(a, q, b, r);
    PairDecides(a, q, b, r, named, review);
  }

  lemma ChecksAre(present: bool, named: bool)
    ensures ValidAcquisition(Reply(present).acquisition)
    ensures var a, q := Check(present, named), Reply(present).acquisition;
            && OneCheck(a, q) && a.claim == HstsClaim(ORIGIN) && a.id == AssessmentId("p", a.claim)
            && a.outcome == (if present then SupportedNegative else SupportedPositive)
            && Named(a.uses[0].facts) == (if named then {Text("r1")} else {})
            && (!named ==> PlainCheck(a, q, present))
  {
    PlainIsCheck(present);
    if named {
      MarkedIsCheck(Plain(present), Reply(present).acquisition, present, Text("r1"));
    } else {
      NoneIsNamed(Plain(present).uses[0].facts);
    }
  }
}

/**
  Producers against validators: the reports that `assess_correlation` makes of its own
  correlation, and what any valid report can and cannot make the comparator raise.
 */
module Feedback {
  import opened Capture
  import opened CaptureLoops
  import opened Comparison
  import opened ComparisonLaws
  import opened ComparisonSides
  import opened Correlation
  import opened CorrelationLaws
  import opened Evidence
  import opened HistoricalStates
  import opened Runs
  import opened Wrappers

  // ---------------------------------------------------------------- valid reports

  predicate SoundIdentities(project: string, assessments: seq<Assessment>) {
    && (forall i | 0 <= i < |assessments| :: assessments[i].id == AssessmentId(project, assessments[i].claim))
    && (forall i, j | 0 <= i < j < |assessments| :: assessments[i].id != assessments[j].id)
  }

  /** The use cites a selected run, or a listed acquisition. */
  predicate Selected(report: Report, use: Use) {
    match report
    case CaptureReport(_, runIds, _) => use.ExistingCapture? && use.source.runId in runIds
    case FreshReport(_, acquisitions, _) =>
      use.FreshRecheck? && exists i :: 0 <= i < |acquisitions| && acquisitions[i].id == use.acquisition
  }

  /** `references_selected_runs` and `references_acquisitions`. */
  predicate ValidReport(report: Report) {
    && SoundIdentities(report.project, report.assessments)
    && (forall i | 0 <= i < |report.assessments| :: ValidAssessment(report.assessments[i]))
    && (forall i, k | 0 <= i < |report.assessments| && 0 <= k < |report.assessments[i].uses| ::
          Selected(report, report.assessments[i].uses[k]))
    && match report
       case CaptureReport(_, runIds, _) =>
         runIds != [] && forall i, j | 0 <= i < j < |runIds| :: runIds[i] != runIds[j]
       case FreshReport(_, acquisitions, assessments) =>
         && acquisitions != [] && assessments != []
         && forall i, j | 0 <= i < j < |acquisitions| :: acquisitions[i].id != acquisitions[j].id
  }

  lemma {:induction false} SourceFound(sources: seq<RunSource>, runId: Uuid)
    ensures SourceOf(sources, runId).Some? <==> runId in RunIds(sources)
  {
    if sources != [] {
      var n := |sources| - 1;
      SourceFound(sources[..n], runId);
      assert runId in RunIds(sources) <==> runId in RunIds(sources[..n]) || sources[n].runId == runId by {
        assert forall i | 0 <= i < n :: sources[..n][i] == sources[i];
        if runId in RunIds(sources[..n]) {
          var i :| 0 <= i < n && sources[..n][i].runId == runId;
          assert sources[i].runId == runId;
        }
      }
    }
  }

  lemma {:induction false} AcquisitionFound(acquisitions: seq<Acquisition>, i: nat)
    requires i < |acquisitions|
    ensures AcquisitionOf(acquisitions, acquisitions[i].id).Some?
  {
    var n := |acquisitions| - 1;
    if i < n {
      AcquisitionFound(acquisitions[..n], i);
    }
  }

  lemma SelectedResolves(report: Report, support: Support, review: Review, use: Use)
    requires BasisOf(report, support, review).Success? && Selected(report, use)
    ensures Resolves(BasisOf(report, support, review).value, use)
  {
    match report
    case CaptureReport(_, runIds, _) =>
      var c := support.correlation.value;
      SourceFound(c.sources, use.source.runId);
      var i :| 0 <= i < |runIds| && runIds[i] == use.source.runId;
      assert runIds[i] in set i | 0 <= i < |runIds| :: runIds[i];
    case FreshReport(_, acquisitions, _) =>
      var i :| 0 <= i < |acquisitions| && acquisitions[i].id == use.acquisition;
      AcquisitionFound(acquisitions, i);
  }

  /** Entries of different assessments of one project stand under different keys, unless their versions differ. */
  lemma {:induction false} DistinctKeys(basis: Basis, assessments: seq<Assessment>, n: nat, entries: Entries)
    requires n < |assessments| && AllAllResolve(basis, assessments, n) && AllResolve(basis, assessments[n])
    requires forall i | 0 <= i < n :: assessments[i].claim != assessments[n].claim
    requires !Ambiguous(assessments, n) && Joins(Parts(basis, assessments, n), entries)
    ensures entries.Keys * EntriesOf(basis, assessments[n]).Keys == {}
  {
    var own := EntriesOf(basis, assessments[n]);
    forall k | k in own
      ensures k !in entries
    {
      EntriesStand(basis, assessments[n], k);
      if k in entries {
        var parts := Parts(basis, assessments, n);
        var i :| 0 <= i < n && k in parts[i];
        PartAt(basis, assessments, n, i);
        EntriesStand(basis, assessments[i], k);
        assert SameSemantics(assessments[i], assessments[n]);
        assert false;
      }
    }
  }

  /** With distinct claims and evidence that resolves, one more assessment fails only on its version. */
  lemma {:induction false} AddOnlyAmbiguous(basis: Basis, assessments: seq<Assessment>, n: nat, entries: Entries)
    requires n < |assessments| && Build(basis, assessments, n) == Success(entries)
    requires AllAllResolve(basis, assessments, n) && AllResolve(basis, assessments[n])
    requires forall i | 0 <= i < n :: assessments[i].claim != assessments[n].claim
    ensures var next := AddAssessment(basis, assessments, n, entries);
            && (next.Failure? <==> Ambiguous(assessments, n))
            && (next.Failure? ==> next.error == AmbiguousVersions)
  {
    BuildJoins(basis, assessments, n);
    if !Ambiguous(assessments, n) {
      DistinctKeys(basis, assessments, n, entries);
    }
  }

  predicate AmbiguousBefore(assessments: seq<Assessment>, n: nat)
    requires n <= |assessments|
  {
    exists i :: 0 <= i < n && Ambiguous(assessments, i)
  }

  predicate DistinctClaims(assessments: seq<Assessment>) {
    forall i, j | 0 <= i < j < |assessments| :: assessments[i].claim != assessments[j].claim
  }

  lemma {:induction false} BuildSucceeds(basis: Basis, assessments: seq<Assessment>, n: nat)
    requires n <= |assessments| && AllAllResolve(basis, assessments, |assessments|) && DistinctClaims(assessments)
    requires !AmbiguousBefore(assessments, n)
    ensures Build(basis, assessments, n).Success?
  {
    if n > 0 {
      BuildSucceeds(basis, assessments, n - 1);
      var entries := Build(basis, assessments, n - 1).value;
      AddOnlyAmbiguous(basis, assessments, n - 1, entries);
      BuildStep(basis, assessments, n - 1, entries);
    }
  }

  lemma FailureStays(basis: Basis, assessments: seq<Assessment>, n: nat)
    requires n < |assessments| && Build(basis, assessments, n).Failure?
    ensures Build(basis, assessments, n + 1) == Build(basis, assessments, n)
  {
  }

  lemma {:induction false} BuildFails(basis: Basis, assessments: seq<Assessment>, n: nat)
    requires n <= |assessments| && AllAllResolve(basis, assessments, |assessments|) && DistinctClaims(assessments)
    requires AmbiguousBefore(assessments, n)
    ensures Build(basis, assessments, n) == Failure(AmbiguousVersions)
  {
    if AmbiguousBefore(assessments, n - 1) {
      BuildFails(basis, assessments, n - 1);
      FailureStays(basis, assessments, n - 1);
    } else {
      FirstAmbiguous(basis, assessments, n - 1);
    }
  }

  lemma FirstAmbiguous(basis: Basis, assessments: seq<Assessment>, n: nat)
    requires n < |assessments| && AllAllResolve(basis, assessments, |assessments|) && DistinctClaims(assessments)
    requires AmbiguousBefore(assessments, n + 1) && !AmbiguousBefore(assessments, n)
    ensures Build(basis, assessments, n + 1) == Failure(AmbiguousVersions)
  {
    BuildSucceeds(basis, assessments, n);
    var entries := Build(basis, assessments, n).value;
    AddOnlyAmbiguous(basis, assessments, n, entries);
    BuildStep(basis, assessments, n, entries);
  }

  lemma ClaimsDiffer(project: string, assessments: seq<Assessment>)
    requires SoundIdentities(project, assessments)
    ensures DistinctClaims(assessments)
  {
  }

  /**
    A valid report that passes the opening checks can be refused for one reason only, and
    exactly when it holds: it names one rule, origin and resource under two versions. The
    duplicate-context error and a dangling reference cannot arise.
   */
  lemma OnlyAmbiguousVersions(report: Report, support: Support, review: Review)
    requires ValidReport(report) && BasisOf(report, support, review).Success?
    ensures SideOf(report, support, review).Failure? <==> AmbiguousBefore(report.assessments, |report.assessments|)
    ensures SideOf(report, support, review).Failure? ==> SideOf(report, support, review).error == AmbiguousVersions
  {
    var basis, assessments := BasisOf(report, support, review).value, report.assessments;
    forall i | 0 <= i < |assessments|
      ensures AllResolve(basis, assessments[i])
    {
      forall k | 0 <= k < |assessments[i].uses|
        ensures Resolves(basis, assessments[i].uses[k])
      {
        SelectedResolves(report, support, review, assessments[i].uses[k]);
      }
    }
    ClaimsDiffer(report.project, assessments);
    if AmbiguousBefore(assessments, |assessments|) {
      BuildFails(basis, assessments, |assessments|);
    } else {
      BuildSucceeds(basis, assessments, |assessments|);
    }
  }

  // ---------------------------------------------------------------- findings of a correlation

  /** The findings of a correlation carry its project. */
  lemma CorrelatedOwn(project: string, sources: seq<RunSource>, parsing: Parsing)
    requires Correlated(project, sources, parsing).Success?
    ensures OwnFindings(Correlated(project, sources, parsing).value)
  {
    var c := CorrelatedParts(project, sources, parsing);
    forall f | f in FindingsOf(c)
      ensures f.project == c.project
    {
      var r := FindingOccurs(project, sources, parsing, f);
    }
  }

  /** Every finding groups at least one match of a selected run, under its own project. */
  lemma FindingOccurs(project: string, sources: seq<RunSource>, parsing: Parsing, f: FindingIdentity) returns (r: SourceRef)
    requires Correlated(project, sources, parsing).Success?
    requires f in FindingsOf(Correlated(project, sources, parsing).value)
    ensures f.project == project
    ensures var c := Correlated(project, sources, parsing).value;
            r in FindingRefs(c, f) && r.MatchRef?
            && exists i :: 0 <= i < |c.sources| && c.sources[i].runId == r.runId && r.ordinal < |c.sources[i].report.matches|
  {
    var c := CorrelatedParts(project, sources, parsing);
    var m := Finding(f);
    assert m in c.groups;
    r :| r in c.groups[m] by {
      GroupMembers(project, c.sources, parsing, m, ContextRef(0));
      var q :| q in c.groups[m];
    }
    GroupMembers(project, c.sources, parsing, m, r);
    var i :| 0 <= i < |c.sources| && Contributes(project, c.sources[i], Event(m, r), parsing);
    var s := c.sources[i];
    match r
    case ContextRef(_) =>
      ContextPlain(s.webTarget);
      assert false;
    case ObservationRef(_, n) =>
      OneAssertion(s.report.observations[n], parsing, m);
      assert false;
    case MatchRef(_, n) =>
      OneFinding(project, s.report.matches[n], parsing, m);
  }

  lemma ContextPlain(target: Option<WebTarget>)
    ensures NoOccurrences(ContextMarks(target))
  {
    if target.Some? {
      AddressItemsPlain(target.value.origin, target.value.addresses);
    }
  }

  // ---------------------------------------------------------------- what stored assessments cite

  /** Every use is a stored capture of one of these runs. */
  predicate CitesRuns(uses: seq<Use>, runs: set<Uuid>) {
    forall i | 0 <= i < |uses| :: uses[i].ExistingCapture? && uses[i].source.runId in runs && uses[i].facts != []
  }

  lemma CitesJoin(x: seq<Use>, y: seq<Use>, runs: set<Uuid>)
    requires CitesRuns(x, runs) && CitesRuns(y, runs)
    ensures CitesRuns(x + y, runs)
  {
  }

  predicate OccursIn(occurrences: seq<Occurrence>, runs: set<Uuid>) {
    forall i | 0 <= i < |occurrences| :: occurrences[i].ref.runId in runs
  }

  lemma {:induction false} RunOccurrencesIn(s: RunSource, n: nat, refs: set<SourceRef>, runs: set<Uuid>)
    requires n <= |s.report.matches| && s.runId in runs
    ensures OccursIn(RunOccurrences(s, n, refs), runs)
  {
    if n > 0 {
      RunOccurrencesIn(s, n - 1, refs, runs);
    }
  }

  lemma {:induction false} OccurrencesIn(sources: seq<RunSource>, n: nat, refs: set<SourceRef>)
    requires n <= |sources|
    ensures OccursIn(Occurrences(sources, n, refs), RunIds(sources))
  {
    if n > 0 {
      OccurrencesIn(sources, n - 1, refs);
      assert sources[n - 1].runId in RunIds(sources);
      RunOccurrencesIn(sources[n - 1], |sources[n - 1].report.matches|, refs, RunIds(sources));
    }
  }

  lemma {:induction false} UsesCite(occurrences: seq<Occurrence>, n: nat, runs: set<Uuid>)
    requires n <= |occurrences| && OccursIn(occurrences, runs)
    ensures CitesRuns(UsesOf(occurrences, n), runs)
  {
    if n > 0 {
      UsesCite(occurrences, n - 1, runs);
      CitesJoin(UsesOf(occurrences, n - 1), MatchUses(occurrences[n - 1].ref, occurrences[n - 1].hit), runs);
    }
  }

  predicate RunsAmong(list: seq<RunSource>, runs: set<Uuid>) {
    forall i | 0 <= i < |list| :: list[i].runId in runs
  }

  lemma {:induction false} NucleiAmong(sources: seq<RunSource>, n: nat, origin: Origin)
    requires n <= |sources|
    ensures RunsAmong(NucleiRuns(sources, n, origin), RunIds(sources))
  {
    if n > 0 {
      NucleiAmong(sources, n - 1, origin);
      assert sources[n - 1].runId in RunIds(sources);
    }
  }

  predicate SightedIn(sightings: seq<Sighting>, runs: set<Uuid>) {
    forall i | 0 <= i < |sightings| ::
      sightings[i].use.ExistingCapture? && sightings[i].use.source.runId in runs && sightings[i].use.facts != []
  }

  lemma {:induction false} RunSightingsIn(s: RunSource, n: nat, runs: set<Uuid>)
    requires n <= |s.report.observations| && s.runId in runs
    ensures SightedIn(RunSightings(s, n), runs)
  {
    if n > 0 {
      RunSightingsIn(s, n - 1, runs);
    }
  }

  lemma {:induction false} SightingsIn(sources: seq<RunSource>, n: nat)
    requires n <= |sources|
    ensures SightedIn(Sightings(sources, n), RunIds(sources))
  {
    if n > 0 {
      SightingsIn(sources, n - 1);
      assert sources[n - 1].runId in RunIds(sources);
      RunSightingsIn(sources[n - 1], |sources[n - 1].report.observations|, RunIds(sources));
    }
  }

  lemma {:induction false} UsesForCite(sightings: seq<Sighting>, origin: Origin, runs: set<Uuid>)
    requires SightedIn(sightings, runs)
    ensures CitesRuns(UsesFor(sightings, origin), runs)
  {
    if sightings != [] {
      UsesForCite(sightings[..|sightings| - 1], origin, runs);
    }
  }

  /** Whatever a correlation yields under an identity bears that identity and cites selected runs. */
  lemma ExpectedCites(c: CorrelationResult, id: AssessmentId, review: Review)
    requires Expected(c, id, review).Some?
    ensures var a := Expected(c, id, review).value;
            && a.id == id && a.claim == id.claim && id.project == c.project && id.claim.version == RULE_VERSION
            && a.prerequisites != []
            && CitesRuns(a.uses, RunIds(c.sources))
  {
    var claim := id.claim;
    if FindingUnder(c, claim).Some? {
      var f := FindingUnder(c, claim).value;
      assert FindingClaim(f) == claim;
      var occurrences := FindingOccurrences(c, f);
      OccurrencesIn(c.sources, |c.sources|, FindingRefs(c, f));
      UsesCite(occurrences, |occurrences|, RunIds(c.sources));
    } else if Missing(c, claim) {
      NucleiAmong(c.sources, |c.sources|, claim.origin);
    } else {
      SightingsIn(c.sources, |c.sources|);
      UsesForCite(AllSightings(c), claim.origin, RunIds(c.sources));
    }
  }

  /** Every match carries evidence, as the record of a match requires. */
  predicate Evidenced(sources: seq<RunSource>) {
    forall i, k | 0 <= i < |sources| && 0 <= k < |sources[i].report.matches| :: sources[i].report.matches[k].evidence != []
  }

  lemma {:induction false} RunOccurrencesFound(s: RunSource, n: nat, refs: set<SourceRef>, k: nat)
    requires k < n <= |s.report.matches| && MatchRef(s.runId, k) in refs
    requires s.report.matches[k].evidence != []
    ensures exists i :: 0 <= i < |RunOccurrences(s, n, refs)| && RunOccurrences(s, n, refs)[i].hit.evidence != []
  {
    var all := RunOccurrences(s, n, refs);
    if k < n - 1 {
      RunOccurrencesFound(s, n - 1, refs, k);
      var before := RunOccurrences(s, n - 1, refs);
      var i :| 0 <= i < |before| && before[i].hit.evidence != [];
      assert all[i] == before[i];
    } else {
      assert all[|all| - 1].hit == s.report.matches[k];
    }
  }

  lemma {:induction false} OccurrencesFound(sources: seq<RunSource>, n: nat, refs: set<SourceRef>, i: nat, k: nat)
    requires i < n <= |sources| && k < |sources[i].report.matches|
    requires MatchRef(sources[i].runId, k) in refs && sources[i].report.matches[k].evidence != []
    ensures exists j :: 0 <= j < |Occurrences(sources, n, refs)| && Occurrences(sources, n, refs)[j].hit.evidence != []
  {
    var all, before := Occurrences(sources, n, refs), Occurrences(sources, n - 1, refs);
    var s := sources[n - 1];
    var own := RunOccurrences(s, |s.report.matches|, refs);
    assert all == before + own;
    if i < n - 1 {
      OccurrencesFound(sources, n - 1, refs, i, k);
      var j :| 0 <= j < |before| && before[j].hit.evidence != [];
      assert all[j] == before[j];
    } else {
      RunOccurrencesFound(s, |s.report.matches|, refs, k);
      var j :| 0 <= j < |own| && own[j].hit.evidence != [];
      assert all[|before| + j] == own[j];
    }
  }

  lemma {:induction false} UsesFound(occurrences: seq<Occurrence>, n: nat, j: nat)
    requires j < n <= |occurrences| && occurrences[j].hit.evidence != []
    ensures UsesOf(occurrences, n) != []
  {
    if j < n - 1 {
      UsesFound(occurrences, n - 1, j);
    } else {
      assert |MatchUses(occurrences[j].ref, occurrences[j].hit)| > 0;
    }
  }

  /** No assessment of stored evidence cites nothing. */
  lemma ExpectedHasEvidence(project: string, sources: seq<RunSource>, parsing: Parsing, id: AssessmentId, review: Review)
    requires Correlated(project, sources, parsing).Success?
    requires Evidenced(Correlated(project, sources, parsing).value.sources)
    requires Expected(Correlated(project, sources, parsing).value, id, review).Some?
    ensures Expected(Correlated(project, sources, parsing).value, id, review).value.uses != []
  {
    var c := Correlated(project, sources, parsing).value;
    if FindingUnder(c, id.claim).Some? {
      var f := FindingUnder(c, id.claim).value;
      var r := FindingOccurs(project, sources, parsing, f);
      var i :| 0 <= i < |c.sources| && c.sources[i].runId == r.runId && r.ordinal < |c.sources[i].report.matches|;
      OccurrencesFound(c.sources, |c.sources|, FindingRefs(c, f), i, r.ordinal);
      var occurrences := FindingOccurrences(c, f);
      var j :| 0 <= j < |occurrences| && occurrences[j].hit.evidence != [];
      UsesFound(occurrences, |occurrences|, j);
    }
  }

  // ---------------------------------------------------------------- the report fed back

  function ReportOf(c: CorrelationResult, list: seq<Assessment>): Report {
    CaptureReport(c.project, seq(|c.sources|, i requires 0 <= i < |c.sources| => c.sources[i].runId), list)
  }

  lemma OwnReportIds(c: CorrelationResult, list: seq<Assessment>)
    ensures var runIds := ReportOf(c, list).runIds;
            && (set i | 0 <= i < |runIds| :: runIds[i]) == RunIds(c.sources)
            && (forall r :: r in runIds <==> r in RunIds(c.sources))
  {
    var runIds := ReportOf(c, list).runIds;
    assert forall i | 0 <= i < |c.sources| :: runIds[i] == c.sources[i].runId;
    forall r | r in RunIds(c.sources)
      ensures r in (set i | 0 <= i < |runIds| :: runIds[i]) && r in runIds
    {
      var i :| 0 <= i < |c.sources| && c.sources[i].runId == r;
      assert runIds[i] == r;
    }
  }

  /**
    `assess_correlation` against its validator: the report it makes of a correlation always
    has distinct identities that match their claims, and cites selected runs only.
   */
  lemma OwnReportValid(project: string, sources: seq<RunSource>, parsing: Parsing, list: seq<Assessment>, review: Review)
    requires Correlated(project, sources, parsing).Success?
    requires Evidenced(Correlated(project, sources, parsing).value.sources)
    requires ListsAll(list, Correlated(project, sources, parsing).value, review)
    ensures ValidReport(ReportOf(Correlated(project, sources, parsing).value, list))
  {
    var c := CorrelatedParts(project, sources, parsing);
    var report := ReportOf(c, list);
    OwnReportIds(c, list);
    forall i | 0 <= i < |list|
      ensures list[i].id == AssessmentId(project, list[i].claim) && ValidAssessment(list[i])
      ensures forall k | 0 <= k < |list[i].uses| :: Selected(report, list[i].uses[k])
    {
      ExpectedCites(c, list[i].id, review);
      ExpectedHasEvidence(project, sources, parsing, list[i].id, review);
    }
  }

  lemma OwnVersions(c: CorrelationResult, list: seq<Assessment>, review: Review)
    requires ListsAll(list, c, review)
    ensures !AmbiguousBefore(list, |list|)
  {
    forall i | 0 <= i < |list|
      ensures list[i].claim.version == RULE_VERSION
    {
      ExpectedCites(c, list[i].id, review);
    }
  }

  /** The evidence of an assessment that is the expected one is valid wherever its rule is known. */
  lemma OwnViewsValid(basis: Basis, a: Assessment, address: Option<Address>)
    requires basis.CaptureBasis? && AllResolve(basis, a) && KnownRule(a.claim)
    requires Expected(basis.correlation, a.id, basis.review) == Some(a)
    ensures AllValid(BoundViews(basis, a, address))
  {
    assert SameAssessmentEvidence(a, Some(a));
    forall v | v in BoundViews(basis, a, address)
      ensures v.valid
    {
      var i :| 0 <= i < |a.uses| && ViewOf(basis, a, a.uses[i]).address == address && v == ViewOf(basis, a, a.uses[i]);
    }
  }

  /**
    Fed back with its own correlation, whatever health was verified, the report is never
    refused, and every entry of a known rule is semantically valid.
   */
  lemma OwnReportAccepted(
    project: string, sources: seq<RunSource>, parsing: Parsing, list: seq<Assessment>, review: Review,
    health: Option<map<(Uuid, Digest), Health>>)
    requires Correlated(project, sources, parsing).Success?
    requires Evidenced(Correlated(project, sources, parsing).value.sources)
    requires ListsAll(list, Correlated(project, sources, parsing).value, review)
    ensures var c := Correlated(project, sources, parsing).value;
            var side := SideOf(ReportOf(c, list), Support(Some(c), None, health), review);
            && side.Success?
            && forall k | k in side.value ::
                 side.value[k].semanticsValid <==> KnownRule(side.value[k].assessment.claim)
  {
    var c := CorrelatedParts(project, sources, parsing);
    var report, support := ReportOf(c, list), Support(Some(c), None, health);
    OwnReportIds(c, list);
    OwnReportValid(project, sources, parsing, list, review);
    OwnVersions(c, list, review);
    OnlyAmbiguousVersions(report, support, review);
    var basis := CaptureBasis(c, health, review);
    assert BasisOf(report, support, review) == Success(basis);
    var entries := SideOf(report, support, review).value;
    forall k | k in entries
      ensures entries[k].semanticsValid <==> KnownRule(entries[k].assessment.claim)
    {
      OwnEntryValid(project, sources, parsing, list, review, basis, entries, k);
    }
  }

  lemma {:induction false} OwnEntryValid(
    project: string, sources: seq<RunSource>, parsing: Parsing, list: seq<Assessment>, review: Review,
    basis: Basis, entries: Entries, k: ContextKey)
    requires Correlated(project, sources, parsing).Success?
    requires Evidenced(Correlated(project, sources, parsing).value.sources)
    requires ListsAll(list, Correlated(project, sources, parsing).value, review)
    requires basis.CaptureBasis? && basis.review == review
    requires basis.correlation == Correlated(project, sources, parsing).value
    requires Build(basis, list, |list|) == Success(entries) && k in entries
    ensures entries[k].semanticsValid <==> KnownRule(entries[k].assessment.claim)
  {
    var i := AssessmentBehind(basis, list, entries, k);
    var a := list[i];
    ExpectedHasEvidence(project, sources, parsing, a.id, review);
    ValidRule(basis, a, k.address, entries[k]);
    if KnownRule(a.claim) {
      OwnViewsValid(basis, a, k.address);
    }
  }

  // ---------------------------------------------------------------- stored evidence resolves nothing

  /** Stored evidence never supports the absence of an exposure, nor of the HSTS header. */
  predicate StoredOutcome(a: Assessment) {
    && (a.claim.rule == HstsMissing ==> a.outcome != SupportedPositive)
    && (a.claim.rule != HstsMissing ==> a.outcome != SupportedNegative)
  }

  lemma ExpectedOutcome(c: CorrelationResult, id: AssessmentId, review: Review)
    requires Expected(c, id, review).Some?
    ensures StoredOutcome(Expected(c, id, review).value)
  {
    ExpectedCites(c, id, review);
  }

  /** The evidence of stored captures counts only where the outcome is the expected one. */
  lemma CaptureSupports(basis: Basis, a: Assessment, address: Option<Address>, outcome: Outcome)
    requires basis.CaptureBasis? && AllResolve(basis, a) && Supports(basis, a, address, outcome)
    ensures Expected(basis.correlation, a.id, basis.review).Some?
    ensures Expected(basis.correlation, a.id, basis.review).value.outcome == outcome
  {
    var v :| v in BoundViews(basis, a, address);
    var i :| 0 <= i < |a.uses| && ViewOf(basis, a, a.uses[i]).address == address && v == ViewOf(basis, a, a.uses[i]);
  }

  /**
    Two selections of stored captures never make a context `resolved`, whatever assessments
    the reports list: the state needs a fresh recheck on one side.
   */
  lemma {:induction false} CapturesNeverResolve(
    before: Basis, baseline: seq<Assessment>, b: Entries, after: Basis, current: seq<Assessment>, c: Entries,
    key: ContextKey, templates: map<string, string>)
    requires before.CaptureBasis? && after.CaptureBasis?
    requires Build(before, baseline, |baseline|) == Success(b) && Build(after, current, |current|) == Success(c)
    requires forall i | 0 <= i < |baseline| :: baseline[i].id.claim == baseline[i].claim
    requires forall j | 0 <= j < |current| :: current[j].id.claim == current[j].claim
    ensures Conclude(key.address, EntryAt(b, key), EntryAt(c, key), templates).state != Resolved
  {
    if Conclude(key.address, EntryAt(b, key), EntryAt(c, key), templates).state == Resolved {
      var i, j := ResolvedNeeds(before, baseline, b, after, current, c, key, templates);
      CaptureSupports(before, baseline[i], key.address, SupportedPositive);
      CaptureSupports(after, current[j], key.address, SupportedNegative);
      ExpectedOutcome(before.correlation, baseline[i].id, before.review);
      ExpectedOutcome(after.correlation, current[j].id, after.review);
      ExpectedCites(before.correlation, baseline[i].id, before.review);
      ExpectedCites(after.correlation, current[j].id, after.review);
      assert false;
    }
  }
}

/**
  `compare._build_side` and `compare.compare_assessments`: evidence gathered by backend
  address, and the entries of two selections compared context by context.
 */
module ComparisonSides {
  import opened Capture
  import opened Comparison
  import opened Correlation
  import opened Evidence
  import opened Runs
  import opened Wrappers

  datatype ComparisonError =
    | DifferentProjects
    | CaptureWithAcquisitionHealth
    | CorrelationRequired
    | SelectionMismatch
    | ForeignSource
    | FreshWithCorrelation
    | DanglingReference
    | AmbiguousVersions
    | DuplicateContext

  datatype Report =
    | CaptureReport(project: string, runIds: seq<Uuid>, assessments: seq<Assessment>)
    | FreshReport(project: string, acquisitions: seq<Acquisition>, assessments: seq<Assessment>)

  // ---------------------------------------------------------------- gathering by address

  /** What has been gathered for one address: the dictionaries of `_build_side`, taken together. */
  datatype Tally = Tally(
    uses: seq<Use>, observed: seq<Time>, copies: map<Option<Digest>, Option<HealthReason>>,
    windows: seq<Option<Window>>, valid: bool)

  const NO_TALLY := Tally([], [], map[], [], true)

  /** One readable identical copy suffices; otherwise the first failure recorded stays. */
  function AddCopy(copies: map<Option<Digest>, Option<HealthReason>>, v: View): map<Option<Digest>, Option<HealthReason>> {
    if v.digest !in copies || v.healthy then copies[v.digest := v.reason] else copies
  }

  function AddView(t: Tally, v: View): Tally {
    Tally(
      t.uses + [v.use], t.observed + [v.capturedAt], AddCopy(t.copies, v), t.windows + [v.window], t.valid && v.valid)
  }

  /** The views at one address, in order. */
  function At(views: seq<View>, address: Option<Address>): seq<View> {
    if views == [] then []
    else
      var last := views[|views| - 1];
      At(views[..|views| - 1], address) + (if last.address == address then [last] else [])
  }

  function TallyOf(views: seq<View>): Tally {
    if views == [] then NO_TALLY else AddView(TallyOf(views[..|views| - 1]), views[|views| - 1])
  }

  function AllResolve(basis: Basis, a: Assessment): bool {
    forall i | 0 <= i < |a.uses| :: Resolves(basis, a.uses[i])
  }

  function ViewsOf(basis: Basis, a: Assessment): (views: seq<View>)
    requires AllResolve(basis, a)
    ensures |views| == |a.uses|
  {
    seq(|a.uses|, i requires 0 <= i < |a.uses| => ViewOf(basis, a, a.uses[i]))
  }

  function Addresses(views: seq<View>): set<Option<Address>> {
    set i | 0 <= i < |views| :: views[i].address
  }

  /** The first of the recorded failures, as their codes sort. */
  function FirstReason(copies: map<Option<Digest>, Option<HealthReason>>): Option<HealthReason> {
    if Some(NoEvidenceContext) in copies.Values then Some(NoEvidenceContext)
    else if Some(CaptureHealthUnverified) in copies.Values then Some(CaptureHealthUnverified)
    else if Some(EvidenceArtifactUnavailable) in copies.Values then Some(EvidenceArtifactUnavailable)
    else if Some(EvidenceArtifactUnhealthy) in copies.Values then Some(EvidenceArtifactUnhealthy)
    else if Some(FreshArtifactUnhealthy) in copies.Values then Some(FreshArtifactUnhealthy)
    else if Some(FreshHealthUnverified) in copies.Values then Some(FreshHealthUnverified)
    else None
  }

  function DigestsOf(copies: map<Option<Digest>, Option<HealthReason>>): set<Digest> {
    set d | d in copies.Keys && d.Some? :: d.value
  }

  function EntryOf(a: Assessment, address: Option<Address>, t: Tally): Entry {
    var span := Span(t.windows);
    Entry(
      a, address, t.uses, set i | 0 <= i < |t.observed| :: t.observed[i],
      forall d | d in t.copies :: t.copies[d].None?, FirstReason(t.copies), t.valid,
      match span case Some(w) => Some(w.start) case None => None,
      match span case Some(w) => Some(w.end) case None => None,
      DigestsOf(t.copies))
  }

  function KeyOf(a: Assessment, address: Option<Address>): ContextKey {
    ContextKey(a.claim.rule, a.claim.origin, a.claim.resource, address)
  }

  type Entries = map<ContextKey, Entry>

  /** An assessment that cites nothing still has a place: an unhealthy one, at no address. */
  const NO_EVIDENCE := Tally([], [], map[None := Some(NoEvidenceContext)], [], false)

  /** The entries of one assessment, one for each address its evidence is bound to. */
  function EntriesOf(basis: Basis, a: Assessment): Entries
    requires AllResolve(basis, a)
  {
    if a.uses == [] then map[KeyOf(a, None) := EntryOf(a, None, NO_EVIDENCE)]
    else EntriesAt(a, ViewsOf(basis, a))
  }

  function EntriesAt(a: Assessment, views: seq<View>): Entries {
    map k | k in KeysOf(a, views) :: EntryOf(a, k.address, TallyOf(At(views, k.address)))
  }

  function KeysOf(a: Assessment, views: seq<View>): set<ContextKey> {
    set address | address in Addresses(views) :: KeyOf(a, address)
  }

  predicate SameSemantics(a: Assessment, b: Assessment) {
    a.claim.rule == b.claim.rule && a.claim.origin == b.claim.origin && a.claim.resource == b.claim.resource
  }

  /** Assessment `n` names a claim that an earlier one names under another rule version. */
  predicate Ambiguous(assessments: seq<Assessment>, n: nat)
    requires n < |assessments|
  {
    exists i :: 0 <= i < n && SameSemantics(assessments[i], assessments[n])
                && assessments[i].claim.version != assessments[n].claim.version
  }

  /** Assessment `n` added to the entries of those before it. */
  function AddAssessment(basis: Basis, assessments: seq<Assessment>, n: nat, entries: Entries): Result<Entries, ComparisonError>
    requires n < |assessments|
  {
    var a := assessments[n];
    if Ambiguous(assessments, n) then Failure(AmbiguousVersions)
    else if !AllResolve(basis, a) then Failure(DanglingReference)
    else if entries.Keys * EntriesOf(basis, a).Keys != {} then Failure(DuplicateContext)
    else Success(entries + EntriesOf(basis, a))
  }

  /** The first `n` assessments, gathered. */
  function Build(basis: Basis, assessments: seq<Assessment>, n: nat): Result<Entries, ComparisonError>
    requires n <= |assessments|
  {
    if n == 0 then Success(map[])
    else
      match Build(basis, assessments, n - 1)
      case Failure(e) => Failure(e)
      case Success(entries) => AddAssessment(basis, assessments, n - 1, entries)
  }

  /** What a caller supplies beside a report: a projection and the verified artifact health. */
  datatype Support = Support(
    correlation: Option<CorrelationResult>,
    acquisitionHealth: Option<map<Uuid, Health>>,
    captureHealth: Option<map<(Uuid, Digest), Health>>)

  /** The checks that open `_build_side`, and `_capture_sources`. */
  function BasisOf(report: Report, support: Support, review: Review): Result<Basis, ComparisonError> {
    match report
    case CaptureReport(project, runIds, _) =>
      if support.acquisitionHealth.Some? then Failure(CaptureWithAcquisitionHealth)
      else if support.correlation.None? then Failure(CorrelationRequired)
      else
        var c := support.correlation.value;
        if c.project != project || (set i | 0 <= i < |runIds| :: runIds[i]) != RunIds(c.sources) then
          Failure(SelectionMismatch)
        else if exists i :: 0 <= i < |c.sources| && c.sources[i].project != project then Failure(ForeignSource)
        else Success(CaptureBasis(c, support.captureHealth, review))
    case FreshReport(_, acquisitions, _) =>
      if support.correlation.Some? || support.captureHealth.Some? then Failure(FreshWithCorrelation)
      else Success(FreshBasis(acquisitions, support.acquisitionHealth))
  }

  function SideOf(report: Report, support: Support, review: Review): Result<Entries, ComparisonError> {
    match BasisOf(report, support, review)
    case Failure(e) => Failure(e)
    case Success(basis) => Build(basis, report.assessments, |report.assessments|)
  }

  // ---------------------------------------------------------------- the comparison

  /** `comparison_id`: a digest of the project and exactly the parts of the context. */
  datatype ComparisonId = ComparisonId(project: string, key: ContextKey)

  datatype Reference = Reference(
    id: AssessmentId, version: string, outcome: Outcome, reason: Reason, ready: bool, observedAt: set<Time>,
    startedAt: Option<Time>, finishedAt: Option<Time>, evidence: seq<Use>)

  function ReferenceTo(e: Option<Entry>): Option<Reference> {
    match e
    case None => None
    case Some(x) =>
      Some(Reference(
        x.assessment.id, x.assessment.claim.version, x.assessment.outcome, x.assessment.reason, x.healthy,
        x.observedAt, x.startedAt, x.finishedAt, x.evidence))
  }

  datatype HistoricalComparison = HistoricalComparison(
    id: ComparisonId, key: ContextKey, conclusion: Conclusion, baseline: Option<Reference>, current: Option<Reference>)

  function EntryAt(entries: Entries, key: ContextKey): Option<Entry> {
    if key in entries then Some(entries[key]) else None
  }

  function Compare(project: string, key: ContextKey, baseline: Entries, current: Entries, templates: map<string, string>)
    : HistoricalComparison
  {
    var b, c := EntryAt(baseline, key), EntryAt(current, key);
    HistoricalComparison(
      ComparisonId(project, key), key, Conclude(key.address, b, c, templates), ReferenceTo(b), ReferenceTo(c))
  }

  /** The validator of a comparison report. */
  predicate ValidComparisons(project: string, results: seq<HistoricalComparison>) {
    && (forall i, j | 0 <= i < j < |results| :: results[i].id != results[j].id)
    && (forall i | 0 <= i < |results| :: results[i].id == ComparisonId(project, results[i].key))
    && (forall i | 0 <= i < |results| && results[i].conclusion.state == Resolved ::
          && results[i].baseline.Some? && results[i].baseline.value.outcome == SupportedPositive
          && results[i].current.Some? && results[i].current.value.outcome == SupportedNegative
          && results[i].conclusion.coverage.status == Comparable)
  }

  /** The reference to an entry says what the entry records. */
  predicate Refers(r: Option<Reference>, entries: Entries, key: ContextKey) {
    && (r.Some? <==> key in entries)
    && (r.Some? ==>
          && r.value.id == entries[key].assessment.id && r.value.version == entries[key].assessment.claim.version
          && r.value.outcome == entries[key].assessment.outcome && r.value.reason == entries[key].assessment.reason
          && (r.value.ready <==> entries[key].healthy)
          && r.value.observedAt == entries[key].observedAt && r.value.evidence == entries[key].evidence
          && r.value.startedAt == entries[key].startedAt && r.value.finishedAt == entries[key].finishedAt)
  }

  /** The result compares the baseline's entry at its context with the current one. */
  predicate Reports(
    x: HistoricalComparison, project: string, baseline: Entries, current: Entries, templates: map<string, string>)
  {
    && x.id.project == project && x.id.key == x.key
    && x.conclusion == Conclude(x.key.address, EntryAt(baseline, x.key), EntryAt(current, x.key), templates)
    && Refers(x.baseline, baseline, x.key) && Refers(x.current, current, x.key)
  }

  /** One result for every context of either side, and no other. */
  predicate Covers(
    results: seq<HistoricalComparison>, keys: set<ContextKey>, project: string,
    baseline: Entries, current: Entries, templates: map<string, string>)
  {
    && (forall i, j | 0 <= i < j < |results| :: results[i].key != results[j].key)
    && (forall i | 0 <= i < |results| ::
          results[i].key in keys && Reports(results[i], project, baseline, current, templates))
    && (forall key | key in keys :: exists i :: 0 <= i < |results| && results[i].key == key)
  }

  // ---------------------------------------------------------------- the loops

  /** The tallies by address, after the first `n` uses. */
  predicate Gathered(tallies: map<Option<Address>, Tally>, views: seq<View>, n: nat)
    requires n <= |views|
  {
    && tallies.Keys == Addresses(views[..n])
    && forall address | address in tallies :: tallies[address] == TallyOf(At(views[..n], address))
  }

  lemma {:induction false} AtAppend(views: seq<View>, n: nat, address: Option<Address>)
    requires n < |views|
    ensures At(views[..n + 1], address)
            == At(views[..n], address) + (if views[n].address == address then [views[n]] else [])
  {
    assert views[..n + 1][..n] == views[..n];
  }

  lemma {:induction false} NoneAt(views: seq<View>, address: Option<Address>)
    requires address !in Addresses(views)
    ensures At(views, address) == []
  {
    if views != [] {
      var rest := views[..|views| - 1];
      assert views[|views| - 1].address in Addresses(views);
      assert forall i | 0 <= i < |rest| :: rest[i] == views[i];
      NoneAt(rest, address);
    }
  }

  lemma {:induction false} TallyAppend(views: seq<View>, v: View)
    ensures TallyOf(views + [v]) == AddView(TallyOf(views), v)
  {
    assert (views + [v])[..|views|] == views;
  }

  function Gather(tallies: map<Option<Address>, Tally>, v: View): map<Option<Address>, Tally> {
    tallies[v.address := AddView(if v.address in tallies then tallies[v.address] else NO_TALLY, v)]
  }

  lemma GatherNext(tallies: map<Option<Address>, Tally>, views: seq<View>, n: nat)
    requires n < |views| && Gathered(tallies, views, n)
    ensures Gathered(Gather(tallies, views[n]), views, n + 1)
  {
    var v := views[n];
    assert views[..n + 1] == views[..n] + [v];
    assert Addresses(views[..n + 1]) == Addresses(views[..n]) + {v.address} by {
      AddressesAppend(views[..n], v);
    }
    if v.address !in tallies {
      NoneAt(views[..n], v.address);
    }
    forall address | address in Gather(tallies, v)
      ensures Gather(tallies, v)[address] == TallyOf(At(views[..n + 1], address))
    {
      AtAppend(views, n, address);
      TallyAppend(At(views[..n], address), v);
      assert At(views[..n], address) + [] == At(views[..n], address);
    }
  }

  lemma AddressesAppend(views: seq<View>, v: View)
    ensures Addresses(views + [v]) == Addresses(views) + {v.address}
  {
    var more := views + [v];
    assert more[|views|] == v;
    forall x | x in Addresses(views)
      ensures x in Addresses(more)
    {
      var i :| 0 <= i < |views| && views[i].address == x;
      assert more[i] == views[i];
    }
  }

  function FromTallies(a: Assessment, tallies: map<Option<Address>, Tally>): Entries {
    map k | k in (set address | address in tallies :: KeyOf(a, address)) :: EntryOf(a, k.address, tallies[k.address])
  }

  lemma TalliesGiveEntries(basis: Basis, a: Assessment, tallies: map<Option<Address>, Tally>)
    requires AllResolve(basis, a) && a.uses != [] && Gathered(tallies, ViewsOf(basis, a), |a.uses|)
    ensures FromTallies(a, tallies) == EntriesOf(basis, a)
  {
    var views := ViewsOf(basis, a);
    assert views[..|a.uses|] == views;
    EntriesFromTallies(a, views, tallies);
  }

  lemma {:induction false} EntriesFromTallies(a: Assessment, views: seq<View>, tallies: map<Option<Address>, Tally>)
    requires tallies.Keys == Addresses(views)
    requires forall address | address in tallies :: tallies[address] == TallyOf(At(views, address))
    ensures FromTallies(a, tallies) == EntriesAt(a, views)
  {
    assert KeysOf(a, views) == set address | address in tallies :: KeyOf(a, address);
    forall k | k in KeysOf(a, views)
      ensures k in FromTallies(a, tallies) && FromTallies(a, tallies)[k] == EntryOf(a, k.address, TallyOf(At(views, k.address)))
    {
      assert k.address in tallies;
    }
  }

  /** The loops of one assessment: over its uses, then over the addresses they were bound to. */
  method AssessmentEntries(basis: Basis, a: Assessment) returns (entries: Entries)
    requires AllResolve(basis, a)
    ensures entries == EntriesOf(basis, a)
  {
    if a.uses == [] {
      return map[KeyOf(a, None) := EntryOf(a, None, NO_EVIDENCE)];
    }
    ghost var views := ViewsOf(basis, a);
    var tallies: map<Option<Address>, Tally> := map[];
    for n := 0 to |a.uses|
      invariant Gathered(tallies, views, n)
    {
      GatherNext(tallies, views, n);
      tallies := Gather(tallies, ViewOf(basis, a, a.uses[n]));
    }
    entries := FromTallies(a, tallies);
    TalliesGiveEntries(basis, a, tallies);
  }

  lemma {:induction false} BuildFailure(basis: Basis, assessments: seq<Assessment>, n: nat)
    requires n <= |assessments| && Build(basis, assessments, n).Failure?
    ensures Build(basis, assessments, |assessments|) == Failure(Build(basis, assessments, n).error)
    decreases |assessments| - n
  {
    if n < |assessments| {
      BuildFailure(basis, assessments, n + 1);
    }
  }

  lemma BuildStep(basis: Basis, assessments: seq<Assessment>, n: nat, entries: Entries)
    requires n < |assessments| && Build(basis, assessments, n) == Success(entries)
    ensures Build(basis, assessments, n + 1) == AddAssessment(basis, assessments, n, entries)
  {
  }

  lemma BuildNext(basis: Basis, assessments: seq<Assessment>, n: nat, entries: Entries)
    requires n < |assessments| && Build(basis, assessments, n) == Success(entries)
    ensures var next := AddAssessment(basis, assessments, n, entries);
            && next == Build(basis, assessments, n + 1)
            && (next.Failure? ==> Build(basis, assessments, |assessments|) == next)
  {
    BuildStep(basis, assessments, n, entries);
    if Build(basis, assessments, n + 1).Failure? {
      BuildFailure(basis, assessments, n + 1);
    }
  }

  type Semantics = (RuleId, Origin, Resource)

  function SemanticsOf(a: Assessment): Semantics {
    (a.claim.rule, a.claim.origin, a.claim.resource)
  }

  /** The dictionary of rule versions by semantic key, after the first `n` assessments. */
  predicate VersionsHold(versions: map<Semantics, string>, assessments: seq<Assessment>, n: nat)
    requires n <= |assessments|
  {
    && (forall i | 0 <= i < n ::
          SemanticsOf(assessments[i]) in versions
          && versions[SemanticsOf(assessments[i])] == assessments[i].claim.version)
    && (forall k | k in versions :: (exists i :: 0 <= i < n && SemanticsOf(assessments[i]) == k))
  }

  lemma VersionsNext(versions: map<Semantics, string>, assessments: seq<Assessment>, n: nat)
    requires n < |assessments| && VersionsHold(versions, assessments, n)
    ensures var a := assessments[n];
            && (Ambiguous(assessments, n)
                <==> SemanticsOf(a) in versions && versions[SemanticsOf(a)] != a.claim.version)
            && (!Ambiguous(assessments, n) ==>
                  VersionsHold(versions[SemanticsOf(a) := a.claim.version], assessments, n + 1))
  {
    var a := assessments[n];
    if SemanticsOf(a) in versions {
      var i :| 0 <= i < n && SemanticsOf(assessments[i]) == SemanticsOf(a);
      assert SameSemantics(assessments[i], a);
    }
    var next := versions[SemanticsOf(a) := a.claim.version];
    forall k | k in next
      ensures exists i :: 0 <= i < n + 1 && SemanticsOf(assessments[i]) == k
    {
      if k in versions {
        var i :| 0 <= i < n && SemanticsOf(assessments[i]) == k;
      } else {
        assert SemanticsOf(assessments[n]) == k;
      }
    }
  }

  /** One iteration of the loop over a selection's assessments. */
  method AddOne(basis: Basis, assessments: seq<Assessment>, n: nat, entries: Entries, versions: map<Semantics, string>)
    returns (r: Result<Entries, ComparisonError>)
    requires n < |assessments| && VersionsHold(versions, assessments, n)
    ensures r == AddAssessment(basis, assessments, n, entries)
    ensures r.Success? ==>
              VersionsHold(versions[SemanticsOf(assessments[n]) := assessments[n].claim.version], assessments, n + 1)
  {
    var a := assessments[n];
    var semantic := SemanticsOf(a);
    VersionsNext(versions, assessments, n);
    if semantic in versions && versions[semantic] != a.claim.version {
      return Failure(AmbiguousVersions);
    }
    if !AllResolve(basis, a) {
      return Failure(DanglingReference);
    }
    var more := AssessmentEntries(basis, a);
    if entries.Keys * more.Keys != {} {
      return Failure(DuplicateContext);
    }
    return Success(entries + more);
  }

  /** The loop over a selection's assessments. */
  method BuildSide(report: Report, support: Support, review: Review) returns (r: Result<Entries, ComparisonError>)
    ensures r == SideOf(report, support, review)
  {
    var started := BasisOf(report, support, review);
    if started.Failure? {
      return Failure(started.error);
    }
    var basis, assessments := started.value, report.assessments;
    var entries: Entries := map[];
    var versions: map<Semantics, string> := map[];
    for n := 0 to |assessments|
      invariant Build(basis, assessments, n) == Success(entries)
      invariant VersionsHold(versions, assessments, n)
    {
      BuildNext(basis, assessments, n, entries);
      var added := AddOne(basis, assessments, n, entries, versions);
      if added.Failure? {
        return added;
      }
      versions := versions[SemanticsOf(assessments[n]) := assessments[n].claim.version];
      entries := added.value;
    }
    return Success(entries);
  }

  lemma ResolvedHasSupport(address: Option<Address>, b: Option<Entry>, c: Option<Entry>, templates: map<string, string>)
    ensures Conclude(address, b, c, templates).state == Resolved ==>
              && b.Some? && b.value.assessment.outcome == SupportedPositive
              && c.Some? && c.value.assessment.outcome == SupportedNegative
              && Conclude(address, b, c, templates).coverage.status == Comparable
  {
  }

  lemma CoversIsValid(
    results: seq<HistoricalComparison>, keys: set<ContextKey>, project: string,
    baseline: Entries, current: Entries, templates: map<string, string>)
    requires Covers(results, keys, project, baseline, current, templates)
    ensures ValidComparisons(project, results)
  {
    forall i | 0 <= i < |results| && results[i].conclusion.state == Resolved
      ensures results[i].baseline.Some? && results[i].baseline.value.outcome == SupportedPositive
      ensures results[i].current.Some? && results[i].current.value.outcome == SupportedNegative
      ensures results[i].conclusion.coverage.status == Comparable
    {
      var key := results[i].key;
      ResolvedHasSupport(key.address, EntryAt(baseline, key), EntryAt(current, key), templates);
    }
  }

  lemma CoversNext(
    results: seq<HistoricalComparison>, done: set<ContextKey>, key: ContextKey, project: string,
    baseline: Entries, current: Entries, templates: map<string, string>)
    requires Covers(results, done, project, baseline, current, templates) && key !in done
    ensures Covers(results + [Compare(project, key, baseline, current, templates)], done + {key},
                   project, baseline, current, templates)
  {
    var x := Compare(project, key, baseline, current, templates);
    var more := results + [x];
    assert more[|results|] == x;
    forall k | k in done + {key}
      ensures exists i :: 0 <= i < |more| && more[i].key == k
    {
      if k in done {
        var i :| 0 <= i < |results| && results[i].key == k;
        assert more[i].key == k;
      }
    }
  }

  /** The loop over the contexts of either side. */
  method CompareSides(project: string, baseline: Entries, current: Entries, templates: map<string, string>)
    returns (results: seq<HistoricalComparison>)
    ensures Covers(results, baseline.Keys + current.Keys, project, baseline, current, templates)
  {
    results := [];
    var pending := baseline.Keys + current.Keys;
    ghost var done: set<ContextKey> := {};
    while pending != {}
      invariant pending + done == baseline.Keys + current.Keys && pending !! done
      invariant Covers(results, done, project, baseline, current, templates)
      decreases pending
    {
      var key :| key in pending;
      CoversNext(results, done, key, project, baseline, current, templates);
      results := results + [Compare(project, key, baseline, current, templates)];
      pending, done := pending - {key}, done + {key};
    }
    assert done == baseline.Keys + current.Keys;
  }

  /**
    `compare_assessments`. The result, when there is one, has exactly one conclusion for
    each context of either side, and always satisfies the report validator.
   */
  method CompareAssessments(
    baseline: Report, current: Report, baselineSupport: Support, currentSupport: Support, review: Review)
    returns (r: Result<seq<HistoricalComparison>, ComparisonError>)
    ensures r.Failure? <==>
            || baseline.project != current.project
            || SideOf(baseline, baselineSupport, review).Failure?
            || SideOf(current, currentSupport, review).Failure?
    ensures r.Success? ==>
              var b := SideOf(baseline, baselineSupport, review).value;
              var c := SideOf(current, currentSupport, review).value;
              && Covers(r.value, b.Keys + c.Keys, baseline.project, b, c, review.templates)
              && ValidComparisons(baseline.project, r.value)
  {
    if baseline.project != current.project {
      return Failure(DifferentProjects);
    }
    var b := BuildSide(baseline, baselineSupport, review);
    if b.Failure? {
      return Failure(b.error);
    }
    var c := BuildSide(current, currentSupport, review);
    if c.Failure? {
      return Failure(c.error);
    }
    var results := CompareSides(baseline.project, b.value, c.value, review.templates);
    CoversIsValid(results, b.value.Keys + c.value.Keys, baseline.project, b.value, c.value, review.templates);
    return Success(results);
  }
}

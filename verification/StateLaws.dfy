/**
  What the historical states keep: the direction of time, their independence of the order in
  which evidence is listed, and what `resolved` says of fresh rechecks.
 */
module StateLaws {
  import opened Capture
  import opened Comparison
  import opened ComparisonLaws
  import opened ComparisonSides
  import opened Evidence
  import opened FreshContext
  import opened HistoricalStates
  import opened Runs
  import opened Wrappers

  // ---------------------------------------------------------------- the direction of time

  predicate WindowOrdered(w: Option<Window>) {
    w.Some? ==> w.value.start <= w.value.end
  }

  lemma {:induction false} SpanOrdered(windows: seq<Option<Window>>)
    requires forall i | 0 <= i < |windows| :: WindowOrdered(windows[i])
    ensures WindowOrdered(Span(windows))
  {
    if windows != [] {
      assert WindowOrdered(windows[|windows| - 1]);
      SpanOrdered(windows[..|windows| - 1]);
    }
  }

  lemma OriginalsOrdered(originals: seq<RunSource>)
    ensures WindowOrdered(Span(seq(|originals|, i requires 0 <= i < |originals| => RunWindow(originals[i]))))
  {
    SpanOrdered(seq(|originals|, i requires 0 <= i < |originals| => RunWindow(originals[i])));
  }

  lemma ViewOrdered(basis: Basis, a: Assessment, use: Use)
    requires Resolves(basis, use)
    ensures WindowOrdered(ViewOf(basis, a, use).window)
  {
    if basis.CaptureBasis? {
      var sources := basis.correlation.sources;
      var source := SourceOf(sources, use.source.runId).value;
      OriginalsOrdered(Originals(sources, source, use.evidence));
    }
  }

  predicate Forward(e: Entry) {
    e.startedAt.Some? && e.finishedAt.Some? ==> e.startedAt.value <= e.finishedAt.value
  }

  /** Every entry that is built starts no later than it finishes. */
  lemma EntryForward(basis: Basis, a: Assessment, address: Option<Address>, e: Entry)
    requires AllResolve(basis, a) && Records(basis, a, address, e)
    requires a.uses != [] ==> BoundViews(basis, a, address) != {}
    ensures Forward(e)
  {
    if e.startedAt.Some? {
      var views := BoundViews(basis, a, address);
      var v :| v in views;
      var i :| 0 <= i < |a.uses| && v == ViewOf(basis, a, a.uses[i]);
      ViewOrdered(basis, a, a.uses[i]);
    }
  }

  lemma DecisionReversed(
    key: ContextKey, b: Option<Entry>, c: Option<Entry>, templates: map<string, string>)
    requires b.Some? ==> KeyOf(b.value.assessment, b.value.address) == key && NamesRule(b.value) && Forward(b.value)
    requires c.Some? ==> KeyOf(c.value.assessment, c.value.address) == key && NamesRule(c.value) && Forward(c.value)
    requires Conclude(key.address, b, c, templates).state == Resolved
    ensures Conclude(key.address, c, b, templates).state == UnknownState
    ensures Conclude(key.address, c, b, templates).reason == CurrentEvidenceNotLater
  {
    ResolvedDecision(key, b, c, templates);
    assert TemplateRevisions(c.value) + TemplateRevisions(b.value) == TemplateRevisions(b.value) + TemplateRevisions(c.value);
    assert Compatible(c.value, b.value, templates);
    assert !IsLater(c.value, b.value);
    assert c.value.digests !! b.value.digests;
  }

  lemma {:induction false} SideEntry(basis: Basis, assessments: seq<Assessment>, entries: Entries, key: ContextKey)
    requires Build(basis, assessments, |assessments|) == Success(entries) && key in entries
    ensures var e := entries[key];
            KeyOf(e.assessment, e.address) == key && NamesRule(e) && Forward(e)
  {
    var i := AssessmentBehind(basis, assessments, entries, key);
    ValidRule(basis, assessments[i], key.address, entries[key]);
    EntryForward(basis, assessments[i], key.address, entries[key]);
  }

  /**
    Time has one direction: a context that is resolved from A to B is unknown from B to A,
    because A's evidence does not come later than B's.
   */
  lemma {:induction false} ResolvedNotReversed(
    before: Basis, baseline: seq<Assessment>, b: Entries, after: Basis, current: seq<Assessment>, c: Entries,
    key: ContextKey, templates: map<string, string>)
    requires Build(before, baseline, |baseline|) == Success(b) && Build(after, current, |current|) == Success(c)
    requires Conclude(key.address, EntryAt(b, key), EntryAt(c, key), templates).state == Resolved
    ensures Conclude(key.address, EntryAt(c, key), EntryAt(b, key), templates).state == UnknownState
    ensures Conclude(key.address, EntryAt(c, key), EntryAt(b, key), templates).reason == CurrentEvidenceNotLater
  {
    if key in b {
      SideEntry(before, baseline, b, key);
    }
    if key in c {
      SideEntry(after, current, c, key);
    }
    DecisionReversed(key, EntryAt(b, key), EntryAt(c, key), templates);
  }

  /** A selection compared with itself: nothing is new or resolved, and what is supported is unchanged or not comparable. */
  lemma {:induction false} SelfComparison(
    basis: Basis, assessments: seq<Assessment>, entries: Entries, key: ContextKey, templates: map<string, string>)
    requires Build(basis, assessments, |assessments|) == Success(entries) && key in entries
    ensures var e := entries[key];
            var state := Conclude(key.address, Some(e), Some(e), templates).state;
            && state != New && state != Resolved
            && (state == Unchanged <==>
                  && e.healthy && e.semanticsValid && e.assessment.outcome != Inconclusive
                  && key.address.Some? && RevisionsReviewed(e, e, templates) && e.digests != {})
  {
    SideEntry(basis, assessments, entries, key);
    SelfDecision(key, entries[key], templates);
  }

  lemma SelfDecision(key: ContextKey, e: Entry, templates: map<string, string>)
    requires KeyOf(e.assessment, e.address) == key && NamesRule(e) && Forward(e)
    ensures var state := Conclude(key.address, Some(e), Some(e), templates).state;
            && state != New && state != Resolved
            && (state == Unchanged <==>
                  && e.healthy && e.semanticsValid && e.assessment.outcome != Inconclusive
                  && key.address.Some? && RevisionsReviewed(e, e, templates) && e.digests != {})
  {
    assert !IsLater(e, e);
  }

  // ---------------------------------------------------------------- the order of evidence

  predicate SameElements(a: seq<Use>, b: seq<Use>) {
    Cited(a) == Cited(b)
  }

  /** The same assessment, its evidence listed in another order. */
  predicate Reordered(a: Assessment, b: Assessment) {
    && a.id == b.id && a.claim == b.claim && a.prerequisites == b.prerequisites
    && a.outcome == b.outcome && a.reason == b.reason
    && SameElements(a.uses, b.uses)
  }

  lemma ReorderedMember(a: Assessment, b: Assessment, i: nat) returns (j: nat)
    requires Reordered(a, b) && i < |a.uses|
    ensures j < |b.uses| && b.uses[j] == a.uses[i]
  {
    assert a.uses[i] in Cited(a.uses) && a.uses[i] in Cited(b.uses);
    j :| 0 <= j < |b.uses| && b.uses[j] == a.uses[i];
  }

  lemma SameNormals(a: Assessment, b: Assessment)
    requires Reordered(a, b)
    ensures NormalUses(a) <= NormalUses(b)
  {
    forall n | n in NormalUses(a)
      ensures n in NormalUses(b)
    {
      var i :| 0 <= i < |a.uses| && Normalised(a.uses[i]) == n;
      var j := ReorderedMember(a, b, i);
      assert Normalised(b.uses[j]) == n;
    }
  }

  lemma SameView(basis: Basis, a: Assessment, b: Assessment, use: Use)
    requires Reordered(a, b) && Resolves(basis, use)
    ensures ViewOf(basis, a, use) == ViewOf(basis, b, use)
  {
    SameNormals(a, b);
    SameNormals(b, a);
    if basis.CaptureBasis? {
      assert SameAssessmentEvidence(a, Expected(basis.correlation, a.id, basis.review))
             == SameAssessmentEvidence(b, Expected(basis.correlation, b.id, basis.review));
    } else {
      var q := AcquisitionOf(basis.acquisitions, use.acquisition).value;
      assert FreshContextValid(a, q, use) == FreshContextValid(b, q, use);
    }
  }

  lemma SameResolve(basis: Basis, a: Assessment, b: Assessment)
    requires Reordered(a, b) && AllResolve(basis, a)
    ensures AllResolve(basis, b)
  {
    forall j | 0 <= j < |b.uses|
      ensures Resolves(basis, b.uses[j])
    {
      var i := ReorderedMember(b, a, j);
    }
  }

  lemma SameViews(basis: Basis, a: Assessment, b: Assessment, address: Option<Address>)
    requires Reordered(a, b) && AllResolve(basis, a) && AllResolve(basis, b)
    ensures BoundViews(basis, a, address) <= BoundViews(basis, b, address)
  {
    forall v | v in BoundViews(basis, a, address)
      ensures v in BoundViews(basis, b, address)
    {
      var i :| 0 <= i < |a.uses| && ViewOf(basis, a, a.uses[i]).address == address && v == ViewOf(basis, a, a.uses[i]);
      var j := ReorderedMember(a, b, i);
      SameView(basis, a, b, a.uses[i]);
      assert ViewOf(basis, b, b.uses[j]) == v;
    }
  }

  /** Two entries that differ in nothing but the order of their evidence and the health reason they report. */
  predicate Agree(x: Entry, y: Entry) {
    && Reordered(x.assessment, y.assessment) && x.address == y.address
    && SameElements(x.evidence, y.evidence)
    && x.observedAt == y.observedAt && x.healthy == y.healthy && x.semanticsValid == y.semanticsValid
    && x.startedAt == y.startedAt && x.finishedAt == y.finishedAt && x.digests == y.digests
  }

  lemma SumsAgree(views: set<View>, x: Entry, y: Entry)
    requires views != {} && Sums(views, x) && Sums(views, y)
    ensures SameElements(x.evidence, y.evidence)
    ensures x.observedAt == y.observedAt && x.healthy == y.healthy && x.semanticsValid == y.semanticsValid
    ensures x.startedAt == y.startedAt && x.finishedAt == y.finishedAt && x.digests == y.digests
  {
  }

  lemma SameStands(basis: Basis, a: Assessment, b: Assessment, key: ContextKey)
    requires Reordered(a, b) && AllResolve(basis, a) && AllResolve(basis, b)
    ensures BoundViews(basis, a, key.address) == BoundViews(basis, b, key.address)
    ensures Stands(basis, a, key) <==> Stands(basis, b, key)
    ensures a.uses == [] <==> b.uses == []
  {
    SameViews(basis, a, b, key.address);
    SameViews(basis, b, a, key.address);
    if a.uses != [] {
      var j := ReorderedMember(a, b, 0);
    }
    if b.uses != [] {
      var j := ReorderedMember(b, a, 0);
    }
  }

  /** The entries of one assessment do not depend on the order of its evidence. */
  lemma EntriesAgree(basis: Basis, a: Assessment, b: Assessment, key: ContextKey)
    requires Reordered(a, b) && AllResolve(basis, a) && AllResolve(basis, b)
    ensures key in EntriesOf(basis, a) <==> key in EntriesOf(basis, b)
    ensures key in EntriesOf(basis, a) ==> Agree(EntriesOf(basis, a)[key], EntriesOf(basis, b)[key])
  {
    EntriesStand(basis, a, key);
    EntriesStand(basis, b, key);
    SameStands(basis, a, b, key);
    if key in EntriesOf(basis, a) && a.uses != [] {
      EntriesRecord(basis, a, key);
      EntriesRecord(basis, b, key);
      SumsAgree(BoundViews(basis, a, key.address), EntriesOf(basis, a)[key], EntriesOf(basis, b)[key]);
    }
  }

  predicate AllReordered(a: seq<Assessment>, b: seq<Assessment>) {
    |a| == |b| && forall i | 0 <= i < |a| :: Reordered(a[i], b[i])
  }

  predicate EntriesMatch(x: Entries, y: Entries) {
    x.Keys == y.Keys && forall k | k in x :: Agree(x[k], y[k])
  }

  lemma SameAmbiguity(a: seq<Assessment>, b: seq<Assessment>, n: nat)
    requires AllReordered(a, b) && n < |a|
    ensures Ambiguous(a, n) ==> Ambiguous(b, n)
  {
    if Ambiguous(a, n) {
      var i :| 0 <= i < n && SameSemantics(a[i], a[n]) && a[i].claim.version != a[n].claim.version;
      assert Reordered(a[i], b[i]) && Reordered(a[n], b[n]);
      assert SameSemantics(b[i], b[n]);
    }
  }

  lemma AmbiguityAgrees(a: seq<Assessment>, b: seq<Assessment>, n: nat)
    requires AllReordered(a, b) && n < |a|
    ensures Ambiguous(a, n) <==> Ambiguous(b, n)
    ensures Reordered(a[n], b[n]) && Reordered(b[n], a[n])
  {
    ReorderedBack(a, b);
    SameAmbiguity(a, b, n);
    SameAmbiguity(b, a, n);
  }

  lemma ReorderedBack(a: seq<Assessment>, b: seq<Assessment>)
    requires AllReordered(a, b)
    ensures AllReordered(b, a)
  {
  }

  lemma OwnEntriesMatch(basis: Basis, a: Assessment, b: Assessment)
    requires Reordered(a, b) && AllResolve(basis, a) && AllResolve(basis, b)
    ensures EntriesMatch(EntriesOf(basis, a), EntriesOf(basis, b))
  {
    forall key: ContextKey
      ensures key in EntriesOf(basis, a) <==> key in EntriesOf(basis, b)
      ensures key in EntriesOf(basis, a) ==> Agree(EntriesOf(basis, a)[key], EntriesOf(basis, b)[key])
    {
      EntriesAgree(basis, a, b, key);
    }
  }

  lemma JoinedMatch(x: Entries, y: Entries, x': Entries, y': Entries)
    requires EntriesMatch(x, y) && EntriesMatch(x', y')
    ensures EntriesMatch(x + x', y + y')
    ensures x.Keys * x'.Keys == y.Keys * y'.Keys
  {
  }

  predicate SidesMatch(x: Result<Entries, ComparisonError>, y: Result<Entries, ComparisonError>) {
    match x
    case Failure(e) => y == Failure(e)
    case Success(entries) => y.Success? && EntriesMatch(entries, y.value)
  }

  /** The entries of an assessment whose references can be followed. */
  function OwnEntries(basis: Basis, a: Assessment): Option<Entries> {
    if AllResolve(basis, a) then Some(EntriesOf(basis, a)) else None
  }

  /** What `AddAssessment` does, given whether versions are ambiguous and the assessment's own entries. */
  function Admit(ambiguous: bool, own: Option<Entries>, entries: Entries): Result<Entries, ComparisonError> {
    if ambiguous then Failure(AmbiguousVersions)
    else if own.None? then Failure(DanglingReference)
    else if entries.Keys * own.value.Keys != {} then Failure(DuplicateContext)
    else Success(entries + own.value)
  }

  lemma AddAdmits(basis: Basis, assessments: seq<Assessment>, n: nat, entries: Entries)
    requires n < |assessments|
    ensures AddAssessment(basis, assessments, n, entries)
            == Admit(Ambiguous(assessments, n), OwnEntries(basis, assessments[n]), entries)
  {
  }

  lemma OwnMatch(basis: Basis, a: Assessment, b: Assessment)
    requires Reordered(a, b) && Reordered(b, a)
    ensures OwnEntries(basis, a).Some? <==> OwnEntries(basis, b).Some?
    ensures OwnEntries(basis, a).Some? ==> EntriesMatch(OwnEntries(basis, a).value, OwnEntries(basis, b).value)
  {
    if AllResolve(basis, a) {
      SameResolve(basis, a, b);
      OwnEntriesMatch(basis, a, b);
    } else if AllResolve(basis, b) {
      SameResolve(basis, b, a);
    }
  }

  lemma AdmitMatch(ambiguous: bool, own: Option<Entries>, own': Option<Entries>, x: Entries, y: Entries)
    requires EntriesMatch(x, y) && (own.Some? <==> own'.Some?)
    requires own.Some? ==> EntriesMatch(own.value, own'.value)
    ensures SidesMatch(Admit(ambiguous, own, x), Admit(ambiguous, own', y))
  {
    if own.Some? {
      JoinedMatch(x, y, own.value, own'.value);
    }
  }

  lemma AddMatch(basis: Basis, a: seq<Assessment>, b: seq<Assessment>, n: nat, x: Entries, y: Entries)
    requires AllReordered(a, b) && n < |a| && EntriesMatch(x, y)
    ensures SidesMatch(AddAssessment(basis, a, n, x), AddAssessment(basis, b, n, y))
  {
    AmbiguityAgrees(a, b, n);
    OwnMatch(basis, a[n], b[n]);
    AddAdmits(basis, a, n, x);
    AddAdmits(basis, b, n, y);
    AdmitMatch(Ambiguous(a, n), OwnEntries(basis, a[n]), OwnEntries(basis, b[n]), x, y);
  }

  /** One assessment joins what was gathered before it, if that succeeded. */
  function Gather(basis: Basis, assessments: seq<Assessment>, n: nat, before: Result<Entries, ComparisonError>)
    : Result<Entries, ComparisonError>
    requires n < |assessments|
  {
    match before
    case Failure(e) => Failure(e)
    case Success(entries) => AddAssessment(basis, assessments, n, entries)
  }

  lemma {:induction false} BuildNone(basis: Basis, assessments: seq<Assessment>)
    ensures Build(basis, assessments, 0) == Success(map[])
  {
  }

  lemma GatherStep(basis: Basis, assessments: seq<Assessment>, n: nat)
    requires n < |assessments|
    ensures Build(basis, assessments, n + 1) == Gather(basis, assessments, n, Build(basis, assessments, n))
  {
  }

  lemma GatherMatch(
    basis: Basis, a: seq<Assessment>, b: seq<Assessment>, n: nat,
    x: Result<Entries, ComparisonError>, y: Result<Entries, ComparisonError>)
    requires AllReordered(a, b) && n < |a| && SidesMatch(x, y)
    ensures SidesMatch(Gather(basis, a, n, x), Gather(basis, b, n, y))
  {
    if x.Success? {
      AddMatch(basis, a, b, n, x.value, y.value);
    }
  }

  lemma {:induction false} BuildMatch(basis: Basis, a: seq<Assessment>, b: seq<Assessment>, n: nat)
    requires AllReordered(a, b) && n <= |a|
    ensures SidesMatch(Build(basis, a, n), Build(basis, b, n))
  {
    if n == 0 {
      BuildNone(basis, a);
      BuildNone(basis, b);
    } else {
      BuildMatch(basis, a, b, n - 1);
      GatherStep(basis, a, n - 1);
      GatherStep(basis, b, n - 1);
      GatherMatch(basis, a, b, n - 1, Build(basis, a, n - 1), Build(basis, b, n - 1));
    }
  }

  predicate MaybeAgree(x: Option<Entry>, y: Option<Entry>) {
    (x.None? && y.None?) || (x.Some? && y.Some? && Agree(x.value, y.value))
  }

  lemma SameRevisions(x: Entry, y: Entry)
    requires SameElements(x.evidence, y.evidence)
    ensures TemplateRevisions(x) <= TemplateRevisions(y)
  {
    forall r | r in TemplateRevisions(x)
      ensures r in TemplateRevisions(y)
    {
      var i, j :| 0 <= i < |x.evidence| && 0 <= j < |x.evidence[i].facts|
                  && x.evidence[i].facts[j].key == TemplateRevision && x.evidence[i].facts[j].value == r;
      assert x.evidence[i] in Cited(x.evidence) && x.evidence[i] in Cited(y.evidence);
      var k :| 0 <= k < |y.evidence| && y.evidence[k] == x.evidence[i];
    }
  }

  lemma SameDecision(
    address: Option<Address>, b: Option<Entry>, c: Option<Entry>, b': Option<Entry>, c': Option<Entry>,
    templates: map<string, string>)
    requires MaybeAgree(b, b') && MaybeAgree(c, c')
    ensures Conclude(address, b, c, templates).state == Conclude(address, b', c', templates).state
    ensures Conclude(address, b, c, templates).reason == Conclude(address, b', c', templates).reason
    ensures Conclude(address, b, c, templates).coverage.status == Conclude(address, b', c', templates).coverage.status
  {
    if b.Some? && c.Some? {
      SameBoth(b.value, c.value, b'.value, c'.value, templates);
    }
  }

  lemma SameCompatible(b: Entry, c: Entry, b': Entry, c': Entry, templates: map<string, string>)
    requires Agree(b, b') && Agree(c, c')
    ensures Compatible(b, c, templates) == Compatible(b', c', templates)
  {
    SameRevisions(b, b');
    SameRevisions(b', b);
    SameRevisions(c, c');
    SameRevisions(c', c);
  }

  lemma SameBoth(b: Entry, c: Entry, b': Entry, c': Entry, templates: map<string, string>)
    requires Agree(b, b') && Agree(c, c')
    ensures ConcludeBoth(b, c, templates) == ConcludeBoth(b', c', templates)
  {
    SameCompatible(b, c, b', c', templates);
    assert IsLater(b, c) == IsLater(b', c');
  }

  /** Two comparisons of one context come out alike. */
  predicate Alike(b: Entries, c: Entries, b': Entries, c': Entries, key: ContextKey, templates: map<string, string>) {
    var x := Conclude(key.address, EntryAt(b, key), EntryAt(c, key), templates);
    var y := Conclude(key.address, EntryAt(b', key), EntryAt(c', key), templates);
    x.state == y.state && x.reason == y.reason && x.coverage.status == y.coverage.status
  }

  /**
    Nothing that a side says changes when the evidence of its assessments is listed in
    another order, except the order itself and the reason given for ill health; nor does
    building it then fail or stop failing.
   */
  lemma OrderOfEvidence(report: Report, other: Report, support: Support, review: Review)
    requires AllReordered(report.assessments, other.assessments)
    requires BasisOf(report, support, review) == BasisOf(other, support, review)
    ensures SidesMatch(SideOf(report, support, review), SideOf(other, support, review))
  {
    if BasisOf(report, support, review).Success? {
      BuildMatch(BasisOf(report, support, review).value, report.assessments, other.assessments, |report.assessments|);
    }
  }

  /** No historical state, and no reason for one, depends on the order of evidence. */
  lemma StatesIgnoreOrder(b: Entries, c: Entries, b': Entries, c': Entries, key: ContextKey, templates: map<string, string>)
    requires EntriesMatch(b, b') && EntriesMatch(c, c')
    ensures b.Keys + c.Keys == b'.Keys + c'.Keys
    ensures Alike(b, c, b', c', key, templates)
  {
    SameDecision(key.address, EntryAt(b, key), EntryAt(c, key), EntryAt(b', key), EntryAt(c', key), templates);
  }

  // ---------------------------------------------------------------- every state

  /** The condition is supported now, and was not, or not comparably, supported before. */
  predicate Appears(b: Option<Entry>, c: Entry, templates: map<string, string>) {
    && Positive(c)
    && (b.Some? ==>
          && !Positive(b.value)
          && (!Compatible(b.value, c, templates) || b.value.assessment.outcome == Inconclusive || IsLater(b.value, c)))
  }

  /** The current check did not take place, or could not have shown an absence. */
  predicate Unperformed(c: Entry) {
    && c.assessment.outcome == Inconclusive
    && (c.assessment.reason == CheckNotRun || c.assessment.reason == NoSupportedNegativeEvidence)
  }

  /** Two comparable entries support the same outcome, from the same bytes or in the right order. */
  predicate Persists(b: Entry, c: Entry, templates: map<string, string>) {
    && Compatible(b, c, templates)
    && b.assessment.outcome == c.assessment.outcome != Inconclusive
    && ((b.digests != {} && b.digests == c.digests) || IsLater(b, c))
  }

  predicate UsableEntry(e: Entry) {
    e.healthy && e.semanticsValid
  }

  /**
    The decision chain without its order: when each of the other states is given. A context
    is unknown exactly when none of these conditions holds, nor that of `resolved`.
   */
  lemma OtherStatesExactly(address: Option<Address>, b: Option<Entry>, c: Option<Entry>, templates: map<string, string>)
    ensures var state := Conclude(address, b, c, templates).state;
            && (state == New <==>
                  (b.Some? ==> b.value.healthy) && c.Some? && UsableEntry(c.value) && Appears(b, c.value, templates))
            && (state == NotObserved <==>
                  && (b.Some? ==> b.value.healthy)
                  && ((c.None? && address.Some?)
                      || (c.Some? && UsableEntry(c.value) && b.Some? && Unperformed(c.value))))
            && (state == Unchanged <==>
                  b.Some? && b.value.healthy && c.Some? && UsableEntry(c.value) && Persists(b.value, c.value, templates))
  {
    if b.Some? && c.Some? {
      assert IsLater(b.value, c.value) ==> b.value.digests !! c.value.digests;
    }
  }

  // ---------------------------------------------------------------- where stored evidence comes from

  lemma {:induction false} OriginalsAre(sources: seq<RunSource>, imported: RunSource, evidence: EvidenceRef, o: RunSource)
    ensures o in Originals(sources, imported, evidence) <==> o in sources && OriginalOf(o, imported, evidence)
  {
    if sources != [] {
      var n := |sources| - 1;
      OriginalsAre(sources[..n], imported, evidence, o);
      assert sources == sources[..n] + [sources[n]];
    }
  }

  lemma {:induction false} SourceIsListed(sources: seq<RunSource>, runId: Uuid)
    requires SourceOf(sources, runId).Some?
    ensures SourceOf(sources, runId).value in sources && SourceOf(sources, runId).value.runId == runId
  {
    var n := |sources| - 1;
    if sources[n].runId != runId {
      SourceIsListed(sources[..n], runId);
      assert SourceOf(sources, runId).value in sources[..n];
    }
  }

  /** `o` is the run that holds the evidence, or a scan of the selection whose output it repeats. */
  predicate Produced(sources: seq<RunSource>, source: RunSource, evidence: EvidenceRef, o: RunSource) {
    o in sources && (o == source || (source.kind == Import && OriginalOf(o, source, evidence)))
  }

  lemma AddressIsApproved(source: RunSource, evidence: EvidenceRef)
    ensures var address := CaptureAddress(source, evidence);
            address.Some? ==> source.webTarget.Some? && address.value in source.webTarget.value.addresses
  {
  }

  lemma {:induction false} SpanNeeds(windows: seq<Option<Window>>)
    requires Span(windows).Some?
    ensures windows != [] && windows[0].Some?
  {
    if |windows| > 1 {
      SpanNeeds(windows[..|windows| - 1]);
    }
  }

  /**
    Stored evidence is bound to an address only if that address was approved for the run that
    produced it, and placed in time only by a finished scan: an import alone never is, it
    needs a scan of the selection with the same bytes and target. It is healthy exactly when
    the run recorded the artifact and its verification found it ready.
   */
  lemma CaptureProvenance(basis: Basis, a: Assessment, use: Use)
    requires basis.CaptureBasis? && Resolves(basis, use)
    ensures var sources := basis.correlation.sources;
            var source := SourceOf(sources, use.source.runId).value;
            var v := ViewOf(basis, a, use);
            && (v.address.Some? ==>
                  exists o :: Produced(sources, source, use.evidence, o) && o.webTarget.Some?
                              && v.address.value in o.webTarget.value.addresses)
            && (v.window.Some? ==>
                  exists o :: Produced(sources, source, use.evidence, o) && o.kind == Scan
                              && o.finishedAt.Some? && o.createdAt <= o.finishedAt.value)
            && (v.healthy <==>
                  && StoredArtifact(Stdout, use.evidence.artifact) in source.artifacts
                  && basis.captureHealth.Some?
                  && (source.runId, use.evidence.artifact) in basis.captureHealth.value
                  && basis.captureHealth.value[(source.runId, use.evidence.artifact)] == Ready)
  {
    var sources := basis.correlation.sources;
    var source := SourceOf(sources, use.source.runId).value;
    SourceIsListed(sources, use.source.runId);
    AddressIsApproved(source, use.evidence);
    assert Produced(sources, source, use.evidence, source);
    if source.kind == Import {
      var originals := Originals(sources, source, use.evidence);
      if OriginalAddress(originals, use.evidence).Some? {
        var o := originals[0];
        OriginalsAre(sources, source, use.evidence, o);
        AddressIsApproved(o, use.evidence);
        assert Produced(sources, source, use.evidence, o);
        var windows := seq(|originals|, i requires 0 <= i < |originals| => RunWindow(originals[i]));
        if Span(windows).Some? {
          SpanNeeds(windows);
          assert windows[0] == RunWindow(o);
        }
      }
    }
  }
}

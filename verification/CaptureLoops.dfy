/** The loops of `assessment.capture`, and what the list of assessments they build amounts to. */
module CaptureLoops {
  import opened Capture
  import opened Correlation
  import opened Evidence
  import opened Rules
  import opened Runs
  import opened Wrappers

  /** Findings belong to the correlated project: their identities are made with it. */
  predicate OwnFindings(c: CorrelationResult) {
    forall f | f in FindingsOf(c) :: f.project == c.project
  }

  /**
    The list holds one assessment under each of these identities and no other, and each is
    the one the correlation yields under its identity.
   */
  predicate Lists(list: seq<Assessment>, ids: set<AssessmentId>, c: CorrelationResult, review: Review) {
    && (forall i, j | 0 <= i < j < |list| :: list[i].id != list[j].id)
    && (forall i | 0 <= i < |list| :: list[i].id in ids && Expected(c, list[i].id, review) == Some(list[i]))
    && (forall id | id in ids :: exists i :: 0 <= i < |list| && list[i].id == id)
  }

  lemma ListsAppend(list: seq<Assessment>, ids: set<AssessmentId>, a: Assessment, c: CorrelationResult, review: Review)
    requires Lists(list, ids, c, review) && a.id !in ids && Expected(c, a.id, review) == Some(a)
    ensures Lists(list + [a], ids + {a.id}, c, review)
  {
    var more := list + [a];
    assert more[|list|] == a;
    forall id | id in ids + {a.id}
      ensures exists i :: 0 <= i < |more| && more[i].id == id
    {
      if id in ids {
        var i :| 0 <= i < |list| && list[i].id == id;
        assert more[i].id == id;
      }
    }
  }

  // ---------------------------------------------------------------- identities do not collide

  /** Template and matcher can be read back from the rule they are filed under. */
  lemma TemplateOfFinding(f: FindingIdentity)
    ensures TemplateOf(FindingRule(f)) == Some((f.templateId, f.matcher))
  {
  }

  lemma FindingExpected(c: CorrelationResult, f: FindingIdentity, review: Review)
    requires OwnFindings(c) && f in FindingsOf(c)
    ensures FindingUnder(c, FindingClaim(f)) == Some(f)
    ensures Expected(c, AssessmentId(c.project, FindingClaim(f)), review) == Some(FindingAssessment(c, f, review))
  {
    TemplateOfFinding(f);
  }

  lemma MissingExpected(c: CorrelationResult, claim: Claim, review: Review)
    requires OwnFindings(c) && Missing(c, claim)
    ensures FindingUnder(c, claim).None?
    ensures Expected(c, AssessmentId(c.project, claim), review) == Some(MissingAssessment(c, claim))
  {
    if FindingUnder(c, claim).Some? {
      var f := FindingUnder(c, claim).value;
      assert FindingRule(f) == claim.rule && CorrectResource(f);
    }
  }

  lemma {:induction false} HstsExpected(c: CorrelationResult, origin: Origin, review: Review)
    requires UsesFor(AllSightings(c), origin) != []
    ensures Expected(c, AssessmentId(c.project, HstsClaim(origin)), review) == Some(HstsAssessment(c, origin, review))
  {
  }

  function FindingIds(c: CorrelationResult, findings: set<FindingIdentity>): set<AssessmentId> {
    set f | f in findings :: AssessmentId(c.project, FindingClaim(f))
  }

  /** Two findings of one project never share a claim. */
  lemma FindingIdIsNew(c: CorrelationResult, done: set<FindingIdentity>, f: FindingIdentity)
    requires OwnFindings(c) && done <= FindingsOf(c) && f in FindingsOf(c) && f !in done
    ensures AssessmentId(c.project, FindingClaim(f)) !in FindingIds(c, done)
    ensures FindingIds(c, done + {f}) == FindingIds(c, done) + {AssessmentId(c.project, FindingClaim(f))}
  {
    forall g | g in done
      ensures FindingClaim(g) != FindingClaim(f)
    {
      TemplateOfFinding(f);
      TemplateOfFinding(g);
    }
  }

  /** An origin that Nuclei looked at, with one of the two reviewed exposure rules. */
  datatype Check = Check(origin: Origin, rule: RuleId)

  function CheckClaim(k: Check): Claim {
    Claim(k.rule, RULE_VERSION, k.origin, if k.rule == DirectoryListing then ROOT else GIT_CONFIG)
  }

  function MissingIds(c: CorrelationResult, checks: set<Check>): set<AssessmentId> {
    set k | k in checks && !Assessed(c, k.origin, k.rule) :: AssessmentId(c.project, CheckClaim(k))
  }

  function HstsIds(c: CorrelationResult, origins: set<Origin>): set<AssessmentId> {
    set o | o in origins :: AssessmentId(c.project, HstsClaim(o))
  }

  // ---------------------------------------------------------------- findings

  /** The loop over the evidence of one occurrence. */
  method ExtendUses(uses: seq<Use>, ref: SourceRef, x: ScannerMatch) returns (extended: seq<Use>)
    ensures extended == uses + MatchUses(ref, x)
  {
    extended := uses;
    for n := 0 to |x.evidence|
      invariant extended == uses + MatchUses(ref, x)[..n]
    {
      extended := extended + [
        ExistingCapture(ref, x.evidence[n], [
          Fact(TemplateId, Text(x.templateId)), Fact(MatcherKey, Text(x.matcher)),
          Fact(TemplateRevision, Text(x.templateRevision)), Fact(MatchedLocation, Text(x.location))])];
    }
  }

  /** The loop over the occurrences of one finding. */
  method AssessFinding(c: CorrelationResult, f: FindingIdentity, review: Review) returns (a: Assessment)
    ensures a == FindingAssessment(c, f, review)
  {
    var occurrences := FindingOccurrences(c, f);
    var reviewed := CorrectResource(f) && f.templateId in review.templates;
    var uses: seq<Use> := [];
    for n := 0 to |occurrences|
      invariant uses == UsesOf(occurrences, n)
      invariant reviewed == Reviewed(f, occurrences, n, review)
    {
      var x := occurrences[n].hit;
      reviewed := reviewed && ReviewedMatch(x, review.templates[f.templateId]);
      uses := ExtendUses(uses, occurrences[n].ref, x);
    }
    a := FindingResult(c.project, f, reviewed && uses != [], uses);
  }

  lemma FindingStep(
    list: seq<Assessment>, done: set<FindingIdentity>, f: FindingIdentity, c: CorrelationResult, review: Review)
    requires OwnFindings(c) && done <= FindingsOf(c) && f in FindingsOf(c) && f !in done
    requires Lists(list, FindingIds(c, done), c, review)
    ensures Lists(list + [FindingAssessment(c, f, review)], FindingIds(c, done + {f}), c, review)
  {
    FindingExpected(c, f, review);
    FindingIdIsNew(c, done, f);
    ListsAppend(list, FindingIds(c, done), FindingAssessment(c, f, review), c, review);
  }

  method AssessFindings(c: CorrelationResult, review: Review) returns (list: seq<Assessment>)
    requires OwnFindings(c)
    ensures Lists(list, FindingIds(c, FindingsOf(c)), c, review)
  {
    list := [];
    var pending := FindingsOf(c);
    ghost var done: set<FindingIdentity> := {};
    while pending != {}
      invariant pending + done == FindingsOf(c) && pending !! done
      invariant Lists(list, FindingIds(c, done), c, review)
      decreases pending
    {
      var f :| f in pending;
      var a := AssessFinding(c, f, review);
      FindingStep(list, done, f, c, review);
      list := list + [a];
      pending, done := pending - {f}, done + {f};
    }
    assert done == FindingsOf(c);
  }

  // ---------------------------------------------------------------- Nuclei runs without a match

  /** The dictionary of Nuclei runs by origin, after `n` sources. */
  predicate Looked(byOrigin: map<Origin, seq<RunSource>>, sources: seq<RunSource>, n: nat)
    requires n <= |sources|
  {
    && (forall o | o in byOrigin :: byOrigin[o] == NucleiRuns(sources, n, o) != [])
    && (forall i | 0 <= i < n && sources[i].report.evidence.scanner == Nuclei && sources[i].webTarget.Some? ::
          sources[i].webTarget.value.origin in byOrigin)
  }

  lemma {:induction false} NoNucleiRuns(sources: seq<RunSource>, n: nat, o: Origin)
    requires n <= |sources| && forall i | 0 <= i < n :: !NucleiRun(sources[i], o)
    ensures NucleiRuns(sources, n, o) == []
  {
    if n > 0 {
      NoNucleiRuns(sources, n - 1, o);
    }
  }

  lemma {:induction false} LookedAll(byOrigin: map<Origin, seq<RunSource>>, sources: seq<RunSource>)
    requires Looked(byOrigin, sources, |sources|)
    ensures forall o :: o in byOrigin <==> NucleiRuns(sources, |sources|, o) != []
  {
    forall o | o !in byOrigin
      ensures NucleiRuns(sources, |sources|, o) == []
    {
      NoNucleiRuns(sources, |sources|, o);
    }
  }

  /** One more source looked at. */
  function Look(byOrigin: map<Origin, seq<RunSource>>, s: RunSource): map<Origin, seq<RunSource>> {
    if s.report.evidence.scanner == Nuclei && s.webTarget.Some? then
      var o := s.webTarget.value.origin;
      byOrigin[o := (if o in byOrigin then byOrigin[o] else []) + [s]]
    else byOrigin
  }

  lemma LookedNext(byOrigin: map<Origin, seq<RunSource>>, sources: seq<RunSource>, n: nat)
    requires n < |sources| && Looked(byOrigin, sources, n)
    ensures Looked(Look(byOrigin, sources[n]), sources, n + 1)
  {
    var s := sources[n];
    if s.webTarget.Some? && s.webTarget.value.origin !in byOrigin {
      NoNucleiRuns(sources, n, s.webTarget.value.origin);
    }
    forall o | o in Look(byOrigin, s)
      ensures Look(byOrigin, s)[o] == NucleiRuns(sources, n + 1, o) != []
    {
      assert NucleiRuns(sources, n + 1, o) == NucleiRuns(sources, n, o) + (if NucleiRun(s, o) then [s] else []);
    }
  }

  method NucleiOrigins(c: CorrelationResult) returns (byOrigin: map<Origin, seq<RunSource>>)
    ensures forall o :: o in byOrigin <==> NucleiRuns(c.sources, |c.sources|, o) != []
    ensures forall o | o in byOrigin :: byOrigin[o] == NucleiRuns(c.sources, |c.sources|, o)
  {
    byOrigin := map[];
    for n := 0 to |c.sources|
      invariant Looked(byOrigin, c.sources, n)
    {
      var s := c.sources[n];
      LookedNext(byOrigin, c.sources, n);
      if s.report.evidence.scanner == Nuclei && s.webTarget.Some? {
        var o := s.webTarget.value.origin;
        byOrigin := byOrigin[o := (if o in byOrigin then byOrigin[o] else []) + [s]];
      }
    }
    LookedAll(byOrigin, c.sources);
  }

  /** The identities listed once the findings, and some checks that may have matched nothing, are done. */
  function ExposureIds(c: CorrelationResult, checks: set<Check>): set<AssessmentId> {
    FindingIds(c, FindingsOf(c)) + MissingIds(c, checks)
  }

  /** A check that some Nuclei run of the selection made. */
  predicate Checked(c: CorrelationResult, k: Check) {
    (k.rule == DirectoryListing || k.rule == GitConfigExposure) && NucleiRuns(c.sources, |c.sources|, k.origin) != []
  }

  /** No finding is filed under the claim of a check that no finding speaks for. */
  lemma CheckIsNew(c: CorrelationResult, done: set<Check>, k: Check)
    requires Checked(c, k) && k !in done && !Assessed(c, k.origin, k.rule)
    ensures AssessmentId(c.project, CheckClaim(k)) !in ExposureIds(c, done)
    ensures ExposureIds(c, done + {k}) == ExposureIds(c, done) + {AssessmentId(c.project, CheckClaim(k))}
  {
    forall f | f in FindingsOf(c)
      ensures FindingClaim(f) != CheckClaim(k)
    {
      assert FindingClaim(f) == CheckClaim(k) ==> CorrectResource(f);
    }
  }

  lemma NextCheck(list: seq<Assessment>, done: set<Check>, k: Check, c: CorrelationResult, review: Review)
    requires OwnFindings(c) && Checked(c, k) && k !in done
    requires Lists(list, ExposureIds(c, done), c, review)
    ensures Lists(
              if Assessed(c, k.origin, k.rule) then list else list + [MissingAssessment(c, CheckClaim(k))],
              ExposureIds(c, done + {k}), c, review)
  {
    if Assessed(c, k.origin, k.rule) {
      assert ExposureIds(c, done + {k}) == ExposureIds(c, done);
    } else {
      CheckIsNew(c, done, k);
      MissingExpected(c, CheckClaim(k), review);
      ListsAppend(list, ExposureIds(c, done), MissingAssessment(c, CheckClaim(k)), c, review);
    }
  }

  lemma PendingChecks(c: CorrelationResult, byOrigin: map<Origin, seq<RunSource>>, checks: set<Check>)
    requires forall o :: o in byOrigin <==> NucleiRuns(c.sources, |c.sources|, o) != []
    requires checks == set o, rule | o in byOrigin && rule in {DirectoryListing, GitConfigExposure} :: Check(o, rule)
    ensures AllChecks(c, checks)
  {
    forall k
      ensures k in checks <==> Checked(c, k)
    {
      assert k == Check(k.origin, k.rule);
    }
  }

  /** Every check a selection made. */
  ghost predicate AllChecks(c: CorrelationResult, checks: set<Check>) {
    forall k :: k in checks <==> Checked(c, k)
  }

  /** The checks that the selection's Nuclei runs made: both exposure rules at each origin they looked at. */
  function MadeChecks(c: CorrelationResult): set<Check> {
    set i, rule | 0 <= i < |c.sources| && c.sources[i].report.evidence.scanner == Nuclei && c.sources[i].webTarget.Some?
                  && rule in {DirectoryListing, GitConfigExposure}
      :: Check(c.sources[i].webTarget.value.origin, rule)
  }

  lemma {:induction false} SomeNucleiRun(sources: seq<RunSource>, n: nat, i: nat, o: Origin)
    requires i < n <= |sources| && NucleiRun(sources[i], o)
    ensures NucleiRuns(sources, n, o) != []
  {
    if i < n - 1 {
      SomeNucleiRun(sources, n - 1, i, o);
    }
  }

  lemma MadeAllChecks(c: CorrelationResult)
    ensures AllChecks(c, MadeChecks(c))
  {
    forall k
      ensures k in MadeChecks(c) <==> Checked(c, k)
    {
      if k in MadeChecks(c) {
        var i :| 0 <= i < |c.sources| && NucleiRun(c.sources[i], k.origin);
        SomeNucleiRun(c.sources, |c.sources|, i, k.origin);
      }
      if Checked(c, k) {
        if forall i | 0 <= i < |c.sources| :: !NucleiRun(c.sources[i], k.origin) {
          NoNucleiRuns(c.sources, |c.sources|, k.origin);
          assert false;
        }
        var i :| 0 <= i < |c.sources| && NucleiRun(c.sources[i], k.origin);
        assert k == Check(c.sources[i].webTarget.value.origin, k.rule);
      }
    }
  }

  /** The loops over Nuclei origins and the two exposure rules. */
  method AssessMissing(c: CorrelationResult, findings: seq<Assessment>, review: Review) returns (list: seq<Assessment>)
    requires OwnFindings(c) && Lists(findings, FindingIds(c, FindingsOf(c)), c, review)
    ensures Lists(list, ExposureIds(c, MadeChecks(c)), c, review)
  {
    ghost var checks := MadeChecks(c);
    var byOrigin := NucleiOrigins(c);
    list := findings;
    var pending := set o, rule | o in byOrigin && rule in {DirectoryListing, GitConfigExposure} :: Check(o, rule);
    PendingChecks(c, byOrigin, pending);
    MadeAllChecks(c);
    assert forall k :: k in pending <==> k in checks;
    ghost var done: set<Check> := {};
    assert ExposureIds(c, {}) == FindingIds(c, FindingsOf(c));
    while pending != {}
      invariant pending + done == checks && pending !! done
      invariant Lists(list, ExposureIds(c, done), c, review)
      decreases pending
    {
      var k :| k in pending;
      NextCheck(list, done, k, c, review);
      if !Assessed(c, k.origin, k.rule) {
        list := list + [MissingAssessment(c, CheckClaim(k))];
      }
      pending, done := pending - {k}, done + {k};
    }
    assert done == checks;
  }

  // ---------------------------------------------------------------- httpx records

  /** `by_origin` lists the uses sighted so far. */
  predicate ByOriginHolds(byOrigin: map<Origin, seq<Use>>, sightings: seq<Sighting>) {
    && (forall o | o in byOrigin :: byOrigin[o] == UsesFor(sightings, o) != [])
    && (forall i | 0 <= i < |sightings| :: sightings[i].origin in byOrigin)
  }

  /** `records` lists the facts of each response record sighted so far. */
  predicate RecordsHold(records: map<RecordKey, seq<Fact>>, sightings: seq<Sighting>) {
    && (forall key | key in records :: records[key] == RecordFacts(sightings, key))
    && (forall i | 0 <= i < |sightings| && RecordOf(sightings[i]).Some? :: RecordOf(sightings[i]).value in records)
    && (forall key | key in records :: exists i :: 0 <= i < |sightings| && RecordOf(sightings[i]) == Some(key))
  }

  lemma {:induction false} NoUses(sightings: seq<Sighting>, o: Origin)
    requires forall i | 0 <= i < |sightings| :: sightings[i].origin != o
    ensures UsesFor(sightings, o) == []
  {
    if sightings != [] {
      NoUses(sightings[..|sightings| - 1], o);
    }
  }

  lemma {:induction false} NoFacts(sightings: seq<Sighting>, key: RecordKey)
    requires forall i | 0 <= i < |sightings| :: RecordOf(sightings[i]) != Some(key)
    ensures RecordFacts(sightings, key) == []
  {
    if sightings != [] {
      NoFacts(sightings[..|sightings| - 1], key);
    }
  }

  lemma {:induction false} UsesAppend(sightings: seq<Sighting>, x: Sighting, o: Origin)
    ensures UsesFor(sightings + [x], o) == UsesFor(sightings, o) + (if x.origin == o then [x.use] else [])
  {
    assert (sightings + [x])[..|sightings|] == sightings;
  }

  lemma {:induction false} FactsAppend(sightings: seq<Sighting>, x: Sighting, key: RecordKey)
    ensures RecordFacts(sightings + [x], key)
            == RecordFacts(sightings, key) + (if RecordOf(x) == Some(key) then x.use.facts else [])
  {
    assert (sightings + [x])[..|sightings|] == sightings;
  }

  /** `by_origin[origin].append(use)` */
  function FileUse(byOrigin: map<Origin, seq<Use>>, x: Sighting): map<Origin, seq<Use>> {
    byOrigin[x.origin := (if x.origin in byOrigin then byOrigin[x.origin] else []) + [x.use]]
  }

  /** `records[key].append(use)` */
  function FileRecord(records: map<RecordKey, seq<Fact>>, x: Sighting): map<RecordKey, seq<Fact>>
    requires RecordOf(x).Some?
  {
    var key := RecordOf(x).value;
    records[key := (if key in records then records[key] else []) + x.use.facts]
  }

  lemma FileUseHolds(byOrigin: map<Origin, seq<Use>>, sightings: seq<Sighting>, x: Sighting)
    requires ByOriginHolds(byOrigin, sightings)
    ensures ByOriginHolds(FileUse(byOrigin, x), sightings + [x])
  {
    if x.origin !in byOrigin {
      NoUses(sightings, x.origin);
    }
    forall o | o in FileUse(byOrigin, x)
      ensures FileUse(byOrigin, x)[o] == UsesFor(sightings + [x], o) != []
    {
      UsesAppend(sightings, x, o);
    }
  }

  lemma FileRecordHolds(records: map<RecordKey, seq<Fact>>, sightings: seq<Sighting>, x: Sighting)
    requires RecordsHold(records, sightings) && RecordOf(x).Some?
    ensures RecordsHold(FileRecord(records, x), sightings + [x])
  {
    var more, key := sightings + [x], RecordOf(x).value;
    if key !in records {
      NoFacts(sightings, key);
    }
    forall k | k in FileRecord(records, x)
      ensures FileRecord(records, x)[k] == RecordFacts(more, k)
      ensures exists i :: 0 <= i < |more| && RecordOf(more[i]) == Some(k)
    {
      FactsAppend(sightings, x, k);
      assert more[|sightings|] == x;
      if k != key {
        var i :| 0 <= i < |sightings| && RecordOf(sightings[i]) == Some(k);
        assert more[i] == sightings[i];
      }
    }
  }

  /** Both dictionaries hold these sightings. */
  predicate Filed(byOrigin: map<Origin, seq<Use>>, records: map<RecordKey, seq<Fact>>, sightings: seq<Sighting>) {
    ByOriginHolds(byOrigin, sightings) && RecordsHold(records, sightings)
  }

  lemma FileNext(byOrigin: map<Origin, seq<Use>>, records: map<RecordKey, seq<Fact>>, before: seq<Sighting>, s: Sighting)
    requires RecordOf(s).Some? && Filed(byOrigin, records, before)
    ensures Filed(FileUse(byOrigin, s), FileRecord(records, s), before + [s])
  {
    FileUseHolds(byOrigin, before, s);
    FileRecordHolds(records, before, s);
  }

  /** The loop over the evidence of one observation. */
  method FileObservation(
    s: RunSource, ordinal: nat, byOrigin: map<Origin, seq<Use>>, records: map<RecordKey, seq<Fact>>,
    ghost before: seq<Sighting>)
    returns (filedByOrigin: map<Origin, seq<Use>>, filedRecords: map<RecordKey, seq<Fact>>)
    requires ordinal < |s.report.observations| && Filed(byOrigin, records, before)
    ensures Filed(filedByOrigin, filedRecords, before + ObservationSightings(s, ordinal))
  {
    filedByOrigin, filedRecords := byOrigin, records;
    var o := s.report.observations[ordinal];
    ghost var own := ObservationSightings(s, ordinal);
    if !Sights(o) {
      assert before + own == before;
      return;
    }
    assert before + own[..0] == before;
    for n := 0 to |o.evidence|
      invariant Filed(filedByOrigin, filedRecords, before + own[..n])
    {
      var sighting := Sighting(
        o.subject.origin, ExistingCapture(ObservationRef(s.runId, ordinal), o.evidence[n], [Fact(o.key, o.value)]));
      FileNext(filedByOrigin, filedRecords, before + own[..n], sighting);
      assert before + own[..n] + [sighting] == before + own[..n + 1];
      filedByOrigin, filedRecords := FileUse(filedByOrigin, sighting), FileRecord(filedRecords, sighting);
    }
    assert own[..|o.evidence|] == own;
  }

  lemma JoinSightings(a: seq<Sighting>, b: seq<Sighting>, c: seq<Sighting>)
    ensures a + b + c == a + (b + c)
  {
  }

  /** The loop over the observations of one httpx run. */
  method FileRun(
    s: RunSource, byOrigin: map<Origin, seq<Use>>, records: map<RecordKey, seq<Fact>>, ghost before: seq<Sighting>)
    returns (filedByOrigin: map<Origin, seq<Use>>, filedRecords: map<RecordKey, seq<Fact>>)
    requires Filed(byOrigin, records, before)
    ensures Filed(filedByOrigin, filedRecords, before + RunSightings(s, |s.report.observations|))
  {
    filedByOrigin, filedRecords := byOrigin, records;
    assert before + [] == before;
    for ordinal := 0 to |s.report.observations|
      invariant Filed(filedByOrigin, filedRecords, before + RunSightings(s, ordinal))
    {
      JoinSightings(before, RunSightings(s, ordinal), ObservationSightings(s, ordinal));
      filedByOrigin, filedRecords := FileObservation(
        s, ordinal, filedByOrigin, filedRecords, before + RunSightings(s, ordinal));
    }
  }

  /** The loop over the selected runs, filling both dictionaries. */
  method FileSightings(c: CorrelationResult)
    returns (byOrigin: map<Origin, seq<Use>>, records: map<RecordKey, seq<Fact>>)
    ensures ByOriginHolds(byOrigin, AllSightings(c)) && RecordsHold(records, AllSightings(c))
  {
    byOrigin, records := map[], map[];
    for n := 0 to |c.sources|
      invariant Filed(byOrigin, records, Sightings(c.sources, n))
    {
      var s := c.sources[n];
      assert Sightings(c.sources, n) + [] == Sightings(c.sources, n);
      if s.report.evidence.scanner == Httpx {
        byOrigin, records := FileRun(s, byOrigin, records, Sightings(c.sources, n));
      }
    }
  }

  // ---------------------------------------------------------------- HSTS

  lemma {:induction false} OriginsSighted(byOrigin: map<Origin, seq<Use>>, sightings: seq<Sighting>, o: Origin)
    requires ByOriginHolds(byOrigin, sightings)
    ensures o in byOrigin <==> UsesFor(sightings, o) != []
  {
    if o !in byOrigin {
      NoUses(sightings, o);
    }
  }

  lemma RecordsSighted(records: map<RecordKey, seq<Fact>>, sightings: seq<Sighting>, o: Origin)
    requires RecordsHold(records, sightings)
    ensures (set key | key in records && key.origin == o) == RecordsFor(sightings, o)
  {
    forall key
      ensures key in records && key.origin == o <==> key in RecordsFor(sightings, o)
    {
      if key in records && key.origin == o {
        var i :| 0 <= i < |sightings| && RecordOf(sightings[i]) == Some(key);
        assert sightings[i].origin == o;
      }
    }
  }

  predicate AllQualified(records: map<RecordKey, seq<Fact>>, keys: set<RecordKey>, review: Review)
    requires keys <= records.Keys
  {
    forall key | key in keys :: Qualifies(records[key], review)
  }

  /** The loop over the records of one origin. */
  method RecordsQualify(records: map<RecordKey, seq<Fact>>, keys: set<RecordKey>, review: Review)
    returns (qualified: bool)
    requires keys <= records.Keys
    ensures qualified <==> AllQualified(records, keys, review)
  {
    var pending := keys;
    qualified := true;
    while pending != {}
      invariant pending <= keys
      invariant qualified <==> AllQualified(records, keys - pending, review)
      decreases pending
    {
      var key :| key in pending;
      qualified := qualified && Qualifies(records[key], review);
      assert keys - (pending - {key}) == (keys - pending) + {key};
      pending := pending - {key};
    }
    assert keys - pending == keys;
  }

  lemma QualifiedIff(
    records: map<RecordKey, seq<Fact>>, keys: set<RecordKey>, sightings: seq<Sighting>, o: Origin, review: Review)
    requires RecordsHold(records, sightings) && keys == set key | key in records && key.origin == o
    ensures (keys != {} && AllQualified(records, keys, review)) <==> AllQualify(sightings, o, review)
  {
    RecordsSighted(records, sightings, o);
  }

  method AssessHstsOrigin(
    c: CorrelationResult, origin: Origin, uses: seq<Use>, records: map<RecordKey, seq<Fact>>, review: Review)
    returns (a: Assessment)
    requires RecordsHold(records, AllSightings(c)) && uses == UsesFor(AllSightings(c), origin)
    ensures a == HstsAssessment(c, origin, review)
  {
    var mine := set key | key in records && key.origin == origin;
    var qualified := RecordsQualify(records, mine, review);
    QualifiedIff(records, mine, AllSightings(c), origin, review);
    a := HstsResult(c.project, origin, mine != {} && qualified, uses);
  }

  lemma {:induction false} NextHsts(
    list: seq<Assessment>, checks: set<Check>, done: set<Origin>, o: Origin, c: CorrelationResult, review: Review)
    requires o !in done && UsesFor(AllSightings(c), o) != [] && AllChecks(c, checks)
    requires Lists(list, ExposureIds(c, checks) + HstsIds(c, done), c, review)
    ensures Lists(
              list + [HstsAssessment(c, o, review)], ExposureIds(c, checks) + HstsIds(c, done + {o}), c, review)
  {
    var id := AssessmentId(c.project, HstsClaim(o));
    HstsExpected(c, o, review);
    NotExposure(c, checks, o);
    assert HstsIds(c, done + {o}) == HstsIds(c, done) + {id};
    ListsAppend(list, ExposureIds(c, checks) + HstsIds(c, done), HstsAssessment(c, o, review), c, review);
    assert ExposureIds(c, checks) + HstsIds(c, done) + {id} == ExposureIds(c, checks) + HstsIds(c, done + {o});
  }

  lemma NotExposure(c: CorrelationResult, checks: set<Check>, o: Origin)
    requires AllChecks(c, checks)
    ensures AssessmentId(c.project, HstsClaim(o)) !in ExposureIds(c, checks)
  {
    forall f | f in FindingsOf(c)
      ensures FindingClaim(f).rule != HstsMissing
    {
    }
  }

  /** Every origin with header evidence. */
  ghost predicate AllOrigins(c: CorrelationResult, origins: set<Origin>) {
    forall o :: o in origins <==> UsesFor(AllSightings(c), o) != []
  }

  function SightedOrigins(c: CorrelationResult): set<Origin> {
    set i | 0 <= i < |AllSightings(c)| :: AllSightings(c)[i].origin
  }

  lemma SightedAllOrigins(c: CorrelationResult, byOrigin: map<Origin, seq<Use>>)
    requires ByOriginHolds(byOrigin, AllSightings(c))
    ensures byOrigin.Keys == SightedOrigins(c) && AllOrigins(c, byOrigin.Keys)
  {
    SightedOriginsAll(c);
    forall o
      ensures o in byOrigin.Keys <==> o in SightedOrigins(c)
    {
      OriginsSighted(byOrigin, AllSightings(c), o);
    }
  }

  lemma SightedOriginsAll(c: CorrelationResult)
    ensures AllOrigins(c, SightedOrigins(c))
  {
    forall o
      ensures o in SightedOrigins(c) <==> UsesFor(AllSightings(c), o) != []
    {
      if o in SightedOrigins(c) {
        var i :| 0 <= i < |AllSightings(c)| && AllSightings(c)[i].origin == o;
        SomeUses(AllSightings(c), i);
      } else {
        NoUses(AllSightings(c), o);
      }
    }
  }

  lemma {:induction false} SomeUses(sightings: seq<Sighting>, i: nat)
    requires i < |sightings|
    ensures UsesFor(sightings, sightings[i].origin) != []
  {
    if i < |sightings| - 1 {
      SomeUses(sightings[..|sightings| - 1], i);
    }
  }

  /** The loop over the sighted origins. */
  method AssessHstsOrigins(c: CorrelationResult, before: seq<Assessment>, review: Review) returns (list: seq<Assessment>)
    requires Lists(before, ExposureIds(c, MadeChecks(c)), c, review)
    ensures Lists(list, ExposureIds(c, MadeChecks(c)) + HstsIds(c, SightedOrigins(c)), c, review)
  {
    ghost var checks, origins := MadeChecks(c), SightedOrigins(c);
    MadeAllChecks(c);
    var byOrigin, records := FileSightings(c);
    SightedAllOrigins(c, byOrigin);
    list := before;
    var pending := byOrigin.Keys;
    ghost var done: set<Origin> := {};
    assert ExposureIds(c, checks) + HstsIds(c, {}) == ExposureIds(c, checks);
    while pending != {}
      invariant pending + done == origins && pending !! done
      invariant Lists(list, ExposureIds(c, checks) + HstsIds(c, done), c, review)
      decreases pending
    {
      var o :| o in pending;
      var a := AssessHstsOrigin(c, o, byOrigin[o], records, review);
      NextHsts(list, checks, done, o, c, review);
      list := list + [a];
      pending, done := pending - {o}, done + {o};
    }
    assert done == origins;
  }

  // ---------------------------------------------------------------- the whole report

  /** The list holds exactly the assessments that the correlation yields, each once. */
  ghost predicate ListsAll(list: seq<Assessment>, c: CorrelationResult, review: Review) {
    && (forall i, j | 0 <= i < j < |list| :: list[i].id != list[j].id)
    && (forall i | 0 <= i < |list| :: Expected(c, list[i].id, review) == Some(list[i]))
    && (forall id :: Expected(c, id, review).Some? ==> exists i :: 0 <= i < |list| && list[i].id == id)
  }

  /** An identity under which something is expected belongs to one of the three loops. */
  lemma ExpectedIsListed(
    c: CorrelationResult, checks: set<Check>, origins: set<Origin>, id: AssessmentId, review: Review)
    requires OwnFindings(c) && AllChecks(c, checks) && AllOrigins(c, origins)
    requires Expected(c, id, review).Some?
    ensures id in ExposureIds(c, checks) + HstsIds(c, origins)
  {
    var claim := id.claim;
    if FindingUnder(c, claim).Some? {
      var f := FindingUnder(c, claim).value;
      assert FindingClaim(f) == claim;
      assert id in FindingIds(c, FindingsOf(c));
    } else if Missing(c, claim) {
      var k := Check(claim.origin, claim.rule);
      assert Checked(c, k) && CheckClaim(k) == claim;
      assert k in checks;
    } else {
      assert claim.origin in origins;
    }
  }

  /**
    `assess_correlation`, before its final sort. The identities are pairwise distinct, and
    every assessment is the one the correlation yields under its identity.
   */
  method AssessCorrelation(c: CorrelationResult, review: Review) returns (list: seq<Assessment>)
    requires OwnFindings(c)
    ensures ListsAll(list, c, review)
  {
    var findings := AssessFindings(c, review);
    var exposures := AssessMissing(c, findings, review);
    list := AssessHstsOrigins(c, exposures, review);
    MadeAllChecks(c);
    SightedOriginsAll(c);
    forall id | Expected(c, id, review).Some?
      ensures exists i :: 0 <= i < |list| && list[i].id == id
    {
      ExpectedIsListed(c, MadeChecks(c), SightedOrigins(c), id, review);
    }
  }
}

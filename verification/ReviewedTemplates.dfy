/**
  Reviewed scanner matches from the match to the comparison: when a stored Nuclei match
  supports an exposure, which template revision its evidence then names, and what follows for
  the comparison. The templates are named here by their own identifiers.
 */
module ReviewedTemplates {
  import opened Capture
  import opened Comparison
  import opened ComparisonLaws
  import opened ComparisonSides
  import opened Correlation
  import opened CorrelationLaws
  import opened Evidence
  import opened Feedback
  import opened HistoricalStates
  import opened LastingStates
  import opened Rules
  import opened Runs
  import opened Wrappers

  // ---------------------------------------------------------------- matches and their evidence

  /** A reviewed rule, with its template, its matcher and the resource it speaks of. */
  predicate Reviews(rule: RuleId, template: string, matcher: string, resource: Resource) {
    || (rule == DirectoryListing && template == "scopelens-directory-listing" && matcher == "listing" && resource == "/")
    || (rule == GitConfigExposure && template == "scopelens-exposed-git-config" && matcher == "git-config"
        && resource == "/.git/config")
  }

  /** Match `k` of the run is one of the finding. */
  predicate Hits(s: RunSource, k: nat, f: FindingIdentity, parsing: Parsing) {
    && k < |s.report.matches|
    && var x := s.report.matches[k];
       && x.origin == f.origin && x.templateId == f.templateId && x.matcher == f.matcher
       && parsing.matched(x.origin, x.location) == Some(f.resource)
  }

  /** The match was made with that revision of its template, and all of its evidence is Nuclei's. */
  predicate Confirms(x: ScannerMatch, revision: string) {
    x.templateRevision == revision && forall e | e in x.evidence :: e.scanner == Nuclei
  }

  /** The revisions that a piece of evidence names. */
  function NamedBy(use: Use): set<Value> {
    set n | 0 <= n < |use.facts| && use.facts[n].key == TemplateRevision :: use.facts[n].value
  }

  predicate NamesOnly(uses: seq<Use>, revision: string) {
    forall i | 0 <= i < |uses| :: NamedBy(uses[i]) == {Text(revision)}
  }

  lemma {:induction false} RunOccurrencesAre(s: RunSource, n: nat, refs: set<SourceRef>, o: Occurrence)
    requires n <= |s.report.matches|
    ensures o in RunOccurrences(s, n, refs)
            <==> exists k: nat :: k < n && MatchRef(s.runId, k) in refs && o == Occurrence(MatchRef(s.runId, k), s.report.matches[k])
  {
    if n > 0 {
      RunOccurrencesAre(s, n - 1, refs, o);
    }
  }

  predicate OccursIn(s: RunSource, refs: set<SourceRef>, o: Occurrence) {
    exists k: nat :: k < |s.report.matches| && MatchRef(s.runId, k) in refs
                     && o == Occurrence(MatchRef(s.runId, k), s.report.matches[k])
  }

  lemma {:induction false} OccurrencesAre(sources: seq<RunSource>, n: nat, refs: set<SourceRef>, o: Occurrence)
    requires n <= |sources|
    ensures o in Occurrences(sources, n, refs) <==> exists i: nat :: i < n && OccursIn(sources[i], refs, o)
  {
    if n > 0 {
      OccurrencesAre(sources, n - 1, refs, o);
      RunOccurrencesAre(sources[n - 1], |sources[n - 1].report.matches|, refs, o);
    }
  }

  lemma MatchUsesName(ref: SourceRef, x: ScannerMatch)
    ensures NamesOnly(MatchUses(ref, x), x.templateRevision)
    ensures MatchUses(ref, x) == [] <==> x.evidence == []
  {
    var uses := MatchUses(ref, x);
    forall i | 0 <= i < |uses|
      ensures NamedBy(uses[i]) == {Text(x.templateRevision)}
    {
      assert uses[i].facts[2] == Fact(TemplateRevision, Text(x.templateRevision));
    }
  }

  /** If all occurrences are of one revision, their evidence names that one; and there is some if one has any. */
  lemma {:induction false} UsesName(occurrences: seq<Occurrence>, n: nat, revision: string)
    requires n <= |occurrences| && forall i | 0 <= i < n :: occurrences[i].hit.templateRevision == revision
    ensures NamesOnly(UsesOf(occurrences, n), revision)
  {
    if n > 0 {
      UsesName(occurrences, n - 1, revision);
      MatchUsesName(occurrences[n - 1].ref, occurrences[n - 1].hit);
    }
  }

  lemma {:induction false} SomeUses(occurrences: seq<Occurrence>, n: nat)
    requires n <= |occurrences|
    ensures UsesOf(occurrences, n) != [] <==> exists i :: 0 <= i < n && occurrences[i].hit.evidence != []
  {
    if n > 0 {
      SomeUses(occurrences, n - 1);
    }
  }

  // ---------------------------------------------------------------- when a match supports an exposure

  /** The match stands in one of the runs, and is one of the finding. */
  predicate IsHit(sources: seq<RunSource>, f: FindingIdentity, parsing: Parsing, x: ScannerMatch) {
    exists i, k :: 0 <= i < |sources| && 0 <= k < |sources[i].report.matches|
                   && Hits(sources[i], k, f, parsing) && sources[i].report.matches[k] == x
  }

  /** Some match of the finding has evidence, and every one is of the reviewed revision. */
  ghost predicate Confirmed(sources: seq<RunSource>, f: FindingIdentity, parsing: Parsing, revision: string) {
    && (exists x :: IsHit(sources, f, parsing, x) && x.evidence != [])
    && (forall x | IsHit(sources, f, parsing, x) :: Confirms(x, revision))
  }

  predicate HitBy(occurrences: seq<Occurrence>, x: ScannerMatch) {
    exists j :: 0 <= j < |occurrences| && occurrences[j].hit == x
  }

  lemma OccurrencesAreHits(project: string, sources: seq<RunSource>, parsing: Parsing, f: FindingIdentity, x: ScannerMatch)
    requires Correlated(project, sources, parsing).Success? && f.project == project
    ensures var c := Correlated(project, sources, parsing).value;
            HitBy(FindingOccurrences(c, f), x) <==> IsHit(c.sources, f, parsing, x)
  {
    var c := Correlated(project, sources, parsing).value;
    var occurrences, refs := FindingOccurrences(c, f), FindingRefs(c, f);
    if HitBy(occurrences, x) {
      var j :| 0 <= j < |occurrences| && occurrences[j].hit == x;
      OccurrencesAre(c.sources, |c.sources|, refs, occurrences[j]);
      assert occurrences[j] in occurrences;
      var i: nat :| i < |c.sources| && OccursIn(c.sources[i], refs, occurrences[j]);
      var k: nat :| k < |c.sources[i].report.matches| && MatchRef(c.sources[i].runId, k) in refs
                    && occurrences[j] == Occurrence(MatchRef(c.sources[i].runId, k), c.sources[i].report.matches[k]);
      MatchesPartition(project, sources, parsing, i, k, Finding(f));
      assert Hits(c.sources[i], k, f, parsing);
    }
    if IsHit(c.sources, f, parsing, x) {
      var i, k :| 0 <= i < |c.sources| && 0 <= k < |c.sources[i].report.matches|
                  && Hits(c.sources[i], k, f, parsing) && c.sources[i].report.matches[k] == x;
      MatchesPartition(project, sources, parsing, i, k, Finding(f));
      var o := Occurrence(MatchRef(c.sources[i].runId, k), x);
      assert OccursIn(c.sources[i], refs, o);
      OccurrencesAre(c.sources, |c.sources|, refs, o);
      var j :| 0 <= j < |occurrences| && occurrences[j] == o;
    }
  }

  lemma ConfirmedBy(
    sources: seq<RunSource>, f: FindingIdentity, parsing: Parsing, revision: string, occurrences: seq<Occurrence>)
    requires forall x :: HitBy(occurrences, x) <==> IsHit(sources, f, parsing, x)
    ensures Confirmed(sources, f, parsing, revision)
            <==> (exists j :: 0 <= j < |occurrences| && occurrences[j].hit.evidence != [])
                 && forall j | 0 <= j < |occurrences| :: ReviewedMatch(occurrences[j].hit, revision)
  {
    forall x: ScannerMatch
      ensures ReviewedMatch(x, revision) <==> Confirms(x, revision)
    {
    }
    forall j | 0 <= j < |occurrences|
      ensures IsHit(sources, f, parsing, occurrences[j].hit)
    {
      assert HitBy(occurrences, occurrences[j].hit);
    }
  }

  /** The assessment of a finding is positive exactly when its matches confirm it, and then names that revision alone. */
  lemma FindingPositive(project: string, sources: seq<RunSource>, parsing: Parsing, f: FindingIdentity, review: Review)
    requires Correlated(project, sources, parsing).Success? && f.project == project
    ensures var c := Correlated(project, sources, parsing).value;
            var a := FindingAssessment(c, f, review);
            && (a.outcome == SupportedPositive
                <==> CorrectResource(f) && f.templateId in review.templates
                     && Confirmed(c.sources, f, parsing, review.templates[f.templateId]))
            && (a.outcome == SupportedPositive ==> a.uses != [] && NamesOnly(a.uses, review.templates[f.templateId]))
  {
    var c := Correlated(project, sources, parsing).value;
    var occurrences := FindingOccurrences(c, f);
    forall x
      ensures HitBy(occurrences, x) <==> IsHit(c.sources, f, parsing, x)
    {
      OccurrencesAreHits(project, sources, parsing, f, x);
    }
    SomeUses(occurrences, |occurrences|);
    if f.templateId in review.templates {
      ConfirmedBy(c.sources, f, parsing, review.templates[f.templateId], occurrences);
      if Capture.Reviewed(f, occurrences, |occurrences|, review) {
        UsesName(occurrences, |occurrences|, review.templates[f.templateId]);
      }
    }
  }

  lemma FindingIsGrouped(project: string, sources: seq<RunSource>, parsing: Parsing, f: FindingIdentity)
    requires Correlated(project, sources, parsing).Success? && f.project == project
    ensures var c := Correlated(project, sources, parsing).value;
            f in FindingsOf(c) <==> exists x :: IsHit(c.sources, f, parsing, x)
  {
    var c := Correlated(project, sources, parsing).value;
    if f in FindingsOf(c) {
      var r := FindingOccurs(project, sources, parsing, f);
      var i :| 0 <= i < |c.sources| && c.sources[i].runId == r.runId && r.ordinal < |c.sources[i].report.matches|;
      MatchesPartition(project, sources, parsing, i, r.ordinal, Finding(f));
      assert Hits(c.sources[i], r.ordinal, f, parsing);
      assert IsHit(c.sources, f, parsing, c.sources[i].report.matches[r.ordinal]);
    }
    if x :| IsHit(c.sources, f, parsing, x) {
      var i, k :| 0 <= i < |c.sources| && 0 <= k < |c.sources[i].report.matches|
                  && Hits(c.sources[i], k, f, parsing) && c.sources[i].report.matches[k] == x;
      MatchesPartition(project, sources, parsing, i, k, Finding(f));
    }
  }

  /** The finding that a reviewed claim is about. */
  function ReviewedFinding(project: string, claim: Claim, template: string, matcher: string): FindingIdentity {
    FindingIdentity(project, claim.origin, claim.resource, template, matcher)
  }

  /**
    From the scanner's matches to a positive assessment: the correlation of a selection yields
    one under a reviewed rule at its own resource exactly when some match of the rule's template
    and matcher there has evidence, and every such match was made by Nuclei with the reviewed
    revision. Its evidence then names that revision and no other.
   */
  lemma NucleiPositiveExactly(
    project: string, sources: seq<RunSource>, parsing: Parsing, claim: Claim, template: string, matcher: string,
    review: Review)
    requires Correlated(project, sources, parsing).Success? && claim.version == "1"
    requires Reviews(claim.rule, template, matcher, claim.resource)
    ensures var c := Correlated(project, sources, parsing).value;
            var a := Expected(c, AssessmentId(project, claim), review);
            && (a.Some? && a.value.outcome == SupportedPositive
                <==> template in review.templates
                     && Confirmed(c.sources, ReviewedFinding(project, claim, template, matcher), parsing,
                                  review.templates[template]))
            && (a.Some? && a.value.outcome == SupportedPositive ==>
                  a.value.uses != [] && NamesOnly(a.value.uses, review.templates[template]))
  {
    var c := CorrelatedParts(project, sources, parsing);
    var f := ReviewedFinding(project, claim, template, matcher);
    FindingIsGrouped(project, sources, parsing, f);
    FindingPositive(project, sources, parsing, f, review);
    ReviewsAre(claim.rule, template, matcher, claim.resource);
  }

  lemma ReviewsAre(rule: RuleId, template: string, matcher: string, resource: Resource)
    requires Reviews(rule, template, matcher, resource)
    ensures TemplateOf(rule) == Some((template, matcher)) && ReviewedRule(template, matcher) == Some(rule)
    ensures RuleResource(rule) == Some(resource)
    ensures forall origin :: ExposureClaim(rule, origin) == Some(Claim(rule, "1", origin, resource))
  {
  }

  /** The claims that can be compared at all: version, rule and the rule's own resource. */
  lemma KnownRulesAre(claim: Claim)
    ensures KnownRule(claim) <==>
            && claim.version == "1"
            && ((claim.rule == DirectoryListing && claim.resource == "/")
                || (claim.rule == GitConfigExposure && claim.resource == "/.git/config")
                || (claim.rule == HstsMissing && claim.resource == "/"))
  {
  }

  /** Nuclei looked at the origin in some run. */
  predicate Visited(sources: seq<RunSource>, origin: Origin) {
    exists i :: 0 <= i < |sources| && sources[i].report.evidence.scanner == Nuclei
                && sources[i].webTarget.Some? && sources[i].webTarget.value.origin == origin
  }

  lemma {:induction false} VisitedIs(sources: seq<RunSource>, n: nat, origin: Origin)
    requires n <= |sources|
    ensures NucleiRuns(sources, n, origin) != [] <==> Visited(sources[..n], origin)
  {
    if n > 0 {
      VisitedIs(sources, n - 1, origin);
      var part, before := sources[..n], sources[..n - 1];
      assert forall i | 0 <= i < n - 1 :: part[i] == before[i];
      if Visited(before, origin) {
        var i :| 0 <= i < |before| && before[i].report.evidence.scanner == Nuclei
                 && before[i].webTarget.Some? && before[i].webTarget.value.origin == origin;
        assert part[i] == before[i];
      }
    }
  }

  /** The finding that speaks for a reviewed claim is the one of its template and matcher. */
  lemma AssessedIs(project: string, sources: seq<RunSource>, parsing: Parsing, claim: Claim, template: string, matcher: string)
    requires Correlated(project, sources, parsing).Success?
    requires Reviews(claim.rule, template, matcher, claim.resource)
    ensures var c := Correlated(project, sources, parsing).value;
            Assessed(c, claim.origin, claim.rule)
            <==> ReviewedFinding(project, claim, template, matcher) in FindingsOf(c)
  {
    var c := CorrelatedParts(project, sources, parsing);
    var own := ReviewedFinding(project, claim, template, matcher);
    ReviewsAre(claim.rule, template, matcher, claim.resource);
    if Assessed(c, claim.origin, claim.rule) {
      var f :| f in FindingsOf(c) && CorrectResource(f) && f.origin == claim.origin && FindingRule(f) == claim.rule;
      var r := FindingOccurs(project, sources, parsing, f);
      assert f == own;
    }
    if own in FindingsOf(c) {
      assert CorrectResource(own) && FindingRule(own) == claim.rule;
    }
  }

  /**
    Every other assessment that stored Nuclei evidence yields under a reviewed rule at its own
    resource: there is one exactly if a match was made there or Nuclei looked at the origin; and
    without a reviewed match it is inconclusive, never evidence of absence.
   */
  lemma NucleiSilentExactly(
    project: string, sources: seq<RunSource>, parsing: Parsing, claim: Claim, template: string, matcher: string,
    review: Review)
    requires Correlated(project, sources, parsing).Success? && claim.version == "1"
    requires Reviews(claim.rule, template, matcher, claim.resource)
    ensures var c := Correlated(project, sources, parsing).value;
            var a := Expected(c, AssessmentId(project, claim), review);
            var matched := exists x :: IsHit(c.sources, ReviewedFinding(project, claim, template, matcher), parsing, x);
            && (a.Some? <==> matched || Visited(c.sources, claim.origin))
            && (a.Some? && a.value.outcome != SupportedPositive ==>
                  && a.value.outcome == Inconclusive
                  && a.value.reason == if matched then UnreviewedMatchContext else NoSupportedNegativeEvidence)
  {
    var c := CorrelatedParts(project, sources, parsing);
    var f := ReviewedFinding(project, claim, template, matcher);
    FindingIsGrouped(project, sources, parsing, f);
    AssessedIs(project, sources, parsing, claim, template, matcher);
    VisitedIs(c.sources, |c.sources|, claim.origin);
    assert c.sources[..|c.sources|] == c.sources;
    ReviewsAre(claim.rule, template, matcher, claim.resource);
  }

  /** No other claim is ever supported positively by stored evidence. */
  lemma OnlyReviewedPositive(c: CorrelationResult, id: AssessmentId, review: Review)
    requires Expected(c, id, review).Some? && Expected(c, id, review).value.outcome == SupportedPositive
    ensures id.project == c.project && id.claim.version == "1"
    ensures (id.claim.rule == DirectoryListing && id.claim.resource == "/")
            || (id.claim.rule == GitConfigExposure && id.claim.resource == "/.git/config")
  {
  }

  // ---------------------------------------------------------------- what it rests on

  /** What is cited of a match: one piece of its evidence, with the match's own template, matcher, revision and location. */
  predicate CitesMatch(u: Use, ref: SourceRef, x: ScannerMatch, e: EvidenceRef) {
    && e in x.evidence
    && u == ExistingCapture(ref, e, [
              Fact(TemplateId, Text(x.templateId)), Fact(MatcherKey, Text(x.matcher)),
              Fact(TemplateRevision, Text(x.templateRevision)), Fact(MatchedLocation, Text(x.location))])
  }

  ghost predicate CitesSome(u: Use, ref: SourceRef, x: ScannerMatch) {
    exists e :: CitesMatch(u, ref, x, e)
  }

  lemma MatchUsesAre(ref: SourceRef, x: ScannerMatch, u: Use)
    ensures u in MatchUses(ref, x) <==> CitesSome(u, ref, x)
  {
    var uses := MatchUses(ref, x);
    if u in uses {
      var i :| 0 <= i < |uses| && uses[i] == u;
      assert CitesMatch(u, ref, x, x.evidence[i]);
    }
    if e :| CitesMatch(u, ref, x, e) {
      var i :| 0 <= i < |x.evidence| && x.evidence[i] == e;
      assert uses[i] == u;
    }
  }

  lemma {:induction false} UsesAre(occurrences: seq<Occurrence>, n: nat, u: Use)
    requires n <= |occurrences|
    ensures u in UsesOf(occurrences, n)
            <==> exists j :: 0 <= j < n && CitesSome(u, occurrences[j].ref, occurrences[j].hit)
  {
    if n > 0 {
      UsesAre(occurrences, n - 1, u);
      MatchUsesAre(occurrences[n - 1].ref, occurrences[n - 1].hit, u);
    }
  }

  /** The evidence of a match of the finding, in some run. */
  ghost predicate CitesHit(sources: seq<RunSource>, f: FindingIdentity, parsing: Parsing, u: Use) {
    exists i, k :: 0 <= i < |sources| && 0 <= k < |sources[i].report.matches| && Hits(sources[i], k, f, parsing)
                   && CitesSome(u, MatchRef(sources[i].runId, k), sources[i].report.matches[k])
  }

  /** What the assessment of a finding needed, and the evidence it names: all that its matches carry, and no more. */
  lemma FindingRests(
    project: string, sources: seq<RunSource>, parsing: Parsing, f: FindingIdentity, review: Review, u: Use)
    requires Correlated(project, sources, parsing).Success? && f.project == project
    ensures var c := Correlated(project, sources, parsing).value;
            var a := FindingAssessment(c, f, review);
            && (u in a.uses <==> CitesHit(c.sources, f, parsing, u))
            && a.prerequisites == [
                 Prerequisite(ReviewedTemplate, if a.outcome == SupportedPositive then Met else NotMet),
                 Prerequisite(PositiveMatchEvidence, Met)]
            && (a.outcome == SupportedPositive ==> a.reason == ReviewedScannerMatch)
  {
    var c := CorrelatedParts(project, sources, parsing);
    var occurrences := FindingOccurrences(c, f);
    UsesAre(occurrences, |occurrences|, u);
    OccurrencesCite(project, sources, parsing, f, u);
  }

  lemma OccurrencesCite(project: string, sources: seq<RunSource>, parsing: Parsing, f: FindingIdentity, u: Use)
    requires Correlated(project, sources, parsing).Success? && f.project == project
    ensures var c := Correlated(project, sources, parsing).value;
            var occurrences := FindingOccurrences(c, f);
            (exists j :: 0 <= j < |occurrences| && CitesSome(u, occurrences[j].ref, occurrences[j].hit))
            <==> CitesHit(c.sources, f, parsing, u)
  {
    var c := CorrelatedParts(project, sources, parsing);
    var occurrences, refs := FindingOccurrences(c, f), FindingRefs(c, f);
    if j :| 0 <= j < |occurrences| && CitesSome(u, occurrences[j].ref, occurrences[j].hit) {
      OccurrencesAre(c.sources, |c.sources|, refs, occurrences[j]);
      assert occurrences[j] in occurrences;
      var i: nat :| i < |c.sources| && OccursIn(c.sources[i], refs, occurrences[j]);
      var k: nat :| k < |c.sources[i].report.matches| && MatchRef(c.sources[i].runId, k) in refs
                    && occurrences[j] == Occurrence(MatchRef(c.sources[i].runId, k), c.sources[i].report.matches[k]);
      MatchesPartition(project, sources, parsing, i, k, Finding(f));
      assert Hits(c.sources[i], k, f, parsing);
    }
    if i, k :| 0 <= i < |c.sources| && 0 <= k < |c.sources[i].report.matches| && Hits(c.sources[i], k, f, parsing)
               && CitesSome(u, MatchRef(c.sources[i].runId, k), c.sources[i].report.matches[k]) {
      MatchesPartition(project, sources, parsing, i, k, Finding(f));
      var o := Occurrence(MatchRef(c.sources[i].runId, k), c.sources[i].report.matches[k]);
      assert OccursIn(c.sources[i], refs, o);
      OccurrencesAre(c.sources, |c.sources|, refs, o);
      var j :| 0 <= j < |occurrences| && occurrences[j] == o;
    }
  }

  /** Nuclei looked at the origin in the run, which is cited with the number of its matches. */
  predicate CitesLook(s: RunSource, origin: Origin, u: Use) {
    && s.report.evidence.scanner == Nuclei && s.webTarget.Some? && s.webTarget.value.origin == origin
    && u == ExistingCapture(ContextRef(s.runId), s.report.evidence, [Fact(MatchCount, Whole(|s.report.matches|))])
  }

  lemma {:induction false} LooksAre(sources: seq<RunSource>, n: nat, origin: Origin, s: RunSource)
    requires n <= |sources|
    ensures s in NucleiRuns(sources, n, origin) <==> exists i :: 0 <= i < n && sources[i] == s && NucleiRun(s, origin)
  {
    if n > 0 {
      LooksAre(sources, n - 1, origin, s);
    }
  }

  /** Where Nuclei looked and found nothing, exactly the runs that looked are cited, and absence is never shown. */
  lemma SilenceRests(c: CorrelationResult, claim: Claim, u: Use)
    ensures var a := MissingAssessment(c, claim);
            && (u in a.uses <==> exists i :: 0 <= i < |c.sources| && CitesLook(c.sources[i], claim.origin, u))
            && a.prerequisites == [Prerequisite(ReviewedTemplate, Met), Prerequisite(CompleteNegativeEvidence, Unknown)]
  {
    var runs := NucleiRuns(c.sources, |c.sources|, claim.origin);
    var uses := MissingUses(runs);
    if u in uses {
      var j :| 0 <= j < |uses| && uses[j] == u;
      LooksAre(c.sources, |c.sources|, claim.origin, runs[j]);
      assert runs[j] in runs;
      var i :| 0 <= i < |c.sources| && c.sources[i] == runs[j] && NucleiRun(runs[j], claim.origin);
      assert CitesLook(c.sources[i], claim.origin, u);
    }
    if i :| 0 <= i < |c.sources| && CitesLook(c.sources[i], claim.origin, u) {
      LooksAre(c.sources, |c.sources|, claim.origin, c.sources[i]);
      var j :| 0 <= j < |runs| && runs[j] == c.sources[i];
      assert uses[j] == u;
    }
  }

  // ---------------------------------------------------------------- what the comparison makes of it

  /** Stored evidence that supports a reviewed exposure, as its own correlation yields it. */
  predicate ReviewedPositive(basis: Basis, a: Assessment, template: string, matcher: string) {
    && basis.CaptureBasis? && a.outcome == SupportedPositive
    && Expected(basis.correlation, a.id, basis.review) == Some(a)
    && Reviews(a.claim.rule, template, matcher, a.claim.resource)
  }

  lemma PositiveNames(basis: Basis, a: Assessment, template: string, matcher: string)
    requires ReviewedPositive(basis, a, template, matcher)
    ensures template in basis.review.templates && NamesOnly(a.uses, basis.review.templates[template])
    ensures a.uses != [] && KnownRule(a.claim) && a.id.claim == a.claim
  {
    var c, claim := basis.correlation, a.id.claim;
    ExpectedCites(c, a.id, basis.review);
    ReviewsAre(claim.rule, template, matcher, claim.resource);
    var f := FindingUnder(c, claim).value;
    var occurrences := FindingOccurrences(c, f);
    UsesName(occurrences, |occurrences|, basis.review.templates[template]);
  }

  /** At an address, it names the reviewed revision and no other. */
  lemma PositiveRevisions(basis: Basis, a: Assessment, address: Option<Address>, template: string, matcher: string)
    requires ReviewedPositive(basis, a, template, matcher) && AllResolve(basis, a)
    requires BoundViews(basis, a, address) != {}
    ensures template in basis.review.templates
    ensures Revisions(BoundViews(basis, a, address)) == {Text(basis.review.templates[template])}
  {
    PositiveNames(basis, a, template, matcher);
    var views, revision := BoundViews(basis, a, address), Text(basis.review.templates[template]);
    forall v | v in views
      ensures NamedBy(v.use) == {revision}
    {
      var i :| 0 <= i < |a.uses| && ViewOf(basis, a, a.uses[i]).address == address && v == ViewOf(basis, a, a.uses[i]);
      assert v.use == a.uses[i];
    }
    forall r | r in Revisions(views)
      ensures r == revision
    {
      var v, n :| v in views && 0 <= n < |v.use.facts| && v.use.facts[n].key == TemplateRevision && v.use.facts[n].value == r;
      assert r in NamedBy(v.use);
    }
    var v :| v in views;
    assert revision in NamedBy(v.use);
    var n :| 0 <= n < |v.use.facts| && v.use.facts[n].key == TemplateRevision && v.use.facts[n].value == revision;
  }

  lemma PositiveSupports(basis: Basis, a: Assessment, address: Option<Address>, template: string, matcher: string)
    requires ReviewedPositive(basis, a, template, matcher) && AllResolve(basis, a)
    requires BoundViews(basis, a, address) != {} && ComparisonLaws.AllReadable(BoundViews(basis, a, address))
    ensures Supports(basis, a, address, SupportedPositive)
  {
    PositiveNames(basis, a, template, matcher);
    OwnViewsValid(basis, a, address);
  }

  /** What is needed of stored evidence to be compared at a context. */
  predicate ReadableThere(basis: Basis, a: Assessment, key: ContextKey)
    requires AllResolve(basis, a)
  {
    && key.address.Some? && key == ComparisonSides.KeyOf(a, key.address)
    && BoundViews(basis, a, key.address) != {} && ComparisonLaws.AllReadable(BoundViews(basis, a, key.address))
  }

  lemma ReviewedHere(rule: RuleId, template: string, matcher: string, resource: Resource, revisions: set<Value>, templates: map<string, string>)
    requires Reviews(rule, template, matcher, resource) && revisions != {}
    ensures HistoricalStates.Reviewed(rule, revisions, templates)
            <==> template in templates && revisions == {Text(templates[template])}
  {
  }

  lemma PositivesMatch(
    before: Basis, a: Assessment, after: Basis, b: Assessment, key: ContextKey, template: string, matcher: string)
    requires AllResolve(before, a) && ReviewedPositive(before, a, template, matcher) && ReadableThere(before, a, key)
    requires AllResolve(after, b) && ReviewedPositive(after, b, template, matcher) && ReadableThere(after, b, key)
    requires before.review.templates == after.review.templates
    ensures Matched(before, a, after, b, key, before.review.templates)
  {
    PositiveSupports(before, a, key.address, template, matcher);
    PositiveSupports(after, b, key.address, template, matcher);
    PositiveRevisions(before, a, key.address, template, matcher);
    PositiveRevisions(after, b, key.address, template, matcher);
    var revisions := Revisions(BoundViews(before, a, key.address)) + Revisions(BoundViews(after, b, key.address));
    ReviewedHere(key.rule, template, matcher, key.resource, revisions, before.review.templates);
  }

  /**
    A reviewed match that is found again: two selections whose stored evidence supports the same
    reviewed exposure at one address leave the context unchanged exactly when the bytes are the
    same, or all of the later evidence is later and none of it shared.
   */
  lemma {:induction false} PositivesPersist(
    before: Basis, baseline: seq<Assessment>, b: Entries, after: Basis, current: seq<Assessment>, c: Entries,
    key: ContextKey, i: nat, j: nat, template: string, matcher: string)
    requires Build(before, baseline, |baseline|) == Success(b) && Build(after, current, |current|) == Success(c)
    requires i < |baseline| && AllResolve(before, baseline[i]) && ReviewedPositive(before, baseline[i], template, matcher)
    requires j < |current| && AllResolve(after, current[j]) && ReviewedPositive(after, current[j], template, matcher)
    requires before.review.templates == after.review.templates
    requires ReadableThere(before, baseline[i], key) && ReadableThere(after, current[j], key)
    ensures Conclude(key.address, EntryAt(b, key), EntryAt(c, key), before.review.templates).state == Unchanged
            <==> SameOrEarlier(BoundViews(before, baseline[i], key.address), BoundViews(after, current[j], key.address))
  {
    PositivesMatch(before, baseline[i], after, current[j], key, template, matcher);
    EntryBehind(before, baseline, b, key, i);
    EntryBehind(after, current, c, key, j);
    PairDecided(before, baseline[i], b[key], after, current[j], c[key], key, before.review.templates);
  }

  lemma NegativeSettles(
    before: Basis, a: Assessment, after: Basis, b: Assessment, key: ContextKey, template: string, matcher: string)
    requires AllResolve(before, a) && ReviewedPositive(before, a, template, matcher) && ReadableThere(before, a, key)
    requires AllResolve(after, b) && key == ComparisonSides.KeyOf(b, key.address)
    requires Supports(after, b, key.address, SupportedNegative)
    requires Precede(BoundViews(before, a, key.address), BoundViews(after, b, key.address))
    ensures template in before.review.templates
    ensures Settles(before, a, after, b, key, before.review.templates)
            <==> Revisions(BoundViews(after, b, key.address)) <= {Text(before.review.templates[template])}
  {
    var templates := before.review.templates;
    PositiveSupports(before, a, key.address, template, matcher);
    PositiveRevisions(before, a, key.address, template, matcher);
    var named := Revisions(BoundViews(after, b, key.address));
    var revisions := Revisions(BoundViews(before, a, key.address)) + named;
    ReviewedHere(key.rule, template, matcher, key.resource, revisions, templates);
    assert named <= {Text(templates[template])} <==> revisions == {Text(templates[template])};
  }

  /**
    A reviewed match that a later check no longer finds: the context is resolved exactly when
    the check names no revision but the reviewed one.
   */
  lemma {:induction false} PositiveThenNegative(
    before: Basis, baseline: seq<Assessment>, b: Entries, after: Basis, current: seq<Assessment>, c: Entries,
    key: ContextKey, i: nat, j: nat, template: string, matcher: string)
    requires Build(before, baseline, |baseline|) == Success(b) && Build(after, current, |current|) == Success(c)
    requires i < |baseline| && AllResolve(before, baseline[i]) && ReviewedPositive(before, baseline[i], template, matcher)
    requires j < |current| && AllResolve(after, current[j]) && ReadableThere(before, baseline[i], key)
    requires key == ComparisonSides.KeyOf(current[j], key.address)
    requires Supports(after, current[j], key.address, SupportedNegative)
    requires Precede(BoundViews(before, baseline[i], key.address), BoundViews(after, current[j], key.address))
    ensures template in before.review.templates
    ensures Conclude(key.address, EntryAt(b, key), EntryAt(c, key), before.review.templates).state == Resolved
            <==> Revisions(BoundViews(after, current[j], key.address)) <= {Text(before.review.templates[template])}
  {
    NegativeSettles(before, baseline[i], after, current[j], key, template, matcher);
    EntryBehind(before, baseline, b, key, i);
    EntryBehind(after, current, c, key, j);
    SettlesExactly(before, baseline[i], b[key], after, current[j], c[key], key, before.review.templates);
  }
}

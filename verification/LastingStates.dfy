/**
  When a context is unchanged, and when it is new against a comparable baseline, from the
  evidence of two whole selections.
 */
module LastingStates {
  import opened Comparison
  import opened ComparisonLaws
  import opened ComparisonSides
  import opened Evidence
  import opened HistoricalStates
  import opened StateLaws
  import opened Wrappers

  /** The evidence of the one side is from the very bytes of the other, or all of it is earlier. */
  predicate SameOrEarlier(earlier: set<View>, later: set<View>) {
    (DigestSet(earlier) == DigestSet(later) != {}) || Precede(earlier, later)
  }

  /** Two assessments can be held against each other at a context: evidence, rule and revisions allow it. */
  predicate Matched(
    before: Basis, a: Assessment, after: Basis, b: Assessment, key: ContextKey, templates: map<string, string>)
    requires AllResolve(before, a) && AllResolve(after, b)
  {
    && key.address.Some? && key == KeyOf(a, key.address) && key == KeyOf(b, key.address)
    && Supports(before, a, key.address, a.outcome) && Supports(after, b, key.address, b.outcome)
    && Reviewed(
         key.rule, Revisions(BoundViews(before, a, key.address)) + Revisions(BoundViews(after, b, key.address)), templates)
  }

  /** The same supported outcome on both sides. */
  predicate Endures(
    before: Basis, a: Assessment, after: Basis, b: Assessment, key: ContextKey, templates: map<string, string>)
    requires AllResolve(before, a) && AllResolve(after, b)
  {
    && Matched(before, a, after, b, key, templates)
    && a.outcome == b.outcome != Inconclusive
    && SameOrEarlier(BoundViews(before, a, key.address), BoundViews(after, b, key.address))
  }

  /** The condition appears where its absence was supported. */
  predicate Emerges(
    before: Basis, a: Assessment, after: Basis, b: Assessment, key: ContextKey, templates: map<string, string>)
    requires AllResolve(before, a) && AllResolve(after, b)
  {
    && Matched(before, a, after, b, key, templates)
    && a.outcome == SupportedNegative && b.outcome == SupportedPositive
    && Precede(BoundViews(before, a, key.address), BoundViews(after, b, key.address))
  }

  lemma MatchedBySums(
    before: Basis, a: Assessment, b: Entry, after: Basis, a': Assessment, c: Entry, key: ContextKey,
    templates: map<string, string>)
    requires AllResolve(before, a) && b.assessment == a && key == KeyOf(a, key.address) && b.address == key.address
    requires AllResolve(after, a') && c.assessment == a' && key == KeyOf(a', key.address) && c.address == key.address
    requires NamesRule(b) && NamesRule(c)
    requires var earlier := BoundViews(before, a, key.address); earlier != {} && Sums(earlier, b)
    requires var later := BoundViews(after, a', key.address); later != {} && Sums(later, c)
    ensures Matched(before, a, after, a', key, templates) <==> b.healthy && c.healthy && Compatible(b, c, templates)
    ensures IsLater(b, c) <==> Precede(BoundViews(before, a, key.address), BoundViews(after, a', key.address))
  {
    var earlier, later := BoundViews(before, a, key.address), BoundViews(after, a', key.address);
    LaterMeans(b, c, earlier, later);
    RevisionsMean(b, earlier);
    RevisionsMean(c, later);
    ReviewedIs(b, c, templates);
    if b.semanticsValid && c.semanticsValid {
      assert b.assessment.claim == c.assessment.claim;
    }
  }

  /** Two entries with their comparison, without the order of the decision chain. */
  lemma PairOfEntries(key: ContextKey, b: Entry, c: Entry, templates: map<string, string>)
    ensures var state := Conclude(key.address, Some(b), Some(c), templates).state;
            var matched := b.healthy && c.healthy && Compatible(b, c, templates);
            && (state == Unchanged <==>
                  && matched && b.assessment.outcome == c.assessment.outcome != Inconclusive
                  && ((b.digests == c.digests != {}) || IsLater(b, c)))
            && (matched && b.assessment.outcome != Inconclusive ==>
                  (state == New <==> b.assessment.outcome == SupportedNegative && Positive(c) && IsLater(b, c)))
  {
    OtherStatesExactly(key.address, Some(b), Some(c), templates);
  }

  /** Of two entries with evidence, by that evidence. */
  lemma PairDecided(
    before: Basis, a: Assessment, b: Entry, after: Basis, a': Assessment, c: Entry, key: ContextKey,
    templates: map<string, string>)
    requires AllResolve(before, a) && Stands(before, a, key) && Records(before, a, key.address, b)
    requires AllResolve(after, a') && Stands(after, a', key) && Records(after, a', key.address, c)
    ensures var conclusion := Conclude(key.address, Some(b), Some(c), templates);
            && (conclusion.state == Unchanged <==> Endures(before, a, after, a', key, templates))
            && (Emerges(before, a, after, a', key, templates) ==> conclusion.state == New)
            && (conclusion.state == New && Matched(before, a, after, a', key, templates) && a.outcome != Inconclusive ==>
                  Emerges(before, a, after, a', key, templates))
  {
    ValidRule(before, a, key.address, b);
    ValidRule(after, a', key.address, c);
    PairOfEntries(key, b, c, templates);
    if a.uses != [] && a'.uses != [] {
      MatchedBySums(before, a, b, after, a', c, key, templates);
    }
  }

  lemma UnchangedNeeds(
    before: Basis, baseline: seq<Assessment>, b: Entries, after: Basis, current: seq<Assessment>, c: Entries,
    key: ContextKey, templates: map<string, string>) returns (i: nat, j: nat)
    requires Build(before, baseline, |baseline|) == Success(b) && Build(after, current, |current|) == Success(c)
    requires Conclude(key.address, EntryAt(b, key), EntryAt(c, key), templates).state == Unchanged
    ensures i < |baseline| && AllResolve(before, baseline[i])
    ensures j < |current| && AllResolve(after, current[j])
    ensures Endures(before, baseline[i], after, current[j], key, templates)
  {
    OtherStatesExactly(key.address, EntryAt(b, key), EntryAt(c, key), templates);
    i := AssessmentBehind(before, baseline, b, key);
    j := AssessmentBehind(after, current, c, key);
    PairDecided(before, baseline[i], b[key], after, current[j], c[key], key, templates);
  }

  lemma {:induction false} UnchangedSuffices(
    before: Basis, baseline: seq<Assessment>, b: Entries, after: Basis, current: seq<Assessment>, c: Entries,
    key: ContextKey, templates: map<string, string>, i: nat, j: nat)
    requires Build(before, baseline, |baseline|) == Success(b) && Build(after, current, |current|) == Success(c)
    requires i < |baseline| && AllResolve(before, baseline[i])
    requires j < |current| && AllResolve(after, current[j])
    requires Endures(before, baseline[i], after, current[j], key, templates)
    ensures Conclude(key.address, EntryAt(b, key), EntryAt(c, key), templates).state == Unchanged
  {
    EntryBehind(before, baseline, b, key, i);
    EntryBehind(after, current, c, key, j);
    PairDecided(before, baseline[i], b[key], after, current[j], c[key], key, templates);
  }

  lemma {:induction false} EmergingIsNew(
    before: Basis, baseline: seq<Assessment>, b: Entries, after: Basis, current: seq<Assessment>, c: Entries,
    key: ContextKey, templates: map<string, string>, i: nat, j: nat)
    requires Build(before, baseline, |baseline|) == Success(b) && Build(after, current, |current|) == Success(c)
    requires i < |baseline| && AllResolve(before, baseline[i])
    requires j < |current| && AllResolve(after, current[j])
    requires Emerges(before, baseline[i], after, current[j], key, templates)
    ensures Conclude(key.address, EntryAt(b, key), EntryAt(c, key), templates).state == New
  {
    EntryBehind(before, baseline, b, key, i);
    EntryBehind(after, current, c, key, j);
    PairDecided(before, baseline[i], b[key], after, current[j], c[key], key, templates);
  }

  /**
    When a context is unchanged: exactly when some assessment of either side supports the same
    outcome there, on bound, readable and valid evidence, from the very same bytes or all of it
    later and none of it shared, naming no template revision but the reviewed one.
   */
  lemma {:induction false} UnchangedExactly(
    before: Basis, baseline: seq<Assessment>, b: Entries, after: Basis, current: seq<Assessment>, c: Entries,
    key: ContextKey, templates: map<string, string>)
    requires Build(before, baseline, |baseline|) == Success(b) && Build(after, current, |current|) == Success(c)
    ensures forall i | 0 <= i < |baseline| :: AllResolve(before, baseline[i])
    ensures forall j | 0 <= j < |current| :: AllResolve(after, current[j])
    ensures Conclude(key.address, EntryAt(b, key), EntryAt(c, key), templates).state == Unchanged <==>
            exists i, j :: 0 <= i < |baseline| && 0 <= j < |current|
                           && Endures(before, baseline[i], after, current[j], key, templates)
  {
    AllSideResolve(before, baseline);
    AllSideResolve(after, current);
    if Conclude(key.address, EntryAt(b, key), EntryAt(c, key), templates).state == Unchanged {
      var i, j := UnchangedNeeds(before, baseline, b, after, current, c, key, templates);
    }
    if i, j :| 0 <= i < |baseline| && 0 <= j < |current| && Endures(before, baseline[i], after, current[j], key, templates) {
      UnchangedSuffices(before, baseline, b, after, current, c, key, templates, i, j);
    }
  }
}

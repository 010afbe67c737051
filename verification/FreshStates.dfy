/** What `resolved` says of fresh rechecks, acquisition by acquisition. */
module FreshStates {
  import opened Comparison
  import opened ComparisonLaws
  import opened ComparisonSides
  import opened Evidence
  import opened Facts
  import opened FreshContext
  import opened HistoricalStates
  import opened Wrappers

  /** The acquisition that a use cites. */
  function AcquisitionBehind(basis: Basis, use: Use): Acquisition
    requires basis.FreshBasis? && Resolves(basis, use)
  {
    AcquisitionOf(basis.acquisitions, use.acquisition).value
  }

  /** The indices of an assessment's uses whose acquisitions went to one address. */
  function UsesAt(basis: Basis, a: Assessment, address: Address): set<nat>
    requires basis.FreshBasis? && AllResolve(basis, a)
  {
    set i: nat | i < |a.uses| && AcquisitionBehind(basis, a.uses[i]).address == address
  }

  /** The artifact of the acquisition behind use `i` was found ready. */
  predicate IsReady(basis: Basis, a: Assessment, i: nat)
    requires basis.FreshBasis? && AllResolve(basis, a) && i < |a.uses|
  {
    var q, health := AcquisitionBehind(basis, a.uses[i]), basis.acquisitionHealth;
    q.evidence.Some? && health.Some? && q.id in health.value && health.value[q.id] == Ready
  }

  function ShaOf(q: Acquisition): Option<Digest> {
    match q.evidence case Some(e) => Some(e.sha) case None => None
  }

  /** A use at the address that carries the same artifact as use `i`, and whose copy is ready. */
  predicate HasReadyCopy(basis: Basis, a: Assessment, address: Address, i: nat)
    requires basis.FreshBasis? && AllResolve(basis, a) && i < |a.uses|
  {
    exists j: nat :: j in UsesAt(basis, a, address) && IsReady(basis, a, j)
                     && ShaOf(AcquisitionBehind(basis, a.uses[j])) == ShaOf(AcquisitionBehind(basis, a.uses[i]))
  }

  /**
    What an acquisition must be to support an outcome of a claim: of the claim's origin and
    resource, with a stored artifact and a usable, unchallenged, unencoded response; complete,
    or truncated for the header rule alone; with a status the outcome admits.
   */
  predicate Admissible(claim: Claim, outcome: Outcome, q: Acquisition) {
    && q.origin == claim.origin && q.resource == claim.resource
    && UsableEvidence(q)
    && var r := q.response.value;
       if claim.rule == HstsMissing then
         && (q.status.Completed? || q.status.Truncated?)
         && r.status == 200 && (r.hstsPresent <==> outcome == SupportedNegative)
       else
         && q.status.Completed? && r.bodyComplete
         && (r.status == 200 || (outcome == SupportedNegative && (r.status == 404 || r.status == 410)))
  }

  /** The prerequisites and facts that an assessment must record for an admissible acquisition. */
  predicate WellRecorded(a: Assessment, q: Acquisition, use: Use)
    requires q.response.Some?
  {
    var r, facts, positive := q.response.value, use.facts, a.outcome == SupportedPositive;
    && AllMet(a.prerequisites, RequiredIds(a.claim.rule))
    && DistinctKeys(facts) && Equals(facts, StatusCode, Whole(r.status))
    && if a.claim.rule == HstsMissing then Is(facts, HeadersCompleteKey, true) && Is(facts, HstsPresentKey, !positive)
       else
         && Is(facts, BodyCompleteKey, true) && Equals(facts, BodyShaKey, DigestText(r.bodySha))
         && Is(facts, MarkersPresent, positive)
  }

  lemma ContextValidMeans(a: Assessment, q: Acquisition, use: Use)
    requires a.outcome != Inconclusive
    ensures FreshContextValid(a, q, use) <==> Admissible(a.claim, a.outcome, q) && WellRecorded(a, q, use)
  {
  }

  lemma ViewAt(basis: Basis, a: Assessment, address: Address, i: nat)
    requires basis.FreshBasis? && AllResolve(basis, a) && i < |a.uses|
    ensures i in UsesAt(basis, a, address) <==> ViewOf(basis, a, a.uses[i]).address == Some(address)
    ensures i in UsesAt(basis, a, address) ==> ViewOf(basis, a, a.uses[i]) in BoundViews(basis, a, Some(address))
  {
  }

  lemma ViewBehind(basis: Basis, a: Assessment, address: Address, v: View) returns (i: nat)
    requires basis.FreshBasis? && AllResolve(basis, a) && v in BoundViews(basis, a, Some(address))
    ensures i in UsesAt(basis, a, address) && v == ViewOf(basis, a, a.uses[i])
  {
    i :| 0 <= i < |a.uses| && ViewOf(basis, a, a.uses[i]).address == Some(address) && v == ViewOf(basis, a, a.uses[i]);
    ViewAt(basis, a, address, i);
  }

  /** A use's view is healthy without a ready artifact only where no artifact was captured. */
  lemma ViewHealth(basis: Basis, a: Assessment, i: nat)
    requires basis.FreshBasis? && AllResolve(basis, a) && i < |a.uses|
    ensures var v, q := ViewOf(basis, a, a.uses[i]), AcquisitionBehind(basis, a.uses[i]);
            && v.digest == ShaOf(q)
            && (v.healthy <==> q.evidence.None? || IsReady(basis, a, i))
            && (v.valid <==> KnownRule(a.claim) && FreshContextValid(a, q, a.uses[i]))
            && v.window == (if q.finishedAt.Some? && q.startedAt <= q.finishedAt.value
                            then Some(Window(q.startedAt, q.finishedAt.value)) else None)
  {
  }

  predicate BearsAt(basis: Basis, a: Assessment, address: Address, i: nat)
    requires basis.FreshBasis? && AllResolve(basis, a) && i < |a.uses|
  {
    && Admissible(a.claim, a.outcome, AcquisitionBehind(basis, a.uses[i]))
    && WellRecorded(a, AcquisitionBehind(basis, a.uses[i]), a.uses[i])
    && HasReadyCopy(basis, a, address, i)
  }

  /** Every acquisition cited at the address is admissible, well recorded, and has a ready copy. */
  predicate Bears(basis: Basis, a: Assessment, address: Address)
    requires basis.FreshBasis? && AllResolve(basis, a)
  {
    && KnownRule(a.claim)
    && UsesAt(basis, a, address) != {}
    && forall i: nat | i in UsesAt(basis, a, address) :: BearsAt(basis, a, address, i)
  }

  lemma BearsIfSupports(basis: Basis, a: Assessment, address: Address)
    requires basis.FreshBasis? && AllResolve(basis, a) && a.outcome != Inconclusive
    requires Supports(basis, a, Some(address), a.outcome)
    ensures Bears(basis, a, address)
  {
    var views := BoundViews(basis, a, Some(address));
    var some :| some in views;
    var k := ViewBehind(basis, a, address, some);
    ViewHealth(basis, a, k);
    forall i: nat | i in UsesAt(basis, a, address)
      ensures BearsAt(basis, a, address, i)
    {
      ViewAt(basis, a, address, i);
      ViewHealth(basis, a, i);
      ContextValidMeans(a, AcquisitionBehind(basis, a.uses[i]), a.uses[i]);
      var v := ViewOf(basis, a, a.uses[i]);
      assert ReadableAt(views, v.digest);
      var w :| w in views && w.digest == v.digest && w.healthy;
      var j := ViewBehind(basis, a, address, w);
      ViewHealth(basis, a, j);
    }
  }

  lemma ValidWhereBorne(basis: Basis, a: Assessment, address: Address, i: nat)
    requires basis.FreshBasis? && AllResolve(basis, a) && a.outcome != Inconclusive && KnownRule(a.claim)
    requires i < |a.uses| && BearsAt(basis, a, address, i)
    ensures ViewOf(basis, a, a.uses[i]).valid
  {
    ViewHealth(basis, a, i);
    ContextValidMeans(a, AcquisitionBehind(basis, a.uses[i]), a.uses[i]);
  }

  lemma ReadableWhereCopied(basis: Basis, a: Assessment, address: Address, i: nat)
    requires basis.FreshBasis? && AllResolve(basis, a) && i < |a.uses| && HasReadyCopy(basis, a, address, i)
    ensures ReadableAt(BoundViews(basis, a, Some(address)), ViewOf(basis, a, a.uses[i]).digest)
  {
    var j: nat :| j in UsesAt(basis, a, address) && IsReady(basis, a, j)
                  && ShaOf(AcquisitionBehind(basis, a.uses[j])) == ShaOf(AcquisitionBehind(basis, a.uses[i]));
    ViewHealth(basis, a, i);
    ViewAt(basis, a, address, j);
    ViewHealth(basis, a, j);
  }

  lemma ViewBorne(basis: Basis, a: Assessment, address: Address, v: View)
    requires basis.FreshBasis? && AllResolve(basis, a) && a.outcome != Inconclusive
    requires Bears(basis, a, address) && v in BoundViews(basis, a, Some(address))
    ensures v.valid && ReadableAt(BoundViews(basis, a, Some(address)), v.digest)
  {
    var i := ViewBehind(basis, a, address, v);
    assert BearsAt(basis, a, address, i);
    ValidWhereBorne(basis, a, address, i);
    ReadableWhereCopied(basis, a, address, i);
  }

  lemma SupportsIfBears(basis: Basis, a: Assessment, address: Address)
    requires basis.FreshBasis? && AllResolve(basis, a) && a.outcome != Inconclusive
    requires Bears(basis, a, address)
    ensures Supports(basis, a, Some(address), a.outcome)
  {
    var k: nat :| k in UsesAt(basis, a, address);
    ViewAt(basis, a, address, k);
    forall v | v in BoundViews(basis, a, Some(address))
      ensures v.valid && ReadableAt(BoundViews(basis, a, Some(address)), v.digest)
    {
      ViewBorne(basis, a, address, v);
    }
  }

  /**
    What it takes of fresh evidence to support an outcome at an address, exactly: a known
    rule, some acquisition there, and each one admissible, well recorded and with a ready copy.
   */
  lemma SupportsExactly(basis: Basis, a: Assessment, address: Address)
    requires basis.FreshBasis? && AllResolve(basis, a) && a.outcome != Inconclusive
    ensures Supports(basis, a, Some(address), a.outcome) <==> Bears(basis, a, address)
  {
    if Supports(basis, a, Some(address), a.outcome) {
      BearsIfSupports(basis, a, address);
    }
    if Bears(basis, a, address) {
      SupportsIfBears(basis, a, address);
    }
  }

  /** Every acquisition of the one finished before any of the other started, and they share no artifact. */
  predicate AcquiredBefore(before: Basis, a: Assessment, after: Basis, b: Assessment, address: Address)
    requires before.FreshBasis? && AllResolve(before, a) && after.FreshBasis? && AllResolve(after, b)
  {
    forall i: nat, j: nat | i in UsesAt(before, a, address) && j in UsesAt(after, b, address) ::
      var p, q := AcquisitionBehind(before, a.uses[i]), AcquisitionBehind(after, b.uses[j]);
      && p.finishedAt.Some? && q.finishedAt.Some?
      && p.startedAt <= p.finishedAt.value < q.startedAt <= q.finishedAt.value
      && (p.evidence.Some? ==> ShaOf(p) != ShaOf(q))
  }

  lemma PrecedeMeans(before: Basis, a: Assessment, after: Basis, b: Assessment, address: Address)
    requires before.FreshBasis? && AllResolve(before, a) && after.FreshBasis? && AllResolve(after, b)
    requires Precede(BoundViews(before, a, Some(address)), BoundViews(after, b, Some(address)))
    ensures AcquiredBefore(before, a, after, b, address)
  {
    var earlier, later := BoundViews(before, a, Some(address)), BoundViews(after, b, Some(address));
    forall i: nat, j: nat | i in UsesAt(before, a, address) && j in UsesAt(after, b, address)
      ensures var p, q := AcquisitionBehind(before, a.uses[i]), AcquisitionBehind(after, b.uses[j]);
              && p.finishedAt.Some? && q.finishedAt.Some?
              && p.startedAt <= p.finishedAt.value < q.startedAt <= q.finishedAt.value
              && (p.evidence.Some? ==> ShaOf(p) != ShaOf(q))
    {
      ViewAt(before, a, address, i);
      ViewHealth(before, a, i);
      ViewAt(after, b, address, j);
      ViewHealth(after, b, j);
      var v, w := ViewOf(before, a, a.uses[i]), ViewOf(after, b, b.uses[j]);
      assert v in earlier && w in later;
      if v.digest.Some? && w.digest.Some? {
        assert v.digest.value in DigestSet(earlier) && w.digest.value in DigestSet(later);
      }
    }
  }

  lemma PrecedeIf(before: Basis, a: Assessment, after: Basis, b: Assessment, address: Address)
    requires before.FreshBasis? && AllResolve(before, a) && after.FreshBasis? && AllResolve(after, b)
    requires UsesAt(before, a, address) != {} && UsesAt(after, b, address) != {}
    requires AcquiredBefore(before, a, after, b, address)
    ensures Precede(BoundViews(before, a, Some(address)), BoundViews(after, b, Some(address)))
  {
    var earlier, later := BoundViews(before, a, Some(address)), BoundViews(after, b, Some(address));
    var i0: nat :| i0 in UsesAt(before, a, address);
    var j0: nat :| j0 in UsesAt(after, b, address);
    forall v | v in earlier
      ensures v.window.Some?
    {
      var i := ViewBehind(before, a, address, v);
      ViewHealth(before, a, i);
      assert i in UsesAt(before, a, address) && j0 in UsesAt(after, b, address);
    }
    forall w | w in later
      ensures w.window.Some?
    {
      var j := ViewBehind(after, b, address, w);
      ViewHealth(after, b, j);
      assert i0 in UsesAt(before, a, address) && j in UsesAt(after, b, address);
    }
    forall v, w | v in earlier && w in later
      ensures v.window.value.end < w.window.value.start
      ensures v.digest.Some? ==> v.digest != w.digest
    {
      var i := ViewBehind(before, a, address, v);
      ViewHealth(before, a, i);
      var j := ViewBehind(after, b, address, w);
      ViewHealth(after, b, j);
    }
  }

  /** The template revisions named by the uses whose acquisitions went to one address. */
  function RevisionsAt(basis: Basis, a: Assessment, address: Address): set<Value>
    requires basis.FreshBasis? && AllResolve(basis, a)
  {
    set i, n | i in UsesAt(basis, a, address) && 0 <= n < |a.uses[i].facts| && a.uses[i].facts[n].key == TemplateRevision
      :: a.uses[i].facts[n].value
  }

  lemma UseBehind(basis: Basis, a: Assessment, i: nat)
    requires basis.FreshBasis? && AllResolve(basis, a) && i < |a.uses|
    ensures ViewOf(basis, a, a.uses[i]).use == a.uses[i]
  {
  }

  lemma SameRevisionsAt(basis: Basis, a: Assessment, address: Address)
    requires basis.FreshBasis? && AllResolve(basis, a)
    ensures RevisionsAt(basis, a, address) == Revisions(BoundViews(basis, a, Some(address)))
  {
    var views := BoundViews(basis, a, Some(address));
    forall r | r in RevisionsAt(basis, a, address)
      ensures r in Revisions(views)
    {
      var i, n :| i in UsesAt(basis, a, address) && 0 <= n < |a.uses[i].facts|
                  && a.uses[i].facts[n].key == TemplateRevision && a.uses[i].facts[n].value == r;
      ViewAt(basis, a, address, i);
      UseBehind(basis, a, i);
      var v := ViewOf(basis, a, a.uses[i]);
      assert v in views && v.use.facts[n].key == TemplateRevision && v.use.facts[n].value == r;
    }
    forall r | r in Revisions(views)
      ensures r in RevisionsAt(basis, a, address)
    {
      var v, n :| v in views && 0 <= n < |v.use.facts| && v.use.facts[n].key == TemplateRevision && v.use.facts[n].value == r;
      var i := ViewBehind(basis, a, address, v);
      UseBehind(basis, a, i);
      assert a.uses[i].facts[n].key == TemplateRevision && a.uses[i].facts[n].value == r;
    }
  }

  /**
    Assessment `a` of one selection of fresh rechecks is settled by `b` of another at a context:
    `a` bears out the condition and `b` its absence, each on acquisitions at the context's own
    address, origin and resource that are ready, usable and of an admissible status; all of the
    first finished before any of the second began; and no revision is named but the reviewed one.
   */
  predicate FreshSettles(
    before: Basis, a: Assessment, after: Basis, b: Assessment, key: ContextKey, templates: map<string, string>)
    requires before.FreshBasis? && AllResolve(before, a) && after.FreshBasis? && AllResolve(after, b)
  {
    && key.address.Some? && key == KeyOf(a, key.address) && key == KeyOf(b, key.address)
    && a.outcome == SupportedPositive && Bears(before, a, key.address.value)
    && b.outcome == SupportedNegative && Bears(after, b, key.address.value)
    && AcquiredBefore(before, a, after, b, key.address.value)
    && HistoricalStates.Reviewed(
         key.rule, RevisionsAt(before, a, key.address.value) + RevisionsAt(after, b, key.address.value), templates)
  }

  lemma FreshSettlesExactly(
    before: Basis, a: Assessment, after: Basis, b: Assessment, key: ContextKey, templates: map<string, string>)
    requires before.FreshBasis? && AllResolve(before, a) && after.FreshBasis? && AllResolve(after, b)
    ensures Settles(before, a, after, b, key, templates) <==> FreshSettles(before, a, after, b, key, templates)
  {
    if key.address.Some? {
      var address := key.address.value;
      SameRevisionsAt(before, a, address);
      SameRevisionsAt(after, b, address);
      if Settles(before, a, after, b, key, templates) {
        BearsIfSupports(before, a, address);
        BearsIfSupports(after, b, address);
        PrecedeMeans(before, a, after, b, address);
      }
      if FreshSettles(before, a, after, b, key, templates) {
        SupportsIfBears(before, a, address);
        SupportsIfBears(after, b, address);
        PrecedeIf(before, a, after, b, address);
      }
    }
  }

  /** A resolved context has a baseline assessment that some current one settles. */
  lemma FreshResolved(
    before: Basis, baseline: seq<Assessment>, b: Entries, after: Basis, current: seq<Assessment>, c: Entries,
    key: ContextKey, templates: map<string, string>) returns (i: nat, j: nat)
    requires before.FreshBasis? && after.FreshBasis?
    requires Build(before, baseline, |baseline|) == Success(b) && Build(after, current, |current|) == Success(c)
    requires Conclude(key.address, EntryAt(b, key), EntryAt(c, key), templates).state == Resolved
    ensures i < |baseline| && AllResolve(before, baseline[i]) && j < |current| && AllResolve(after, current[j])
    ensures FreshSettles(before, baseline[i], after, current[j], key, templates)
  {
    i, j := ResolvedNeeds(before, baseline, b, after, current, c, key, templates);
    FreshSettlesExactly(before, baseline[i], after, current[j], key, templates);
  }

  /** A baseline assessment that a current one settles makes its context resolved. */
  lemma {:induction false} FreshResolves(
    before: Basis, baseline: seq<Assessment>, b: Entries, after: Basis, current: seq<Assessment>, c: Entries,
    key: ContextKey, templates: map<string, string>, i: nat, j: nat)
    requires before.FreshBasis? && after.FreshBasis?
    requires Build(before, baseline, |baseline|) == Success(b) && Build(after, current, |current|) == Success(c)
    requires i < |baseline| && AllResolve(before, baseline[i]) && j < |current| && AllResolve(after, current[j])
    requires FreshSettles(before, baseline[i], after, current[j], key, templates)
    ensures Conclude(key.address, EntryAt(b, key), EntryAt(c, key), templates).state == Resolved
  {
    FreshSettlesExactly(before, baseline[i], after, current[j], key, templates);
    ResolvedSuffices(before, baseline, b, after, current, c, key, templates, i, j);
  }

  /** Some assessment of the one selection is settled by some assessment of the other. */
  predicate SomeSettles(
    before: Basis, baseline: seq<Assessment>, after: Basis, current: seq<Assessment>, key: ContextKey,
    templates: map<string, string>)
    requires before.FreshBasis? && AllAllResolve(before, baseline, |baseline|)
    requires after.FreshBasis? && AllAllResolve(after, current, |current|)
  {
    exists i, j :: 0 <= i < |baseline| && 0 <= j < |current|
                   && FreshSettles(before, baseline[i], after, current[j], key, templates)
  }

  lemma TheseSettle(
    before: Basis, baseline: seq<Assessment>, after: Basis, current: seq<Assessment>, key: ContextKey,
    templates: map<string, string>, i: nat, j: nat)
    requires before.FreshBasis? && AllAllResolve(before, baseline, |baseline|) && i < |baseline|
    requires after.FreshBasis? && AllAllResolve(after, current, |current|) && j < |current|
    requires Settles(before, baseline[i], after, current[j], key, templates)
    ensures SomeSettles(before, baseline, after, current, key, templates)
  {
    FreshSettlesExactly(before, baseline[i], after, current[j], key, templates);
  }

  lemma SettlingPair(
    before: Basis, baseline: seq<Assessment>, after: Basis, current: seq<Assessment>, key: ContextKey,
    templates: map<string, string>) returns (i: nat, j: nat)
    requires before.FreshBasis? && AllAllResolve(before, baseline, |baseline|)
    requires after.FreshBasis? && AllAllResolve(after, current, |current|)
    requires SomeSettles(before, baseline, after, current, key, templates)
    ensures i < |baseline| && j < |current| && FreshSettles(before, baseline[i], after, current[j], key, templates)
  {
    i, j :| 0 <= i < |baseline| && 0 <= j < |current| && FreshSettles(before, baseline[i], after, current[j], key, templates);
  }

  lemma {:induction false} ResolvedIsSettled(
    before: Basis, baseline: seq<Assessment>, b: Entries, after: Basis, current: seq<Assessment>, c: Entries,
    key: ContextKey, templates: map<string, string>)
    requires before.FreshBasis? && after.FreshBasis?
    requires Build(before, baseline, |baseline|) == Success(b) && Build(after, current, |current|) == Success(c)
    requires Conclude(key.address, EntryAt(b, key), EntryAt(c, key), templates).state == Resolved
    ensures AllAllResolve(before, baseline, |baseline|) && AllAllResolve(after, current, |current|)
    ensures SomeSettles(before, baseline, after, current, key, templates)
  {
    AllSideResolve(before, baseline);
    AllSideResolve(after, current);
    var i, j := ResolvedNeeds(before, baseline, b, after, current, c, key, templates);
    TheseSettle(before, baseline, after, current, key, templates, i, j);
  }

  lemma {:induction false} SettledIsResolved(
    before: Basis, baseline: seq<Assessment>, b: Entries, after: Basis, current: seq<Assessment>, c: Entries,
    key: ContextKey, templates: map<string, string>)
    requires before.FreshBasis? && after.FreshBasis?
    requires Build(before, baseline, |baseline|) == Success(b) && Build(after, current, |current|) == Success(c)
    requires AllAllResolve(before, baseline, |baseline|) && AllAllResolve(after, current, |current|)
    requires SomeSettles(before, baseline, after, current, key, templates)
    ensures Conclude(key.address, EntryAt(b, key), EntryAt(c, key), templates).state == Resolved
  {
    var i, j := SettlingPair(before, baseline, after, current, key, templates);
    FreshResolves(before, baseline, b, after, current, c, key, templates, i, j);
  }

  /**
    When `resolved` may be said of two selections of fresh rechecks: exactly when some
    baseline assessment is settled by some current one, acquisition by acquisition.
   */
  lemma {:induction false} FreshResolvedExactly(
    before: Basis, baseline: seq<Assessment>, b: Entries, after: Basis, current: seq<Assessment>, c: Entries,
    key: ContextKey, templates: map<string, string>)
    requires before.FreshBasis? && after.FreshBasis?
    requires Build(before, baseline, |baseline|) == Success(b) && Build(after, current, |current|) == Success(c)
    ensures AllAllResolve(before, baseline, |baseline|) && AllAllResolve(after, current, |current|)
    ensures Conclude(key.address, EntryAt(b, key), EntryAt(c, key), templates).state == Resolved
            <==> SomeSettles(before, baseline, after, current, key, templates)
  {
    AllSideResolve(before, baseline);
    AllSideResolve(after, current);
    if Conclude(key.address, EntryAt(b, key), EntryAt(c, key), templates).state == Resolved {
      ResolvedIsSettled(before, baseline, b, after, current, c, key, templates);
    } else if SomeSettles(before, baseline, after, current, key, templates) {
      SettledIsResolved(before, baseline, b, after, current, c, key, templates);
    }
  }
}

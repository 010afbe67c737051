/** When a historical state may be said: the decisions and the fold over the evidence, together. */
module HistoricalStates {
  import opened Comparison
  import opened ComparisonLaws
  import opened ComparisonSides
  import opened Evidence
  import opened Wrappers

  // ---------------------------------------------------------------- the entries of a side

  /** An assessment has an entry at an address that its evidence is bound to; without evidence, at none. */
  predicate Stands(basis: Basis, a: Assessment, key: ContextKey)
    requires AllResolve(basis, a)
  {
    && key == KeyOf(a, key.address)
    && (BoundViews(basis, a, key.address) != {} || (a.uses == [] && key.address.None?))
  }

  /** What an entry records of its assessment. */
  predicate Records(basis: Basis, a: Assessment, address: Option<Address>, e: Entry)
    requires AllResolve(basis, a)
  {
    && e.assessment == a && e.address == address
    && (a.uses != [] ==> Sums(BoundViews(basis, a, address), e))
    && (a.uses == [] ==> !e.healthy && !e.semanticsValid && e.startedAt.None? && e.finishedAt.None?)
  }

  lemma BoundAddresses(basis: Basis, a: Assessment, address: Option<Address>)
    requires AllResolve(basis, a)
    ensures address in Addresses(ViewsOf(basis, a)) <==> BoundViews(basis, a, address) != {}
  {
    var views := ViewsOf(basis, a);
    if address in Addresses(views) {
      var i :| 0 <= i < |views| && views[i].address == address;
      assert ViewOf(basis, a, a.uses[i]) in BoundViews(basis, a, address);
    }
    if BoundViews(basis, a, address) != {} {
      var v :| v in BoundViews(basis, a, address);
      var i :| 0 <= i < |a.uses| && ViewOf(basis, a, a.uses[i]).address == address && v == ViewOf(basis, a, a.uses[i]);
      assert views[i].address == address;
    }
  }

  lemma {:induction false} ViewsSound(basis: Basis, a: Assessment, address: Option<Address>)
    requires AllResolve(basis, a)
    ensures Sound(At(ViewsOf(basis, a), address))
  {
    var views := ViewsOf(basis, a);
    var at := At(views, address);
    forall i | 0 <= i < |at|
      ensures at[i].healthy <==> at[i].reason.None?
    {
      AtMembers(views, address, at[i]);
    }
  }

  lemma {:induction false} EntryRecords(basis: Basis, a: Assessment, address: Option<Address>)
    requires AllResolve(basis, a) && BoundViews(basis, a, address) != {}
    ensures Sums(BoundViews(basis, a, address), EntryOf(a, address, TallyOf(At(ViewsOf(basis, a), address))))
  {
    GatheredViews(basis, a, address);
    ViewsSound(basis, a, address);
    TallySums(a, address, At(ViewsOf(basis, a), address));
  }

  lemma EntriesStand(basis: Basis, a: Assessment, key: ContextKey)
    requires AllResolve(basis, a)
    ensures key in EntriesOf(basis, a) <==> Stands(basis, a, key)
  {
    BoundAddresses(basis, a, key.address);
    if a.uses != [] {
      assert key in EntriesOf(basis, a) <==> key in KeysOf(a, ViewsOf(basis, a));
    }
  }

  lemma EntriesRecord(basis: Basis, a: Assessment, key: ContextKey)
    requires AllResolve(basis, a) && key in EntriesOf(basis, a)
    ensures Records(basis, a, key.address, EntriesOf(basis, a)[key])
  {
    EntriesStand(basis, a, key);
    if a.uses == [] {
      var copies := NO_EVIDENCE.copies;
      assert None in copies && copies[None].Some?;
    } else {
      EntryRecords(basis, a, key.address);
    }
  }

  /** `entries` are exactly those of the parts. */
  predicate Joins(parts: seq<Entries>, entries: Entries) {
    && (forall i, k | 0 <= i < |parts| && k in parts[i] :: k in entries && entries[k] == parts[i][k])
    && (forall k | k in entries :: exists i :: 0 <= i < |parts| && k in parts[i])
  }

  lemma JoinsNext(parts: seq<Entries>, entries: Entries, own: Entries)
    requires Joins(parts, entries) && entries.Keys * own.Keys == {}
    ensures Joins(parts + [own], entries + own)
  {
    var more := parts + [own];
    forall i, k | 0 <= i < |more| && k in more[i]
      ensures k in entries + own && (entries + own)[k] == more[i][k]
    {
      if i < |parts| {
        assert k in parts[i];
        assert k in entries.Keys * own.Keys <==> k in entries && k in own;
      }
    }
    forall k | k in entries + own
      ensures exists i :: 0 <= i < |more| && k in more[i]
    {
      if k in own {
        assert k in more[|parts|];
      } else {
        var i :| 0 <= i < |parts| && k in parts[i];
        assert k in more[i];
      }
    }
  }

  predicate AllAllResolve(basis: Basis, assessments: seq<Assessment>, n: nat)
    requires n <= |assessments|
  {
    forall i | 0 <= i < n :: AllResolve(basis, assessments[i])
  }

  function Parts(basis: Basis, assessments: seq<Assessment>, n: nat): (parts: seq<Entries>)
    requires n <= |assessments| && AllAllResolve(basis, assessments, n)
    ensures |parts| == n
  {
    if n == 0 then [] else Parts(basis, assessments, n - 1) + [EntriesOf(basis, assessments[n - 1])]
  }

  lemma AppendedAt(parts: seq<Entries>, own: Entries, i: nat)
    requires i <= |parts|
    ensures (parts + [own])[i] == if i == |parts| then own else parts[i]
  {
  }

  lemma {:induction false} PartAt(basis: Basis, assessments: seq<Assessment>, n: nat, i: nat)
    requires i < n <= |assessments| && AllAllResolve(basis, assessments, n)
    ensures Parts(basis, assessments, n)[i] == EntriesOf(basis, assessments[i])
  {
    AppendedAt(Parts(basis, assessments, n - 1), EntriesOf(basis, assessments[n - 1]), i);
    if i < n - 1 {
      PartAt(basis, assessments, n - 1, i);
    }
  }

  lemma BuildAdds(basis: Basis, assessments: seq<Assessment>, n: nat)
    requires n < |assessments| && Build(basis, assessments, n + 1).Success?
    ensures Build(basis, assessments, n).Success? && AllResolve(basis, assessments[n])
    ensures var entries, own := Build(basis, assessments, n).value, EntriesOf(basis, assessments[n]);
            && entries.Keys * own.Keys == {} && Build(basis, assessments, n + 1).value == entries + own
  {
  }

  lemma {:induction false} BuildResolves(basis: Basis, assessments: seq<Assessment>, n: nat)
    requires n <= |assessments| && Build(basis, assessments, n).Success?
    ensures AllAllResolve(basis, assessments, n)
  {
    if n > 0 {
      BuildAdds(basis, assessments, n - 1);
      BuildResolves(basis, assessments, n - 1);
    }
  }

  lemma JoinStep(basis: Basis, assessments: seq<Assessment>, n: nat, entries: Entries)
    requires n < |assessments| && AllAllResolve(basis, assessments, n + 1)
    requires Joins(Parts(basis, assessments, n), entries)
    requires entries.Keys * EntriesOf(basis, assessments[n]).Keys == {}
    ensures Joins(Parts(basis, assessments, n + 1), entries + EntriesOf(basis, assessments[n]))
  {
    JoinsNext(Parts(basis, assessments, n), entries, EntriesOf(basis, assessments[n]));
  }

  lemma {:induction false} BuildJoins(basis: Basis, assessments: seq<Assessment>, n: nat)
    requires n <= |assessments| && Build(basis, assessments, n).Success?
    ensures AllAllResolve(basis, assessments, n)
    ensures Joins(Parts(basis, assessments, n), Build(basis, assessments, n).value)
  {
    BuildResolves(basis, assessments, n);
    if n > 0 {
      BuildAdds(basis, assessments, n - 1);
      BuildJoins(basis, assessments, n - 1);
      JoinStep(basis, assessments, n - 1, Build(basis, assessments, n - 1).value);
    }
  }

  /** Assessment `i` of a side is the one behind the entry of a context. */
  lemma {:induction false} EntryBehind(basis: Basis, assessments: seq<Assessment>, entries: Entries, key: ContextKey, i: nat)
    requires Build(basis, assessments, |assessments|) == Success(entries)
    requires i < |assessments| && AllResolve(basis, assessments[i]) && Stands(basis, assessments[i], key)
    ensures key in entries && Records(basis, assessments[i], key.address, entries[key])
  {
    var n := |assessments|;
    BuildJoins(basis, assessments, n);
    EntriesStand(basis, assessments[i], key);
    EntriesRecord(basis, assessments[i], key);
    PartAt(basis, assessments, n, i);
  }

  lemma PartBehind(basis: Basis, assessments: seq<Assessment>, entries: Entries, key: ContextKey) returns (i: nat)
    requires Build(basis, assessments, |assessments|) == Success(entries) && key in entries
    ensures i < |assessments| && AllResolve(basis, assessments[i])
    ensures key in EntriesOf(basis, assessments[i]) && entries[key] == EntriesOf(basis, assessments[i])[key]
  {
    var n := |assessments|;
    BuildJoins(basis, assessments, n);
    var parts := Parts(basis, assessments, n);
    i :| 0 <= i < n && key in parts[i];
    PartAt(basis, assessments, n, i);
  }

  lemma AssessmentBehind(basis: Basis, assessments: seq<Assessment>, entries: Entries, key: ContextKey) returns (i: nat)
    requires Build(basis, assessments, |assessments|) == Success(entries) && key in entries
    ensures i < |assessments| && AllResolve(basis, assessments[i]) && Stands(basis, assessments[i], key)
    ensures Records(basis, assessments[i], key.address, entries[key])
  {
    i := PartBehind(basis, assessments, entries, key);
    EntriesStand(basis, assessments[i], key);
    EntriesRecord(basis, assessments[i], key);
  }

  lemma {:induction false} AllSideResolve(basis: Basis, assessments: seq<Assessment>)
    requires Build(basis, assessments, |assessments|).Success?
    ensures forall i | 0 <= i < |assessments| :: AllResolve(basis, assessments[i])
  {
    BuildJoins(basis, assessments, |assessments|);
  }

  // ---------------------------------------------------------------- when a context is resolved

  predicate NamesRule(e: Entry) {
    e.semanticsValid ==> KnownRule(e.assessment.claim)
  }

  /** The decision chain, for the state that matters most. */
  lemma ResolvedDecision(key: ContextKey, b: Option<Entry>, c: Option<Entry>, templates: map<string, string>)
    requires b.Some? ==> KeyOf(b.value.assessment, b.value.address) == key && NamesRule(b.value)
    requires c.Some? ==> KeyOf(c.value.assessment, c.value.address) == key && NamesRule(c.value)
    ensures Conclude(key.address, b, c, templates).state == Resolved <==>
            && b.Some? && b.value.healthy && b.value.semanticsValid && b.value.assessment.outcome == SupportedPositive
            && c.Some? && c.value.healthy && c.value.semanticsValid && c.value.assessment.outcome == SupportedNegative
            && key.address.Some? && IsLater(b.value, c.value) && RevisionsReviewed(b.value, c.value, templates)
  {
    if b.Some? && c.Some? && b.value.semanticsValid && c.value.semanticsValid {
      assert b.value.assessment.claim == c.value.assessment.claim;
    }
  }

  /** Every view of the earlier evidence ends before any of the later begins, and no artifact is shared. */
  predicate Precede(earlier: set<View>, later: set<View>) {
    && AllTimed(earlier) && AllTimed(later)
    && (forall v, w | v in earlier && w in later :: v.window.value.end < w.window.value.start)
    && DigestSet(earlier) !! DigestSet(later)
  }

  lemma LaterMeans(b: Entry, c: Entry, earlier: set<View>, later: set<View>)
    requires Sums(earlier, b) && Sums(later, c)
    ensures IsLater(b, c) <==> Precede(earlier, later)
  {
    if AllTimed(earlier) && AllTimed(later) {
      var v :| v in earlier && v.window.value.end == b.finishedAt.value;
      var w :| w in later && w.window.value.start == c.startedAt.value;
      assert Precede(earlier, later) ==> v.window.value.end < w.window.value.start;
      if IsLater(b, c) {
        forall v, w | v in earlier && w in later
          ensures v.window.value.end < w.window.value.start
        {
        }
      }
    }
  }

  function Revisions(views: set<View>): set<Value> {
    set v, j | v in views && 0 <= j < |v.use.facts| && v.use.facts[j].key == TemplateRevision :: v.use.facts[j].value
  }

  lemma RevisionsMean(e: Entry, views: set<View>)
    requires Sums(views, e)
    ensures TemplateRevisions(e) == Revisions(views)
  {
    forall r | r in TemplateRevisions(e)
      ensures r in Revisions(views)
    {
      var i, j :| 0 <= i < |e.evidence| && 0 <= j < |e.evidence[i].facts|
                  && e.evidence[i].facts[j].key == TemplateRevision && e.evidence[i].facts[j].value == r;
      assert e.evidence[i] in Cited(e.evidence);
      var v :| v in views && v.use == e.evidence[i];
    }
    forall r | r in Revisions(views)
      ensures r in TemplateRevisions(e)
    {
      var v, j :| v in views && 0 <= j < |v.use.facts| && v.use.facts[j].key == TemplateRevision && v.use.facts[j].value == r;
      assert v.use in UseSet(views) && v.use in Cited(e.evidence);
      var i :| 0 <= i < |e.evidence| && e.evidence[i] == v.use;
    }
  }

  /** An assessment supports an outcome at an address: bound, readable and valid evidence. */
  predicate Supports(basis: Basis, a: Assessment, address: Option<Address>, outcome: Outcome)
    requires AllResolve(basis, a)
  {
    var views := BoundViews(basis, a, address);
    a.outcome == outcome && views != {} && AllReadable(views) && AllValid(views)
  }

  /** The template revisions named on either side are the reviewed one. */
  predicate Reviewed(rule: RuleId, revisions: set<Value>, templates: map<string, string>) {
    || revisions == {}
    || (rule == DirectoryListing && OnlyOf(revisions, "scopelens-directory-listing", templates))
    || (rule == GitConfigExposure && OnlyOf(revisions, "scopelens-exposed-git-config", templates))
  }

  /** The one revision named is that of the reviewed template. */
  predicate OnlyOf(revisions: set<Value>, template: string, templates: map<string, string>) {
    template in templates && revisions == {Text(templates[template])}
  }

  /** The comparator takes these revisions, and no others, for reviewed. */
  lemma ReviewedIs(b: Entry, c: Entry, templates: map<string, string>)
    ensures RevisionsReviewed(b, c, templates)
            <==> Reviewed(b.assessment.claim.rule, TemplateRevisions(b) + TemplateRevisions(c), templates)
  {
  }

  /** `a` is resolved by `b` at a context. */
  predicate Settles(
    before: Basis, a: Assessment, after: Basis, b: Assessment, key: ContextKey, templates: map<string, string>)
    requires AllResolve(before, a) && AllResolve(after, b)
  {
    && key.address.Some? && key == KeyOf(a, key.address) && key == KeyOf(b, key.address)
    && Supports(before, a, key.address, SupportedPositive)
    && Supports(after, b, key.address, SupportedNegative)
    && Precede(BoundViews(before, a, key.address), BoundViews(after, b, key.address))
    && Reviewed(
         key.rule, Revisions(BoundViews(before, a, key.address)) + Revisions(BoundViews(after, b, key.address)), templates)
  }

  lemma ValidRule(basis: Basis, a: Assessment, address: Option<Address>, e: Entry)
    requires AllResolve(basis, a) && Records(basis, a, address, e)
    requires a.uses != [] ==> BoundViews(basis, a, address) != {}
    ensures NamesRule(e)
  {
    if e.semanticsValid {
      var v :| v in BoundViews(basis, a, address);
      assert v.valid;
    }
  }

  lemma SettlesBySums(
    before: Basis, a: Assessment, b: Entry, after: Basis, a': Assessment, c: Entry, key: ContextKey,
    templates: map<string, string>)
    requires AllResolve(before, a) && b.assessment == a && key == KeyOf(a, key.address)
    requires AllResolve(after, a') && c.assessment == a' && key == KeyOf(a', key.address)
    requires var earlier := BoundViews(before, a, key.address); earlier != {} && Sums(earlier, b)
    requires var later := BoundViews(after, a', key.address); later != {} && Sums(later, c)
    ensures Settles(before, a, after, a', key, templates) <==>
            && b.healthy && b.semanticsValid && b.assessment.outcome == SupportedPositive
            && c.healthy && c.semanticsValid && c.assessment.outcome == SupportedNegative
            && key.address.Some? && IsLater(b, c) && RevisionsReviewed(b, c, templates)
  {
    var earlier, later := BoundViews(before, a, key.address), BoundViews(after, a', key.address);
    LaterMeans(b, c, earlier, later);
    RevisionsMean(b, earlier);
    RevisionsMean(c, later);
    ReviewedIs(b, c, templates);
  }

  lemma SettlesExactly(
    before: Basis, a: Assessment, b: Entry, after: Basis, a': Assessment, c: Entry, key: ContextKey,
    templates: map<string, string>)
    requires AllResolve(before, a) && Stands(before, a, key) && Records(before, a, key.address, b)
    requires AllResolve(after, a') && Stands(after, a', key) && Records(after, a', key.address, c)
    ensures Conclude(key.address, Some(b), Some(c), templates).state == Resolved
            <==> Settles(before, a, after, a', key, templates)
  {
    ValidRule(before, a, key.address, b);
    ValidRule(after, a', key.address, c);
    ResolvedDecision(key, Some(b), Some(c), templates);
    if a.uses != [] && a'.uses != [] {
      SettlesBySums(before, a, b, after, a', c, key, templates);
    }
  }

  lemma ResolvedNeeds(
    before: Basis, baseline: seq<Assessment>, b: Entries, after: Basis, current: seq<Assessment>, c: Entries,
    key: ContextKey, templates: map<string, string>) returns (i: nat, j: nat)
    requires Build(before, baseline, |baseline|) == Success(b) && Build(after, current, |current|) == Success(c)
    requires Conclude(key.address, EntryAt(b, key), EntryAt(c, key), templates).state == Resolved
    ensures i < |baseline| && AllResolve(before, baseline[i])
    ensures j < |current| && AllResolve(after, current[j])
    ensures Settles(before, baseline[i], after, current[j], key, templates)
  {
    ResolvedHasSupport(key.address, EntryAt(b, key), EntryAt(c, key), templates);
    i := AssessmentBehind(before, baseline, b, key);
    j := AssessmentBehind(after, current, c, key);
    SettlesExactly(before, baseline[i], b[key], after, current[j], c[key], key, templates);
  }

  lemma {:induction false} ResolvedSuffices(
    before: Basis, baseline: seq<Assessment>, b: Entries, after: Basis, current: seq<Assessment>, c: Entries,
    key: ContextKey, templates: map<string, string>, i: nat, j: nat)
    requires Build(before, baseline, |baseline|) == Success(b) && Build(after, current, |current|) == Success(c)
    requires i < |baseline| && AllResolve(before, baseline[i])
    requires j < |current| && AllResolve(after, current[j])
    requires Settles(before, baseline[i], after, current[j], key, templates)
    ensures Conclude(key.address, EntryAt(b, key), EntryAt(c, key), templates).state == Resolved
  {
    EntryBehind(before, baseline, b, key, i);
    EntryBehind(after, current, c, key, j);
    SettlesExactly(before, baseline[i], b[key], after, current[j], c[key], key, templates);
  }

  /**
    When `resolved` may be said of a context: exactly when some baseline assessment
    supports the condition there and some current assessment its absence, on evidence that
    is bound to the context's address, readable and valid, all of it later, none of it shared,
    and naming no template revision but the reviewed one.
   */
  lemma {:induction false} ResolvedExactly(
    before: Basis, baseline: seq<Assessment>, b: Entries, after: Basis, current: seq<Assessment>, c: Entries,
    key: ContextKey, templates: map<string, string>)
    requires Build(before, baseline, |baseline|) == Success(b) && Build(after, current, |current|) == Success(c)
    ensures forall i | 0 <= i < |baseline| :: AllResolve(before, baseline[i])
    ensures forall j | 0 <= j < |current| :: AllResolve(after, current[j])
    ensures Conclude(key.address, EntryAt(b, key), EntryAt(c, key), templates).state == Resolved <==>
            exists i, j :: 0 <= i < |baseline| && 0 <= j < |current|
                           && Settles(before, baseline[i], after, current[j], key, templates)
  {
    AllSideResolve(before, baseline);
    AllSideResolve(after, current);
    if Conclude(key.address, EntryAt(b, key), EntryAt(c, key), templates).state == Resolved {
      var i, j := ResolvedNeeds(before, baseline, b, after, current, c, key, templates);
    }
    if i, j :| 0 <= i < |baseline| && 0 <= j < |current| && Settles(before, baseline[i], after, current[j], key, templates) {
      ResolvedSuffices(before, baseline, b, after, current, c, key, templates, i, j);
    }
  }
}

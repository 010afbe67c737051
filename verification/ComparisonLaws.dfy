/** What a historical state means, and what it does not depend on. */
module ComparisonLaws {
  import opened Comparison
  import opened ComparisonSides
  import opened Evidence
  import opened Wrappers

  // ---------------------------------------------------------------- what a tally amounts to

  /** A view is healthy exactly when it records no reason. */
  predicate Sound(views: seq<View>) {
    forall i | 0 <= i < |views| :: views[i].healthy <==> views[i].reason.None?
  }

  predicate Carries(views: seq<View>, d: Option<Digest>) {
    exists i :: 0 <= i < |views| && views[i].digest == d
  }

  predicate CarriesHealthy(views: seq<View>, d: Option<Digest>) {
    exists i :: 0 <= i < |views| && views[i].digest == d && views[i].healthy
  }

  lemma CarriesAppend(views: seq<View>, v: View, d: Option<Digest>)
    ensures Carries(views + [v], d) <==> Carries(views, d) || v.digest == d
    ensures CarriesHealthy(views + [v], d) <==> CarriesHealthy(views, d) || (v.digest == d && v.healthy)
  {
    var more := views + [v];
    assert more[|views|] == v;
    if Carries(views, d) {
      var i :| 0 <= i < |views| && views[i].digest == d;
      assert more[i] == views[i];
    }
    if CarriesHealthy(views, d) {
      var i :| 0 <= i < |views| && views[i].digest == d && views[i].healthy;
      assert more[i] == views[i];
    }
  }

  /** A digest is healthy exactly when some use that carries it is. */
  lemma {:induction false} CopiesMean(views: seq<View>, d: Option<Digest>)
    requires Sound(views)
    ensures var copies := TallyOf(views).copies;
            && (d in copies <==> Carries(views, d))
            && (d in copies ==> (copies[d].None? <==> CarriesHealthy(views, d)))
  {
    if views != [] {
      var n := |views| - 1;
      CopiesMean(views[..n], d);
      CarriesAppend(views[..n], views[n], d);
      assert views == views[..n] + [views[n]];
    }
  }

  /** The other parts of a tally list what each view said. */
  lemma {:induction false} TallyLists(views: seq<View>)
    ensures var t := TallyOf(views);
            && |t.uses| == |t.windows| == |t.observed| == |views|
            && (forall i | 0 <= i < |views| ::
                  t.uses[i] == views[i].use && t.windows[i] == views[i].window && t.observed[i] == views[i].capturedAt)
            && (t.valid <==> forall i | 0 <= i < |views| :: views[i].valid)
  {
    if views != [] {
      TallyLists(views[..|views| - 1]);
    }
  }

  predicate AllKnown(windows: seq<Option<Window>>) {
    windows != [] && forall i | 0 <= i < |windows| :: windows[i].Some?
  }

  /** `w` runs from the earliest start to the latest end. */
  predicate IsSpan(w: Window, windows: seq<Option<Window>>)
    requires AllKnown(windows)
  {
    && (forall i | 0 <= i < |windows| :: w.start <= windows[i].value.start && windows[i].value.end <= w.end)
    && (exists i :: 0 <= i < |windows| && windows[i].value.start == w.start)
    && (exists i :: 0 <= i < |windows| && windows[i].value.end == w.end)
  }

  /** The window exists exactly when every use has one, and is then their span. */
  lemma {:induction false} SpanMeans(windows: seq<Option<Window>>)
    ensures Span(windows).Some? <==> AllKnown(windows)
    ensures Span(windows).Some? ==> IsSpan(Span(windows).value, windows)
  {
    if windows != [] {
      var n := |windows| - 1;
      var rest := windows[..n];
      SpanMeans(rest);
      if Span(windows).Some? && rest != [] {
        var w := Span(rest).value;
        var i :| 0 <= i < |rest| && rest[i].value.start == w.start;
        var j :| 0 <= j < |rest| && rest[j].value.end == w.end;
        assert windows[i] == rest[i] && windows[j] == rest[j];
      }
    }
  }

  lemma {:induction false} AtMembers(views: seq<View>, address: Option<Address>, v: View)
    ensures v in At(views, address) <==> v in views && v.address == address
  {
    if views != [] {
      var n := |views| - 1;
      AtMembers(views[..n], address, v);
      assert views == views[..n] + [views[n]];
    }
  }

  /** The views of an assessment's evidence that are bound to one address. */
  function BoundViews(basis: Basis, a: Assessment, address: Option<Address>): set<View>
    requires AllResolve(basis, a)
  {
    set i | 0 <= i < |a.uses| && ViewOf(basis, a, a.uses[i]).address == address :: ViewOf(basis, a, a.uses[i])
  }

  function Elements(views: seq<View>): set<View> {
    set i | 0 <= i < |views| :: views[i]
  }

  lemma {:induction false} GatheredViews(basis: Basis, a: Assessment, address: Option<Address>)
    requires AllResolve(basis, a)
    ensures Elements(At(ViewsOf(basis, a), address)) == BoundViews(basis, a, address)
  {
    var views := ViewsOf(basis, a);
    var at := At(views, address);
    forall v
      ensures v in Elements(at) <==> v in BoundViews(basis, a, address)
    {
      AtMembers(views, address, v);
      if v in BoundViews(basis, a, address) {
        var i :| 0 <= i < |a.uses| && ViewOf(basis, a, a.uses[i]).address == address && v == ViewOf(basis, a, a.uses[i]);
        assert views[i] == v;
      }
      assert v in Elements(at) <==> v in at;
    }
  }

  // ---------------------------------------------------------------- the fold, in closed form

  predicate ReadableAt(views: set<View>, d: Option<Digest>) {
    exists w :: w in views && w.digest == d && w.healthy
  }

  /** Every digest that some view carries is carried by a healthy one. */
  predicate AllReadable(views: set<View>) {
    forall v | v in views :: ReadableAt(views, v.digest)
  }

  predicate AllValid(views: set<View>) {
    forall v | v in views :: v.valid
  }

  function DigestSet(views: set<View>): set<Digest> {
    set v | v in views && v.digest.Some? :: v.digest.value
  }

  function CaptureTimes(views: set<View>): set<Time> {
    set v | v in views :: v.capturedAt
  }

  function UseSet(views: set<View>): set<Use> {
    set v | v in views :: v.use
  }

  predicate AllTimed(views: set<View>) {
    forall v | v in views :: v.window.Some?
  }

  /** `start` and `end` are the earliest start and the latest end. */
  predicate Spans(views: set<View>, start: Time, end: Time)
    requires AllTimed(views)
  {
    && (forall v | v in views :: start <= v.window.value.start && v.window.value.end <= end)
    && (exists v :: v in views && v.window.value.start == start)
    && (exists v :: v in views && v.window.value.end == end)
  }

  predicate Timing(views: set<View>, start: Option<Time>, end: Option<Time>) {
    && (start.Some? <==> AllTimed(views)) && (end.Some? <==> AllTimed(views))
    && (start.Some? ==> Spans(views, start.value, end.value))
  }

  function Cited(uses: seq<Use>): set<Use> {
    set i | 0 <= i < |uses| :: uses[i]
  }

  /**
    What an entry records of the views gathered for its address, in which no order remains:
    a digest needs one healthy copy, the window needs all of the views' windows, and
    validity is a conjunction.
   */
  predicate Sums(views: set<View>, e: Entry) {
    && Cited(e.evidence) == UseSet(views)
    && e.observedAt == CaptureTimes(views)
    && (e.healthy <==> AllReadable(views))
    && e.digests == DigestSet(views)
    && (e.semanticsValid <==> AllValid(views))
    && Timing(views, e.startedAt, e.finishedAt)
  }

  lemma CarriedBy(views: seq<View>, d: Option<Digest>)
    ensures Carries(views, d) <==> exists v :: v in Elements(views) && v.digest == d
    ensures CarriesHealthy(views, d) <==> exists v :: v in Elements(views) && v.digest == d && v.healthy
  {
    assert forall i | 0 <= i < |views| :: views[i] in Elements(views);
  }

  lemma {:induction false} CopyAt(views: seq<View>, d: Option<Digest>)
    requires Sound(views)
    ensures d in TallyOf(views).copies <==> exists v :: v in Elements(views) && v.digest == d
    ensures d in TallyOf(views).copies ==> (TallyOf(views).copies[d].None? <==> ReadableAt(Elements(views), d))
  {
    CopiesMean(views, d);
    CarriedBy(views, d);
  }

  lemma {:induction false} TallyHealth(views: seq<View>)
    requires Sound(views)
    ensures var copies := TallyOf(views).copies;
            (forall d | d in copies :: copies[d].None?) <==> AllReadable(Elements(views))
  {
    var copies, vs := TallyOf(views).copies, Elements(views);
    if AllReadable(vs) {
      forall d | d in copies
        ensures copies[d].None?
      {
        CopyAt(views, d);
        var v :| v in vs && v.digest == d;
        assert ReadableAt(vs, v.digest);
      }
    } else {
      var v :| v in vs && !ReadableAt(vs, v.digest);
      CopyAt(views, v.digest);
    }
  }

  lemma {:induction false} TallyDigests(views: seq<View>)
    requires Sound(views)
    ensures DigestsOf(TallyOf(views).copies) == DigestSet(Elements(views))
  {
    forall x: Digest
      ensures x in DigestsOf(TallyOf(views).copies) <==> x in DigestSet(Elements(views))
    {
      CopiesMean(views, Some(x));
      CarriedBy(views, Some(x));
    }
  }

  lemma ListTiming(views: seq<View>, windows: seq<Option<Window>>)
    requires |windows| == |views| && forall i | 0 <= i < |views| :: windows[i] == views[i].window
    requires views != []
    ensures AllKnown(windows) <==> AllTimed(Elements(views))
    ensures AllKnown(windows) ==> forall w | IsSpan(w, windows) :: Spans(Elements(views), w.start, w.end)
  {
    var vs := Elements(views);
    assert forall i | 0 <= i < |views| :: views[i] in vs;
    if AllKnown(windows) {
      forall w | IsSpan(w, windows)
        ensures Spans(vs, w.start, w.end)
      {
        var i :| 0 <= i < |windows| && windows[i].value.start == w.start;
        var j :| 0 <= j < |windows| && windows[j].value.end == w.end;
        assert views[i] in vs && views[j] in vs;
      }
    }
  }

  lemma {:induction false} TallyTimes(views: seq<View>)
    requires views != []
    ensures var span := Span(TallyOf(views).windows);
            && (span.Some? <==> AllTimed(Elements(views)))
            && (span.Some? ==> Spans(Elements(views), span.value.start, span.value.end))
  {
    TallyLists(views);
    SpanMeans(TallyOf(views).windows);
    ListTiming(views, TallyOf(views).windows);
  }

  lemma {:induction false} TallyRest(views: seq<View>)
    ensures var t, vs := TallyOf(views), Elements(views);
            && Cited(t.uses) == UseSet(vs)
            && (set i | 0 <= i < |t.observed| :: t.observed[i]) == CaptureTimes(vs)
            && (t.valid <==> AllValid(vs))
  {
    var t, vs := TallyOf(views), Elements(views);
    TallyLists(views);
    assert forall i | 0 <= i < |views| :: views[i] in vs && t.uses[i] == views[i].use && t.observed[i] == views[i].capturedAt;
    forall u | u in UseSet(vs)
      ensures u in Cited(t.uses)
    {
      var i :| 0 <= i < |views| && views[i].use == u;
      assert t.uses[i] == u;
    }
    forall c | c in CaptureTimes(vs)
      ensures c in set i | 0 <= i < |t.observed| :: t.observed[i]
    {
      var i :| 0 <= i < |views| && views[i].capturedAt == c;
      assert t.observed[i] == c;
    }
  }

  /** The fold over the evidence, in closed form. */
  lemma {:induction false} TallySums(a: Assessment, address: Option<Address>, views: seq<View>)
    requires Sound(views) && views != []
    ensures Sums(Elements(views), EntryOf(a, address, TallyOf(views)))
  {
    TallyHealth(views);
    TallyDigests(views);
    TallyTimes(views);
    TallyRest(views);
  }
}

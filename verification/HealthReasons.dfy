/**
  The one part of an entry that the order of evidence can change: the reason reported for ill
  health. Which reasons some order of the same evidence leads to, exactly when they are all
  the same, and a valid selection for which they are not.
 */
module HealthReasons {
  import opened Capture
  import opened Comparison
  import opened ComparisonLaws
  import opened ComparisonSides
  import opened Evidence
  import opened Feedback
  import opened HistoricalStates
  import opened StateLaws
  import opened Wrappers

  // ---------------------------------------------------------------- the reason of a list of views

  /** `r` is the least of the recorded failures. */
  predicate LeastFailure(copies: map<Option<Digest>, Option<HealthReason>>, r: HealthReason) {
    && (exists d :: d in copies && copies[d] == Some(r))
    && forall d | d in copies && copies[d].Some? :: Rank(r) <= Rank(copies[d].value)
  }

  lemma Recorded(copies: map<Option<Digest>, Option<HealthReason>>, r: HealthReason)
    ensures Some(r) in copies.Values <==> exists d :: d in copies && copies[d] == Some(r)
  {
  }

  /** The reason reported is the least of the recorded failures, and there is none without a failure. */
  lemma FirstReasonMeans(copies: map<Option<Digest>, Option<HealthReason>>)
    ensures FirstReason(copies).Some? ==> LeastFailure(copies, FirstReason(copies).value)
    ensures FirstReason(copies).None? <==> forall d | d in copies :: copies[d].None?
  {
    forall r
      ensures Some(r) in copies.Values <==> exists d :: d in copies && copies[d] == Some(r)
    {
      Recorded(copies, r);
    }
    forall d | d in copies && copies[d].Some?
      ensures FirstReason(copies).Some? && Rank(FirstReason(copies).value) <= Rank(copies[d].value)
    {
      assert copies[d] in copies.Values;
      match copies[d].value
      case NoEvidenceContext =>
      case CaptureHealthUnverified =>
      case EvidenceArtifactUnavailable =>
      case EvidenceArtifactUnhealthy =>
      case FreshArtifactUnhealthy =>
      case FreshHealthUnverified =>
    }
  }

  lemma SameRank(r: HealthReason, q: HealthReason)
    requires Rank(r) == Rank(q)
    ensures r == q
  {
  }

  lemma LeastIsReported(copies: map<Option<Digest>, Option<HealthReason>>, r: HealthReason)
    requires LeastFailure(copies, r)
    ensures FirstReason(copies) == Some(r)
  {
    FirstReasonMeans(copies);
    SameRank(r, FirstReason(copies).value);
  }

  /** View `i` is the first to carry its digest. */
  predicate FirstOf(views: seq<View>, i: nat) {
    i < |views| && forall j | 0 <= j < i :: views[j].digest != views[i].digest
  }

  /** Of several copies that all fail, the one listed first is blamed. */
  lemma {:induction false} FirstBlamed(views: seq<View>, i: nat)
    requires Sound(views) && FirstOf(views, i) && !CarriesHealthy(views, views[i].digest)
    ensures var copies := TallyOf(views).copies;
            views[i].digest in copies && copies[views[i].digest] == views[i].reason
  {
    var n, d := |views| - 1, views[i].digest;
    var before := views[..n];
    assert views == before + [views[n]];
    CarriesAppend(before, views[n], d);
    CopiesMean(before, d);
    if i < n {
      assert before[i] == views[i] && forall j | 0 <= j < i :: before[j] == views[j];
      FirstBlamed(before, i);
    } else {
      assert forall j | 0 <= j < |before| :: before[j] == views[j];
      assert !Carries(before, d);
    }
  }

  lemma {:induction false} FirstExists(views: seq<View>, k: nat) returns (i: nat)
    requires k < |views|
    ensures i <= k && FirstOf(views, i) && views[i].digest == views[k].digest
    decreases k
  {
    if j :| 0 <= j < k && views[j].digest == views[k].digest {
      i := FirstExists(views, j);
    } else {
      i := k;
    }
  }

  // ---------------------------------------------------------------- the reasons that orders lead to

  /** A view of a digest that has no healthy view. */
  predicate Blamable(views: set<View>, v: View) {
    v in views && !ReadableAt(views, v.digest) && v.reason.Some?
  }

  predicate AllSound(views: set<View>) {
    forall v | v in views :: v.healthy <==> v.reason.None?
  }

  /** Some failing view of a digest is at least as far down the order of reasons as `r`. */
  ghost predicate HasWorse(views: set<View>, d: Option<Digest>, r: HealthReason) {
    exists w :: Blamable(views, w) && w.digest == d && Rank(r) <= Rank(w.reason.value)
  }

  /**
    The reasons that some order of the evidence leads to: those that a failing digest has, and
    that every failing digest can be made to exceed or equal.
   */
  ghost predicate Reachable(views: set<View>, r: HealthReason) {
    && (exists v :: Blamable(views, v) && v.reason.value == r)
    && forall v | Blamable(views, v) :: HasWorse(views, v.digest, r)
  }

  /** Every view of the digest of `v`, which fails, carries the least reason of all views of failing digests. */
  ghost predicate AlwaysBlamed(views: set<View>, v: View) {
    && Blamable(views, v)
    && (forall w | Blamable(views, w) :: Rank(v.reason.value) <= Rank(w.reason.value))
    && (forall w | w in views && w.digest == v.digest :: w.reason == v.reason)
  }

  /**
    The order cannot matter: nothing fails, or some failing digest has every one of its views
    carry the least reason of all views of failing digests.
   */
  ghost predicate OneReason(views: set<View>) {
    AllReadable(views) || exists v :: AlwaysBlamed(views, v)
  }

  lemma {:induction false} FailureAt(views: seq<View>, i: nat)
    requires Sound(views) && FirstOf(views, i)
    ensures var copies, d := TallyOf(views).copies, views[i].digest;
            && d in copies
            && (copies[d].Some? <==> Blamable(Elements(views), views[i]))
            && (copies[d].Some? ==> copies[d] == views[i].reason)
  {
    var d := views[i].digest;
    assert views[i] in Elements(views);
    CopyAt(views, d);
    CarriedBy(views, d);
    if !ReadableAt(Elements(views), d) {
      assert !CarriesHealthy(views, d);
      FirstBlamed(views, i);
    }
  }

  lemma FirstCopy(views: seq<View>, d: Option<Digest>) returns (i: nat)
    requires d in TallyOf(views).copies && Sound(views)
    ensures FirstOf(views, i) && views[i].digest == d
  {
    CopiesMean(views, d);
    var k :| 0 <= k < |views| && views[k].digest == d;
    i := FirstExists(views, k);
  }

  lemma FirstOfView(views: seq<View>, v: View) returns (i: nat)
    requires v in Elements(views)
    ensures FirstOf(views, i) && views[i].digest == v.digest
  {
    var k :| 0 <= k < |views| && views[k] == v;
    i := FirstExists(views, k);
  }

  /** Whatever the order, the reason is a reachable one. */
  lemma {:induction false} ReasonIsReachable(views: seq<View>)
    requires Sound(views)
    ensures FirstReason(TallyOf(views).copies).None? <==> AllReadable(Elements(views))
    ensures FirstReason(TallyOf(views).copies).Some? ==>
              Reachable(Elements(views), FirstReason(TallyOf(views).copies).value)
  {
    var copies, vs := TallyOf(views).copies, Elements(views);
    FirstReasonMeans(copies);
    TallyHealth(views);
    if FirstReason(copies).Some? {
      var r := FirstReason(copies).value;
      var d :| d in copies && copies[d] == Some(r);
      var i := FirstCopy(views, d);
      FailureAt(views, i);
      forall v | Blamable(vs, v)
        ensures HasWorse(vs, v.digest, r)
      {
        var j := FirstOfView(views, v);
        FailureAt(views, j);
        assert views[j] in vs && Blamable(vs, views[j]);
      }
    }
  }

  /** How far down the order of reasons a view fails. */
  function Severity(v: View): int {
    match v.reason case None => -1 case Some(r) => Rank(r)
  }

  predicate Descending(views: seq<View>) {
    forall i, j | 0 <= i < j < |views| :: Severity(views[i]) >= Severity(views[j])
  }

  /** With a view of a reachable reason first and the rest by falling severity, that reason is reported. */
  lemma {:induction false} ArrangedReason(first: View, rest: seq<View>, r: HealthReason)
    requires Sound([first] + rest) && Descending(rest)
    requires var vs := Elements([first] + rest);
             Reachable(vs, r) && Blamable(vs, first) && first.reason == Some(r)
    ensures FirstReason(TallyOf([first] + rest).copies) == Some(r)
  {
    var views := [first] + rest;
    var vs, copies := Elements(views), TallyOf(views).copies;
    assert views[0] == first && FirstOf(views, 0);
    FailureAt(views, 0);
    forall d | d in copies && copies[d].Some?
      ensures Rank(r) <= Rank(copies[d].value)
    {
      var i := FirstCopy(views, d);
      FailureAt(views, i);
      if i > 0 {
        WorseIsFirst(first, rest, r, i);
      }
    }
    LeastIsReported(copies, r);
  }

  lemma WorseIsFirst(first: View, rest: seq<View>, r: HealthReason, i: nat)
    requires Descending(rest)
    requires var views := [first] + rest;
             && 0 < i && FirstOf(views, i) && Blamable(Elements(views), views[i]) && HasWorse(Elements(views), views[i].digest, r)
    ensures Rank(r) <= Rank(([first] + rest)[i].reason.value)
  {
    var views := [first] + rest;
    var w :| Blamable(Elements(views), w) && w.digest == views[i].digest && Rank(r) <= Rank(w.reason.value);
    var k :| 0 <= k < |views| && views[k] == w;
    assert i <= k;
    assert views[i] == rest[i - 1] && views[k] == rest[k - 1];
    assert Severity(rest[i - 1]) >= Severity(rest[k - 1]);
  }

  // ---------------------------------------------------------------- when they are all the same

  /** The least reason above a floor, among the views of failing digests. */
  lemma {:induction false} LeastAbove(views: set<View>, floor: int, v: View) returns (u: View)
    requires Blamable(views, v) && floor < Rank(v.reason.value)
    ensures Blamable(views, u) && floor < Rank(u.reason.value)
    ensures forall w | Blamable(views, w) && floor < Rank(w.reason.value) :: Rank(u.reason.value) <= Rank(w.reason.value)
    decreases Rank(v.reason.value)
  {
    if w :| Blamable(views, w) && floor < Rank(w.reason.value) < Rank(v.reason.value) {
      u := LeastAbove(views, floor, w);
    } else {
      u := v;
    }
  }

  lemma UnreadableIsBlamable(views: set<View>) returns (v: View)
    requires AllSound(views) && !AllReadable(views)
    ensures Blamable(views, v)
  {
    v :| v in views && !ReadableAt(views, v.digest);
    assert !v.healthy;
  }

  /** The least reason of the failing digests is always reachable. */
  lemma LeastIsReachable(views: set<View>) returns (m: View)
    requires AllSound(views) && !AllReadable(views)
    ensures Blamable(views, m) && Reachable(views, m.reason.value)
    ensures forall w | Blamable(views, w) :: Rank(m.reason.value) <= Rank(w.reason.value)
  {
    var v := UnreadableIsBlamable(views);
    m := LeastAbove(views, -1, v);
    forall w | Blamable(views, w)
      ensures HasWorse(views, w.digest, m.reason.value)
    {
    }
  }

  /** With one reason, no other is reachable. */
  lemma OneIsReachable(views: set<View>, r: HealthReason, q: HealthReason)
    requires OneReason(views) && Reachable(views, r) && Reachable(views, q)
    ensures r == q
  {
    var u :| Blamable(views, u);
    assert !AllReadable(views);
    var v :| AlwaysBlamed(views, v);
    IsThatReason(views, v, r);
    IsThatReason(views, v, q);
  }

  lemma IsThatReason(views: set<View>, v: View, r: HealthReason)
    requires AlwaysBlamed(views, v) && Reachable(views, r)
    ensures r == v.reason.value
  {
    assert HasWorse(views, v.digest, r);
    SameRank(r, v.reason.value);
  }

  /** Some failing view of a digest is further down the order of reasons than `r`. */
  ghost predicate HasFurther(views: set<View>, d: Option<Digest>, r: HealthReason) {
    exists w :: Blamable(views, w) && w.digest == d && Rank(r) < Rank(w.reason.value)
  }

  lemma FurtherAlong(views: set<View>, m: View, v: View)
    requires AllSound(views) && !OneReason(views) && Blamable(views, m) && Blamable(views, v)
    requires forall x | Blamable(views, x) :: Rank(m.reason.value) <= Rank(x.reason.value)
    ensures HasFurther(views, v.digest, m.reason.value)
  {
    if Rank(m.reason.value) == Rank(v.reason.value) {
      assert !AlwaysBlamed(views, v);
      var w :| w in views && w.digest == v.digest && w.reason != v.reason;
      assert !w.healthy && Blamable(views, w);
      if Rank(w.reason.value) == Rank(v.reason.value) {
        SameRank(w.reason.value, v.reason.value);
      }
    }
  }

  /** The least reason beyond `r` is reachable if every failing digest goes beyond `r`. */
  lemma NextIsReachable(views: set<View>, r: HealthReason, v: View) returns (q: HealthReason)
    requires Blamable(views, v) && forall w | Blamable(views, w) :: HasFurther(views, w.digest, r)
    ensures Reachable(views, q) && q != r
  {
    assert HasFurther(views, v.digest, r);
    var w :| Blamable(views, w) && w.digest == v.digest && Rank(r) < Rank(w.reason.value);
    var u := LeastAbove(views, Rank(r), w);
    q := u.reason.value;
    forall x | Blamable(views, x)
      ensures HasWorse(views, x.digest, q)
    {
      assert HasFurther(views, x.digest, r);
      var y :| Blamable(views, y) && y.digest == x.digest && Rank(r) < Rank(y.reason.value);
    }
  }

  /** Without one reason, two different ones are reachable. */
  lemma TwoAreReachable(views: set<View>) returns (r: HealthReason, q: HealthReason)
    requires AllSound(views) && !OneReason(views)
    ensures Reachable(views, r) && Reachable(views, q) && r != q
  {
    var m := LeastIsReachable(views);
    r := m.reason.value;
    forall v | Blamable(views, v)
      ensures HasFurther(views, v.digest, r)
    {
      FurtherAlong(views, m, v);
    }
    q := NextIsReachable(views, r, m);
  }

  // ---------------------------------------------------------------- orders of an assessment's evidence

  /** The same assessment with its evidence permuted. */
  predicate Permuted(a: Assessment, b: Assessment) {
    b == a.(uses := b.uses) && multiset(b.uses) == multiset(a.uses)
  }

  lemma PermutedReorders(a: Assessment, b: Assessment)
    requires Permuted(a, b)
    ensures Reordered(a, b)
  {
    forall u
      ensures u in Cited(a.uses) <==> u in Cited(b.uses)
    {
      assert u in Cited(a.uses) <==> u in multiset(a.uses);
      assert u in Cited(b.uses) <==> u in multiset(b.uses);
    }
  }

  /** How far down the order of reasons a use fails. */
  function UseSeverity(basis: Basis, a: Assessment, u: Use): int {
    if Resolves(basis, u) then Severity(ViewOf(basis, a, u)) else -1
  }

  predicate UsesDescend(f: Use -> int, uses: seq<Use>) {
    forall i, j | 0 <= i < j < |uses| :: f(uses[i]) >= f(uses[j])
  }

  function InsertUse(f: Use -> int, u: Use, sorted: seq<Use>): seq<Use> {
    if sorted == [] || f(u) >= f(sorted[0]) then [u] + sorted
    else [sorted[0]] + InsertUse(f, u, sorted[1..])
  }

  lemma {:induction false} InsertUseKeeps(f: Use -> int, u: Use, sorted: seq<Use>)
    ensures multiset(InsertUse(f, u, sorted)) == multiset(sorted) + multiset{u}
  {
    if !(sorted == [] || f(u) >= f(sorted[0])) {
      InsertUseKeeps(f, u, sorted[1..]);
      assert sorted == [sorted[0]] + sorted[1..];
    }
  }

  lemma {:induction false} InsertUseDescends(f: Use -> int, u: Use, sorted: seq<Use>)
    requires UsesDescend(f, sorted)
    ensures UsesDescend(f, InsertUse(f, u, sorted))
  {
    if !(sorted == [] || f(u) >= f(sorted[0])) {
      InsertUseDescends(f, u, sorted[1..]);
      InsertUseKeeps(f, u, sorted[1..]);
      var rest := InsertUse(f, u, sorted[1..]);
      forall j | 0 <= j < |rest|
        ensures f(sorted[0]) >= f(rest[j])
      {
        assert rest[j] in multiset(rest);
        if rest[j] != u {
          assert rest[j] in multiset(sorted[1..]);
          var k :| 0 <= k < |sorted[1..]| && sorted[1..][k] == rest[j];
        }
      }
    }
  }

  function SortUses(f: Use -> int, uses: seq<Use>): seq<Use> {
    if uses == [] then [] else InsertUse(f, uses[0], SortUses(f, uses[1..]))
  }

  lemma {:induction false} SortUsesKeeps(f: Use -> int, uses: seq<Use>)
    ensures multiset(SortUses(f, uses)) == multiset(uses)
    ensures UsesDescend(f, SortUses(f, uses))
  {
    if uses != [] {
      SortUsesKeeps(f, uses[1..]);
      InsertUseKeeps(f, uses[0], SortUses(f, uses[1..]));
      InsertUseDescends(f, uses[0], SortUses(f, uses[1..]));
      assert uses == [uses[0]] + uses[1..];
    }
  }

  function Others(uses: seq<Use>, i: nat): seq<Use>
    requires i < |uses|
  {
    uses[..i] + uses[i + 1..]
  }

  lemma OthersKeep(uses: seq<Use>, i: nat)
    requires i < |uses|
    ensures multiset(uses) == multiset{uses[i]} + multiset(Others(uses, i))
  {
    assert uses == uses[..i] + [uses[i]] + uses[i + 1..];
  }

  /** The evidence with use `i` first and the rest by falling severity. */
  function Arranged(basis: Basis, a: Assessment, i: nat): Assessment
    requires i < |a.uses|
  {
    a.(uses := [a.uses[i]] + SortUses(u => UseSeverity(basis, a, u), Others(a.uses, i)))
  }

  lemma ArrangedIsPermuted(basis: Basis, a: Assessment, i: nat)
    requires i < |a.uses|
    ensures Permuted(a, Arranged(basis, a, i))
  {
    OthersKeep(a.uses, i);
    SortUsesKeeps(u => UseSeverity(basis, a, u), Others(a.uses, i));
  }

  // ---------------------------------------------------------------- the views of a permutation

  lemma {:induction false} AtJoin(x: seq<View>, y: seq<View>, address: Option<Address>)
    ensures At(x + y, address) == At(x, address) + At(y, address)
  {
    if y == [] {
      assert x + y == x;
    } else {
      var n := |y| - 1;
      AtJoin(x, y[..n], address);
      assert (x + y)[..|x| + n] == x + y[..n];
      assert (x + y)[|x| + n] == y[n];
    }
  }

  lemma {:induction false} AtDescends(views: seq<View>, address: Option<Address>)
    requires Descending(views)
    ensures Descending(At(views, address))
  {
    if views != [] {
      var n := |views| - 1;
      AtDescends(views[..n], address);
      forall i | 0 <= i < |At(views[..n], address)|
        ensures Severity(At(views[..n], address)[i]) >= Severity(views[n])
      {
        AtMembers(views[..n], address, At(views[..n], address)[i]);
        var k :| 0 <= k < n && views[..n][k] == At(views[..n], address)[i];
      }
    }
  }

  /** The views of a permutation are those of the original, in the order of its uses. */
  lemma PermutedViews(basis: Basis, a: Assessment, b: Assessment, i: nat)
    requires Reordered(a, b) && AllResolve(basis, a) && AllResolve(basis, b) && i < |b.uses|
    ensures Resolves(basis, b.uses[i]) && ViewsOf(basis, b)[i] == ViewOf(basis, a, b.uses[i])
  {
    SameView(basis, a, b, b.uses[i]);
  }

  lemma PermutedSeverity(basis: Basis, a: Assessment, b: Assessment, i: nat)
    requires Reordered(a, b) && AllResolve(basis, a) && AllResolve(basis, b) && i < |b.uses|
    ensures Severity(ViewsOf(basis, b)[i]) == UseSeverity(basis, a, b.uses[i])
  {
    PermutedViews(basis, a, b, i);
  }

  lemma SortedTail(basis: Basis, a: Assessment, b: Assessment, first: Use, sorted: seq<Use>)
    requires Reordered(a, b) && AllResolve(basis, a) && AllResolve(basis, b) && b.uses == [first] + sorted
    requires UsesDescend(u => UseSeverity(basis, a, u), sorted)
    ensures Descending(ViewsOf(basis, b)[1..])
  {
    var tail, f := ViewsOf(basis, b)[1..], (u: Use) => UseSeverity(basis, a, u);
    forall j, k | 0 <= j < k < |tail|
      ensures Severity(tail[j]) >= Severity(tail[k])
    {
      PermutedSeverity(basis, a, b, j + 1);
      PermutedSeverity(basis, a, b, k + 1);
      assert f(sorted[j]) >= f(sorted[k]);
    }
  }

  lemma ArrangedViews(basis: Basis, a: Assessment, i: nat)
    requires AllResolve(basis, a) && i < |a.uses|
    ensures var b := Arranged(basis, a, i);
            && AllResolve(basis, b)
            && ViewsOf(basis, b)[0] == ViewOf(basis, a, a.uses[i])
            && Descending(ViewsOf(basis, b)[1..])
  {
    var b := Arranged(basis, a, i);
    ArrangedIsPermuted(basis, a, i);
    PermutedReorders(a, b);
    SameResolve(basis, a, b);
    SortUsesKeeps(u => UseSeverity(basis, a, u), Others(a.uses, i));
    PermutedViews(basis, a, b, 0);
    SortedTail(basis, a, b, a.uses[i], SortUses(u => UseSeverity(basis, a, u), Others(a.uses, i)));
  }

  // ---------------------------------------------------------------- the reason of an entry

  /** The entry of `b` at a context reports a reason. */
  ghost predicate Reports(basis: Basis, b: Assessment, key: ContextKey, reason: Option<HealthReason>) {
    && AllResolve(basis, b) && key in EntriesOf(basis, b)
    && EntriesOf(basis, b)[key].healthReason == reason
  }

  lemma EntryReason(basis: Basis, b: Assessment, key: ContextKey)
    requires AllResolve(basis, b) && b.uses != [] && key in EntriesOf(basis, b)
    ensures EntriesOf(basis, b)[key].healthReason
            == FirstReason(TallyOf(At(ViewsOf(basis, b), key.address)).copies)
  {
  }

  lemma BoundSound(basis: Basis, a: Assessment, address: Option<Address>)
    requires AllResolve(basis, a)
    ensures AllSound(BoundViews(basis, a, address))
  {
    ViewsSound(basis, a, address);
    GatheredViews(basis, a, address);
  }

  /** Whatever order the evidence is listed in, an entry reports a reachable reason. */
  lemma ReportedIsReachable(basis: Basis, a: Assessment, b: Assessment, key: ContextKey, reason: Option<HealthReason>)
    requires Reordered(a, b) && AllResolve(basis, a) && a.uses != [] && Reports(basis, b, key, reason)
    ensures reason.None? <==> AllReadable(BoundViews(basis, a, key.address))
    ensures reason.Some? ==> Reachable(BoundViews(basis, a, key.address), reason.value)
  {
    SameStands(basis, a, b, key);
    EntryReason(basis, b, key);
    ViewsSound(basis, b, key.address);
    GatheredViews(basis, b, key.address);
    ReasonIsReachable(At(ViewsOf(basis, b), key.address));
  }

  lemma BlamableUse(basis: Basis, a: Assessment, address: Option<Address>, r: HealthReason) returns (i: nat)
    requires AllResolve(basis, a) && Reachable(BoundViews(basis, a, address), r)
    ensures i < |a.uses|
    ensures var v := ViewOf(basis, a, a.uses[i]);
            Blamable(BoundViews(basis, a, address), v) && v.address == address && v.reason == Some(r)
  {
    var v :| Blamable(BoundViews(basis, a, address), v) && v.reason.value == r;
    i :| 0 <= i < |a.uses| && ViewOf(basis, a, a.uses[i]).address == address && v == ViewOf(basis, a, a.uses[i]);
  }

  lemma ArrangedAt(basis: Basis, a: Assessment, i: nat, address: Option<Address>) returns (rest: seq<View>)
    requires AllResolve(basis, a) && i < |a.uses| && ViewOf(basis, a, a.uses[i]).address == address
    ensures AllResolve(basis, Arranged(basis, a, i)) && Descending(rest)
    ensures At(ViewsOf(basis, Arranged(basis, a, i)), address) == [ViewOf(basis, a, a.uses[i])] + rest
  {
    ArrangedViews(basis, a, i);
    var views := ViewsOf(basis, Arranged(basis, a, i));
    assert views == [views[0]] + views[1..];
    AtJoin([views[0]], views[1..], address);
    assert [views[0]][..0] == [] && At([views[0]], address) == [views[0]];
    AtDescends(views[1..], address);
    rest := At(views[1..], address);
  }

  lemma ArrangedStands(basis: Basis, a: Assessment, i: nat, key: ContextKey)
    requires AllResolve(basis, a) && key in EntriesOf(basis, a) && i < |a.uses|
    ensures var b := Arranged(basis, a, i);
            && AllResolve(basis, b) && key in EntriesOf(basis, b)
            && BoundViews(basis, b, key.address) == BoundViews(basis, a, key.address)
  {
    var b := Arranged(basis, a, i);
    ArrangedIsPermuted(basis, a, i);
    PermutedReorders(a, b);
    SameResolve(basis, a, b);
    EntriesAgree(basis, a, b, key);
    SameStands(basis, a, b, key);
  }

  /** With a use of the reason first and the rest by falling severity, the reason is reported. */
  lemma ArrangedReports(basis: Basis, a: Assessment, key: ContextKey, r: HealthReason, i: nat)
    requires AllResolve(basis, a) && key in EntriesOf(basis, a) && i < |a.uses|
    requires Reachable(BoundViews(basis, a, key.address), r)
    requires var v := ViewOf(basis, a, a.uses[i]);
             Blamable(BoundViews(basis, a, key.address), v) && v.address == key.address && v.reason == Some(r)
    ensures Reports(basis, Arranged(basis, a, i), key, Some(r))
  {
    var b := Arranged(basis, a, i);
    ArrangedStands(basis, a, i, key);
    var rest := ArrangedAt(basis, a, i, key.address);
    EntryReason(basis, b, key);
    ViewsSound(basis, b, key.address);
    GatheredViews(basis, b, key.address);
    ArrangedReason(ViewOf(basis, a, a.uses[i]), rest, r);
  }

  /** Some order of the evidence of `a` makes its entry at a context report `r`. */
  ghost predicate SomeOrderReports(basis: Basis, a: Assessment, key: ContextKey, r: HealthReason) {
    exists b :: Permuted(a, b) && Reports(basis, b, key, Some(r))
  }

  /** The reasons that an entry can be made to report by permuting its evidence, exactly. */
  lemma ReachableReasons(basis: Basis, a: Assessment, key: ContextKey, r: HealthReason)
    requires AllResolve(basis, a) && key in EntriesOf(basis, a) && a.uses != []
    ensures SomeOrderReports(basis, a, key, r) <==> Reachable(BoundViews(basis, a, key.address), r)
  {
    if SomeOrderReports(basis, a, key, r) {
      var b :| Permuted(a, b) && Reports(basis, b, key, Some(r));
      PermutedReorders(a, b);
      ReportedIsReachable(basis, a, b, key, Some(r));
    }
    if Reachable(BoundViews(basis, a, key.address), r) {
      var i := BlamableUse(basis, a, key.address, r);
      ArrangedIsPermuted(basis, a, i);
      ArrangedReports(basis, a, key, r, i);
    }
  }

  /** Every order of the evidence of `a` makes its entry at a context report the same as `a` does. */
  ghost predicate OrderIsIrrelevant(basis: Basis, a: Assessment, key: ContextKey)
    requires AllResolve(basis, a) && key in EntriesOf(basis, a)
  {
    forall b | Permuted(a, b) :: Reports(basis, b, key, EntriesOf(basis, a)[key].healthReason)
  }

  lemma PermutedStands(basis: Basis, a: Assessment, b: Assessment, key: ContextKey)
    requires AllResolve(basis, a) && key in EntriesOf(basis, a) && Permuted(a, b)
    ensures Reordered(a, b) && AllResolve(basis, b) && key in EntriesOf(basis, b)
    ensures Reports(basis, b, key, EntriesOf(basis, b)[key].healthReason)
  {
    PermutedReorders(a, b);
    SameResolve(basis, a, b);
    EntriesAgree(basis, a, b, key);
  }

  lemma OneReasonReported(basis: Basis, a: Assessment, b: Assessment, key: ContextKey)
    requires AllResolve(basis, a) && key in EntriesOf(basis, a) && a.uses != [] && Permuted(a, b)
    requires OneReason(BoundViews(basis, a, key.address))
    ensures Reports(basis, b, key, EntriesOf(basis, a)[key].healthReason)
  {
    PermutedStands(basis, a, b, key);
    var views := BoundViews(basis, a, key.address);
    var r, q := EntriesOf(basis, a)[key].healthReason, EntriesOf(basis, b)[key].healthReason;
    ReportedIsReachable(basis, a, a, key, r);
    ReportedIsReachable(basis, a, b, key, q);
    if r.Some? && q.Some? {
      OneIsReachable(views, r.value, q.value);
    }
  }

  lemma OnlyOrder(basis: Basis, a: Assessment, key: ContextKey)
    requires AllResolve(basis, a) && key in EntriesOf(basis, a) && a.uses == []
    ensures OrderIsIrrelevant(basis, a, key) && OneReason(BoundViews(basis, a, key.address))
  {
    forall b | Permuted(a, b)
      ensures b == a
    {
      assert |multiset(b.uses)| == |b.uses|;
    }
  }

  /**
    Exactly when the order of an assessment's evidence cannot change the reason reported at a
    context: when no digest fails there, or some failing digest has every use there carry the
    least reason among all uses of failing digests.
   */
  lemma OrderIrrelevantExactly(basis: Basis, a: Assessment, key: ContextKey)
    requires AllResolve(basis, a) && key in EntriesOf(basis, a)
    ensures OrderIsIrrelevant(basis, a, key) <==> OneReason(BoundViews(basis, a, key.address))
  {
    var views := BoundViews(basis, a, key.address);
    if a.uses == [] {
      OnlyOrder(basis, a, key);
    } else if OneReason(views) {
      forall b | Permuted(a, b)
        ensures Reports(basis, b, key, EntriesOf(basis, a)[key].healthReason)
      {
        OneReasonReported(basis, a, b, key);
      }
    } else {
      BoundSound(basis, a, key.address);
      var r, q := TwoAreReachable(views);
      ReachableReasons(basis, a, key, r);
      ReachableReasons(basis, a, key, q);
      var b :| Permuted(a, b) && Reports(basis, b, key, Some(r));
      var c :| Permuted(a, c) && Reports(basis, c, key, Some(q));
    }
  }

  // ---------------------------------------------------------------- a valid selection where it matters

  const TWIN_ORIGIN := Origin("https://h.example", true, false, 443)
  const TWIN_ADDRESS: Address := "192.0.2.1"

  /** One of two timed-out acquisitions that captured the same bytes. */
  function Twin(id: Uuid): Acquisition {
    Acquisition(
      id, 0, Some(1), TWIN_ORIGIN, TWIN_ADDRESS, ROOT, Timeout, Some(Artifact("response.http", Sha256([72, 84]), 2)), None)
  }

  function TwinUse(id: Uuid): Use {
    FreshRecheck(id, [Fact(AcquisitionStatusKey, StatusText(Timeout))])
  }

  function TwinAssessment(first: Uuid, second: Uuid): Assessment {
    var claim := Claim(DirectoryListing, RULE_VERSION, TWIN_ORIGIN, ROOT);
    Assessment(
      AssessmentId("p", claim), claim,
      [ Prerequisite(AuthorizedTarget, Met), Prerequisite(IntendedResource, Met), Prerequisite(CompleteResponse, NotMet)],
      Inconclusive, RecheckTimedOut, [TwinUse(first), TwinUse(second)])
  }

  function TwinReport(first: Uuid, second: Uuid): Report {
    FreshReport("p", [Twin(1), Twin(2)], [TwinAssessment(first, second)])
  }

  /** The artifact of the first was not verified, that of the second was found corrupt. */
  function TwinSupport(): Support {
    Support(None, Some(map[2 := Corrupt]), None)
  }

  function TwinBasis(): Basis {
    FreshBasis([Twin(1), Twin(2)], Some(map[2 := Corrupt]))
  }

  function TwinReason(first: Uuid): HealthReason {
    if first == 1 then FreshHealthUnverified else FreshArtifactUnhealthy
  }

  function TwinKey(): ContextKey {
    ContextKey(DirectoryListing, TWIN_ORIGIN, ROOT, Some(TWIN_ADDRESS))
  }

  predicate Twins(first: Uuid, second: Uuid) {
    (first == 1 && second == 2) || (first == 2 && second == 1)
  }

  lemma {:induction false} LastFound(acquisitions: seq<Acquisition>, q: Acquisition, id: Uuid)
    ensures AcquisitionOf(acquisitions + [q], id) == if q.id == id then Some(q) else AcquisitionOf(acquisitions, id)
  {
    assert (acquisitions + [q])[..|acquisitions|] == acquisitions;
  }

  lemma {:induction false} TwinFound(id: Uuid)
    requires id == 1 || id == 2
    ensures AcquisitionOf(TwinBasis().acquisitions, id) == Some(Twin(id))
  {
    LastFound([], Twin(1), id);
    LastFound([Twin(1)], Twin(2), id);
    assert [] + [Twin(1)] == [Twin(1)] && [Twin(1)] + [Twin(2)] == TwinBasis().acquisitions;
  }

  lemma TwinView(a: Assessment, id: Uuid)
    requires id == 1 || id == 2
    ensures Resolves(TwinBasis(), TwinUse(id))
    ensures var v := ViewOf(TwinBasis(), a, TwinUse(id));
            && v.address == Some(TWIN_ADDRESS) && v.digest == Some(Sha256([72, 84]))
            && !v.healthy && v.reason == Some(TwinReason(id))
  {
    TwinFound(id);
  }

  lemma TwinReportValid(first: Uuid, second: Uuid)
    requires Twins(first, second)
    ensures ValidReport(TwinReport(first, second)) && ValidAcquisition(Twin(first)) && ValidAcquisition(Twin(second))
  {
    var acquisitions := [Twin(1), Twin(2)];
    assert acquisitions[0].id == 1 && acquisitions[1].id == 2;
  }

  /** Where every view has one digest and all fail, the first is blamed. */
  lemma {:induction false} FirstOfAll(views: seq<View>)
    requires Sound(views) && views != []
    requires forall i | 0 <= i < |views| :: !views[i].healthy && views[i].digest == views[0].digest
    ensures FirstReason(TallyOf(views).copies) == views[0].reason
  {
    FirstBlamed(views, 0);
    var copies := TallyOf(views).copies;
    forall d | d in copies
      ensures d == views[0].digest
    {
      CopiesMean(views, d);
    }
    LeastIsReported(copies, views[0].reason.value);
  }

  lemma {:induction false} AllAt(views: seq<View>, address: Option<Address>)
    requires forall i | 0 <= i < |views| :: views[i].address == address
    ensures At(views, address) == views
  {
    if views != [] {
      AllAt(views[..|views| - 1], address);
      assert views == views[..|views| - 1] + [views[|views| - 1]];
    }
  }

  lemma TwinViews(first: Uuid, second: Uuid)
    requires Twins(first, second)
    ensures AllResolve(TwinBasis(), TwinAssessment(first, second))
    ensures var views := ViewsOf(TwinBasis(), TwinAssessment(first, second));
            && |views| == 2 && views[0].reason == Some(TwinReason(first)) && Sound(views)
            && forall i | 0 <= i < 2 ::
                 views[i].address == Some(TWIN_ADDRESS) && views[i].digest == Some(Sha256([72, 84])) && !views[i].healthy
  {
    var a := TwinAssessment(first, second);
    TwinView(a, first);
    TwinView(a, second);
    assert a.uses[0] == TwinUse(first) && a.uses[1] == TwinUse(second);
  }

  lemma TwinStands(first: Uuid, second: Uuid)
    requires Twins(first, second)
    ensures AllResolve(TwinBasis(), TwinAssessment(first, second))
    ensures Stands(TwinBasis(), TwinAssessment(first, second), TwinKey())
  {
    var a := TwinAssessment(first, second);
    TwinViews(first, second);
    assert ViewOf(TwinBasis(), a, a.uses[0]) in BoundViews(TwinBasis(), a, Some(TWIN_ADDRESS)) by {
      assert ViewsOf(TwinBasis(), a)[0] == ViewOf(TwinBasis(), a, a.uses[0]);
    }
  }

  lemma TwinEntry(first: Uuid, second: Uuid)
    requires Twins(first, second)
    ensures AllResolve(TwinBasis(), TwinAssessment(first, second))
    ensures Stands(TwinBasis(), TwinAssessment(first, second), TwinKey())
    ensures Reports(TwinBasis(), TwinAssessment(first, second), TwinKey(), Some(TwinReason(first)))
  {
    var a := TwinAssessment(first, second);
    TwinViews(first, second);
    TwinStands(first, second);
    var views := ViewsOf(TwinBasis(), a);
    AllAt(views, Some(TWIN_ADDRESS));
    FirstOfAll(views);
    EntriesStand(TwinBasis(), a, TwinKey());
    EntryReason(TwinBasis(), a, TwinKey());
  }

  /** What a comparison makes of the twins, listed in one order, whatever it is compared with. */
  lemma TwinSide(first: Uuid, second: Uuid, review: Review, other: Option<Entry>) returns (entry: Entry)
    requires Twins(first, second)
    ensures var side := SideOf(TwinReport(first, second), TwinSupport(), review);
            side.Success? && EntryAt(side.value, TwinKey()) == Some(entry)
    ensures entry.healthReason == Some(TwinReason(first)) && !entry.healthy
    ensures Conclude(TwinKey().address, Some(entry), other, review.templates).coverage
            == Coverage(Unusable, HealthCode(TwinReason(first)))
  {
    var entries := TwinBuilds(first, second, review);
    TwinEntry(first, second);
    LoneEntry(TwinBasis(), TwinAssessment(first, second), entries, TwinKey(), TwinReason(first));
    entry := entries[TwinKey()];
    BlamedCoverage(TwinKey().address, entry, other, TwinReason(first), review.templates);
  }

  lemma TwinBuilds(first: Uuid, second: Uuid, review: Review) returns (entries: Entries)
    requires Twins(first, second)
    ensures SideOf(TwinReport(first, second), TwinSupport(), review) == Success(entries)
    ensures Build(TwinBasis(), [TwinAssessment(first, second)], 1) == Success(entries)
  {
    TwinReportValid(first, second);
    OnlyAmbiguousVersions(TwinReport(first, second), TwinSupport(), review);
    entries := SideOf(TwinReport(first, second), TwinSupport(), review).value;
  }

  /** The entry of the only assessment of a selection, at a context whose evidence is blamed for something. */
  lemma {:induction false} LoneEntry(basis: Basis, a: Assessment, entries: Entries, key: ContextKey, r: HealthReason)
    requires Build(basis, [a], 1) == Success(entries) && AllResolve(basis, a) && a.uses != []
    requires Stands(basis, a, key) && Reports(basis, a, key, Some(r))
    ensures key in entries && entries[key].healthReason == Some(r) && !entries[key].healthy
  {
    var assessments := [a];
    EntryBehind(basis, assessments, entries, key, 0);
    var i := PartBehind(basis, assessments, entries, key);
    assert assessments[i] == a;
    PermutedReorders(a, a);
    ReportedIsReachable(basis, a, a, key, Some(r));
  }

  lemma BlamedCoverage(
    address: Option<Address>, entry: Entry, other: Option<Entry>, r: HealthReason, templates: map<string, string>)
    requires entry.healthReason == Some(r) && !entry.healthy
    ensures Conclude(address, Some(entry), other, templates).coverage == Coverage(Unusable, HealthCode(r))
  {
  }

  /**
    The order does matter for some valid selections: these two reports differ in nothing but
    the order of one assessment's evidence, both are accepted, and a comparison reports a
    different coverage reason for each.
   */
  lemma BlameDependsOnOrder(review: Review, other: Option<Entry>) returns (x: Entry, y: Entry)
    ensures ValidReport(TwinReport(1, 2)) && ValidReport(TwinReport(2, 1))
    ensures ValidAcquisition(Twin(1)) && ValidAcquisition(Twin(2))
    ensures Permuted(TwinAssessment(1, 2), TwinAssessment(2, 1))
    ensures var side := SideOf(TwinReport(1, 2), TwinSupport(), review);
            side.Success? && EntryAt(side.value, TwinKey()) == Some(x)
    ensures var side := SideOf(TwinReport(2, 1), TwinSupport(), review);
            side.Success? && EntryAt(side.value, TwinKey()) == Some(y)
    ensures x.healthReason == Some(FreshHealthUnverified) && y.healthReason == Some(FreshArtifactUnhealthy)
    ensures Conclude(TwinKey().address, Some(x), other, review.templates).coverage.reason
            != Conclude(TwinKey().address, Some(y), other, review.templates).coverage.reason
  {
    TwinReportValid(1, 2);
    TwinReportValid(2, 1);
    var a, b := TwinAssessment(1, 2), TwinAssessment(2, 1);
    assert multiset(a.uses) == multiset{TwinUse(1), TwinUse(2)} == multiset(b.uses);
    x := TwinSide(1, 2, review, other);
    y := TwinSide(2, 1, review, other);
  }
}

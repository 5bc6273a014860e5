/**
 What sessionisation means, independently of how it is computed: two events of a
 visitor share a visit exactly when they are joined by steps no longer than the gap.
 */
module VisitLaws {
  import opened Prelude
  import opened Visits

  // ------------------------------------------------------------------------
  // The reference definition
  // ------------------------------------------------------------------------

  predicate Near(a: Event, b: Event, gap: int) {
    a.at.Some? && b.at.Some? && -gap <= a.at.value - b.at.value <= gap
  }

  /** A walk over dated events of visitor `v`, each step at most the gap. */
  ghost predicate Chain(events: seq<Event>, v: Visitor, path: seq<Event>, gap: int) {
    && |path| > 0
    && (forall i :: 0 <= i < |path| ==> path[i] in events && path[i].at.Some? && VisitorOf(path[i]) == v)
    && (forall i :: 0 < i < |path| ==> Near(path[i - 1], path[i], gap))
  }

  ghost predicate Linked(events: seq<Event>, a: Event, b: Event, gap: int) {
    exists path :: Chain(events, VisitorOf(a), path, gap) && path[0] == a && path[|path| - 1] == b
  }

  /** `m` is the latest dated event of its visitor. */
  ghost predicate Latest(events: seq<Event>, m: Event) {
    && m in events && m.at.Some?
    && forall x :: x in events && x.at.Some? && VisitorOf(x) == VisitorOf(m) ==> x.at.value <= m.at.value
  }

  /** An undated event stands wherever the latest dated event of its visitor does. */
  ghost predicate Joined(events: seq<Event>, a: Event, b: Event, gap: int) {
    && VisitorOf(a) == VisitorOf(b)
    && if a.at.Some? && b.at.Some? then
         Linked(events, a, b, gap)
       else if a.at.None? && b.at.None? then
         true
       else
         var dated := if a.at.Some? then a else b;
         exists m :: Latest(events, m) && Linked(events, m, dated, gap)
  }

  ghost predicate SameVisit(visits: seq<seq<Event>>, a: Event, b: Event) {
    exists i :: 0 <= i < |visits| && a in visits[i] && b in visits[i]
  }

  // ------------------------------------------------------------------------
  // The visits of one ordered visitor
  // ------------------------------------------------------------------------

  /** The number of the visit that the k-th ordered event falls in. */
  function RunOf(o: seq<Event>, k: nat, gap: int): nat
    requires k < |o|
  {
    if k == 0 then 0
    else RunOf(o, k - 1, gap) + if Breaks(LastDated(o[..k]), o[k], gap) then 1 else 0
  }

  lemma {:induction false} RunOfPrefix(o: seq<Event>, n: nat, k: nat, gap: int)
    requires k < n <= |o|
    ensures RunOf(o[..n], k, gap) == RunOf(o, k, gap)
  {
    if k > 0 {
      RunOfPrefix(o, n, k - 1, gap);
      assert o[..n][..k] == o[..k];
    }
  }

  /** Nothing is lost, invented or reordered. */
  lemma {:induction false} SplitKeeps(o: seq<Event>, gap: int)
    ensures Flatten(Split(o, gap)) == o
  {
    if o != [] {
      var before, e := o[..|o| - 1], o[|o| - 1];
      var runs := Split(before, gap);
      SplitKeeps(before, gap);
      if runs != [] {
        FlattenConcat(runs[..|runs| - 1], [runs[|runs| - 1] + [e]]);
      }
      FlattenConcat(runs, [[e]]);
      assert o == before + [e];
    }
  }

  /** No visit is empty. */
  lemma {:induction false} SplitVisitsNonEmpty(o: seq<Event>, gap: int)
    ensures forall r :: 0 <= r < |Split(o, gap)| ==> Split(o, gap)[r] != []
  {
    if o != [] {
      SplitVisitsNonEmpty(o[..|o| - 1], gap);
    }
  }

  lemma {:induction false} SplitCount(o: seq<Event>, gap: int)
    ensures o != [] ==> |Split(o, gap)| == RunOf(o, |o| - 1, gap) + 1
  {
    if |o| > 1 {
      SplitCount(o[..|o| - 1], gap);
      RunOfPrefix(o, |o| - 1, |o| - 2, gap);
    }
  }

  /** One more event extends the last visit or opens a new one. */
  lemma SplitGrows(o: seq<Event>, r: nat, gap: int)
    requires o != [] && r < |Split(o[..|o| - 1], gap)|
    ensures r < |Split(o, gap)| && Split(o[..|o| - 1], gap)[r] <= Split(o, gap)[r]
  {
  }

  /** Every event is in the visit its run number names. */
  lemma {:induction false} SplitHolds(o: seq<Event>, k: nat, gap: int)
    requires k < |o|
    ensures RunOf(o, k, gap) < |Split(o, gap)|
    ensures o[k] in Split(o, gap)[RunOf(o, k, gap)]
  {
    var n := |o| - 1;
    if k < n {
      var r := RunOf(o, k, gap);
      RunOfPrefix(o, n, k, gap);
      SplitHolds(o[..n], k, gap);
      SplitGrows(o, r, gap);
      assert o[k] in Split(o[..n], gap)[r];
    } else {
      SplitCount(o, gap);
    }
  }

  /** And a visit holds nothing else. */
  lemma {:induction false} SplitOnly(o: seq<Event>, r: nat, x: Event, gap: int) returns (k: nat)
    requires r < |Split(o, gap)| && x in Split(o, gap)[r]
    ensures k < |o| && o[k] == x && RunOf(o, k, gap) == r
  {
    var n := |o| - 1;
    var runs := Split(o[..n], gap);
    SplitCount(o, gap);
    if r < |runs| && x in runs[r] {
      k := SplitOnly(o[..n], r, x, gap);
      RunOfPrefix(o, n, k, gap);
    } else {
      k := n;
    }
  }

  lemma {:induction false} RunMonotone(o: seq<Event>, i: nat, j: nat, gap: int)
    requires i <= j < |o|
    ensures RunOf(o, i, gap) <= RunOf(o, j, gap)
  {
    if i < j {
      RunMonotone(o, i, j - 1, gap);
    }
  }

  // ------------------------------------------------------------------------
  // Runs and chains
  // ------------------------------------------------------------------------

  lemma LinkedSymmetric(events: seq<Event>, a: Event, b: Event, gap: int)
    requires Linked(events, a, b, gap)
    ensures Linked(events, b, a, gap)
  {
    var path :| Chain(events, VisitorOf(a), path, gap) && path[0] == a && path[|path| - 1] == b;
    var back := seq(|path|, i requires 0 <= i < |path| => path[|path| - 1 - i]);
    forall i | 0 < i < |back| ensures Near(back[i - 1], back[i], gap) {
      assert Near(path[|path| - 1 - i], path[|path| - i], gap);
    }
    assert Chain(events, VisitorOf(b), back, gap);
  }

  /** Inside one run the ordered events themselves are the walk. */
  lemma {:induction false} SameRunNear(o: seq<Event>, i: nat, j: nat, gap: int)
    requires Sorted(o) && gap > 0 && i <= j < |o| && o[j].at.Some?
    requires RunOf(o, i, gap) == RunOf(o, j, gap)
    ensures forall k :: i <= k <= j ==> o[k].at.Some?
    ensures forall k :: i < k <= j ==> Near(o[k - 1], o[k], gap)
  {
    if i < j {
      RunMonotone(o, i, j - 1, gap);
      assert NotAfter(o[j - 1], o[j]);
      SameRunNear(o, i, j - 1, gap);
    }
  }

  lemma SliceIsChain(events: seq<Event>, v: Visitor, o: seq<Event>, i: nat, j: nat, gap: int)
    requires i <= j < |o|
    requires forall k :: i <= k <= j ==> o[k] in events && VisitorOf(o[k]) == v && o[k].at.Some?
    requires forall k :: i < k <= j ==> Near(o[k - 1], o[k], gap)
    ensures Linked(events, o[i], o[j], gap)
  {
    var path := o[i..j + 1];
    forall k | 0 < k < |path| ensures Near(path[k - 1], path[k], gap) {
      assert path[k - 1] == o[i + k - 1];
    }
    assert Chain(events, v, path, gap);
  }

  lemma SameRunLinked(events: seq<Event>, v: Visitor, o: seq<Event>, i: nat, j: nat, gap: int)
    requires Ordered(events, v, o) && gap > 0 && i <= j < |o| && o[j].at.Some?
    requires RunOf(o, i, gap) == RunOf(o, j, gap)
    ensures Linked(events, o[i], o[j], gap)
  {
    SameRunNear(o, i, j, gap);
    forall k | i <= k <= j ensures o[k] in events && VisitorOf(o[k]) == v {
      assert o[k] in o;
    }
    SliceIsChain(events, v, o, i, j, gap);
  }

  /** The k-th ordered event comes more than the gap after the one before it. */
  predicate Gapped(o: seq<Event>, k: int, gap: int) {
    0 < k < |o| && o[k - 1].at.Some? && o[k].at.Some? && o[k].at.value - o[k - 1].at.value > gap
  }

  /** Different runs are separated by such a place. */
  lemma {:induction false} BreakBetween(o: seq<Event>, i: nat, j: nat, gap: int) returns (k: nat)
    requires Sorted(o) && i <= j < |o| && RunOf(o, i, gap) < RunOf(o, j, gap)
    ensures i < k <= j && Gapped(o, k, gap)
  {
    if Breaks(LastDated(o[..j]), o[j], gap) {
      k := j;
      assert NotAfter(o[k - 1], o[k]);
      assert o[..k][k - 1] == o[k - 1];
    } else {
      k := BreakBetween(o, i, j - 1, gap);
    }
  }

  predicate LeftOf(x: Event, o: seq<Event>, k: int)
    requires 0 < k < |o|
  {
    x.at.Some? && o[k - 1].at.Some? && x.at.value <= o[k - 1].at.value
  }

  lemma SideOf(o: seq<Event>, x: Event, k: nat, gap: int)
    requires Sorted(o) && Gapped(o, k, gap) && x in o && x.at.Some?
    ensures LeftOf(x, o, k) || o[k].at.value <= x.at.value
  {
    var p :| 0 <= p < |o| && o[p] == x;
    assert p < k - 1 ==> NotAfter(o[p], o[k - 1]);
    assert k < p ==> NotAfter(o[k], o[p]);
  }

  /** A walk that starts left of a gapped place never crosses it. */
  lemma {:induction false} WalkStays(o: seq<Event>, path: seq<Event>, k: nat, t: nat, gap: int)
    requires Sorted(o) && gap > 0 && Gapped(o, k, gap)
    requires t < |path| && forall i :: 0 <= i < |path| ==> path[i] in o && path[i].at.Some?
    requires forall i :: 0 < i < |path| ==> Near(path[i - 1], path[i], gap)
    requires LeftOf(path[0], o, k)
    ensures LeftOf(path[t], o, k)
  {
    if t > 0 {
      WalkStays(o, path, k, t - 1, gap);
      assert Near(path[t - 1], path[t], gap);
      SideOf(o, path[t], k, gap);
    }
  }

  lemma WalkCannotCross(o: seq<Event>, path: seq<Event>, i: nat, j: nat, k: nat, gap: int)
    requires Sorted(o) && gap > 0 && i < k <= j < |o| && Gapped(o, k, gap)
    requires |path| > 0 && forall t :: 0 <= t < |path| ==> path[t] in o && path[t].at.Some?
    requires forall t :: 0 < t < |path| ==> Near(path[t - 1], path[t], gap)
    requires path[0] == o[i]
    ensures path[|path| - 1] != o[j]
  {
    assert i < k - 1 ==> NotAfter(o[i], o[k - 1]);
    WalkStays(o, path, k, |path| - 1, gap);
    assert k < j ==> NotAfter(o[k], o[j]);
  }

  lemma LinkedSameRun(events: seq<Event>, v: Visitor, o: seq<Event>, i: nat, j: nat, gap: int)
    requires Sorted(o) && gap > 0 && i <= j < |o| && VisitorOf(o[i]) == v
    requires forall x :: x in events && VisitorOf(x) == v ==> x in o
    requires Linked(events, o[i], o[j], gap)
    ensures RunOf(o, i, gap) == RunOf(o, j, gap)
  {
    var path :| Chain(events, v, path, gap) && path[0] == o[i] && path[|path| - 1] == o[j];
    forall t | 0 <= t < |path| ensures path[t] in o {}
    RunMonotone(o, i, j, gap);
    if RunOf(o, i, gap) < RunOf(o, j, gap) {
      var k := BreakBetween(o, i, j, gap);
      WalkCannotCross(o, path, i, j, k, gap);
    }
  }

  lemma {:induction false} UndatedInOneRun(o: seq<Event>, i: nat, j: nat, gap: int)
    requires i <= j < |o| && forall k :: i < k <= j ==> o[k].at.None?
    ensures RunOf(o, i, gap) == RunOf(o, j, gap)
  {
    if i < j {
      UndatedInOneRun(o, i, j - 1, gap);
    }
  }

  // ------------------------------------------------------------------------
  // One visitor
  // ------------------------------------------------------------------------

  /** `o` is the ordered list of the events of visitor `v`. */
  ghost predicate Ordered(events: seq<Event>, v: Visitor, o: seq<Event>) {
    Sorted(o) && forall x :: x in o <==> x in events && VisitorOf(x) == v
  }

  lemma DatedSameRun(events: seq<Event>, v: Visitor, o: seq<Event>, i: nat, j: nat, gap: int)
    requires Ordered(events, v, o) && gap > 0 && i < |o| && j < |o|
    requires o[i].at.Some? && o[j].at.Some?
    ensures RunOf(o, i, gap) == RunOf(o, j, gap) <==> Linked(events, o[i], o[j], gap)
  {
    assert o[i] in o && o[j] in o;
    var lo, hi := Min(i, j), Max(i, j);
    if RunOf(o, i, gap) == RunOf(o, j, gap) {
      SameRunLinked(events, v, o, lo, hi, gap);
      if j < i { LinkedSymmetric(events, o[j], o[i], gap); }
    }
    if Linked(events, o[i], o[j], gap) {
      if j < i { LinkedSymmetric(events, o[i], o[j], gap); }
      LinkedSameRun(events, v, o, lo, hi, gap);
    }
  }

  /** The last dated place, when there is one at all. */
  lemma {:induction false} LastDatedPlace(o: seq<Event>, i: nat, n: nat) returns (m: nat)
    requires Sorted(o) && i < n <= |o| && o[i].at.Some?
    ensures i <= m < n && o[m].at.Some? && forall k :: m < k < n ==> o[k].at.None?
  {
    if o[n - 1].at.Some? {
      m := n - 1;
    } else {
      m := LastDatedPlace(o, i, n - 1);
    }
  }

  lemma LastDatedIsLatest(events: seq<Event>, v: Visitor, o: seq<Event>, k: nat)
    requires Ordered(events, v, o) && k < |o| && o[k].at.Some?
    requires forall p :: k < p < |o| ==> o[p].at.None?
    ensures Latest(events, o[k]) && VisitorOf(o[k]) == v
  {
    assert o[k] in o;
    forall x | x in events && x.at.Some? && VisitorOf(x) == v ensures x.at.value <= o[k].at.value {
      assert x in o;
      var p :| 0 <= p < |o| && o[p] == x;
      assert p < k ==> NotAfter(o[p], o[k]);
    }
  }

  lemma LatestSameRun(events: seq<Event>, v: Visitor, o: seq<Event>, p: nat, k: nat, gap: int)
    requires Ordered(events, v, o) && gap > 0 && p < |o| && k < |o|
    requires Latest(events, o[p]) && Latest(events, o[k])
    ensures RunOf(o, p, gap) == RunOf(o, k, gap)
  {
    assert o[p] in o && o[k] in o;
    assert Near(o[p], o[k], gap);
    assert Chain(events, v, [o[p], o[k]], gap);
    DatedSameRun(events, v, o, p, k, gap);
  }

  lemma LinkedVisitor(events: seq<Event>, a: Event, b: Event, gap: int)
    requires Linked(events, a, b, gap)
    ensures VisitorOf(a) == VisitorOf(b) && a.at.Some? && b.at.Some?
  {
  }

  lemma MixedSameRun(events: seq<Event>, v: Visitor, o: seq<Event>, i: nat, j: nat, gap: int)
    requires Ordered(events, v, o) && gap > 0 && i < |o| && j < |o|
    requires o[i].at.Some? && o[j].at.None?
    ensures RunOf(o, i, gap) == RunOf(o, j, gap) <==> exists m :: Latest(events, m) && Linked(events, m, o[i], gap)
  {
    var k := LastDatedPlace(o, i, |o|);
    assert !NotAfter(o[j], o[k]);
    UndatedInOneRun(o, k, j, gap);
    LastDatedIsLatest(events, v, o, k);
    DatedSameRun(events, v, o, k, i, gap);
    if m :| Latest(events, m) && Linked(events, m, o[i], gap) {
      LinkedVisitor(events, m, o[i], gap);
      assert o[i] in o && m in o;
      var p :| 0 <= p < |o| && o[p] == m;
      DatedSameRun(events, v, o, p, i, gap);
      LatestSameRun(events, v, o, p, k, gap);
    }
  }

  lemma JoinedSameRun(events: seq<Event>, v: Visitor, o: seq<Event>, i: nat, j: nat, gap: int)
    requires Ordered(events, v, o) && gap > 0 && i < |o| && j < |o|
    ensures RunOf(o, i, gap) == RunOf(o, j, gap) <==> Joined(events, o[i], o[j], gap)
  {
    assert o[i] in o && o[j] in o;
    if o[i].at.Some? && o[j].at.Some? {
      DatedSameRun(events, v, o, i, j, gap);
    } else if o[i].at.Some? {
      MixedSameRun(events, v, o, i, j, gap);
    } else if o[j].at.Some? {
      MixedSameRun(events, v, o, j, i, gap);
    } else {
      var lo, hi := Min(i, j), Max(i, j);
      forall k | lo < k <= hi ensures o[k].at.None? {
        assert NotAfter(o[lo], o[k]);
      }
      UndatedInOneRun(o, lo, hi, gap);
    }
  }

  // ------------------------------------------------------------------------
  // Sessionisation is canonical
  // ------------------------------------------------------------------------

  /** A family of visits over a set of visitors, described without the algorithm. */
  ghost predicate Canonical(events: seq<Event>, vs: seq<Visitor>, gap: int, visits: seq<seq<Event>>) {
    && (forall i :: 0 <= i < |visits| ==> visits[i] != [])
    && (forall i, x :: 0 <= i < |visits| && x in visits[i] ==> x in events && VisitorOf(x) in vs)
    && (forall x :: x in events && VisitorOf(x) in vs ==> SameVisit(visits, x, x))
    && (forall i, j, x, y :: 0 <= i < |visits| && 0 <= j < |visits| && x in visits[i] && y in visits[j] ==>
          (i == j <==> Joined(events, x, y, gap)))
  }

  lemma OrderedOf(events: seq<Event>, v: Visitor)
    ensures Ordered(events, v, SortByTime(Of(events, v)))
  {
    OfHolds(events, v);
    var s, o := Of(events, v), SortByTime(Of(events, v));
    forall x ensures x in o <==> x in s {
      assert x in o <==> x in multiset(o);
      assert x in s <==> x in multiset(s);
    }
  }

  lemma OrderedPlace(events: seq<Event>, v: Visitor, o: seq<Event>, x: Event, gap: int)
    requires Ordered(events, v, o) && x in events && VisitorOf(x) == v
    ensures SameVisit(Split(o, gap), x, x)
  {
    assert x in o;
    var k :| 0 <= k < |o| && o[k] == x;
    SplitHolds(o, k, gap);
  }

  lemma OrderedPair(events: seq<Event>, v: Visitor, o: seq<Event>, i: nat, j: nat, x: Event, y: Event, gap: int)
    requires Ordered(events, v, o) && gap > 0 && i < |Split(o, gap)| && j < |Split(o, gap)|
    requires x in Split(o, gap)[i] && y in Split(o, gap)[j]
    ensures x in events && VisitorOf(x) == v
    ensures i == j <==> Joined(events, x, y, gap)
  {
    var k := SplitOnly(o, i, x, gap);
    var m := SplitOnly(o, j, y, gap);
    assert o[k] in o;
    JoinedSameRun(events, v, o, k, m, gap);
  }

  lemma OrderedCanonical(events: seq<Event>, v: Visitor, o: seq<Event>, gap: int)
    requires gap > 0 && Ordered(events, v, o)
    ensures Canonical(events, [v], gap, Split(o, gap))
  {
    SplitVisitsNonEmpty(o, gap);
    forall x | x in events && VisitorOf(x) in [v] ensures SameVisit(Split(o, gap), x, x) {
      OrderedPlace(events, v, o, x, gap);
    }
    forall i, j, x, y | 0 <= i < |Split(o, gap)| && 0 <= j < |Split(o, gap)| && x in Split(o, gap)[i]
      && y in Split(o, gap)[j]
      ensures x in events && VisitorOf(x) == v
      ensures i == j <==> Joined(events, x, y, gap)
    {
      OrderedPair(events, v, o, i, j, x, y, gap);
    }
    assert v in [v];
  }

  lemma CanonicalTogether(events: seq<Event>, vs: seq<Visitor>, v: Visitor, gap: int, a: seq<seq<Event>>,
                          b: seq<seq<Event>>)
    requires Canonical(events, vs, gap, a) && Canonical(events, [v], gap, b) && v !in vs
    ensures Canonical(events, vs + [v], gap, a + b)
  {
    var c := a + b;
    forall x | x in events && VisitorOf(x) in vs + [v] ensures SameVisit(c, x, x) {
      if VisitorOf(x) in vs {
        var i :| 0 <= i < |a| && x in a[i];
        assert c[i] == a[i];
      } else {
        var i :| 0 <= i < |b| && x in b[i];
        assert c[|a| + i] == b[i];
      }
    }
    forall i, j, x, y | 0 <= i < |c| && 0 <= j < |c| && x in c[i] && y in c[j]
      ensures i == j <==> Joined(events, x, y, gap)
    {
      if i < |a| && j < |a| {
      } else if |a| <= i && |a| <= j {
        assert x in b[i - |a|] && y in b[j - |a|];
      } else {
        assert VisitorOf(x) != VisitorOf(y);
      }
    }
  }

  lemma {:induction false} VisitsOfCanonical(events: seq<Event>, vs: seq<Visitor>, gap: int)
    requires gap > 0 && forall i, j :: 0 <= i < j < |vs| ==> vs[i] != vs[j]
    ensures Canonical(events, vs, gap, VisitsOf(events, vs, gap))
  {
    if vs != [] {
      var init, v := vs[..|vs| - 1], vs[|vs| - 1];
      var a, b := VisitsOf(events, init, gap), Split(SortByTime(Of(events, v)), gap);
      assert Canonical(events, init, gap, a) by { VisitsOfCanonical(events, init, gap); }
      assert Canonical(events, [v], gap, b) by {
        OrderedOf(events, v);
        OrderedCanonical(events, v, SortByTime(Of(events, v)), gap);
      }
      assert Canonical(events, init + [v], gap, a + b) by { CanonicalTogether(events, init, v, gap, a, b); }
      assert vs == init + [v] && VisitsOf(events, vs, gap) == a + b;
    }
  }

  lemma SplitCounts(events: seq<Event>, v: Visitor, gap: int, x: Event)
    ensures multiset(Flatten(Split(SortByTime(Of(events, v)), gap)))[x]
            == if VisitorOf(x) == v then multiset(events)[x] else 0
  {
    SplitKeeps(SortByTime(Of(events, v)), gap);
    OfHolds(events, v);
    assert x in multiset(Of(events, v)) <==> x in Of(events, v);
  }

  lemma {:induction false} VisitsOfCounts(events: seq<Event>, vs: seq<Visitor>, gap: int, x: Event)
    requires forall i, j :: 0 <= i < j < |vs| ==> vs[i] != vs[j]
    ensures multiset(Flatten(VisitsOf(events, vs, gap)))[x] == if VisitorOf(x) in vs then multiset(events)[x] else 0
  {
    if vs != [] {
      var init, v := vs[..|vs| - 1], vs[|vs| - 1];
      VisitsOfCounts(events, init, gap, x);
      SplitCounts(events, v, gap, x);
      FlattenConcat(VisitsOf(events, init, gap), Split(SortByTime(Of(events, v)), gap));
      assert vs == init + [v];
    }
  }

  /**
   The visits hold exactly the input events, none is empty, each belongs to one
   visitor, every event is in one, and two events are in the same one iff they are
   joined.
   */
  ghost predicate Sessions(events: seq<Event>, gap: int, visits: seq<seq<Event>>) {
    && multiset(Flatten(visits)) == multiset(events)
    && (forall i :: 0 <= i < |visits| ==> visits[i] != [])
    && (forall i, x :: 0 <= i < |visits| && x in visits[i] ==> x in events && VisitorOf(x) == VisitorOf(visits[i][0]))
    && (forall x :: x in events ==> SameVisit(visits, x, x))
    && (forall i, j, x, y :: 0 <= i < |visits| && 0 <= j < |visits| && x in visits[i] && y in visits[j] ==>
          (i == j <==> Joined(events, x, y, gap)))
  }

  lemma SessionsPartition(events: seq<Event>, gap: int)
    ensures multiset(Flatten(VisitList(events, gap))) == multiset(events)
  {
    VisitorsHolds(events);
    forall x ensures multiset(Flatten(VisitList(events, gap)))[x] == multiset(events)[x] {
      VisitsOfCounts(events, Visitors(events), gap, x);
      assert x !in events ==> multiset(events)[x] == 0;
    }
  }

  lemma CanonicalSessions(events: seq<Event>, vs: seq<Visitor>, gap: int, visits: seq<seq<Event>>)
    requires Canonical(events, vs, gap, visits) && multiset(Flatten(visits)) == multiset(events)
    requires forall x :: x in events ==> VisitorOf(x) in vs
    ensures Sessions(events, gap, visits)
  {
    forall i, x | 0 <= i < |visits| && x in visits[i] ensures VisitorOf(x) == VisitorOf(visits[i][0]) {
      assert Joined(events, x, visits[i][0], gap);
    }
  }

  /** Sessionisation is canonical. */
  lemma SessionsAreCanonical(events: seq<Event>, minutes: Option<int>)
    ensures Sessions(events, Gap(minutes), VisitList(events, Gap(minutes)))
  {
    VisitorsHolds(events);
    VisitsOfCanonical(events, Visitors(events), Gap(minutes));
    SessionsPartition(events, Gap(minutes));
    CanonicalSessions(events, Visitors(events), Gap(minutes), VisitList(events, Gap(minutes)));
  }

  lemma OneVisitEach(events: seq<Event>, gap: int, visits: seq<seq<Event>>, i: nat, j: nat, x: Event)
    requires Sessions(events, gap, visits)
    requires i < |visits| && j < |visits| && x in visits[i] && x in visits[j]
    ensures i == j
  {
    assert Joined(events, x, x, gap);
  }

  /** Being joined depends on which events there are, and only grows with the gap. */
  lemma JoinedMonotone(e1: seq<Event>, e2: seq<Event>, a: Event, b: Event, gap1: int, gap2: int)
    requires gap1 <= gap2 && forall x :: x in e1 <==> x in e2
    requires Joined(e1, a, b, gap1)
    ensures Joined(e2, a, b, gap2)
  {
    if a.at.Some? && b.at.Some? {
      LinkedMonotone(e1, e2, a, b, gap1, gap2);
    } else if a.at.Some? || b.at.Some? {
      var dated := if a.at.Some? then a else b;
      var m :| Latest(e1, m) && Linked(e1, m, dated, gap1);
      LinkedMonotone(e1, e2, m, dated, gap1, gap2);
      assert Latest(e2, m);
    }
  }

  lemma LinkedMonotone(e1: seq<Event>, e2: seq<Event>, a: Event, b: Event, gap1: int, gap2: int)
    requires gap1 <= gap2 && forall x :: x in e1 <==> x in e2
    requires Linked(e1, a, b, gap1)
    ensures Linked(e2, a, b, gap2)
  {
    var path :| Chain(e1, VisitorOf(a), path, gap1) && path[0] == a && path[|path| - 1] == b;
    forall i | 0 < i < |path| ensures Near(path[i - 1], path[i], gap2) {
      assert Near(path[i - 1], path[i], gap1);
    }
    assert Chain(e2, VisitorOf(a), path, gap2);
  }

  /** A visit holds every copy of the events it holds. */
  lemma VisitCounts(events: seq<Event>, gap: int, visits: seq<seq<Event>>, i: nat, x: Event)
    requires Sessions(events, gap, visits) && i < |visits|
    ensures multiset(visits[i])[x] == if x in visits[i] then multiset(events)[x] else 0
  {
    if x in visits[i] {
      forall j | 0 <= j < |visits| && x in visits[j] ensures j == i {
        OneVisitEach(events, gap, visits, i, j, x);
      }
      CountInOnePart(visits, i, x);
    }
  }

  /** Under the same events and a gap at least as large, each visit lies inside one visit. */
  lemma VisitInside(e1: seq<Event>, g1: int, v1: seq<seq<Event>>, e2: seq<Event>, g2: int, v2: seq<seq<Event>>, i: nat)
    returns (j: nat)
    requires multiset(e1) == multiset(e2) && g1 <= g2 && i < |v1|
    requires Sessions(e1, g1, v1) && Sessions(e2, g2, v2)
    ensures j < |v2| && multiset(v1[i]) <= multiset(v2[j])
  {
    assert forall x :: x in e1 <==> x in multiset(e1);
    assert forall x :: x in e2 <==> x in multiset(e2);
    var a := v1[i][0];
    assert SameVisit(v2, a, a);
    j :| 0 <= j < |v2| && a in v2[j];
    forall x | x in v1[i] ensures multiset(v1[i])[x] <= multiset(v2[j])[x] {
      VisitCounts(e1, g1, v1, i, x);
      assert SameVisit(v2, x, x);
      var k :| 0 <= k < |v2| && x in v2[k];
      JoinedMonotone(e1, e2, a, x, g1, g2);
      assert j == k;
      VisitCounts(e2, g2, v2, j, x);
    }
  }

  /** Each visit of the first family lies inside a visit of the second. */
  ghost predicate Refines(fine: seq<seq<Event>>, coarse: seq<seq<Event>>) {
    forall i :: 0 <= i < |fine| ==> exists j :: 0 <= j < |coarse| && multiset(fine[i]) <= multiset(coarse[j])
  }

  /** A larger gap only merges visits. */
  lemma LargerGapCoarsens(events: seq<Event>, m1: Option<int>, m2: Option<int>)
    requires Gap(m1) <= Gap(m2)
    ensures Refines(VisitList(events, Gap(m1)), VisitList(events, Gap(m2)))
  {
    var v1, v2 := VisitList(events, Gap(m1)), VisitList(events, Gap(m2));
    SessionsAreCanonical(events, m1);
    SessionsAreCanonical(events, m2);
    forall i | 0 <= i < |v1| ensures exists j :: 0 <= j < |v2| && multiset(v1[i]) <= multiset(v2[j]) {
      var j := VisitInside(events, Gap(m1), v1, events, Gap(m2), v2, i);
    }
  }

  /** The visits as unordered collections of events. */
  function Bags(visits: seq<seq<Event>>): seq<multiset<Event>> {
    seq(|visits|, i requires 0 <= i < |visits| => multiset(visits[i]))
  }

  lemma BagsDiffer(events: seq<Event>, gap: int, visits: seq<seq<Event>>, i: nat, j: nat)
    requires Sessions(events, gap, visits) && i < |visits| && j < |visits|
    requires multiset(visits[i]) == multiset(visits[j])
    ensures i == j
  {
    var a := visits[i][0];
    assert a in multiset(visits[i]);
    OneVisitEach(events, gap, visits, i, j, a);
  }

  lemma BagFound(e1: seq<Event>, v1: seq<seq<Event>>, e2: seq<Event>, v2: seq<seq<Event>>, gap: int, i: nat)
    requires multiset(e1) == multiset(e2) && i < |v1|
    requires Sessions(e1, gap, v1) && Sessions(e2, gap, v2)
    ensures multiset(v1[i]) in Bags(v2)
  {
    var j := VisitInside(e1, gap, v1, e2, gap, v2, i);
    var k := VisitInside(e2, gap, v2, e1, gap, v1, j);
    var a := v1[i][0];
    assert a in multiset(v1[i]);
    assert a in multiset(v1[k]);
    OneVisitEach(e1, gap, v1, i, k, a);
    assert multiset(v1[i]) == multiset(v2[j]) == Bags(v2)[j];
  }

  lemma BagCount(events: seq<Event>, gap: int, visits: seq<seq<Event>>, b: multiset<Event>)
    requires Sessions(events, gap, visits)
    ensures multiset(Bags(visits))[b] == if b in Bags(visits) then 1 else 0
  {
    forall i, j | 0 <= i < j < |visits| ensures Bags(visits)[i] != Bags(visits)[j] {
      if multiset(visits[i]) == multiset(visits[j]) { BagsDiffer(events, gap, visits, i, j); }
    }
    CountDistinct(Bags(visits), b);
  }

  lemma BagInBoth(e1: seq<Event>, v1: seq<seq<Event>>, e2: seq<Event>, v2: seq<seq<Event>>, gap: int,
                  b: multiset<Event>)
    requires multiset(e1) == multiset(e2) && Sessions(e1, gap, v1) && Sessions(e2, gap, v2)
    requires b in Bags(v1)
    ensures b in Bags(v2)
  {
    var i :| 0 <= i < |v1| && Bags(v1)[i] == b;
    BagFound(e1, v1, e2, v2, gap, i);
  }

  /** The family of visits depends on the events alone, not on the order they arrive in. */
  lemma InputOrderIrrelevant(e1: seq<Event>, e2: seq<Event>, minutes: Option<int>)
    requires multiset(e1) == multiset(e2)
    ensures multiset(Bags(VisitList(e1, Gap(minutes)))) == multiset(Bags(VisitList(e2, Gap(minutes))))
  {
    var gap := Gap(minutes);
    var v1, v2 := VisitList(e1, gap), VisitList(e2, gap);
    SessionsAreCanonical(e1, minutes);
    SessionsAreCanonical(e2, minutes);
    forall b ensures multiset(Bags(v1))[b] == multiset(Bags(v2))[b] {
      BagCount(e1, gap, v1, b);
      BagCount(e2, gap, v2, b);
      if b in Bags(v1) { BagInBoth(e1, v1, e2, v2, gap, b); }
      if b in Bags(v2) { BagInBoth(e2, v2, e1, v1, gap, b); }
    }
  }
}

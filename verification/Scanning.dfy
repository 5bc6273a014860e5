/** Reading a whole collection page by page. */
module Scanning {
  import opened Prelude

  /** Rows by identifier; a listing in identifier order has them strictly increasing. */
  type Table = seq<int>

  const PAGE := 1000
  const STORE_MAX := 1000

  predicate Ordered(t: Table) {
    forall i, j :: 0 <= i < j < |t| ==> t[i] < t[j]
  }

  /** The store's listing; it clamps the limit. */
  function List(t: Table, limit: int, offset: nat): (page: Table)
    ensures |page| <= STORE_MAX
  {
    var n := Max(1, Min(limit, STORE_MAX));
    if offset >= |t| then [] else t[offset..Min(offset + n, |t|)]
  }

  /** Every live record in a collection, as long as nobody writes to it meanwhile. */
  method Scan(t: Table) returns (records: seq<int>)
    ensures records == t
  {
    records := [];
    var offset := 0;
    while true
      invariant offset <= |t| && records == t[..offset]
      decreases |t| - offset
    {
      var page := List(t, PAGE, offset);
      records := records + page;
      if |page| < PAGE { return; }
      offset := offset + PAGE;
    }
  }

  // ------------------------------------------------------------------------
  // A collection written between pages
  // ------------------------------------------------------------------------

  /** A scan whose i-th page finds the collection as tables[i]; None while it is not finished. */
  function ScanFrom(tables: seq<Table>, i: nat): Option<seq<int>>
    requires i <= |tables|
    decreases |tables| - i
  {
    if i == |tables| then None
    else
      var page := List(tables[i], PAGE, i * PAGE);
      if |page| < PAGE then Some(page)
      else
        var rest := ScanFrom(tables, i + 1);
        if rest.None? then None else Some(page + rest.value)
  }

  predicate Within(t: Table, u: Table) {
    forall x :: x in t ==> x in u
  }

  /** Rows are only ever added. */
  ghost predicate Growing(tables: seq<Table>) {
    && (forall i :: 0 <= i < |tables| ==> Ordered(tables[i]))
    && (forall i, j :: 0 <= i < j < |tables| ==> Within(tables[i], tables[j]))
  }

  /** Adding rows never moves a row forward. */
  lemma {:induction false} NeverForward(t: Table, u: Table, a: nat, b: nat)
    requires Ordered(t) && Ordered(u) && Within(t, u)
    requires a < |t| && b < |u| && t[a] == u[b]
    ensures a <= b
  {
    if a > 0 {
      assert t[a - 1] in t;
      var c :| 0 <= c < |u| && u[c] == t[a - 1];
      assert t[a - 1] < t[a];
      NeverForward(t, u, a - 1, c);
    }
  }

  lemma {:induction false} StillAhead(tables: seq<Table>, i: nat, at: nat)
    requires Growing(tables) && i < |tables| && ScanFrom(tables, i).Some?
    requires i * PAGE <= at < |tables[i]|
    ensures tables[i][at] in ScanFrom(tables, i).value
    decreases |tables| - i
  {
    var page := List(tables[i], PAGE, i * PAGE);
    if at < (i + 1) * PAGE {
      assert page[at - i * PAGE] == tables[i][at];
    } else {
      assert |page| == PAGE;
      assert tables[i][at] in tables[i];
      var next :| 0 <= next < |tables[i + 1]| && tables[i + 1][next] == tables[i][at];
      NeverForward(tables[i], tables[i + 1], at, next);
      StillAhead(tables, i + 1, next);
    }
  }

  /** A scan of a collection that only grows may read a row twice, but never misses one that was there when it began. */
  lemma GrowingMissesNothing(tables: seq<Table>, x: int)
    requires Growing(tables) && tables != [] && ScanFrom(tables, 0).Some? && x in tables[0]
    ensures x in ScanFrom(tables, 0).value
  {
    var at :| 0 <= at < |tables[0]| && tables[0][at] == x;
    StillAhead(tables, 0, at);
  }

  // ------------------------------------------------------------------------
  // Exactly which rows are read
  // ------------------------------------------------------------------------

  /** How many pages such a scan reads, from the i-th on. */
  function PagesFrom(tables: seq<Table>, i: nat): (n: nat)
    requires i <= |tables|
    ensures i + n <= |tables|
    decreases |tables| - i
  {
    if i == |tables| then 0
    else if |List(tables[i], PAGE, i * PAGE)| < PAGE then 1
    else 1 + PagesFrom(tables, i + 1)
  }

  /** The number of rows listed before `x`. */
  function Rank(t: Table, x: int): nat {
    if t == [] then 0 else Rank(t[..|t| - 1], x) + if t[|t| - 1] < x then 1 else 0
  }

  lemma {:induction false} RankIsPlace(t: Table, p: nat)
    requires Ordered(t) && p < |t|
    ensures Rank(t, t[p]) == p
  {
    RankBelow(t[..p], t[p]);
    RankAbove(t, p, |t|);
  }

  lemma {:induction false} RankBelow(t: Table, x: int)
    requires forall i :: 0 <= i < |t| ==> t[i] < x
    ensures Rank(t, x) == |t|
  {
    if t != [] {
      RankBelow(t[..|t| - 1], x);
    }
  }

  lemma {:induction false} RankAbove(t: Table, p: nat, n: nat)
    requires Ordered(t) && p < n <= |t|
    ensures Rank(t[..n], t[p]) == Rank(t[..p], t[p])
    ensures t[..|t|] == t
  {
    assert t[..n][..n - 1] == t[..n - 1];
    if n > p + 1 {
      RankAbove(t, p, n - 1);
    }
  }

  /** The row is listed, and on the j-th page. */
  predicate OnPage(t: Table, x: int, j: int) {
    x in t && j * PAGE <= Rank(t, x) < (j + 1) * PAGE
  }

  lemma PageHolds(t: Table, x: int, j: nat)
    requires Ordered(t)
    ensures x in List(t, PAGE, j * PAGE) <==> OnPage(t, x, j)
  {
    var page := List(t, PAGE, j * PAGE);
    if x in page {
      var i :| 0 <= i < |page| && page[i] == x;
      assert page[i] == t[j * PAGE + i];
      RankIsPlace(t, j * PAGE + i);
    }
    if OnPage(t, x, j) {
      var p :| 0 <= p < |t| && t[p] == x;
      RankIsPlace(t, p);
      assert page[p - j * PAGE] == x;
    }
  }

  lemma {:induction false} ReadFrom(tables: seq<Table>, i: nat, x: int)
    requires i <= |tables| && ScanFrom(tables, i).Some?
    requires forall j :: 0 <= j < |tables| ==> Ordered(tables[j])
    ensures x in ScanFrom(tables, i).value <==> exists j :: i <= j < i + PagesFrom(tables, i) && OnPage(tables[j], x, j)
    decreases |tables| - i
  {
    PageHolds(tables[i], x, i);
    if |List(tables[i], PAGE, i * PAGE)| == PAGE {
      ReadFrom(tables, i + 1, x);
    }
  }

  /**
   However the collection is written between pages, a row is read exactly if it stands on
   one of the pages when that page is read.
   */
  lemma ReadExactly(tables: seq<Table>, x: int)
    requires ScanFrom(tables, 0).Some? && forall j :: 0 <= j < |tables| ==> Ordered(tables[j])
    ensures x in ScanFrom(tables, 0).value <==> exists j :: 0 <= j < PagesFrom(tables, 0) && OnPage(tables[j], x, j)
  {
    ReadFrom(tables, 0, x);
  }

  // ------------------------------------------------------------------------
  // Deletions between pages
  // ------------------------------------------------------------------------

  /** Rows are only ever removed. */
  ghost predicate Shrinking(tables: seq<Table>) {
    && (forall i :: 0 <= i < |tables| ==> Ordered(tables[i]))
    && (forall i, j :: 0 <= i < j < |tables| ==> Within(tables[j], tables[i]))
  }

  predicate AlwaysThere(tables: seq<Table>, x: int) {
    forall i :: 0 <= i < |tables| ==> x in tables[i]
  }

  lemma RankFalls(tables: seq<Table>, x: int, i: nat, j: nat)
    requires Shrinking(tables) && AlwaysThere(tables, x) && i <= j < |tables|
    ensures Rank(tables[j], x) <= Rank(tables[i], x)
  {
    if i < j {
      var p :| 0 <= p < |tables[j]| && tables[j][p] == x;
      var q :| 0 <= q < |tables[i]| && tables[i][q] == x;
      RankIsPlace(tables[j], p);
      RankIsPlace(tables[i], q);
      NeverForward(tables[j], tables[i], p, q);
    }
  }

  /** The last page read is the last there is. */
  lemma {:induction false} LastPageEnds(tables: seq<Table>, i: nat, x: int)
    requires i < |tables| && ScanFrom(tables, i).Some?
    ensures PagesFrom(tables, i) > 0
    ensures var last := i + PagesFrom(tables, i) - 1;
            Ordered(tables[last]) && x in tables[last] ==> Rank(tables[last], x) < (last + 1) * PAGE
    decreases |tables| - i
  {
    if |List(tables[i], PAGE, i * PAGE)| == PAGE {
      LastPageEnds(tables, i + 1, x);
    } else if Ordered(tables[i]) && x in tables[i] {
      var p :| 0 <= p < |tables[i]| && tables[i][p] == x;
      RankIsPlace(tables[i], p);
    }
  }

  /** Between pages j and j + 1 the deletion of earlier rows carries `x` from after page j to before page j + 1. */
  predicate SlipsPast(tables: seq<Table>, x: int, j: int)
    requires 0 <= j < |tables| - 1
  {
    Rank(tables[j + 1], x) < (j + 1) * PAGE <= Rank(tables[j], x)
  }

  /** A row not yet reached at page j is read later, or slips past a later boundary. */
  lemma {:induction false} SlipsOrRead(tables: seq<Table>, x: int, j: nat, n: nat)
    requires AlwaysThere(tables, x) && j < n <= |tables| && j * PAGE <= Rank(tables[j], x)
    requires Rank(tables[n - 1], x) < n * PAGE
    ensures (exists i :: j <= i < n && OnPage(tables[i], x, i))
            || (exists i :: j <= i < n - 1 && SlipsPast(tables, x, i))
    decreases n - j
  {
    if Rank(tables[j], x) < (j + 1) * PAGE {
      assert OnPage(tables[j], x, j);
    } else if Rank(tables[j + 1], x) < (j + 1) * PAGE {
      assert SlipsPast(tables, x, j);
    } else {
      SlipsOrRead(tables, x, j + 1, n);
    }
  }

  /** While rows are only removed, one that is there throughout is missed exactly if it slips past a page boundary. */
  lemma MissedExactly(tables: seq<Table>, x: int)
    requires Shrinking(tables) && AlwaysThere(tables, x) && tables != [] && ScanFrom(tables, 0).Some?
    ensures x !in ScanFrom(tables, 0).value
            <==> exists j :: 0 <= j < PagesFrom(tables, 0) - 1 && SlipsPast(tables, x, j)
  {
    var n := PagesFrom(tables, 0);
    ReadExactly(tables, x);
    LastPageEnds(tables, 0, x);
    SlipsOrRead(tables, x, 0, n);
    if j :| 0 <= j < n - 1 && SlipsPast(tables, x, j) {
      forall i | 0 <= i < n ensures !OnPage(tables[i], x, i) {
        if i <= j { RankFalls(tables, x, i, j); } else { RankFalls(tables, x, j + 1, i); }
      }
    }
  }

  /** A table whose first k rows are deleted after the first page is read. */
  function Deleting(t: Table, k: nat): seq<Table>
    requires k <= |t|
  {
    [t] + seq(|t|, _ => t[k..])
  }

  lemma {:induction false} SteadyFinishes(tables: seq<Table>, t: Table, i: nat)
    requires i < |tables| && (forall j :: i <= j < |tables| ==> tables[j] == t) && |t| < |tables| * PAGE
    ensures ScanFrom(tables, i).Some?
    decreases |tables| - i
  {
    if |List(t, PAGE, i * PAGE)| == PAGE {
      SteadyFinishes(tables, t, i + 1);
    }
  }

  /**
   Deleting the first k rows of any table after its first page hides the k rows the second
   page would have begun with.
   */
  lemma DeletionHidesRows(t: Table, k: nat, p: nat)
    requires Ordered(t) && k <= 1000 <= p < 1000 + k && p < |t|
    ensures Shrinking(Deleting(t, k)) && AlwaysThere(Deleting(t, k), t[p])
    ensures ScanFrom(Deleting(t, k), 0).Some? && t[p] !in ScanFrom(Deleting(t, k), 0).value
  {
    var tables := Deleting(t, k);
    assert t[k..][p - k] == t[p];
    DeletingFinishes(t, k);
    assert SlipsPast(tables, t[p], 0) by {
      RankIsPlace(t, p);
      RankIsPlace(t[k..], p - k);
    }
    MissedExactly(tables, t[p]);
  }

  lemma DeletingFinishes(t: Table, k: nat)
    requires k <= |t| && |t| >= PAGE
    ensures ScanFrom(Deleting(t, k), 0).Some? && PagesFrom(Deleting(t, k), 0) > 1
  {
    var tables := Deleting(t, k);
    SteadyFinishes(tables, t[k..], 1);
    assert |List(tables[0], PAGE, 0)| == PAGE;
    assert PagesFrom(tables, 1) > 0 by { LastPageEnds(tables, 1, 0); }
  }
}

/**
 * The dashboard: the four statistics computed from the fetched items, and
 * the five most recently added items, taken after sorting the fetched
 * array newest first in place.
 */
module Home {
  import opened Wrappers
  import opened Inventory
  import opened Seqs

  datatype Stats = Stats(totalItems: nat, categories: nat, lowStockItems: nat, expiringItems: nat)

  const InitialStats := Stats(0, 0, 0, 0)

  /** The low-stock test: a quantity of at most 2. */
  function LowStock(): Item -> bool {
    (item: Item) => item.quantity <= 2.0
  }

  /** The expiring test against the instant `limit`: an item without an expiry date never passes. */
  function ExpiresBy(limit: int): Item -> bool {
    (item: Item) => item.expiryDate.Some? && item.expiryDate.value <= limit
  }

  /** The end of the expiry window: three days after `now`. */
  function ThreeDaysFrom(now: int): int {
    now + 3 * DayMs
  }

  /** The statistics of `fetchDashboardData`. */
  function DashboardStats(items: seq<Item>, now: int): (s: Stats)
    ensures s.totalItems == |items|
    ensures s.categories == |Elements(CategoriesOf(items))|
    ensures s.lowStockItems <= |items| && s.expiringItems <= |items|
  {
    DistinctCount(CategoriesOf(items));
    Stats(
      |items|,
      |Distinct(CategoriesOf(items))|,
      |Filter(items, LowStock())|,
      |Filter(items, ExpiresBy(ThreeDaysFrom(now)))|)
  }

  /**
   * The low-stock statistic counts the items that pass the low-stock test,
   * which are exactly the items with quantity at most 2; with the items
   * that fail it they make up the whole list.
   */
  lemma LowStockSpec(items: seq<Item>, now: int)
    ensures DashboardStats(items, now).lowStockItems == |Filter(items, LowStock())|
    ensures forall x :: x in Filter(items, LowStock()) <==> x in items && x.quantity <= 2.0
    ensures DashboardStats(items, now).lowStockItems + |Filter(items, Not(LowStock()))| == |items|
  {
    forall x ensures x in Filter(items, LowStock()) <==> x in items && x.quantity <= 2.0 {
      FilterMembership(items, LowStock(), x);
    }
    FilterPartition(items, LowStock());
  }

  /**
   * The expiring statistic counts the items that pass the expiry test. An
   * item passes exactly when it has an expiry date no later than three
   * days from now; dates already past count too, and items without a date
   * never count.
   */
  lemma ExpiringSpec(items: seq<Item>, now: int)
    ensures DashboardStats(items, now).expiringItems == |Filter(items, ExpiresBy(ThreeDaysFrom(now)))|
    ensures forall x :: x in Filter(items, ExpiresBy(ThreeDaysFrom(now))) <==>
      x in items && x.expiryDate.Some? && x.expiryDate.value <= now + 3 * DayMs
    ensures forall x :: x in Filter(items, ExpiresBy(ThreeDaysFrom(now))) ==> x.expiryDate.Some?
    ensures DashboardStats(items, now).expiringItems + |Filter(items, Not(ExpiresBy(ThreeDaysFrom(now))))| == |items|
  {
    forall x ensures x in Filter(items, ExpiresBy(ThreeDaysFrom(now))) <==>
      x in items && x.expiryDate.Some? && x.expiryDate.value <= now + 3 * DayMs
    {
      FilterMembership(items, ExpiresBy(ThreeDaysFrom(now)), x);
    }
    FilterPartition(items, ExpiresBy(ThreeDaysFrom(now)));
  }

  /** Newest first: `createdAt` never increases along the list. */
  predicate NewestFirst(s: seq<Item>) {
    forall i, j :: 0 <= i < j < |s| ==> s[i].createdAt >= s[j].createdAt
  }

  /** Places `x` after every item at least as new as it and before the older ones. */
  function Insert(s: seq<Item>, x: Item): (r: seq<Item>)
    ensures |r| == |s| + 1
  {
    if s == [] then [x]
    else if s[|s| - 1].createdAt < x.createdAt then Insert(s[..|s| - 1], x) + [s[|s| - 1]]
    else s + [x]
  }

  /**
   * The dashboard's sort by descending creation time:
   * newest first, and, the sort being stable, items with equal `createdAt`
   * in their original order.
   */
  function SortNewestFirst(s: seq<Item>): (r: seq<Item>)
    ensures |r| == |s|
  {
    if s == [] then [] else Insert(SortNewestFirst(s[..|s| - 1]), s[|s| - 1])
  }

  /** Inserting adds exactly `x`. */
  lemma {:induction false} InsertPermutes(s: seq<Item>, x: Item)
    ensures multiset(Insert(s, x)) == multiset(s) + multiset{x}
  {
    if s != [] {
      var init, last := s[..|s| - 1], s[|s| - 1];
      assert s == init + [last];
      if last.createdAt < x.createdAt {
        InsertPermutes(init, x);
      }
    }
  }

  /** A lower bound on `createdAt` that holds of `s` and `x` holds of the insertion. */
  lemma {:induction false} InsertBound(s: seq<Item>, x: Item, b: int)
    requires forall i :: 0 <= i < |s| ==> s[i].createdAt >= b
    requires x.createdAt >= b
    ensures forall i :: 0 <= i < |Insert(s, x)| ==> Insert(s, x)[i].createdAt >= b
  {
    if s != [] && s[|s| - 1].createdAt < x.createdAt {
      InsertBound(s[..|s| - 1], x, b);
    }
  }

  /** Inserting into a newest-first list keeps it newest first. */
  lemma {:induction false} InsertKeepsOrder(s: seq<Item>, x: Item)
    requires NewestFirst(s)
    ensures NewestFirst(Insert(s, x))
  {
    if s != [] {
      var init, last := s[..|s| - 1], s[|s| - 1];
      if last.createdAt < x.createdAt {
        InsertKeepsOrder(init, x);
        InsertBound(init, x, last.createdAt);
      }
    }
  }

  /** The sort yields a newest-first permutation of the items. */
  lemma {:induction false} SortSpec(s: seq<Item>)
    ensures NewestFirst(SortNewestFirst(s))
    ensures multiset(SortNewestFirst(s)) == multiset(s)
  {
    if s != [] {
      var init := s[..|s| - 1];
      assert s == init + [s[|s| - 1]];
      SortSpec(init);
      InsertKeepsOrder(SortNewestFirst(init), s[|s| - 1]);
      InsertPermutes(SortNewestFirst(init), s[|s| - 1]);
    }
  }

  /** The test for items created at the instant `t`. */
  function CreatedAt(t: int): Item -> bool {
    (item: Item) => item.createdAt == t
  }

  lemma {:induction false} InsertStable(s: seq<Item>, x: Item, t: int)
    ensures Filter(Insert(s, x), CreatedAt(t)) == Filter(s, CreatedAt(t)) + (if x.createdAt == t then [x] else [])
  {
    if s == [] {
      FilterSnoc([], x, CreatedAt(t));
    } else {
      var init, last := s[..|s| - 1], s[|s| - 1];
      assert s == init + [last];
      FilterSnoc(init, last, CreatedAt(t));
      if last.createdAt < x.createdAt {
        InsertStable(init, x, t);
        FilterSnoc(Insert(init, x), last, CreatedAt(t));
      } else {
        FilterSnoc(s, x, CreatedAt(t));
      }
    }
  }

  /** Stability: for every timestamp, the items created at it keep their original relative order. */
  lemma {:induction false} SortStable(s: seq<Item>, t: int)
    ensures Filter(SortNewestFirst(s), CreatedAt(t)) == Filter(s, CreatedAt(t))
  {
    if s != [] {
      var init, last := s[..|s| - 1], s[|s| - 1];
      assert s == init + [last];
      SortStable(init, t);
      InsertStable(SortNewestFirst(init), last, t);
      FilterSnoc(init, last, CreatedAt(t));
    }
  }

  /** The recent items: the first five of the sorted list, or all of it when shorter. */
  function Recent(items: seq<Item>): seq<Item> {
    var sorted := SortNewestFirst(items);
    sorted[..if |sorted| < 5 then |sorted| else 5]
  }

  /**
   * The recent list holds min(5, n) of the items, newest first, and no
   * item left out of it is newer than one in it.
   */
  lemma RecentAreNewest(items: seq<Item>)
    ensures |Recent(items)| == if |items| < 5 then |items| else 5
    ensures NewestFirst(Recent(items))
    ensures multiset(Recent(items)) <= multiset(items)
    ensures forall i, j :: 0 <= i < |Recent(items)| <= j < |items| ==>
      Recent(items)[i].createdAt >= SortNewestFirst(items)[j].createdAt
  {
    var sorted := SortNewestFirst(items);
    SortSpec(items);
    var k := if |sorted| < 5 then |sorted| else 5;
    assert sorted == sorted[..k] + sorted[k..];
    assert multiset(sorted) == multiset(sorted[..k]) + multiset(sorted[k..]);
  }

  lemma InsertShift(sorted: seq<Item>, j: nat, x: Item)
    requires 0 < j <= |sorted| && sorted[j - 1].createdAt < x.createdAt
    ensures Insert(sorted[..j], x) + sorted[j..] == Insert(sorted[..j - 1], x) + sorted[j - 1..]
  {
    assert sorted[..j][..j - 1] == sorted[..j - 1];
    assert sorted[j - 1..] == [sorted[j - 1]] + sorted[j..];
  }

  lemma InsertStop(sorted: seq<Item>, j: nat, x: Item)
    requires j <= |sorted| && (j == 0 || sorted[j - 1].createdAt >= x.createdAt)
    ensures Insert(sorted[..j], x) == sorted[..j] + [x]
  {
  }

  /** Copying the element before the hole at `j` into it moves the hole one place down. */
  lemma ShiftHole(A: seq<Item>, sorted: seq<Item>, rest: seq<Item>, i: nat, j: nat)
    requires 0 < j <= i < |A| && |sorted| == i
    requires A[..j] == sorted[..j] && A[j + 1..i + 1] == sorted[j..] && A[i + 1..] == rest
    ensures A[j := A[j - 1]][..j - 1] == sorted[..j - 1]
    ensures A[j := A[j - 1]][j..i + 1] == sorted[j - 1..]
    ensures A[j := A[j - 1]][i + 1..] == rest
  {
    var B := A[j := A[j - 1]];
    assert A[j - 1] == sorted[..j][j - 1];
    assert B[j..i + 1] == [A[j - 1]] + A[j + 1..i + 1];
  }

  /** Filling the hole at `j` with `x` puts `x` between the two halves of `sorted`. */
  lemma FillHole(A: seq<Item>, sorted: seq<Item>, rest: seq<Item>, i: nat, j: nat, x: Item)
    requires j <= i < |A| && |sorted| == i
    requires A[..j] == sorted[..j] && A[j + 1..i + 1] == sorted[j..] && A[i + 1..] == rest
    ensures A[j := x][..i + 1] == sorted[..j] + [x] + sorted[j..]
    ensures A[j := x][i + 1..] == rest
  {
    assert A[j := x][..i + 1] == A[..j] + [x] + A[j + 1..i + 1];
  }

  /** One pass of the insertion sort: `a[i]` is moved into the newest-first prefix `a[..i]`. */
  method InsertInPlace(a: array<Item>, i: nat)
    requires i < a.Length
    modifies a
    ensures a[..i + 1] == Insert(old(a[..i]), old(a[i]))
    ensures a[i + 1..] == old(a[i + 1..])
  {
    ghost var sorted := a[..i];
    ghost var rest := a[i + 1..];
    var x := a[i];
    var j := i;
    while j > 0 && a[j - 1].createdAt < x.createdAt
      invariant j <= i
      invariant a[..j] == sorted[..j]
      invariant a[j + 1..i + 1] == sorted[j..]
      invariant a[i + 1..] == rest
      invariant Insert(sorted, x) == Insert(sorted[..j], x) + sorted[j..]
    {
      ghost var A := a[..];
      assert A[..j] == a[..j] && A[j + 1..i + 1] == a[j + 1..i + 1] && A[i + 1..] == a[i + 1..];
      InsertShift(sorted, j, x);
      ShiftHole(A, sorted, rest, i, j);
      a[j] := a[j - 1];
      assert a[..] == A[j := A[j - 1]];
      j := j - 1;
    }
    ghost var A := a[..];
    assert A[..j] == a[..j] && A[j + 1..i + 1] == a[j + 1..i + 1] && A[i + 1..] == a[i + 1..];
    InsertStop(sorted, j, x);
    FillHole(A, sorted, rest, i, j, x);
    a[j] := x;
    assert a[..] == A[j := x];
  }

  lemma SortPrefix(s: seq<Item>, i: nat)
    requires i < |s|
    ensures SortNewestFirst(s[..i + 1]) == Insert(SortNewestFirst(s[..i]), s[i])
  {
    assert s[..i + 1][..i] == s[..i];
  }

  /** The insertion sort the model runs in place; its result is `SortNewestFirst` of the old contents. */
  method SortNewestFirstInPlace(a: array<Item>)
    modifies a
    ensures a[..] == SortNewestFirst(old(a[..]))
  {
    ghost var original := a[..];
    var i := 0;
    while i < a.Length
      invariant 0 <= i <= a.Length
      invariant a[..i] == SortNewestFirst(original[..i])
      invariant a[i..] == original[i..]
    {
      SortPrefix(original, i);
      InsertInPlace(a, i);
      i := i + 1;
    }
    assert original[..a.Length] == original;
  }

  /** The dashboard's state. */
  class Dashboard {
    var stats: Stats
    var recentItems: seq<Item>
    var loading: bool

    constructor ()
      ensures stats == InitialStats && recentItems == [] && loading
    {
      stats, recentItems, loading := InitialStats, [], true;
    }

    /**
     * `fetchDashboardData`, given the fetched array (`None` when the request
     * failed) and the current time: the statistics are taken first, then
     * the array is sorted in place and its first five items kept.
     */
    method FetchDashboardData(response: Option<array<Item>>, now: int)
      modifies this, if response.Some? then {response.value} else {}
      ensures response.Some? ==>
        && stats == DashboardStats(old(response.value[..]), now)
        && response.value[..] == SortNewestFirst(old(response.value[..]))
        && recentItems == Recent(old(response.value[..]))
      ensures response.None? ==> stats == old(stats) && recentItems == old(recentItems)
      ensures !loading
    {
      match response {
        case Some(items) =>
          stats := DashboardStats(items[..], now);
          SortNewestFirstInPlace(items);
          recentItems := items[..if items.Length < 5 then items.Length else 5];
        case None =>
      }
      loading := false;
    }
  }
}

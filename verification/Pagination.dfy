/**
 Keyset pagination: each request fetches the candidate rows anew, orders them newest first and
 returns the window just past the cursor of the previous page.
 */
module Pagination {
  import opened Wrappers

  const DEFAULT_LIMIT := 50
  const MAX_LIMIT := 200
  const CANDIDATE_CEILING := 1000

  /** The key of a row; ids are unique, so rows are told apart by it. A cursor carries the same pair. */
  datatype Item = Item(created: int, id: int) {
    /** `_is_before`: comes after the cursor in the newest-first order. */
    predicate IsBefore(cursor: Item) {
      created < cursor.created || (created == cursor.created && id < cursor.id)
    }
  }

  datatype Page = Page(items: seq<Item>, next: Option<Item>, hasMore: bool)

  function Distance(a: int, b: int): nat {
    if a <= b then b - a else a - b
  }

  /** The limit a page is served with: the default, or the value in range nearest to the requested one. */
  function ClampLimit(limit: Option<int>): (r: nat)
    ensures 1 <= r <= MAX_LIMIT && (limit.None? ==> r == DEFAULT_LIMIT)
    ensures limit.Some? && 1 <= limit.value <= MAX_LIMIT ==> r == limit.value
    ensures limit.Some? ==>
      forall k: nat :: 1 <= k <= MAX_LIMIT ==> Distance(limit.value, r) <= Distance(limit.value, k)
  {
    if limit.None? then DEFAULT_LIMIT
    else if limit.value < 1 then 1
    else if limit.value < MAX_LIMIT then limit.value else MAX_LIMIT
  }

  /** Creation times never rise, and among equal times the ids fall. */
  ghost predicate NewestFirst(s: seq<Item>) {
    forall i, j :: 0 <= i < j < |s| ==>
      s[j].created <= s[i].created && (s[j].created == s[i].created ==> s[j].id < s[i].id)
  }

  ghost predicate Distinct(s: seq<Item>) {
    forall i, j :: 0 <= i < j < |s| ==> s[i] != s[j]
  }

  function Place(x: Item, s: seq<Item>): seq<Item> {
    if s == [] || s[0].IsBefore(x) then [x] + s else [s[0]] + Place(x, s[1..])
  }

  function OrderCandidates(s: seq<Item>): seq<Item> {
    if s == [] then [] else Place(s[0], OrderCandidates(s[1..]))
  }

  lemma PrependNewest(x: Item, s: seq<Item>)
    requires NewestFirst(s) && forall y :: y in s ==> y.IsBefore(x)
    ensures NewestFirst([x] + s)
  {
    var all := [x] + s;
    forall i, j | 0 <= i < j < |all| ensures all[j].IsBefore(all[i]) {
      assert all[j] == s[j - 1] && s[j - 1] in s;
    }
  }

  lemma HeadIsNewest(s: seq<Item>)
    requires NewestFirst(s) && s != []
    ensures forall y :: y in s[1..] ==> y.IsBefore(s[0])
  {
  }

  lemma {:induction false} PlaceKeepsOrder(x: Item, s: seq<Item>)
    requires NewestFirst(s) && x !in s
    ensures NewestFirst(Place(x, s)) && |Place(x, s)| == |s| + 1
    ensures forall y :: y in Place(x, s) <==> y == x || y in s
  {
    if s == [] {
    } else if s[0].IsBefore(x) {
      HeadIsNewest(s);
      assert s == [s[0]] + s[1..];
      PrependNewest(x, s);
    } else {
      PlaceKeepsOrder(x, s[1..]);
      HeadIsNewest(s);
      assert s == [s[0]] + s[1..];
      PrependNewest(s[0], Place(x, s[1..]));
    }
  }

  /** `order_candidates` returns the same rows, newest first. */
  lemma {:induction false} OrderIsSorted(s: seq<Item>)
    requires Distinct(s)
    ensures NewestFirst(OrderCandidates(s)) && |OrderCandidates(s)| == |s|
    ensures forall y :: y in OrderCandidates(s) <==> y in s
  {
    if s != [] {
      OrderIsSorted(s[1..]);
      assert s == [s[0]] + s[1..];
      PlaceKeepsOrder(s[0], OrderCandidates(s[1..]));
    }
  }

  /** There is only one newest-first listing of a set of rows. */
  lemma {:induction false} OrderIsUnique(a: seq<Item>, b: seq<Item>)
    requires NewestFirst(a) && NewestFirst(b) && forall y :: y in a <==> y in b
    ensures a == b
    decreases |a|
  {
    assert b != [] ==> b[0] in b;
    if a != [] {
      assert a[0] in b && b[0] in a;
      SameHead(a, b);
      forall y ensures y in a[1..] <==> y in b[1..] {
        HeadIsNotInTail(a);
        HeadIsNotInTail(b);
        assert y in a <==> y == a[0] || y in a[1..];
        assert y in b <==> y == b[0] || y in b[1..];
      }
      OrderIsUnique(a[1..], b[1..]);
      assert a == [a[0]] + a[1..] && b == [b[0]] + b[1..];
    }
  }

  lemma SameHead(a: seq<Item>, b: seq<Item>)
    requires NewestFirst(a) && NewestFirst(b) && a != [] && b != [] && a[0] in b && b[0] in a
    ensures a[0] == b[0]
  {
    var i :| 0 <= i < |b| && b[i] == a[0];
    var j :| 0 <= j < |a| && a[j] == b[0];
  }

  lemma HeadIsNotInTail(s: seq<Item>)
    requires NewestFirst(s) && s != []
    ensures s[0] !in s[1..]
  {
  }

  // ---- one page ---------------------------------------------------------------------

  function Past(s: seq<Item>, cursor: Item): seq<Item> {
    if s == [] then []
    else if s[0].IsBefore(cursor) then [s[0]] + Past(s[1..], cursor)
    else Past(s[1..], cursor)
  }

  function Paginate(candidates: seq<Item>, limit: nat, cursor: Option<Item>): Page {
    var filtered := if cursor.Some? then Past(candidates, cursor.value) else candidates;
    var window := if |filtered| <= limit + 1 then filtered else filtered[..limit + 1];
    var hasMore := |window| > limit;
    var items := if hasMore then window[..limit] else window;
    Page(items, if hasMore && items != [] then Some(items[|items| - 1]) else None, hasMore)
  }

  lemma {:induction false} PastKeepsOrder(s: seq<Item>, cursor: Item)
    requires NewestFirst(s)
    ensures NewestFirst(Past(s, cursor))
    ensures forall y :: y in Past(s, cursor) <==> y in s && y.IsBefore(cursor)
  {
    if s != [] {
      assert s == [s[0]] + s[1..];
      PastKeepsOrder(s[1..], cursor);
      HeadIsNewest(s);
      if s[0].IsBefore(cursor) {
        PrependNewest(s[0], Past(s[1..], cursor));
      }
    }
  }

  predicate Beyond(x: Item, cursor: Option<Item>) {
    cursor.Some? ==> x.IsBefore(cursor.value)
  }

  predicate IsPastPage(x: Item, page: Page) {
    page.next.Some? && x.IsBefore(page.next.value)
  }

  /**
   A page holds rows past the cursor, newest first; a row past the cursor that it does not hold lies
   past its own cursor, and it has a cursor exactly when there is such a row.
   */
  lemma PageExactly(candidates: seq<Item>, limit: nat, cursor: Option<Item>)
    requires NewestFirst(candidates) && limit >= 1
    ensures var page := Paginate(candidates, limit, cursor);
      && NewestFirst(page.items)
      && (forall y :: y in page.items ==> y in candidates && Beyond(y, cursor))
      && (forall y :: y in candidates && Beyond(y, cursor) ==> y in page.items || IsPastPage(y, page))
      && (page.next.Some? <==> page.hasMore)
      && (page.next.Some? ==> |page.items| == limit && page.next.value == page.items[limit - 1])
      && (page.next.Some? ==> exists y :: y in candidates && Beyond(y, cursor) && IsPastPage(y, page))
  {
    if cursor.Some? {
      PastKeepsOrder(candidates, cursor.value);
    }
    var filtered := if cursor.Some? then Past(candidates, cursor.value) else candidates;
    var page := Paginate(candidates, limit, cursor);
    assert page.items <= filtered;
    if page.next.Some? {
      assert filtered[limit] in filtered && filtered[limit].IsBefore(filtered[limit - 1]);
    }
  }

  // ---- following the cursors ----------------------------------------------------------

  /** The rows each request finds, in the order the database lists them. */
  type Fetches = nat -> seq<Item>

  function Last(pages: seq<Page>): Page
    requires pages != []
  {
    pages[|pages| - 1]
  }

  predicate Finished(pages: seq<Page>) {
    pages != [] && Last(pages).next.None?
  }

  /** The pages seen by at most `n` requests, each following the cursor of the one before. */
  function Follow(fetched: Fetches, limit: nat, n: nat): (pages: seq<Page>)
    ensures |pages| <= n
  {
    if n == 0 then []
    else
      var pages := Follow(fetched, limit, n - 1);
      if Finished(pages) then pages
      else pages + [NextPage(fetched, limit, pages)]
  }

  function Returned(pages: seq<Page>): seq<Item> {
    if pages == [] then [] else Returned(pages[..|pages| - 1]) + Last(pages).items
  }

  ghost predicate DistinctFetches(fetched: Fetches) {
    forall k: nat :: Distinct(fetched(k))
  }

  ghost predicate PresentThroughout(x: Item, fetched: Fetches, n: nat) {
    forall k: nat :: k < n ==> x in fetched(k)
  }

  /** What holds after some pages: rows came newest first, and stable rows came or are still ahead. */
  ghost predicate InProgress(fetched: Fetches, limit: nat, pages: seq<Page>) {
    && NewestFirst(Returned(pages))
    && (pages != [] && Last(pages).next.Some? ==>
         Returned(pages) != [] && Last(pages).next.value == Returned(pages)[|Returned(pages)| - 1])
    && forall x :: PresentThroughout(x, fetched, |pages|) ==> x in Returned(pages) || StillAhead(x, pages)
  }

  ghost predicate StillAhead(x: Item, pages: seq<Page>) {
    pages == [] || IsPastPage(x, Last(pages))
  }

  /** The page served to the request after `pages`. */
  function NextPage(fetched: Fetches, limit: nat, pages: seq<Page>): Page {
    Paginate(OrderCandidates(fetched(|pages|)), limit, CursorAfter(pages))
  }

  function CursorAfter(pages: seq<Page>): Option<Item> {
    if pages == [] then None else Last(pages).next
  }

  lemma NextPageExactly(fetched: Fetches, limit: nat, pages: seq<Page>)
    requires limit >= 1 && Distinct(fetched(|pages|))
    ensures var page, rows, cursor := NextPage(fetched, limit, pages), fetched(|pages|), CursorAfter(pages);
      && NewestFirst(page.items)
      && (forall y :: y in page.items ==> y in rows && Beyond(y, cursor))
      && (forall y :: y in rows && Beyond(y, cursor) ==> y in page.items || IsPastPage(y, page))
      && (page.next.Some? ==> |page.items| == limit && page.next.value == page.items[limit - 1])
      && (page.next.Some? ==> exists y :: y in rows && IsPastPage(y, page))
      && Returned(pages + [page]) == Returned(pages) + page.items
  {
    OrderIsSorted(fetched(|pages|));
    PageExactly(OrderCandidates(fetched(|pages|)), limit, CursorAfter(pages));
    assert (pages + [NextPage(fetched, limit, pages)])[..|pages|] == pages;
  }

  lemma AppendPage(fetched: Fetches, limit: nat, pages: seq<Page>)
    requires limit >= 1 && DistinctFetches(fetched) && InProgress(fetched, limit, pages) && !Finished(pages)
    ensures InProgress(fetched, limit, pages + [NextPage(fetched, limit, pages)])
  {
    var page, rows := NextPage(fetched, limit, pages), fetched(|pages|);
    NextPageExactly(fetched, limit, pages);
    var all := pages + [page];
    JoinInOrder(Returned(pages), page.items, CursorAfter(pages));
    forall x | PresentThroughout(x, fetched, |all|) ensures x in Returned(all) || StillAhead(x, all) {
      assert PresentThroughout(x, fetched, |pages|) && x in rows;
      assert Last(all) == page;
      if x !in Returned(pages) {
        assert StillAhead(x, pages) && Beyond(x, CursorAfter(pages));
      }
    }
    LastOfJoin(Returned(pages), page.items);
  }

  lemma LastOfJoin(a: seq<Item>, b: seq<Item>)
    ensures b != [] ==> (a + b)[|a + b| - 1] == b[|b| - 1]
  {
  }

  lemma JoinInOrder(a: seq<Item>, b: seq<Item>, cursor: Option<Item>)
    requires NewestFirst(a) && NewestFirst(b) && forall y :: y in b ==> Beyond(y, cursor)
    requires cursor.None? ==> a == []
    requires cursor.Some? ==> a != [] && cursor.value == a[|a| - 1]
    ensures NewestFirst(a + b)
  {
    var s := a + b;
    forall i, j | 0 <= i < j < |s| ensures s[j].IsBefore(s[i]) {
      if i < |a| <= j {
        assert s[j] == b[j - |a|] && b[j - |a|] in b;
        assert s[j].IsBefore(a[|a| - 1]);
      }
    }
  }

  lemma {:induction false} FollowIsInProgress(fetched: Fetches, limit: nat, n: nat)
    requires limit >= 1 && DistinctFetches(fetched)
    ensures InProgress(fetched, limit, Follow(fetched, limit, n))
  {
    if n > 0 {
      FollowIsInProgress(fetched, limit, n - 1);
      var pages := Follow(fetched, limit, n - 1);
      if !Finished(pages) {
        AppendPage(fetched, limit, pages);
      }
    }
  }

  /** However the collection changes between requests, no row is returned twice. */
  lemma NoRowTwice(fetched: Fetches, limit: nat, n: nat)
    requires limit >= 1 && DistinctFetches(fetched)
    ensures NewestFirst(Returned(Follow(fetched, limit, n))) && Distinct(Returned(Follow(fetched, limit, n)))
  {
    FollowIsInProgress(fetched, limit, n);
  }

  /** A finished traversal has returned, exactly once, every row that every request could see. */
  lemma StableRowsReturnedOnce(fetched: Fetches, limit: nat, n: nat, x: Item)
    requires limit >= 1 && DistinctFetches(fetched)
    requires Finished(Follow(fetched, limit, n)) && PresentThroughout(x, fetched, |Follow(fetched, limit, n)|)
    ensures x in Returned(Follow(fetched, limit, n)) && Distinct(Returned(Follow(fetched, limit, n)))
  {
    FollowIsInProgress(fetched, limit, n);
  }

  /** Every returned row was there when its page was served. */
  lemma {:induction false} OnlyFetchedRows(fetched: Fetches, limit: nat, n: nat)
    requires limit >= 1 && DistinctFetches(fetched)
    ensures AllFetched(fetched, Follow(fetched, limit, n))
  {
    if n == 0 {
      assert Returned([]) == [];
    } else {
      OnlyFetchedRows(fetched, limit, n - 1);
      var pages := Follow(fetched, limit, n - 1);
      if !Finished(pages) {
        AppendFetched(fetched, limit, pages);
      }
    }
  }

  ghost predicate AllFetched(fetched: Fetches, pages: seq<Page>) {
    forall x :: x in Returned(pages) ==> FetchedBefore(fetched, |pages|, x)
  }

  ghost predicate FetchedBefore(fetched: Fetches, n: nat, x: Item) {
    exists k: nat :: k < n && x in fetched(k)
  }

  lemma AppendFetched(fetched: Fetches, limit: nat, pages: seq<Page>)
    requires limit >= 1 && DistinctFetches(fetched) && AllFetched(fetched, pages)
    ensures AllFetched(fetched, pages + [NextPage(fetched, limit, pages)])
  {
    NextPageExactly(fetched, limit, pages);
    var page := NextPage(fetched, limit, pages);
    forall x | x in Returned(pages + [page]) ensures FetchedBefore(fetched, |pages| + 1, x) {
      if x in Returned(pages) {
        assert FetchedBefore(fetched, |pages|, x);
      } else {
        assert x in fetched(|pages|);
      }
    }
  }

  // ---- a fixed collection -------------------------------------------------------------

  ghost predicate AlwaysFinds(fetched: Fetches, rows: set<Item>) {
    forall k: nat, x :: x in fetched(k) <==> x in rows
  }

  /** While it has not finished, the traversal has returned full pages and there are rows left. */
  lemma {:induction false} UnfinishedPagesAreFull(fetched: Fetches, limit: nat, n: nat)
    requires limit >= 1 && DistinctFetches(fetched) && n >= 1 && !Finished(Follow(fetched, limit, n))
    ensures FullPages(fetched, limit, Follow(fetched, limit, n), n)
  {
    var pages := Follow(fetched, limit, n - 1);
    if n > 1 && !Finished(pages) {
      UnfinishedPagesAreFull(fetched, limit, n - 1);
    }
    AppendFullPage(fetched, limit, pages, n - 1);
  }

  /** `n` full pages, and a row beyond them. */
  ghost predicate FullPages(fetched: Fetches, limit: nat, pages: seq<Page>, n: nat) {
    && |pages| == n && |Returned(pages)| == n * limit
    && (n >= 1 ==> exists x :: x in fetched(n - 1) && IsPastPage(x, Last(pages)))
  }

  lemma AppendFullPage(fetched: Fetches, limit: nat, pages: seq<Page>, n: nat)
    requires limit >= 1 && DistinctFetches(fetched) && FullPages(fetched, limit, pages, n)
    requires !Finished(pages + [NextPage(fetched, limit, pages)])
    ensures FullPages(fetched, limit, pages + [NextPage(fetched, limit, pages)], n + 1)
  {
    NextPageExactly(fetched, limit, pages);
    assert (n + 1) * limit == n * limit + limit;
  }

  lemma {:induction false} SizeOfDistinct(s: seq<Item>)
    requires Distinct(s)
    ensures |(set x | x in s)| == |s|
  {
    if s != [] {
      var front, last := s[..|s| - 1], s[|s| - 1];
      SizeOfDistinct(front);
      assert (set x | x in s) == (set x | x in front) + {last};
    }
  }

  lemma SubsetSize(a: set<Item>, b: set<Item>)
    requires a <= b
    ensures |a| <= |b|
  {
    assert |b - a| == |b| - |a|;
  }

  /** Over a collection that does not change, `n` pages finish as soon as they have room for it. */
  lemma FixedCollectionFinishes(fetched: Fetches, limit: nat, n: nat, rows: set<Item>)
    requires limit >= 1 && DistinctFetches(fetched) && AlwaysFinds(fetched, rows)
    requires n >= 1 && n * limit >= |rows|
    ensures Finished(Follow(fetched, limit, n))
  {
    var pages := Follow(fetched, limit, n);
    if !Finished(pages) {
      UnfinishedPagesAreFull(fetched, limit, n);
      FollowIsInProgress(fetched, limit, n);
      ReturnedWithin(fetched, limit, n, rows);
      var x :| x in fetched(n - 1) && IsPastPage(x, Last(pages));
      RoomLeft(Returned(pages), x, rows);
    }
  }

  lemma ReturnedWithin(fetched: Fetches, limit: nat, n: nat, rows: set<Item>)
    requires limit >= 1 && DistinctFetches(fetched) && AlwaysFinds(fetched, rows)
    ensures forall x :: x in Returned(Follow(fetched, limit, n)) ==> x in rows
  {
    OnlyFetchedRows(fetched, limit, n);
    forall x | x in Returned(Follow(fetched, limit, n)) ensures x in rows {
      assert FetchedBefore(fetched, |Follow(fetched, limit, n)|, x);
    }
  }

  lemma RoomLeft(s: seq<Item>, x: Item, rows: set<Item>)
    requires NewestFirst(s) && s != [] && x.IsBefore(s[|s| - 1])
    requires x in rows && forall y :: y in s ==> y in rows
    ensures |s| < |rows|
  {
    var got := set y | y in s;
    SizeOfDistinct(s);
    SubsetSize(got + {x}, rows);
  }

  /** And the pages, put together, are exactly the collection newest first. */
  lemma FixedCollectionIsListedInOrder(fetched: Fetches, limit: nat, n: nat, rows: set<Item>)
    requires limit >= 1 && DistinctFetches(fetched) && AlwaysFinds(fetched, rows)
    requires n >= 1 && n * limit >= |rows|
    ensures Returned(Follow(fetched, limit, n)) == OrderCandidates(fetched(0))
  {
    var pages := Follow(fetched, limit, n);
    FixedCollectionFinishes(fetched, limit, n, rows);
    FollowIsInProgress(fetched, limit, n);
    ReturnedWithin(fetched, limit, n, rows);
    OrderIsSorted(fetched(0));
    forall x ensures x in Returned(pages) <==> x in OrderCandidates(fetched(0)) {
      if x in rows {
        assert PresentThroughout(x, fetched, |pages|);
      }
    }
    OrderIsUnique(Returned(pages), OrderCandidates(fetched(0)));
  }

  /** What a repository call returns: everything, or some `CANDIDATE_CEILING` rows of a larger collection. */
  ghost predicate IsFetchOf(fetch: set<Item>, collection: set<Item>) {
    fetch <= collection
    && |fetch| == if |collection| <= CANDIDATE_CEILING then |collection| else CANDIDATE_CEILING
  }

  /** The traversal of a fixed collection is complete exactly when the collection fits the ceiling. */
  lemma CompleteIffWithinCeiling(
      fetched: Fetches, limit: nat, n: nat, fetch: set<Item>, collection: set<Item>)
    requires limit >= 1 && DistinctFetches(fetched) && AlwaysFinds(fetched, fetch) && IsFetchOf(fetch, collection)
    requires n >= 1 && n * limit >= |fetch|
    ensures (forall x :: x in Returned(Follow(fetched, limit, n)) <==> x in collection)
      <==> |collection| <= CANDIDATE_CEILING
  {
    FixedCollectionIsListedInOrder(fetched, limit, n, fetch);
    OrderIsSorted(fetched(0));
    assert forall x :: x in Returned(Follow(fetched, limit, n)) <==> x in fetch;
    if |collection| <= CANDIDATE_CEILING {
      assert |collection - fetch| == |collection| - |fetch|;
      assert fetch == collection;
    } else {
      assert exists x :: x in collection && x !in fetch by {
        if collection <= fetch {
          SubsetSize(collection, fetch);
        }
      }
    }
  }
}

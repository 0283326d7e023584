/** Keyset pagination, shared by six listings: fetch one row more than the page holds, past
    the cursor, in id order; cut the page and hand out the last id as the next cursor.
    Users, enrollments and (by default) catalogs go up; enterprises, the public showcase,
    audit events and (on request) catalogs go down. Filters are part of which ids a table
    shows at the moment of a query. */
module Pagination {
  const DEFAULT_LIST_LIMIT := 20
  const MAX_LIST_LIMIT := 100
  const DEFAULT_PUBLIC_LIMIT := 9

  datatype Order = Asc | Desc

  /** One page of ids and the cursor of the next; 0 when there is none. */
  datatype Page = Page(items: seq<int>, next: int)

  predicate Before(o: Order, a: int, b: int) {
    if o.Asc? then a < b else a > b
  }

  /** The cursor condition of the queries; 0 starts from the first row. */
  predicate Past(o: Order, cursor: int, id: int) {
    cursor == 0 || Before(o, cursor, id)
  }

  function ClampLimit(limit: int, default: int): (r: int)
    requires 1 <= default <= MAX_LIST_LIMIT
    ensures 1 <= r <= MAX_LIST_LIMIT
    ensures 1 <= limit <= 100 ==> r == limit
    ensures limit > 100 ==> r == 100
    ensures limit <= 0 ==> r == default
  {
    if limit <= 0 then default else if limit > MAX_LIST_LIMIT then MAX_LIST_LIMIT else limit
  }

  // ----- Ordered listings of a set of ids -----

  ghost predicate Sorted(o: Order, ids: seq<int>) {
    forall i, j | 0 <= i < j < |ids| :: Before(o, ids[i], ids[j])
  }

  /** `ids` lists exactly the set, in order: what ORDER BY produces. */
  ghost predicate Lists(o: Order, ids: seq<int>, shown: set<int>) {
    Sorted(o, ids) && (forall id :: id in ids <==> id in shown)
  }

  lemma Member<T>(s: set<T>) returns (x: T)
    requires s != {}
    ensures x in s
  {
    x :| x in s;
  }

  lemma {:induction false} HasFirst(o: Order, shown: set<int>) returns (first: int)
    requires shown != {}
    ensures first in shown && forall id | id in shown && id != first :: Before(o, first, id)
  {
    var x := Member(shown);
    if shown == {x} {
      first := x;
    } else {
      var rest := HasFirst(o, shown - {x});
      first := if Before(o, x, rest) then x else rest;
      forall id | id in shown && id != first ensures Before(o, first, id) {
        if id != x { assert id in shown - {x}; }
      }
    }
  }

  /** A set has one ordered listing. */
  lemma {:induction false} ListingUnique(o: Order, a: seq<int>, b: seq<int>, shown: set<int>)
    requires Lists(o, a, shown) && Lists(o, b, shown)
    ensures a == b
    decreases |a|
  {
    assert b != [] ==> b[0] in b;
    if a != [] {
      assert a[0] in a && a[0] in b;
      assert b[0] in b && b[0] in a;
      assert a[0] == b[0];
      forall id ensures id in a[1..] <==> id in shown - {a[0]} { TailMembers(o, a, id); }
      forall id ensures id in b[1..] <==> id in shown - {a[0]} { TailMembers(o, b, id); }
      ListingUnique(o, a[1..], b[1..], shown - {a[0]});
      assert a == [a[0]] + a[1..] && b == [b[0]] + b[1..];
    }
  }

  lemma TailMembers(o: Order, ids: seq<int>, id: int)
    requires Sorted(o, ids) && ids != []
    ensures id in ids[1..] <==> id in ids && id != ids[0]
  {
    if id in ids && id != ids[0] {
      var k :| 0 <= k < |ids| && ids[k] == id;
      assert ids[1..][k - 1] == id;
    }
  }

  lemma SomeFirst(o: Order, shown: set<int>)
    requires shown != {}
    ensures exists first :: first in shown && forall id | id in shown && id != first :: Before(o, first, id)
  {
    var first := HasFirst(o, shown);
  }

  /** The id that comes first. */
  ghost function First(o: Order, shown: set<int>): (first: int)
    requires shown != {}
    ensures first in shown && forall id | id in shown && id != first :: Before(o, first, id)
  {
    SomeFirst(o, shown);
    var first :| first in shown && forall id | id in shown && id != first :: Before(o, first, id);
    first
  }

  /** The ids shown, in order. */
  ghost function Listing(o: Order, shown: set<int>): seq<int> {
    if shown == {} then [] else [First(o, shown)] + Listing(o, shown - {First(o, shown)})
  }

  lemma {:induction false} ListingLists(o: Order, shown: set<int>)
    ensures Lists(o, Listing(o, shown), shown) && |Listing(o, shown)| == |shown|
  {
    if shown != {} {
      var first := First(o, shown);
      var rest := Listing(o, shown - {first});
      ListingLists(o, shown - {first});
      forall id ensures id in [first] + rest <==> id in shown {
        assert id in [first] + rest <==> id == first || id in rest;
      }
      forall i, j | 0 <= i < j < |[first] + rest| ensures Before(o, ([first] + rest)[i], ([first] + rest)[j]) {
        if i == 0 { assert rest[j - 1] in rest; }
      }
    }
  }

  // ----- Query, cut, walk -----

  ghost function PastCursor(o: Order, shown: set<int>, cursor: int): set<int> {
    set id | id in shown && Past(o, cursor, id)
  }

  function Take(ids: seq<int>, k: nat): seq<int> {
    if |ids| <= k then ids else ids[..k]
  }

  /** WHERE id is past the cursor ORDER BY id LIMIT k, on the ids shown now. */
  ghost function Query(o: Order, shown: set<int>, cursor: int, k: nat): seq<int> {
    Take(Listing(o, PastCursor(o, shown, cursor)), k)
  }

  function Cut(rows: seq<int>, limit: int): Page
    requires limit >= 1
  {
    if |rows| > limit then Page(rows[..limit], rows[limit - 1]) else Page(rows, 0)
  }

  ghost function PageOf(o: Order, limit: int, shown: set<int>, cursor: int): Page
    requires limit >= 1
  {
    Cut(Query(o, shown, cursor, limit + 1), limit)
  }

  /** What one page is: the first ids past the cursor, in order, and all of them up to the
      next cursor, or all of them at the end. */
  ghost predicate RightPage(o: Order, limit: int, shown: set<int>, cursor: int, page: Page)
    requires limit >= 1
  {
    && Sorted(o, page.items) && |page.items| <= limit
    && (forall id | id in page.items :: id in shown && Past(o, cursor, id))
    && (page.next == 0 ==> forall id | id in shown && Past(o, cursor, id) :: id in page.items)
    && (page.next != 0 ==>
          && |page.items| == limit && page.next == page.items[limit - 1]
          && (forall id | id in shown && Past(o, cursor, id) :: id in page.items || Before(o, page.next, id)))
  }

  /** The cut of an ordered listing, fetched with one row more than the page holds. */
  lemma CutIsPrefix(all: seq<int>, limit: int)
    requires limit >= 1
    ensures var page := Cut(Take(all, limit + 1), limit);
            if |all| <= limit then page == Page(all, 0) else page == Page(all[..limit], all[limit - 1])
  {
    if |all| > limit { assert all[..limit + 1][..limit] == all[..limit]; }
  }

  lemma PrefixMembers(all: seq<int>, limit: int, id: int)
    requires 1 <= limit < |all| && id in all
    ensures id in all[..limit] || exists k | limit <= k < |all| :: all[k] == id
  {
    var k :| 0 <= k < |all| && all[k] == id;
    if k < limit { assert all[..limit][k] == id; }
  }

  lemma PageContents(o: Order, limit: int, shown: set<int>, cursor: int)
    requires limit >= 1 && 0 !in shown
    ensures RightPage(o, limit, shown, cursor, PageOf(o, limit, shown, cursor))
  {
    var all := Listing(o, PastCursor(o, shown, cursor));
    ListingLists(o, PastCursor(o, shown, cursor));
    CutIsPrefix(all, limit);
    if |all| > limit {
      assert all[limit - 1] in all;
      forall id | id in all[..limit] ensures id in all {}
      forall id | id in shown && Past(o, cursor, id) ensures id in all[..limit] || Before(o, all[limit - 1], id) {
        PrefixMembers(all, limit, id);
      }
    }
  }

  /** The repository's row loop and the use case's cut. `rows` is the result set the query
      gave for the clamped limit and one row more; the result is the page of the walk. */
  method ReadPage(ghost o: Order, ghost shown: set<int>, ghost cursor: int, rows: seq<int>, requested: int,
        default: int)
    returns (items: seq<int>, next: int)
    requires 1 <= default <= MAX_LIST_LIMIT && 0 !in shown
    requires rows == Query(o, shown, cursor, ClampLimit(requested, default) + 1)
    ensures RightPage(o, ClampLimit(requested, default), shown, cursor, Page(items, next))
    ensures Page(items, next) == PageOf(o, ClampLimit(requested, default), shown, cursor)
  {
    var limit := ClampLimit(requested, default);
    items := [];
    var i := 0;
    while i < |rows|
      invariant 0 <= i <= |rows| && items == rows[..i]
    {
      items := items + [rows[i]];
      i := i + 1;
    }
    next := 0;
    if |items| > limit {
      next := items[limit - 1];
      items := items[..limit];
    }
    assert items == Cut(rows, limit).items && next == Cut(rows, limit).next;
    assert Page(items, next) == PageOf(o, limit, shown, cursor);
    PageContents(o, limit, shown, cursor);
  }

  /** The cursor after `k` pages of a walk; the table shows `shown(i)` when page i is read. */
  ghost function CursorAfter(o: Order, limit: int, shown: nat -> set<int>, k: nat): int
    requires limit >= 1
  {
    if k == 0 then 0 else PageOf(o, limit, shown(k - 1), CursorAfter(o, limit, shown, k - 1)).next
  }

  /** The walk has not ended before page `n`. */
  ghost predicate Walks(o: Order, limit: int, shown: nat -> set<int>, n: nat)
    requires limit >= 1
  {
    n <= 1 || (Walks(o, limit, shown, n - 1) && CursorAfter(o, limit, shown, n - 1) != 0)
  }

  /** Everything the first `n` pages returned. */
  ghost function Collected(o: Order, limit: int, shown: nat -> set<int>, n: nat): seq<int>
    requires limit >= 1
  {
    if n == 0 then []
    else Collected(o, limit, shown, n - 1) + PageOf(o, limit, shown(n - 1), CursorAfter(o, limit, shown, n - 1)).items
  }

  /** Ids are positive. */
  ghost predicate AllPositive(ids: set<int>) {
    forall id | id in ids :: id > 0
  }

  ghost predicate Positive(shown: nat -> set<int>) {
    forall k: nat, id | id in shown(k) :: id > 0
  }

  /** Every id is at or before the cursor. */
  ghost predicate UpTo(o: Order, ids: seq<int>, cursor: int) {
    forall id | id in ids :: id == cursor || Before(o, id, cursor)
  }

  /** A page past the cursor continues what was collected up to it. */
  lemma PageContinues(o: Order, limit: int, shown: set<int>, cursor: int, before: seq<int>, page: Page)
    requires limit >= 1 && RightPage(o, limit, shown, cursor, page)
    requires Sorted(o, before) && (before == [] || (cursor != 0 && UpTo(o, before, cursor)))
    ensures Sorted(o, before + page.items)
    ensures page.next != 0 ==> UpTo(o, before + page.items, page.next)
  {
    var all := before + page.items;
    forall i, j | 0 <= i < j < |all| ensures Before(o, all[i], all[j]) {
      if i < |before| <= j {
        assert before[i] in before && page.items[j - |before|] in page.items;
      }
    }
    if page.next != 0 {
      assert page.items[limit - 1] in page.items;
      forall id | id in all ensures id == page.next || Before(o, id, page.next) {
        if id in page.items {
          var k :| 0 <= k < |page.items| && page.items[k] == id;
        }
      }
    }
  }

  /** No duplicates: over any changes to the table, what a walk returns is strictly in order,
      and all of it is at or before the cursor. */
  lemma {:induction false} WalkInOrder(o: Order, limit: int, shown: nat -> set<int>, n: nat)
    requires limit >= 1 && Positive(shown) && Walks(o, limit, shown, n)
    ensures Sorted(o, Collected(o, limit, shown, n))
    ensures CursorAfter(o, limit, shown, n) != 0 ==>
              UpTo(o, Collected(o, limit, shown, n), CursorAfter(o, limit, shown, n))
    decreases n
  {
    if n > 0 {
      WalkInOrder(o, limit, shown, n - 1);
      var cursor := CursorAfter(o, limit, shown, n - 1);
      PageContents(o, limit, shown(n - 1), cursor);
      PageContinues(o, limit, shown(n - 1), cursor, Collected(o, limit, shown, n - 1),
          PageOf(o, limit, shown(n - 1), cursor));
    }
  }

  /** An id shown now is on the page, or already returned, or still ahead. */
  lemma PageMissesNothing(o: Order, limit: int, shown: set<int>, cursor: int, before: seq<int>, page: Page, id: int)
    requires limit >= 1 && RightPage(o, limit, shown, cursor, page) && id in shown
    requires id in before || Past(o, cursor, id)
    ensures id in before + page.items || (page.next != 0 && Past(o, page.next, id))
  {}

  /** Nothing is missed up to the cursor: an id shown throughout is returned or still ahead. */
  lemma {:induction false} WalkMissesNothing(o: Order, limit: int, shown: nat -> set<int>, n: nat, id: int)
    requires limit >= 1 && Positive(shown) && Walks(o, limit, shown, n)
    requires forall k | 0 <= k < n :: id in shown(k)
    ensures n > 0 && CursorAfter(o, limit, shown, n) == 0 ==> id in Collected(o, limit, shown, n)
    ensures n == 0 || CursorAfter(o, limit, shown, n) != 0 ==>
              id in Collected(o, limit, shown, n) || Past(o, CursorAfter(o, limit, shown, n), id)
    decreases n
  {
    if n > 0 {
      WalkMissesNothing(o, limit, shown, n - 1, id);
      var cursor := CursorAfter(o, limit, shown, n - 1);
      PageContents(o, limit, shown(n - 1), cursor);
      PageMissesNothing(o, limit, shown(n - 1), cursor, Collected(o, limit, shown, n - 1),
          PageOf(o, limit, shown(n - 1), cursor), id);
    }
  }

  /** Pagination under change: a completed walk returns every id that was shown throughout
      exactly once, and no id twice. */
  lemma WalkComplete(o: Order, limit: int, shown: nat -> set<int>, n: nat, id: int)
    requires limit >= 1 && Positive(shown) && n > 0 && Walks(o, limit, shown, n)
    requires CursorAfter(o, limit, shown, n) == 0
    requires forall k | 0 <= k < n :: id in shown(k)
    ensures var all := Collected(o, limit, shown, n);
            && id in all
            && (forall i, j | 0 <= i < |all| && 0 <= j < |all| && all[i] == all[j] :: i == j)
  {
    WalkMissesNothing(o, limit, shown, n, id);
    WalkInOrder(o, limit, shown, n);
  }

  /** Going down, a next cursor is a positive id below the last one. */
  lemma CursorFalls(limit: int, shown: set<int>, cursor: int)
    requires limit >= 1 && AllPositive(shown)
    ensures var next := PageOf(Desc, limit, shown, cursor).next; next != 0 ==>
              next > 0 && (cursor == 0 || next < cursor)
  {
    PageContents(Desc, limit, shown, cursor);
    var page := PageOf(Desc, limit, shown, cursor);
    if page.next != 0 { assert page.items[limit - 1] in page.items; }
  }

  /** A descending walk always ends, whatever happens to the table: cursors fall. */
  lemma {:induction false} DescendingEnds(limit: int, shown: nat -> set<int>, k: nat) returns (n: nat)
    requires limit >= 1 && Positive(shown) && Walks(Desc, limit, shown, k)
    requires k == 0 || CursorAfter(Desc, limit, shown, k) > 0
    ensures n > 0 && Walks(Desc, limit, shown, n) && CursorAfter(Desc, limit, shown, n) == 0
    decreases if k == 0 then 1 else 0, CursorAfter(Desc, limit, shown, k)
  {
    assert AllPositive(shown(k));
    CursorFalls(limit, shown(k), CursorAfter(Desc, limit, shown, k));
    if CursorAfter(Desc, limit, shown, k + 1) == 0 {
      n := k + 1;
    } else {
      n := DescendingEnds(limit, shown, k + 1);
    }
  }

  // ----- A fixed table -----

  ghost function Fixed(shown: set<int>): nat -> set<int> {
    (_: nat) => shown
  }

  /** On a table that does not change, the cursor after k full pages is the last id of the
      k-th slice, and the rest of the listing is what lies past it. */
  lemma RestOfListing(o: Order, shown: set<int>, i: nat)
    requires 0 !in shown && 0 < i <= |Listing(o, shown)|
    ensures Listing(o, PastCursor(o, shown, Listing(o, shown)[i - 1])) == Listing(o, shown)[i..]
  {
    var all := Listing(o, shown);
    var rest := all[i..];
    ListingLists(o, shown);
    assert all[i - 1] in all;
    var past := PastCursor(o, shown, all[i - 1]);
    forall id | id in past ensures id in rest {
      assert id in all;
      var k :| 0 <= k < |all| && all[k] == id;
      assert rest[k - i] == id;
    }
    forall k | 0 <= k < |rest| ensures rest[k] in past {
      assert rest[k] == all[i + k] && all[i + k] in all;
    }
    ListingLists(o, past);
    ListingUnique(o, rest, Listing(o, past), past);
  }

  /** How many pages a table of `size` ids takes: at least one. */
  function PageCount(size: nat, limit: int): nat
    requires limit >= 1
  {
    if size <= limit then 1 else 1 + PageCount(size - limit, limit)
  }

  /** It is max(1, ceil(size / limit)). */
  lemma PageCountIsCeiling(size: nat, limit: int)
    requires limit >= 1
    ensures PageCount(size, limit) >= 1
    ensures size > 0 ==> (PageCount(size, limit) - 1) * limit < size
    ensures size <= PageCount(size, limit) * limit
  {
    if size > limit {
      PageCountIsCeiling(size - limit, limit);
      assert (PageCount(size, limit) - 1) * limit == (PageCount(size - limit, limit) - 1) * limit + limit;
      assert PageCount(size, limit) * limit == PageCount(size - limit, limit) * limit + limit;
    }
  }

  /** The page read past the i-th id of a fixed table. */
  lemma FixedPage(o: Order, limit: int, shown: set<int>, cursor: int, i: nat)
    requires limit >= 1 && AllPositive(shown) && (i < |Listing(o, shown)| || i == 0)
    requires cursor == if i == 0 then 0 else Listing(o, shown)[i - 1]
    ensures var page, all := PageOf(o, limit, shown, cursor), Listing(o, shown);
            if i + limit < |Listing(o, shown)| then page == Page(all[i..i + limit], all[i + limit - 1])
            else page == Page(all[i..], 0)
  {
    var all := Listing(o, shown);
    if i == 0 {
      assert PastCursor(o, shown, cursor) == shown;
      assert all[0..] == all;
    } else {
      RestOfListing(o, shown, i);
    }
    CutSlice(all, i, limit);
  }

  lemma CutSlice(all: seq<int>, i: nat, limit: int)
    requires limit >= 1 && i <= |all|
    ensures Cut(Take(all[i..], limit + 1), limit)
            == if i + limit < |all| then Page(all[i..i + limit], all[i + limit - 1]) else Page(all[i..], 0)
  {
    if i + limit < |all| {
      assert all[i..][..limit + 1][..limit] == all[i..i + limit];
    }
  }

  /** After k pages the walk has returned the first i ids and stands on the i-th. */
  ghost predicate Stands(o: Order, limit: int, shown: set<int>, k: nat, i: nat)
    requires limit >= 1
  {
    && i <= |Listing(o, shown)|
    && Collected(o, limit, Fixed(shown), k) == Listing(o, shown)[..i]
    && CursorAfter(o, limit, Fixed(shown), k) == if i == 0 then 0 else Listing(o, shown)[i - 1]
  }

  lemma FixedStep(o: Order, limit: int, shown: set<int>, k: nat, i: nat)
    requires limit >= 1 && AllPositive(shown) && i + limit < |Listing(o, shown)|
    requires Stands(o, limit, shown, k, i)
    ensures Stands(o, limit, shown, k + 1, i + limit)
  {
    var all := Listing(o, shown);
    FixedPage(o, limit, shown, CursorAfter(o, limit, Fixed(shown), k), i);
    assert all[..i] + all[i..i + limit] == all[..i + limit];
  }

  /** The last page of a fixed table ends the walk with the whole listing returned. */
  lemma FixedLast(o: Order, limit: int, shown: set<int>, k: nat, i: nat)
    requires limit >= 1 && AllPositive(shown) && i + limit >= |Listing(o, shown)| && (i < |Listing(o, shown)| || i == 0)
    requires Stands(o, limit, shown, k, i)
    ensures CursorAfter(o, limit, Fixed(shown), k + 1) == 0
    ensures Collected(o, limit, Fixed(shown), k + 1) == Listing(o, shown)
  {
    var all := Listing(o, shown);
    FixedPage(o, limit, shown, CursorAfter(o, limit, Fixed(shown), k), i);
    assert all[..i] + all[i..] == all;
  }

  lemma WalksOn(o: Order, limit: int, shown: set<int>, k: nat, i: nat)
    requires limit >= 1 && AllPositive(shown) && i > 0
    requires Walks(o, limit, Fixed(shown), k + 1) && Stands(o, limit, shown, k + 1, i)
    ensures Walks(o, limit, Fixed(shown), k + 2)
  {
    ListingLists(o, shown);
    assert Listing(o, shown)[i - 1] in Listing(o, shown);
  }

  /** The walk over a fixed table takes n pages and returns the whole listing. */
  ghost predicate Completes(o: Order, limit: int, shown: set<int>, n: nat)
    requires limit >= 1
  {
    && Walks(o, limit, Fixed(shown), n)
    && CursorAfter(o, limit, Fixed(shown), n) == 0
    && Collected(o, limit, Fixed(shown), n) == Listing(o, shown)
  }

  /** The walk stands on the i-th id after k pages and has not ended. */
  ghost predicate OnTheWay(o: Order, limit: int, shown: set<int>, k: nat, i: nat)
    requires limit >= 1
  {
    Stands(o, limit, shown, k, i) && Walks(o, limit, Fixed(shown), k + 1)
  }

  lemma OneMore(o: Order, limit: int, shown: set<int>, k: nat, i: nat)
    requires limit >= 1 && AllPositive(shown) && i + limit < |Listing(o, shown)| && OnTheWay(o, limit, shown, k, i)
    ensures OnTheWay(o, limit, shown, k + 1, i + limit)
  {
    FixedStep(o, limit, shown, k, i);
    WalksOn(o, limit, shown, k, i + limit);
  }

  lemma TheLast(o: Order, limit: int, shown: set<int>, k: nat, i: nat)
    requires limit >= 1 && AllPositive(shown) && i + limit >= |Listing(o, shown)| && (i < |Listing(o, shown)| || i == 0)
    requires OnTheWay(o, limit, shown, k, i)
    ensures Completes(o, limit, shown, k + 1)
  {
    FixedLast(o, limit, shown, k, i);
  }

  lemma Starts(o: Order, limit: int, shown: set<int>)
    requires limit >= 1
    ensures OnTheWay(o, limit, shown, 0, 0)
  {
    assert Listing(o, shown)[..0] == [];
  }

  /** The k-th page is reached with `left` ids to come, and some unless none were shown. */
  ghost predicate Reaches(o: Order, limit: int, shown: set<int>, k: nat, left: nat)
    requires limit >= 1
  {
    && left <= |Listing(o, shown)| && (left > 0 || |Listing(o, shown)| == 0)
    && OnTheWay(o, limit, shown, k, |Listing(o, shown)| - left)
  }

  lemma ReachesNext(o: Order, limit: int, shown: set<int>, k: nat, left: nat)
    requires limit >= 1 && AllPositive(shown) && Reaches(o, limit, shown, k, left) && left > limit
    ensures Reaches(o, limit, shown, k + 1, left - limit)
  {
    OneMore(o, limit, shown, k, |Listing(o, shown)| - left);
  }

  lemma ReachesEnd(o: Order, limit: int, shown: set<int>, k: nat, left: nat)
    requires limit >= 1 && AllPositive(shown) && Reaches(o, limit, shown, k, left) && left <= limit
    ensures Completes(o, limit, shown, k + 1)
  {
    TheLast(o, limit, shown, k, |Listing(o, shown)| - left);
  }

  /** The walk from the k-th page on, with `left` ids still to come. */
  lemma {:induction false} FixedFrom(o: Order, limit: int, shown: set<int>, k: nat, left: nat) returns (n: nat)
    requires limit >= 1 && AllPositive(shown) && Reaches(o, limit, shown, k, left)
    ensures n == k + PageCount(left, limit)
    ensures Completes(o, limit, shown, n)
    decreases left
  {
    if left <= limit {
      ReachesEnd(o, limit, shown, k, left);
      n := k + 1;
    } else {
      ReachesNext(o, limit, shown, k, left);
      n := FixedFrom(o, limit, shown, k + 1, left - limit);
    }
  }

  /** A fixed table: the pages concatenate to the whole ordered listing, and the walk takes
      exactly max(1, ceil(size / limit)) pages. */
  lemma FixedTable(o: Order, limit: int, shown: set<int>) returns (pages: nat)
    requires limit >= 1 && AllPositive(shown)
    ensures pages == PageCount(|shown|, limit)
    ensures Completes(o, limit, shown, pages)
  {
    ListingLists(o, shown);
    Starts(o, limit, shown);
    pages := FixedFrom(o, limit, shown, 0, |shown|);
  }
}

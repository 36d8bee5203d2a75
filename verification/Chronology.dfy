/** The index (createdAt, id) both ways, and listing it page by page. */
module Chronology {
  import opened Common
  import opened Keyset

  datatype Stamp = Stamp(createdAt: int, id: string)

  // Ids are compared by the database's collation: some total order.
  type Collation = (string, string) -> bool

  predicate Older(a: Stamp, b: Stamp, ids: Collation) {
    a.createdAt < b.createdAt || (a.createdAt == b.createdAt && ids(a.id, b.id))
  }

  function OldestFirst(ids: Collation): (Stamp, Stamp) -> bool {
    (a, b) => Older(a, b, ids)
  }

  function NewestFirst(ids: Collation): (Stamp, Stamp) -> bool {
    (a, b) => Older(b, a, ids)
  }

  lemma BothAreTotal(ids: Collation)
    requires TotalOrder(ids)
    ensures TotalOrder(OldestFirst(ids)) && TotalOrder(NewestFirst(ids))
  {
    forall x, y, z | Older(x, y, ids) && Older(y, z, ids) ensures Older(x, z, ids) {}
  }

  /** One fetch: a page of `limit` rows and, if there are more, a cursor at its last row. */
  ghost function Fetch(rows: set<Stamp>, cursor: Option<Stamp>, limit: nat,
                       lt: (Stamp, Stamp) -> bool): (seq<Stamp>, Option<Stamp>)
    requires TotalOrder(lt) && 1 <= limit
  {
    var page := Page(rows, cursor, limit + 1, lt);
    if |page| > limit then (page[..limit], Some(page[limit - 1])) else (page, None)
  }

  /** A fetch returns, in order, exactly the rows after its cursor up to the next cursor. */
  ghost predicate FetchedRight(rows: set<Stamp>, cursor: Option<Stamp>, items: seq<Stamp>, next: Option<Stamp>,
                               lt: (Stamp, Stamp) -> bool) {
    && Ascending(items, lt)
    && (forall x :: x in items <==> x in After(rows, cursor, lt) && (next.Some? ==> !lt(next.value, x)))
    && (next.Some? ==> next.value in items)
  }

  lemma LastFetch(rows: set<Stamp>, cursor: Option<Stamp>, limit: nat, lt: (Stamp, Stamp) -> bool)
    requires TotalOrder(lt) && |Page(rows, cursor, limit + 1, lt)| <= limit
    ensures var page := Page(rows, cursor, limit + 1, lt);
      FetchedRight(rows, cursor, page, None, lt) && page == Sorted(After(rows, cursor, lt), lt)
  {
    ShortPage(rows, cursor, limit + 1, lt);
    SortedHolds(After(rows, cursor, lt), lt);
    var page := Page(rows, cursor, limit + 1, lt);
    assert forall x :: x in page <==> x in Elements(page);
  }

  lemma FirstOnes(rows: set<Stamp>, cursor: Option<Stamp>, limit: nat, lt: (Stamp, Stamp) -> bool, all: seq<Stamp>)
    requires TotalOrder(lt) && Ascending(all, lt) && Elements(all) == After(rows, cursor, lt) && 1 <= limit <= |all|
    ensures FetchedRight(rows, cursor, all[..limit], Some(all[limit - 1]), lt)
  {
    SplitAscending(all, limit, lt);
    assert forall x :: x in all <==> x in Elements(all);
    assert all[..limit][limit - 1] == all[limit - 1];
  }

  lemma FetchWithMore(rows: set<Stamp>, cursor: Option<Stamp>, limit: nat, lt: (Stamp, Stamp) -> bool)
    requires TotalOrder(lt) && 1 <= limit <= |Sorted(After(rows, cursor, lt), lt)|
    ensures var all := Sorted(After(rows, cursor, lt), lt); var next := Some(all[limit - 1]);
      && FetchedRight(rows, cursor, all[..limit], next, lt)
      && all[..limit] + Sorted(After(rows, next, lt), lt) == all
      && |After(rows, next, lt)| < |After(rows, cursor, lt)|
  {
    SortedHolds(After(rows, cursor, lt), lt);
    RestIsAfterLast(rows, cursor, limit, lt);
    FirstOnes(rows, cursor, limit, lt, Sorted(After(rows, cursor, lt), lt));
  }

  lemma FetchHolds(rows: set<Stamp>, cursor: Option<Stamp>, limit: nat, lt: (Stamp, Stamp) -> bool)
    requires TotalOrder(lt) && 1 <= limit
    ensures var (items, next) := Fetch(rows, cursor, limit, lt);
      && FetchedRight(rows, cursor, items, next, lt)
      && (next.None? ==> items == Sorted(After(rows, cursor, lt), lt))
      && (next.Some? ==> items + Sorted(After(rows, next, lt), lt) == Sorted(After(rows, cursor, lt), lt))
      && (next.Some? ==> |After(rows, next, lt)| < |After(rows, cursor, lt)|)
      && (next.Some? <==> limit < |After(rows, cursor, lt)|) && (next.Some? ==> After(rows, next, lt) != {})
      && |items| == AtMost(limit, |After(rows, cursor, lt)|)
  {
    SortedHolds(After(rows, cursor, lt), lt);
    var page, all := Page(rows, cursor, limit + 1, lt), Sorted(After(rows, cursor, lt), lt);
    if |page| > limit {
      assert page[..limit] == all[..limit] && page[limit - 1] == all[limit - 1];
      FetchWithMore(rows, cursor, limit, lt);
      assert |all| > limit;
    } else {
      LastFetch(rows, cursor, limit, lt);
    }
  }

  /** Following the cursors to the end, over rows nobody changes. */
  ghost function ListAll(rows: set<Stamp>, cursor: Option<Stamp>, limit: nat, lt: (Stamp, Stamp) -> bool): seq<Stamp>
    requires TotalOrder(lt) && 1 <= limit
    decreases |After(rows, cursor, lt)|
  {
    FetchHolds(rows, cursor, limit, lt);
    var (items, next) := Fetch(rows, cursor, limit, lt);
    if next.None? then items else items + ListAll(rows, next, limit, lt)
  }

  /** Every row after the cursor is listed exactly once, in order, whatever the limit. */
  lemma {:induction false} ListAllIsComplete(rows: set<Stamp>, cursor: Option<Stamp>, limit: nat,
                                             lt: (Stamp, Stamp) -> bool)
    requires TotalOrder(lt) && 1 <= limit
    ensures ListAll(rows, cursor, limit, lt) == Sorted(After(rows, cursor, lt), lt)
    decreases |After(rows, cursor, lt)|
  {
    FetchHolds(rows, cursor, limit, lt);
    var (items, next) := Fetch(rows, cursor, limit, lt);
    if next.Some? {
      ListAllIsComplete(rows, next, limit, lt);
    }
  }

  /** Following the cursors while the rows change: each fetch sees its own snapshot. Returns what was
      listed and whether the end was reached. */
  ghost function Crawl(snapshots: seq<set<Stamp>>, cursor: Option<Stamp>, limit: nat,
                       lt: (Stamp, Stamp) -> bool): (seq<Stamp>, bool)
    requires TotalOrder(lt) && 1 <= limit
    decreases snapshots
  {
    if snapshots == [] then ([], false)
    else
      var (items, next) := Fetch(snapshots[0], cursor, limit, lt);
      if next.None? then (items, true)
      else
        var (more, done) := Crawl(snapshots[1..], next, limit, lt);
        (items + more, done)
  }

  ghost predicate AlwaysThere(snapshots: seq<set<Stamp>>, x: Stamp) {
    forall i :: 0 <= i < |snapshots| ==> x in snapshots[i]
  }

  /** Whatever is inserted or removed between fetches, nothing is listed twice or out of order, and
      once the end is reached every row that was there all along has been listed. */
  lemma {:induction false} CrawlHolds(snapshots: seq<set<Stamp>>, cursor: Option<Stamp>, limit: nat,
                                      lt: (Stamp, Stamp) -> bool)
    requires TotalOrder(lt) && 1 <= limit
    ensures var (listed, done) := Crawl(snapshots, cursor, limit, lt);
      && Ascending(listed, lt)
      && (forall x :: x in listed ==> (cursor.Some? ==> lt(cursor.value, x)))
      && (forall x :: x in listed ==> exists i :: 0 <= i < |snapshots| && x in snapshots[i])
      && (done ==> forall x :: AlwaysThere(snapshots, x) && (cursor.Some? ==> lt(cursor.value, x)) ==> x in listed)
    decreases snapshots
  {
    if snapshots != [] {
      FetchHolds(snapshots[0], cursor, limit, lt);
      var (items, next) := Fetch(snapshots[0], cursor, limit, lt);
      if next.Some? {
        var rest := snapshots[1..];
        CrawlHolds(rest, next, limit, lt);
        var (more, done) := Crawl(rest, next, limit, lt);
        CrawlOrder(items, more, next.value, cursor, lt);
        forall x | x in more ensures exists i :: 0 <= i < |snapshots| && x in snapshots[i] {
          var i :| 0 <= i < |rest| && x in rest[i];
          assert x in snapshots[i + 1];
        }
        forall x | AlwaysThere(snapshots, x) && (cursor.Some? ==> lt(cursor.value, x)) && !lt(next.value, x)
          ensures x in items
        {
          assert x in snapshots[0];
        }
        forall x | AlwaysThere(snapshots, x) ensures AlwaysThere(rest, x) {}
      } else {
        forall x | AlwaysThere(snapshots, x) ensures x in snapshots[0] {}
      }
    }
  }

  lemma CrawlOrder(items: seq<Stamp>, more: seq<Stamp>, last: Stamp, cursor: Option<Stamp>, lt: (Stamp, Stamp) -> bool)
    requires TotalOrder(lt) && Ascending(items, lt) && Ascending(more, lt)
    requires last in items && (forall x :: x in items ==> !lt(last, x)) && (forall x :: x in more ==> lt(last, x))
    requires forall x :: x in items ==> (cursor.Some? ==> lt(cursor.value, x))
    ensures Ascending(items + more, lt)
    ensures forall x :: x in items + more ==> (cursor.Some? ==> lt(cursor.value, x))
  {
    var all := items + more;
    forall i, j | 0 <= i < j < |all| ensures lt(all[i], all[j]) {
      if i < |items| <= j {
        assert all[i] in items && all[j] in more;
        assert all[i] == last || lt(all[i], last);
      }
    }
  }
}

/** Listing the comments of a post, or the replies to a comment, by following the page cursors. */
module CommentListing {
  import opened Common
  import opened Keyset
  import opened Chronology
  import opened Comments
  import opened CommentForest

  lemma ListingOrderIsTotal(parentId: Option<string>, ids: Collation)
    requires TotalOrder(ids)
    ensures TotalOrder(ListingOrder(parentId, ids))
  {
    BothAreTotal(ids);
  }

  /** The comment belongs in the listing: it is on the post, a reply to the parent or to nothing, and neither
      deleted nor hidden. */
  predicate Belongs(s: Store, postId: string, parentId: Option<string>, x: Stamp) {
    x.id in s.comments && var c := s.comments[x.id];
    c.postId == postId && c.parentId == parentId && !c.deleted && !c.hidden && c.createdAt == x.createdAt
  }

  /** Down a list of replies the times never fall, down a list of comments on a post they never rise; equal
      times are kept in the order of the ids, forwards or backwards. */
  predicate InListingOrder(listed: seq<Stamp>, parentId: Option<string>, ids: Collation) {
    forall i, j :: 0 <= i < j < |listed| ==> var a, b := listed[i], listed[j];
      if parentId.Some? && parentId.value != ""
      then a.createdAt < b.createdAt || (a.createdAt == b.createdAt && ids(a.id, b.id))
      else a.createdAt > b.createdAt || (a.createdAt == b.createdAt && ids(b.id, a.id))
  }

  lemma AscendingIsInOrder(listed: seq<Stamp>, parentId: Option<string>, ids: Collation)
    requires Ascending(listed, ListingOrder(parentId, ids))
    ensures InListingOrder(listed, parentId, ids)
  {
  }

  /** Undisturbed, the pages of any size concatenate to every shown matching comment, once each,
      newest first for comments on a post and oldest first for replies. */
  lemma PagesListEverything(s: Store, postId: string, parentId: Option<string>, limit: nat, ids: Collation)
    requires TotalOrder(ids) && 1 <= limit
    ensures TotalOrder(ListingOrder(parentId, ids))
    ensures var lt := ListingOrder(parentId, ids);
      var listed := ListAll(Matching(s, postId, parentId), None, limit, lt);
      Ascending(listed, lt) && |listed| == |Matching(s, postId, parentId)|
      && (forall x :: x in listed <==> x in Matching(s, postId, parentId))
      && (forall x :: x in listed <==> Belongs(s, postId, parentId, x)) && InListingOrder(listed, parentId, ids)
  {
    ListingOrderIsTotal(parentId, ids);
    var lt, rows := ListingOrder(parentId, ids), Matching(s, postId, parentId);
    assert After(rows, None, lt) == rows;
    ListAllIsComplete(rows, None, limit, lt);
    SortedHolds(rows, lt);
    assert forall x :: x in Sorted(rows, lt) <==> x in Elements(Sorted(rows, lt));
    AscendingIsInOrder(Sorted(rows, lt), parentId, ids);
    forall x ensures x in rows <==> Belongs(s, postId, parentId, x) {
      assert Belongs(s, postId, parentId, x) ==> x == Stamp(s.comments[x.id].createdAt, x.id);
    }
  }

  ghost predicate OnlyWrites(events: seq<Event>) {
    forall i :: 0 <= i < |events| ==> !events[i].Moderate?
  }

  lemma {:induction false} WritesKeepRows(s: Store, events: seq<Event>, postId: string, parentId: Option<string>)
    requires OnlyWrites(events)
    ensures Matching(s, postId, parentId) <= Matching(Run(s, events), postId, parentId)
    decreases events
  {
    if events != [] {
      var s' := Next(s, events[0]);
      forall x | x in Matching(s, postId, parentId) ensures x in Matching(s', postId, parentId) {
        assert x.id in s'.comments && s'.comments[x.id] == s.comments[x.id];
      }
      WritesKeepRows(s', events[1..], postId, parentId);
    }
  }

  /** The stores that the fetches of one listing see, while others write in between. */
  ghost predicate SeenInTurn(stores: seq<Store>, between: seq<seq<Event>>) {
    && |between| == |stores|
    && (forall i :: 0 <= i < |between| ==> OnlyWrites(between[i]))
    && (forall i :: 0 < i < |stores| ==> stores[i] == Run(stores[i - 1], between[i]))
  }

  lemma {:induction false} FirstRowsStay(stores: seq<Store>, between: seq<seq<Event>>, i: nat, postId: string,
                                         parentId: Option<string>)
    requires SeenInTurn(stores, between) && i < |stores|
    ensures Matching(stores[0], postId, parentId) <= Matching(stores[i], postId, parentId)
    decreases i
  {
    if i > 0 {
      FirstRowsStay(stores, between, i - 1, postId, parentId);
      WritesKeepRows(stores[i - 1], between[i], postId, parentId);
    }
  }

  function Snapshots(stores: seq<Store>, postId: string, parentId: Option<string>): seq<set<Stamp>> {
    seq(|stores|, i requires 0 <= i < |stores| => Matching(stores[i], postId, parentId))
  }

  /** New comments written between the fetches never make a listing repeat a comment or miss one that
      was there at its start. */
  lemma WritesNeverDisturbListing(stores: seq<Store>, between: seq<seq<Event>>, postId: string,
                                  parentId: Option<string>, limit: nat, ids: Collation)
    requires TotalOrder(ids) && 1 <= limit && stores != [] && SeenInTurn(stores, between)
    ensures TotalOrder(ListingOrder(parentId, ids))
    ensures var (listed, done) := Crawl(Snapshots(stores, postId, parentId), None, limit, ListingOrder(parentId, ids));
      Ascending(listed, ListingOrder(parentId, ids)) && InListingOrder(listed, parentId, ids)
      && (done ==> forall x :: x in Matching(stores[0], postId, parentId) ==> x in listed)
      && (done ==> forall x :: Belongs(stores[0], postId, parentId, x) ==> x in listed)
  {
    ListingOrderIsTotal(parentId, ids);
    var snapshots := Snapshots(stores, postId, parentId);
    CrawlHolds(snapshots, None, limit, ListingOrder(parentId, ids));
    AscendingIsInOrder(Crawl(snapshots, None, limit, ListingOrder(parentId, ids)).0, parentId, ids);
    forall x | Belongs(stores[0], postId, parentId, x) ensures x in Matching(stores[0], postId, parentId) {
      assert x == Stamp(stores[0].comments[x.id].createdAt, x.id);
    }
    forall x | x in Matching(stores[0], postId, parentId) ensures AlwaysThere(snapshots, x) {
      forall i | 0 <= i < |snapshots| ensures x in snapshots[i] {
        FirstRowsStay(stores, between, i, postId, parentId);
      }
    }
  }
}

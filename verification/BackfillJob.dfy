/** The backfill job: its loops, proved against the one comprehension they amount to. */
module BackfillJob {
  import opened Common
  import opened Keyset
  import opened Chronology
  import opened Backfill

  // An empty cursor counts as none.
  function CursorOf(cursor: Option<string>): Option<string> {
    if cursor.Some? && cursor.value != "" then cursor else None
  }

  function Stamps(g: Graph): set<Stamp> {
    set id | id in g.posts && Shown(g.posts[id]) :: Stamp(g.posts[id].createdAt, id)
  }

  function Ids(stamps: set<Stamp>): set<string> {
    set s | s in stamps :: s.id
  }

  lemma OfferedGrows(feed: Feed, id: string, users: set<string>, reason: Reason)
    ensures |Offered(feed, id, users, reason)| >= |feed|
    ensures Offered(feed, id, {}, reason) == feed
  {
    SmallerSet(feed.Keys, Offered(feed, id, users, reason).Keys);
    assert Keys({}, id) == {};
  }

  lemma OfferedOne(feed: Feed, id: string, users: set<string>, user: string, reason: Reason)
    ensures var before, after := Offered(feed, id, users, reason), Offered(feed, id, users + {user}, reason);
      after == if (user, id) in before then before else before[(user, id) := Some(reason)]
  {
    assert Keys(users + {user}, id) == Keys(users, id) + {(user, id)};
  }

  lemma OneMoreId(page: seq<Stamp>, i: nat, done: set<string>)
    requires i < |page|
    ensures done + Ids(Elements(page[..i + 1])) == (done + Ids(Elements(page[..i]))) + {page[i].id}
  {
    assert page[..i + 1] == page[..i] + [page[i]];
    assert Elements(page[..i + 1]) == Elements(page[..i]) + {page[i]};
  }

  lemma IdsOfBoth(a: set<Stamp>, b: set<Stamp>)
    ensures Ids(a + b) == Ids(a) + Ids(b)
  {
  }

  lemma NothingDelivered(g: Graph, feed: Feed, posts: set<Stamp>, lt: (Stamp, Stamp) -> bool)
    ensures Seen(posts, None, lt) == {} && Ids(Seen(posts, None, lt)) == {} && Delivered(g, feed, {}) == feed
  {
    assert Due(g, {}) == {};
  }

  lemma StampsAreShown(g: Graph)
    ensures Ids(Stamps(g)) == ShownPosts(g)
  {
    forall id | id in ShownPosts(g) ensures id in Ids(Stamps(g)) {
      assert Stamp(g.posts[id].createdAt, id) in Stamps(g);
    }
  }

  function StampsOf(g: Graph, ids: set<string>): set<Stamp>
    requires ids <= g.posts.Keys
  {
    set id | id in ids :: Stamp(g.posts[id].createdAt, id)
  }

  lemma {:induction false} OneStampEach(g: Graph, ids: set<string>)
    requires ids <= g.posts.Keys
    ensures |StampsOf(g, ids)| == |ids|
    decreases ids
  {
    if ids != {} {
      var id :| id in ids;
      OneStampEach(g, ids - {id});
      assert StampsOf(g, ids) == StampsOf(g, ids - {id}) + {Stamp(g.posts[id].createdAt, id)};
    }
  }

  // As many stamps as there are posts neither deleted nor hidden.
  lemma StampsAreCounted(g: Graph)
    ensures |Stamps(g)| == |set id | id in g.posts && !g.posts[id].deleted && !g.posts[id].hidden|
  {
    var ids := set id | id in g.posts && !g.posts[id].deleted && !g.posts[id].hidden;
    OneStampEach(g, ids);
    assert Stamps(g) == StampsOf(g, ids);
  }

  // One turn of the posts loop: the posts passed, before and after a page.
  lemma PostPage(g: Graph, cursor: Option<Stamp>, n: nat, lt: (Stamp, Stamp) -> bool)
    requires TotalOrder(lt) && 0 < n
    ensures var page := Page(Stamps(g), cursor, n, lt);
      && Elements(page) <= Stamps(g)
      && (page == [] ==> Seen(Stamps(g), cursor, lt) == Stamps(g) && Ids(Seen(Stamps(g), cursor, lt)) == ShownPosts(g))
      && (page != [] ==> var next := Some(page[|page| - 1]);
            && |After(Stamps(g), next, lt)| < |After(Stamps(g), cursor, lt)|
            && |Seen(Stamps(g), next, lt)| == |Seen(Stamps(g), cursor, lt)| + |page|
            && Ids(Seen(Stamps(g), next, lt)) == Ids(Seen(Stamps(g), cursor, lt)) + Ids(Elements(page)))
  {
    var page := Page(Stamps(g), cursor, n, lt);
    if page == [] {
      ShortPageIsLast(Stamps(g), cursor, n, lt);
      assert Elements(page) == {} && Seen(Stamps(g), cursor, lt) + Elements(page) == Seen(Stamps(g), cursor, lt);
      StampsAreShown(g);
    } else {
      PageAdvances(Stamps(g), cursor, n, lt);
      IdsOfBoth(Seen(Stamps(g), cursor, lt), Elements(page));
    }
  }

  // One turn of a recipients loop: how far it has come, and when it has passed the whole column.
  lemma BatchTurn(column: set<string>, cursor: Option<string>, n: nat, ids: Collation)
    requires TotalOrder(ids) && 0 < n
    ensures var page := Page(column, cursor, n, ids);
      if page == [] then Seen(column, cursor, ids) == column
      else
        var next := Some(page[|page| - 1]);
        && next.value in column && |After(column, next, ids)| < |After(column, cursor, ids)|
        && (|page| < n ==> Seen(column, next, ids) == column)
  {
    var page := Page(column, cursor, n, ids);
    if |page| < n {
      ShortPageIsLast(column, cursor, n, ids);
    }
    if page == [] {
      assert Seen(column, cursor, ids) + Elements(page) == Seen(column, cursor, ids);
    } else {
      PageAdvances(column, cursor, n, ids);
    }
  }

  // What offering the page to the feed comes to.
  lemma OfferPage(start: Feed, id: string, column: set<string>, cursor: Option<string>, n: nat, ids: Collation,
                  reason: Reason)
    requires TotalOrder(ids) && Page(column, cursor, n, ids) != []
    ensures var page := Page(column, cursor, n, ids); var next := Some(page[|page| - 1]);
      && next.value in column && |After(column, next, ids)| < |After(column, cursor, ids)|
      && Offered(Offered(start, id, Seen(column, cursor, ids), reason), id, Elements(page), reason)
         == Offered(start, id, Seen(column, next, ids), reason)
  {
    var page := Page(column, cursor, n, ids);
    OfferedTwice(start, id, Seen(column, cursor, ids), Elements(page), reason);
    PageAdvances(column, cursor, n, ids);
  }

  class Job {
    const g: Graph
    const ids: Collation
    var feed: Feed

    constructor (g: Graph, ids: Collation, feed: Feed)
      ensures this.g == g && this.ids == ids && this.feed == feed
    {
      this.g, this.ids, this.feed := g, ids, feed;
    }

    /** The insert that skips rows already there, and counts the others. */
    method CreateFeedItems(id: string, users: seq<string>, reason: Reason) returns (count: nat)
      modifies this
      ensures feed == Offered(old(feed), id, Elements(users), reason)
      ensures count == |feed| - |old(feed)|
    {
      count := 0;
      OfferedGrows(feed, id, {}, reason);
      for i := 0 to |users|
        invariant feed == Offered(old(feed), id, Elements(users[..i]), reason)
        invariant count == |feed| - |old(feed)|
      {
        OfferedOne(old(feed), id, Elements(users[..i]), users[i], reason);
        assert users[..i + 1] == users[..i] + [users[i]];
        assert Elements(users[..i + 1]) == Elements(users[..i]) + {users[i]};
        if (users[i], id) !in feed {
          feed := feed[(users[i], id) := Some(reason)];
          count := count + 1;
        }
      }
      assert users[..|users|] == users;
    }

    // One page of recipients, which is not empty.
    method OfferBatch(id: string, column: set<string>, reason: Reason, cursor: Option<string>, page: seq<string>,
                      ghost n: nat, ghost start: Feed)
      returns (created: nat)
      requires TotalOrder(ids) && page == Page(column, cursor, n, ids) && page != []
      requires feed == Offered(start, id, Seen(column, cursor, ids), reason)
      modifies this
      ensures feed == Offered(start, id, Seen(column, Some(page[|page| - 1]), ids), reason)
      ensures created == |feed| - |old(feed)|
    {
      OfferPage(start, id, column, cursor, n, ids, reason);
      created := CreateFeedItems(id, page, reason);
    }

    /** Offers the post to every user of an indexed column, a batch at a time: the loop of either
        side of the friendships and of the followers. */
    method BackfillRecipients(id: string, column: set<string>, reason: Reason, batchSize: nat)
      returns (createdCount: nat)
      requires TotalOrder(ids) && 0 < batchSize && "" !in column
      modifies this
      ensures feed == Offered(old(feed), id, column, reason)
      ensures createdCount == |feed| - |old(feed)|
    {
      createdCount := 0;
      var cursor: Option<string> := None;
      ghost var start := feed;
      OfferedGrows(start, id, {}, reason);
      assert Seen(column, None, ids) == {};
      while true
        invariant cursor != Some("")
        invariant feed == Offered(start, id, Seen(column, cursor, ids), reason)
        invariant createdCount == |feed| - |start|
        decreases |After(column, cursor, ids)|
      {
        var page := Select(column, CursorOf(cursor), batchSize, ids);
        BatchTurn(column, cursor, batchSize, ids);
        if |page| == 0 {
          return;
        }
        var created := OfferBatch(id, column, reason, cursor, page, batchSize, start);
        createdCount := createdCount + created;
        cursor := Some(page[|page| - 1]);
        if |page| < batchSize {
          return;
        }
      }
    }

    method BackfillFriendRecipients(id: string, batchSize: nat) returns (createdCount: nat)
      requires TotalOrder(ids) && g.Valid() && 0 < batchSize && id in g.posts
      modifies this
      ensures var author := g.posts[id].authorId;
        var side := Offered(old(feed), id, FriendsAs1(g, author), FRIEND_ACTIVITY);
        feed == Offered(side, id, FriendsAs2(g, author), FRIEND_ACTIVITY)
      ensures createdCount == |feed| - |old(feed)|
    {
      var first := BackfillRecipients(id, FriendsAs1(g, g.posts[id].authorId), FRIEND_ACTIVITY, batchSize);
      var second := BackfillRecipients(id, FriendsAs2(g, g.posts[id].authorId), FRIEND_ACTIVITY, batchSize);
      createdCount := first + second;
    }

    method BackfillPost(id: string, batchSize: nat) returns (createdCount: nat)
      requires TotalOrder(ids) && g.Valid() && 0 < batchSize && id in g.posts
      modifies this
      ensures feed == Delivered(g, old(feed), {id})
      ensures createdCount == |feed| - |old(feed)|
    {
      var post := g.posts[id];
      OfferedInTurnIsDelivered(g, feed, id);
      createdCount := CreateFeedItems(id, [post.authorId], AUTHOR);
      assert Elements([post.authorId]) == {post.authorId};
      if post.visibility == PRIVATE {
        return;
      }
      var friends := BackfillFriendRecipients(id, batchSize);
      createdCount := createdCount + friends;
      if post.visibility == PUBLIC {
        var followers := BackfillRecipients(id, Followers(g, post.authorId), FOLLOWING, batchSize);
        createdCount := createdCount + followers;
      }
    }

    method MarkExistingAuthorFeedItems()
      modifies this
      ensures feed == Marked(g, old(feed)) && feed.Keys == old(feed).Keys
    {
      feed := map key | key in feed ::
        if feed[key].None? && key.1 in g.posts && key.0 == g.posts[key.1].authorId then Some(AUTHOR) else feed[key];
    }

    // One page of posts, each with all its recipients.
    method BackfillPage(page: seq<Stamp>, batchSize: nat, ghost done: set<string>, ghost start: Feed)
      returns (created: nat)
      requires TotalOrder(ids) && g.Valid() && 0 < batchSize
      requires Elements(page) <= Stamps(g) && done <= g.posts.Keys && feed == Delivered(g, start, done)
      modifies this
      ensures done + Ids(Elements(page)) <= g.posts.Keys
      ensures feed == Delivered(g, start, done + Ids(Elements(page)))
      ensures created == |feed| - |old(feed)|
    {
      created := 0;
      assert done + Ids(Elements(page[..0])) == done;
      for i := 0 to |page|
        invariant done + Ids(Elements(page[..i])) <= g.posts.Keys
        invariant feed == Delivered(g, start, done + Ids(Elements(page[..i])))
        invariant created == |feed| - |old(feed)|
      {
        ghost var sofar := done + Ids(Elements(page[..i]));
        OneMoreId(page, i, done);
        assert page[i] in Elements(page);
        DeliveredOneMore(g, start, sofar, page[i].id);
        var more := BackfillPost(page[i].id, batchSize);
        created := created + more;
      }
      assert page[..|page|] == page;
    }

    /** For every pair of positive batch sizes the job ends with the feed the comprehension gives, and
        reports as many posts as are shown and as many rows as the feed grew by. */
    method RunBackfill(postBatchSize: nat, recipientBatchSize: nat) returns (processedPosts: nat, createdFeedItems: nat)
      requires TotalOrder(ids) && g.Valid() && 0 < postBatchSize && 0 < recipientBatchSize
      modifies this
      ensures feed == Backfilled(g, old(feed))
      ensures processedPosts == |set id | id in g.posts && !g.posts[id].deleted && !g.posts[id].hidden|
      ensures createdFeedItems == |feed| - |old(feed)|
    {
      var cursor: Option<Stamp> := None;
      processedPosts, createdFeedItems := 0, 0;
      MarkExistingAuthorFeedItems();
      BothAreTotal(ids);
      var order := OldestFirst(ids);
      ghost var start := feed;
      assert start.Keys == old(feed).Keys;
      NothingDelivered(g, start, Stamps(g), order);
      StampsAreCounted(g);
      while true
        invariant Ids(Seen(Stamps(g), cursor, order)) <= g.posts.Keys
        invariant feed == Delivered(g, start, Ids(Seen(Stamps(g), cursor, order)))
        invariant createdFeedItems == |feed| - |start|
        invariant processedPosts == |Seen(Stamps(g), cursor, order)|
        decreases |After(Stamps(g), cursor, order)|
      {
        var page := Select(Stamps(g), cursor, postBatchSize, order);
        PostPage(g, cursor, postBatchSize, order);
        if |page| == 0 {
          return;
        }
        var created := BackfillPage(page, recipientBatchSize, Ids(Seen(Stamps(g), cursor, order)), start);
        createdFeedItems := createdFeedItems + created;
        processedPosts := processedPosts + |page|;
        cursor := Some(page[|page| - 1]);
      }
    }
  }
}

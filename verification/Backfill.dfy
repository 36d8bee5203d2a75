/** The feed backfill: nested keyset-paginated loops inserting feed rows and skipping duplicates. */
module Backfill {
  import opened Common

  datatype Reason = AUTHOR | FOLLOWING | FRIEND_ACTIVITY | TRENDING | RECOMMENDED | MENTIONED

  datatype Post = Post(authorId: string, visibility: Visibility, createdAt: int, deleted: bool, hidden: bool)

  datatype Graph = Graph(
    posts: map<string, Post>,
    friendships: set<(string, string)>, // user1Id, user2Id
    follows: set<(string, string)>)     // followerId, followingId
  {
    // Users' ids are random UUIDs.
    predicate Valid() {
      && (forall f :: f in friendships ==> f.0 != "" && f.1 != "")
      && (forall f :: f in follows ==> f.0 != "" && f.1 != "")
    }
  }

  // Feed rows by (userId, postId), each with its reason, which older rows lack.
  type Feed = map<(string, string), Option<Reason>>

  predicate Shown(p: Post) {
    !p.deleted && !p.hidden
  }

  function ShownPosts(g: Graph): set<string> {
    set id | id in g.posts && Shown(g.posts[id])
  }

  function FriendsAs1(g: Graph, author: string): set<string> {
    set f | f in g.friendships && f.0 == author :: f.1
  }

  function FriendsAs2(g: Graph, author: string): set<string> {
    set f | f in g.friendships && f.1 == author :: f.0
  }

  function Followers(g: Graph, author: string): set<string> {
    set f | f in g.follows && f.1 == author :: f.0
  }

  // ---- What the backfill is for ----

  predicate AreFriends(g: Graph, a: string, b: string) {
    (a, b) in g.friendships || (b, a) in g.friendships
  }

  /** Who gets a post, and on what ground when there are several. */
  function Ground(g: Graph, p: Post, user: string): Option<Reason> {
    if user == p.authorId then Some(AUTHOR)
    else if p.visibility != PRIVATE && AreFriends(g, p.authorId, user) then Some(FRIEND_ACTIVITY)
    else if p.visibility == PUBLIC && (user, p.authorId) in g.follows then Some(FOLLOWING)
    else None
  }

  function Audience(g: Graph, p: Post): set<string> {
    {p.authorId}
    + (if p.visibility == PRIVATE then {} else FriendsAs1(g, p.authorId) + FriendsAs2(g, p.authorId))
    + (if p.visibility == PUBLIC then Followers(g, p.authorId) else {})
  }

  lemma AudienceIsGrounded(g: Graph, p: Post, user: string)
    ensures user in Audience(g, p) <==> Ground(g, p, user).Some?
  {
  }

  function Due(g: Graph, ids: set<string>): set<(string, string)>
    requires ids <= g.posts.Keys
  {
    set id, user | id in ids && user in Audience(g, g.posts[id]) :: (user, id)
  }

  /** The feed once the posts are delivered: old rows stand, a due row gets its ground. */
  function Delivered(g: Graph, feed: Feed, ids: set<string>): Feed
    requires ids <= g.posts.Keys
  {
    map key | key in feed.Keys + Due(g, ids) :: if key in feed then feed[key] else Ground(g, g.posts[key.1], key.0)
  }

  /** Old rows of a post's own author are marked as such. */
  function Marked(g: Graph, feed: Feed): Feed {
    map key | key in feed ::
      if feed[key].None? && key.1 in g.posts && g.posts[key.1].authorId == key.0 then Some(AUTHOR) else feed[key]
  }

  /** Marking adds and drops no row; afterwards every row of a post's own author has a reason, which is
      AUTHOR if it had none, all other rows are as before, and marking again changes nothing. */
  lemma MarkedHolds(g: Graph, feed: Feed, user: string, id: string)
    ensures var marked := Marked(g, feed); var own := id in g.posts && g.posts[id].authorId == user;
      && marked.Keys == feed.Keys && Marked(g, marked) == marked
      && ((user, id) in feed && own ==> marked[(user, id)].Some?)
      && ((user, id) in feed && own && feed[(user, id)].None? ==> marked[(user, id)] == Some(AUTHOR))
      && ((user, id) in feed && (!own || feed[(user, id)].Some?) ==> marked[(user, id)] == feed[(user, id)])
  {
  }

  function Backfilled(g: Graph, feed: Feed): Feed {
    Delivered(g, Marked(g, feed), ShownPosts(g))
  }

  /** The rows after a backfill are the old ones plus exactly those with a ground, each new one with
      the first ground it has; the old ones keep their reason unless they lacked the author's. */
  lemma BackfilledHolds(g: Graph, feed: Feed, user: string, id: string)
    ensures var after := Backfilled(g, feed);
      && ((user, id) in after <==> (user, id) in feed || (id in ShownPosts(g) && Ground(g, g.posts[id], user).Some?))
      && ((user, id) in feed && feed[(user, id)].Some? ==> after[(user, id)] == feed[(user, id)])
      && ((user, id) in feed && feed[(user, id)].None? ==>
            after[(user, id)] == if id in g.posts && g.posts[id].authorId == user then Some(AUTHOR) else None)
      && ((user, id) in after && (user, id) !in feed ==> after[(user, id)] == Ground(g, g.posts[id], user))
  {
    if id in g.posts {
      AudienceIsGrounded(g, g.posts[id], user);
    }
  }

  /** The same without naming grounds: a new row is for a post that is neither deleted nor hidden, and goes to
      its author; to a friend of the author, on whichever side of the friendship, unless the post is
      private; to a follower of the author when the post is public. Every such row is there afterwards. */
  lemma BackfilledPlainly(g: Graph, feed: Feed, user: string, id: string)
    ensures var after := Backfilled(g, feed);
      if id in g.posts && !g.posts[id].deleted && !g.posts[id].hidden then
        var p := g.posts[id];
        var author := user == p.authorId;
        var friend := p.visibility != PRIVATE
          && ((p.authorId, user) in g.friendships || (user, p.authorId) in g.friendships);
        var follower := p.visibility == PUBLIC && (user, p.authorId) in g.follows;
        && ((user, id) in after <==> (user, id) in feed || author || friend || follower)
        && ((user, id) in after && (user, id) !in feed ==>
              after[(user, id)] == Some(if author then AUTHOR else if friend then FRIEND_ACTIVITY else FOLLOWING))
      else (user, id) in after <==> (user, id) in feed
  {
    BackfilledHolds(g, feed, user, id);
  }

  /** A second run adds nothing and changes nothing. */
  lemma SecondRunIsIdle(g: Graph, feed: Feed)
    ensures Backfilled(g, Backfilled(g, feed)) == Backfilled(g, feed)
  {
    var once := Backfilled(g, feed);
    forall key | key in once ensures Marked(g, once)[key] == once[key] {
      if key in feed {
        BackfilledHolds(g, feed, key.0, key.1);
      } else {
        AudienceIsGrounded(g, g.posts[key.1], key.0);
      }
    }
    assert Marked(g, once) == once;
    assert Due(g, ShownPosts(g)) <= once.Keys;
  }

  // ---- The job ----

  function Keys(users: set<string>, id: string): set<(string, string)> {
    set u | u in users :: (u, id)
  }

  /** The feed once `users` have been offered a row with `reason` for the post. */
  function Offered(feed: Feed, id: string, users: set<string>, reason: Reason): Feed {
    map key | key in feed.Keys + Keys(users, id) :: if key in feed then feed[key] else Some(reason)
  }

  lemma OfferedTwice(feed: Feed, id: string, a: set<string>, b: set<string>, reason: Reason)
    ensures Offered(Offered(feed, id, a, reason), id, b, reason) == Offered(feed, id, a + b, reason)
  {
  }

  function At(feed: Feed, key: (string, string)): Option<Option<Reason>> {
    if key in feed then Some(feed[key]) else None
  }

  lemma OfferedAt(feed: Feed, id: string, users: set<string>, reason: Reason, key: (string, string))
    ensures At(Offered(feed, id, users, reason), key)
         == if key in feed then At(feed, key) else if key.1 == id && key.0 in users then Some(Some(reason)) else None
  {
    assert key in Keys(users, id) <==> key.1 == id && key.0 in users;
  }

  lemma DeliveredAt(g: Graph, feed: Feed, ids: set<string>, key: (string, string))
    requires ids <= g.posts.Keys
    ensures At(Delivered(g, feed, ids), key)
         == if key in feed then At(feed, key)
            else if key.1 in ids && Ground(g, g.posts[key.1], key.0).Some? then Some(Ground(g, g.posts[key.1], key.0))
            else None
  {
    if key.1 in ids {
      AudienceIsGrounded(g, g.posts[key.1], key.0);
    }
    assert key in Due(g, ids) <==> key.1 in ids && key.0 in Audience(g, g.posts[key.1]);
  }

  lemma SameEverywhere(a: Feed, b: Feed)
    requires forall key :: At(a, key) == At(b, key)
    ensures a == b
  {
    forall key ensures key in a <==> key in b {
      assert At(a, key) == At(b, key);
    }
    forall key | key in a ensures a[key] == b[key] {
      assert At(a, key) == At(b, key);
    }
  }

  /** Author, then friends on either side, then followers: what one post's offers amount to. */
  lemma OfferedInTurnIsDelivered(g: Graph, feed: Feed, id: string)
    requires id in g.posts
    ensures var p := g.posts[id];
      var own := Offered(feed, id, {p.authorId}, AUTHOR);
      var side := Offered(own, id, FriendsAs1(g, p.authorId), FRIEND_ACTIVITY);
      var friends := Offered(side, id, FriendsAs2(g, p.authorId), FRIEND_ACTIVITY);
      Delivered(g, feed, {id}) ==
        if p.visibility == PRIVATE then own
        else if p.visibility == PUBLIC then Offered(friends, id, Followers(g, p.authorId), FOLLOWING)
        else friends
  {
    var p := g.posts[id];
    var own := Offered(feed, id, {p.authorId}, AUTHOR);
    var side := Offered(own, id, FriendsAs1(g, p.authorId), FRIEND_ACTIVITY);
    var friends := Offered(side, id, FriendsAs2(g, p.authorId), FRIEND_ACTIVITY);
    var all := if p.visibility == PRIVATE then own
      else if p.visibility == PUBLIC then Offered(friends, id, Followers(g, p.authorId), FOLLOWING) else friends;
    forall key ensures At(Delivered(g, feed, {id}), key) == At(all, key) {
      DeliveredAt(g, feed, {id}, key);
      OfferedAt(feed, id, {p.authorId}, AUTHOR, key);
      OfferedAt(own, id, FriendsAs1(g, p.authorId), FRIEND_ACTIVITY, key);
      OfferedAt(side, id, FriendsAs2(g, p.authorId), FRIEND_ACTIVITY, key);
      OfferedAt(friends, id, Followers(g, p.authorId), FOLLOWING, key);
      MemberOfSides(g, p.authorId, key.0);
    }
    SameEverywhere(Delivered(g, feed, {id}), all);
  }

  lemma MemberOfSides(g: Graph, author: string, user: string)
    ensures (user in FriendsAs1(g, author) || user in FriendsAs2(g, author)) <==> AreFriends(g, author, user)
    ensures user in Followers(g, author) <==> (user, author) in g.follows
  {
  }

  lemma DeliveredOneMore(g: Graph, feed: Feed, ids: set<string>, id: string)
    requires ids <= g.posts.Keys && id in g.posts
    ensures Delivered(g, Delivered(g, feed, ids), {id}) == Delivered(g, feed, ids + {id})
  {
    var first := Delivered(g, feed, ids);
    forall key ensures At(Delivered(g, first, {id}), key) == At(Delivered(g, feed, ids + {id}), key) {
      DeliveredAt(g, feed, ids, key);
      DeliveredAt(g, first, {id}, key);
      DeliveredAt(g, feed, ids + {id}, key);
    }
    SameEverywhere(Delivered(g, first, {id}), Delivered(g, feed, ids + {id}));
  }
}

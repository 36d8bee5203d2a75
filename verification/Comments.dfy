/** Comments: creation with materialised path, depth, root and counters, and the page query. */
module Comments {
  import opened Common
  import opened Keyset
  import opened Chronology

  const MAX_COMMENT_DEPTH := 10
  const DEFAULT_LIMIT := 20
  const MAX_LIMIT := 50
  const MIN_LIMIT := 1

  datatype Post = Post(authorId: string, visibility: Visibility, deleted: bool, hidden: bool)

  datatype Comment = Comment(
    postId: string, userId: string, parentId: Option<string>, rootId: string, path: string, depth: nat,
    createdAt: int, deleted: bool, hidden: bool)
  {
    predicate Shown() {
      !deleted && !hidden
    }
  }

  datatype Store = Store(
    posts: map<string, Post>, comments: map<string, Comment>,
    commentCount: map<string, nat>, // by post
    replyCount: map<string, nat>)   // by comment

  datatype Error = PostNotFound | ParentNotFound | TooDeep | DuplicateId | RecordNotFound

  datatype Result<T> = Ok(value: T) | Err(error: Error)

  datatype Draft = Draft(postId: string, userId: string, parentId: Option<string>)

  // A random UUID: neither empty nor containing the path separator.
  type Id = s: string | s != "" && '/' !in s witness "a"

  predicate VisibleTo(s: Store, postId: string, viewer: Option<string>) {
    && postId in s.posts && !s.posts[postId].deleted && !s.posts[postId].hidden
    && (s.posts[postId].visibility.PUBLIC?
        || (viewer.Some? && viewer.value != "" && s.posts[postId].authorId == viewer.value))
  }

  predicate Given(text: Option<string>) {
    text.Some? && text.value != ""
  }

  predicate HasParent(s: Store, postId: string, parentId: string) {
    parentId in s.comments && s.comments[parentId].postId == postId && s.comments[parentId].Shown()
  }

  function NewComment(s: Store, d: Draft, id: Id, now: int): Comment
    requires Given(d.parentId) ==> d.parentId.value in s.comments
  {
    if Given(d.parentId) then
      var parent := s.comments[d.parentId.value];
      Comment(d.postId, d.userId, d.parentId, parent.rootId, parent.path + "/" + id, parent.depth + 1,
              now, false, false)
    else
      Comment(d.postId, d.userId, None, id, id, 0, now, false, false)
  }

  /** The creation transaction; any error leaves the store as it was. */
  function Create(s: Store, d: Draft, id: Id, now: int): Result<Store> {
    if !VisibleTo(s, d.postId, Some(d.userId)) then Err(PostNotFound)
    else if Given(d.parentId) && !HasParent(s, d.postId, d.parentId.value) then Err(ParentNotFound)
    else if NewComment(s, d, id, now).depth > MAX_COMMENT_DEPTH then Err(TooDeep)
    else if id in s.comments then Err(DuplicateId)
    else if d.postId !in s.commentCount then Err(RecordNotFound)
    else
      var replies := s.replyCount[id := 0];
      Ok(s.(
        comments := s.comments[id := NewComment(s, d, id, now)],
        commentCount := s.commentCount[d.postId := s.commentCount[d.postId] + 1],
        replyCount := if !Given(d.parentId) then replies
          else var p := d.parentId.value; replies[p := (if p in replies then replies[p] else 0) + 1]))
  }

  /** A post that is deleted or hidden is visible to nobody, any other public one to everybody, and any other
      to its author alone. */
  lemma VisibilityHolds(s: Store, postId: string, viewer: Option<string>)
    requires postId in s.posts
    ensures var p := s.posts[postId];
      && (p.deleted || p.hidden ==> !VisibleTo(s, postId, viewer))
      && (!p.deleted && !p.hidden && p.visibility == PUBLIC ==> VisibleTo(s, postId, viewer))
      && (!p.deleted && !p.hidden && p.visibility != PUBLIC ==>
            (VisibleTo(s, postId, viewer) <==> viewer == Some(p.authorId) && p.authorId != ""))
  {
  }

  /** When a comment can be written, and what stands in the way first. */
  lemma CreateExactlyWhen(s: Store, d: Draft, id: Id, now: int)
    ensures var reply := d.parentId.Some? && d.parentId.value != "";
      var seen := d.postId in s.posts && !s.posts[d.postId].deleted && !s.posts[d.postId].hidden
        && (s.posts[d.postId].visibility == PUBLIC || (s.posts[d.postId].authorId == d.userId && d.userId != ""));
      var found := !reply || (d.parentId.value in s.comments && s.comments[d.parentId.value].postId == d.postId
        && !s.comments[d.parentId.value].deleted && !s.comments[d.parentId.value].hidden);
      var shallow := reply && d.parentId.value in s.comments ==> s.comments[d.parentId.value].depth < 10;
      && (Create(s, d, id, now) == Err(PostNotFound) <==> !seen)
      && (Create(s, d, id, now) == Err(ParentNotFound) <==> seen && !found)
      && (Create(s, d, id, now) == Err(TooDeep) <==> seen && found && !shallow)
      && (Create(s, d, id, now).Ok? <==>
            seen && found && shallow && id !in s.comments && d.postId in s.commentCount)
  {
  }

  /** What is written: a row of the draft's author on the draft's post, below its parent if it names one,
      neither deleted nor hidden; one more comment on that post, and one more reply to that parent.
      Everything else stays. */
  lemma CreatedRow(s: Store, d: Draft, id: Id, now: int)
    requires Create(s, d, id, now).Ok?
    ensures var s' := Create(s, d, id, now).value;
      var parent := if d.parentId.Some? && d.parentId.value != "" then d.parentId else None;
      && s'.posts == s.posts && s'.comments.Keys == s.comments.Keys + {id} && id !in s.comments
      && (forall other :: other in s.comments ==> s'.comments[other] == s.comments[other])
      && var c := s'.comments[id];
      && (c.postId, c.userId, c.parentId) == (d.postId, d.userId, parent)
      && (c.createdAt, c.deleted, c.hidden) == (now, false, false)
      && s'.commentCount == s.commentCount[d.postId := s.commentCount[d.postId] + 1]
      && (parent.None? ==> s'.replyCount == s.replyCount[id := 0])
      && (parent.Some? ==> forall other :: other in s'.replyCount && other != id ==>
            s'.replyCount[other] == (if other in s.replyCount then s.replyCount[other] else 0)
                                    + if other == parent.value then 1 else 0)
  {
  }

  datatype Query = Query(
    postId: string, viewerId: Option<string>, parentId: Option<string>, limit: nat, cursor: Option<Stamp>)

  // A number as it arrives from a client.
  datatype Number = NaN | Fraction | Whole(value: int)

  function NormalizeLimit(limit: Option<Number>): (r: Option<nat>)
    ensures r.Some? ==> 1 <= r.value <= 50
    ensures r.Some? && limit.Some? && limit.value.Whole? ==> r.value == limit.value.value
    ensures limit.None? || limit.value.NaN? ==> r == Some(20)
    ensures r.None? <==>
      limit.Some? && (limit.value.Fraction? || (limit.value.Whole? && !(1 <= limit.value.value <= 50)))
  {
    match limit
    case None => Some(DEFAULT_LIMIT)
    case Some(NaN) => Some(DEFAULT_LIMIT)
    case Some(Fraction) => None
    case Some(Whole(n)) => if n < MIN_LIMIT || n > MAX_LIMIT then None else Some(n)
  }

  /** The rows a listing is about. */
  function Matching(s: Store, postId: string, parentId: Option<string>): set<Stamp> {
    set id | id in s.comments && s.comments[id].postId == postId && s.comments[id].parentId == parentId
      && s.comments[id].Shown()
      :: Stamp(s.comments[id].createdAt, id)
  }

  // Replies are read oldest first, comments on a post newest first.
  function ListingOrder(parentId: Option<string>, ids: Collation): (Stamp, Stamp) -> bool {
    if Given(parentId) then OldestFirst(ids) else NewestFirst(ids)
  }

  class CommentRepository {
    var posts: map<string, Post>
    var comments: map<string, Comment>
    var commentCount: map<string, nat>
    var replyCount: map<string, nat>
    const ids: Collation

    constructor (ids: Collation)
      ensures this.ids == ids && State() == Store(map[], map[], map[], map[])
    {
      this.ids := ids;
      posts, comments, commentCount, replyCount := map[], map[], map[], map[];
    }

    function State(): Store
      reads this
    {
      Store(posts, comments, commentCount, replyCount)
    }

    method Insert(d: Draft, id: Id, now: int) returns (r: Result<Comment>)
      modifies this
      ensures match old(Create(State(), d, id, now))
        case Err(e) => r == Err(e) && State() == old(State())
        case Ok(s) => r == Ok(s.comments[id]) && State() == s
    {
      if !VisibleTo(State(), d.postId, Some(d.userId)) {
        return Err(PostNotFound);
      }
      var parent: Option<Comment> := None;
      if Given(d.parentId) {
        if !HasParent(State(), d.postId, d.parentId.value) {
          return Err(ParentNotFound);
        }
        parent := Some(comments[d.parentId.value]);
      }
      var depth := if parent.Some? then parent.value.depth + 1 else 0;
      if depth > MAX_COMMENT_DEPTH {
        return Err(TooDeep);
      }
      if id in comments {
        return Err(DuplicateId);
      }
      var before := comments;
      var statsBefore := replyCount;
      var comment := Comment(d.postId, d.userId, if parent.Some? then d.parentId else None,
        if parent.Some? then parent.value.rootId else id,
        if parent.Some? then parent.value.path + "/" + id else id,
        depth, now, false, false);
      comments, replyCount := comments[id := comment], replyCount[id := 0];
      if d.postId !in commentCount {
        comments, replyCount := before, statsBefore; // rolled back
        return Err(RecordNotFound);
      }
      commentCount := commentCount[d.postId := commentCount[d.postId] + 1];
      if parent.Some? {
        var p := d.parentId.value;
        replyCount := replyCount[p := if p in replyCount then replyCount[p] + 1 else 1];
      }
      r := Ok(comment);
    }

    method FindPage(q: Query) returns (r: Result<(seq<Stamp>, Option<Stamp>)>)
      requires TotalOrder(ids) && 1 <= q.limit
      ensures TotalOrder(ListingOrder(q.parentId, ids))
      ensures if !VisibleTo(State(), q.postId, q.viewerId) then r == Err(PostNotFound)
        else if Given(q.parentId) && !HasParent(State(), q.postId, q.parentId.value) then r == Err(ParentNotFound)
        else r == Ok(Fetch(Matching(State(), q.postId, q.parentId), q.cursor, q.limit, ListingOrder(q.parentId, ids)))
    {
      BothAreTotal(ids);
      if !VisibleTo(State(), q.postId, q.viewerId) {
        return Err(PostNotFound);
      }
      if Given(q.parentId) && !HasParent(State(), q.postId, q.parentId.value) {
        return Err(ParentNotFound);
      }
      var rows := Select(Matching(State(), q.postId, q.parentId), q.cursor, q.limit + 1, ListingOrder(q.parentId, ids));
      var hasNextPage := |rows| > q.limit;
      var items := if hasNextPage then rows[..q.limit] else rows;
      r := Ok((items, if hasNextPage then Some(items[|items| - 1]) else None));
    }
  }
}

/** What every run of comment creation and moderation keeps: a forest in which paths are ancestry and
    counters are counts. */
module CommentForest {
  import opened Common
  import opened Comments

  datatype Event =
    | Write(draft: Draft, id: Id, now: int)
    | Moderate(commentId: string, deleted: bool, hidden: bool)
    | SetPost(postId: string, post: Post) // adds a post with its statistics row, or edits one

  const Empty := Store(map[], map[], map[], map[])

  function Next(s: Store, e: Event): Store {
    match e
    case Write(d, id, now) => (match Create(s, d, id, now) case Ok(s') => s' case Err(_) => s)
    case Moderate(id, deleted, hidden) =>
      if id !in s.comments then s
      else s.(comments := s.comments[id := s.comments[id].(deleted := deleted, hidden := hidden)])
    case SetPost(id, post) =>
      s.(posts := s.posts[id := post],
         commentCount := if id in s.commentCount then s.commentCount else s.commentCount[id := 0])
  }

  function Run(s: Store, events: seq<Event>): Store
    decreases events
  {
    if events == [] then s else Run(Next(s, events[0]), events[1..])
  }

  /** A comment is a root, or hangs under a comment of the same post. */
  predicate Rooted(s: Store, id: string)
    requires id in s.comments
  {
    var c := s.comments[id];
    && c.depth <= MAX_COMMENT_DEPTH && id != "" && '/' !in id
    && match c.parentId
       case None => c.depth == 0 && c.path == id && c.rootId == id
       case Some(p) =>
         && p in s.comments && s.comments[p].postId == c.postId && c.depth == s.comments[p].depth + 1
         && c.path == s.comments[p].path + "/" + id && c.rootId == s.comments[p].rootId
  }

  ghost predicate Forest(s: Store) {
    forall id :: id in s.comments ==> Rooted(s, id)
  }

  function Children(s: Store, p: string): set<string> {
    set id | id in s.comments && s.comments[id].parentId == Some(p)
  }

  function OfPost(s: Store, postId: string): set<string> {
    set id | id in s.comments && s.comments[id].postId == postId
  }

  ghost predicate RepliesCounted(s: Store) {
    s.replyCount.Keys == s.comments.Keys && forall id :: id in s.comments ==> s.replyCount[id] == |Children(s, id)|
  }

  ghost predicate PostsCounted(s: Store) {
    && (forall id :: id in s.comments ==> s.comments[id].postId in s.commentCount)
    && (forall p :: p in s.commentCount ==> s.commentCount[p] == |OfPost(s, p)|)
  }

  ghost predicate Counted(s: Store) {
    RepliesCounted(s) && PostsCounted(s)
  }

  // ---- Every run keeps the forest and the counts ----

  lemma WriteKeepsForest(s: Store, d: Draft, id: Id, now: int)
    requires Forest(s) && Create(s, d, id, now).Ok?
    ensures Forest(Create(s, d, id, now).value)
  {
    var s' := Create(s, d, id, now).value;
    forall other | other in s'.comments ensures Rooted(s', other) {
      if other != id {
        assert Rooted(s, other);
      }
    }
  }

  // The comment added is new, and counted once for its post and once for its parent.
  ghost predicate Adds(s: Store, s': Store, id: string, c: Comment) {
    && id !in s.comments && s'.comments == s.comments[id := c] && c.postId in s.commentCount
    && s'.commentCount == s.commentCount[c.postId := s.commentCount[c.postId] + 1]
    && (c.parentId.None? ==> s'.replyCount == s.replyCount[id := 0])
    && (c.parentId.Some? ==> var p := c.parentId.value;
          p in s.replyCount && p != id && s'.replyCount == s.replyCount[id := 0][p := s.replyCount[p] + 1])
  }

  lemma WriteAdds(s: Store, d: Draft, id: Id, now: int)
    requires s.replyCount.Keys == s.comments.Keys && Create(s, d, id, now).Ok?
    ensures Adds(s, Create(s, d, id, now).value, id, NewComment(s, d, id, now))
  {
  }

  lemma NobodyRepliedYet(s: Store, id: string)
    requires Forest(s) && id !in s.comments
    ensures Children(s, id) == {}
  {
    forall k | k in s.comments ensures s.comments[k].parentId != Some(id) {
      assert Rooted(s, k);
    }
  }

  lemma AddsOneChild(s: Store, s': Store, id: string, c: Comment, x: string)
    requires Adds(s, s', id, c)
    ensures |Children(s', x)| == |Children(s, x)| + if c.parentId == Some(x) then 1 else 0
  {
    assert id !in Children(s, x);
    var comments: map<string, Comment> := s'.comments;
    assert comments == s.comments[id := c];
    forall k ensures k in Children(s', x) <==> k in Children(s, x) || (k == id && c.parentId == Some(x)) {
      assert k in comments <==> k in s.comments || k == id;
    }
    if c.parentId == Some(x) {
      assert Children(s', x) == Children(s, x) + {id};
    } else {
      assert Children(s', x) == Children(s, x);
    }
  }

  lemma AddsOneComment(s: Store, s': Store, id: string, c: Comment, p: string)
    requires Adds(s, s', id, c)
    ensures |OfPost(s', p)| == |OfPost(s, p)| + if p == c.postId then 1 else 0
  {
    assert id !in OfPost(s, p);
    forall k ensures k in OfPost(s', p) <==> k in OfPost(s, p) || (k == id && p == c.postId) {
      assert k in s'.comments <==> k in s.comments || k == id;
    }
    if p == c.postId {
      assert OfPost(s', p) == OfPost(s, p) + {id};
    } else {
      assert OfPost(s', p) == OfPost(s, p);
    }
  }

  lemma AddsKeepsReplyCount(s: Store, s': Store, id: string, c: Comment, x: string)
    requires Adds(s, s', id, c) && Children(s, id) == {} && x in s'.comments
    requires x in s.comments ==> x in s.replyCount && s.replyCount[x] == |Children(s, x)|
    ensures x in s'.replyCount && s'.replyCount[x] == |Children(s', x)|
  {
    AddsOneChild(s, s', id, c, x);
    if x != id {
      assert x in s.comments;
    }
  }

  lemma AddsKeepsReplies(s: Store, s': Store, id: string, c: Comment)
    requires RepliesCounted(s) && Adds(s, s', id, c) && Children(s, id) == {}
    ensures RepliesCounted(s')
  {
    forall x | x in s'.comments ensures x in s'.replyCount && s'.replyCount[x] == |Children(s', x)| {
      AddsKeepsReplyCount(s, s', id, c, x);
    }
    assert s'.replyCount.Keys == s.replyCount.Keys + {id};
  }

  lemma AddsKeepsPosts(s: Store, s': Store, id: string, c: Comment)
    requires PostsCounted(s) && Adds(s, s', id, c)
    ensures PostsCounted(s')
  {
    forall p | p in s'.commentCount ensures s'.commentCount[p] == |OfPost(s', p)| {
      AddsOneComment(s, s', id, c, p);
    }
  }

  // Neither moderation nor a post's own changes touch who replied to whom, or where.
  ghost predicate SameTree(s: Store, s': Store) {
    && s'.comments.Keys == s.comments.Keys && s'.replyCount == s.replyCount
    && (forall id :: id in s.comments ==> Moderated(s.comments[id], s'.comments[id]))
    && s.commentCount.Keys <= s'.commentCount.Keys
    && (forall p :: p in s'.commentCount ==> s'.commentCount[p] == if p in s.commentCount then s.commentCount[p] else 0)
  }

  predicate Moderated(c: Comment, c': Comment) {
    c' == c.(deleted := c'.deleted, hidden := c'.hidden)
  }

  lemma OtherEventsKeepTree(s: Store, e: Event)
    requires !e.Write?
    ensures SameTree(s, Next(s, e))
  {
  }

  lemma SameTreeKeepsForest(s: Store, s': Store)
    requires Forest(s) && SameTree(s, s')
    ensures Forest(s')
  {
    forall c | c in s'.comments ensures Rooted(s', c) {
      assert Rooted(s, c);
    }
  }

  lemma SameTreeKeepsCounts(s: Store, s': Store)
    requires Counted(s) && SameTree(s, s')
    ensures Counted(s')
  {
    forall x ensures Children(s', x) == Children(s, x) && OfPost(s', x) == OfPost(s, x) {}
    forall p | p in s'.commentCount && p !in s.commentCount ensures OfPost(s, p) == {} {}
  }

  lemma WriteKeeps(s: Store, d: Draft, id: Id, now: int)
    requires Forest(s) && Counted(s) && Create(s, d, id, now).Ok?
    ensures Forest(Create(s, d, id, now).value) && Counted(Create(s, d, id, now).value)
  {
    WriteKeepsForest(s, d, id, now);
    WriteAdds(s, d, id, now);
    NobodyRepliedYet(s, id);
    AddsKeepsReplies(s, Create(s, d, id, now).value, id, NewComment(s, d, id, now));
    AddsKeepsPosts(s, Create(s, d, id, now).value, id, NewComment(s, d, id, now));
  }

  lemma NextKeeps(s: Store, e: Event)
    requires Forest(s) && Counted(s)
    ensures Forest(Next(s, e)) && Counted(Next(s, e))
  {
    if e.Write? {
      if Create(s, e.draft, e.id, e.now).Ok? {
        WriteKeeps(s, e.draft, e.id, e.now);
      }
    } else {
      OtherEventsKeepTree(s, e);
      SameTreeKeepsForest(s, Next(s, e));
      SameTreeKeepsCounts(s, Next(s, e));
    }
  }

  lemma EmptyIsSound()
    ensures Forest(Empty) && Counted(Empty)
  {
  }

  /** Every run of creations and moderation, from an empty store or any sound one. */
  lemma {:induction false} RunKeeps(s: Store, events: seq<Event>)
    requires Forest(s) && Counted(s)
    ensures Forest(Run(s, events)) && Counted(Run(s, events))
    decreases events
  {
    if events != [] {
      NextKeeps(s, events[0]);
      RunKeeps(Next(s, events[0]), events[1..]);
    }
  }

  // ---- Depth and root can be read off the path ----

  function Slashes(text: string): nat {
    if text == "" then 0 else Slashes(text[..|text| - 1]) + (if text[|text| - 1] == '/' then 1 else 0)
  }

  lemma {:induction false} SlashesAdd(a: string, b: string)
    ensures Slashes(a + b) == Slashes(a) + Slashes(b)
    decreases |b|
  {
    if b == "" {
      assert a + b == a;
    } else {
      assert (a + b)[..|a + b| - 1] == a + b[..|b| - 1];
      SlashesAdd(a, b[..|b| - 1]);
    }
  }

  lemma {:induction false} NoSlashes(text: string)
    requires '/' !in text
    ensures Slashes(text) == 0
    decreases |text|
  {
    if text != "" {
      NoSlashes(text[..|text| - 1]);
    }
  }

  /** The path alone tells depth and root: one separator per level, and the root's id in front. */
  lemma {:induction false} PathTellsDepthAndRoot(s: Store, id: string)
    requires Forest(s) && id in s.comments
    ensures var c := s.comments[id];
      && Slashes(c.path) == c.depth <= MAX_COMMENT_DEPTH
      && c.rootId in s.comments && s.comments[c.rootId].parentId == None && s.comments[c.rootId].postId == c.postId
      && '/' !in c.rootId && (c.path == c.rootId || c.rootId + "/" <= c.path)
    decreases s.comments[id].depth
  {
    var c := s.comments[id];
    assert Rooted(s, id);
    NoSlashes(id);
    if c.parentId.Some? {
      var p := c.parentId.value;
      PathTellsDepthAndRoot(s, p);
      assert Slashes("/") == 1 by { assert "/"[..0] == ""; }
      SlashesAdd(s.comments[p].path + "/", id);
      SlashesAdd(s.comments[p].path, "/");
    }
  }

  // ---- The path prefix is ancestry ----

  /** `y` is `x` or hangs somewhere below it. */
  ghost predicate Descends(s: Store, y: string, x: string)
    requires Forest(s) && y in s.comments
    decreases s.comments[y].depth
  {
    assert Rooted(s, y);
    y == x || (s.comments[y].parentId.Some? && Descends(s, s.comments[y].parentId.value, x))
  }

  // Two paths that agree end in the same id, below the same path.
  lemma SplitAtLastSlash(p: string, a: string, q: string, b: string)
    requires p + "/" + a == q + "/" + b && '/' !in a && '/' !in b
    ensures p == q && a == b
  {
    var t := p + "/" + a;
    assert t[|p|] == '/' && t[|q|] == '/';
    assert p == t[..|p|] && q == t[..|q|];
    assert a == t[|p| + 1..] && b == t[|q| + 1..];
  }

  lemma PathsDiffer(s: Store, x: string, y: string)
    requires Forest(s) && x in s.comments && y in s.comments && s.comments[x].path == s.comments[y].path
    ensures x == y
  {
    assert Rooted(s, x) && Rooted(s, y);
    var c, d := s.comments[x], s.comments[y];
    if c.parentId.Some? && d.parentId.Some? {
      SplitAtLastSlash(s.comments[c.parentId.value].path, x, s.comments[d.parentId.value].path, y);
    }
  }

  lemma {:induction false} AncestorIsPrefix(s: Store, y: string, x: string)
    requires Forest(s) && x in s.comments && y in s.comments && Descends(s, y, x) && y != x
    ensures s.comments[x].path + "/" <= s.comments[y].path
    decreases s.comments[y].depth
  {
    assert Rooted(s, y);
    var p := s.comments[y].parentId.value;
    if p != x {
      AncestorIsPrefix(s, p, x);
    }
  }

  lemma {:induction false} PrefixIsAncestor(s: Store, y: string, x: string)
    requires Forest(s) && x in s.comments && y in s.comments && s.comments[x].path + "/" <= s.comments[y].path
    ensures Descends(s, y, x)
    decreases s.comments[y].depth
  {
    assert Rooted(s, y);
    var n, path := |s.comments[x].path|, s.comments[y].path;
    assert path[n] == (s.comments[x].path + "/")[n] == '/';
    var p := s.comments[y].parentId.value;
    var above := s.comments[p].path;
    assert path == above + "/" + y;
    if n == |above| {
      assert above == path[..n] == s.comments[x].path;
      PathsDiffer(s, x, p);
    } else {
      assert above == path[..|above|];
      assert (s.comments[x].path + "/") == path[..n + 1] == above[..n + 1];
      PrefixIsAncestor(s, p, x);
    }
  }

  /** `x` is `y` or an ancestor of it exactly when the path of `y` is the path of `x` or continues it
      after a separator. */
  lemma PathIsAncestry(s: Store, y: string, x: string)
    requires Forest(s) && x in s.comments && y in s.comments
    ensures Descends(s, y, x)
      <==> s.comments[y].path == s.comments[x].path || s.comments[x].path + "/" <= s.comments[y].path
  {
    if Descends(s, y, x) && y != x {
      AncestorIsPrefix(s, y, x);
    } else if s.comments[x].path + "/" <= s.comments[y].path {
      PrefixIsAncestor(s, y, x);
    } else if s.comments[y].path == s.comments[x].path {
      PathsDiffer(s, x, y);
    }
  }

  // ---- The comment count is the roots plus the replies ----

  ghost function SumReplies(s: Store, ids: set<string>): nat
    requires ids <= s.replyCount.Keys
    decreases ids
  {
    if ids == {} then 0 else
      var id :| id in ids;
      s.replyCount[id] + SumReplies(s, ids - {id})
  }

  function RepliesTo(s: Store, ids: set<string>): set<string> {
    set c | c in s.comments && s.comments[c].parentId.Some? && s.comments[c].parentId.value in ids
  }

  lemma OneMoreParent(s: Store, ids: set<string>, id: string)
    requires id in ids
    ensures |RepliesTo(s, ids)| == |RepliesTo(s, ids - {id})| + |Children(s, id)|
  {
    assert RepliesTo(s, ids) == RepliesTo(s, ids - {id}) + Children(s, id);
    assert RepliesTo(s, ids - {id}) !! Children(s, id);
  }

  lemma {:induction false} RepliesAddUp(s: Store, ids: set<string>)
    requires RepliesCounted(s) && ids <= s.comments.Keys
    ensures SumReplies(s, ids) == |RepliesTo(s, ids)|
    decreases ids
  {
    if ids == {} {
      assert RepliesTo(s, ids) == {};
    } else {
      var id :| id in ids && SumReplies(s, ids) == s.replyCount[id] + SumReplies(s, ids - {id});
      OneMoreParent(s, ids, id);
      RepliesAddUp(s, ids - {id});
    }
  }

  function Roots(s: Store, postId: string): set<string> {
    set id | id in s.comments && s.comments[id].postId == postId && s.comments[id].parentId == None
  }

  /** A post's comment count is its root comments plus all reply counts under it. */
  lemma CommentCountIsRootsPlusReplies(s: Store, postId: string)
    requires Forest(s) && Counted(s) && postId in s.commentCount
    ensures s.commentCount[postId] == |Roots(s, postId)| + SumReplies(s, OfPost(s, postId))
  {
    var ofPost := OfPost(s, postId);
    RepliesAddUp(s, ofPost);
    forall c | c in s.comments
      ensures c in ofPost <==> c in Roots(s, postId) || c in RepliesTo(s, ofPost)
      ensures !(c in Roots(s, postId) && c in RepliesTo(s, ofPost))
    {
      assert Rooted(s, c);
    }
    assert ofPost == Roots(s, postId) + RepliesTo(s, ofPost);
  }
}

/** The optimistic reaction update of the web client: its counters against recounting who reacted how. */
module Reactions {
  import opened Common

  datatype Reaction = LIKE | LOVE | HAHA | WOW | SAD | ANGRY

  // The six counters; a reaction names the one that counts it.
  datatype Counts = Counts(like: nat, love: nat, haha: nat, wow: nat, sad: nat, angry: nat) {
    function Get(t: Reaction): nat {
      match t
      case LIKE => like
      case LOVE => love
      case HAHA => haha
      case WOW => wow
      case SAD => sad
      case ANGRY => angry
    }

    function Put(t: Reaction, n: nat): Counts {
      match t
      case LIKE => this.(like := n)
      case LOVE => this.(love := n)
      case HAHA => this.(haha := n)
      case WOW => this.(wow := n)
      case SAD => this.(sad := n)
      case ANGRY => this.(angry := n)
    }

    function Sum(): nat {
      like + love + haha + wow + sad + angry
    }
  }

  datatype Stats = Stats(counts: Counts, total: nat, commentCount: nat, shareCount: nat)

  datatype Post = Post(id: string, content: string, current: Option<Reaction>, stats: Stats)

  function Less(n: nat): nat {
    if n == 0 then 0 else n - 1
  }

  function CountsAfter(c: Counts, previous: Option<Reaction>, next: Option<Reaction>): Counts {
    var lowered := if previous.Some? then c.Put(previous.value, Less(c.Get(previous.value))) else c;
    if next.Some? then lowered.Put(next.value, lowered.Get(next.value) + 1) else lowered
  }

  function StatsAfter(s: Stats, previous: Option<Reaction>, next: Option<Reaction>): Stats {
    if previous == next then s
    else s.(
      counts := CountsAfter(s.counts, previous, next),
      total := if previous.None? then s.total + 1 else if next.None? then Less(s.total) else s.total)
  }

  /** The update of a local copy, field by field. */
  method GetNextReactionStats(s: Stats, previous: Option<Reaction>, next: Option<Reaction>) returns (r: Stats)
    ensures r == StatsAfter(s, previous, next)
  {
    r := s;
    if previous == next {
      return;
    }
    if previous.Some? {
      r := r.(counts := r.counts.Put(previous.value, Max(0, r.counts.Get(previous.value) - 1)));
    }
    if next.Some? {
      r := r.(counts := r.counts.Put(next.value, r.counts.Get(next.value) + 1));
    }
    if previous.None? && next.Some? {
      r := r.(total := r.total + 1);
    }
    if previous.Some? && next.None? {
      r := r.(total := Max(0, r.total - 1));
    }
  }

  function ApplyOptimisticReaction(post: Post, next: Option<Reaction>): Post {
    if post.current == next then post
    else post.(current := next, stats := StatsAfter(post.stats, post.current, next))
  }

  // ---- Recounting ----

  type Reactions = map<string, Reaction>

  function Who(r: Reactions, t: Reaction): set<string> {
    set u | u in r && r[u] == t
  }

  /** The counters are a correct tally of who reacted how. */
  ghost predicate Tallies(s: Stats, r: Reactions) {
    s.total == |r| && forall t :: s.counts.Get(t) == |Who(r, t)|
  }

  /** What the viewer sees of the post agrees with the reactions. */
  ghost predicate Shows(post: Post, r: Reactions, viewer: string) {
    Tallies(post.stats, r) && post.current == if viewer in r then Some(r[viewer]) else None
  }

  function React(r: Reactions, viewer: string, next: Option<Reaction>): Reactions {
    if next.Some? then r[viewer := next.value] else r - {viewer}
  }

  lemma WhoWithout(r: Reactions, viewer: string, t: Reaction)
    ensures |Who(r - {viewer}, t)| == |Who(r, t)| - if viewer in r && r[viewer] == t then 1 else 0
  {
    assert Who(r - {viewer}, t) == Who(r, t) - {viewer};
  }

  lemma WhoWith(r: Reactions, viewer: string, x: Reaction, t: Reaction)
    requires viewer !in r
    ensures |Who(r[viewer := x], t)| == |Who(r, t)| + if x == t then 1 else 0
  {
    assert Who(r[viewer := x], t) == if x == t then Who(r, t) + {viewer} else Who(r, t);
  }

  lemma WhoAfter(r: Reactions, viewer: string, next: Option<Reaction>, t: Reaction)
    ensures |Who(React(r, viewer, next), t)|
         == |Who(r, t)| - (if viewer in r && r[viewer] == t then 1 else 0) + (if next == Some(t) then 1 else 0)
  {
    WhoWithout(r, viewer, t);
    if next.Some? {
      assert React(r, viewer, next) == (r - {viewer})[viewer := next.value];
      WhoWith(r - {viewer}, viewer, next.value, t);
    }
  }

  lemma SizeAfter(r: Reactions, viewer: string, next: Option<Reaction>)
    ensures |React(r, viewer, next)| == |r| - (if viewer in r then 1 else 0) + (if next.Some? then 1 else 0)
  {
    var rest := r.Keys - {viewer};
    assert r.Keys == if viewer in r then rest + {viewer} else rest;
    assert React(r, viewer, next).Keys == if next.Some? then rest + {viewer} else rest;
  }

  lemma PutThenGet(c: Counts, t: Reaction, n: nat, u: Reaction)
    ensures c.Put(t, n).Get(u) == if u == t then n else c.Get(u)
  {
  }

  lemma CountsAfterAt(c: Counts, previous: Option<Reaction>, next: Option<Reaction>, u: Reaction)
    ensures CountsAfter(c, previous, next).Get(u)
         == (if previous == Some(u) then Less(c.Get(u)) else c.Get(u)) + (if next == Some(u) then 1 else 0)
  {
    var lowered := if previous.Some? then c.Put(previous.value, Less(c.Get(previous.value))) else c;
    if previous.Some? {
      PutThenGet(c, previous.value, Less(c.Get(previous.value)), u);
    }
    if next.Some? {
      PutThenGet(lowered, next.value, lowered.Get(next.value) + 1, u);
    }
  }

  lemma SameCounts(a: Counts, b: Counts)
    requires forall t :: a.Get(t) == b.Get(t)
    ensures a == b
  {
    assert a.Get(LIKE) == b.Get(LIKE) && a.Get(LOVE) == b.Get(LOVE) && a.Get(HAHA) == b.Get(HAHA);
    assert a.Get(WOW) == b.Get(WOW) && a.Get(SAD) == b.Get(SAD) && a.Get(ANGRY) == b.Get(ANGRY);
  }

  /** The optimistic update refines recounting: what it shows agrees with the reactions once the
      viewer's own is changed. */
  lemma OptimisticIsRecount(post: Post, r: Reactions, viewer: string, next: Option<Reaction>)
    requires Shows(post, r, viewer)
    ensures Shows(ApplyOptimisticReaction(post, next), React(r, viewer, next), viewer)
  {
    var r' := React(r, viewer, next);
    SizeAfter(r, viewer, next);
    if viewer in r {
      ClampsNeverBind(post, r, viewer);
    }
    forall t ensures ApplyOptimisticReaction(post, next).stats.counts.Get(t) == |Who(r', t)| {
      WhoAfter(r, viewer, next, t);
      CountsAfterAt(post.stats.counts, post.current, next, t);
    }
  }

  /** The clamps at zero never bind: what is lowered was at least one. */
  lemma ClampsNeverBind(post: Post, r: Reactions, viewer: string)
    requires Shows(post, r, viewer) && post.current.Some?
    ensures 1 <= post.stats.counts.Get(post.current.value) && 1 <= post.stats.total
  {
    assert viewer in Who(r, r[viewer]);
    assert viewer in r.Keys;
  }

  lemma EveryoneReactsSomehow(r: Reactions)
    ensures r.Keys == Who(r, LIKE) + Who(r, LOVE) + Who(r, HAHA) + Who(r, WOW) + Who(r, SAD) + Who(r, ANGRY)
  {
    forall u | u in r.Keys ensures u in Who(r, r[u]) {}
  }

  lemma OneMoreKind(r: Reactions, some: set<string>, t: Reaction)
    requires forall u :: u in some ==> u in r && r[u] != t
    ensures |some + Who(r, t)| == |some| + |Who(r, t)|
  {
    assert some !! Who(r, t);
  }

  /** The total is the sum of the six counters. */
  lemma TotalIsSum(s: Stats, r: Reactions)
    requires Tallies(s, r)
    ensures s.total == s.counts.Sum()
  {
    EveryoneReactsSomehow(r);
    assert forall t :: s.counts.Get(t) == |Who(r, t)|;
    OneMoreKind(r, Who(r, LIKE), LOVE);
    OneMoreKind(r, Who(r, LIKE) + Who(r, LOVE), HAHA);
    OneMoreKind(r, Who(r, LIKE) + Who(r, LOVE) + Who(r, HAHA), WOW);
    OneMoreKind(r, Who(r, LIKE) + Who(r, LOVE) + Who(r, HAHA) + Who(r, WOW), SAD);
    OneMoreKind(r, Who(r, LIKE) + Who(r, LOVE) + Who(r, HAHA) + Who(r, WOW) + Who(r, SAD), ANGRY);
    assert |r| == |r.Keys|;
  }

  lemma TallyIsUnique(s: Stats, s': Stats, r: Reactions)
    requires Tallies(s, r) && Tallies(s', r) && s.commentCount == s'.commentCount && s.shareCount == s'.shareCount
    ensures s == s'
  {
    forall t ensures s.counts.Get(t) == s'.counts.Get(t) {}
    SameCounts(s.counts, s'.counts);
  }

  function ApplyAll(post: Post, choices: seq<Option<Reaction>>): Post
    decreases choices
  {
    if choices == [] then post else ApplyAll(ApplyOptimisticReaction(post, choices[0]), choices[1..])
  }

  lemma SecondChoiceDecides(post: Post, r: Reactions, viewer: string, a: Option<Reaction>, b: Option<Reaction>)
    requires Shows(post, r, viewer)
    ensures ApplyOptimisticReaction(ApplyOptimisticReaction(post, a), b) == ApplyOptimisticReaction(post, b)
  {
    var mid, r1 := ApplyOptimisticReaction(post, a), React(r, viewer, a);
    OptimisticIsRecount(post, r, viewer, a);
    OptimisticIsRecount(mid, r1, viewer, b);
    OptimisticIsRecount(post, r, viewer, b);
    ReactTwice(r, viewer, a, b);
    ShowsIsUnique(ApplyOptimisticReaction(mid, b), ApplyOptimisticReaction(post, b), React(r, viewer, b), viewer);
  }

  lemma ReactTwice(r: Reactions, viewer: string, a: Option<Reaction>, b: Option<Reaction>)
    ensures React(React(r, viewer, a), viewer, b) == React(r, viewer, b)
  {
  }

  lemma ShowsIsUnique(p: Post, q: Post, r: Reactions, viewer: string)
    requires Shows(p, r, viewer) && Shows(q, r, viewer) && p.id == q.id && p.content == q.content
    requires p.stats.commentCount == q.stats.commentCount && p.stats.shareCount == q.stats.shareCount
    ensures p == q
  {
    TallyIsUnique(p.stats, q.stats, r);
  }

  /** A run of choices shows what its last one alone would, so clicking back restores the post. */
  lemma {:induction false} LastChoiceDecides(post: Post, r: Reactions, viewer: string, choices: seq<Option<Reaction>>)
    requires Shows(post, r, viewer) && choices != []
    ensures ApplyAll(post, choices) == ApplyOptimisticReaction(post, choices[|choices| - 1])
    ensures choices[|choices| - 1] == post.current ==> ApplyAll(post, choices) == post
    decreases choices
  {
    var next := ApplyOptimisticReaction(post, choices[0]);
    var last := choices[|choices| - 1];
    OptimisticIsRecount(post, r, viewer, choices[0]);
    if |choices| > 1 {
      assert choices[1..][|choices| - 2] == last;
      LastChoiceDecides(next, React(r, viewer, choices[0]), viewer, choices[1..]);
      SecondChoiceDecides(post, r, viewer, choices[0], last);
    } else {
      assert choices[1..] == [];
    }
  }

  lemma CountsThereAndBack(c: Counts, t: Reaction, next: Option<Reaction>)
    requires next != Some(t)
    ensures CountsAfter(CountsAfter(c, Some(t), next), next, Some(t)) == c <==> 1 <= c.Get(t)
  {
    var there := CountsAfter(c, Some(t), next);
    var back := CountsAfter(there, next, Some(t));
    forall u ensures back.Get(u) == if u == t then Less(c.Get(t)) + 1 else c.Get(u) {
      CountsAfterAt(c, Some(t), next, u);
      CountsAfterAt(there, next, Some(t), u);
    }
    if 1 <= c.Get(t) {
      SameCounts(back, c);
    }
  }

  /** For counters that are no tally: choosing and clicking back restores the post exactly when no
      clamp bound, that is, the reaction given up was counted. */
  lemma ClickingBackRestoresExactlyWhen(post: Post, next: Option<Reaction>)
    ensures ApplyOptimisticReaction(ApplyOptimisticReaction(post, next), post.current) == post
      <==> post.current.None? || next == post.current
           || (1 <= post.stats.counts.Get(post.current.value) && (next.None? ==> 1 <= post.stats.total))
  {
    if post.current.Some? && next != post.current {
      CountsThereAndBack(post.stats.counts, post.current.value, next);
    }
  }

  // ---- The paged feed ----

  datatype Page = Page(items: seq<Post>, nextCursor: Option<string>)

  function UpdateItems(items: seq<Post>, id: string, updater: Post -> Post): (r: seq<Post>)
    ensures |r| == |items|
    ensures forall i :: 0 <= i < |items| ==> r[i] == if items[i].id == id then updater(items[i]) else items[i]
  {
    seq(|items|, i requires 0 <= i < |items| => if items[i].id == id then updater(items[i]) else items[i])
  }

  function UpdatePostInFeed(pages: seq<Page>, id: string, updater: Post -> Post): (r: seq<Page>)
    ensures |r| == |pages|
    ensures forall i :: 0 <= i < |pages| ==> r[i] == Page(UpdateItems(pages[i].items, id, updater), pages[i].nextCursor)
  {
    seq(|pages|, i requires 0 <= i < |pages| => Page(UpdateItems(pages[i].items, id, updater), pages[i].nextCursor))
  }

  /** Every copy of the post in the feed agrees with the reactions. */
  ghost predicate FeedShows(pages: seq<Page>, id: string, r: Reactions, viewer: string) {
    forall i, j :: 0 <= i < |pages| && 0 <= j < |pages[i].items| && pages[i].items[j].id == id ==>
      Shows(pages[i].items[j], r, viewer)
  }

  predicate SamePageBut(before: Page, after: Page, id: string) {
    && after.nextCursor == before.nextCursor && |after.items| == |before.items|
    && forall j :: 0 <= j < |before.items| && before.items[j].id != id ==> after.items[j] == before.items[j]
  }

  /** The mutation's effect on the cached feed: every copy of the post agrees with the reactions after
      the choice, every other post, the pages and the cursors are as before, and the choice that was
      current restores the feed. */
  lemma FeedUpdateHolds(pages: seq<Page>, id: string, r: Reactions, viewer: string, next: Option<Reaction>)
    requires FeedShows(pages, id, r, viewer)
    ensures var after := UpdatePostInFeed(pages, id, p => ApplyOptimisticReaction(p, next));
      var current := if viewer in r then Some(r[viewer]) else None;
      && FeedShows(after, id, React(r, viewer, next), viewer)
      && (forall i :: 0 <= i < |pages| ==> SamePageBut(pages[i], after[i], id))
      && UpdatePostInFeed(after, id, p => ApplyOptimisticReaction(p, current)) == pages
  {
    var after := UpdatePostInFeed(pages, id, p => ApplyOptimisticReaction(p, next));
    var current := if viewer in r then Some(r[viewer]) else None;
    var back := UpdatePostInFeed(after, id, p => ApplyOptimisticReaction(p, current));
    forall i, j | 0 <= i < |pages| && 0 <= j < |pages[i].items|
      ensures after[i].items[j].id == pages[i].items[j].id
      ensures pages[i].items[j].id == id ==> Shows(after[i].items[j], React(r, viewer, next), viewer)
      ensures back[i].items[j] == pages[i].items[j]
    {
      var post := pages[i].items[j];
      if post.id == id {
        OptimisticIsRecount(post, r, viewer, next);
        ClickingBackRestoresExactlyWhen(post, next);
        if post.current.Some? {
          ClampsNeverBind(post, r, viewer);
        }
      }
    }
    forall i | 0 <= i < |pages| ensures back[i] == pages[i] {
      assert back[i].items == pages[i].items;
    }
    assert back == pages;
  }
}

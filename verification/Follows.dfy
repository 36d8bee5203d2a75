/** The follow graph with its denormalised counters, under interleaved checks and writes. */
module Follows {
  import opened Texts

  datatype Pair = Pair(follower: string, following: string)

  datatype Counts = Counts(followers: int, following: int)

  datatype Store = Store(edges: set<Pair>, users: map<string, Counts>)

  datatype Error = UsersRequired | SelfFollow | UserNotFound | DuplicateField | ResourceConflict | RecordNotFound

  datatype Result<T> = Ok(value: T) | Err(error: Error)

  datatype Status = Status(isFollowing: bool, followerCount: int, followingCount: int)

  /** The value object: both ids trimmed, none empty, and never the same. */
  function CreatePair(followerId: string, followingId: string): (r: Result<Pair>)
    ensures r.Ok? ==> r.value.follower != r.value.following && r.value.follower != "" && r.value.following != ""
    ensures r.Ok? ==> IsTrimmed(followerId, r.value.follower) && IsTrimmed(followingId, r.value.following)
    ensures r == Err(SelfFollow) <==> Trim(followerId) == Trim(followingId) != ""
    ensures r == Err(UsersRequired) <==> AllSpace(followerId) || AllSpace(followingId)
  {
    TrimHolds(followerId);
    TrimHolds(followingId);
    AllSpaceTrims(followerId);
    AllSpaceTrims(followingId);
    var a, b := Trim(followerId), Trim(followingId);
    if a == "" || b == "" then Err(UsersRequired)
    else if a == b then Err(SelfFollow)
    else Ok(Pair(a, b))
  }

  function Bump(users: map<string, Counts>, p: Pair, delta: int): map<string, Counts>
    requires p.follower in users && p.following in users
  {
    var up := users[p.follower := users[p.follower].(following := users[p.follower].following + delta)];
    up[p.following := up[p.following].(followers := up[p.following].followers + delta)]
  }

  /** The writes after the check found no edge: the unique key, the foreign keys and the counters'
      rows decide; an error undoes everything. */
  function AddEdge(s: Store, p: Pair): Result<Store> {
    if p in s.edges then Err(DuplicateField)
    else if p.follower !in s.users || p.following !in s.users then Err(ResourceConflict)
    else Ok(Store(s.edges + {p}, Bump(s.users, p, 1)))
  }

  /** The writes after the check found the edge. */
  function RemoveEdge(s: Store, p: Pair): Result<Store> {
    if p !in s.edges then Err(RecordNotFound)
    else if p.follower !in s.users || p.following !in s.users then Err(RecordNotFound)
    else Ok(Store(s.edges - {p}, Bump(s.users, p, -1)))
  }

  function StatusOf(s: Store, p: Pair): Status
    requires p.following in s.users
  {
    Status(p in s.edges, s.users[p.following].followers, s.users[p.following].following)
  }

  // ---- Degrees ----

  function Into(edges: set<Pair>, u: string): set<Pair> {
    set e | e in edges && e.following == u
  }

  function OutOf(edges: set<Pair>, u: string): set<Pair> {
    set e | e in edges && e.follower == u
  }

  ghost predicate CountersMatch(s: Store) {
    forall u :: u in s.users ==> s.users[u] == Counts(|Into(s.edges, u)|, |OutOf(s.edges, u)|)
  }

  /** Every counter is the degree it stands for, and no edge leaves the users or loops. */
  ghost predicate Sound(s: Store) {
    && (forall e :: e in s.edges ==> e.follower in s.users && e.following in s.users && e.follower != e.following)
    && CountersMatch(s)
  }

  lemma DegreesOfOneMore(edges: set<Pair>, p: Pair, u: string)
    requires p !in edges
    ensures |Into(edges + {p}, u)| == |Into(edges, u)| + if u == p.following then 1 else 0
    ensures |OutOf(edges + {p}, u)| == |OutOf(edges, u)| + if u == p.follower then 1 else 0
  {
    assert Into(edges + {p}, u) == if u == p.following then Into(edges, u) + {p} else Into(edges, u);
    assert OutOf(edges + {p}, u) == if u == p.follower then OutOf(edges, u) + {p} else OutOf(edges, u);
  }

  lemma AddEdgeKeepsSound(s: Store, p: Pair)
    requires Sound(s) && p.follower != p.following
    requires AddEdge(s, p).Ok?
    ensures Sound(AddEdge(s, p).value)
  {
    var s' := AddEdge(s, p).value;
    forall u | u in s'.users ensures s'.users[u] == Counts(|Into(s'.edges, u)|, |OutOf(s'.edges, u)|) {
      DegreesOfOneMore(s.edges, p, u);
    }
  }

  lemma RemoveEdgeKeepsSound(s: Store, p: Pair)
    requires Sound(s) && RemoveEdge(s, p).Ok?
    ensures Sound(RemoveEdge(s, p).value)
  {
    var s' := RemoveEdge(s, p).value;
    assert s'.edges + {p} == s.edges;
    forall u | u in s'.users ensures s'.users[u] == Counts(|Into(s'.edges, u)|, |OutOf(s'.edges, u)|) {
      DegreesOfOneMore(s'.edges, p, u);
    }
  }

  /** A follow moves two counters by one: the followers of the one followed and the followings of the one who
      follows. An unfollow moves the same two back. */
  lemma TwoCountersMove(s: Store, p: Pair, delta: int, s': Store)
    requires (delta == 1 && AddEdge(s, p) == Ok(s')) || (delta == -1 && RemoveEdge(s, p) == Ok(s'))
    ensures s'.edges == if delta == 1 then s.edges + {p} else s.edges - {p}
    ensures s'.users.Keys == s.users.Keys
    ensures forall u :: u in s.users ==>
      && s'.users[u].followers == s.users[u].followers + (if u == p.following then delta else 0)
      && s'.users[u].following == s.users[u].following + (if u == p.follower then delta else 0)
  {
  }

  /** What a request is told: whether it follows, by how many the other is followed, and how many the other
      follows. */
  lemma StatusIsTrue(s: Store, p: Pair)
    requires Sound(s) && p.following in s.users
    ensures StatusOf(s, p).isFollowing <==> p in s.edges
    ensures StatusOf(s, p).followerCount == |set e | e in s.edges && e.following == p.following|
    ensures StatusOf(s, p).followingCount == |set e | e in s.edges && e.follower == p.following|
  {
    assert Into(s.edges, p.following) == set e | e in s.edges && e.following == p.following;
    assert OutOf(s.edges, p.following) == set e | e in s.edges && e.follower == p.following;
  }

  /** Following a new user and then unfollowing restores the store, counters included. */
  lemma FollowThenUnfollow(s: Store, p: Pair)
    requires AddEdge(s, p).Ok?
    ensures RemoveEdge(AddEdge(s, p).value, p) == Ok(s)
  {
    var s1 := AddEdge(s, p).value;
    var s2 := RemoveEdge(s1, p).value;
    assert s2.users.Keys == s.users.Keys;
    forall u | u in s.users ensures s2.users[u] == s.users[u] {}
    assert s2.users == s.users;
    assert s2.edges == s.edges;
  }

  // ---- The repository ----

  class FollowRepository {
    var edges: set<Pair>
    var users: map<string, Counts>

    constructor (users: set<string>)
      ensures State() == Store({}, map u | u in users :: Counts(0, 0))
    {
      edges := {};
      this.users := map u | u in users :: Counts(0, 0);
    }

    function State(): Store
      reads this
    {
      Store(edges, users)
    }

    method UpdateFollowCounts(p: Pair, delta: int) returns (ok: bool)
      modifies this
      ensures edges == old(edges)
      ensures ok <==> p.follower in old(users) && p.following in old(users)
      ensures ok ==> users == Bump(old(users), p, delta)
    {
      if p.follower !in users {
        return false;
      }
      users := users[p.follower := users[p.follower].(following := users[p.follower].following + delta)];
      if p.following !in users {
        return false;
      }
      users := users[p.following := users[p.following].(followers := users[p.following].followers + delta)];
      return true;
    }

    /** The follow transaction, run without interruption. */
    method Follow(followerId: string, followingId: string) returns (r: Result<Status>)
      modifies this
      ensures match CreatePair(followerId, followingId)
        case Err(e) => r == Err(e) && State() == old(State())
        case Ok(p) =>
          if p.following !in old(users) then r == Err(UserNotFound) && State() == old(State())
          else if p in old(edges) then State() == old(State()) && r == Ok(StatusOf(old(State()), p))
          else match AddEdge(old(State()), p)
            case Err(e) => r == Err(e) && State() == old(State())
            case Ok(s) => State() == s && r == Ok(StatusOf(s, p))
    {
      var pair := CreatePair(followerId, followingId);
      if pair.Err? {
        return Err(pair.error);
      }
      var p := pair.value;
      if p.following !in users {
        return Err(UserNotFound);
      }
      if p !in edges {
        if p.follower !in users {
          return Err(ResourceConflict); // the new row's foreign key
        }
        edges := edges + {p};
        var _ := UpdateFollowCounts(p, 1);
      }
      r := Ok(StatusOf(State(), p));
    }

    /** The unfollow transaction, run without interruption. */
    method Unfollow(followerId: string, followingId: string) returns (r: Result<Status>)
      modifies this
      ensures match CreatePair(followerId, followingId)
        case Err(e) => r == Err(e) && State() == old(State())
        case Ok(p) =>
          if p.following !in old(users) then r == Err(UserNotFound) && State() == old(State())
          else if p !in old(edges) then State() == old(State()) && r == Ok(StatusOf(old(State()), p))
          else match RemoveEdge(old(State()), p)
            case Err(e) => r == Err(e) && State() == old(State())
            case Ok(s) => State() == s && r == Ok(StatusOf(s, p))
    {
      var pair := CreatePair(followerId, followingId);
      if pair.Err? {
        return Err(pair.error);
      }
      var p := pair.value;
      if p.following !in users {
        return Err(UserNotFound);
      }
      if p in edges {
        var before, usersBefore := edges, users;
        edges := edges - {p};
        var ok := UpdateFollowCounts(p, -1);
        if !ok {
          edges, users := before, usersBefore; // rolled back
          return Err(RecordNotFound);
        }
      }
      r := Ok(StatusOf(State(), p));
    }
  }

  // ---- Interleaved requests: one step is one check, or the writes that follow it ----

  type Request = nat

  datatype Flight =
    | Asked(follow: bool, pair: Pair)                 // before the status look-up of the service
    | Checking(follow: bool, pair: Pair)              // inside its transaction, before the existence checks
    | Writing(follow: bool, pair: Pair)               // the checks called for a write
    | Finished(result: Result<bool>)                  // whether the follower follows

  datatype World = World(s: Store, flights: map<Request, Flight>)

  datatype Event =
    | Ask(request: Request, follow: bool, followerId: string, followingId: string)
    | Advance(request: Request)
    | AddUser(user: string)

  function Next(w: World, e: Event): World {
    match e
    case Ask(r, follow, a, b) =>
      if r in w.flights then w
      else (match CreatePair(a, b)
        case Err(err) => w.(flights := w.flights[r := Finished(Err(err))])
        case Ok(p) => w.(flights := w.flights[r := if follow then Asked(true, p) else Checking(false, p)]))
    case AddUser(u) => if u in w.s.users then w else w.(s := w.s.(users := w.s.users[u := Counts(0, 0)]))
    case Advance(r) =>
      if r !in w.flights then w else
      match w.flights[r]
      case Asked(follow, p) =>
        if p.following !in w.s.users then w.(flights := w.flights[r := Finished(Err(UserNotFound))])
        else if p in w.s.edges then w.(flights := w.flights[r := Finished(Ok(true))])
        else w.(flights := w.flights[r := Checking(follow, p)])
      case Checking(follow, p) =>
        if p.following !in w.s.users then w.(flights := w.flights[r := Finished(Err(UserNotFound))])
        else if (p in w.s.edges) == follow then w.(flights := w.flights[r := Finished(Ok(follow))])
        else w.(flights := w.flights[r := Writing(follow, p)])
      case Writing(follow, p) =>
        (match if follow then AddEdge(w.s, p) else RemoveEdge(w.s, p)
         case Ok(s) => World(s, w.flights[r := Finished(Ok(follow))])
         case Err(e) => w.(flights := w.flights[r := Finished(Err(e))]))
      case Finished(_) => w
  }

  function Run(w: World, events: seq<Event>): World
    decreases events
  {
    if events == [] then w else Run(Next(w, events[0]), events[1..])
  }

  ghost predicate NoSelfPairs(w: World) {
    forall r :: r in w.flights && !w.flights[r].Finished? ==> w.flights[r].pair.follower != w.flights[r].pair.following
  }

  lemma NewUserKeepsSound(s: Store, u: string)
    requires Sound(s) && u !in s.users
    ensures Sound(s.(users := s.users[u := Counts(0, 0)]))
  {
    assert Into(s.edges, u) == {} && OutOf(s.edges, u) == {};
  }

  lemma NextKeepsEdges(w: World, e: Event)
    requires Sound(w.s) && NoSelfPairs(w)
    ensures Sound(Next(w, e).s)
  {
    match e
    case Advance(r) =>
      if r in w.flights && w.flights[r].Writing? {
        if w.flights[r].follow && AddEdge(w.s, w.flights[r].pair).Ok? {
          AddEdgeKeepsSound(w.s, w.flights[r].pair);
        } else if !w.flights[r].follow && RemoveEdge(w.s, w.flights[r].pair).Ok? {
          RemoveEdgeKeepsSound(w.s, w.flights[r].pair);
        }
      }
    case AddUser(u) =>
      if u !in w.s.users {
        NewUserKeepsSound(w.s, u);
      }
    case Ask(r, follow, a, b) =>
  }

  lemma NextKeepsPairs(w: World, e: Event)
    requires NoSelfPairs(w)
    ensures NoSelfPairs(Next(w, e))
  {
  }

  lemma NextKeepsSound(w: World, e: Event)
    requires Sound(w.s) && NoSelfPairs(w)
    ensures Sound(Next(w, e).s) && NoSelfPairs(Next(w, e))
  {
    NextKeepsEdges(w, e);
    NextKeepsPairs(w, e);
  }

  /** In every run, however checks and writes of different requests interleave, every counter is the
      degree it stands for: no decrement ever goes below zero and no edge loops. */
  lemma {:induction false} CountersAreDegrees(w: World, events: seq<Event>)
    requires Sound(w.s) && NoSelfPairs(w)
    ensures Sound(Run(w, events).s) && NoSelfPairs(Run(w, events))
    ensures var s := Run(w, events).s; forall u :: u in s.users ==>
      && 0 <= s.users[u].followers == |set e | e in s.edges && e.following == u|
      && 0 <= s.users[u].following == |set e | e in s.edges && e.follower == u|
    decreases events
  {
    if events != [] {
      NextKeepsSound(w, events[0]);
      CountersAreDegrees(Next(w, events[0]), events[1..]);
    } else {
      forall u | u in w.s.users
        ensures Into(w.s.edges, u) == set e | e in w.s.edges && e.following == u
        ensures OutOf(w.s.edges, u) == set e | e in w.s.edges && e.follower == u
      {
      }
    }
  }

  /** A request that ends well is told the truth: at that moment there is an edge exactly if it asked to
      follow. The user is unknown exactly if the one to be followed is, when a check looks. */
  lemma AnswerIsTrue(w: World, r: Request)
    requires r in w.flights && !w.flights[r].Finished?
    ensures var w', p := Next(w, Advance(r)), w.flights[r].pair;
      && r in w'.flights
      && (w'.flights[r].Finished? && w'.flights[r].result.Ok? ==>
            w'.flights[r].result.value == w.flights[r].follow || (w.flights[r].Asked? && w'.flights[r].result.value))
      && (w'.flights[r].Finished? && w'.flights[r].result.Ok? ==>
            (w'.flights[r].result.value <==> p in w'.s.edges))
      && (w'.flights[r] == Finished(Err(UserNotFound)) <==> !w.flights[r].Writing? && p.following !in w.s.users)
      && (!w.flights[r].Writing? ==> w'.s == w.s)
  {
  }

  /** The write of a request whose check was overtaken fails and changes nothing: exactly when another
      request has made, or undone, the same edge meanwhile. */
  lemma OvertakenWriteFails(w: World, r: Request)
    requires Sound(w.s) && r in w.flights && w.flights[r].Writing?
    requires w.flights[r].pair.follower in w.s.users && w.flights[r].pair.following in w.s.users
    ensures var w', p, follow := Next(w, Advance(r)), w.flights[r].pair, w.flights[r].follow;
      if (p in w.s.edges) == follow then
        w'.s == w.s && w'.flights[r] == Finished(Err(if follow then DuplicateField else RecordNotFound))
      else
        w'.flights[r] == Finished(Ok(follow)) && w'.s.edges == if follow then w.s.edges + {p} else w.s.edges - {p}
  {
  }

  // ---- Totals ----

  ghost function TotalFollowers(s: Store, users: set<string>): int
    requires users <= s.users.Keys
    decreases users
  {
    if users == {} then 0 else
      var u :| u in users;
      s.users[u].followers + TotalFollowers(s, users - {u})
  }

  ghost function TotalFollowing(s: Store, users: set<string>): int
    requires users <= s.users.Keys
    decreases users
  {
    if users == {} then 0 else
      var u :| u in users;
      s.users[u].following + TotalFollowing(s, users - {u})
  }

  function IntoAny(edges: set<Pair>, users: set<string>): set<Pair> {
    set e | e in edges && e.following in users
  }

  function OutOfAny(edges: set<Pair>, users: set<string>): set<Pair> {
    set e | e in edges && e.follower in users
  }

  lemma OneMoreUser(edges: set<Pair>, users: set<string>, u: string)
    requires u in users
    ensures |IntoAny(edges, users)| == |IntoAny(edges, users - {u})| + |Into(edges, u)|
    ensures |OutOfAny(edges, users)| == |OutOfAny(edges, users - {u})| + |OutOf(edges, u)|
  {
    assert IntoAny(edges, users) == IntoAny(edges, users - {u}) + Into(edges, u);
    assert IntoAny(edges, users - {u}) !! Into(edges, u);
    assert OutOfAny(edges, users) == OutOfAny(edges, users - {u}) + OutOf(edges, u);
    assert OutOfAny(edges, users - {u}) !! OutOf(edges, u);
  }

  lemma {:induction false} FollowersAddUp(s: Store, users: set<string>)
    requires CountersMatch(s) && users <= s.users.Keys
    ensures TotalFollowers(s, users) == |IntoAny(s.edges, users)|
    decreases users
  {
    if users == {} {
      assert IntoAny(s.edges, users) == {};
    } else {
      var u :| u in users && TotalFollowers(s, users) == s.users[u].followers + TotalFollowers(s, users - {u});
      FollowersAddUp(s, users - {u});
      OneMoreUser(s.edges, users, u);
    }
  }

  lemma {:induction false} FollowingsAddUp(s: Store, users: set<string>)
    requires CountersMatch(s) && users <= s.users.Keys
    ensures TotalFollowing(s, users) == |OutOfAny(s.edges, users)|
    decreases users
  {
    if users == {} {
      assert OutOfAny(s.edges, users) == {};
    } else {
      var u :| u in users && TotalFollowing(s, users) == s.users[u].following + TotalFollowing(s, users - {u});
      FollowingsAddUp(s, users - {u});
      OneMoreUser(s.edges, users, u);
    }
  }

  /** Followers and followings both add up to the number of edges. */
  lemma BothTotalsAreTheEdges(s: Store)
    requires Sound(s)
    ensures TotalFollowers(s, s.users.Keys) == |s.edges| == TotalFollowing(s, s.users.Keys)
  {
    FollowersAddUp(s, s.users.Keys);
    FollowingsAddUp(s, s.users.Keys);
    assert IntoAny(s.edges, s.users.Keys) == s.edges;
    assert OutOfAny(s.edges, s.users.Keys) == s.edges;
  }
}

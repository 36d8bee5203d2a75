/** Refresh-token rotation as a transition system: in-flight refreshes take their awaits one at a
    time, interleaved with logins, logouts, password resets, account changes and the clock. */
module RefreshProtocol {
  import opened Common
  import opened Sessions

  datatype Outcome = Success(id: SessionId, next: Hash) | InvalidToken | ReuseDetected(account: AccountId) | StoreError

  // Where a refresh stands between two awaits. `hash` is the hash of the presented token and
  // `payloadId` the account its signature names.
  datatype Flight =
    | Presented(hash: Hash, payloadId: AccountId)
    | Missing(hash: Hash, payloadId: AccountId)
    | Found(id: SessionId, hash: Hash, payloadId: AccountId, expiresAt: int)
    | AccountChecked(id: SessionId, hash: Hash, payloadId: AccountId, expiresAt: int)
    | Lost(payloadId: AccountId)
    | Done(outcome: Outcome)

  datatype Account = Account(disabled: bool)

  /** One await of a refresh: the store it leaves, and where the refresh stands then. */
  ghost function FlightStep(db: Store, accounts: map<AccountId, Account>, now: int, f: Flight,
                            next: Hash, nextExpiresAt: int): (Store, Flight)
  {
    match f
    case Presented(h, p) =>
      if !HasHash(db, h) then (db, Missing(h, p))
      else
        var s := db.sessions[WithHash(db, h)];
        if s.account == p && s.IsActive(now) then (db, Found(WithHash(db, h), h, p, s.expiresAt))
        else (db, Done(InvalidToken))
    case Missing(h, p) =>
      if RotatedBy(db, h, p) then (RevokeByAccount(db, p, REFRESH_TOKEN_REUSE, now), Done(ReuseDetected(p)))
      else (db, Done(InvalidToken))
    case Found(id, h, p, e) =>
      if p in accounts && !accounts[p].disabled then (db, AccountChecked(id, h, p, e)) else (db, Done(InvalidToken))
    case AccountChecked(id, h, p, e) =>
      (match Rotate(db, id, h, e, next, nextExpiresAt, now)
       case Rotated(db') => (db', Done(Success(id, next)))
       case NotCurrent => (db, Lost(p))
       case Duplicate => (db, Done(StoreError)))
    case Lost(p) => (RevokeByAccount(db, p, REFRESH_TOKEN_REUSE, now), Done(ReuseDetected(p)))
    case Done(_) => (db, f)
  }

  ghost predicate RotatedBy(db: Store, h: Hash, account: AccountId) {
    h in db.rotated && db.rotated[h].sessionId in db.sessions && db.sessions[db.rotated[h].sessionId].account == account
  }

  type Request = nat

  // `chains` is a history variable: every hash each session has had, in order.
  datatype World = World(db: Store, accounts: map<AccountId, Account>, flights: map<Request, Flight>, now: int,
                         chains: map<SessionId, seq<Hash>>)

  datatype Event =
    | Tick(elapsed: nat)
    | SetAccount(account: AccountId, disabled: bool)
    | SignIn(account: AccountId, deviceId: Option<string>, reason: Reason, id: SessionId, hash: Hash, expiresAt: int)
    | LogOut(hash: Hash)
    | ResetPassword(account: AccountId)
    | Present(request: Request, hash: Hash, payloadId: AccountId)
    | Advance(request: Request, next: Hash, nextExpiresAt: int)

  const Start := World(Store(map[], map[]), map[], map[], 0, map[])

  ghost function Next(w: World, e: Event): World {
    match e
    case Tick(elapsed) => w.(now := w.now + elapsed)
    case SetAccount(a, disabled) => w.(accounts := w.accounts[a := Account(disabled)])
    case SignIn(a, device, reason, id, h, expires) =>
      (match Issue(w.db, a, device, reason, id, h, expires, w.now)
       case None => w
       case Some(db) => w.(db := db, chains := w.chains[id := [h]]))
    case LogOut(h) => w.(db := RevokeByHash(w.db, h, LOGOUT, w.now))
    case ResetPassword(a) => w.(db := RevokeByAccount(w.db, a, PASSWORD_RESET, w.now))
    case Present(r, h, p) => if r in w.flights then w else w.(flights := w.flights[r := Presented(h, p)])
    case Advance(r, next, expires) =>
      if r !in w.flights then w else
      var (db, f) := FlightStep(w.db, w.accounts, w.now, w.flights[r], next, expires);
      w.(db := db, flights := w.flights[r := f],
         chains := if Rotates(w, e) then w.chains[f.outcome.id := Chain(w, f.outcome.id) + [next]] else w.chains)
  }

  function Chain(w: World, id: SessionId): seq<Hash> {
    if id in w.chains then w.chains[id] else []
  }

  /** The event is the commit of a successful rotation. */
  ghost predicate Rotates(w: World, e: Event) {
    && e.Advance? && e.request in w.flights && w.flights[e.request].AccountChecked?
    && FlightStep(w.db, w.accounts, w.now, w.flights[e.request], e.next, e.nextExpiresAt).1.Done?
    && FlightStep(w.db, w.accounts, w.now, w.flights[e.request], e.next, e.nextExpiresAt).1.outcome.Success?
  }

  ghost function Run(w: World, events: seq<Event>): World
    decreases events
  {
    if events == [] then w else Run(Next(w, events[0]), events[1..])
  }

  lemma {:induction false} RunSplit(w: World, a: seq<Event>, b: seq<Event>)
    ensures Run(w, a + b) == Run(Run(w, a), b)
    decreases a
  {
    if a == [] {
      assert a + b == b;
    } else {
      assert (a + b)[0] == a[0] && (a + b)[1..] == a[1..] + b;
      RunSplit(Next(w, a[0]), a[1..], b);
    }
  }

  /** The event is a sign-in that creates its session. */
  ghost predicate SignsIn(w: World, e: Event) {
    e.SignIn? && Issue(w.db, e.account, e.deviceId, e.reason, e.id, e.hash, e.expiresAt, w.now).Some?
  }

  /** The hash that a sign-in or a rotation brings into the store, if it does, was never in use. */
  ghost predicate Fresh(w: World, e: Event) {
    && (SignsIn(w, e) ==> Unseen(w.db, e.hash))
    && (Rotates(w, e) ==> Unseen(w.db, e.next))
  }

  ghost predicate Unseen(db: Store, h: Hash) {
    !HasHash(db, h) && h !in db.rotated
  }

  ghost predicate FreshRun(w: World, events: seq<Event>)
    decreases events
  {
    events == [] || (Fresh(w, events[0]) && FreshRun(Next(w, events[0]), events[1..]))
  }

  // ---- What every event keeps, fresh hashes or not ----

  ghost predicate ChainsMatch(w: World) {
    && w.chains.Keys == w.db.sessions.Keys
    && (forall id :: id in w.chains ==>
      |w.chains[id]| > 0 && w.chains[id][|w.chains[id]| - 1] == w.db.sessions[id].hash)
  }

  // Every hash but the last was rotated by this session, each once.
  ghost predicate Recorded(chain: seq<Hash>, rotated: map<Hash, RotatedToken>, id: SessionId) {
    && (forall i :: 0 <= i < |chain| - 1 ==> chain[i] in rotated && rotated[chain[i]].sessionId == id)
    && (forall i, j :: 0 <= i < j < |chain| - 1 ==> chain[i] != chain[j])
  }

  ghost predicate PastHas(chain: seq<Hash>, h: Hash) {
    exists i :: 0 <= i < |chain| - 1 && chain[i] == h
  }

  /** A session's rotated hashes are the hashes of its chain before the last, each once. */
  ghost predicate RotatedMatchesChains(w: World) {
    && (forall id :: id in w.chains ==> Recorded(w.chains[id], w.db.rotated, id))
    && (forall h :: h in w.db.rotated ==>
          w.db.rotated[h].sessionId in w.chains && PastHas(w.chains[w.db.rotated[h].sessionId], h))
  }

  /** The flight knows a session of its account that has had its hash. */
  ghost predicate FlightMatches(w: World, f: Flight) {
    f.Found? || f.AccountChecked? ==>
      f.id in w.db.sessions && w.db.sessions[f.id].account == f.payloadId && f.hash in Chain(w, f.id)
  }

  /** What a flight saw stays true of the chain of its session. */
  ghost predicate FlightsMatch(w: World) {
    forall r :: r in w.flights ==> FlightMatches(w, w.flights[r])
  }

  ghost predicate Inv(w: World) {
    Consistent(w.db) && ChainsMatch(w) && RotatedMatchesChains(w) && FlightsMatch(w)
  }

  // Everything but a sign-in and a rotation leaves who has which hash alone.
  ghost predicate HashesKept(db: Store, db': Store) {
    && db'.rotated == db.rotated && db'.sessions.Keys == db.sessions.Keys
    && (forall id :: id in db.sessions ==>
          db'.sessions[id].hash == db.sessions[id].hash && db'.sessions[id].account == db.sessions[id].account)
  }

  lemma OtherEventsKeepHashes(w: World, e: Event)
    requires !e.SignIn? && !Rotates(w, e)
    ensures HashesKept(w.db, Next(w, e).db) && Next(w, e).chains == w.chains
  {
  }

  lemma HashesKeptKeepsChains(w: World, w': World)
    requires Consistent(w.db) && ChainsMatch(w) && RotatedMatchesChains(w)
    requires HashesKept(w.db, w'.db) && w'.chains == w.chains
    ensures Consistent(w'.db) && ChainsMatch(w') && RotatedMatchesChains(w')
  {
  }

  // Only the flight that takes its await changes, and what it learns is true.
  lemma AwaitKeepsFlight(w: World, e: Event)
    requires ChainsMatch(w) && e.Advance? && e.request in w.flights && FlightMatches(w, w.flights[e.request])
    ensures FlightMatches(w, Next(w, e).flights[e.request])
  {
    if w.flights[e.request].Presented? && HasHash(w.db, w.flights[e.request].hash) {
      var id := WithHash(w.db, w.flights[e.request].hash);
      assert w.chains[id][|w.chains[id]| - 1] == w.flights[e.request].hash;
    }
  }

  lemma OtherEventsKeepFlights(w: World, e: Event)
    requires ChainsMatch(w) && FlightsMatch(w) && !e.SignIn? && !Rotates(w, e)
    ensures FlightsMatch(Next(w, e))
  {
    OtherEventsKeepHashes(w, e);
    var w' := Next(w, e);
    forall r | r in w'.flights
      ensures FlightMatches(w', w'.flights[r])
    {
      if e.Advance? && e.request == r {
        AwaitKeepsFlight(w, e);
      } else if r in w.flights {
        assert FlightMatches(w, w.flights[r]);
      }
      assert FlightMatches(w, w'.flights[r]);
    }
  }

  lemma SignInKeepsInv(w: World, e: Event)
    requires Inv(w) && e.SignIn?
    ensures Inv(Next(w, e))
  {
    match Issue(w.db, e.account, e.deviceId, e.reason, e.id, e.hash, e.expiresAt, w.now)
    case None =>
    case Some(db) =>
      IssueEffect(w.db, e.account, e.deviceId, e.reason, e.id, e.hash, e.expiresAt, w.now, db);
      AddedSessionKeepsInv(w, e.id, e.hash, db);
  }

  lemma AddedSessionKeepsInv(w: World, id: SessionId, hash: Hash, db: Store)
    requires Inv(w) && id !in w.db.sessions && !HasHash(w.db, hash) && db.rotated == w.db.rotated
    requires db.sessions.Keys == w.db.sessions.Keys + {id} && db.sessions[id].hash == hash
    requires forall other :: other in w.db.sessions ==>
      db.sessions[other].hash == w.db.sessions[other].hash && db.sessions[other].account == w.db.sessions[other].account
    ensures Inv(w.(db := db, chains := w.chains[id := [hash]]))
  {
    var w' := w.(db := db, chains := w.chains[id := [hash]]);
    assert Consistent(db);
    assert ChainsMatch(w');
    forall other | other in w'.chains ensures Recorded(w'.chains[other], db.rotated, other) {
      assert other != id ==> Recorded(w.chains[other], w.db.rotated, other);
    }
    forall r | r in w'.flights ensures FlightMatches(w', w'.flights[r]) {
      assert FlightMatches(w, w.flights[r]);
    }
  }

  /** What a successful rotation does: one session takes the new hash, the old one is recorded. */
  lemma RotationEffect(w: World, e: Event)
    requires Rotates(w, e)
    ensures var f, w' := w.flights[e.request], Next(w, e);
      && IsCurrent(w.db, f.id, f.hash, w.now) && f.hash !in w.db.rotated && !HashTakenByOther(w.db, f.id, e.next)
      && w'.db.sessions == w.db.sessions[f.id := w.db.sessions[f.id].(
           hash := e.next, expiresAt := e.nextExpiresAt, lastUsedAt := Some(w.now), rotatedAt := Some(w.now))]
      && w'.db.rotated == w.db.rotated[f.hash := RotatedToken(f.id, w.now, f.expiresAt)]
      && w'.flights == w.flights[e.request := Done(Success(f.id, e.next))]
      && w'.chains == w.chains[f.id := Chain(w, f.id) + [e.next]]
      && w'.now == w.now && w'.accounts == w.accounts
  {
  }

  lemma RecordedGrows(chain: seq<Hash>, rotated: map<Hash, RotatedToken>, id: SessionId, last: Hash, t: RotatedToken,
                      next: Hash)
    requires Recorded(chain, rotated, id) && last !in rotated
    ensures Recorded(chain, rotated[last := t], id)
    ensures t.sessionId == id && |chain| > 0 && chain[|chain| - 1] == last ==>
      Recorded(chain + [next], rotated[last := t], id)
  {
  }

  lemma PastGrows(chain: seq<Hash>, next: Hash, h: Hash)
    requires |chain| > 0
    ensures PastHas(chain + [next], h) <==> PastHas(chain, h) || chain[|chain| - 1] == h
  {
    if i :| 0 <= i < |chain| && chain[i] == h {
      assert (chain + [next])[i] == h;
    }
  }

  lemma RotationKeepsChains(w: World, e: Event)
    requires Inv(w) && Rotates(w, e)
    ensures RotatedMatchesChains(Next(w, e))
  {
    RotationEffect(w, e);
    var f, w' := w.flights[e.request], Next(w, e);
    forall id | id in w'.chains
      ensures Recorded(w'.chains[id], w'.db.rotated, id)
    {
      RecordedGrows(w.chains[id], w.db.rotated, id, f.hash, RotatedToken(f.id, w.now, f.expiresAt), e.next);
    }
    forall h | h in w'.db.rotated
      ensures w'.db.rotated[h].sessionId in w'.chains && PastHas(w'.chains[w'.db.rotated[h].sessionId], h)
    {
      PastGrows(w.chains[f.id], e.next, h);
    }
  }

  lemma RotationKeepsRest(w: World, e: Event)
    requires Inv(w) && Rotates(w, e)
    ensures Consistent(Next(w, e).db) && ChainsMatch(Next(w, e)) && FlightsMatch(Next(w, e))
  {
    RotationEffect(w, e);
    var w' := Next(w, e);
    forall r | r in w'.flights ensures FlightMatches(w', w'.flights[r]) {
      assert FlightMatches(w, w.flights[r]);
    }
  }

  lemma NextKeepsInv(w: World, e: Event)
    requires Inv(w)
    ensures Inv(Next(w, e))
  {
    if Rotates(w, e) {
      RotationKeepsRest(w, e);
      RotationKeepsChains(w, e);
    } else if e.SignIn? {
      SignInKeepsInv(w, e);
    } else {
      OtherEventsKeepHashes(w, e);
      HashesKeptKeepsChains(w, Next(w, e));
      OtherEventsKeepFlights(w, e);
    }
  }

  lemma {:induction false} RunKeepsInv(w: World, events: seq<Event>)
    requires Inv(w)
    ensures Inv(Run(w, events))
    decreases events
  {
    if events != [] {
      NextKeepsInv(w, events[0]);
      RunKeepsInv(Next(w, events[0]), events[1..]);
    }
  }
}

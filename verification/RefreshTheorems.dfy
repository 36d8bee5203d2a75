/** What every interleaving of refreshes, sign-ins, logouts and resets keeps. */
module RefreshTheorems {
  import opened Common
  import opened Sessions
  import opened RefreshProtocol

  // ---- A hash is rotated at most once ----

  lemma {:induction false} RotatedOnlyGrows(w: World, events: seq<Event>, h: Hash)
    requires h in w.db.rotated
    ensures h in Run(w, events).db.rotated
    decreases events
  {
    if events != [] {
      if Rotates(w, events[0]) {
        RotationEffect(w, events[0]);
      }
      RotatedOnlyGrows(Next(w, events[0]), events[1..], h);
    }
  }

  /** In every run from every world, no two rotations take the same hash. */
  lemma RotatedAtMostOnce(w: World, events: seq<Event>, i: nat, j: nat)
    requires i < j < |events|
    requires var u, v := Run(w, events[..i]), Run(w, events[..j]); Rotates(u, events[i]) && Rotates(v, events[j])
    ensures var u, v := Run(w, events[..i]), Run(w, events[..j]);
      u.flights[events[i].request].hash != v.flights[events[j].request].hash
  {
    var u, v := Run(w, events[..i]), Run(w, events[..j]);
    var between := events[i..j];
    assert events[..j] == events[..i] + between;
    RunSplit(w, events[..i], between);
    assert between[0] == events[i];
    RotationEffect(u, events[i]);
    RotatedOnlyGrows(Next(u, events[i]), between[1..], u.flights[events[i].request].hash);
    RotationEffect(v, events[j]);
  }

  // ---- With fresh hashes the hashes of a session form one linear chain ----

  ghost predicate Disjoint(db: Store) {
    forall id :: id in db.sessions ==> db.sessions[id].hash !in db.rotated
  }

  lemma FreshStepKeepsDisjoint(w: World, e: Event)
    requires Inv(w) && Disjoint(w.db) && Fresh(w, e)
    ensures Disjoint(Next(w, e).db)
  {
    if Rotates(w, e) {
      RotationEffect(w, e);
    } else if e.SignIn? {
      match Issue(w.db, e.account, e.deviceId, e.reason, e.id, e.hash, e.expiresAt, w.now)
      case None =>
      case Some(db) => IssueEffect(w.db, e.account, e.deviceId, e.reason, e.id, e.hash, e.expiresAt, w.now, db);
    } else {
      OtherEventsKeepHashes(w, e);
    }
  }

  /** Each session's chain ends at its current hash, never repeats, shares nothing with another
      session's chain, and what comes before its end is exactly what that session rotated. Every
      rotated hash was rotated by a session with a chain, and none is current anywhere. */
  ghost predicate LinearChains(w: World) {
    && w.chains.Keys == w.db.sessions.Keys
    && (forall id :: id in w.chains ==>
      |w.chains[id]| > 0 && w.chains[id][|w.chains[id]| - 1] == w.db.sessions[id].hash)
    && (forall id, i, j :: id in w.chains && 0 <= i < j < |w.chains[id]| ==> w.chains[id][i] != w.chains[id][j])
    && (forall a, b, h :: a in w.chains && b in w.chains && h in w.chains[a] && h in w.chains[b] ==> a == b)
    && (forall id, h :: id in w.chains ==>
          ((h in w.db.rotated && w.db.rotated[h].sessionId == id) <==> PastHas(w.chains[id], h)))
    && (forall h :: h in w.db.rotated ==> w.db.rotated[h].sessionId in w.chains)
    && Disjoint(w.db)
  }

  lemma DisjointChainsAreLinear(w: World)
    requires Inv(w) && Disjoint(w.db)
    ensures LinearChains(w)
  {
    forall a, b, h | a in w.chains && b in w.chains && h in w.chains[a] && h in w.chains[b]
      ensures a == b
    {
      InChain(w, a, h);
      InChain(w, b, h);
    }
    forall id, h | id in w.chains
      ensures (h in w.db.rotated && w.db.rotated[h].sessionId == id) <==> PastHas(w.chains[id], h)
    {
      assert Recorded(w.chains[id], w.db.rotated, id);
    }
    forall id, i, j | id in w.chains && 0 <= i < j < |w.chains[id]|
      ensures w.chains[id][i] != w.chains[id][j]
    {
      NoRepeat(w, id, i, j);
    }
  }

  lemma NoRepeat(w: World, id: SessionId, i: nat, j: nat)
    requires Inv(w) && Disjoint(w.db) && id in w.chains && i < j < |w.chains[id]|
    ensures w.chains[id][i] != w.chains[id][j]
  {
    assert Recorded(w.chains[id], w.db.rotated, id);
  }

  lemma InChain(w: World, id: SessionId, h: Hash)
    requires Inv(w) && id in w.chains && h in w.chains[id]
    ensures w.db.sessions[id].hash == h || (h in w.db.rotated && w.db.rotated[h].sessionId == id)
  {
    var i :| 0 <= i < |w.chains[id]| && w.chains[id][i] == h;
    assert Recorded(w.chains[id], w.db.rotated, id);
  }

  /** The hashes form linear chains if and only if every hash brought into the store was fresh. */
  lemma FreshRunsAreLinear(events: seq<Event>)
    ensures LinearChains(Run(Start, events)) <==> FreshRun(Start, events)
  {
    RunKeepsInv(Start, events);
    FreshnessIsExact(Start, events);
    if FreshRun(Start, events) {
      DisjointChainsAreLinear(Run(Start, events));
    }
  }

  /** Freshness is exactly what it takes, over every run: no rotated hash is a current one at its end if
      and only if no sign-in and no rotation of the run brought in a hash that had been in use. */
  lemma {:induction false} FreshnessIsExact(w: World, events: seq<Event>)
    requires Inv(w) && Disjoint(w.db)
    ensures Disjoint(Run(w, events).db) <==> FreshRun(w, events)
    decreases events
  {
    if events != [] {
      var w' := Next(w, events[0]);
      NextKeepsInv(w, events[0]);
      if Fresh(w, events[0]) {
        FreshStepKeepsDisjoint(w, events[0]);
        FreshnessIsExact(w', events[1..]);
      } else if Rotates(w, events[0]) {
        RepeatedTokenJamsSession(w, events[0]);
        JammedForEver(w', events[1..], w.flights[events[0].request].id);
      } else {
        RepeatedTokenJamsNewSession(w, events[0]);
        JammedForEver(w', events[1..], events[0].id);
      }
    }
  }

  // ---- Inactive is for ever ----

  ghost predicate Inactive(w: World, id: SessionId) {
    id in w.db.sessions && !w.db.sessions[id].IsActive(w.now)
  }

  lemma {:induction false} InactiveForEver(w: World, events: seq<Event>, id: SessionId)
    requires Inactive(w, id)
    ensures Inactive(Run(w, events), id)
    ensures w.db.sessions[id].isRevoked ==> Run(w, events).db.sessions[id] == w.db.sessions[id]
    decreases events
  {
    if events != [] {
      InactiveStep(w, events[0], id);
      InactiveForEver(Next(w, events[0]), events[1..], id);
    }
  }

  /** One event revives no inactive session, and leaves a revoked row as it is. */
  lemma InactiveStep(w: World, e: Event, id: SessionId)
    requires Inactive(w, id)
    ensures Inactive(Next(w, e), id)
    ensures w.db.sessions[id].isRevoked ==> Next(w, e).db.sessions[id] == w.db.sessions[id]
  {
    if Rotates(w, e) {
      RotationEffect(w, e);
    }
  }

  // ---- One active session per device ----

  ghost predicate SameDevice(s: Session, t: Session) {
    s.account == t.account && s.deviceId == t.deviceId && s.deviceId.Some? && s.deviceId.value != ""
  }

  ghost predicate OneActivePerDevice(w: World) {
    forall a, b :: a in w.db.sessions && b in w.db.sessions && a != b && SameDevice(w.db.sessions[a], w.db.sessions[b])
      ==> Inactive(w, a) || Inactive(w, b)
  }

  // Apart from a sign-in's own new session, an event never changes whose a session is.
  lemma OwnersKept(w: World, e: Event, id: SessionId)
    requires id in w.db.sessions
    ensures id in Next(w, e).db.sessions
    ensures Next(w, e).db.sessions[id].account == w.db.sessions[id].account
    ensures Next(w, e).db.sessions[id].deviceId == w.db.sessions[id].deviceId
  {
    if Rotates(w, e) {
      RotationEffect(w, e);
    }
  }

  lemma DeviceStep(w: World, e: Event)
    requires OneActivePerDevice(w)
    ensures OneActivePerDevice(Next(w, e))
  {
    var w' := Next(w, e);
    forall a, b | a in w'.db.sessions && b in w'.db.sessions && a != b
      && SameDevice(w'.db.sessions[a], w'.db.sessions[b])
      ensures Inactive(w', a) || Inactive(w', b)
    {
      if a in w.db.sessions && b in w.db.sessions {
        OwnersKept(w, e, a);
        OwnersKept(w, e, b);
        if Inactive(w, a) { InactiveStep(w, e, a); } else { InactiveStep(w, e, b); }
      } else {
        OnlySignInAdds(w, e, if a in w.db.sessions then b else a);
      }
    }
  }

  // A session that was not there before is the sign-in's own, and its device has no other active one.
  lemma OnlySignInAdds(w: World, e: Event, id: SessionId)
    requires id !in w.db.sessions && id in Next(w, e).db.sessions
    ensures e.SignIn? && id == e.id
    ensures var w' := Next(w, e); forall other :: other in w'.db.sessions && other != id ==>
      SameDevice(w'.db.sessions[other], w'.db.sessions[id]) ==> other in w.db.sessions && Inactive(w', other)
  {
    if Rotates(w, e) {
      RotationEffect(w, e);
    }
  }

  /** In every run there is at most one active session per account and device, although a rotation
      extends expiry and expired rows stay unrevoked. */
  lemma {:induction false} OneActivePerDeviceAlways(w: World, events: seq<Event>)
    requires OneActivePerDevice(w)
    ensures OneActivePerDevice(Run(w, events))
    decreases events
  {
    if events != [] {
      DeviceStep(w, events[0]);
      OneActivePerDeviceAlways(Next(w, events[0]), events[1..]);
    }
  }

  // ---- The outcome of a refresh tells what it did to the store ----

  /** A refresh changes the store only in the step that ends it: with success, exactly one session
      and one new rotated hash; with reuse detected, every active session of the account is revoked
      and nothing else; with any other outcome, or none yet, nothing at all. */
  lemma OutcomeDeterminesStore(w: World, r: Request, next: Hash, expires: int)
    requires r in w.flights && !w.flights[r].Done?
    ensures var w' := Next(w, Advance(r, next, expires));
      match w'.flights[r]
      case Done(Success(id, n)) =>
        && id in w.db.sessions && n == next && w.db.sessions[id].IsActive(w.now)
        && w'.db.sessions.Keys == w.db.sessions.Keys && w'.db.sessions[id].hash == next
        && w'.db.sessions[id].expiresAt == expires && !w'.db.sessions[id].isRevoked
        && (forall other :: other in w.db.sessions && other != id ==> w'.db.sessions[other] == w.db.sessions[other])
        && w.db.sessions[id].hash !in w.db.rotated
        && w'.db.rotated.Keys == w.db.rotated.Keys + {w.db.sessions[id].hash}
        && (forall h :: h in w.db.rotated ==> w'.db.rotated[h] == w.db.rotated[h])
      case Done(ReuseDetected(a)) =>
        && NoActiveSession(w'.db, a, w'.now) && w'.db.rotated == w.db.rotated
        && w'.db.sessions.Keys == w.db.sessions.Keys
        && (forall id :: id in w.db.sessions && !(w.db.sessions[id].account == a && w.db.sessions[id].IsActive(w.now))
              ==> w'.db.sessions[id] == w.db.sessions[id])
      case _ => w'.db == w.db
  {
    if Rotates(w, Advance(r, next, expires)) {
      RotationEffect(w, Advance(r, next, expires));
    }
  }

  // ---- When a refresh is told that its token was reused ----

  /** In every reachable world, fresh hashes or not, the rotation is lost exactly when the session no
      longer has the presented hash, or was revoked or ran out in between. A hash it no longer has was
      rotated away; where no current hash is a rotated one, as in fresh runs, the converse holds too. */
  lemma LostExactlyWhen(w: World, r: Request, next: Hash, expires: int)
    requires Inv(w) && r in w.flights && w.flights[r].AccountChecked?
    ensures var f := w.flights[r]; var s := w.db.sessions[f.id];
      && (Next(w, Advance(r, next, expires)).flights[r].Lost? <==> s.hash != f.hash || !s.IsActive(w.now))
      && (s.hash != f.hash ==> f.hash in w.db.rotated)
      && (Disjoint(w.db) && f.hash in w.db.rotated ==> s.hash != f.hash)
  {
    InChain(w, w.flights[r].id, w.flights[r].hash);
  }

  /** The refresh has passed its checks on a session that is still current, and `other` is another
      active session of the account. */
  ghost predicate MayAlarm(w: World, r: Request, other: SessionId) {
    && r in w.flights && w.flights[r].AccountChecked?
    && var f := w.flights[r];
      && IsCurrent(w.db, f.id, f.hash, w.now) && other in w.db.sessions && w.db.sessions[other].account == f.payloadId
      && w.db.sessions[other].hash != f.hash && w.db.sessions[other].IsActive(w.now)
  }

  /** So reuse is reported although nothing was rotated: whenever a logout of the very session falls
      between two awaits of its refresh, the account's every other session is revoked for reuse. */
  lemma LogoutRaisesReuseAlarm(w: World, r: Request, other: SessionId, next: Hash, expires: int)
    requires MayAlarm(w, r, other)
    ensures var step := Advance(r, next, expires); var w' := Next(Next(Next(w, LogOut(w.flights[r].hash)), step), step);
      && r in w'.flights && w'.flights[r] == Done(ReuseDetected(w.flights[r].payloadId))
      && w'.db.rotated == w.db.rotated
      && other in w'.db.sessions && w'.db.sessions[other] == w.db.sessions[other].Revoke(REFRESH_TOKEN_REUSE, w.now)
  {
    var f := w.flights[r];
    var w1 := Next(w, LogOut(f.hash));
    assert w1.db.sessions[f.id].isRevoked && w1.db.sessions[other] == w.db.sessions[other];
    var w2 := Next(w1, Advance(r, next, expires));
    assert w2.db == w1.db && w2.flights[r] == Lost(f.payloadId);
  }

  // Two sign-ins of one account, from the start.
  lemma TwoSignIns(h: Hash, g: Hash, expires: int) returns (events: seq<Event>)
    requires h != g
    ensures var w := Run(Start, events);
      && w.db.sessions.Keys == {0, 1} && w.db.rotated == map[] && w.flights == map[] && w.now == 0
      && w.db.sessions[0] == Session(1, h, None, false, None, None, expires, None, None)
      && w.db.sessions[1] == Session(1, g, None, false, None, None, expires, None, None)
      && w.accounts == map[1 := Account(false)]
  {
    var first := SignIn(1, None, REPLACED_BY_LOGIN, 0, h, expires);
    var second := SignIn(1, None, REPLACED_BY_LOGIN, 1, g, expires);
    events := [SetAccount(1, false), first, second];
    RunThree(Start, events[0], first, second);
  }

  // The first of the two sessions is about to be refreshed.
  lemma TwoSessions(h: Hash, g: Hash, expires: int) returns (events: seq<Event>)
    requires 0 < expires && h != g
    ensures var w := Run(Start, events);
      && FreshRun(Start, events) && MayAlarm(w, 0, 1) && w.db.rotated == map[] && w.db.sessions.Keys == {0, 1}
      && w.db.sessions[0].hash == h && w.db.sessions[1].hash == g && w.now == 0
      && w.flights.Keys == {0} && w.flights[0] == AccountChecked(0, h, 1, expires)
  {
    var setUp := TwoSignIns(h, g, expires);
    var step := Advance(0, h, expires);
    var refresh := [Present(0, h, 1), step, step];
    events := setUp + refresh;
    var w3 := Run(Start, setUp);
    assert WithHash(w3.db, h) == 0 by {
      assert w3.db.sessions[0].hash == h;
    }
    var w4 := Next(w3, refresh[0]);
    var w5 := Next(w4, step);
    assert w5.flights[0] == Found(0, h, 1, expires);
    RunThree(w3, refresh[0], step, step);
    RunSplit(Start, setUp, refresh);
    FreshnessIsExact(Start, events);
  }

  /** The alarm is raised from the start, in a run in which no token is ever rotated: the account signs in
      twice, refreshes once, and logs out at that very moment. */
  lemma AlarmIsReachable(h: Hash, g: Hash, expires: int) returns (events: seq<Event>)
    requires 0 < expires && h != g
    ensures var w := Run(Start, events);
      && w.db.rotated == map[] && 0 in w.flights && w.flights[0] == Done(ReuseDetected(1))
      && 1 in w.db.sessions && w.db.sessions[1].revokeReason == Some(REFRESH_TOKEN_REUSE)
  {
    var before := TwoSessions(h, g, expires);
    var step := Advance(0, h, expires);
    events := before + [LogOut(h), step, step];
    RunSplit(Start, before, [LogOut(h), step, step]);
    RunThree(Run(Start, before), LogOut(h), step, step);
    LogoutRaisesReuseAlarm(Run(Start, before), 0, 1, h, expires);
  }

  // ---- A session whose current hash is among the rotated ones ----

  ghost predicate Jammed(w: World, id: SessionId) {
    id in w.db.sessions && w.db.sessions[id].hash in w.db.rotated
  }

  /** The event is a successful rotation of the session. */
  ghost predicate RotatesSession(w: World, e: Event, id: SessionId) {
    Rotates(w, e) && w.flights[e.request].id == id
  }

  /** In every world, a rotation leaves its session jammed if and only if the new hash was in use before;
      two tokens signed for one account in one second are equal, so it can even be the presented one. */
  lemma RepeatedTokenJamsSession(w: World, e: Event)
    requires Rotates(w, e)
    ensures Jammed(Next(w, e), w.flights[e.request].id) <==> !Fresh(w, e)
  {
    RotationEffect(w, e);
    var f := w.flights[e.request];
    if HasHash(w.db, e.next) {
      assert WithHash(w.db, e.next) == f.id;
    }
  }

  /** And a sign-in creates a session that is jammed from birth if and only if its hash had been rotated
      away: only current hashes are kept apart by a unique key. */
  lemma RepeatedTokenJamsNewSession(w: World, e: Event)
    requires SignsIn(w, e)
    ensures Jammed(Next(w, e), e.id) <==> !Fresh(w, e)
  {
    IssueEffect(w.db, e.account, e.deviceId, e.reason, e.id, e.hash, e.expiresAt, w.now, Next(w, e).db);
  }

  /** It happens from the start: a session that is created, and refreshed with an equal token. */
  lemma JamIsReachable(h: Hash, expires: int) returns (events: seq<Event>)
    requires 0 < expires
    ensures Jammed(Run(Start, events), 0) && !Run(Start, events).db.sessions[0].isRevoked
  {
    var enable, login := SetAccount(1, false), SignIn(1, None, REPLACED_BY_LOGIN, 0, h, expires);
    var present, advance := Present(0, h, 1), Advance(0, h, expires);
    events := [enable, login, present] + [advance, advance, advance];
    var w1 := Next(Start, enable);
    var w2 := Next(w1, login);
    var w3 := Next(w2, present);
    assert w3.db.sessions[0].hash == h;
    assert WithHash(w3.db, h) == 0;
    var w4 := Next(w3, advance);
    assert w4.flights[0] == Found(0, h, 1, expires);
    var w5 := Next(w4, advance);
    assert w5.flights[0] == AccountChecked(0, h, 1, expires);
    var w6 := Next(w5, advance);
    assert Jammed(w6, 0);
    RunThree(Start, enable, login, present);
    RunThree(w3, advance, advance, advance);
    RunSplit(Start, [enable, login, present], [advance, advance, advance]);
  }

  /** Nor does it take an unlucky rotation: after a refresh with a new token, a second sign-in that brings
      the token of the first one creates a jammed session. */
  lemma JamAtBirthIsReachable(h: Hash, g: Hash, other: Hash, expires: int) returns (events: seq<Event>)
    requires 0 < expires && h != g && other != h && other != g
    ensures FreshRun(Start, events)
      && Jammed(Next(Run(Start, events), SignIn(1, None, REPLACED_BY_LOGIN, 2, h, expires)), 2)
  {
    var before := TwoSessions(h, other, expires);
    var w, step := Run(Start, before), Advance(0, g, expires);
    events := before + [step];
    RunSplit(Start, before, [step]);
    assert [step][1..] == [];
    assert Run(w, [step]) == Next(w, step);
    RunKeepsInv(Start, before);
    FreshnessIsExact(Start, before);
    AfterRefresh(w, h, g, other, expires);
    FreshStepKeepsDisjoint(w, step);
    FreshnessIsExact(Start, events);
    RepeatedTokenJamsNewSession(Next(w, step), SignIn(1, None, REPLACED_BY_LOGIN, 2, h, expires));
  }

  lemma AfterRefresh(w: World, h: Hash, g: Hash, other: Hash, expires: int)
    requires h != g && other != h && other != g && w.db.rotated == map[] && w.db.sessions.Keys == {0, 1}
    requires MayAlarm(w, 0, 1) && w.flights[0] == AccountChecked(0, h, 1, expires)
    requires w.db.sessions[0].hash == h && w.db.sessions[1].hash == other
    ensures Fresh(w, Advance(0, g, expires)) && Rotates(w, Advance(0, g, expires))
    ensures var w', again := Next(w, Advance(0, g, expires)), SignIn(1, None, REPLACED_BY_LOGIN, 2, h, expires);
      SignsIn(w', again) && !Fresh(w', again)
  {
    assert Rotate(w.db, 0, h, expires, g, expires, w.now).Rotated?;
    RotationEffect(w, Advance(0, g, expires));
  }

  lemma RunThree(w: World, a: Event, b: Event, c: Event)
    ensures Run(w, [a, b, c]) == Next(Next(Next(w, a), b), c)
  {
    assert [a, b, c][1..] == [b, c] && [b, c][1..] == [c] && [c][1..] == [];
    assert Run(Next(w, a), [b, c]) == Run(Next(Next(w, a), b), [c]);
  }

  lemma JammedStays(w: World, e: Event, id: SessionId)
    requires Jammed(w, id)
    ensures !RotatesSession(w, e, id)
    ensures Jammed(Next(w, e), id) && Next(w, e).db.sessions[id].hash == w.db.sessions[id].hash
  {
    if Rotates(w, e) {
      RotationEffect(w, e);
    }
  }

  /** Whether the run rotates the session at all. */
  ghost predicate EverRotates(w: World, events: seq<Event>, id: SessionId)
    decreases events
  {
    events != [] && (RotatesSession(w, events[0], id) || EverRotates(Next(w, events[0]), events[1..], id))
  }

  /** A jammed session keeps its hash for ever and is never rotated again, in any run. */
  lemma {:induction false} JammedForEver(w: World, events: seq<Event>, id: SessionId)
    requires Jammed(w, id)
    ensures Jammed(Run(w, events), id) && Run(w, events).db.sessions[id].hash == w.db.sessions[id].hash
    ensures !EverRotates(w, events, id)
    decreases events
  {
    if events != [] {
      JammedStays(w, events[0], id);
      JammedForEver(Next(w, events[0]), events[1..], id);
    }
  }

  /** A refresh that has passed its checks fails on a unique key exactly when the session still has
      the presented hash and is active, and is jammed or another session has the new hash. */
  lemma StoreErrorExactlyWhen(w: World, r: Request, next: Hash, expires: int)
    requires Inv(w) && r in w.flights && w.flights[r].AccountChecked?
    ensures var f := w.flights[r];
      Next(w, Advance(r, next, expires)).flights[r] == Done(StoreError)
      <==> IsCurrent(w.db, f.id, f.hash, w.now) && (Jammed(w, f.id) || HashTakenByOther(w.db, f.id, next))
  {
  }

  /** The refresh of a hash that `account` has rotated, before or after it was caught. */
  ghost predicate Replaying(w: World, r: Request, h: Hash, account: AccountId) {
    && h in w.db.rotated && w.db.rotated[h].sessionId in w.db.sessions
    && w.db.sessions[w.db.rotated[h].sessionId].account == account
    && r in w.flights
    && (w.flights[r] == Presented(h, account) || w.flights[r] == Missing(h, account)
      || w.flights[r] == Done(ReuseDetected(account)))
  }

  lemma ReplayStep(w: World, e: Event, r: Request, h: Hash, account: AccountId)
    requires Disjoint(w.db) && Replaying(w, r, h, account)
    ensures Replaying(Next(w, e), r, h, account)
  {
    OwnersKept(w, e, w.db.rotated[h].sessionId);
    RotatedRowsStay(w, e, h);
  }

  /** A rotated token that is presented again never passes: in every fresh run, interleaved with
      anything, its refresh is still on its way or ended with reuse detected. */
  lemma {:induction false} ReplayNeverPasses(w: World, events: seq<Event>, r: Request, h: Hash, account: AccountId)
    requires Inv(w) && Disjoint(w.db) && FreshRun(w, events) && Replaying(w, r, h, account)
    ensures Replaying(Run(w, events), r, h, account)
    decreases events
  {
    if events != [] {
      NextKeepsInv(w, events[0]);
      FreshStepKeepsDisjoint(w, events[0]);
      ReplayStep(w, events[0], r, h, account);
      ReplayNeverPasses(Next(w, events[0]), events[1..], r, h, account);
    }
  }

  lemma RotatedRowsStay(w: World, e: Event, h: Hash)
    requires h in w.db.rotated
    ensures h in Next(w, e).db.rotated && Next(w, e).db.rotated[h] == w.db.rotated[h]
  {
    if Rotates(w, e) {
      RotationEffect(w, e);
    }
  }

  /** The refresh has ended with reuse detected, and every session of the account is revoked or has run
      out. */
  ghost predicate Caught(w: World, r: Request, account: AccountId) {
    && r in w.flights && w.flights[r] == Done(ReuseDetected(account))
    && forall id :: id in w.db.sessions && w.db.sessions[id].account == account ==>
         w.db.sessions[id].isRevoked || w.db.sessions[id].expiresAt <= w.now
  }

  ghost predicate Refused(w: World, r: Request) {
    r in w.flights && w.flights[r] == Done(InvalidToken)
  }

  /** Two awaits bring the refresh of a rotated hash to its end. When the session that rotated it belongs
      to the account the token names, that is reuse, and no session of the account is left active; when it
      belongs to another account, the token is invalid and the store stays as it is. */
  lemma ReplaySignsOutEverywhere(w: World, r: Request, h: Hash, account: AccountId, next: Hash, expires: int)
    requires Inv(w) && Disjoint(w.db) && h in w.db.rotated
    requires r in w.flights && w.flights[r] == Presented(h, account)
    ensures var w' := Run(w, [Advance(r, next, expires), Advance(r, next, expires)]);
      if w.db.sessions[w.db.rotated[h].sessionId].account == account
      then Caught(w', r, account) && NoActiveSession(w'.db, account, w'.now)
      else Refused(w', r) && w'.db == w.db
  {
    var step := Advance(r, next, expires);
    var mid := Next(w, step);
    assert !HasHash(w.db, h);
    assert mid.db == w.db && mid.flights[r] == Missing(h, account);
    assert [step, step][1..] == [step] && [step][1..] == [];
    assert Run(w, [step, step]) == Run(mid, [step]) == Next(mid, step);
    RevokedAccountStaysOut(w.db, account, REFRESH_TOKEN_REUSE, w.now, w.now);
  }

  // What a rotation leaves behind stays, through every run: the hash it took leads to its session, and
  // that to the account of the token.
  lemma {:induction false} RotatedHashLeadsToOwner(w: World, events: seq<Event>, h: Hash, id: SessionId,
                                                   account: AccountId)
    requires h in w.db.rotated && w.db.rotated[h].sessionId == id && id in w.db.sessions
    requires w.db.sessions[id].account == account
    ensures var v := Run(w, events);
      && h in v.db.rotated && v.db.rotated[h].sessionId == id && id in v.db.sessions
        && v.db.sessions[id].account == account
    decreases events
  {
    if events != [] {
      OwnersKept(w, events[0], id);
      RotatedRowsStay(w, events[0], h);
      RotatedHashLeadsToOwner(Next(w, events[0]), events[1..], h, id, account);
    }
  }

  lemma RotationLeadsToOwner(u: World, e: Event, events: seq<Event>)
    requires Inv(u) && Rotates(u, e)
    ensures var f, v := u.flights[e.request], Run(Next(u, e), events);
      && f.hash in v.db.rotated && v.db.rotated[f.hash].sessionId in v.db.sessions
      && v.db.sessions[v.db.rotated[f.hash].sessionId].account == f.payloadId
  {
    var f := u.flights[e.request];
    RotationEffect(u, e);
    assert FlightMatches(u, f);
    RotatedHashLeadsToOwner(Next(u, e), events, f.hash, f.id, f.payloadId);
  }

  // The run that presents `h` for `account` and takes both awaits.
  function Replay(r: Request, h: Hash, account: AccountId, next: Hash, expires: int): seq<Event> {
    [Present(r, h, account), Advance(r, next, expires), Advance(r, next, expires)]
  }

  lemma ReplayEnds(v: World, r: Request, h: Hash, account: AccountId, next: Hash, expires: int)
    requires Inv(v) && Disjoint(v.db) && h in v.db.rotated && r !in v.flights
    ensures var w := Run(v, Replay(r, h, account, next, expires));
      if v.db.sessions[v.db.rotated[h].sessionId].account == account then Caught(w, r, account)
      else Refused(w, r) && w.db == v.db
  {
    var present, step := Present(r, h, account), Advance(r, next, expires);
    NextKeepsInv(v, present);
    ReplaySignsOutEverywhere(Next(v, present), r, h, account, next, expires);
    assert [] + ([present] + [step, step]) == Replay(r, h, account, next, expires);
    RunWithStep(v, [], present, [step, step]);
  }

  /** Reuse detection, from the rotation on: whenever a hash has been rotated away, and whatever has
      happened since, a token that presents it again for its own account ends with reuse detected and with
      no session of the account active; one that presents it for another account is invalid and changes
      nothing. */
  lemma ReuseIsDetected(u: World, e: Event, since: seq<Event>, r: Request, account: AccountId, next: Hash, expires: int)
    requires Inv(u) && Disjoint(u.db) && Rotates(u, e) && Fresh(u, e) && FreshRun(Next(u, e), since)
    requires r !in Run(Next(u, e), since).flights
    ensures var f, v := u.flights[e.request], Run(Next(u, e), since);
      var w := Run(v, Replay(r, f.hash, account, next, expires));
      if account == f.payloadId then Caught(w, r, account) else Refused(w, r) && w.db == v.db
  {
    NextKeepsInv(u, e);
    FreshStepKeepsDisjoint(u, e);
    RunKeepsInv(Next(u, e), since);
    FreshnessIsExact(Next(u, e), since);
    RotationLeadsToOwner(u, e, since);
    ReplayEnds(Run(Next(u, e), since), r, u.flights[e.request].hash, account, next, expires);
  }

  /** And it is reached from the start: an account signs in twice, refreshes its first session, and
      presents the old token again; both sessions are signed out. */
  lemma ReuseIsReachable(h: Hash, g: Hash, other: Hash, expires: int) returns (events: seq<Event>)
    requires 0 < expires && h != g && other != h && other != g
    ensures Caught(Run(Start, events), 1, 1)
  {
    var before := TwoSessions(h, other, expires);
    var w, step, replay := Run(Start, before), Advance(0, g, expires), Replay(1, h, 1, g, expires);
    events := before + ([step] + replay);
    RunKeepsInv(Start, before);
    FreshnessIsExact(Start, before);
    AfterRefresh(w, h, g, other, expires);
    ReuseIsDetectedAtOnce(w, step, 1, g, expires);
    RunWithStep(Start, before, step, replay);
  }

  lemma ReuseIsDetectedAtOnce(w: World, e: Event, r: Request, next: Hash, expires: int)
    requires Inv(w) && Disjoint(w.db) && Rotates(w, e) && Fresh(w, e) && r !in Next(w, e).flights
    ensures var f := w.flights[e.request];
      Caught(Run(Next(w, e), Replay(r, f.hash, f.payloadId, next, expires)), r, f.payloadId)
  {
    assert Run(Next(w, e), []) == Next(w, e);
    ReuseIsDetected(w, e, [], r, w.flights[e.request].payloadId, next, expires);
  }

  lemma RunWithStep(w: World, before: seq<Event>, e: Event, after: seq<Event>)
    ensures Run(w, before + ([e] + after)) == Run(Next(Run(w, before), e), after)
  {
    RunSplit(w, before, [e] + after);
    assert ([e] + after)[1..] == after;
  }

  // ---- A sign-in leaves other devices alone ----

  /** A sign-in leaves every session of another account, of another device or of none, and every one that
      is not active, as it was; and every session when it names no device itself. The active ones of its
      own account and device it revokes, at once and for its reason. */
  lemma SignInLeavesOthers(w: World, e: Event, id: SessionId)
    requires e.SignIn? && id in w.db.sessions
    ensures var s, w' := w.db.sessions[id], Next(w, e);
      && id in w'.db.sessions
      && w'.db.sessions[id] ==
         if SignsIn(w, e) && e.deviceId.Some? && e.deviceId.value != "" && s.account == e.account
            && s.deviceId == e.deviceId && !s.isRevoked && w.now < s.expiresAt
         then s.(isRevoked := true, revokeReason := Some(e.reason), revokedAt := Some(w.now)) else s
  {
    if SignsIn(w, e) {
      SignInReplacesItsDeviceOnly(w.db, e.account, e.deviceId, e.reason, e.id, e.hash, e.expiresAt, w.now,
        Next(w, e).db);
    }
  }
}

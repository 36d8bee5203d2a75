/** Sessions, rotated refresh tokens and the conditional updates of the session repository. */
module Sessions {
  import opened Common

  // Identifiers and token hashes are only ever compared.
  type AccountId = nat
  type SessionId = nat
  type Hash = nat

  datatype Reason =
    | REPLACED_BY_LOGIN | REPLACED_BY_REGISTER | REPLACED_BY_OAUTH | REFRESH_TOKEN_REUSE | PASSWORD_RESET | LOGOUT

  datatype Session = Session(
    account: AccountId, hash: Hash, deviceId: Option<string>,
    isRevoked: bool, revokeReason: Option<Reason>, revokedAt: Option<int>,
    expiresAt: int, lastUsedAt: Option<int>, rotatedAt: Option<int>)
  {
    predicate IsExpired(now: int) {
      expiresAt <= now
    }

    predicate IsActive(now: int) {
      !isRevoked && !IsExpired(now)
    }

    function Revoke(reason: Reason, now: int): Session {
      this.(isRevoked := true, revokeReason := Some(reason), revokedAt := Some(now))
    }
  }

  datatype RotatedToken = RotatedToken(sessionId: SessionId, rotatedAt: int, expiresAt: int)

  datatype Store = Store(sessions: map<SessionId, Session>, rotated: map<Hash, RotatedToken>)

  /** The unique index on the hash of a session and the foreign key of a rotated token. */
  ghost predicate Consistent(db: Store) {
    && (forall a, b :: a in db.sessions && b in db.sessions && db.sessions[a].hash == db.sessions[b].hash ==> a == b)
    && (forall h :: h in db.rotated ==> db.rotated[h].sessionId in db.sessions)
  }

  predicate HasHash(db: Store, h: Hash) {
    exists id :: id in db.sessions && db.sessions[id].hash == h
  }

  ghost function WithHash(db: Store, h: Hash): SessionId
    requires HasHash(db, h)
  {
    var id :| id in db.sessions && db.sessions[id].hash == h;
    id
  }

  ghost predicate NoActiveSession(db: Store, account: AccountId, now: int) {
    forall id :: id in db.sessions && db.sessions[id].account == account ==> !db.sessions[id].IsActive(now)
  }

  function ActiveOnDevice(db: Store, account: AccountId, deviceId: string, now: int): set<SessionId> {
    set id | id in db.sessions && db.sessions[id].account == account && db.sessions[id].deviceId == Some(deviceId)
             && db.sessions[id].IsActive(now)
  }

  function ActiveOfAccount(db: Store, account: AccountId, now: int): set<SessionId> {
    set id | id in db.sessions && db.sessions[id].account == account && db.sessions[id].IsActive(now)
  }

  // Unlike the two above, this also finds an expired session.
  function UnrevokedWith(db: Store, hash: Hash): set<SessionId> {
    set id | id in db.sessions && db.sessions[id].hash == hash && !db.sessions[id].isRevoked
  }

  function Revoking(db: Store, who: set<SessionId>, reason: Reason, now: int): Store {
    db.(sessions := map id | id in db.sessions ::
      if id in who then db.sessions[id].Revoke(reason, now) else db.sessions[id])
  }

  function RevokeByDevice(db: Store, account: AccountId, deviceId: string, reason: Reason, now: int): Store {
    Revoking(db, ActiveOnDevice(db, account, deviceId, now), reason, now)
  }

  function RevokeByAccount(db: Store, account: AccountId, reason: Reason, now: int): Store {
    Revoking(db, ActiveOfAccount(db, account, now), reason, now)
  }

  function RevokeByHash(db: Store, hash: Hash, reason: Reason, now: int): Store {
    Revoking(db, UnrevokedWith(db, hash), reason, now)
  }

  /** Exactly the sessions in `who` are revoked, at `now` and for the reason, and keep all else; every
      other session, and every rotated token, stays as it is. */
  ghost predicate RevokesExactly(db: Store, db': Store, who: set<SessionId>, reason: Reason, now: int) {
    && db'.rotated == db.rotated && db'.sessions.Keys == db.sessions.Keys && who <= db.sessions.Keys
    && (forall id :: id in db.sessions && id !in who ==> db'.sessions[id] == db.sessions[id])
    && (forall id :: id in who ==> IsRevocation(db.sessions[id], db'.sessions[id], reason, now))
  }

  predicate IsRevocation(s: Session, s': Session, reason: Reason, now: int) {
    && s'.isRevoked && s'.revokeReason == Some(reason) && s'.revokedAt == Some(now)
    && (s'.account, s'.hash, s'.deviceId) == (s.account, s.hash, s.deviceId)
    && (s'.expiresAt, s'.lastUsedAt, s'.rotatedAt) == (s.expiresAt, s.lastUsedAt, s.rotatedAt)
  }

  lemma RevokingHolds(db: Store, who: set<SessionId>, reason: Reason, now: int)
    requires who <= db.sessions.Keys
    ensures RevokesExactly(db, Revoking(db, who, reason, now), who, reason, now)
    ensures Consistent(db) ==> Consistent(Revoking(db, who, reason, now))
    ensures who == {} ==> Revoking(db, who, reason, now) == db
  {
    if who == {} {
      assert Revoking(db, who, reason, now).sessions == db.sessions;
    }
  }

  /** Revoking a device signs it out at once and for good: exactly its active sessions are revoked, none
      is active at any later time, so that revoking it again changes nothing. */
  lemma RevokedDeviceStaysOut(db: Store, account: AccountId, deviceId: string, reason: Reason, now: int, later: int)
    requires now <= later
    ensures var db' := RevokeByDevice(db, account, deviceId, reason, now);
      && RevokesExactly(db, db', ActiveOnDevice(db, account, deviceId, now), reason, now)
      && (forall id :: id in db.sessions ==> var s, s' := db.sessions[id], db'.sessions[id];
            var own := s.account == account && s.deviceId == Some(deviceId);
            && (own && !s.isRevoked && now < s.expiresAt ==>
                  s' == s.(isRevoked := true, revokeReason := Some(reason), revokedAt := Some(now)))
            && (!(own && !s.isRevoked && now < s.expiresAt) ==> s' == s)
            && (own ==> s'.isRevoked || s'.expiresAt <= later))
      && RevokeByDevice(db', account, deviceId, reason, later) == db'
      && (Consistent(db) ==> Consistent(db'))
  {
    var db' := RevokeByDevice(db, account, deviceId, reason, now);
    RevokingHolds(db, ActiveOnDevice(db, account, deviceId, now), reason, now);
    assert ActiveOnDevice(db', account, deviceId, later) == {};
    RevokingHolds(db', {}, reason, later);
  }

  /** So does revoking an account, on all its devices. */
  lemma RevokedAccountStaysOut(db: Store, account: AccountId, reason: Reason, now: int, later: int)
    requires now <= later
    ensures var db' := RevokeByAccount(db, account, reason, now);
      && RevokesExactly(db, db', ActiveOfAccount(db, account, now), reason, now)
      && (forall id :: id in db.sessions ==> var s, s' := db.sessions[id], db'.sessions[id];
            && (s.account == account && !s.isRevoked && now < s.expiresAt ==>
                  s' == s.(isRevoked := true, revokeReason := Some(reason), revokedAt := Some(now)))
            && (!(s.account == account && !s.isRevoked && now < s.expiresAt) ==> s' == s)
            && (s.account == account ==> s'.isRevoked || s'.expiresAt <= later))
      && NoActiveSession(db', account, later)
      && RevokeByAccount(db', account, reason, later) == db'
      && (Consistent(db) ==> Consistent(db'))
  {
    var db' := RevokeByAccount(db, account, reason, now);
    RevokingHolds(db, ActiveOfAccount(db, account, now), reason, now);
    assert ActiveOfAccount(db', account, later) == {};
    RevokingHolds(db', {}, reason, later);
  }

  /** Revoking by hash marks the one session that has it, active or expired, and never twice. */
  lemma RevokedHashStaysOut(db: Store, hash: Hash, reason: Reason, now: int, later: int)
    requires Consistent(db)
    ensures var db' := RevokeByHash(db, hash, reason, now); var who := UnrevokedWith(db, hash);
      && RevokesExactly(db, db', who, reason, now) && (forall a, b :: a in who && b in who ==> a == b)
      && (forall id :: id in db.sessions ==> var s := db.sessions[id];
            db'.sessions[id] == if s.hash == hash && !s.isRevoked
              then s.(isRevoked := true, revokeReason := Some(reason), revokedAt := Some(now)) else s)
      && (HasHash(db, hash) ==> HasHash(db', hash) && db'.sessions[WithHash(db, hash)].isRevoked)
      && UnrevokedWith(db', hash) == {} && RevokeByHash(db', hash, reason, later) == db' && Consistent(db')
  {
    var db' := RevokeByHash(db, hash, reason, now);
    RevokingHolds(db, UnrevokedWith(db, hash), reason, now);
    assert UnrevokedWith(db', hash) == {};
    RevokingHolds(db', {}, reason, later);
    if HasHash(db, hash) {
      assert db'.sessions[WithHash(db, hash)].hash == hash;
    }
  }

  /** A device session is replaced, then the new one is created, in one transaction; a taken id or
      hash undoes both. `None` is the unique-constraint error. An empty device id counts as none. */
  function Issue(db: Store, account: AccountId, deviceId: Option<string>, reason: Reason,
                 id: SessionId, hash: Hash, expiresAt: int, now: int): Option<Store>
  {
    if id in db.sessions || HasHash(db, hash) then None
    else
      var cleared := if deviceId.Some? && deviceId.value != ""
                     then RevokeByDevice(db, account, deviceId.value, reason, now) else db;
      Some(cleared.(sessions := cleared.sessions[id :=
        Session(account, hash, deviceId, false, None, None, expiresAt, None, None)]))
  }

  lemma IssueEffect(db: Store, account: AccountId, deviceId: Option<string>, reason: Reason,
                    id: SessionId, hash: Hash, expiresAt: int, now: int, db': Store)
    requires Issue(db, account, deviceId, reason, id, hash, expiresAt, now) == Some(db')
    ensures id !in db.sessions && !HasHash(db, hash) && db'.rotated == db.rotated
    ensures db'.sessions.Keys == db.sessions.Keys + {id}
    ensures db'.sessions[id] == Session(account, hash, deviceId, false, None, None, expiresAt, None, None)
    ensures forall other :: other in db.sessions ==>
      db'.sessions[other].hash == db.sessions[other].hash && db'.sessions[other].account == db.sessions[other].account
  {
  }

  /** A sign-in touches no other session than those of its account and its device, which is named, that are
      still active: each of these is revoked, at once and for the reason, and every other row stays. */
  lemma SignInReplacesItsDeviceOnly(db: Store, account: AccountId, deviceId: Option<string>, reason: Reason,
                                    id: SessionId, hash: Hash, expiresAt: int, now: int, db': Store)
    requires Issue(db, account, deviceId, reason, id, hash, expiresAt, now) == Some(db')
    ensures forall other :: other in db.sessions ==> var s := db.sessions[other];
      other in db'.sessions && db'.sessions[other] ==
        if deviceId.Some? && deviceId.value != "" && s.account == account && s.deviceId == deviceId
           && !s.isRevoked && now < s.expiresAt
        then s.(isRevoked := true, revokeReason := Some(reason), revokedAt := Some(now)) else s
  {
  }

  /** A session lives from its sign-in to its expiry, or to its revocation; a rotation sets the expiry anew. */
  lemma SessionLifetime(db: Store, account: AccountId, deviceId: Option<string>, reason: Reason,
                        id: SessionId, hash: Hash, expiresAt: int, now: int)
    ensures var issued := Issue(db, account, deviceId, reason, id, hash, expiresAt, now);
      issued.Some? ==> forall t :: issued.value.sessions[id].IsActive(t) <==> t < expiresAt
    ensures forall current, currentExpiresAt, next, nextExpiresAt ::
      var rotated := Rotate(db, id, current, currentExpiresAt, next, nextExpiresAt, now);
      rotated.Rotated? ==> forall t :: rotated.db.sessions[id].IsActive(t) <==> t < nextExpiresAt
    ensures forall s: Session, t, u :: !s.Revoke(reason, t).IsActive(u)
  {
  }

  datatype RotateResult = Rotated(db: Store) | NotCurrent | Duplicate

  predicate IsCurrent(db: Store, id: SessionId, current: Hash, now: int) {
    id in db.sessions && db.sessions[id].hash == current && db.sessions[id].IsActive(now)
  }

  predicate HashTakenByOther(db: Store, id: SessionId, h: Hash) {
    exists other :: other in db.sessions && other != id && db.sessions[other].hash == h
  }

  /** The rotation transaction: a conditional update of one row, then the record of the old hash.
      A clash on either unique key undoes both. */
  function Rotate(db: Store, id: SessionId, current: Hash, currentExpiresAt: int,
                  next: Hash, nextExpiresAt: int, now: int): RotateResult
  {
    if !IsCurrent(db, id, current, now) then NotCurrent
    else if HashTakenByOther(db, id, next) || current in db.rotated then Duplicate
    else Rotated(Store(
      db.sessions[id := db.sessions[id].(
        hash := next, expiresAt := nextExpiresAt, lastUsedAt := Some(now), rotatedAt := Some(now))],
      db.rotated[current := RotatedToken(id, now, currentExpiresAt)]))
  }

  /** Looking up undoes rotating: the old hash then leads to the session as a rotated one, the new hash
      as its current one, and the old hash is current nowhere unless the new one equals it. */
  lemma RotationIsFound(db: Store, id: SessionId, current: Hash, currentExpiresAt: int, next: Hash, nextExpiresAt: int,
                        now: int, db': Store)
    requires Consistent(db)
    requires Rotate(db, id, current, currentExpiresAt, next, nextExpiresAt, now) == Rotated(db')
    ensures Consistent(db') && db'.rotated.Keys == db.rotated.Keys + {current} && current !in db.rotated
    ensures db'.rotated[current].sessionId == id && HasHash(db', next) && WithHash(db', next) == id
    ensures HasHash(db', current) <==> next == current
    ensures forall h :: h in db.rotated ==> db'.rotated[h] == db.rotated[h]
  {
    assert db'.sessions[id].hash == next;
  }

  /** The session and rotated-token tables, updated in place. */
  class SessionRepository {
    var sessions: map<SessionId, Session>
    var rotated: map<Hash, RotatedToken>

    constructor ()
      ensures State() == Store(map[], map[])
    {
      sessions, rotated := map[], map[];
    }

    function State(): Store
      reads this
    {
      Store(sessions, rotated)
    }

    method FindByRefreshTokenHash(hash: Hash) returns (found: Option<SessionId>)
      requires Consistent(State())
      ensures found == if HasHash(State(), hash) then Some(WithHash(State(), hash)) else None
    {
      if exists id :: id in sessions && sessions[id].hash == hash {
        var id :| id in sessions && sessions[id].hash == hash;
        found := Some(id);
      } else {
        found := None;
      }
    }

    method FindByRotatedRefreshTokenHash(hash: Hash) returns (found: Option<SessionId>)
      ensures found == if hash in rotated then Some(rotated[hash].sessionId) else None
      ensures Consistent(State()) && found.Some? ==> found.value in sessions
    {
      found := if hash in rotated then Some(rotated[hash].sessionId) else None;
    }

    method RevokeActiveByDevice(account: AccountId, deviceId: string, reason: Reason, now: int)
      modifies this
      ensures State() == RevokeByDevice(old(State()), account, deviceId, reason, now)
    {
      sessions := map id | id in sessions ::
        if sessions[id].account == account && sessions[id].deviceId == Some(deviceId)
           && !sessions[id].isRevoked && now < sessions[id].expiresAt
        then sessions[id].Revoke(reason, now) else sessions[id];
    }

    method RevokeActiveByAuthAccount(account: AccountId, reason: Reason, now: int)
      modifies this
      ensures State() == RevokeByAccount(old(State()), account, reason, now)
    {
      sessions := map id | id in sessions ::
        if sessions[id].account == account && !sessions[id].isRevoked && now < sessions[id].expiresAt
        then sessions[id].Revoke(reason, now) else sessions[id];
    }

    method RevokeByRefreshTokenHash(hash: Hash, reason: Reason, now: int)
      modifies this
      ensures State() == RevokeByHash(old(State()), hash, reason, now)
    {
      sessions := map id | id in sessions ::
        if sessions[id].hash == hash && !sessions[id].isRevoked then sessions[id].Revoke(reason, now) else sessions[id];
    }

    method Create(id: SessionId, account: AccountId, deviceId: Option<string>, hash: Hash, expiresAt: int)
      returns (ok: bool)
      modifies this
      ensures ok == old(id !in sessions && !HasHash(State(), hash))
      ensures rotated == old(rotated)
      ensures sessions == if ok
        then old(sessions)[id := Session(account, hash, deviceId, false, None, None, expiresAt, None, None)]
        else old(sessions)
    {
      ok := id !in sessions && !(exists other :: other in sessions && sessions[other].hash == hash);
      if ok {
        sessions := sessions[id := Session(account, hash, deviceId, false, None, None, expiresAt, None, None)];
      }
    }

    /** The replace-then-create transaction shared by login, registration and Google login. */
    method IssueSession(account: AccountId, deviceId: Option<string>, reason: Reason,
                        id: SessionId, hash: Hash, expiresAt: int, now: int) returns (ok: bool)
      modifies this
      ensures ok == old(Issue(State(), account, deviceId, reason, id, hash, expiresAt, now)).Some?
      ensures State() == match old(Issue(State(), account, deviceId, reason, id, hash, expiresAt, now))
                         case Some(db) => db case None => old(State())
    {
      var before := State();
      if deviceId.Some? && deviceId.value != "" {
        RevokeActiveByDevice(account, deviceId.value, reason, now);
        assert forall i :: i in sessions ==> i in before.sessions && sessions[i].hash == before.sessions[i].hash;
        assert forall i :: i in before.sessions ==> i in sessions && sessions[i].hash == before.sessions[i].hash;
      }
      ok := Create(id, account, deviceId, hash, expiresAt);
      if !ok {
        sessions := before.sessions; // rolled back
      }
    }

    method RotateRefreshToken(id: SessionId, current: Hash, currentExpiresAt: int,
                              next: Hash, nextExpiresAt: int, now: int) returns (result: Option<bool>)
      modifies this
      ensures match old(Rotate(State(), id, current, currentExpiresAt, next, nextExpiresAt, now))
              case Rotated(db) => result == Some(true) && State() == db
              case NotCurrent => result == Some(false) && State() == old(State())
              case Duplicate => result == None && State() == old(State())
    {
      if !(id in sessions && sessions[id].hash == current && !sessions[id].isRevoked && now < sessions[id].expiresAt) {
        return Some(false);
      }
      if (exists other :: other in sessions && other != id && sessions[other].hash == next) {
        return None;
      }
      var before := sessions;
      sessions := sessions[id := sessions[id].(
        hash := next, expiresAt := nextExpiresAt, lastUsedAt := Some(now), rotatedAt := Some(now))];
      if current in rotated {
        sessions := before; // rolled back
        return None;
      }
      rotated := rotated[current := RotatedToken(id, now, currentExpiresAt)];
      return Some(true);
    }
  }
}

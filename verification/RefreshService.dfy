/** One refresh run from start to end without interruption, as the service writes it. */
module RefreshService {
  import opened Common
  import opened Sessions
  import opened RefreshProtocol

  function AwaitsLeft(f: Flight): nat {
    match f
    case Presented(_, _) => 4
    case Found(_, _, _, _) => 3
    case AccountChecked(_, _, _, _) => 2
    case Missing(_, _) => 1
    case Lost(_) => 1
    case Done(_) => 0
  }

  // The session is read at one time; everything after that happens by a later one.
  datatype Clock = Clock(readAt: int, commitAt: int) {
    function At(f: Flight): int {
      if f.Presented? then readAt else commitAt
    }
  }

  /** All remaining awaits, with nothing in between. */
  ghost function Finish(db: Store, accounts: map<AccountId, Account>, c: Clock, f: Flight, next: Hash,
                        expires: int): (Store, Outcome)
    decreases AwaitsLeft(f)
  {
    if f.Done? then (db, f.outcome)
    else
      var (db', f') := FlightStep(db, accounts, c.At(f), f, next, expires);
      Finish(db', accounts, c, f', next, expires)
  }

  lemma FinishLastStep(db: Store, accounts: map<AccountId, Account>, c: Clock, f: Flight, next: Hash, expires: int)
    requires !f.Done? && FlightStep(db, accounts, c.At(f), f, next, expires).1.Done?
    ensures var (db', f') := FlightStep(db, accounts, c.At(f), f, next, expires);
      Finish(db, accounts, c, f, next, expires) == (db', f'.outcome)
  {
    var (db', f') := FlightStep(db, accounts, c.At(f), f, next, expires);
    assert Finish(db', accounts, c, f', next, expires) == (db', f'.outcome);
  }

  class RefreshTokenService {
    const sessions: SessionRepository
    var accounts: map<AccountId, Account>

    constructor (sessions: SessionRepository, accounts: map<AccountId, Account>)
      ensures this.sessions == sessions && this.accounts == accounts
    {
      this.sessions, this.accounts := sessions, accounts;
    }

    method RevokeSessionsAfterReuse(account: AccountId, now: int)
      modifies sessions
      ensures sessions.State() == RevokeByAccount(old(sessions.State()), account, REFRESH_TOKEN_REUSE, now)
      ensures RevokesExactly(old(sessions.State()), sessions.State(),
                             ActiveOfAccount(old(sessions.State()), account, now), REFRESH_TOKEN_REUSE, now)
      ensures forall later :: now <= later ==> NoActiveSession(sessions.State(), account, later)
    {
      sessions.RevokeActiveByAuthAccount(account, REFRESH_TOKEN_REUSE, now);
      forall later | now <= later ensures NoActiveSession(sessions.State(), account, later) {
        RevokedAccountStaysOut(old(sessions.State()), account, REFRESH_TOKEN_REUSE, now, later);
      }
      RevokedAccountStaysOut(old(sessions.State()), account, REFRESH_TOKEN_REUSE, now, now);
    }

    method HandleMissingCurrentSession(hash: Hash, payloadId: AccountId, now: int) returns (reuse: bool)
      requires Consistent(sessions.State())
      modifies sessions
      ensures reuse <==>
        hash in old(sessions.rotated) && old(sessions.sessions[sessions.rotated[hash].sessionId].account) == payloadId
      ensures sessions.State() == if reuse
        then RevokeByAccount(old(sessions.State()), payloadId, REFRESH_TOKEN_REUSE, now) else old(sessions.State())
    {
      var owner := sessions.FindByRotatedRefreshTokenHash(hash);
      if owner.None? || sessions.sessions[owner.value].account != payloadId {
        return false;
      }
      RevokeSessionsAfterReuse(payloadId, now);
      return true;
    }

    /** `hash` and `payloadId` are those of a token that was given and whose signature verified;
        `next` and `nextExpiresAt` are those of the token signed in its place. */
    method Execute(hash: Hash, payloadId: AccountId, next: Hash, nextExpiresAt: int, c: Clock)
      returns (outcome: Outcome)
      requires Consistent(sessions.State())
      modifies sessions
      ensures (sessions.State(), outcome)
           == Finish(old(sessions.State()), accounts, c, Presented(hash, payloadId), next, nextExpiresAt)
    {
      var found := sessions.FindByRefreshTokenHash(hash);
      if found.None? {
        FinishLastStep(sessions.State(), accounts, c, Missing(hash, payloadId), next, nextExpiresAt);
        var reuse := HandleMissingCurrentSession(hash, payloadId, c.commitAt);
        return if reuse then ReuseDetected(payloadId) else InvalidToken;
      }
      var session := sessions.sessions[found.value];
      if session.account != payloadId || !session.IsActive(c.readAt) {
        return InvalidToken;
      }
      if payloadId !in accounts || accounts[payloadId].disabled {
        ghost var unchecked := Found(found.value, hash, payloadId, session.expiresAt);
        FinishLastStep(sessions.State(), accounts, c, unchecked, next, nextExpiresAt);
        return InvalidToken;
      }
      ghost var checked := AccountChecked(found.value, hash, payloadId, session.expiresAt);
      ghost var before := sessions.State();
      ghost var (after, f) := FlightStep(before, accounts, c.commitAt, checked, next, nextExpiresAt);
      assert Finish(before, accounts, c, Presented(hash, payloadId), next, nextExpiresAt)
          == Finish(before, accounts, c, checked, next, nextExpiresAt)
          == Finish(after, accounts, c, f, next, nextExpiresAt);
      if f.Lost? {
        FinishLastStep(after, accounts, c, f, next, nextExpiresAt);
      }
      var rotated := sessions.RotateRefreshToken(found.value, hash, session.expiresAt, next, nextExpiresAt, c.commitAt);
      if rotated.None? {
        return StoreError;
      }
      if !rotated.value {
        RevokeSessionsAfterReuse(session.account, c.commitAt);
        return ReuseDetected(session.account);
      }
      return Success(found.value, next);
    }
  }

  class LogoutService {
    const sessions: SessionRepository

    constructor (sessions: SessionRepository)
      ensures this.sessions == sessions
    {
      this.sessions := sessions;
    }

    /** `hash` is that of the token given, if one is. */
    method Execute(hash: Option<Hash>, now: int)
      modifies sessions
      ensures hash.None? ==> sessions.State() == old(sessions.State())
      ensures hash.Some? ==> RevokesExactly(old(sessions.State()), sessions.State(),
                                            UnrevokedWith(old(sessions.State()), hash.value), LOGOUT, now)
    {
      if hash.Some? {
        sessions.RevokeByRefreshTokenHash(hash.value, LOGOUT, now);
        RevokingHolds(old(sessions.State()), UnrevokedWith(old(sessions.State()), hash.value), LOGOUT, now);
      }
    }
  }

  /** The hash is current in an active session of the account. */
  predicate Holds(db: Store, h: Hash, account: AccountId, now: int) {
    exists id :: id in db.sessions && var s := db.sessions[id]; s.hash == h && s.account == account && s.IsActive(now)
  }

  /** The rotation of `h` to `next` meets a unique key. */
  predicate KeyTaken(db: Store, h: Hash, next: Hash) {
    h in db.rotated || exists id :: id in db.sessions && db.sessions[id].hash != h && db.sessions[id].hash == next
  }

  /** Undisturbed, a refresh is decided, in every store, by the state it starts from and the clock. It
      succeeds exactly for the current token of a session, active until the commit, of an enabled
      account, unless a unique key is taken, and then fails on that key. It reports reuse exactly for a
      token that is current nowhere and that the account did rotate away, or when the session runs out
      between the read and the commit. */
  lemma QuietRefresh(db: Store, accounts: map<AccountId, Account>, c: Clock, h: Hash, p: AccountId, next: Hash,
                     expires: int)
    requires Consistent(db) && c.readAt <= c.commitAt
    ensures var (db', outcome) := Finish(db, accounts, c, Presented(h, p), next, expires);
      var enabled := p in accounts && !accounts[p].disabled;
      && (outcome.Success? <==> enabled && Holds(db, h, p, c.commitAt) && !KeyTaken(db, h, next))
      && (outcome == StoreError <==> enabled && Holds(db, h, p, c.commitAt) && KeyTaken(db, h, next))
      && (outcome.ReuseDetected? <==>
            (!HasHash(db, h) && h in db.rotated && db.sessions[db.rotated[h].sessionId].account == p)
            || (enabled && Holds(db, h, p, c.readAt) && !Holds(db, h, p, c.commitAt)))
      && (outcome.ReuseDetected? ==> NoActiveSession(db', p, c.commitAt))
      && (outcome.InvalidToken? || outcome == StoreError ==> db' == db)
      && (outcome.Success? ==> HasHash(db', next) && h in db'.rotated && (HasHash(db', h) <==> next == h))
      && (outcome.Success? ==> outcome.id in db.sessions && outcome.next == next)
      && (outcome.Success? ==>
            var s := db.sessions[outcome.id];
            && s.hash == h && s.account == p && !s.isRevoked && c.commitAt < s.expiresAt
            && db'.sessions == db.sessions[outcome.id := s.(
                 hash := next, expiresAt := expires, lastUsedAt := Some(c.commitAt), rotatedAt := Some(c.commitAt))]
            && db'.rotated == db.rotated[h := RotatedToken(outcome.id, c.commitAt, s.expiresAt)])
  {
    if HasHash(db, h) {
      var id := WithHash(db, h);
      var found := Found(id, h, p, db.sessions[id].expiresAt);
      var checked := AccountChecked(id, h, p, db.sessions[id].expiresAt);
      if db.sessions[id].account != p || !db.sessions[id].IsActive(c.readAt) {
        FinishLastStep(db, accounts, c, Presented(h, p), next, expires);
      } else if p !in accounts || accounts[p].disabled {
        FinishLastStep(db, accounts, c, found, next, expires);
      } else {
        assert Finish(db, accounts, c, found, next, expires) == Finish(db, accounts, c, checked, next, expires);
        if db.sessions[id].IsActive(c.commitAt) {
          FinishLastStep(db, accounts, c, checked, next, expires);
          var result := Rotate(db, id, h, found.expiresAt, next, expires, c.commitAt);
          assert HashTakenByOther(db, id, next) || h in db.rotated <==> KeyTaken(db, h, next);
          assert result.Rotated? ==> result.db.sessions[id].hash == next;
        } else {
          FinishLastStep(db, accounts, c, Lost(p), next, expires);
          assert Finish(db, accounts, c, checked, next, expires) == Finish(db, accounts, c, Lost(p), next, expires);
        }
      }
    } else {
      FinishLastStep(db, accounts, c, Missing(h, p), next, expires);
    }
  }
}

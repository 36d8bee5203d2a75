/** One Google login from start to end, as the service writes it, with whatever other requests commit
    before each of its awaits. */
module GoogleLoginService {
  import opened Common
  import opened Sessions
  import G = GoogleLogin
  import opened GoogleLogin

  // The tickets of the first attempt, of the recovery, and of the recovery inside it.
  datatype Tickets = Tickets(first: Ticket, second: Ticket, third: Ticket) {
    function At(stage: Stage): Ticket {
      if stage.ReIssue? || stage.ReLink? then second else if stage.LastIssue? then third else first
    }
  }

  ghost predicate AccountKnown(db: Db, stage: Stage) {
    stage.Link? || stage.ReLink? ==> stage.account in db.accounts
  }

  lemma StepKeepsConsistent(db: Db, profile: Profile, stage: Stage, t: Ticket, now: int)
    requires G.Consistent(db) && AccountKnown(db, stage)
    ensures G.Consistent(Step(db, profile, stage, t, now).0)
    ensures AccountKnown(Step(db, profile, stage, t, now).0, Step(db, profile, stage, t, now).1)
  {
    match stage
    case Issue(a) => IssueTxEffect(db, a, t, now);
    case ReIssue(a) => IssueTxEffect(db, a, t, now);
    case LastIssue(a) => IssueTxEffect(db, a, t, now);
    case Link(a) => LinkTxEffect(db, profile, a, t, now);
    case ReLink(a) => LinkTxEffect(db, profile, a, t, now);
    case Register => RegisterTxEffect(db, profile, t, now);
    case _ =>
  }

  // What the others commit before the await of a stage.
  type Meanwhile = (Stage, Db) -> Db

  ghost predicate Orderly(meanwhile: Meanwhile) {
    forall stage, db :: G.Consistent(db) ==> G.Consistent(meanwhile(stage, db)) && Grows(db, meanwhile(stage, db))
  }

  /** All remaining awaits, each on the store the others left. */
  ghost function Finish(db: Db, profile: Profile, stage: Stage, ts: Tickets, now: int,
                        meanwhile: Meanwhile): (Db, Outcome)
    requires Orderly(meanwhile) && G.Consistent(db) && AccountKnown(db, stage)
    decreases AwaitsLeft(stage)
  {
    if stage.Done? then (db, stage.outcome)
    else
      var d := meanwhile(stage, db);
      StepKeepsConsistent(d, profile, stage, ts.At(stage), now);
      AwaitsRunOut(d, profile, stage, ts.At(stage), now);
      var (db', stage') := Step(d, profile, stage, ts.At(stage), now);
      Finish(db', profile, stage', ts, now, meanwhile)
  }

  // A step that ends the login, or one that leaves it at `next`.
  lemma FinishVia(db: Db, profile: Profile, stage: Stage, ts: Tickets, now: int, meanwhile: Meanwhile, db': Db,
                  next: Stage)
    requires Orderly(meanwhile) && G.Consistent(db) && AccountKnown(db, stage) && !stage.Done?
    requires Step(meanwhile(stage, db), profile, stage, ts.At(stage), now) == (db', next)
    ensures G.Consistent(db') && AccountKnown(db', next)
    ensures Finish(db, profile, stage, ts, now, meanwhile) == Finish(db', profile, next, ts, now, meanwhile)
    ensures next.Done? ==> Finish(db, profile, stage, ts, now, meanwhile) == (db', next.outcome)
  {
    StepKeepsConsistent(meanwhile(stage, db), profile, stage, ts.At(stage), now);
  }

  // Where a look-up leads when nothing is found, and when an enabled account is.
  function NotFound(stage: Stage): Stage {
    match stage
    case FindOAuth => FindEmail
    case FindEmail => Register
    case ReFindOAuth => ReFindEmail
    case _ => Done(DuplicateError)
  }

  function FoundEnabled(stage: Stage, account: AccountId): Stage {
    match stage
    case FindOAuth => Issue(account)
    case FindEmail => Link(account)
    case ReFindOAuth => ReIssue(account)
    case ReFindEmail => ReLink(account)
    case _ => LastIssue(account)
  }

  // The login a stage's transaction completes.
  function Entered(stage: Stage, ts: Tickets): Outcome
    requires stage.Register? || stage.Issue? || stage.ReIssue? || stage.LastIssue? || stage.Link? || stage.ReLink?
  {
    LoggedIn(if stage.Register? then ts.first.accountId else stage.account, ts.At(stage).sessionId)
  }

  // Where a transaction leads when a unique key was taken.
  function Taken(stage: Stage): Stage {
    match stage
    case ReIssue(_) => Done(DuplicateError)
    case LastIssue(_) => Done(DuplicateError)
    case ReLink(_) => LastFindOAuth
    case _ => ReFindOAuth
  }

  // What a look-up tells: nothing, a disabled account, or one that may log in.
  datatype LookUp = Nobody | DisabledAccount | CanLogIn(account: AccountId)

  function AfterLookUp(stage: Stage, found: LookUp): Stage {
    match found
    case Nobody => NotFound(stage)
    case DisabledAccount => Done(AccountDisabled)
    case CanLogIn(a) => FoundEnabled(stage, a)
  }

  class Service {
    var accounts: map<AccountId, Account>
    var links: map<ProviderId, AccountId>
    const sessions: SessionRepository

    constructor (sessions: SessionRepository)
      ensures this.sessions == sessions && accounts == map[] && links == map[]
    {
      this.sessions := sessions;
      accounts, links := map[], map[];
    }

    function State(): Db
      reads this, sessions
    {
      Db(accounts, links, sessions.State())
    }

    method FindByEmail(email: Email) returns (found: Option<AccountId>)
      requires G.Consistent(State())
      ensures found == if HasEmail(State(), email) then Some(ByEmail(State(), email)) else None
    {
      if exists a :: a in accounts && accounts[a].email == email {
        var a :| a in accounts && accounts[a].email == email;
        found := Some(a);
      } else {
        found := None;
      }
    }

    method IssueSession(account: AccountId, t: Ticket, now: int) returns (ok: bool)
      modifies sessions
      ensures var after := IssueTx(old(State()), account, t, now);
        ok == after.Some? && State() == if ok then after.value else old(State())
    {
      ok := sessions.IssueSession(account, t.deviceId, REPLACED_BY_OAUTH, t.sessionId, t.hash, t.expiresAt, now);
    }

    method LinkAndIssue(profile: Profile, account: AccountId, t: Ticket, now: int) returns (ok: bool)
      modifies this, sessions
      ensures var after := LinkTx(old(State()), profile, account, t, now);
        ok == after.Some? && State() == if ok then after.value else old(State())
    {
      if profile.providerId in links {
        return false;
      }
      var before := links;
      links := links[profile.providerId := account];
      ok := IssueSession(account, t, now);
      if !ok {
        links := before; // rolled back
      }
    }

    method RegisterAndIssue(profile: Profile, t: Ticket, now: int) returns (ok: bool)
      modifies this, sessions
      ensures var after := RegisterTx(old(State()), profile, t, now);
        ok == after.Some? && State() == if ok then after.value else old(State())
    {
      if t.accountId in accounts || exists a :: a in accounts && accounts[a].email == profile.email {
        return false;
      }
      var before := accounts;
      accounts := accounts[t.accountId := Account(profile.email, false)];
      ok := LinkAndIssue(profile, t.accountId, t, now);
      if !ok {
        accounts := before; // rolled back
      }
    }

    /** Other requests commit before the await of `stage`. */
    method Yield(stage: Stage, meanwhile: Meanwhile)
      modifies this, sessions
      ensures State() == meanwhile(stage, old(State()))
    {
      var db := meanwhile(stage, State());
      accounts, links := db.accounts, db.links;
      sessions.sessions, sessions.rotated := db.sessions.sessions, db.sessions.rotated;
    }

    method FindByOAuthAccount(stage: Stage, profile: Profile, ts: Tickets, now: int, meanwhile: Meanwhile)
      returns (found: LookUp)
      requires Orderly(meanwhile) && G.Consistent(State())
        && (stage.FindOAuth? || stage.ReFindOAuth? || stage.LastFindOAuth?)
      modifies this, sessions
      ensures G.Consistent(State()) && AccountKnown(State(), AfterLookUp(stage, found))
      ensures Finish(old(State()), profile, stage, ts, now, meanwhile)
           == Finish(State(), profile, AfterLookUp(stage, found), ts, now, meanwhile)
    {
      Yield(stage, meanwhile);
      found := if profile.providerId !in links then Nobody
        else if accounts[links[profile.providerId]].disabled then DisabledAccount
        else CanLogIn(links[profile.providerId]);
      FinishVia(old(State()), profile, stage, ts, now, meanwhile, State(), AfterLookUp(stage, found));
    }

    method FindAccountByEmail(stage: Stage, profile: Profile, ts: Tickets, now: int, meanwhile: Meanwhile)
      returns (found: LookUp)
      requires Orderly(meanwhile) && G.Consistent(State()) && (stage.FindEmail? || stage.ReFindEmail?)
      modifies this, sessions
      ensures G.Consistent(State()) && AccountKnown(State(), AfterLookUp(stage, found))
      ensures Finish(old(State()), profile, stage, ts, now, meanwhile)
           == Finish(State(), profile, AfterLookUp(stage, found), ts, now, meanwhile)
    {
      Yield(stage, meanwhile);
      var account := FindByEmail(profile.email);
      found := if account.None? then Nobody
        else if accounts[account.value].disabled then DisabledAccount
        else CanLogIn(account.value);
      FinishVia(old(State()), profile, stage, ts, now, meanwhile, State(), AfterLookUp(stage, found));
    }

    /** The transaction of a stage; false when a unique key was taken and it was rolled back. */
    method Transact(stage: Stage, profile: Profile, ts: Tickets, now: int, meanwhile: Meanwhile) returns (ok: bool)
      requires Orderly(meanwhile) && G.Consistent(State()) && AccountKnown(State(), stage)
      requires stage.Register? || stage.Issue? || stage.ReIssue? || stage.LastIssue? || stage.Link? || stage.ReLink?
      modifies this, sessions
      ensures G.Consistent(State()) && AccountKnown(State(), Taken(stage))
      ensures Finish(old(State()), profile, stage, ts, now, meanwhile)
           == if ok then (State(), Entered(stage, ts)) else Finish(State(), profile, Taken(stage), ts, now, meanwhile)
    {
      Yield(stage, meanwhile);
      if stage.Register? {
        ok := RegisterAndIssue(profile, ts.At(stage), now);
      } else if stage.Link? || stage.ReLink? {
        ok := LinkAndIssue(profile, stage.account, ts.At(stage), now);
      } else {
        ok := IssueSession(stage.account, ts.At(stage), now);
      }
      ghost var next := if ok then Done(Entered(stage, ts)) else Taken(stage);
      FinishVia(old(State()), profile, stage, ts, now, meanwhile, State(), next);
    }

    /** The first attempt; `None` means that a unique key was taken. */
    method Attempt(profile: Profile, ts: Tickets, now: int, meanwhile: Meanwhile) returns (outcome: Option<Outcome>)
      requires Orderly(meanwhile) && G.Consistent(State())
      modifies this, sessions
      ensures G.Consistent(State())
      ensures Finish(old(State()), profile, FindOAuth, ts, now, meanwhile)
           == if outcome.Some? then (State(), outcome.value)
             else Finish(State(), profile, ReFindOAuth, ts, now, meanwhile)
    {
      var stage := Register;
      var byOAuth := FindByOAuthAccount(FindOAuth, profile, ts, now, meanwhile);
      if byOAuth.DisabledAccount? {
        return Some(AccountDisabled);
      }
      if byOAuth.CanLogIn? {
        stage := Issue(byOAuth.account);
      } else {
        var byEmail := FindAccountByEmail(FindEmail, profile, ts, now, meanwhile);
        if byEmail.DisabledAccount? {
          return Some(AccountDisabled);
        }
        if byEmail.CanLogIn? {
          stage := Link(byEmail.account);
        }
      }
      var ok := Transact(stage, profile, ts, now, meanwhile);
      return if ok then Some(Entered(stage, ts)) else None;
    }

    method RecoverDuplicateLogin(profile: Profile, ts: Tickets, now: int, meanwhile: Meanwhile)
      returns (outcome: Outcome)
      requires Orderly(meanwhile) && G.Consistent(State())
      modifies this, sessions
      ensures (State(), outcome) == Finish(old(State()), profile, ReFindOAuth, ts, now, meanwhile)
    {
      var byOAuth := FindByOAuthAccount(ReFindOAuth, profile, ts, now, meanwhile);
      if byOAuth.DisabledAccount? {
        return AccountDisabled;
      }
      if byOAuth.CanLogIn? {
        var issued := Transact(ReIssue(byOAuth.account), profile, ts, now, meanwhile);
        return if issued then Entered(ReIssue(byOAuth.account), ts) else DuplicateError;
      }
      outcome := RecoverByEmail(profile, ts, now, meanwhile);
    }

    method RecoverByEmail(profile: Profile, ts: Tickets, now: int, meanwhile: Meanwhile) returns (outcome: Outcome)
      requires Orderly(meanwhile) && G.Consistent(State())
      modifies this, sessions
      ensures (State(), outcome) == Finish(old(State()), profile, ReFindEmail, ts, now, meanwhile)
    {
      var byEmail := FindAccountByEmail(ReFindEmail, profile, ts, now, meanwhile);
      if byEmail.Nobody? {
        return DuplicateError;
      }
      if byEmail.DisabledAccount? {
        return AccountDisabled;
      }
      var linked := Transact(ReLink(byEmail.account), profile, ts, now, meanwhile);
      if linked {
        return Entered(ReLink(byEmail.account), ts);
      }
      outcome := RecoverLinkedMeanwhile(profile, ts, now, meanwhile);
    }

    method RecoverLinkedMeanwhile(profile: Profile, ts: Tickets, now: int, meanwhile: Meanwhile)
      returns (outcome: Outcome)
      requires Orderly(meanwhile) && G.Consistent(State())
      modifies this, sessions
      ensures (State(), outcome) == Finish(old(State()), profile, LastFindOAuth, ts, now, meanwhile)
    {
      var last := FindByOAuthAccount(LastFindOAuth, profile, ts, now, meanwhile);
      if last.Nobody? {
        return DuplicateError;
      }
      if last.DisabledAccount? {
        return AccountDisabled;
      }
      var issued := Transact(LastIssue(last.account), profile, ts, now, meanwhile);
      return if issued then Entered(LastIssue(last.account), ts) else DuplicateError;
    }

    method Execute(profile: Profile, ts: Tickets, now: int, meanwhile: Meanwhile) returns (outcome: Outcome)
      requires Orderly(meanwhile) && G.Consistent(State())
      modifies this, sessions
      ensures (State(), outcome) == Finish(old(State()), profile, FindOAuth, ts, now, meanwhile)
    {
      var first := Attempt(profile, ts, now, meanwhile);
      if first.Some? {
        return first.value;
      }
      outcome := RecoverDuplicateLogin(profile, ts, now, meanwhile);
    }
  }

  // ---- One login undisturbed ----

  const Nothing: Meanwhile := (stage, db) => db

  // The account the identity leads to: the one linked, or else the one with the e-mail.
  ghost predicate LeadsTo(db: Db, profile: Profile, account: AccountId) {
    if profile.providerId in db.links then db.links[profile.providerId] == account
    else account in db.accounts && db.accounts[account].email == profile.email
  }

  lemma NothingIsOrderly()
    ensures Orderly(Nothing)
  {
  }

  // The first attempt ends at its second await, or comes to a transaction.
  lemma LookUps(db: Db, profile: Profile, ts: Tickets, now: int) returns (stage: Stage)
    requires G.Consistent(db) && Orderly(Nothing)
    ensures AccountKnown(db, stage)
    ensures Finish(db, profile, FindOAuth, ts, now, Nothing) == Finish(db, profile, stage, ts, now, Nothing)
    ensures if exists a :: LeadsTo(db, profile, a) then
        exists a :: a in db.accounts && LeadsTo(db, profile, a) &&
          stage == if db.accounts[a].disabled then Done(AccountDisabled)
                   else if profile.providerId in db.links then Issue(a) else Link(a)
      else stage == Register
  {
    stage := Step(db, profile, FindOAuth, ts.first, now).1;
    FinishVia(db, profile, FindOAuth, ts, now, Nothing, db, stage);
    if profile.providerId in db.links {
      assert LeadsTo(db, profile, db.links[profile.providerId]);
    } else {
      stage := Step(db, profile, FindEmail, ts.first, now).1;
      FinishVia(db, profile, FindEmail, ts, now, Nothing, db, stage);
      if HasEmail(db, profile.email) {
        var a := ByEmail(db, profile.email);
        assert a in db.accounts && db.accounts[a].email == profile.email && LeadsTo(db, profile, a);
      }
    }
  }

  /** What the login leaves besides sessions: the identity linked to the account, which is new when there was
      none, and nothing else. */
  ghost predicate LinkedOnly(db: Db, db': Db, profile: Profile, account: AccountId, known: bool) {
    && db'.links == db.links[profile.providerId := account]
    && db'.accounts == if known then db.accounts else db.accounts[account := Account(profile.email, false)]
  }

  /** What it leaves of the sessions: a new one of the account, on the device and with the token drawn; and
      of the others, exactly the active ones of the account on that device revoked. */
  ghost predicate SessionsReplaced(db: Sessions.Store, db': Sessions.Store, account: AccountId, t: Ticket, now: int) {
    && db'.rotated == db.rotated && db'.sessions.Keys == db.sessions.Keys + {t.sessionId}
    && db'.sessions[t.sessionId] == Session(account, t.hash, t.deviceId, false, None, None, t.expiresAt, None, None)
    && forall id :: id in db.sessions ==> var s := db.sessions[id];
         db'.sessions[id] ==
           if t.deviceId.Some? && t.deviceId.value != "" && s.account == account && s.deviceId == t.deviceId
              && !s.isRevoked && now < s.expiresAt
           then s.(isRevoked := true, revokeReason := Some(REPLACED_BY_OAUTH), revokedAt := Some(now)) else s
  }

  lemma IssueReplaces(db: Db, account: AccountId, t: Ticket, now: int, db': Db)
    requires IssueTx(db, account, t, now) == Some(db')
    ensures SessionsReplaced(db.sessions, db'.sessions, account, t, now) && db' == db.(sessions := db'.sessions)
  {
    IssueEffect(db.sessions, account, t.deviceId, REPLACED_BY_OAUTH, t.sessionId, t.hash, t.expiresAt, now,
      db'.sessions);
    SignInReplacesItsDeviceOnly(db.sessions, account, t.deviceId, REPLACED_BY_OAUTH, t.sessionId, t.hash, t.expiresAt,
                                now, db'.sessions);
  }

  // The transaction of a first attempt, with fresh draws.
  lemma Enters(db: Db, profile: Profile, stage: Stage, ts: Tickets, now: int)
    requires G.Consistent(db) && Orderly(Nothing) && AccountKnown(db, stage) && FreshTicket(db, ts.first)
    requires stage.Issue? ==> profile.providerId in db.links && db.links[profile.providerId] == stage.account
    requires stage.Link? ==> profile.providerId !in db.links && stage.account in db.accounts
    requires stage.Register? ==> profile.providerId !in db.links && !HasEmail(db, profile.email)
    requires stage.Issue? || stage.Link? || stage.Register?
    ensures var (db', outcome) := Finish(db, profile, stage, ts, now, Nothing);
      var account := if stage.Register? then ts.first.accountId else stage.account;
      && outcome == LoggedIn(account, ts.first.sessionId)
      && LinkedOnly(db, db', profile, account, !stage.Register?)
      && SessionsReplaced(db.sessions, db'.sessions, account, ts.first, now)
  {
    var t := ts.first;
    var (db', next) := Step(db, profile, stage, t, now);
    FinishVia(db, profile, stage, ts, now, Nothing, db', next);
    match stage
    case Issue(a) =>
      IssueTxEffect(db, a, t, now);
      IssueReplaces(db, a, t, now, db');
      assert db.links == db.links[profile.providerId := a];
    case Link(a) =>
      LinkTxEffect(db, profile, a, t, now);
      IssueReplaces(db.(links := db.links[profile.providerId := a]), a, t, now, db');
    case Register =>
      RegisterTxEffect(db, profile, t, now);
      var registered := db.(accounts := db.accounts[t.accountId := Account(profile.email, false)]);
      IssueReplaces(registered.(links := registered.links[profile.providerId := t.accountId]), t.accountId, t, now,
        db');
    case _ =>
  }

  /** Undisturbed and with fresh draws, a login is decided by the store it starts from. It is turned away if
      and only if the account linked to the identity is disabled, or, when there is no link, the account
      with the e-mail is; nothing changes then. Otherwise it is let in on that account, or on a new one
      when there is none; the identity ends up linked to it, with one new session, and nothing else
      changes but the session it replaces on its device. */
  lemma QuietLogin(db: Db, profile: Profile, ts: Tickets, now: int)
    requires G.Consistent(db) && FreshTicket(db, ts.first)
    ensures Orderly(Nothing)
    ensures var (db', outcome) := Finish(db, profile, FindOAuth, ts, now, Nothing);
      && (outcome == AccountDisabled <==>
            if profile.providerId in db.links then db.accounts[db.links[profile.providerId]].disabled
            else exists a :: a in db.accounts && db.accounts[a].email == profile.email && db.accounts[a].disabled)
      && (outcome == AccountDisabled ==> db' == db)
      && (outcome != AccountDisabled ==> outcome.LoggedIn? && outcome.sessionId == ts.first.sessionId)
      && (outcome != AccountDisabled ==> SessionsReplaced(db.sessions, db'.sessions, outcome.account, ts.first, now))
      && (outcome != AccountDisabled ==> var known := exists a :: LeadsTo(db, profile, a);
            && (if known then LeadsTo(db, profile, outcome.account) else outcome.account == ts.first.accountId)
            && LinkedOnly(db, db', profile, outcome.account, known))
  {
    NothingIsOrderly();
    var stage := LookUps(db, profile, ts, now);
    if !stage.Done? {
      if profile.providerId !in db.links && HasEmail(db, profile.email) {
        assert LeadsTo(db, profile, ByEmail(db, profile.email));
      }
      Enters(db, profile, stage, ts, now);
    }
  }
}

/** Google login: find or create an account by provider id or e-mail, with recovery from lost races
    over the unique keys. One step is one await: a read, or a whole transaction. */
module GoogleLogin {
  import opened Common
  import opened Sessions

  type Email = nat
  type ProviderId = nat

  datatype Profile = Profile(providerId: ProviderId, email: Email)

  datatype Account = Account(email: Email, disabled: bool)

  datatype Db = Db(accounts: map<AccountId, Account>, links: map<ProviderId, AccountId>, sessions: Sessions.Store)

  // What a transaction brings: ids drawn at random, and the hash and expiry of a newly signed token.
  datatype Ticket = Ticket(
    accountId: AccountId, sessionId: SessionId, deviceId: Option<string>, hash: Hash, expiresAt: int)

  datatype Outcome = LoggedIn(account: AccountId, sessionId: SessionId) | AccountDisabled | DuplicateError

  // The Re- stages belong to the first recovery, the Last- stages to the one inside it.
  datatype Stage =
    | FindOAuth | FindEmail | Issue(account: AccountId) | Link(account: AccountId) | Register
    | ReFindOAuth | ReFindEmail | ReIssue(account: AccountId) | ReLink(account: AccountId)
    | LastFindOAuth | LastIssue(account: AccountId)
    | Done(outcome: Outcome)

  predicate HasEmail(db: Db, email: Email) {
    exists a :: a in db.accounts && db.accounts[a].email == email
  }

  ghost function ByEmail(db: Db, email: Email): AccountId
    requires HasEmail(db, email)
  {
    var a :| a in db.accounts && db.accounts[a].email == email;
    a
  }

  /** The unique index on the e-mail and the foreign key of a link. */
  ghost predicate Consistent(db: Db) {
    && (forall a, b :: a in db.accounts && b in db.accounts && db.accounts[a].email == db.accounts[b].email ==> a == b)
    && (forall p :: p in db.links ==> db.links[p] in db.accounts)
    && Sessions.Consistent(db.sessions)
  }

  function IssueTx(db: Db, account: AccountId, t: Ticket, now: int): Option<Db> {
    match Sessions.Issue(db.sessions, account, t.deviceId, REPLACED_BY_OAUTH, t.sessionId, t.hash, t.expiresAt, now)
    case None => None
    case Some(s) => Some(db.(sessions := s))
  }

  function LinkTx(db: Db, profile: Profile, account: AccountId, t: Ticket, now: int): Option<Db> {
    if profile.providerId in db.links then None
    else IssueTx(db.(links := db.links[profile.providerId := account]), account, t, now)
  }

  function RegisterTx(db: Db, profile: Profile, t: Ticket, now: int): Option<Db> {
    if HasEmail(db, profile.email) || t.accountId in db.accounts then None
    else
      var registered := db.(accounts := db.accounts[t.accountId := Account(profile.email, false)]);
      LinkTx(registered, profile, t.accountId, t, now)
  }

  // A found account goes on to `next` unless it is disabled.
  function IfEnabled(db: Db, account: AccountId, next: Stage): Stage
    requires account in db.accounts
  {
    if db.accounts[account].disabled then Done(AccountDisabled) else next
  }

  function Commit(db: Db, after: Option<Db>, account: AccountId, t: Ticket, otherwise: Stage): (Db, Stage) {
    if after.Some? then (after.value, Done(LoggedIn(account, t.sessionId))) else (db, otherwise)
  }

  /** One await of a login. */
  ghost function Step(db: Db, profile: Profile, stage: Stage, t: Ticket, now: int): (Db, Stage)
    requires Consistent(db)
  {
    var linked := profile.providerId in db.links;
    match stage
    case FindOAuth =>
      (db, if linked then IfEnabled(db, db.links[profile.providerId], Issue(db.links[profile.providerId]))
        else FindEmail)
    case FindEmail =>
      (db, if HasEmail(db, profile.email)
           then var a := ByEmail(db, profile.email); IfEnabled(db, a, Link(a)) else Register)
    case Issue(a) => Commit(db, IssueTx(db, a, t, now), a, t, ReFindOAuth)
    case Link(a) => Commit(db, LinkTx(db, profile, a, t, now), a, t, ReFindOAuth)
    case Register => Commit(db, RegisterTx(db, profile, t, now), t.accountId, t, ReFindOAuth)
    case ReFindOAuth =>
      (db, if linked then IfEnabled(db, db.links[profile.providerId], ReIssue(db.links[profile.providerId]))
        else ReFindEmail)
    case ReFindEmail =>
      (db, if HasEmail(db, profile.email)
           then var a := ByEmail(db, profile.email); IfEnabled(db, a, ReLink(a)) else Done(DuplicateError))
    case ReIssue(a) => Commit(db, IssueTx(db, a, t, now), a, t, Done(DuplicateError))
    case ReLink(a) => Commit(db, LinkTx(db, profile, a, t, now), a, t, LastFindOAuth)
    case LastFindOAuth =>
      (db, if linked then IfEnabled(db, db.links[profile.providerId], LastIssue(db.links[profile.providerId]))
        else Done(DuplicateError))
    case LastIssue(a) => Commit(db, IssueTx(db, a, t, now), a, t, Done(DuplicateError))
    case Done(_) => (db, stage)
  }

  /** How many awaits are left at most. */
  function AwaitsLeft(stage: Stage): nat {
    match stage
    case FindOAuth => 8
    case FindEmail => 7
    case Issue(_) => 6
    case Link(_) => 6
    case Register => 6
    case ReFindOAuth => 5
    case ReFindEmail => 4
    case ReIssue(_) => 3
    case ReLink(_) => 3
    case LastFindOAuth => 2
    case LastIssue(_) => 1
    case Done(_) => 0
  }

  /** Every await brings a login nearer to its end, whatever the others do. */
  lemma AwaitsRunOut(db: Db, profile: Profile, stage: Stage, t: Ticket, now: int)
    requires Consistent(db) && !stage.Done?
    ensures AwaitsLeft(Step(db, profile, stage, t, now).1) < AwaitsLeft(stage)
  {
  }

  // ---- Interleaved logins ----

  type Request = nat

  // `clash` is a history variable: the transaction of this login that last met a taken id or hash.
  datatype Login = Login(profile: Profile, stage: Stage, clash: Option<Stage>)

  /** The ids and the token hash of the ticket are not in use. */
  predicate FreshTicket(db: Db, t: Ticket) {
    t.accountId !in db.accounts && t.sessionId !in db.sessions.sessions && !HasHash(db.sessions, t.hash)
  }

  /** The session's id or hash is in use. */
  predicate SessionTaken(db: Db, t: Ticket) {
    t.sessionId in db.sessions.sessions || HasHash(db.sessions, t.hash)
  }

  /** The stage is a transaction, and an id or hash it brings is in use. */
  predicate Clashes(db: Db, stage: Stage, t: Ticket) {
    match stage
    case Register => !FreshTicket(db, t)
    case Issue(_) => SessionTaken(db, t)
    case ReIssue(_) => SessionTaken(db, t)
    case LastIssue(_) => SessionTaken(db, t)
    case Link(_) => SessionTaken(db, t)
    case ReLink(_) => SessionTaken(db, t)
    case _ => false
  }

  /** One await of a login, and the login after it. */
  ghost function LoginStep(db: Db, l: Login, t: Ticket, now: int): (Db, Login)
    requires Consistent(db)
  {
    var (db', stage) := Step(db, l.profile, l.stage, t, now);
    (db', Login(l.profile, stage, if Clashes(db, l.stage, t) then Some(l.stage) else l.clash))
  }

  datatype World = World(db: Db, logins: map<Request, Login>, now: int)

  datatype Event =
    | Tick(elapsed: nat)
    | Begin(request: Request, profile: Profile)
    | Advance(request: Request, ticket: Ticket)
    | PasswordSignUp(account: AccountId, email: Email)
    | SetDisabled(account: AccountId, disabled: bool)
    | OtherSessionChange(sessions: Sessions.Store)

  // Sign-ins, refreshes and logouts add and update sessions, and never hand one to another account.
  ghost predicate OwnersKept(before: Sessions.Store, after: Sessions.Store) {
    Sessions.Consistent(after) && forall id :: id in before.sessions ==>
      id in after.sessions && after.sessions[id].account == before.sessions[id].account
  }

  ghost function Next(w: World, e: Event): World
    requires Consistent(w.db)
  {
    match e
    case Tick(elapsed) => w.(now := w.now + elapsed)
    case Begin(r, profile) => if r in w.logins then w else w.(logins := w.logins[r := Login(profile, FindOAuth, None)])
    case Advance(r, t) =>
      if r !in w.logins then w else
      var (db, login) := LoginStep(w.db, w.logins[r], t, w.now);
      w.(db := db, logins := w.logins[r := login])
    case PasswordSignUp(a, email) =>
      if a in w.db.accounts || HasEmail(w.db, email) then w
      else w.(db := w.db.(accounts := w.db.accounts[a := Account(email, false)]))
    case SetDisabled(a, disabled) =>
      if a !in w.db.accounts then w
      else w.(db := w.db.(accounts := w.db.accounts[a := w.db.accounts[a].(disabled := disabled)]))
    case OtherSessionChange(s) => if OwnersKept(w.db.sessions, s) then w.(db := w.db.(sessions := s)) else w
  }

  ghost predicate Fresh(w: World, e: Event) {
    e.Advance? ==> FreshTicket(w.db, e.ticket)
  }

  predicate ClashedAtRegister(l: Login) {
    l.clash == Some(Register)
  }

  predicate ClashedAtReLink(l: Login) {
    l.clash.Some? && l.clash.value.ReLink?
  }

  /** What a login knows at its stage; where it relies on another having won the race, the taken key may
      have been one that its own ticket brought. */
  ghost predicate Knows(db: Db, l: Login) {
    var p, e := l.profile.providerId, l.profile.email;
    match l.stage
    case Issue(a) => p in db.links && db.links[p] == a
    case Link(a) => a in db.accounts && db.accounts[a].email == e
    case ReFindOAuth => p in db.links || HasEmail(db, e) || ClashedAtRegister(l)
    case ReFindEmail => HasEmail(db, e) || ClashedAtRegister(l)
    case ReIssue(a) => p in db.links && db.links[p] == a
    case ReLink(a) => a in db.accounts && db.accounts[a].email == e
    case LastFindOAuth => p in db.links || ClashedAtReLink(l)
    case LastIssue(a) => p in db.links && db.links[p] == a
    case Done(LoggedIn(a, id)) =>
      p in db.links && db.links[p] == a && id in db.sessions.sessions && db.sessions.sessions[id].account == a
    case Done(DuplicateError) => l.clash.Some?
    case _ => true
  }

  ghost predicate Inv(w: World) {
    Consistent(w.db) && forall r :: r in w.logins ==> Knows(w.db, w.logins[r])
  }

  /** Accounts keep their e-mail, links their account and sessions their owner; none goes away. */
  ghost predicate Grows(before: Db, after: Db) {
    && (forall a :: a in before.accounts ==> a in after.accounts && after.accounts[a].email == before.accounts[a].email)
    && (forall p :: p in before.links ==> p in after.links && after.links[p] == before.links[p])
    && (forall id :: id in before.sessions.sessions ==>
          id in after.sessions.sessions && after.sessions.sessions[id].account == before.sessions.sessions[id].account)
  }

  lemma KnowledgeKeeps(before: Db, after: Db, l: Login)
    requires Grows(before, after) && Knows(before, l)
    ensures Knows(after, l)
  {
    if HasEmail(before, l.profile.email) {
      var a := ByEmail(before, l.profile.email);
      assert a in after.accounts && after.accounts[a].email == l.profile.email;
    }
  }

  lemma IssueTxEffect(db: Db, account: AccountId, t: Ticket, now: int)
    requires Consistent(db)
    ensures var after := IssueTx(db, account, t, now);
      && (after.Some? <==> !SessionTaken(db, t))
      && (after.Some? ==> var d := after.value;
            Consistent(d) && Grows(db, d) && d.accounts == db.accounts && d.links == db.links
            && t.sessionId in d.sessions.sessions && d.sessions.sessions[t.sessionId].account == account)
  {
    match Sessions.Issue(db.sessions, account, t.deviceId, REPLACED_BY_OAUTH, t.sessionId, t.hash, t.expiresAt, now)
    case None =>
    case Some(s) =>
      IssueEffect(db.sessions, account, t.deviceId, REPLACED_BY_OAUTH, t.sessionId, t.hash, t.expiresAt, now, s);
  }

  lemma LinkTxEffect(db: Db, profile: Profile, account: AccountId, t: Ticket, now: int)
    requires Consistent(db) && account in db.accounts
    ensures var after := LinkTx(db, profile, account, t, now);
      && (after.Some? <==> profile.providerId !in db.links && !SessionTaken(db, t))
      && (after.Some? ==> var d := after.value;
            && Consistent(d) && Grows(db, d) && d.accounts == db.accounts
            && d.links == db.links[profile.providerId := account]
            && t.sessionId in d.sessions.sessions && d.sessions.sessions[t.sessionId].account == account)
  {
    if profile.providerId !in db.links {
      IssueTxEffect(db.(links := db.links[profile.providerId := account]), account, t, now);
    }
  }

  lemma RegisterTxEffect(db: Db, profile: Profile, t: Ticket, now: int)
    requires Consistent(db)
    ensures var after := RegisterTx(db, profile, t, now);
      && (FreshTicket(db, t) ==> (after.Some? <==> !HasEmail(db, profile.email) && profile.providerId !in db.links))
      && (after.Some? ==> var d := after.value;
            Consistent(d) && Grows(db, d) && d.accounts == db.accounts[t.accountId := Account(profile.email, false)]
            && t.accountId !in db.accounts && d.links == db.links[profile.providerId := t.accountId]
            && t.sessionId in d.sessions.sessions && d.sessions.sessions[t.sessionId].account == t.accountId)
  {
    if !HasEmail(db, profile.email) && t.accountId !in db.accounts {
      var registered := db.(accounts := db.accounts[t.accountId := Account(profile.email, false)]);
      LinkTxEffect(registered, profile, t.accountId, t, now);
    }
  }

  /** One await keeps the store consistent and what the login knows true, whatever the ticket. */
  lemma StepKeeps(db: Db, l: Login, t: Ticket, now: int)
    requires Consistent(db) && Knows(db, l)
    ensures var (db', l') := LoginStep(db, l, t, now);
      Consistent(db') && Grows(db, db') && Knows(db', l')
  {
    match l.stage
    case Issue(a) => IssueTxEffect(db, a, t, now);
    case ReIssue(a) => IssueTxEffect(db, a, t, now);
    case LastIssue(a) => IssueTxEffect(db, a, t, now);
    case Link(a) => LinkTxEffect(db, l.profile, a, t, now);
    case ReLink(a) => LinkTxEffect(db, l.profile, a, t, now);
    case Register => RegisterTxEffect(db, l.profile, t, now);
    case _ =>
  }

  lemma SignUpKeeps(db: Db, a: AccountId, email: Email)
    requires Consistent(db) && a !in db.accounts && !HasEmail(db, email)
    ensures var db' := db.(accounts := db.accounts[a := Account(email, false)]); Consistent(db') && Grows(db, db')
  {
  }

  lemma DisablingKeeps(db: Db, a: AccountId, disabled: bool)
    requires Consistent(db) && a in db.accounts
    ensures var db' := db.(accounts := db.accounts[a := db.accounts[a].(disabled := disabled)]);
      Consistent(db') && Grows(db, db')
  {
  }

  lemma OtherEventsKeep(w: World, e: Event)
    requires Consistent(w.db) && !e.Advance?
    ensures Consistent(Next(w, e).db) && Grows(w.db, Next(w, e).db)
  {
    match e
    case PasswordSignUp(a, email) =>
      if a !in w.db.accounts && !HasEmail(w.db, email) {
        SignUpKeeps(w.db, a, email);
      }
    case SetDisabled(a, disabled) =>
      if a in w.db.accounts {
        DisablingKeeps(w.db, a, disabled);
      }
    case _ =>
  }

  lemma AllKeepKnowing(w: World, w': World)
    requires Inv(w) && Grows(w.db, w'.db)
    requires forall r :: r in w'.logins ==> (r in w.logins && w'.logins[r] == w.logins[r]) || Knows(w'.db, w'.logins[r])
    ensures forall r :: r in w'.logins ==> Knows(w'.db, w'.logins[r])
  {
    forall r | r in w'.logins
      ensures Knows(w'.db, w'.logins[r])
    {
      if r in w.logins && w'.logins[r] == w.logins[r] {
        KnowledgeKeeps(w.db, w'.db, w.logins[r]);
      }
    }
  }

  lemma NextKeepsInv(w: World, e: Event)
    requires Inv(w)
    ensures Inv(Next(w, e)) && Grows(w.db, Next(w, e).db)
  {
    if e.Advance? {
      if e.request in w.logins {
        StepKeeps(w.db, w.logins[e.request], e.ticket, w.now);
        AllKeepKnowing(w, Next(w, e));
      }
    } else {
      OtherEventsKeep(w, e);
      AllKeepKnowing(w, Next(w, e));
    }
  }

  ghost function Run(w: World, events: seq<Event>): (w': World)
    requires Inv(w)
    ensures Inv(w') && Grows(w.db, w'.db)
    decreases events
  {
    if events == [] then w
    else
      NextKeepsInv(w, events[0]);
      Run(Next(w, events[0]), events[1..])
  }

  ghost predicate HasLoggedIn(w: World, r: Request) {
    r in w.logins && w.logins[r].stage.Done? && w.logins[r].stage.outcome.LoggedIn?
  }

  /** In every interleaved run, whatever the tickets, all logins of one Google identity that succeed
      reach one account, and each session issued belongs to the account linked to the identity. */
  lemma LoginsAgree(w: World, events: seq<Event>, r: Request, s: Request)
    requires Inv(w) && HasLoggedIn(Run(w, events), r)
    ensures var w' := Run(w, events); var o, p := w'.logins[r].stage.outcome, w'.logins[r].profile.providerId;
      && o.account in w'.db.accounts && p in w'.db.links && w'.db.links[p] == o.account
      && o.sessionId in w'.db.sessions.sessions && w'.db.sessions.sessions[o.sessionId].account == o.account
      && (HasLoggedIn(w', s) && w'.logins[s].profile.providerId == p ==>
        w'.logins[s].stage.outcome.account == o.account)
  {
    var w' := Run(w, events);
    assert Knows(w'.db, w'.logins[r]);
    if HasLoggedIn(w', s) { assert Knows(w'.db, w'.logins[s]); }
  }

  // ---- When a login ends in a duplicate error ----

  /** The await that throws it out of the service: a recovery that issues its session with a taken id or
      hash; the look-up by e-mail that finds none after this login's own registration met a taken id or
      hash; or the last look-up that finds no link after its own linking met a taken one. */
  ghost predicate ThrowsDuplicate(db: Db, l: Login, t: Ticket) {
    || ((l.stage.ReIssue? || l.stage.LastIssue?) && SessionTaken(db, t))
    || (l.stage.ReFindEmail? && ClashedAtRegister(l) && !HasEmail(db, l.profile.email))
    || (l.stage.LastFindOAuth? && ClashedAtReLink(l) && l.profile.providerId !in db.links)
  }

  lemma DuplicateStep(db: Db, l: Login, t: Ticket, now: int)
    requires Consistent(db) && Knows(db, l) && !l.stage.Done?
    ensures LoginStep(db, l, t, now).1.stage == Done(DuplicateError) <==> ThrowsDuplicate(db, l, t)
  {
    match l.stage
    case ReIssue(a) => IssueTxEffect(db, a, t, now);
    case LastIssue(a) => IssueTxEffect(db, a, t, now);
    case _ =>
  }

  /** The event is the await of `r` that throws. */
  ghost predicate EventThrows(w: World, e: Event, r: Request) {
    e.Advance? && e.request == r && r in w.logins && ThrowsDuplicate(w.db, w.logins[r], e.ticket)
  }

  ghost predicate EverThrows(w: World, events: seq<Event>, r: Request)
    requires Inv(w)
    decreases events
  {
    events != [] && (EventThrows(w, events[0], r)
                     || (NextKeepsInv(w, events[0]); EverThrows(Next(w, events[0]), events[1..], r)))
  }

  ghost predicate EndedInDuplicate(w: World, r: Request) {
    r in w.logins && w.logins[r].stage == Done(DuplicateError)
  }

  lemma DuplicateEvent(w: World, e: Event, r: Request)
    requires Inv(w)
    ensures EndedInDuplicate(Next(w, e), r) <==> EndedInDuplicate(w, r) || EventThrows(w, e, r)
  {
    if e.Advance? && e.request == r && r in w.logins && !w.logins[r].stage.Done? {
      DuplicateStep(w.db, w.logins[r], e.ticket, w.now);
    }
  }

  /** In every interleaved run, whatever the tickets, a login ends in a duplicate error if and only if
      one of its awaits meets one of the three conditions. */
  lemma {:induction false} DuplicateExactlyWhen(w: World, events: seq<Event>, r: Request)
    requires Inv(w)
    ensures EndedInDuplicate(Run(w, events), r) <==> EndedInDuplicate(w, r) || EverThrows(w, events, r)
    decreases events
  {
    if events != [] {
      DuplicateEvent(w, events[0], r);
      NextKeepsInv(w, events[0]);
      DuplicateExactlyWhen(Next(w, events[0]), events[1..], r);
    }
  }

  /** The identity is not linked yet, no account is disabled, and the ticket's session is taken. */
  ghost predicate Unlucky(w: World, r: Request, t: Ticket) {
    && r in w.logins && w.logins[r].profile.providerId !in w.db.links && SessionTaken(w.db, t)
    && forall a :: a in w.db.accounts ==> !w.db.accounts[a].disabled
  }

  lemma UnluckyStep(w: World, r: Request, t: Ticket)
    requires Inv(w) && Unlucky(w, r, t) && !w.logins[r].stage.Done?
    ensures var w' := Next(w, Advance(r, t));
      && w'.db == w.db && Unlucky(w', r, t) && AwaitsLeft(w'.logins[r].stage) < AwaitsLeft(w.logins[r].stage)
      && (w'.logins[r].stage.Done? ==> EndedInDuplicate(w', r))
  {
    assert Knows(w.db, w.logins[r]);
  }

  /** It does happen: undisturbed, a login of an identity not linked yet ends in a duplicate error from
      every stage on when each ticket brings a session id or hash that is taken, as the hash of a token
      signed for the same account in the same second is. */
  lemma {:induction false} TakenTicketFails(w: World, r: Request, t: Ticket) returns (events: seq<Event>)
    requires Inv(w) && Unlucky(w, r, t) && !w.logins[r].stage.Done?
    ensures EndedInDuplicate(Run(w, events), r)
    decreases AwaitsLeft(w.logins[r].stage)
  {
    var step := Advance(r, t);
    UnluckyStep(w, r, t);
    NextKeepsInv(w, step);
    var w' := Next(w, step);
    if w'.logins[r].stage.Done? {
      events := [step];
      assert events[1..] == [];
      assert Run(w', []) == w';
    } else {
      var rest := TakenTicketFails(w', r, t);
      events := [step] + rest;
      assert events[1..] == rest;
    }
  }

  ghost predicate FreshRun(w: World, events: seq<Event>)
    requires Inv(w)
    decreases events
  {
    events == [] || (Fresh(w, events[0]) && (NextKeepsInv(w, events[0]); FreshRun(Next(w, events[0]), events[1..])))
  }

  ghost predicate NoClash(w: World) {
    forall r :: r in w.logins ==> w.logins[r].clash.None?
  }

  /** With fresh tickets no transaction ever clashes, so that no login fails on a lost race. */
  lemma {:induction false} FreshRunsNeverFail(w: World, events: seq<Event>, r: Request)
    requires Inv(w) && NoClash(w) && FreshRun(w, events)
    ensures NoClash(Run(w, events)) && !EndedInDuplicate(Run(w, events), r)
    decreases events
  {
    if events != [] {
      NextKeepsInv(w, events[0]);
      FreshRunsNeverFail(Next(w, events[0]), events[1..], r);
    } else if r in w.logins {
      assert Knows(w.db, w.logins[r]);
    }
  }

  // ---- Disabled accounts ----

  /** The look-up that is next finds a disabled account: the one linked to the identity, or the one with its
      e-mail. */
  ghost predicate FindsDisabled(db: Db, l: Login) {
    var p, e := l.profile.providerId, l.profile.email;
    if l.stage.FindOAuth? || l.stage.ReFindOAuth? || l.stage.LastFindOAuth? then
      p in db.links && db.links[p] in db.accounts && db.accounts[db.links[p]].disabled
    else
      && (l.stage.FindEmail? || l.stage.ReFindEmail?)
      && exists a :: a in db.accounts && db.accounts[a].email == e && db.accounts[a].disabled
  }

  lemma DisabledStep(db: Db, l: Login, t: Ticket, now: int)
    requires Consistent(db) && !l.stage.Done?
    ensures LoginStep(db, l, t, now).1.stage == Done(AccountDisabled) <==> FindsDisabled(db, l)
    ensures FindsDisabled(db, l) ==> LoginStep(db, l, t, now).0 == db
  {
    if HasEmail(db, l.profile.email) {
      var a := ByEmail(db, l.profile.email);
      assert a in db.accounts && db.accounts[a].email == l.profile.email;
    }
  }

  ghost predicate EventFindsDisabled(w: World, e: Event, r: Request) {
    e.Advance? && e.request == r && r in w.logins && FindsDisabled(w.db, w.logins[r])
  }

  ghost predicate EverFindsDisabled(w: World, events: seq<Event>, r: Request)
    requires Inv(w)
    decreases events
  {
    events != [] && (EventFindsDisabled(w, events[0], r)
                     || (NextKeepsInv(w, events[0]); EverFindsDisabled(Next(w, events[0]), events[1..], r)))
  }

  ghost predicate EndedDisabled(w: World, r: Request) {
    r in w.logins && w.logins[r].stage == Done(AccountDisabled)
  }

  lemma DisabledEvent(w: World, e: Event, r: Request)
    requires Inv(w)
    ensures EndedDisabled(Next(w, e), r) <==> EndedDisabled(w, r) || EventFindsDisabled(w, e, r)
    ensures EventFindsDisabled(w, e, r) || (EndedDisabled(w, r) && e.Advance? && e.request == r) ==>
      Next(w, e).db == w.db
  {
    if e.Advance? && e.request == r && r in w.logins && !w.logins[r].stage.Done? {
      DisabledStep(w.db, w.logins[r], e.ticket, w.now);
    }
  }

  /** In every interleaved run a login is turned away if and only if one of its look-ups finds an account
      that is disabled at that moment. That look-up, and every await after it, leaves accounts, links and
      sessions as they are: a login that is turned away issues nothing, then or later. */
  lemma {:induction false} TurnedAwayExactlyWhen(w: World, events: seq<Event>, r: Request)
    requires Inv(w)
    ensures EndedDisabled(Run(w, events), r) <==> EndedDisabled(w, r) || EverFindsDisabled(w, events, r)
    ensures EndedDisabled(w, r) ==> Run(w, events).logins[r] == w.logins[r]
    decreases events
  {
    if events != [] {
      DisabledEvent(w, events[0], r);
      NextKeepsInv(w, events[0]);
      TurnedAwayExactlyWhen(Next(w, events[0]), events[1..], r);
    }
  }

  /** No await lets a login in on an account its look-up just found disabled: whatever transaction it stands
      before, an earlier await of its own saw that account enabled. */
  lemma EnabledWhenFound(db: Db, l: Login, t: Ticket, now: int)
    requires Consistent(db) && !l.stage.Done?
    ensures var after := LoginStep(db, l, t, now).1.stage;
      (after.Issue? || after.ReIssue? || after.LastIssue? || after.Link? || after.ReLink?) ==>
        after.account in db.accounts && !db.accounts[after.account].disabled
  {
    if HasEmail(db, l.profile.email) {
      var a := ByEmail(db, l.profile.email);
      assert a in db.accounts && db.accounts[a].email == l.profile.email;
    }
  }

  // ---- First logins ----

  // Google names one e-mail per provider id, and nobody disables an account.
  ghost predicate Ordinary(e: Event, emailOf: ProviderId -> Email) {
    && (e.Begin? ==> e.profile.email == emailOf(e.profile.providerId))
    && (e.SetDisabled? ==> !e.disabled)
  }

  ghost predicate OrdinaryDb(db: Db, emailOf: ProviderId -> Email) {
    && (forall a :: a in db.accounts ==> !db.accounts[a].disabled)
    && (forall p :: p in db.links && db.links[p] in db.accounts ==> db.accounts[db.links[p]].email == emailOf(p))
  }

  ghost predicate OrdinaryLogin(l: Login, emailOf: ProviderId -> Email) {
    l.profile.email == emailOf(l.profile.providerId) && l.stage != Done(AccountDisabled) && l.clash.None?
  }

  ghost predicate OrdinaryWorld(w: World, emailOf: ProviderId -> Email) {
    OrdinaryDb(w.db, emailOf) && forall r :: r in w.logins ==> OrdinaryLogin(w.logins[r], emailOf)
  }

  lemma AwaitKeepsDb(db: Db, l: Login, t: Ticket, now: int, emailOf: ProviderId -> Email)
    requires Consistent(db) && Knows(db, l) && OrdinaryDb(db, emailOf) && OrdinaryLogin(l, emailOf)
    ensures OrdinaryDb(LoginStep(db, l, t, now).0, emailOf)
  {
    match l.stage
    case Issue(a) => IssueTxEffect(db, a, t, now);
    case ReIssue(a) => IssueTxEffect(db, a, t, now);
    case LastIssue(a) => IssueTxEffect(db, a, t, now);
    case Link(a) => LinkTxEffect(db, l.profile, a, t, now);
    case ReLink(a) => LinkTxEffect(db, l.profile, a, t, now);
    case Register => RegisterTxEffect(db, l.profile, t, now);
    case _ =>
  }

  lemma AwaitKeepsLogin(db: Db, l: Login, t: Ticket, now: int, emailOf: ProviderId -> Email)
    requires Consistent(db) && FreshTicket(db, t) && OrdinaryDb(db, emailOf) && OrdinaryLogin(l, emailOf)
    ensures OrdinaryLogin(LoginStep(db, l, t, now).1, emailOf)
  {
  }

  lemma OrdinaryStep(w: World, e: Event, emailOf: ProviderId -> Email)
    requires Inv(w) && OrdinaryWorld(w, emailOf) && Fresh(w, e) && Ordinary(e, emailOf)
    ensures OrdinaryWorld(Next(w, e), emailOf)
  {
    if e.Advance? && e.request in w.logins {
      AwaitKeepsDb(w.db, w.logins[e.request], e.ticket, w.now, emailOf);
      AwaitKeepsLogin(w.db, w.logins[e.request], e.ticket, w.now, emailOf);
    }
  }

  lemma {:induction false} OrdinaryRun(w: World, events: seq<Event>, emailOf: ProviderId -> Email)
    requires Inv(w) && OrdinaryWorld(w, emailOf) && FreshRun(w, events)
    requires forall i :: 0 <= i < |events| ==> Ordinary(events[i], emailOf)
    ensures OrdinaryWorld(Run(w, events), emailOf)
    decreases events
  {
    if events != [] {
      OrdinaryStep(w, events[0], emailOf);
      NextKeepsInv(w, events[0]);
      OrdinaryRun(Next(w, events[0]), events[1..], emailOf);
    }
  }

  const Start := World(Db(map[], map[], Sessions.Store(map[], map[])), map[], 0)

  lemma StartIsOrdinary(emailOf: ProviderId -> Email)
    ensures Inv(Start) && OrdinaryWorld(Start, emailOf)
  {
  }

  /** However many first logins of one identity race, with each other and with password sign-ups for
      the same e-mail, every one that has run its awaits is logged in, on the one account there is
      for the e-mail. The run may begin at Start. */
  lemma FirstLoginsShareOneAccount(w: World, events: seq<Event>, emailOf: ProviderId -> Email, r: Request)
    requires Inv(w) && OrdinaryWorld(w, emailOf) && FreshRun(w, events)
    requires forall i :: 0 <= i < |events| ==> Ordinary(events[i], emailOf)
    requires r in Run(w, events).logins && AwaitsLeft(Run(w, events).logins[r].stage) == 0
    ensures var w', l := Run(w, events), Run(w, events).logins[r];
      && l.stage.outcome.LoggedIn? && l.stage.outcome.account in w'.db.accounts
      && w'.db.accounts[l.stage.outcome.account].email == l.profile.email
      && (forall b :: b in w'.db.accounts && w'.db.accounts[b].email == l.profile.email ==>
        b == l.stage.outcome.account)
  {
    OrdinaryRun(w, events, emailOf);
    EndsLoggedIn(Run(w, events), r, emailOf);
  }

  lemma EndsLoggedIn(w: World, r: Request, emailOf: ProviderId -> Email)
    requires Inv(w) && OrdinaryWorld(w, emailOf) && r in w.logins && w.logins[r].stage.Done?
    ensures var l := w.logins[r];
      && l.stage.outcome.LoggedIn? && l.stage.outcome.account in w.db.accounts
      && w.db.accounts[l.stage.outcome.account].email == l.profile.email
      && (forall b :: b in w.db.accounts && w.db.accounts[b].email == l.profile.email ==> b == l.stage.outcome.account)
  {
    assert Knows(w.db, w.logins[r]) && OrdinaryLogin(w.logins[r], emailOf);
  }
}

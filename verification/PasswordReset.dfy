/** Password-reset tokens: the superseding request, the commit of a reset, and their interleavings. */
module PasswordReset {
  import opened Common
  import opened Sessions

  type TokenId = nat
  type PasswordHash = nat

  datatype ResetToken = ResetToken(account: AccountId, tokenHash: Hash, expiresAt: int, usedAt: Option<int>)

  type Tokens = map<TokenId, ResetToken>

  predicate HasToken(tokens: Tokens, h: Hash) {
    exists id :: id in tokens && tokens[id].tokenHash == h
  }

  ghost function TokenWith(tokens: Tokens, h: Hash): TokenId
    requires HasToken(tokens, h)
  {
    var id :| id in tokens && tokens[id].tokenHash == h;
    id
  }

  // The unique index on the token hash.
  ghost predicate UniqueTokens(tokens: Tokens) {
    forall a, b :: a in tokens && b in tokens && tokens[a].tokenHash == tokens[b].tokenHash ==> a == b
  }

  function Supersede(tokens: Tokens, account: AccountId, now: int): Tokens {
    map id | id in tokens ::
      if tokens[id].account == account && tokens[id].usedAt.None? then tokens[id].(usedAt := Some(now)) else tokens[id]
  }

  /** Superseding leaves the account no usable token at any time, and nothing else changes: every other
      token, and the time at which a used one was used, stays. */
  lemma SupersededTokensAreSpent(tokens: Tokens, account: AccountId, now: int)
    ensures var after := Supersede(tokens, account, now);
      && after.Keys == tokens.Keys && (UniqueTokens(tokens) ==> UniqueTokens(after))
      && (forall id, t :: id in after && after[id].account == account ==> !Usable(after[id], t))
      && (forall id :: id in tokens && (tokens[id].account != account || tokens[id].usedAt.Some?) ==>
            after[id] == tokens[id])
      && (forall h :: HasToken(after, h) <==> HasToken(tokens, h))
      && (forall later :: Supersede(after, account, later) == after)
  {
    var after := Supersede(tokens, account, now);
    forall h ensures HasToken(after, h) <==> HasToken(tokens, h) {
      assert forall i :: i in tokens ==> after[i].tokenHash == tokens[i].tokenHash;
    }
  }

  /** Looking up undoes issuing: the new hash leads to the new token, which is usable until it runs out
      and is the only usable token of its account. */
  lemma IssuedTokenIsFound(tokens: Tokens, id: TokenId, account: AccountId, h: Hash, expiresAt: int, now: int)
    requires UniqueTokens(tokens) && Issued(tokens, id, account, h, expiresAt, now).Some?
    ensures var after := Issued(tokens, id, account, h, expiresAt, now).value;
      && HasToken(after, h) && TokenWith(after, h) == id && after[id].account == account
      && (forall t :: Usable(after[id], t) <==> t < expiresAt)
      && (forall other, t :: other in after && other != id && after[other].account == account ==>
        !Usable(after[other], t))
  {
    var after := Issued(tokens, id, account, h, expiresAt, now).value;
    assert after[id].tokenHash == h;
    var cleared := Supersede(tokens, account, now);
    assert forall i :: i in tokens ==> cleared[i].tokenHash == tokens[i].tokenHash;
    SupersededTokensAreSpent(tokens, account, now);
  }

  /** A token marked used is still the one its hash leads to, is usable at no time, and leaves every
      other token as it is. */
  lemma MarkedTokenIsSpent(tokens: Tokens, id: TokenId, now: int)
    requires UniqueTokens(tokens) && id in tokens
    ensures var after := tokens[id := tokens[id].(usedAt := Some(now))];
      && HasToken(after, tokens[id].tokenHash) && TokenWith(after, tokens[id].tokenHash) == id
      && (forall t :: !Usable(after[id], t)) && after[id].account == tokens[id].account
      && after.Keys == tokens.Keys && (forall other :: other in tokens && other != id ==> after[other] == tokens[other])
  {
    var after := tokens[id := tokens[id].(usedAt := Some(now))];
    assert after[id].tokenHash == tokens[id].tokenHash;
  }

  /** The request transaction: older unused tokens are marked used, then the new one is stored;
      a taken id or hash undoes both. */
  function Issued(tokens: Tokens, id: TokenId, account: AccountId, h: Hash, expiresAt: int, now: int): Option<Tokens> {
    if id in tokens || HasToken(tokens, h) then None
    else Some(Supersede(tokens, account, now)[id := ResetToken(account, h, expiresAt, None)])
  }

  /** The token may be spent: it is unused and has not run out. */
  predicate Usable(t: ResetToken, now: int) {
    t.usedAt.None? && now < t.expiresAt
  }

  datatype ResetStore = ResetStore(tokens: Tokens, passwords: map<AccountId, PasswordHash>, db: Sessions.Store)

  /** The reset transaction: new password, token marked used, active sessions revoked. */
  function Committed(s: ResetStore, id: TokenId, account: AccountId, password: PasswordHash, now: int): ResetStore
    requires id in s.tokens
  {
    ResetStore(s.tokens[id := s.tokens[id].(usedAt := Some(now))], s.passwords[account := password],
          RevokeByAccount(s.db, account, PASSWORD_RESET, now))
  }

  class PasswordResetTokenRepository {
    var tokens: Tokens

    constructor ()
      ensures tokens == map[]
    {
      tokens := map[];
    }

    method MarkUnusedByAuthAccountUsed(account: AccountId, usedAt: int)
      modifies this
      ensures tokens == Supersede(old(tokens), account, usedAt)
    {
      tokens := map id | id in tokens ::
        if tokens[id].account == account && tokens[id].usedAt.None? then tokens[id].(usedAt := Some(usedAt))
        else tokens[id];
    }

    method Create(id: TokenId, account: AccountId, h: Hash, expiresAt: int) returns (ok: bool)
      modifies this
      ensures ok == old(id !in tokens && !HasToken(tokens, h))
      ensures tokens == if ok then old(tokens)[id := ResetToken(account, h, expiresAt, None)] else old(tokens)
    {
      ok := id !in tokens && !(exists other :: other in tokens && tokens[other].tokenHash == h);
      if ok {
        tokens := tokens[id := ResetToken(account, h, expiresAt, None)];
      }
    }

    method FindByTokenHash(h: Hash) returns (found: Option<TokenId>)
      requires UniqueTokens(tokens)
      ensures found == if HasToken(tokens, h) then Some(TokenWith(tokens, h)) else None
    {
      if exists id :: id in tokens && tokens[id].tokenHash == h {
        var id :| id in tokens && tokens[id].tokenHash == h;
        found := Some(id);
      } else {
        found := None;
      }
    }

    method MarkUsed(id: TokenId, usedAt: int)
      requires id in tokens
      modifies this
      ensures tokens == old(tokens)[id := old(tokens)[id].(usedAt := Some(usedAt))]
    {
      tokens := tokens[id := tokens[id].(usedAt := Some(usedAt))];
    }

    /** The transaction of a reset request. */
    method Request(id: TokenId, account: AccountId, h: Hash, expiresAt: int, now: int) returns (ok: bool)
      modifies this
      ensures ok == old(Issued(tokens, id, account, h, expiresAt, now)).Some?
      ensures tokens == if ok then old(Issued(tokens, id, account, h, expiresAt, now)).value else old(tokens)
    {
      var before := tokens;
      MarkUnusedByAuthAccountUsed(account, now);
      assert HasToken(tokens, h) <==> HasToken(before, h) by {
        assert forall i :: i in tokens <==> i in before;
        assert forall i :: i in before ==> tokens[i].tokenHash == before[i].tokenHash;
      }
      ok := Create(id, account, h, expiresAt);
      if !ok {
        tokens := before; // rolled back
      }
    }
  }

  class ResetPasswordService {
    const resets: PasswordResetTokenRepository
    const sessions: SessionRepository
    var passwords: map<AccountId, PasswordHash>
    var disabled: set<AccountId>

    constructor (resets: PasswordResetTokenRepository, sessions: SessionRepository)
      ensures this.resets == resets && this.sessions == sessions && passwords == map[] && disabled == {}
    {
      this.resets, this.sessions := resets, sessions;
      passwords, disabled := map[], {};
    }

    function State(): ResetStore
      reads this, resets, sessions
    {
      ResetStore(resets.tokens, passwords, sessions.State())
    }

    /** One reset from start to end; `h` is the hash of the token given. */
    method Execute(h: Hash, password: PasswordHash, readAt: int, commitAt: int) returns (ok: bool)
      requires UniqueTokens(resets.tokens)
      modifies this, resets, sessions
      ensures ok <==> old(HasToken(resets.tokens, h)) && old(var t := resets.tokens[TokenWith(resets.tokens, h)];
        Usable(t, readAt) && t.account in passwords && t.account !in disabled)
      ensures !ok ==> State() == old(State())
      ensures ok ==> State() == old(var id := TokenWith(resets.tokens, h);
        Committed(State(), id, resets.tokens[id].account, password, commitAt))
      ensures disabled == old(disabled)
    {
      var found := resets.FindByTokenHash(h);
      if found.None? || resets.tokens[found.value].usedAt.Some? || resets.tokens[found.value].expiresAt <= readAt {
        return false;
      }
      var account := resets.tokens[found.value].account;
      if account !in passwords || account in disabled {
        return false;
      }
      passwords := passwords[account := password];
      resets.MarkUsed(found.value, commitAt);
      sessions.RevokeActiveByAuthAccount(account, PASSWORD_RESET, commitAt);
      return true;
    }
  }

  // ---- Interleaved requests and resets ----

  type Request = nat

  datatype Flight =
    | Presented(tokenHash: Hash, password: PasswordHash)
    | TokenRead(id: TokenId, password: PasswordHash)
    | AccountRead(id: TokenId, password: PasswordHash)
    | Rejected
    | Reset(id: TokenId)

  datatype World = World(s: ResetStore, disabled: set<AccountId>, flights: map<Request, Flight>, now: int)

  datatype Event =
    | Tick(elapsed: nat)
    | SetDisabled(disabled: set<AccountId>)
    | OtherSessionChange(db: Sessions.Store) // whatever sign-ins, refreshes and logouts do meanwhile
    | Issue(id: TokenId, account: AccountId, tokenHash: Hash, expiresAt: int)
    | Present(request: Request, tokenHash: Hash, password: PasswordHash)
    | Advance(request: Request)

  ghost function Next(w: World, e: Event): World {
    match e
    case Tick(elapsed) => w.(now := w.now + elapsed)
    case SetDisabled(d) => w.(disabled := d)
    case OtherSessionChange(db) => w.(s := w.s.(db := db))
    case Issue(id, a, h, expires) =>
      (match Issued(w.s.tokens, id, a, h, expires, w.now)
       case None => w
       case Some(tokens) => w.(s := w.s.(tokens := tokens)))
    case Present(r, h, p) => if r in w.flights then w else w.(flights := w.flights[r := Presented(h, p)])
    case Advance(r) =>
      if r !in w.flights then w else
      match w.flights[r]
      case Presented(h, p) =>
        if HasToken(w.s.tokens, h) && Usable(w.s.tokens[TokenWith(w.s.tokens, h)], w.now)
        then w.(flights := w.flights[r := TokenRead(TokenWith(w.s.tokens, h), p)])
        else w.(flights := w.flights[r := Rejected])
      case TokenRead(id, p) =>
        if id in w.s.tokens && w.s.tokens[id].account in w.s.passwords && w.s.tokens[id].account !in w.disabled
        then w.(flights := w.flights[r := AccountRead(id, p)])
        else w.(flights := w.flights[r := Rejected])
      case AccountRead(id, p) =>
        if id !in w.s.tokens then w.(flights := w.flights[r := Rejected]) else
        w.(s := Committed(w.s, id, w.s.tokens[id].account, p, w.now), flights := w.flights[r := Reset(id)])
      case _ => w
  }

  ghost function Run(w: World, events: seq<Event>): World
    decreases events
  {
    if events == [] then w else Run(Next(w, events[0]), events[1..])
  }

  ghost predicate OneUnusedEach(tokens: Tokens) {
    forall a, b :: a in tokens && b in tokens && a != b && tokens[a].account == tokens[b].account
      ==> tokens[a].usedAt.Some? || tokens[b].usedAt.Some?
  }

  ghost predicate Used(tokens: Tokens, id: TokenId) {
    id in tokens && tokens[id].usedAt.Some?
  }

  /** No token goes away, changes its account or hash, or becomes unused again. */
  ghost predicate SameTokensKept(before: Tokens, after: Tokens) {
    forall id :: id in before ==>
      && id in after && after[id].account == before[id].account && after[id].tokenHash == before[id].tokenHash
      && (before[id].usedAt.Some? ==> after[id].usedAt.Some?)
  }

  /** In every run an account has at most one unused token, and a used one stays used, on the same
      account and hash, for ever. */
  lemma {:induction false} TokensAlways(w: World, events: seq<Event>)
    requires UniqueTokens(w.s.tokens) && OneUnusedEach(w.s.tokens)
    ensures var tokens := Run(w, events).s.tokens;
      && UniqueTokens(tokens) && OneUnusedEach(tokens)
      && SameTokensKept(w.s.tokens, tokens)
    decreases events
  {
    if events != [] {
      TokensStep(w, events[0]);
      TokensAlways(Next(w, events[0]), events[1..]);
    }
  }

  lemma IssuedKeepsTokens(tokens: Tokens, id: TokenId, account: AccountId, h: Hash, expiresAt: int, now: int)
    requires UniqueTokens(tokens) && OneUnusedEach(tokens) && Issued(tokens, id, account, h, expiresAt, now).Some?
    ensures var after := Issued(tokens, id, account, h, expiresAt, now).value;
      UniqueTokens(after) && OneUnusedEach(after) && SameTokensKept(tokens, after)
  {
    var cleared := Supersede(tokens, account, now);
    assert forall i :: i in tokens ==>
      i in cleared && cleared[i].tokenHash == tokens[i].tokenHash && cleared[i].account == tokens[i].account;
    assert forall i :: i in tokens && cleared[i].usedAt.None? ==>
      cleared[i].account != account && tokens[i].usedAt.None?;
  }

  lemma MarkUsedKeepsTokens(tokens: Tokens, id: TokenId, now: int)
    requires UniqueTokens(tokens) && OneUnusedEach(tokens) && id in tokens
    ensures var after := tokens[id := tokens[id].(usedAt := Some(now))];
      UniqueTokens(after) && OneUnusedEach(after) && SameTokensKept(tokens, after)
  {
  }

  lemma TokensStep(w: World, e: Event)
    requires UniqueTokens(w.s.tokens) && OneUnusedEach(w.s.tokens)
    ensures var tokens := Next(w, e).s.tokens;
      UniqueTokens(tokens) && OneUnusedEach(tokens) && SameTokensKept(w.s.tokens, tokens)
  {
    if e.Issue? && Issued(w.s.tokens, e.id, e.account, e.tokenHash, e.expiresAt, w.now).Some? {
      IssuedKeepsTokens(w.s.tokens, e.id, e.account, e.tokenHash, e.expiresAt, w.now);
    } else if e.Advance? && e.request in w.flights && w.flights[e.request].AccountRead?
      && w.flights[e.request].id in w.s.tokens {
      MarkUsedKeepsTokens(w.s.tokens, w.flights[e.request].id, w.now);
    }
  }

  /** The step that completes a reset leaves the account without an active session and its token
      used; no other step of a reset changes anything but where the reset stands. */
  lemma ResetSignsOutEverywhere(w: World, r: Request)
    requires r in w.flights && !w.flights[r].Reset?
    ensures var w' := Next(w, Advance(r));
      if w'.flights[r].Reset? then
        var id := w'.flights[r].id;
        && id in w.s.tokens && Used(w'.s.tokens, id) && NoActiveSession(w'.s.db, w.s.tokens[id].account, w'.now)
        && (forall other :: other in w.s.tokens && other != id ==>
          other in w'.s.tokens && w'.s.tokens[other] == w.s.tokens[other])
        && w'.s.passwords == w.s.passwords[w.s.tokens[id].account := w.flights[r].password]
        && w'.s.db.rotated == w.s.db.rotated
      else w'.s == w.s
  {
  }

  /** Undisturbed, a reset goes through if and only if its token exists, is unused and has not run out, and
      its account exists and is enabled. It then sets that account's password, spends that token, and
      revokes exactly the account's active sessions; otherwise nothing changes. */
  lemma QuietReset(w: World, r: Request, h: Hash, password: PasswordHash)
    requires UniqueTokens(w.s.tokens) && r in w.flights && w.flights[r] == Presented(h, password)
    ensures var w' := Next(Next(Next(w, Advance(r)), Advance(r)), Advance(r));
      && r in w'.flights
      && (w'.flights[r].Reset? <==> exists id :: id in w.s.tokens && MayReset(w, id, h))
      && (!w'.flights[r].Reset? ==> w'.flights[r] == Rejected && w'.s == w.s)
      && (w'.flights[r].Reset? ==>
            MayReset(w, w'.flights[r].id, h) && ResetBy(w.s, w'.s, w'.flights[r].id, password, w.now))
  {
    if HasToken(w.s.tokens, h) {
      var id := TokenWith(w.s.tokens, h);
      assert id in w.s.tokens;
      RevokedAccountStaysOut(w.s.db, w.s.tokens[id].account, PASSWORD_RESET, w.now, w.now);
      if Next(w, Advance(r)).flights[r].TokenRead? {
        assert Next(w, Advance(r)).flights[r].id == id;
      }
    }
  }

  ghost predicate MayReset(w: World, id: TokenId, h: Hash) {
    && id in w.s.tokens && w.s.tokens[id].tokenHash == h && w.s.tokens[id].usedAt.None?
      && w.now < w.s.tokens[id].expiresAt
    && w.s.tokens[id].account in w.s.passwords && w.s.tokens[id].account !in w.disabled
  }

  ghost predicate ResetBy(s: ResetStore, s': ResetStore, id: TokenId, password: PasswordHash, now: int) {
    && id in s.tokens && var account := s.tokens[id].account;
    && s'.passwords == s.passwords[account := password]
    && s'.tokens == s.tokens[id := s.tokens[id].(usedAt := Some(now))]
    && s'.db.rotated == s.db.rotated && s'.db.sessions.Keys == s.db.sessions.Keys
    && forall k :: k in s.db.sessions ==> var t := s.db.sessions[k];
         s'.db.sessions[k] == if t.account == account && !t.isRevoked && now < t.expiresAt
           then t.(isRevoked := true, revokeReason := Some(PASSWORD_RESET), revokedAt := Some(now)) else t
  }

  /** Presented after it was used, a token never resets anything, in any run. */
  lemma {:induction false} UsedTokenNeverResets(w: World, events: seq<Event>, r: Request, id: TokenId, p: PasswordHash)
    requires UniqueTokens(w.s.tokens) && OneUnusedEach(w.s.tokens) && Used(w.s.tokens, id)
    requires r in w.flights && (w.flights[r] == Presented(w.s.tokens[id].tokenHash, p) || w.flights[r] == Rejected)
    ensures var w' := Run(w, events);
      r in w'.flights && (w'.flights[r] == Presented(w.s.tokens[id].tokenHash, p) || w'.flights[r] == Rejected)
    decreases events
  {
    if events != [] {
      TokensStep(w, events[0]);
      UsedTokenNeverResets(Next(w, events[0]), events[1..], r, id, p);
    }
  }

  /** The reset has read the token, and may have read its account, but has not committed. */
  ghost predicate HasReadToken(w: World, r: Request, id: TokenId) {
    r in w.flights && (w.flights[r].TokenRead? || w.flights[r].AccountRead?) && w.flights[r].id == id
  }

  ghost predicate HasReset(w: World, r: Request, id: TokenId) {
    r in w.flights && w.flights[r] == Reset(id)
  }

  ghost predicate ResetsIn(w: World, events: seq<Event>, r: Request, id: TokenId) {
    HasReset(Run(w, events), r, id)
  }

  lemma UnreadStep(w: World, e: Event, r: Request, id: TokenId)
    requires UniqueTokens(w.s.tokens) && OneUnusedEach(w.s.tokens) && Used(w.s.tokens, id)
    requires !HasReadToken(w, r, id) && !HasReset(w, r, id)
    ensures !HasReadToken(Next(w, e), r, id) && !HasReset(Next(w, e), r, id)
  {
  }

  // A reset that has not read a used token never gets to reset with it, presented already or later.
  lemma {:induction false} UnreadNeverResets(w: World, events: seq<Event>, r: Request, id: TokenId)
    requires UniqueTokens(w.s.tokens) && OneUnusedEach(w.s.tokens) && Used(w.s.tokens, id)
    requires !HasReadToken(w, r, id) && !HasReset(w, r, id)
    ensures !ResetsIn(w, events, r, id)
    decreases events
  {
    if events != [] {
      TokensStep(w, events[0]);
      UnreadStep(w, events[0], r, id);
      UnreadNeverResets(Next(w, events[0]), events[1..], r, id);
    }
  }

  // A reset that has read the token goes through, once its account is enabled.
  lemma ReadMayReset(w: World, r: Request, id: TokenId) returns (events: seq<Event>)
    requires HasReadToken(w, r, id) && id in w.s.tokens && w.s.tokens[id].account in w.s.passwords
    ensures ResetsIn(w, events, r, id)
  {
    var step := Advance(r);
    events := [SetDisabled({}), step, step];
    var w1 := Next(w, SetDisabled({}));
    var w2 := Next(w1, step);
    assert w2.s.tokens.Keys == w.s.tokens.Keys;
    assert events[1..] == [step, step] && [step, step][1..] == [step] && [step][1..] == [];
    assert Run(w1, [step, step]) == Run(w2, [step]) == Next(w2, step);
    assert Run(w, events) == Run(w1, [step, step]);
  }

  /** Use is checked only when the token is read, so that a used token can reset again: exactly for a
      reset that had already read it, by some run that follows. */
  lemma UsedTokenResetsExactlyWhen(w: World, r: Request, id: TokenId)
    requires UniqueTokens(w.s.tokens) && OneUnusedEach(w.s.tokens) && Used(w.s.tokens, id)
    requires w.s.tokens[id].account in w.s.passwords && !HasReset(w, r, id)
    ensures (exists events :: ResetsIn(w, events, r, id)) <==> HasReadToken(w, r, id)
  {
    if HasReadToken(w, r, id) {
      var events := ReadMayReset(w, r, id);
    } else {
      forall events ensures !ResetsIn(w, events, r, id) {
        UnreadNeverResets(w, events, r, id);
      }
    }
  }

  /** For example, two resets that have both passed their checks on one token both go through, and the
      later password stands. */
  lemma TwoResetsOfOneToken(w: World, first: Request, second: Request, id: TokenId, p: PasswordHash, q: PasswordHash)
    requires first != second && first in w.flights && second in w.flights && id in w.s.tokens
    requires w.flights[first] == AccountRead(id, p) && w.flights[second] == AccountRead(id, q)
    ensures var w1 := Next(w, Advance(first)); var w2 := Next(w1, Advance(second));
      && w1.flights[first] == Reset(id) && Used(w1.s.tokens, id)
      && w2.flights[second] == Reset(id) && w2.s.passwords == w.s.passwords[w.s.tokens[id].account := q]
  {
  }

  // One account, enabled, and no token yet.
  function Start(password: PasswordHash): World {
    World(ResetStore(map[], map[1 := password], Sessions.Store(map[], map[])), {}, map[], 0)
  }

  lemma RunFour(w: World, a: Event, b: Event, c: Event, d: Event)
    ensures Run(w, [a, b, c, d]) == Next(Next(Next(Next(w, a), b), c), d)
  {
    assert [a, b, c, d][1..] == [b, c, d] && [b, c, d][1..] == [c, d] && [c, d][1..] == [d] && [d][1..] == [];
    assert Run(Next(w, a), [b, c, d]) == Run(Next(Next(w, a), b), [c, d]);
    assert Run(Next(Next(w, a), b), [c, d]) == Run(Next(Next(Next(w, a), b), c), [d]);
  }

  // Both requests present the one token there is.
  lemma BothPresent(w: World, h: Hash, expires: int, p: PasswordHash, q: PasswordHash)
    requires w.s.tokens == map[] && w.flights == map[] && w.now < expires
    ensures var w' := Run(w, [Issue(0, 1, h, expires), Present(0, h, p), Present(1, h, q), Tick(0)]);
      && w'.s == w.s.(tokens := map[0 := ResetToken(1, h, expires, None)]) && w'.now == w.now
        && w'.disabled == w.disabled
      && w'.flights == map[0 := Presented(h, p), 1 := Presented(h, q)]
  {
    RunFour(w, Issue(0, 1, h, expires), Present(0, h, p), Present(1, h, q), Tick(0));
    assert Supersede(w.s.tokens, 1, w.now) == map[];
  }

  /** It happens from the start: two requests present one token, pass their checks, and both commit. */
  lemma TwoResetsAreReachable(h: Hash, expires: int, o: PasswordHash, p: PasswordHash, q: PasswordHash)
    returns (events: seq<Event>)
    requires 0 < expires
    ensures var w := Run(Start(o), events);
      HasReset(w, 0, 0) && HasReset(w, 1, 0) && w.s.passwords == map[1 := q]
  {
    var present := [Issue(0, 1, h, expires), Present(0, h, p), Present(1, h, q), Tick(0)];
    var check, commit := [Advance(0), Advance(0), Advance(1), Advance(1)], [Advance(0), Advance(1)];
    events := present + (check + commit);
    BothPresent(Start(o), h, expires, p, q);
    var w := Run(Start(o), present);
    assert w.s.tokens[0].tokenHash == h && TokenWith(w.s.tokens, h) == 0;
    RunFour(w, Advance(0), Advance(0), Advance(1), Advance(1));
    var checked := Run(w, check);
    assert checked.flights == map[0 := AccountRead(0, p), 1 := AccountRead(0, q)];
    assert commit[1..] == [Advance(1)] && [Advance(1)][1..] == [];
    assert Run(checked, commit) == Next(Next(checked, Advance(0)), Advance(1));
    RunSplit(w, check, commit);
    RunSplit(Start(o), present, check + commit);
  }

  lemma {:induction false} RunSplit(w: World, a: seq<Event>, b: seq<Event>)
    ensures Run(w, a + b) == Run(Run(w, a), b)
    decreases a
  {
    if a == [] {
      assert a + b == b;
    } else {
      assert (a + b)[0] == a[0] && (a + b)[1..] == a[1..] + b;
      RunSplit(Next(w, a[0]), a[1..], b);
    }
  }
}

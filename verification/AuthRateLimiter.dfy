/** The limiter of the auth routes: one request is charged to several identifiers, in order, until
    one of them refuses. */
module AuthRateLimiter {
  import opened Common
  import opened Texts
  import opened RateLimiter
  import opened RateLimiterRuns

  // The texts of a request; None stands for undefined.
  datatype Request = Request(ip: Option<string>, subject: Option<string>, deviceId: Option<string>)

  datatype Violation = Violation(retryAt: int, retryAfterSeconds: int)

  type Store = map<string, Keys>

  function Get(store: Store, id: string): Keys {
    if id in store then store[id] else Unused
  }

  // A text is there when something is left of it after trimming.
  function Trimmed(text: Option<string>): Option<string> {
    if text.Some? && Trim(text.value) != "" then Some(Trim(text.value)) else None
  }

  function Identifiers(r: Request): seq<string> {
    ["ip:" + if Trimmed(r.ip).Some? then Trimmed(r.ip).value else "unknown"]
    + (if Trimmed(r.subject).Some? then ["subject:" + Lower(Trimmed(r.subject).value)] else [])
    + (if Trimmed(r.deviceId).Some? then ["device:" + Trimmed(r.deviceId).value] else [])
  }

  predicate Blank(text: Option<string>) {
    text.None? || AllSpace(text.value)
  }

  /** Requests come from one address: theirs are equal but for white space around them, or neither has
      one. (An address that reads "unknown" is one that is missing.) */
  predicate SameAddress(a: Option<string>, b: Option<string>) {
    || (!Blank(a) && !Blank(b) && Trim(a.value) == Trim(b.value))
    || ((Blank(a) || Trim(a.value) == "unknown") && (Blank(b) || Trim(b.value) == "unknown"))
  }

  /** Subjects, neither blank, that differ only in case and in the white space around them. */
  predicate SameSubject(a: Option<string>, b: Option<string>) {
    !Blank(a) && !Blank(b) && Lower(Trim(a.value)) == Lower(Trim(b.value))
  }

  predicate SameDevice(a: Option<string>, b: Option<string>) {
    !Blank(a) && !Blank(b) && Trim(a.value) == Trim(b.value)
  }

  predicate HasAddress(r: Request, text: string) {
    "ip:" + text in Identifiers(r)
  }

  predicate HasSubject(r: Request, text: string) {
    "subject:" + text in Identifiers(r)
  }

  predicate HasDevice(r: Request, text: string) {
    "device:" + text in Identifiers(r)
  }

  lemma PrefixedAlike(prefix: string, a: string, b: string)
    ensures prefix + a == prefix + b <==> a == b
  {
    assert (prefix + a)[|prefix|..] == a && (prefix + b)[|prefix|..] == b;
  }

  lemma PrefixesDiffer(a: string, b: string, c: string)
    ensures "ip:" + a != "subject:" + b && "ip:" + a != "device:" + c && "subject:" + b != "device:" + c
  {
    assert ("ip:" + a)[0] == 'i' && ("subject:" + b)[0] == 's' && ("device:" + c)[0] == 'd';
  }

  // Which identifiers of each kind a request has.
  lemma AddressIdentifier(r: Request, text: string)
    ensures HasAddress(r, text) <==> text == if Blank(r.ip) then "unknown" else Trim(r.ip.value)
  {
    if r.ip.Some? { AllSpaceTrims(r.ip.value); }
    PrefixedAlike("ip:", text, if Trimmed(r.ip).Some? then Trimmed(r.ip).value else "unknown");
    PrefixesDiffer(text, if Trimmed(r.subject).Some? then Lower(Trimmed(r.subject).value) else "",
                   if Trimmed(r.deviceId).Some? then Trimmed(r.deviceId).value else "");
  }

  lemma SubjectIdentifier(r: Request, text: string)
    ensures HasSubject(r, text) <==> !Blank(r.subject) && text == Lower(Trim(r.subject.value))
  {
    if r.subject.Some? { AllSpaceTrims(r.subject.value); }
    PrefixedAlike("subject:", text, if Trimmed(r.subject).Some? then Lower(Trimmed(r.subject).value) else "");
    PrefixesDiffer(if Trimmed(r.ip).Some? then Trimmed(r.ip).value else "unknown", text,
                   if Trimmed(r.deviceId).Some? then Trimmed(r.deviceId).value else "");
  }

  lemma DeviceIdentifier(r: Request, text: string)
    ensures HasDevice(r, text) <==> !Blank(r.deviceId) && text == Trim(r.deviceId.value)
  {
    if r.deviceId.Some? { AllSpaceTrims(r.deviceId.value); }
    PrefixedAlike("device:", text, if Trimmed(r.deviceId).Some? then Trimmed(r.deviceId).value else "");
    PrefixesDiffer(if Trimmed(r.ip).Some? then Trimmed(r.ip).value else "unknown",
                   if Trimmed(r.subject).Some? then Lower(Trimmed(r.subject).value) else "", text);
  }

  /** Requests are charged to one address key exactly when they come from one address. */
  lemma AddressesAreMatched(r: Request, s: Request)
    ensures (exists text :: HasAddress(r, text) && HasAddress(s, text)) <==> SameAddress(r.ip, s.ip)
  {
    forall text ensures HasAddress(r, text) <==> text == if Blank(r.ip) then "unknown" else Trim(r.ip.value) {
      AddressIdentifier(r, text);
    }
    forall text ensures HasAddress(s, text) <==> text == if Blank(s.ip) then "unknown" else Trim(s.ip.value) {
      AddressIdentifier(s, text);
    }
    var mine := if Blank(r.ip) then "unknown" else Trim(r.ip.value);
    assert HasAddress(r, mine);
  }

  /** Requests share a subject key exactly when their subjects, neither blank, differ only in case and in
      the white space around them. */
  lemma SubjectsAreMatchedLoosely(r: Request, s: Request)
    ensures (exists text :: HasSubject(r, text) && HasSubject(s, text)) <==> SameSubject(r.subject, s.subject)
  {
    if !Blank(r.subject) {
      SubjectIdentifier(r, Lower(Trim(r.subject.value)));
      SubjectIdentifier(s, Lower(Trim(r.subject.value)));
    }
    if text :| HasSubject(r, text) && HasSubject(s, text) {
      SubjectIdentifier(r, text);
      SubjectIdentifier(s, text);
    }
  }

  /** Requests share a device key exactly when their device ids, neither blank, differ only in the white
      space around them. */
  lemma DevicesAreMatched(r: Request, s: Request)
    ensures (exists text :: HasDevice(r, text) && HasDevice(s, text)) <==> SameDevice(r.deviceId, s.deviceId)
  {
    if !Blank(r.deviceId) {
      DeviceIdentifier(r, Trim(r.deviceId.value));
      DeviceIdentifier(s, Trim(r.deviceId.value));
    }
    if text :| HasDevice(r, text) && HasDevice(s, text) {
      DeviceIdentifier(r, text);
      DeviceIdentifier(s, text);
    }
  }

  // Every identifier is of one of the three kinds.
  lemma KindsOfIdentifiers(r: Request, id: string)
    requires id in Identifiers(r)
    ensures || (exists text :: id == "ip:" + text && HasAddress(r, text))
            || (exists text :: id == "subject:" + text && HasSubject(r, text))
            || (exists text :: id == "device:" + text && HasDevice(r, text))
  {
    if id == Identifiers(r)[0] {
      var text := if Trimmed(r.ip).Some? then Trimmed(r.ip).value else "unknown";
      assert id == "ip:" + text && HasAddress(r, text);
    } else if Trimmed(r.subject).Some? && id == "subject:" + Lower(Trimmed(r.subject).value) {
      assert HasSubject(r, Lower(Trimmed(r.subject).value));
    } else {
      assert id == "device:" + Trimmed(r.deviceId).value && HasDevice(r, Trimmed(r.deviceId).value);
    }
  }

  /** Requests that share neither address nor subject nor device share no identifier. */
  lemma StrangersShareNothing(r: Request, s: Request, id: string)
    requires !SameAddress(r.ip, s.ip) && !SameSubject(r.subject, s.subject) && !SameDevice(r.deviceId, s.deviceId)
    requires id in Identifiers(r)
    ensures id !in Identifiers(s)
  {
    AddressesAreMatched(r, s);
    SubjectsAreMatchedLoosely(r, s);
    DevicesAreMatched(r, s);
    KindsOfIdentifiers(r, id);
  }

  /** No identifier is charged twice: the three prefixes already keep them apart, so dropping
      duplicates afterwards drops nothing. */
  lemma IdentifiersAreDistinct(r: Request)
    ensures Distinct(Identifiers(r))
  {
    assert forall a: string, b: string :: ("ip:" + a)[0] == 'i' && ("subject:" + b)[0] == 's';
    assert forall c: string :: ("device:" + c)[0] == 'd';
  }

  /** The address is charged first, the subject before the device. */
  lemma IdentifiersAreOrdered(r: Request)
    ensures 1 <= |Identifiers(r)| <= 3 && "ip:" <= Identifiers(r)[0]
    ensures forall i :: 0 < i < |Identifiers(r)| ==>
      if i == 1 && !Blank(r.subject) then "subject:" <= Identifiers(r)[i] else "device:" <= Identifiers(r)[i]
  {
    if r.subject.Some? { AllSpaceTrims(r.subject.value); }
  }

  ghost predicate Distinct(ids: seq<string>) {
    forall i, j :: 0 <= i < j < |ids| ==> ids[i] != ids[j]
  }

  /** The charge of one identifier: one atomic run of the script. */
  function ChargeOne(store: Store, id: string, now: int, p: Policy, rule: Expiry): (Store, Reply) {
    var (k, reply) := Step(Get(store, id), now, p, rule);
    (store[id := k], reply)
  }

  // What the others charge before the await of each identifier, and when that await runs.
  type Meanwhile = (nat, Store) -> Store
  type Clock = nat -> int

  /** The charges from the `i`-th identifier on, in order, until one is refused. */
  function Charge(store: Store, ids: seq<string>, i: nat, clock: Clock, meanwhile: Meanwhile, p: Policy,
                  rule: Expiry): (Store, Option<Violation>)
    decreases |ids| - i
  {
    if i >= |ids| then (store, None)
    else match ChargeOne(meanwhile(i, store), ids[i], clock(i), p, rule)
      case (s, Allowed) => Charge(s, ids, i + 1, clock, meanwhile, p, rule)
      case (s, Refused(t)) => (s, Some(Violation(t, RetryAfterSeconds(t, clock(i)))))
  }

  class AuthLimiter {
    var store: Store
    const rule: Expiry

    constructor (rule: Expiry)
      ensures store == map[] && this.rule == rule
    {
      store := map[];
      this.rule := rule;
    }

    method AssertAllowed(r: Request, p: Policy, clock: Clock, meanwhile: Meanwhile)
      returns (violation: Option<Violation>)
      requires p.Valid()
      modifies this
      ensures (store, violation) == Charge(old(store), Identifiers(r), 0, clock, meanwhile, p, rule)
    {
      var ids := Identifiers(r);
      for i := 0 to |ids|
        invariant Charge(store, ids, i, clock, meanwhile, p, rule)
               == Charge(old(store), ids, 0, clock, meanwhile, p, rule)
      {
        store := meanwhile(i, store);
        var (after, reply) := ChargeOne(store, ids[i], clock(i), p, rule);
        store := after;
        if reply.Refused? {
          return Some(Violation(reply.retryAt, RetryAfterSeconds(reply.retryAt, clock(i))));
        }
      }
      violation := None;
    }
  }

  // ---- One request undisturbed ----

  const Nothing: Meanwhile := (i, store) => store

  /** The identifiers from the `i`-th up to the `j`-th admit the request, each at its own time. */
  predicate AllAdmit(store: Store, ids: seq<string>, i: nat, j: nat, clock: Clock, p: Policy, rule: Expiry) {
    forall k :: i <= k < j && k < |ids| ==> Admits(Get(store, ids[k]), clock(k), p, rule)
  }

  // The charges from `i` on touch no other key.
  lemma {:induction false} OthersUntouched(store: Store, ids: seq<string>, i: nat, clock: Clock, p: Policy,
                                           rule: Expiry,
                                           id: string)
    requires forall j :: i <= j < |ids| ==> ids[j] != id
    ensures Get(Charge(store, ids, i, clock, Nothing, p, rule).0, id) == Get(store, id)
    decreases |ids| - i
  {
    if i < |ids| {
      OthersUntouched(ChargeOne(store, ids[i], clock(i), p, rule).0, ids, i + 1, clock, p, rule, id);
    }
  }

  // The `j`-th identifier takes a step exactly when all from `i` up to it admit the request.
  lemma {:induction false} TurnTaken(store: Store, ids: seq<string>, i: nat, j: nat, clock: Clock, p: Policy,
                                     rule: Expiry)
    requires Distinct(ids) && i <= j < |ids|
    ensures Get(Charge(store, ids, i, clock, Nothing, p, rule).0, ids[j])
         == if AllAdmit(store, ids, i, j, clock, p, rule)
            then Next(Get(store, ids[j]), clock(j), p, rule) else Get(store, ids[j])
    decreases |ids| - i
  {
    var mid := ChargeOne(store, ids[i], clock(i), p, rule).0;
    if i == j {
      OthersUntouched(mid, ids, i + 1, clock, p, rule, ids[j]);
    } else if Admits(Get(store, ids[i]), clock(i), p, rule) {
      SameBeyond(store, ids, i, j, clock, p, rule);
      TurnTaken(mid, ids, i + 1, j, clock, p, rule);
    }
  }

  // None is refused exactly when all from `i` on admit the request.
  lemma {:induction false} NoneRefuses(store: Store, ids: seq<string>, i: nat, clock: Clock, p: Policy, rule: Expiry)
    requires Distinct(ids)
    ensures Charge(store, ids, i, clock, Nothing, p, rule).1.None? <==> AllAdmit(store, ids, i, |ids|, clock, p, rule)
    decreases |ids| - i
  {
    if i < |ids| && Admits(Get(store, ids[i]), clock(i), p, rule) {
      SameBeyond(store, ids, i, |ids|, clock, p, rule);
      NoneRefuses(ChargeOne(store, ids[i], clock(i), p, rule).0, ids, i + 1, clock, p, rule);
    }
  }

  // A refusal names the retry time of the first identifier that refuses.
  lemma {:induction false} ViolationIsFirstRefusal(store: Store, ids: seq<string>, i: nat, clock: Clock, p: Policy,
                                                   rule: Expiry)
    requires Distinct(ids)
    ensures var violation := Charge(store, ids, i, clock, Nothing, p, rule).1;
      violation.Some? ==>
        exists j :: i <= j < |ids| && IsFirstRefusal(store, ids, i, j, clock, p, rule, violation.value)
    decreases |ids| - i
  {
    if i < |ids| {
      var violation := Charge(store, ids, i, clock, Nothing, p, rule).1;
      if Admits(Get(store, ids[i]), clock(i), p, rule) {
        var mid := ChargeOne(store, ids[i], clock(i), p, rule).0;
        ViolationIsFirstRefusal(mid, ids, i + 1, clock, p, rule);
        if violation.Some? {
          var j :| i + 1 <= j < |ids| && IsFirstRefusal(mid, ids, i + 1, j, clock, p, rule, violation.value);
          SameBeyond(store, ids, i, j, clock, p, rule);
          assert ids[j] != ids[i];
          assert IsFirstRefusal(store, ids, i, j, clock, p, rule, violation.value);
        }
      } else {
        RetryAfterIsLeast(violation.value.retryAt, clock(i));
        assert IsFirstRefusal(store, ids, i, i, clock, p, rule, violation.value);
      }
    }
  }

  /** All identifiers from `i` up to the `j`-th admit the request; that one refuses it until `retryAt`, which
      the advertised seconds are the fewest to reach. */
  ghost predicate IsFirstRefusal(store: Store, ids: seq<string>, i: nat, j: nat, clock: Clock, p: Policy, rule: Expiry,
                                 v: Violation)
    requires j < |ids|
  {
    && AllAdmit(store, ids, i, j, clock, p, rule)
    && Step(Get(store, ids[j]), clock(j), p, rule).1 == Refused(v.retryAt)
    && 1 <= v.retryAfterSeconds && v.retryAt <= clock(j) + 1000 * v.retryAfterSeconds
    && (1 < v.retryAfterSeconds ==> clock(j) + 1000 * (v.retryAfterSeconds - 1) < v.retryAt)
  }

  /** Charging one request leaves every key of a stranger's as it was, so that no client uses up another's
      limit. */
  lemma StrangersAreUntouched(store: Store, r: Request, s: Request, clock: Clock, p: Policy, rule: Expiry)
    requires !SameAddress(r.ip, s.ip) && !SameSubject(r.subject, s.subject) && !SameDevice(r.deviceId, s.deviceId)
    ensures var store' := Charge(store, Identifiers(r), 0, clock, Nothing, p, rule).0;
      forall id :: id in Identifiers(s) ==> Get(store', id) == Get(store, id)
  {
    forall id | id in Identifiers(s)
      ensures Get(Charge(store, Identifiers(r), 0, clock, Nothing, p, rule).0, id) == Get(store, id)
    {
      StrangersShareNothing(s, r, id);
      OthersUntouched(store, Identifiers(r), 0, clock, p, rule, id);
    }
  }

  /** Undisturbed, a request passes exactly when each of its identifiers, on its own, admits it; an
      identifier takes one step exactly when all before it admit, and nothing else changes. A refusal
      names the time, and the seconds, of the first identifier that refuses. */
  lemma ChargeEffect(store: Store, ids: seq<string>, clock: Clock, p: Policy, rule: Expiry)
    requires Distinct(ids)
    ensures var (store', violation) := Charge(store, ids, 0, clock, Nothing, p, rule);
      && (violation.None? <==> AllAdmit(store, ids, 0, |ids|, clock, p, rule))
      && (forall j :: 0 <= j < |ids| ==>
            Get(store', ids[j]) == if AllAdmit(store, ids, 0, j, clock, p, rule)
                                   then Next(Get(store, ids[j]), clock(j), p, rule) else Get(store, ids[j]))
      && (forall id :: id !in ids ==> Get(store', id) == Get(store, id))
      && (violation.Some? ==>
        exists j :: 0 <= j < |ids| && IsFirstRefusal(store, ids, 0, j, clock, p, rule, violation.value))
  {
    ViolationIsFirstRefusal(store, ids, 0, clock, p, rule);
    var store' := Charge(store, ids, 0, clock, Nothing, p, rule).0;
    NoneRefuses(store, ids, 0, clock, p, rule);
    forall j | 0 <= j < |ids|
      ensures Get(store', ids[j]) == if AllAdmit(store, ids, 0, j, clock, p, rule)
                                     then Next(Get(store, ids[j]), clock(j), p, rule) else Get(store, ids[j])
    {
      TurnTaken(store, ids, 0, j, clock, p, rule);
    }
    forall id | id !in ids ensures Get(store', id) == Get(store, id) {
      OthersUntouched(store, ids, 0, clock, p, rule, id);
    }
  }

  lemma SameBeyond(store: Store, ids: seq<string>, i: nat, j: nat, clock: Clock, p: Policy, rule: Expiry)
    requires Distinct(ids) && i < |ids| && i <= j <= |ids| && Admits(Get(store, ids[i]), clock(i), p, rule)
    ensures var mid := ChargeOne(store, ids[i], clock(i), p, rule).0;
      AllAdmit(store, ids, i, j, clock, p, rule) <==> AllAdmit(mid, ids, i + 1, j, clock, p, rule)
  {
    var mid := ChargeOne(store, ids[i], clock(i), p, rule).0;
    assert forall k :: i < k < |ids| ==> Get(mid, ids[k]) == Get(store, ids[k]);
  }

  // ---- Interleaved requests: one step is the charge of one identifier ----

  type RequestId = nat

  // `admitted` is a history variable: which identifiers have admitted the request, and when.
  datatype Flight = Flight(ids: seq<string>, next: nat, refused: bool, admitted: map<string, int>) {
    predicate Passed() {
      !refused && next >= |ids|
    }
  }

  datatype World = World(store: Store, flights: map<RequestId, Flight>)

  datatype Event = Arrive(id: RequestId, request: Request) | Await(id: RequestId, now: int)

  // The await of a request that has one left.
  predicate Charges(w: World, e: Event) {
    e.Await? && e.id in w.flights && !w.flights[e.id].refused && w.flights[e.id].next < |w.flights[e.id].ids|
  }

  // The identifier it charges.
  function Charged(w: World, e: Event): string
    requires Charges(w, e)
  {
    w.flights[e.id].ids[w.flights[e.id].next]
  }

  function NextWorld(w: World, e: Event, p: Policy, rule: Expiry): World {
    if e.Arrive? then
      if e.id in w.flights then w
      else w.(flights := w.flights[e.id := Flight(Identifiers(e.request), 0, false, map[])])
    else if !Charges(w, e) then w
    else
      var f, id := w.flights[e.id], Charged(w, e);
      var (store, reply) := ChargeOne(w.store, id, e.now, p, rule);
      World(store, w.flights[e.id :=
        if reply.Allowed? then f.(next := f.next + 1, admitted := f.admitted[id := e.now]) else f.(refused := true)])
  }

  function Run(w: World, events: seq<Event>, p: Policy, rule: Expiry): World
    decreases events
  {
    if events == [] then w else Run(NextWorld(w, events[0], p, rule), events[1..], p, rule)
  }

  // The awaits that a request has left, one after the other.
  function Awaits(r: RequestId, i: nat, n: nat, clock: Clock): seq<Event>
    decreases n - i
  {
    if i >= n then [] else [Await(r, clock(i))] + Awaits(r, i + 1, n, clock)
  }

  lemma {:induction false} RefusedWaitsForNothing(w: World, r: RequestId, i: nat, n: nat, clock: Clock, p: Policy,
                                                  rule: Expiry)
    requires r in w.flights && w.flights[r].refused
    ensures Run(w, Awaits(r, i, n, clock), p, rule) == w
    decreases n - i
  {
    if i < n {
      assert Awaits(r, i, n, clock)[1..] == Awaits(r, i + 1, n, clock);
      RefusedWaitsForNothing(w, r, i + 1, n, clock, p, rule);
    }
  }

  /** A request whose awaits nothing comes between runs as the loop does. */
  lemma {:induction false} QuietRunIsCharge(w: World, r: RequestId, clock: Clock, p: Policy, rule: Expiry)
    requires r in w.flights && !w.flights[r].refused && w.flights[r].next <= |w.flights[r].ids|
    ensures var f := w.flights[r];
      var w', (store', violation) := Run(w, Awaits(r, f.next, |f.ids|, clock), p, rule),
        Charge(w.store, f.ids, f.next, clock, Nothing, p, rule);
      w'.store == store' && r in w'.flights && (w'.flights[r].Passed() <==> violation.None?)
    decreases |w.flights[r].ids| - w.flights[r].next
  {
    var f := w.flights[r];
    if f.next < |f.ids| {
      var step := Await(r, clock(f.next));
      var w1 := NextWorld(w, step, p, rule);
      assert Awaits(r, f.next, |f.ids|, clock)[1..] == Awaits(r, f.next + 1, |f.ids|, clock);
      if w1.flights[r].refused {
        RefusedWaitsForNothing(w1, r, f.next + 1, |f.ids|, clock, p, rule);
      } else {
        QuietRunIsCharge(w1, r, clock, p, rule);
      }
    }
  }

  // The times at which the run charges `id`.
  function ChargeTimes(w: World, events: seq<Event>, id: string, p: Policy, rule: Expiry): seq<int>
    decreases events
  {
    if events == [] then [] else
      var rest := ChargeTimes(NextWorld(w, events[0], p, rule), events[1..], id, p, rule);
      if Charges(w, events[0]) && Charged(w, events[0]) == id then [events[0].now] + rest else rest
  }

  /** Charges reach Redis in the order of their times. */
  ghost predicate InOrder(events: seq<Event>) {
    forall i, j :: 0 <= i < j < |events| && events[i].Await? && events[j].Await? ==> events[i].now <= events[j].now
  }

  /** The requests that `id` admitted at a time in [lo, hi), whatever became of them afterwards. */
  function AdmittedBy(w: World, id: string, lo: int, hi: int): set<RequestId> {
    set r | r in w.flights && id in w.flights[r].admitted && lo <= w.flights[r].admitted[id] < hi
  }

  // One event adds at most one request, and only when `id` admits it then.
  lemma AdmittedByNext(w: World, e: Event, id: string, p: Policy, rule: Expiry, lo: int, hi: int)
    ensures var w' := NextWorld(w, e, p, rule);
      var here := Charges(w, e) && Charged(w, e) == id;
      && Get(w'.store, id) == (if here then Next(Get(w.store, id), e.now, p, rule) else Get(w.store, id))
      && |AdmittedBy(w', id, lo, hi)| <= |AdmittedBy(w, id, lo, hi)|
           + if here && Admits(Get(w.store, id), e.now, p, rule) && lo <= e.now < hi then 1 else 0
  {
    var w' := NextWorld(w, e, p, rule);
    var before, after := AdmittedBy(w, id, lo, hi), AdmittedBy(w', id, lo, hi);
    if Charges(w, e) && Charged(w, e) == id && Admits(Get(w.store, id), e.now, p, rule) && lo <= e.now < hi {
      assert after <= before + {e.id};
      SmallerSet(after, before + {e.id});
    } else {
      assert after <= before;
      SmallerSet(after, before);
    }
  }

  // A time before all charges.
  function Earliest(events: seq<Event>): (t: int)
    ensures forall i :: 0 <= i < |events| && events[i].Await? ==> t <= events[i].now
  {
    if events == [] then 0
    else
      var t := Earliest(events[1..]);
      assert forall i :: 0 <= i < |events| - 1 ==> events[1..][i] == events[i + 1];
      if events[0].Await? && events[0].now < t then events[0].now else t
  }

  // The times charged are in order, from the time of the first charge on.
  lemma {:induction false} ChargeTimesAscend(w: World, events: seq<Event>, id: string, p: Policy, rule: Expiry,
                                             from: int)
    requires InOrder(events) && forall i :: 0 <= i < |events| && events[i].Await? ==> from <= events[i].now
    ensures var times := ChargeTimes(w, events, id, p, rule);
      NonDecreasing(times) && (times != [] ==> from <= times[0])
    decreases events
  {
    if events != [] {
      var e := events[0];
      assert forall i :: 0 <= i < |events| - 1 ==> events[1..][i] == events[i + 1];
      ChargeTimesAscend(NextWorld(w, e, p, rule), events[1..], id, p, rule, if e.Await? then e.now else from);
    }
  }

  /** However requests interleave, those that `id` admits in a stretch of time are among the calls its own
      keys admit at the times it was charged. */
  lemma {:induction false} AdmittedByIsAdmitted(w: World, events: seq<Event>, id: string, p: Policy, rule: Expiry,
                                                lo: int, hi: int)
    ensures |AdmittedBy(Run(w, events, p, rule), id, lo, hi)|
         <= |AdmittedBy(w, id, lo, hi)|
            + AdmittedIn(Get(w.store, id), ChargeTimes(w, events, id, p, rule), p, rule, lo, hi)
    decreases events
  {
    if events != [] {
      var w' := NextWorld(w, events[0], p, rule);
      AdmittedByNext(w, events[0], id, p, rule, lo, hi);
      AdmittedByIsAdmitted(w', events[1..], id, p, rule, lo, hi);
      if Charges(w, events[0]) && Charged(w, events[0]) == id {
        var rest := ChargeTimes(w', events[1..], id, p, rule);
        assert ([events[0].now] + rest)[1..] == rest;
      }
    }
  }

  /** Every identifier a request has got past has admitted it. */
  ghost predicate Recorded(w: World) {
    forall r, i :: r in w.flights && 0 <= i < w.flights[r].next && i < |w.flights[r].ids| ==>
      w.flights[r].ids[i] in w.flights[r].admitted
  }

  lemma {:induction false} RunKeepsRecorded(w: World, events: seq<Event>, p: Policy, rule: Expiry)
    requires Recorded(w)
    ensures Recorded(Run(w, events, p, rule))
    decreases events
  {
    if events != [] {
      RunKeepsRecorded(NextWorld(w, events[0], p, rule), events[1..], p, rule);
    }
  }

  /** The requests naming `id` that pass the whole check, by the time at which `id` admitted them. */
  function PassedWith(w: World, id: string, lo: int, hi: int): set<RequestId> {
    set r | r in w.flights && w.flights[r].Passed() && id in w.flights[r].ids
            && id in w.flights[r].admitted && lo <= w.flights[r].admitted[id] < hi
  }

  /** The single-key bound carries over to whole requests, however their charges interleave, whatever other
      identifiers they name and wherever those refuse: each request that passes was admitted by each of its
      identifiers, and in a window of any one identifier fewer than twice the limit are. */
  lemma RequestWindowBound(store: Store, events: seq<Event>, id: string, p: Policy, rule: Expiry, lo: int, hi: int)
    requires p.Valid() && InOrder(events) && hi <= lo + p.windowMs && WellFormed(Get(store, id))
    ensures var w := Run(World(store, map[]), events, p, rule);
      && (forall r :: r in w.flights && w.flights[r].Passed() && id in w.flights[r].ids ==> id in w.flights[r].admitted)
      && |PassedWith(w, id, lo, hi)| <= |AdmittedBy(w, id, lo, hi)| <= Max(0, 2 * p.limit - 1)
  {
    var start := World(store, map[]);
    var w, times := Run(start, events, p, rule), ChargeTimes(start, events, id, p, rule);
    RunKeepsRecorded(start, events, p, rule);
    AdmittedByIsAdmitted(start, events, id, p, rule, lo, hi);
    assert AdmittedBy(start, id, lo, hi) == {};
    ChargeTimesAscend(start, events, id, p, rule, Earliest(events));
    WindowBound(Get(store, id), times, p, rule, lo, hi);
    assert PassedWith(w, id, lo, hi) <= AdmittedBy(w, id, lo, hi);
    SmallerSet(PassedWith(w, id, lo, hi), AdmittedBy(w, id, lo, hi));
  }
}

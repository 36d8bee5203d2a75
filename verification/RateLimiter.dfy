/** The Redis rate limiter: the atomic script over a counter key and a block key, the retry time
    computed by its caller, and what every run of timed calls on one key pair keeps.
    One clock serves the application and Redis. */
module RateLimiter {
  import opened Common

  // A Redis key: its number, and the time its expiry was set to (None: it never expires).
  datatype Entry = Entry(value: int, deadline: Option<int>)

  datatype Keys = Keys(counter: Option<Entry>, block: Option<Entry>)

  // What happens to a key in the very millisecond of its deadline.
  datatype Expiry = GoneAtDeadline | LastsThroughDeadline

  datatype Policy = Policy(limit: nat, windowMs: int, blockMs: int) {
    // Redis refuses a zero PX, and every configured policy is positive.
    predicate Valid() {
      0 < windowMs && 0 < blockMs
    }
  }

  datatype Reply = Allowed | Refused(retryAt: int)

  const Unused := Keys(None, None)

  predicate Live(e: Option<Entry>, now: int, rule: Expiry) {
    e.Some? && (e.value.deadline.Some? ==>
      now < e.value.deadline.value || (rule.LastsThroughDeadline? && now == e.value.deadline.value))
  }

  // PTTL: -2 for a missing key, -1 for a key without expiry, otherwise the time left.
  function Pttl(e: Option<Entry>, now: int, rule: Expiry): int {
    if !Live(e, now, rule) then -2
    else if e.value.deadline.None? then -1
    else e.value.deadline.value - now
  }

  predicate Blocked(k: Keys, now: int) {
    k.block.Some? && k.block.value.deadline.Some? && now < k.block.value.deadline.value
  }

  predicate CounterLive(k: Keys, now: int, rule: Expiry) {
    Live(k.counter, now, rule)
  }

  // The number of this call in the counter's epoch.
  function Ordinal(k: Keys, now: int, rule: Expiry): int {
    if CounterLive(k, now, rule) then k.counter.value.value + 1 else 1
  }

  // When the counter's epoch would end if this call did not overrun the limit.
  function EpochEnd(k: Keys, now: int, p: Policy, rule: Expiry): int {
    if CounterLive(k, now, rule) && Ordinal(k, now, rule) != 1 && k.counter.value.deadline.Some?
    then k.counter.value.deadline.value else now + p.windowMs
  }

  /** The script's effect, by outcome instead of by command. */
  function Step(k: Keys, now: int, p: Policy, rule: Expiry): (r: (Keys, Reply)) {
    var n, end := Ordinal(k, now, rule), EpochEnd(k, now, p, rule);
    if Blocked(k, now) then
      (k, Refused(k.block.value.deadline.value))
    else if n <= p.limit then
      var block := if k.block.Some? && k.block.value.deadline.None? then None else k.block;
      (Keys(Some(Entry(n, Some(end))), block), Allowed)
    else
      (Keys(Some(Entry(n, Some(Max(end, now + p.blockMs)))), Some(Entry(now + p.blockMs, Some(now + p.blockMs)))),
       Refused(now + p.blockMs))
  }

  function Next(k: Keys, now: int, p: Policy, rule: Expiry): Keys {
    Step(k, now, p, rule).0
  }

  predicate Admits(k: Keys, now: int, p: Policy, rule: Expiry) {
    Step(k, now, p, rule).1.Allowed?
  }

  /** Seconds until `retryAt`, rounded up, never below one; `/` floors here. */
  function RetryAfterSeconds(retryAt: int, now: int): int {
    Max(1, -((now - retryAt) / 1000))
  }

  datatype ConsumeResult = Accepted | Rejected(retryAt: int, retryAfterSeconds: int)

  /** The two keys of one (scope, identifier) pair. */
  class KeyPair {
    var counter: Option<Entry>
    var block: Option<Entry>
    const rule: Expiry

    constructor (rule: Expiry)
      ensures this.rule == rule && State() == Unused
    {
      this.rule := rule;
      counter, block := None, None;
    }

    function State(): Keys
      reads this
    {
      Keys(counter, block)
    }

    /** The script, command by command. */
    method Run(p: Policy, now: int) returns (allowed: bool, retryAt: int)
      requires p.Valid()
      modifies this
      ensures State() == old(Next(State(), now, p, rule))
      ensures allowed == old(Admits(State(), now, p, rule))
      ensures retryAt == match old(Step(State(), now, p, rule).1) case Allowed => 0 case Refused(t) => t
    {
      var blockTtl := Pttl(block, now, rule);
      if blockTtl > 0 {
        return false, now + blockTtl;
      }
      if blockTtl == -1 {
        block := None;
      }
      counter := Some(
        if Live(counter, now, rule) then counter.value.(value := counter.value.value + 1) else Entry(1, None));
      var count := counter.value.value;
      if count == 1 {
        counter := Some(counter.value.(deadline := Some(now + p.windowMs)));
      } else {
        var counterTtl := Pttl(counter, now, rule);
        if counterTtl < 0 {
          counter := Some(counter.value.(deadline := Some(now + p.windowMs)));
        }
      }
      if count > p.limit {
        retryAt := now + p.blockMs;
        block := Some(Entry(retryAt, Some(retryAt)));
        var counterTtl := Pttl(counter, now, rule);
        if counterTtl < 0 || counterTtl < p.blockMs {
          counter := Some(counter.value.(deadline := Some(now + p.blockMs)));
        }
        return false, retryAt;
      }
      return true, 0;
    }

    method Consume(p: Policy, now: int) returns (r: ConsumeResult)
      requires p.Valid()
      modifies this
      ensures State() == old(Next(State(), now, p, rule))
      ensures r == match old(Step(State(), now, p, rule).1)
                   case Allowed => Accepted
                   case Refused(t) => Rejected(t, RetryAfterSeconds(t, now))
    {
      var allowed, retryAt := Run(p, now);
      r := if allowed then Accepted else Rejected(retryAt, RetryAfterSeconds(retryAt, now));
    }
  }
}

/** What every run of timed calls on one pair of rate-limiter keys keeps: how many calls a window
    admits, how long a lockout lasts, and what a retry time promises. */
module RateLimiterRuns {
  import opened Common
  import opened RateLimiter

  // INCR never leaves a counter below one.
  predicate WellFormed(k: Keys) {
    k.counter.Some? ==> 1 <= k.counter.value.value
  }

  function After(k: Keys, times: seq<int>, p: Policy, rule: Expiry): Keys
    decreases times
  {
    if times == [] then k else After(Next(k, times[0], p, rule), times[1..], p, rule)
  }

  /** How many calls of the run were admitted at a time in [lo, hi). */
  function AdmittedIn(k: Keys, times: seq<int>, p: Policy, rule: Expiry, lo: int, hi: int): nat
    decreases times
  {
    if times == [] then 0 else
      (if Admits(k, times[0], p, rule) && lo <= times[0] < hi then 1 else 0)
      + AdmittedIn(Next(k, times[0], p, rule), times[1..], p, rule, lo, hi)
  }

  predicate AllRefused(k: Keys, times: seq<int>, p: Policy, rule: Expiry)
    decreases times
  {
    times == [] || (!Admits(k, times[0], p, rule) && AllRefused(Next(k, times[0], p, rule), times[1..], p, rule))
  }

  /** No call arrives in the very millisecond in which its counter expires. */
  predicate OffDeadlines(k: Keys, times: seq<int>, p: Policy, rule: Expiry)
    decreases times
  {
    times == [] ||
    (!(k.counter.Some? && k.counter.value.deadline == Some(times[0])) &&
     OffDeadlines(Next(k, times[0], p, rule), times[1..], p, rule))
  }

  // ---- How many calls a window admits ----

  lemma {:induction false} NoneAfter(k: Keys, times: seq<int>, p: Policy, rule: Expiry, lo: int, hi: int)
    requires NonDecreasing(times) && (times != [] ==> hi <= times[0])
    ensures AdmittedIn(k, times, p, rule, lo, hi) == 0
    decreases times
  {
    if times != [] {
      NoneAfter(Next(k, times[0], p, rule), times[1..], p, rule, lo, hi);
    }
  }

  // A counter that outlives `hi` admits only what is left of the limit.
  lemma {:induction false} OneEpoch(k: Keys, times: seq<int>, p: Policy, rule: Expiry, lo: int, hi: int)
    requires p.Valid() && NonDecreasing(times) && WellFormed(k)
    requires k.counter.Some? && k.counter.value.deadline.Some? && hi <= k.counter.value.deadline.value
    ensures AdmittedIn(k, times, p, rule, lo, hi) <= Max(0, p.limit - k.counter.value.value)
    decreases times
  {
    if times != [] {
      if hi <= times[0] {
        NoneAfter(k, times, p, rule, lo, hi);
      } else {
        OneEpoch(Next(k, times[0], p, rule), times[1..], p, rule, lo, hi);
      }
    }
  }

  function Room(k: Keys, p: Policy): int {
    if k.counter.Some? then Max(0, p.limit - k.counter.value.value) else 0
  }

  // From `lo` on, what is left of the current epoch, then at most one more epoch before `hi`.
  lemma {:induction false} TwoEpochs(k: Keys, times: seq<int>, p: Policy, rule: Expiry, lo: int, hi: int)
    requires p.Valid() && NonDecreasing(times) && WellFormed(k)
    requires hi <= lo + p.windowMs && (times != [] ==> lo <= times[0])
    ensures AdmittedIn(k, times, p, rule, lo, hi) <= Room(k, p) + p.limit
    decreases times
  {
    if times != [] {
      var next := Next(k, times[0], p, rule);
      if Blocked(k, times[0]) || (CounterLive(k, times[0], rule) && k.counter.value.deadline.Some?) {
        TwoEpochs(next, times[1..], p, rule, lo, hi);
      } else {
        OneEpoch(next, times[1..], p, rule, lo, hi);
      }
    }
  }

  /** Any stretch of `windowMs` milliseconds admits fewer than twice the limit, in every run from
      every state the script can leave. */
  lemma {:induction false} WindowBound(k: Keys, times: seq<int>, p: Policy, rule: Expiry, lo: int, hi: int)
    requires p.Valid() && NonDecreasing(times) && WellFormed(k)
    requires hi <= lo + p.windowMs
    ensures AdmittedIn(k, times, p, rule, lo, hi) <= Max(0, 2 * p.limit - 1)
    decreases times
  {
    if times != [] && times[0] < lo {
      WindowBound(Next(k, times[0], p, rule), times[1..], p, rule, lo, hi);
    } else {
      TwoEpochs(k, times, p, rule, lo, hi);
      if p.limit == 0 {
        NothingAdmitted(k, times, p, rule, lo, hi);
      }
    }
  }

  lemma {:induction false} NothingAdmitted(k: Keys, times: seq<int>, p: Policy, rule: Expiry, lo: int, hi: int)
    requires WellFormed(k) && p.limit == 0
    ensures AdmittedIn(k, times, p, rule, lo, hi) == 0
    decreases times
  {
    if times != [] {
      NothingAdmitted(Next(k, times[0], p, rule), times[1..], p, rule, lo, hi);
    }
  }

  function Repeat(t: int, n: nat): (r: seq<int>)
    ensures |r| == n && forall i :: 0 <= i < n ==> r[i] == t
  {
    if n == 0 then [] else [t] + Repeat(t, n - 1)
  }

  lemma {:induction false} AdmittedInSplit(k: Keys, a: seq<int>, b: seq<int>, p: Policy, rule: Expiry, lo: int, hi: int)
    ensures AdmittedIn(k, a + b, p, rule, lo, hi)
         == AdmittedIn(k, a, p, rule, lo, hi) + AdmittedIn(After(k, a, p, rule), b, p, rule, lo, hi)
    ensures After(k, a + b, p, rule) == After(After(k, a, p, rule), b, p, rule)
    decreases a
  {
    if a == [] {
      assert a + b == b;
    } else {
      assert (a + b)[0] == a[0] && (a + b)[1..] == a[1..] + b;
      AdmittedInSplit(Next(k, a[0], p, rule), a[1..], b, p, rule, lo, hi);
    }
  }

  // Calls at one instant inside a live epoch are all admitted up to the limit.
  lemma {:induction false} Burst(k: Keys, t: int, n: nat, p: Policy, rule: Expiry, lo: int, hi: int)
    requires lo <= t < hi && k.block == None
    requires CounterLive(k, t, rule) && k.counter.value.deadline.Some?
    requires 1 <= k.counter.value.value && k.counter.value.value + n <= p.limit
    ensures AdmittedIn(k, Repeat(t, n), p, rule, lo, hi) == n
    ensures After(k, Repeat(t, n), p, rule) == Keys(Some(k.counter.value.(value := k.counter.value.value + n)), None)
    decreases n
  {
    if n > 0 {
      Burst(Next(k, t, p, rule), t, n - 1, p, rule, lo, hi);
    }
  }

  // One call that opens an epoch, and then as many as the limit still lets through.
  lemma FullEpoch(k: Keys, t: int, later: int, p: Policy, rule: Expiry, lo: int, hi: int)
    requires p.Valid() && 1 <= p.limit && k.block == None && !CounterLive(k, t, rule)
    requires lo <= later < hi && Live(Some(Entry(1, Some(t + p.windowMs))), later, rule)
    ensures var calls := [t] + Repeat(later, p.limit - 1);
      && AdmittedIn(k, calls, p, rule, lo, hi) == p.limit - 1 + (if lo <= t < hi then 1 else 0)
      && After(k, calls, p, rule) == Keys(Some(Entry(p.limit, Some(t + p.windowMs))), None)
  {
    var calls := [t] + Repeat(later, p.limit - 1);
    assert calls[1..] == Repeat(later, p.limit - 1);
    Burst(Next(k, t, p, rule), later, p.limit - 1, p, rule, lo, hi);
  }

  /** The bound of WindowBound is met, whatever the limit: one early call, the rest of the first
      epoch in its last millisecond, and a whole second epoch in the next. */
  lemma WindowBoundIsMet(p: Policy, rule: Expiry) returns (times: seq<int>, lo: int)
    requires p.Valid() && 1 <= p.limit && 2 <= p.windowMs
    ensures NonDecreasing(times)
    ensures AdmittedIn(Unused, times, p, rule, lo, lo + p.windowMs) == 2 * p.limit - 1
  {
    lo := if rule.GoneAtDeadline? then p.windowMs - 1 else p.windowMs;
    var hi := lo + p.windowMs;
    var first, second := [0] + Repeat(lo, p.limit - 1), [lo + 1] + Repeat(lo + 1, p.limit - 1);
    times := first + second;
    FullEpoch(Unused, 0, lo, p, rule, lo, hi);
    FullEpoch(After(Unused, first, p, rule), lo + 1, lo + 1, p, rule, lo, hi);
    AdmittedInSplit(Unused, first, second, p, rule, lo, hi);
  }

  // ---- How long a lockout lasts ----

  /** The counter's epoch began at `start`; its deadline moved at most once, together with a block
      that ends with it. */
  predicate EpochFrom(k: Keys, start: int, p: Policy) {
    match k.counter
    case None => k.block.None?
    case Some(c) =>
      && 1 <= c.value && c.deadline.Some?
      && start + p.windowMs <= c.deadline.value < start + p.windowMs + p.blockMs
      && (k.block.Some? ==> k.block.value.deadline.Some? && k.block.value.deadline.value <= c.deadline.value)
      && (start + p.windowMs < c.deadline.value ==> k.block.Some? && k.block.value.deadline == c.deadline)
  }

  /** One call keeps the epoch's bound, or opens a new epoch. */
  lemma EpochStep(k: Keys, start: int, now: int, p: Policy, rule: Expiry) returns (start': int)
    requires p.Valid() && EpochFrom(k, start, p) && start <= now
    requires rule.GoneAtDeadline? || OffDeadlines(k, [now], p, rule)
    ensures start <= start' <= now && EpochFrom(Next(k, now, p, rule), start', p)
    ensures !Admits(k, now, p, rule) && 1 <= p.limit ==>
      k.counter.Some? && start' == start && now < k.counter.value.deadline.value
  {
    start' := if Blocked(k, now) || CounterLive(k, now, rule) then start else now;
  }

  /** Every call of the run finds the counter live: the run lies within one epoch. */
  predicate WithinEpoch(k: Keys, times: seq<int>, p: Policy, rule: Expiry)
    decreases times
  {
    times == [] || (CounterLive(k, times[0], rule) && WithinEpoch(Next(k, times[0], p, rule), times[1..], p, rule))
  }

  /** How many calls of the run change the deadline of the counter. */
  function DeadlineMoves(k: Keys, times: seq<int>, p: Policy, rule: Expiry): nat
    decreases times
  {
    if times == [] then 0 else
      var next := Next(k, times[0], p, rule);
      var moves := k.counter.Some? && next.counter.Some? && next.counter.value.deadline != k.counter.value.deadline;
      (if moves then 1 else 0) + DeadlineMoves(next, times[1..], p, rule)
  }

  // Once the deadline has moved, the block that moved it refuses every call until the epoch ends.
  lemma MovedDeadlineStays(k: Keys, start: int, now: int, p: Policy, rule: Expiry)
    requires p.Valid() && EpochFrom(k, start, p) && CounterLive(k, now, rule)
    requires rule.GoneAtDeadline? || OffDeadlines(k, [now], p, rule)
    requires start + p.windowMs < k.counter.value.deadline.value
    ensures Next(k, now, p, rule) == k
  {
  }

  /** Within an epoch the counter's deadline moves at most once, however many calls arrive, and then
      stands: it is `start + windowMs` or one later time below `start + windowMs + blockMs`. */
  lemma {:induction false} DeadlineMovesOnce(k: Keys, start: int, times: seq<int>, p: Policy, rule: Expiry)
    requires p.Valid() && EpochFrom(k, start, p) && k.counter.Some?
    requires NonDecreasing(times) && (times != [] ==> start <= times[0])
    requires rule.GoneAtDeadline? || OffDeadlines(k, times, p, rule)
    requires WithinEpoch(k, times, p, rule)
    ensures EpochFrom(After(k, times, p, rule), start, p) && After(k, times, p, rule).counter.Some?
    ensures DeadlineMoves(k, times, p, rule) <= if start + p.windowMs < k.counter.value.deadline.value then 0 else 1
    ensures DeadlineMoves(k, times, p, rule) == 0 ==>
      After(k, times, p, rule).counter.value.deadline == k.counter.value.deadline
    decreases times
  {
    if times != [] {
      var next := Next(k, times[0], p, rule);
      if start + p.windowMs < k.counter.value.deadline.value {
        MovedDeadlineStays(k, start, times[0], p, rule);
      } else {
        KeepsEpoch(k, start, times[0], p, rule);
      }
      DeadlineMovesOnce(next, start, times[1..], p, rule);
    }
  }

  lemma KeepsEpoch(k: Keys, start: int, now: int, p: Policy, rule: Expiry)
    requires p.Valid() && EpochFrom(k, start, p) && start <= now && CounterLive(k, now, rule)
    requires rule.GoneAtDeadline? || OffDeadlines(k, [now], p, rule)
    ensures EpochFrom(Next(k, now, p, rule), start, p) && Next(k, now, p, rule).counter.Some?
    ensures k.counter.value.deadline.value <= Next(k, now, p, rule).counter.value.deadline.value
  {
  }

  lemma {:induction false} EpochRun(k: Keys, start: int, times: seq<int>, p: Policy, rule: Expiry) returns (start': int)
    requires p.Valid() && EpochFrom(k, start, p)
    requires NonDecreasing(times) && (times != [] ==> start <= times[0])
    requires rule.GoneAtDeadline? || OffDeadlines(k, times, p, rule)
    ensures start <= start' && (if times == [] then start' == start else start' <= times[|times| - 1])
    ensures EpochFrom(After(k, times, p, rule), start', p)
    decreases times
  {
    if times == [] {
      start' := start;
    } else {
      assert times[|times| - 1] == if |times| > 1 then times[1..][|times| - 2] else times[0];
      var mid := EpochStep(k, start, times[0], p, rule);
      start' := EpochRun(Next(k, times[0], p, rule), mid, times[1..], p, rule);
    }
  }

  lemma {:induction false} RefusalsStayInEpoch(k: Keys, start: int, times: seq<int>, p: Policy, rule: Expiry)
    requires p.Valid() && 1 <= p.limit && EpochFrom(k, start, p)
    requires NonDecreasing(times) && times != [] && start <= times[0]
    requires rule.GoneAtDeadline? || OffDeadlines(k, times, p, rule)
    requires AllRefused(k, times, p, rule)
    ensures times[|times| - 1] <= start + p.windowMs + p.blockMs - 2
    decreases times
  {
    var next := EpochStep(k, start, times[0], p, rule);
    if |times| > 1 {
      assert times[1..][|times| - 2] == times[|times| - 1];
      RefusalsStayInEpoch(Next(k, times[0], p, rule), start, times[1..], p, rule);
    }
  }

  /** Every lockout ends: however a client retries, an unbroken stretch of refusals spans at most
      windowMs + blockMs - 2 milliseconds, so the next later call is admitted. */
  lemma LockoutIsBounded(before: seq<int>, refused: seq<int>, p: Policy, rule: Expiry)
    requires p.Valid() && 1 <= p.limit && NonDecreasing(before + refused) && refused != []
    requires rule.GoneAtDeadline? || OffDeadlines(Unused, before + refused, p, rule)
    requires AllRefused(After(Unused, before, p, rule), refused, p, rule)
    ensures refused[|refused| - 1] - refused[0] <= p.windowMs + p.blockMs - 2
  {
    assert forall i :: 0 <= i < |before| ==> (before + refused)[i] == before[i];
    assert forall i :: 0 <= i < |refused| ==> (before + refused)[|before| + i] == refused[i];
    assert NonDecreasing(before) && NonDecreasing(refused);
    OffDeadlinesSplit(Unused, before, refused, p, rule);
    var first := (before + refused)[0];
    var start := EpochRun(Unused, first, before, p, rule);
    RefusalsStayInEpoch(After(Unused, before, p, rule), start, refused, p, rule);
  }

  lemma {:induction false} OffDeadlinesSplit(k: Keys, a: seq<int>, b: seq<int>, p: Policy, rule: Expiry)
    ensures OffDeadlines(k, a + b, p, rule)
       <==> OffDeadlines(k, a, p, rule) && OffDeadlines(After(k, a, p, rule), b, p, rule)
    decreases a
  {
    if a == [] {
      assert a + b == b;
    } else {
      assert (a + b)[0] == a[0] && (a + b)[1..] == a[1..] + b;
      OffDeadlinesSplit(Next(k, a[0], p, rule), a[1..], b, p, rule);
    }
  }

  /** The condition of LockoutIsBounded is exact: once a spent counter's deadline has come, the call
      is admitted unless it hits that very millisecond of a key that lasts through it. */
  lemma SpentCounterReopens(k: Keys, start: int, now: int, p: Policy, rule: Expiry)
    requires p.Valid() && 1 <= p.limit && EpochFrom(k, start, p)
    requires k.counter.Some? && p.limit <= k.counter.value.value && k.counter.value.deadline.value <= now
    ensures Admits(k, now, p, rule)
       <==> rule.GoneAtDeadline? || OffDeadlines(k, [now], p, rule)
  {
  }

  function Arrivals(first: int, gap: int, n: nat): seq<int>
    decreases n
  {
    if n == 0 then [] else [first] + Arrivals(first + gap, gap, n - 1)
  }

  lemma {:induction false} ArrivalsOnDeadlines(k: Keys, t: int, n: nat, p: Policy)
    requires p.Valid() && k.counter.Some? && p.limit <= k.counter.value.value
    requires k.counter.value.deadline.Some? && t <= k.counter.value.deadline.value
    requires k.block.Some? && k.block.value.deadline == Some(t)
    ensures AllRefused(k, Arrivals(t, p.blockMs, n), p, LastsThroughDeadline)
    decreases n
  {
    if n > 0 {
      ArrivalsOnDeadlines(Next(k, t, p, LastsThroughDeadline), t + p.blockMs, n - 1, p);
    }
  }

  // One call more than the limit, at one instant, blocks.
  lemma Overrun(p: Policy) returns (burst: seq<int>)
    requires p.Valid() && 1 <= p.limit
    ensures burst == [0] + Repeat(0, p.limit - 1) + [0]
    ensures After(Unused, burst, p, LastsThroughDeadline)
         == Keys(Some(Entry(p.limit + 1, Some(Max(p.windowMs, p.blockMs)))), Some(Entry(p.blockMs, Some(p.blockMs))))
  {
    var epoch := [0] + Repeat(0, p.limit - 1);
    burst := epoch + [0];
    FullEpoch(Unused, 0, 0, p, LastsThroughDeadline, 0, 1);
    AdmittedInSplit(Unused, epoch, [0], p, LastsThroughDeadline, 0, 1);
    var k := After(Unused, epoch, p, LastsThroughDeadline);
    assert [0][1..] == [];
    assert After(k, [0], p, LastsThroughDeadline) == Next(k, 0, p, LastsThroughDeadline);
  }

  /** Where a key lasts through its deadline, a client that retries exactly at each retry time is
      locked out for ever, under every policy and for any number of retries. */
  lemma LockoutWithoutEnd(n: nat, p: Policy) returns (burst: seq<int>)
    requires p.Valid() && 1 <= p.limit
    ensures burst == [0] + Repeat(0, p.limit - 1) + [0]
    ensures AllRefused(After(Unused, burst, p, LastsThroughDeadline), Arrivals(p.blockMs, p.blockMs, n), p,
                       LastsThroughDeadline)
  {
    burst := Overrun(p);
    ArrivalsOnDeadlines(After(Unused, burst, p, LastsThroughDeadline), p.blockMs, n, p);
  }

  /** A block that lost its expiry, as no call of the script leaves one, blocks nobody: the next call that is
      admitted lifts it, the next that overruns the limit gives it a deadline. */
  lemma BlockWithoutExpiryIsLifted(k: Keys, now: int, p: Policy, rule: Expiry)
    requires k.block.Some? && k.block.value.deadline.None?
    ensures Admits(k, now, p, rule) <==> Admits(k.(block := None), now, p, rule)
    ensures Next(k, now, p, rule) == Next(k.(block := None), now, p, rule)
    ensures Next(k, now, p, rule).block.Some? ==> Next(k, now, p, rule).block.value.deadline == Some(now + p.blockMs)
  {
  }

  // ---- What a retry time promises ----

  /** After a refusal naming `retryAt`, every earlier retry is refused and changes nothing; the first
      later one is admitted exactly when the counter is gone by then. */
  lemma {:induction false} RetryTimeIsHonest(k: Keys, now: int, times: seq<int>, later: int, p: Policy, rule: Expiry)
    requires p.Valid() && 1 <= p.limit && WellFormed(k) && Step(k, now, p, rule).1.Refused?
    requires forall i :: 0 <= i < |times| ==> now <= times[i] < Step(k, now, p, rule).1.retryAt
    requires Step(k, now, p, rule).1.retryAt <= later
    ensures var k' := Next(k, now, p, rule);
            && AllRefused(k', times, p, rule) && After(k', times, p, rule) == k'
            && (!Blocked(k, now) ==> (Admits(k', later, p, rule) <==> !CounterLive(k', later, rule)))
    decreases times
  {
    if times != [] {
      var k' := Next(k, now, p, rule);
      assert Next(k', times[0], p, rule) == k';
      RetryTimeIsHonest(k, now, times[1..], later, p, rule);
    }
  }

  /** The retry time is when the block ends: a call that overruns the limit is blocked for blockMs from then
      on, a call met by a block keeps the block's end. */
  lemma RetryTimeIsBlockEnd(k: Keys, now: int, p: Policy, rule: Expiry)
    requires p.Valid() && Step(k, now, p, rule).1.Refused?
    ensures var k', retryAt := Next(k, now, p, rule), Step(k, now, p, rule).1.retryAt;
      && now < retryAt && (forall t :: Blocked(k', t) <==> t < retryAt)
      && (if Blocked(k, now) then k' == k else retryAt == now + p.blockMs)
      && (!Blocked(k, now) ==> k'.counter.Some? && p.limit < k'.counter.value.value)
  {
  }

  /** The advertised whole number of seconds is the smallest positive one that reaches `retryAt`. */
  lemma RetryAfterIsLeast(retryAt: int, now: int)
    ensures var r := RetryAfterSeconds(retryAt, now);
            && 1 <= r && retryAt <= now + 1000 * r
            && (forall s :: 1 <= s && retryAt <= now + 1000 * s ==> r <= s)
  {
  }
}

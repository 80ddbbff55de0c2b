/**
 Token bucket limiter shared by every waiter on one host. Tokens are reals, clock readings are
 nanoseconds; a reading is taken under the lock, so readings never go back.
 */
module RateLimiter {
  import opened Conversions
  import opened MonotoneClock

  const MILLISECOND: int := 1_000_000

  /** Tokens that `span` nanoseconds add. */
  function Added(rate: real, span: int): real {
    rate * (span as real / SECOND as real)
  }

  /** The bucket of a limiter with the given rate (tokens per second) and capacity. */
  datatype Bucket = Bucket(rate: real, capacity: int, tokens: real, lastRefill: int) {
    ghost predicate Valid() {
      0.0 < rate && 0 <= capacity && 0.0 <= tokens <= capacity as real
    }

    function Refilled(now: int): real {
      var tokens := tokens + Added(rate, now - lastRefill);
      if tokens > capacity as real then capacity as real else tokens
    }

    /** Whether a waiter that takes the lock at `now` is granted. */
    predicate Grants(now: int) {
      Refilled(now) >= 1.0
    }

    /** The bucket it leaves behind at unlock. */
    function After(now: int): Bucket {
      this.(tokens := if Grants(now) then Refilled(now) - 1.0 else Refilled(now), lastRefill := now)
    }

    /** How long a refused waiter sleeps. */
    function Pause(now: int): int
      requires 0.0 < rate
    {
      ((1.0 - Refilled(now)) / rate * SECOND as real).Floor + MILLISECOND
    }
  }

  // ----- Arithmetic of refilling -----

  lemma RefillScales(rate: real, from: int, to: int)
    requires 0.0 < rate && from <= to
    ensures 0.0 <= Added(rate, to - from)
  {
  }

  lemma RefillAdds(rate: real, from: int, mid: int, to: int)
    ensures Added(rate, to - from) == Added(rate, mid - from) + Added(rate, to - mid)
  {
    var first, second := (mid - from) as real / SECOND as real, (to - mid) as real / SECOND as real;
    assert (to - from) as real / SECOND as real == first + second;
    assert rate * (first + second) == rate * first + rate * second;
  }

  lemma RefillGrows(rate: real, span: int, longer: int)
    requires 0.0 < rate && span <= longer
    ensures Added(rate, span) <= Added(rate, longer)
  {
    RefillAdds(rate, 0, span, longer);
    RefillScales(rate, span, longer);
  }

  lemma AfterKeepsValid(bucket: Bucket, now: int)
    requires bucket.Valid() && bucket.lastRefill <= now
    ensures bucket.After(now).Valid() && 0.0 <= bucket.Refilled(now) <= bucket.capacity as real
    ensures bucket.Refilled(now) <= bucket.tokens + Added(bucket.rate, now - bucket.lastRefill)
    ensures bucket.After(now) == Bucket(bucket.rate, bucket.capacity, bucket.After(now).tokens, now)
    ensures bucket.Grants(now) ==> bucket.After(now).tokens <= bucket.capacity as real - 1.0
  {
    RefillScales(bucket.rate, bucket.lastRefill, now);
  }

  // ----- Whole runs -----

  /** The lock is taken at these readings, by whichever waiter; a run is any nondecreasing list. */
  ghost predicate Ordered(start: int, readings: seq<int>)
    decreases |readings|
  {
    readings == [] || (start <= readings[0] && Ordered(readings[0], readings[1..]))
  }

  /** How many waiters are granted at readings within [a, b]. */
  ghost function GrantsWithin(bucket: Bucket, readings: seq<int>, a: int, b: int): nat
    decreases |readings|
  {
    if readings == [] then 0
    else
      (if a <= readings[0] <= b && bucket.Grants(readings[0]) then 1 else 0)
      + GrantsWithin(bucket.After(readings[0]), readings[1..], a, b)
  }

  /** The bucket after every reading of a run. */
  ghost function AfterAll(bucket: Bucket, readings: seq<int>): Bucket
    decreases |readings|
  {
    if readings == [] then bucket else AfterAll(bucket.After(readings[0]), readings[1..])
  }

  lemma {:induction false} NoGrantsPastWindow(bucket: Bucket, readings: seq<int>, a: int, b: int)
    requires Ordered(bucket.lastRefill, readings) && b < bucket.lastRefill
    ensures GrantsWithin(bucket, readings, a, b) == 0
    decreases |readings|
  {
    if readings != [] {
      NoGrantsPastWindow(bucket.After(readings[0]), readings[1..], a, b);
    }
  }

  /** Inside the window, grants are paid for by the tokens in hand and what the rest of it adds. */
  lemma {:induction false} GrantsFromInside(bucket: Bucket, readings: seq<int>, a: int, b: int)
    requires bucket.Valid() && Ordered(bucket.lastRefill, readings) && a <= bucket.lastRefill <= b
    ensures GrantsWithin(bucket, readings, a, b) as real
         <= bucket.tokens + Added(bucket.rate, b - bucket.lastRefill)
    decreases |readings|
  {
    hide Added;
    RefillScales(bucket.rate, bucket.lastRefill, b);
    if readings != [] {
      var now := readings[0];
      var after := bucket.After(now);
      AfterKeepsValid(bucket, now);
      if now <= b {
        GrantsFromInside(after, readings[1..], a, b);
        RefillAdds(bucket.rate, bucket.lastRefill, now, b);
      } else {
        NoGrantsPastWindow(after, readings[1..], a, b);
      }
    }
  }

  lemma {:induction false} GrantsInWindow(bucket: Bucket, readings: seq<int>, a: int, b: int)
    requires bucket.Valid() && Ordered(bucket.lastRefill, readings) && a <= b
    ensures GrantsWithin(bucket, readings, a, b) as real <= bucket.capacity as real + Added(bucket.rate, b - a)
    decreases |readings|
  {
    hide Added;
    RefillScales(bucket.rate, a, b);
    if a <= bucket.lastRefill <= b {
      GrantsFromInside(bucket, readings, a, b);
      RefillGrows(bucket.rate, b - bucket.lastRefill, b - a);
    } else if b < bucket.lastRefill {
      NoGrantsPastWindow(bucket, readings, a, b);
    } else if readings != [] {
      var now := readings[0];
      var after := bucket.After(now);
      AfterKeepsValid(bucket, now);
      if now < a {
        GrantsInWindow(after, readings[1..], a, b);
      } else if now <= b {
        GrantsFromInside(after, readings[1..], a, b);
        RefillGrows(bucket.rate, b - now, b - a);
      } else {
        NoGrantsPastWindow(after, readings[1..], a, b);
      }
    }
  }

  /** Over any run of any waiters, no window grants more than a full bucket and what the rate, in tokens
      per second, adds in it. */
  lemma WindowBound(bucket: Bucket, readings: seq<int>, a: int, b: int)
    requires bucket.Valid() && Ordered(bucket.lastRefill, readings) && a <= b
    ensures GrantsWithin(bucket, readings, a, b) as real
         <= bucket.capacity as real + bucket.rate * ((b - a) as real / 1_000_000_000.0)
  {
    GrantsInWindow(bucket, readings, a, b);
    AddedIs(bucket.rate, b - a);
  }

  /** The bucket is never overdrawn nor overfull at any unlock of a run. */
  lemma {:induction false} TokensStayInBounds(bucket: Bucket, readings: seq<int>)
    requires bucket.Valid() && Ordered(bucket.lastRefill, readings)
    ensures AfterAll(bucket, readings).Valid()
    ensures 0.0 <= AfterAll(bucket, readings).tokens <= bucket.capacity as real
    decreases |readings|
  {
    if readings != [] {
      AfterKeepsValid(bucket, readings[0]);
      TokensStayInBounds(bucket.After(readings[0]), readings[1..]);
    }
  }

  lemma {:induction false} TokensAndGrants(bucket: Bucket, readings: seq<int>, end: int)
    requires bucket.Valid() && Ordered(bucket.lastRefill, readings)
    requires end == if readings == [] then bucket.lastRefill else readings[|readings| - 1]
    requires bucket.tokens + Added(bucket.rate, end - bucket.lastRefill) <= bucket.capacity as real
    ensures AfterAll(bucket, readings).tokens + GrantsWithin(bucket, readings, bucket.lastRefill, end) as real
         == bucket.tokens + Added(bucket.rate, end - bucket.lastRefill)
    decreases |readings|
  {
    if readings != [] {
      var now := readings[0];
      var after := bucket.After(now);
      hide Added;
      LastIsLatest(bucket.lastRefill, readings);
      AfterKeepsValid(bucket, now);
      RefillAdds(bucket.rate, bucket.lastRefill, now, end);
      RefillGrows(bucket.rate, now - bucket.lastRefill, end - bucket.lastRefill);
      TokensAndGrants(after, readings[1..], end);
      WindowStartsAnywhere(after, readings[1..], bucket.lastRefill, now, end);
    }
  }

  /** A run that never fills the bucket neither loses tokens nor makes any: what it held and what the
      time added is what it holds now and what it granted. */
  lemma TokensAreConserved(bucket: Bucket, readings: seq<int>, end: int)
    requires bucket.Valid() && Ordered(bucket.lastRefill, readings)
    requires end == if readings == [] then bucket.lastRefill else readings[|readings| - 1]
    requires bucket.tokens + bucket.rate * ((end - bucket.lastRefill) as real / 1_000_000_000.0) <= bucket.capacity as real
    ensures AfterAll(bucket, readings).tokens + GrantsWithin(bucket, readings, bucket.lastRefill, end) as real
         == bucket.tokens + bucket.rate * ((end - bucket.lastRefill) as real / 1_000_000_000.0)
  {
    AddedIs(bucket.rate, end - bucket.lastRefill);
    hide Added;
    TokensAndGrants(bucket, readings, end);
  }

  lemma {:induction false} LastIsLatest(start: int, readings: seq<int>)
    requires Ordered(start, readings) && readings != []
    ensures start <= readings[0] <= readings[|readings| - 1]
    decreases |readings|
  {
    if |readings| > 1 {
      LastIsLatest(readings[0], readings[1..]);
    }
  }

  lemma {:induction false} WindowStartsAnywhere(bucket: Bucket, readings: seq<int>, a: int, a': int, b: int)
    requires Ordered(bucket.lastRefill, readings) && a <= a' <= bucket.lastRefill
    ensures GrantsWithin(bucket, readings, a, b) == GrantsWithin(bucket, readings, a', b)
    decreases |readings|
  {
    if readings != [] {
      WindowStartsAnywhere(bucket.After(readings[0]), readings[1..], a, a', b);
    }
  }

  /** One pass: the time since the last one adds tokens up to the capacity, and a whole one is taken. */
  lemma AfterIs(bucket: Bucket, now: int)
    ensures var sum := bucket.tokens + bucket.rate * ((now - bucket.lastRefill) as real / 1_000_000_000.0);
      var refilled := if sum > bucket.capacity as real then bucket.capacity as real else sum;
      && bucket.Refilled(now) == refilled
      && (bucket.Grants(now) <==> refilled >= 1.0)
      && bucket.After(now) ==
        Bucket(bucket.rate, bucket.capacity, if refilled >= 1.0 then refilled - 1.0 else refilled, now)
  {
    AddedIs(bucket.rate, now - bucket.lastRefill);
    hide Added;
  }

  /** A bucket with room gains exactly `rate` tokens in a second. */
  lemma SecondAddsRate(bucket: Bucket)
    requires bucket.tokens + bucket.rate <= bucket.capacity as real
    ensures bucket.Refilled(bucket.lastRefill + 1_000_000_000) == bucket.tokens + bucket.rate
  {
    AfterIs(bucket, bucket.lastRefill + 1_000_000_000);
  }

  /** Waiters that arrive together are granted as long as there are whole tokens. */
  lemma {:induction false} TogetherGranted(bucket: Bucket, waiters: nat)
    requires waiters as real <= bucket.tokens <= bucket.capacity as real
    ensures GrantsWithin(bucket, seq(waiters, _ => bucket.lastRefill), bucket.lastRefill, bucket.lastRefill) == waiters
    decreases waiters
  {
    var now, all := bucket.lastRefill, seq(waiters, _ => bucket.lastRefill);
    if waiters > 0 {
      AfterIs(bucket, now);
      assert all[1..] == seq(waiters - 1, _ => now);
      TogetherGranted(bucket.After(now), waiters - 1);
    }
  }

  // ----- One waiter alone -----

  lemma PauseRefills(rate: real, need: real, pause: int)
    requires 0.0 < rate && 0.0 <= need
    requires pause == (need / rate * SECOND as real).Floor + MILLISECOND
    ensures Added(rate, pause) >= need
  {
    var exact, seconds := need / rate, pause as real / 1_000_000_000.0;
    assert exact <= seconds;
    DivideMultiply(need, rate);
    MultiplyAtMost(exact, seconds, rate);
    AddedIs(rate, pause);
    hide *;
    assert need == exact * rate <= seconds * rate == Added(rate, pause);
  }

  lemma AddedIs(rate: real, span: int)
    ensures Added(rate, span) == rate * (span as real / 1_000_000_000.0)
  {
  }

  lemma DivideMultiply(x: real, y: real)
    requires y != 0.0
    ensures x / y * y == x
  {
  }

  lemma MultiplyAtMost(x: real, y: real, factor: real)
    requires x <= y && 0.0 < factor
    ensures x * factor <= y * factor
  {
    assert y * factor == x * factor + (y - x) * factor;
  }

  /** A refused waiter that sleeps out its pause is granted if the bucket can hold a token at all,
      and never otherwise: flooring to nanoseconds loses less than the added millisecond gives. */
  lemma PauseSufficesIffCapacity(bucket: Bucket, now: int, wake: int)
    requires bucket.Valid() && bucket.lastRefill <= now && !bucket.Grants(now)
    requires now + bucket.Pause(now) <= wake
    ensures bucket.After(now).Grants(wake) <==> bucket.capacity >= 1
  {
    AfterKeepsValid(bucket, now);
    PauseRefills(bucket.rate, 1.0 - bucket.Refilled(now), bucket.Pause(now));
    RefillGrows(bucket.rate, bucket.Pause(now), wake - now);
    hide Added;
  }

  lemma PauseIsPositive(bucket: Bucket, now: int)
    requires 0.0 < bucket.rate && !bucket.Grants(now)
    ensures bucket.Pause(now) >= MILLISECOND
  {
    assert 0.0 <= (1.0 - bucket.Refilled(now)) / bucket.rate;
  }

  /** Nor does it sleep longer than the tokens take, but for the added millisecond. */
  lemma PauseIsNoLonger(bucket: Bucket, now: int, wake: int)
    requires bucket.Valid() && bucket.lastRefill <= now && !bucket.Grants(now)
    requires now <= wake < now + bucket.Pause(now) - 1_000_000
    ensures !bucket.After(now).Grants(wake)
  {
    var need, span := 1.0 - bucket.Refilled(now), wake - now;
    TooShort(bucket.rate, need, span);
    hide Added;
  }

  lemma TooShort(rate: real, need: real, span: int)
    requires 0.0 < rate && span < (need / rate * SECOND as real).Floor
    ensures Added(rate, span) < need
  {
    var exact, seconds := need / rate, span as real / 1_000_000_000.0;
    assert seconds < exact;
    DivideMultiply(need, rate);
    MultiplyLess(seconds, exact, rate);
    AddedIs(rate, span);
    hide *;
    assert Added(rate, span) == seconds * rate < exact * rate == need;
  }

  lemma MultiplyLess(x: real, y: real, factor: real)
    requires x < y && 0.0 < factor
    ensures x * factor < y * factor
  {
    assert y * factor == x * factor + (y - x) * factor;
    assert 0.0 < (y - x) * factor;
  }

  /** A limiter whose capacity rounds to zero refuses everyone for ever. */
  lemma {:induction false} NoCapacityNoGrants(bucket: Bucket, readings: seq<int>, a: int, b: int)
    requires bucket.capacity < 1
    ensures GrantsWithin(bucket, readings, a, b) == 0
    decreases |readings|
  {
    if readings != [] {
      NoCapacityNoGrants(bucket.After(readings[0]), readings[1..], a, b);
    }
  }

  /** The capacity an explicit rate limit asks for: a non-positive burst becomes the whole part of the rate. */
  function BurstOf(rps: real, burst: int): int {
    if burst <= 0 then Truncated(rps) else burst
  }

  /** A limiter as configured: full at its first reading. */
  ghost function Configured(rps: real, burst: int, start: int): Bucket {
    Bucket(rps, BurstOf(rps, burst), BurstOf(rps, burst) as real, start)
  }

  /** Its capacity is the burst, or without one the whole part of the rate; and it is full. */
  lemma ConfiguredCapacity(rps: real, burst: int, start: int)
    ensures var bucket := Configured(rps, burst, start);
      && bucket.rate == rps && bucket.tokens == bucket.capacity as real && bucket.lastRefill == start
      && (burst > 0 ==> bucket.capacity == burst)
      && (burst <= 0 && 0.0 <= rps ==> bucket.capacity as real <= rps < bucket.capacity as real + 1.0)
      && (burst <= 0 && rps <= 0.0 ==> bucket.capacity as real - 1.0 < rps <= bucket.capacity as real)
  {
  }

  /** Some run of some waiters gets a grant. */
  ghost predicate CanGrant(bucket: Bucket) {
    exists readings, a, b :: Ordered(bucket.lastRefill, readings) && GrantsWithin(bucket, readings, a, b) > 0
  }

  /** A configured limiter can grant at all exactly when it was given a burst or its rate is at least
      one; otherwise the burst rounds down to nothing and every waiter waits for ever. */
  lemma ConfiguredLimiterCanGrantIff(rps: real, burst: int, start: int)
    ensures CanGrant(Configured(rps, burst, start)) <==> burst >= 1 || rps >= 1.0
  {
    var bucket := Configured(rps, burst, start);
    if burst >= 1 || rps >= 1.0 {
      var one := [start];
      assert bucket.Grants(one[0]) && one[1..] == [];
      assert Ordered(start, one);
      assert GrantsWithin(bucket, one, start, start) > 0;
    } else {
      forall readings, a, b ensures GrantsWithin(bucket, readings, a, b) == 0 {
        NoCapacityNoGrants(bucket, readings, a, b);
      }
    }
  }

  datatype WaitResult = Granted | Cancelled

  class Limiter {
    const rate: real
    const capacity: int
    const clock: Clock
    var tokens: real
    var lastRefill: int

    function State(): Bucket
      reads this
    {
      Bucket(rate, capacity, tokens, lastRefill)
    }

    ghost predicate Valid()
      reads this, clock
    {
      State().Valid() && lastRefill <= clock.now
    }

    /** A full limiter. One with a positive rate and no negative capacity is in order. */
    constructor (rate: real, capacity: int, clock: Clock)
      modifies clock
      ensures 0.0 < rate && 0 <= capacity ==> Valid()
      ensures this.clock == clock && this.rate == rate && this.capacity == capacity
      ensures old(clock.now) <= clock.now && State() == Bucket(rate, capacity, capacity as real, clock.now)
    {
      var now := clock.Now();
      this.rate := rate;
      this.capacity := capacity;
      this.clock := clock;
      this.tokens := capacity as real;
      this.lastRefill := now;
    }

    /** One pass through the locked section. */
    method Attempt() returns (granted: bool, pause: int)
      requires Valid()
      modifies this, clock
      ensures Valid() && old(clock.now) <= clock.now == lastRefill
      ensures granted == old(State()).Grants(clock.now)
      ensures State() == old(State()).After(clock.now)
      ensures !granted ==> pause == old(State()).Pause(clock.now)
    {
      ghost var before := State();
      var now := clock.Now();
      AfterKeepsValid(before, now);
      hide Added;
      tokens := tokens + Added(rate, now - lastRefill);
      if tokens > capacity as real {
        tokens := capacity as real;
      }
      lastRefill := now;
      if tokens >= 1.0 {
        tokens := tokens - 1.0;
        return true, 0;
      }
      var need := 1.0 - tokens;
      pause := (need / rate * SECOND as real).Floor + MILLISECOND;
      granted := false;
    }

    /**
     A waiter with the limiter to itself sleeps at most once before it is granted, unless its context
     is done in that sleep. A limiter without capacity makes it sleep until its context is done, for
     ever if it never is. `done` says of each sleep whether the context ends it; `pauses` are the
     timers it set.
     */
    method Wait(done: nat -> bool) returns (result: WaitResult, sleeps: nat, pauses: seq<int>)
      requires Valid() && (capacity >= 1 || exists n :: done(n))
      modifies this, clock
      ensures Valid() && old(clock.now) <= clock.now
      ensures capacity >= 1 ==> sleeps <= 1
      ensures result == Granted <==> capacity >= 1 && (sleeps == 0 || !done(0))
      ensures |pauses| == sleeps
      ensures sleeps > 0 ==> exists t :: old(clock.now) <= t <= clock.now && pauses[0] == old(State()).Pause(t)
      ensures forall k: nat :: k < sleeps ==> pauses[k] >= 1_000_000
      ensures result == Granted ==> 0.0 <= tokens <= capacity as real - 1.0
      ensures sleeps == 1 && result == Granted ==> old(clock.now) + pauses[0] <= clock.now
      ensures result == Cancelled ==> sleeps > 0 && done(sleeps - 1) && forall n: nat :: n < sleeps - 1 ==> !done(n)
    {
      hide Added, Bucket.Refilled, Bucket.After, Bucket.Pause, Bucket.Grants;
      sleeps, pauses := 0, [];
      ghost var entry, refused := State(), State();
      ghost var first, at := clock.now, clock.now;
      ghost var last: nat := if capacity >= 1 then 0 else var n: nat :| done(n); n;
      while true
        invariant Valid() && old(clock.now) <= clock.now && (capacity >= 1 ==> sleeps <= 1)
        invariant sleeps > 0 ==>
          && refused.Valid() && refused.lastRefill <= at && !refused.Grants(at)
          && State() == refused.After(at) && at + refused.Pause(at) <= clock.now
          && old(clock.now) <= at
        invariant |pauses| == sleeps && forall k: nat :: k < sleeps ==> pauses[k] >= 1_000_000
        invariant sleeps == 0 ==> State() == entry
        invariant sleeps > 0 ==> old(clock.now) <= first <= clock.now && pauses[0] == entry.Pause(first)
        invariant sleeps == 1 ==> old(clock.now) + pauses[0] <= clock.now
        invariant forall n: nat :: n < sleeps ==> !done(n)
        decreases if capacity >= 1 then 1 - sleeps else last - sleeps
      {
        ghost var before := State();
        var granted, pause := Attempt();
        AfterKeepsValid(before, clock.now);
        if sleeps > 0 {
          AfterKeepsValid(refused, at);
          PauseSufficesIffCapacity(refused, at, clock.now);
        }
        if granted {
          return Granted, sleeps, pauses;
        }
        refused, at := before, clock.now;
        PauseIsPositive(refused, at);
        first := if sleeps == 0 then at else first;
        sleeps, pauses := sleeps + 1, pauses + [pause];
        if done(sleeps - 1) {
          return Cancelled, sleeps, pauses;
        }
        clock.Sleep(pause);
      }
    }
  }
}

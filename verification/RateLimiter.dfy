/** Per-client token buckets of the infoserver. Times are milliseconds; arithmetic is exact. */
module RateLimiter {
  datatype Bucket = Bucket(tokens: real, lastRefillMs: real)

  type Buckets = map<string, Bucket>

  /** The sustained allowance of a client; the source takes any positive number. */
  type PerMinute = p: real | p > 0.0 witness 60.0

  const WINDOW_MS := 60000.0

  /** Math.round: halves go up. */
  function Round(x: real): int { (x + 0.5).Floor }

  function BurstFor(p: PerMinute): (burst: real)
    ensures burst >= 1.0
  {
    if Round(p) as real > 1.0 then Round(p) as real else 1.0
  }

  function PerMs(p: PerMinute): real { p / WINDOW_MS }

  /** What decides a limiter: how much may be spent at once, and the credit earned up to a moment. */
  datatype Limits = Limits(burst: real, credit: real -> real)

  function LimitsOf(p: PerMinute): Limits {
    Limits(BurstFor(p), at => PerMs(p) * at)
  }

  function Min(a: real, b: real): real { if a < b then a else b }

  function Refilled(l: Limits, bucket: Bucket, now: real): real {
    Min(l.burst, bucket.tokens + (l.credit(now) - l.credit(bucket.lastRefillMs)))
  }

  function Take(l: Limits, buckets: Buckets, key: string, now: real): (Buckets, bool) {
    if key !in buckets then
      (buckets[key := Bucket(l.burst - 1.0, now)], true)
    else
      var tokens := Refilled(l, buckets[key], now);
      if tokens < 1.0 then (buckets[key := Bucket(tokens, now)], false)
      else (buckets[key := Bucket(tokens - 1.0, now)], true)
  }

  predicate Full(l: Limits, bucket: Bucket, now: real) { Refilled(l, bucket, now) >= l.burst }

  function Sweep(l: Limits, buckets: Buckets, now: real): Buckets {
    map key | key in buckets && !Full(l, buckets[key], now) :: buckets[key]
  }

  class Limiter {
    const perMinute: PerMinute
    const refillPerMs: real
    const burst: real
    var buckets: Buckets

    predicate Configured() {
      refillPerMs == PerMs(perMinute) && burst == BurstFor(perMinute)
    }

    constructor (perMinute: PerMinute)
      ensures this.perMinute == perMinute && Configured() && buckets == map[]
    {
      this.perMinute := perMinute;
      refillPerMs := perMinute / WINDOW_MS;
      burst := BurstFor(perMinute);
      buckets := map[];
    }

    function RefilledBucket(bucket: Bucket, nowMs: real): (tokens: real)
      requires Configured()
      ensures tokens == Refilled(LimitsOf(perMinute), bucket, nowMs)
    {
      Min(burst, bucket.tokens + (nowMs - bucket.lastRefillMs) * refillPerMs)
    }

    method TryTake(key: string, nowMs: real) returns (granted: bool)
      requires Configured()
      modifies this
      ensures (buckets, granted) == Take(LimitsOf(perMinute), old(buckets), key, nowMs)
    {
      if key !in buckets {
        buckets := buckets[key := Bucket(burst - 1.0, nowMs)];
        return true;
      }
      var tokens := RefilledBucket(buckets[key], nowMs);
      buckets := buckets[key := Bucket(tokens, nowMs)];
      if tokens < 1.0 {
        return false;
      }
      buckets := buckets[key := Bucket(tokens - 1.0, nowMs)];
      assert buckets == old(buckets)[key := Bucket(tokens - 1.0, nowMs)];
      return true;
    }

    method SweepFull(nowMs: real)
      requires Configured()
      modifies this
      ensures buckets == Sweep(LimitsOf(perMinute), old(buckets), nowMs)
    {
      ghost var l := LimitsOf(perMinute);
      var unseen := buckets.Keys;
      while unseen != {}
        invariant unseen <= buckets.Keys <= old(buckets).Keys
        invariant forall key :: key in old(buckets) ==>
          (key in buckets <==> key in unseen || !Full(l, old(buckets)[key], nowMs))
        invariant forall key :: key in buckets ==> buckets[key] == old(buckets)[key]
        decreases |unseen|
      {
        var key :| key in unseen;
        if RefilledBucket(buckets[key], nowMs) >= burst {
          buckets := buckets - {key};
        }
        unseen := unseen - {key};
      }
    }
  }

  // Runs.

  datatype Event = Request(key: string, at: real) | SweepAt(at: real)

  type Trace = seq<Event>

  predicate ClockMonotone(events: Trace) {
    forall i, j :: 0 <= i < j < |events| ==> events[i].at <= events[j].at
  }

  function Step(l: Limits, buckets: Buckets, event: Event): Buckets {
    match event
    case Request(key, at) => Take(l, buckets, key, at).0
    case SweepAt(at) => Sweep(l, buckets, at)
  }

  /** The limiter after the first n events. */
  function StateAt(l: Limits, events: Trace, n: nat): Buckets
    requires n <= |events|
  {
    if n == 0 then map[] else Step(l, StateAt(l, events, n - 1), events[n - 1])
  }

  predicate Requests(events: Trace, n: nat, key: string)
    requires n < |events|
  {
    events[n].Request? && events[n].key == key
  }

  predicate Granted(l: Limits, events: Trace, n: nat)
    requires n < |events| && events[n].Request?
  {
    Take(l, StateAt(l, events, n), events[n].key, events[n].at).1
  }

  /** What a client could spend at a moment: a client without a bucket has everything. */
  function Level(l: Limits, buckets: Buckets, key: string, at: real): (level: real)
    ensures level <= l.burst
  {
    if key in buckets then Refilled(l, buckets[key], at) else l.burst
  }

  /** Credit grows with time, and there is room for at least one request. */
  ghost predicate Fair(l: Limits) {
    l.burst >= 1.0 && forall a, b :: a <= b ==> l.credit(a) <= l.credit(b)
  }

  /** A request spends one from the level if there is one; everything else about the bucket is refill. */
  lemma LevelAfterTake(l: Limits, buckets: Buckets, key: string, now: real, at: real)
    requires Fair(l) && now <= at
    ensures Take(l, buckets, key, now).1 <==> Level(l, buckets, key, now) >= 1.0
    ensures
      var before := Level(l, buckets, key, now);
      var left := if Take(l, buckets, key, now).1 then before - 1.0 else before;
      Level(l, Take(l, buckets, key, now).0, key, at) == Min(l.burst, left + (l.credit(at) - l.credit(now)))
  {
  }

  lemma LevelAfterSweep(l: Limits, buckets: Buckets, key: string, now: real, at: real)
    requires Fair(l) && now <= at
    ensures Level(l, Sweep(l, buckets, now), key, at) == Level(l, buckets, key, at)
  {
  }

  lemma FairLimits(p: PerMinute)
    ensures Fair(LimitsOf(p))
  {
    var l := LimitsOf(p);
    forall a, b | a <= b ensures l.credit(a) <= l.credit(b) {
      assert PerMs(p) > 0.0 && (b - a) * PerMs(p) >= 0.0;
    }
  }

  // A sweep changes no later answer.

  ghost predicate SameLevels(l: Limits, a: Buckets, b: Buckets, from: real) {
    forall key, at :: from <= at ==> Level(l, a, key, at) == Level(l, b, key, at)
  }

  function Answers(l: Limits, buckets: Buckets, events: Trace): seq<bool>
    decreases |events|
  {
    if events == [] then []
    else
      var rest := Answers(l, Step(l, buckets, events[0]), events[1..]);
      if events[0].Request? then [Take(l, buckets, events[0].key, events[0].at).1] + rest else rest
  }

  function WithoutSweeps(events: Trace): Trace {
    if events == [] then []
    else if events[0].SweepAt? then WithoutSweeps(events[1..])
    else [events[0]] + WithoutSweeps(events[1..])
  }

  lemma TakeKeepsSameLevels(l: Limits, a: Buckets, b: Buckets, key: string, now: real)
    requires Fair(l) && SameLevels(l, a, b, now)
    ensures Take(l, a, key, now).1 == Take(l, b, key, now).1
    ensures SameLevels(l, Take(l, a, key, now).0, Take(l, b, key, now).0, now)
  {
    var x, y := Take(l, a, key, now).0, Take(l, b, key, now).0;
    LevelAfterTake(l, a, key, now, now);
    LevelAfterTake(l, b, key, now, now);
    forall k, at | now <= at ensures Level(l, x, k, at) == Level(l, y, k, at) {
      if k == key {
        LevelAfterTake(l, a, key, now, at);
        LevelAfterTake(l, b, key, now, at);
      } else {
        assert Level(l, x, k, at) == Level(l, a, k, at) && Level(l, y, k, at) == Level(l, b, k, at);
      }
    }
  }

  lemma {:induction false} SweepsAreInvisible(l: Limits, a: Buckets, b: Buckets, from: real, events: Trace)
    requires Fair(l) && SameLevels(l, a, b, from) && ClockMonotone(events)
    requires events != [] ==> from <= events[0].at
    ensures Answers(l, a, events) == Answers(l, b, WithoutSweeps(events))
    decreases |events|
  {
    if events == [] { return; }
    var event, rest := events[0], events[1..];
    assert SameLevels(l, a, b, event.at);
    match event
    case Request(key, at) =>
      TakeKeepsSameLevels(l, a, b, key, at);
      SweepsAreInvisible(l, Take(l, a, key, at).0, Take(l, b, key, at).0, at, rest);
      assert ([event] + WithoutSweeps(rest))[1..] == WithoutSweeps(rest);
    case SweepAt(at) =>
      forall key, t | at <= t ensures Level(l, Sweep(l, a, at), key, t) == Level(l, b, key, t) {
        LevelAfterSweep(l, a, key, at, t);
      }
      SweepsAreInvisible(l, Sweep(l, a, at), b, at, rest);
  }

  /** For any run on a clock that does not go back, dropping every sweep leaves every answer as it was. */
  lemma {:induction false} SweepsChangeNoAnswer(p: PerMinute, events: Trace)
    requires ClockMonotone(events)
    ensures Answers(LimitsOf(p), map[], events) == Answers(LimitsOf(p), map[], WithoutSweeps(events))
  {
    FairLimits(p);
    if events != [] {
      SweepsAreInvisible(LimitsOf(p), map[], map[], events[0].at, events);
    }
  }

  // No stretch of time grants more than the burst and what refills meanwhile.

  function Grants(l: Limits, events: Trace, key: string, lo: nat, hi: nat): nat
    requires lo <= hi <= |events|
    decreases hi
  {
    if lo == hi then 0
    else
      var granted := Requests(events, hi - 1, key) && Granted(l, events, hi - 1);
      Grants(l, events, key, lo, hi - 1) + if granted then 1 else 0
  }

  predicate Sound(buckets: Buckets, now: real) {
    forall key :: key in buckets ==> buckets[key].tokens >= 0.0 && buckets[key].lastRefillMs <= now
  }

  lemma {:induction false} SoundAt(l: Limits, events: Trace, n: nat)
    requires Fair(l) && ClockMonotone(events) && 0 < n <= |events|
    ensures Sound(StateAt(l, events, n), events[n - 1].at)
  {
    if n > 1 {
      SoundAt(l, events, n - 1);
      assert Sound(StateAt(l, events, n - 1), events[n - 1].at);
    } else {
      assert StateAt(l, events, 0) == map[];
    }
  }

  /** What a step grants is paid from the level. */
  lemma {:induction false} StepDrains(l: Limits, buckets: Buckets, event: Event, key: string)
    requires Fair(l)
    ensures var granted := event.Request? && event.key == key && Take(l, buckets, key, event.at).1;
      (if granted then 1.0 else 0.0) + Level(l, Step(l, buckets, event), key, event.at)
        == Level(l, buckets, key, event.at)
  {
    match event
    case Request(k, at) =>
      LevelAfterTake(l, buckets, k, at, at);
      assert k != key ==> Level(l, Step(l, buckets, event), key, at) == Level(l, buckets, key, at);
    case SweepAt(at) => LevelAfterSweep(l, buckets, key, at, at);
  }

  lemma {:induction false} LevelRefills(l: Limits, buckets: Buckets, key: string, from: real, to: real)
    requires Fair(l) && from <= to
    ensures Level(l, buckets, key, to) <= Level(l, buckets, key, from) + (l.credit(to) - l.credit(from))
  {
    assert l.credit(from) <= l.credit(to);
  }

  lemma {:induction false} GrantsDrainLevel(l: Limits, events: Trace, key: string, lo: nat, hi: nat)
    requires Fair(l) && ClockMonotone(events) && lo < hi <= |events|
    ensures Grants(l, events, key, lo, hi) as real + Level(l, StateAt(l, events, hi), key, events[hi - 1].at)
      <= l.burst + (l.credit(events[hi - 1].at) - l.credit(events[lo].at))
    decreases hi
  {
    var before, event := StateAt(l, events, hi - 1), events[hi - 1];
    StepDrains(l, before, event, key);
    if lo + 1 < hi {
      GrantsDrainLevel(l, events, key, lo, hi - 1);
      LevelRefills(l, before, key, events[hi - 2].at, event.at);
    } else {
      assert Grants(l, events, key, lo, lo) == 0;
    }
  }

  /** The whole number nearest to the allowance of a minute, halves going up, and at least one. */
  predicate IsNearest(p: PerMinute, n: nat) {
    if p < 0.5 then n == 1 else n as real - 0.5 <= p < n as real + 0.5
  }

  lemma {:induction false} BurstIsNearest(p: PerMinute) returns (n: nat)
    ensures n >= 1 && IsNearest(p, n) && BurstFor(p) == n as real
    ensures BurstFor(p) <= if p + 0.5 < 1.0 then 1.0 else p + 0.5
  {
    n := if Round(p) > 1 then Round(p) else 1;
    assert Round(p) as real <= p + 0.5 < Round(p) as real + 1.0;
  }

  /** Any stretch of a run that spans at most so many milliseconds grants a key at most one minute's allowance,
      rounded, and that time's share of it. */
  lemma {:induction false} GrantsAreBounded(p: PerMinute, events: Trace, key: string, lo: nat, hi: nat, span: real)
    requires ClockMonotone(events) && lo < hi <= |events| && events[hi - 1].at - events[lo].at <= span
    ensures Grants(LimitsOf(p), events, key, lo, hi) as real
      <= (if p + 0.5 < 1.0 then 1.0 else p + 0.5) + span * (p / 60000.0)
  {
    GrantsWithinEarned(p, events, key, lo, hi, span, span * (p / 60000.0));
    var n := BurstIsNearest(p);
  }

  lemma {:induction false} GrantsWithinEarned(p: PerMinute, events: Trace, key: string, lo: nat, hi: nat, span: real,
                                              earned: real)
    requires ClockMonotone(events) && lo < hi <= |events| && events[hi - 1].at - events[lo].at <= span
    requires earned == span * PerMs(p)
    ensures Grants(LimitsOf(p), events, key, lo, hi) as real <= BurstFor(p) + earned
  {
    FairLimits(p);
    GrantsWithinCredit(LimitsOf(p), events, key, lo, hi);
    CreditWithin(p, events[lo].at, events[hi - 1].at, span, earned);
  }

  lemma CreditWithin(p: PerMinute, from: real, to: real, span: real, earned: real)
    requires to - from <= span && earned == span * PerMs(p)
    ensures LimitsOf(p).credit(to) - LimitsOf(p).credit(from) <= earned
  {
    var rate := PerMs(p);
    assert rate > 0.0 && (span - (to - from)) * rate >= 0.0;
  }

  lemma {:induction false} GrantsWithinCredit(l: Limits, events: Trace, key: string, lo: nat, hi: nat)
    requires Fair(l) && ClockMonotone(events) && lo < hi <= |events|
    ensures Grants(l, events, key, lo, hi) as real <= l.burst + (l.credit(events[hi - 1].at) - l.credit(events[lo].at))
  {
    GrantsDrainLevel(l, events, key, lo, hi);
    SoundAt(l, events, hi);
  }

  // What a client may spend at once.

  predicate Simultaneous(events: Trace, lo: nat, hi: nat) {
    lo <= hi <= |events| && forall i, j :: lo <= i < hi && lo <= j < hi ==> events[i].at == events[j].at
  }

  lemma {:induction false} UnseenHasNoBucket(l: Limits, events: Trace, key: string, n: nat)
    requires n <= |events| && Total(events, key, 0, n) == 0
    ensures key !in StateAt(l, events, n)
  {
    if n > 0 {
      UnseenHasNoBucket(l, events, key, n - 1);
    }
  }

  lemma {:induction false} LevelWithinMoment(l: Limits, events: Trace, key: string, n: nat, lo: nat, k: nat)
    requires Fair(l) && l.burst == n as real && lo <= k < |events|
    requires Total(events, key, 0, lo) == 0 && Simultaneous(events, lo, k + 1)
    ensures var spent := Total(events, key, lo, k);
      Level(l, StateAt(l, events, k), key, events[k].at) == if spent < n then (n - spent) as real else 0.0
    decreases k
  {
    if k == lo {
      UnseenHasNoBucket(l, events, key, lo);
    } else {
      LevelWithinMoment(l, events, key, n, lo, k - 1);
      StepDrains(l, StateAt(l, events, k - 1), events[k - 1], key);
      LevelAfterTake(l, StateAt(l, events, k - 1), key, events[k - 1].at, events[k - 1].at);
    }
  }

  /** Of the requests a new client sends at one moment exactly the first ones are granted, as many as the whole
      number nearest to the allowance of a minute, whatever others do meanwhile. */
  lemma {:induction false} FirstRequestsAreGranted(p: PerMinute, events: Trace, key: string, n: nat, lo: nat, k: nat)
    requires IsNearest(p, n) && lo <= k < |events|
    requires Total(events, key, 0, lo) == 0 && Simultaneous(events, lo, k + 1) && Requests(events, k, key)
    ensures Granted(LimitsOf(p), events, k) <==> Total(events, key, lo, k) < n
  {
    var m := BurstIsNearest(p);
    assert m == n;
    FairLimits(p);
    LevelWithinMoment(LimitsOf(p), events, key, n, lo, k);
    LevelAfterTake(LimitsOf(p), StateAt(LimitsOf(p), events, k), key, events[k].at, events[k].at);
  }

  lemma {:induction false} Earned(p: PerMinute, rate: real, from: real, to: real)
    requires rate == p / 60000.0
    ensures LimitsOf(p).credit(to) - LimitsOf(p).credit(from) == (to - from) * rate
  {
    assert PerMs(p) == rate;
  }

  lemma {:induction false} SweepForgetsFull(l: Limits, buckets: Buckets, now: real, key: string, earned: real)
    requires key in buckets && earned == l.credit(now) - l.credit(buckets[key].lastRefillMs)
    ensures key !in Sweep(l, buckets, now) <==> buckets[key].tokens + earned >= l.burst
  {
  }

  /** A sweep forgets exactly the clients whose allowance has come back in full. */
  lemma {:induction false} SweepForgetsIdle(p: PerMinute, buckets: Buckets, now: real, key: string, earned: real)
    requires key in buckets && earned == (now - buckets[key].lastRefillMs) * (p / 60000.0)
    ensures key !in Sweep(LimitsOf(p), buckets, now) <==> buckets[key].tokens + earned >= BurstFor(p)
  {
    Earned(p, p / 60000.0, buckets[key].lastRefillMs, now);
    SweepForgetsFull(LimitsOf(p), buckets, now, key, earned);
  }

  // A client within budget is never refused.

  /** Requests of key among events lo..hi-1 that came after a moment. */
  function Count(events: Trace, key: string, lo: nat, hi: nat, after: real): nat
    requires lo <= hi <= |events|
    decreases hi
  {
    if lo == hi then 0
    else
      var counts := Requests(events, hi - 1, key) && events[hi - 1].at > after;
      Count(events, key, lo, hi - 1, after) + if counts then 1 else 0
  }

  function Total(events: Trace, key: string, lo: nat, hi: nat): nat
    requires lo <= hi <= |events|
    decreases hi
  {
    if lo == hi then 0 else Total(events, key, lo, hi - 1) + (if Requests(events, hi - 1, key) then 1 else 0)
  }

  /** Up to event n, every half-open minute ending at a request of key holds at most the budget. */
  predicate WithinBudget(budget: real, events: Trace, key: string, n: nat)
    requires n < |events|
  {
    forall m :: 0 <= m <= n && Requests(events, m, key) ==>
      Count(events, key, 0, m + 1, events[m].at - WINDOW_MS) as real <= budget
  }

  /** A minute earns the budget, and whatever whole number is within it may be spent at once. */
  ghost predicate Covers(l: Limits, budget: real) {
    && budget < l.burst + 1.0 && l.burst == l.burst.Floor as real
    && forall at :: l.credit(at) == l.credit(at - WINDOW_MS) + budget
  }

  lemma {:induction false} TotalSplits(events: Trace, key: string, lo: nat, mid: nat, hi: nat)
    requires lo <= mid <= hi <= |events|
    ensures Total(events, key, lo, hi) == Total(events, key, lo, mid) + Total(events, key, mid, hi)
    decreases hi
  {
    if mid < hi { TotalSplits(events, key, lo, mid, hi - 1); }
  }

  lemma {:induction false} RecentAreCounted(events: Trace, key: string, lo: nat, hi: nat, after: real)
    requires lo <= hi <= |events|
    requires forall i :: lo <= i < hi && Requests(events, i, key) ==> events[i].at > after
    ensures Total(events, key, lo, hi) <= Count(events, key, 0, hi, after)
    decreases hi
  {
    if lo < hi { RecentAreCounted(events, key, lo, hi - 1, after); }
  }

  /** The last request of key in lo..hi-1 that came at or before a moment, when there is one. */
  lemma {:induction false} LastUpTo(events: Trace, key: string, lo: nat, hi: nat, moment: real) returns (m: nat)
    requires lo < hi <= |events| && Requests(events, lo, key) && events[lo].at <= moment
    ensures lo <= m < hi && Requests(events, m, key) && events[m].at <= moment
    ensures forall i :: m < i < hi && Requests(events, i, key) ==> events[i].at > moment
    decreases hi
  {
    if Requests(events, hi - 1, key) && events[hi - 1].at <= moment {
      m := hi - 1;
    } else {
      m := LastUpTo(events, key, lo, hi - 1, moment);
    }
  }

  /** The requests between any two are no more than the burst and the refill between them. */
  lemma {:induction false} BudgetBoundsTotal(l: Limits, budget: real, events: Trace, key: string, j: nat, n: nat)
    requires Fair(l) && Covers(l, budget) && ClockMonotone(events) && j <= n < |events|
    requires Requests(events, j, key) && Requests(events, n, key) && WithinBudget(budget, events, key, n)
    ensures Total(events, key, j, n + 1) as real <= l.burst + (l.credit(events[n].at) - l.credit(events[j].at))
    decreases n
  {
    var windowStart := events[n].at - WINDOW_MS;
    if windowStart < events[j].at {
      RecentAreCounted(events, key, j, n + 1, windowStart);
      assert Total(events, key, j, n + 1) <= l.burst.Floor;
      assert l.credit(events[j].at) <= l.credit(events[n].at);
    } else {
      var m := LastUpTo(events, key, j, n, windowStart);
      BudgetBoundsTotal(l, budget, events, key, j, m);
      TotalSplits(events, key, j, m + 1, n + 1);
      RecentAreCounted(events, key, m + 1, n + 1, windowStart);
      assert l.credit(events[m].at) <= l.credit(windowStart);
      assert l.credit(events[n].at) == l.credit(windowStart) + budget;
    }
  }

  /** Either the bucket is full, or some earlier request found it full and every request since took at
      most one. */
  lemma {:induction false} LevelFloor(l: Limits, events: Trace, key: string, n: nat, at: real) returns (j: nat)
    requires Fair(l) && ClockMonotone(events) && n <= |events| && (n > 0 ==> events[n - 1].at <= at)
    ensures Level(l, StateAt(l, events, n), key, at) == l.burst
      || (j < n && Requests(events, j, key)
          && Level(l, StateAt(l, events, n), key, at)
            >= l.burst - Total(events, key, j, n) as real + (l.credit(at) - l.credit(events[j].at)))
  {
    j := 0;
    if n == 0 { return; }
    var before, after, event := StateAt(l, events, n - 1), StateAt(l, events, n), events[n - 1];
    j := LevelFloor(l, events, key, n - 1, event.at);
    assert l.credit(event.at) <= l.credit(at);
    if Level(l, before, key, event.at) == l.burst && Requests(events, n - 1, key) {
      j := n - 1;
      assert Total(events, key, j, j) == 0;
    }
  }

  /** The promise of the burst: whoever stays within the allowance in every minute is always served,
      however unevenly the requests arrive and whatever is swept in between. */
  lemma InBudgetIsNeverRefused(p: PerMinute, events: Trace, n: nat)
    requires ClockMonotone(events) && n < |events| && events[n].Request?
    requires WithinBudget(p, events, events[n].key, n)
    ensures Granted(LimitsOf(p), events, n)
  {
    FairLimits(p);
    InBudgetIsGranted(LimitsOf(p), p, events, n);
  }

  lemma InBudgetIsGranted(l: Limits, budget: real, events: Trace, n: nat)
    requires Fair(l) && Covers(l, budget) && ClockMonotone(events) && n < |events| && events[n].Request?
    requires WithinBudget(budget, events, events[n].key, n)
    ensures Granted(l, events, n)
  {
    var key, at := events[n].key, events[n].at;
    LevelAfterTake(l, StateAt(l, events, n), key, at, at);
    var j := LevelFloor(l, events, key, n, at);
    if Level(l, StateAt(l, events, n), key, at) != l.burst {
      BudgetBoundsTotal(l, budget, events, key, j, n);
      assert Total(events, key, j, n + 1) == Total(events, key, j, n) + 1;
    }
  }
}

/** The two rate limiters as mutable objects, and the Retry-After header
    (internal/api/ratelimit.go, internal/api/redis_limiter.go). */
module RateLimit {
  import opened Prelude
  import opened TokenBucket
  import BucketExpiry

  datatype Tenant = Tenant(id: string, keyID: string, rpm: int)

  /** `retryAfter` is in nanoseconds. */
  datatype LimitResult = LimitResult(allowed: bool, limit: int, remaining: int, retryAfter: int)

  function KeyOf(t: Tenant): string { if t.keyID == "" then t.id else t.keyID }

  /** A per-key override replaces both rate and capacity. */
  function RPM(defaultRPM: int, t: Tenant): int { if t.rpm > 0 then t.rpm else defaultRPM }

  function Capacity(burst: int, t: Tenant): int { if t.rpm > 0 then t.rpm else burst }

  // ---------------------------------------------------------------- in memory

  /** What the in-memory limiter makes of a bucket: it refills only if time has passed. */
  function LocalRefill(p: Params, b: Option<Bucket>, now: int): Bucket {
    var c := if b.Some? then b.value else Bucket(p.cap as real, now);
    if now > c.last then Bucket(Min(p.cap as real, c.tokens + (now - c.last) as real * p.rate), now) else c
  }

  function LocalTake(p: Params, b: Option<Bucket>, now: int): Bucket {
    var r := LocalRefill(p, b, now);
    if r.tokens < 1.0 then r else r.(tokens := r.tokens - 1.0)
  }

  /** What it answers, the wait truncated to whole nanoseconds. */
  function LocalReply(p: Params, rpm: int, b: Option<Bucket>, now: int): LimitResult
    requires p.rate > 0.0
  {
    var r := LocalRefill(p, b, now);
    if r.tokens < 1.0 then LimitResult(false, rpm, 0, ((1.0 - r.tokens) / p.rate).Floor)
    else LimitResult(true, rpm, (r.tokens - 1.0).Floor, 0)
  }

  /** With a clock that does not go back these are the bucket and decision of `TokenBucket`. */
  lemma LocalIsTokenBucket(p: Params, rpm: int, b: Option<Bucket>, now: int)
    requires Usable(p) && FitsAny(p, b) && (b.Some? ==> b.value.last <= now)
    ensures LocalTake(p, b, now) == Take(p, b, now)
    ensures var r := LocalReply(p, rpm, b, now);
            && r.allowed == Admits(p, b, now)
            && r.remaining == (if r.allowed then Take(p, b, now).tokens.Floor else 0)
            && r.retryAfter == if r.allowed then 0 else Wait(p, b, now).Floor
  {
    assert LocalRefill(p, b, now).tokens == Level(p, b, now);
  }

  /** Ticks of the in-memory limiter are nanoseconds. */
  function LocalParams(defaultRPM: int, burst: int, t: Tenant): Params {
    Params(Capacity(burst, t), RPM(defaultRPM, t) as real / 60.0 / SECOND as real)
  }

  /** What one key is answered at each of the times. */
  function LocalAnswers(p: Params, rpm: int, b: Option<Bucket>, times: seq<int>): (r: seq<bool>)
    requires p.rate > 0.0
    ensures |r| == |times|
    decreases |times|
  {
    if times == [] then []
    else [LocalReply(p, rpm, b, times[0]).allowed] + LocalAnswers(p, rpm, Some(LocalTake(p, b, times[0])), times[1..])
  }

  lemma {:induction false} LocalAnswersAreDecisions(p: Params, rpm: int, b: Option<Bucket>, times: seq<int>)
    requires Usable(p) && FitsAny(p, b) && Monotone(times) && Starts(b, times)
    ensures LocalAnswers(p, rpm, b, times) == Decisions(p, b, times)
    decreases |times|
  {
    if times != [] {
      LocalIsTokenBucket(p, rpm, b, times[0]);
      TakeFits(p, b, times[0]);
      LocalAnswersAreDecisions(p, rpm, Some(Take(p, b, times[0])), times[1..]);
    }
  }

  /** The limit of a tenant: requests per minute, and how many at once. A key's own limit is both. */
  ghost predicate Limits(defaultRPM: int, configuredBurst: int, t: Tenant, r: int, c: int) {
    && r == (if t.rpm > 0 then t.rpm else defaultRPM)
    && c == (if t.rpm > 0 then t.rpm else if configuredBurst > 0 then configuredBurst else defaultRPM)
  }

  lemma LocalParamsAre(defaultRPM: int, configured: int, t: Tenant, r: int, c: int)
    requires Limits(defaultRPM, configured, t, r, c) && r > 0
    ensures var p := LocalParams(defaultRPM, if configured <= 0 then defaultRPM else configured, t);
            Usable(p) && p.cap == c && p.rate * 60_000_000_000 as real == r as real
  {}

  /** `gain` is what a rate of `r` in `unit` refills in `d`. */
  lemma InUnits(rate: real, unit: int, r: int, d: int, gain: real)
    requires rate * unit as real == r as real && gain == d as real * rate
    ensures gain * unit as real == (d * r) as real
  {
    assert d as real * rate * unit as real == d as real * (rate * unit as real);
    assert d as real * r as real == (d * r) as real;
  }

  lemma BoundInUnits(n: int, c: int, gain: real, unit: int, dr: int)
    requires unit > 0 && n as real <= c as real + gain && gain * unit as real == dr as real
    ensures n * unit <= c * unit + dr
  {
    Gains(n as real, c as real + gain, unit as real);
    Distributes(c as real, gain, unit as real);
    assert (n * unit) as real == n as real * unit as real && (c * unit) as real == c as real * unit as real;
  }

  lemma StretchLasts(p: Params, times: seq<int>, i: nat, j: nat)
    requires Monotone(times) && i < j <= |times|
    ensures Gain(p, times[i], times[j - 1]) == (times[j - 1] - times[i]) as real * p.rate
  {}

  /** The bound on a stretch, for a rate of `r` in `unit` ticks. */
  lemma WindowInUnits(p: Params, unit: int, r: int, times: seq<int>, i: nat, j: nat)
    requires Usable(p) && unit > 0 && p.rate * unit as real == r as real && Monotone(times) && i < j <= |times|
    ensures Admitted(Decisions(p, None, times)[i..j]) * unit <= p.cap * unit + r * (times[j - 1] - times[i])
  {
    hide *;
    WindowBound(p, times, i, j);
    StretchLasts(p, times, i, j);
    var n, d, gain := Admitted(Decisions(p, None, times)[i..j]), times[j - 1] - times[i], Gain(p, times[i], times[j - 1]);
    InUnits(p.rate, unit, r, d, gain);
    BoundInUnits(n, p.cap, gain, unit, d * r);
  }

  /** An empty bucket has a token again once `d` of `r` tokens in `unit` ticks is one. */
  lemma EmptyFor(p: Params, unit: int, r: int, last: int, d: nat)
    requires Usable(p) && unit > 0 && p.rate * unit as real == r as real
    ensures Admits(p, Some(Bucket(0.0, last)), last + d) <==> d * r >= unit
  {
    GainIs(p, last, d);
    hide *;
    var gain := Gain(p, last, last + d);
    InUnits(p.rate, unit, r, d, gain);
    Gains(1.0, gain, unit as real);
    if gain < 1.0 { Strict(gain, 1.0, unit as real); }
  }

  lemma GainIs(p: Params, last: int, d: nat)
    requires p.cap >= 1
    ensures Gain(p, last, last + d) == d as real * p.rate
    ensures Admits(p, Some(Bucket(0.0, last)), last + d) <==> Gain(p, last, last + d) >= 1.0
  {}

  /** In every run of one key, a stretch of D nanoseconds admits at most c requests, and r a minute
      on top. */
  lemma LocalAdmitsAtMost(
      defaultRPM: int, configured: int, t: Tenant, r: int, c: int, times: seq<int>, i: nat, j: nat)
    requires Limits(defaultRPM, configured, t, r, c) && r > 0 && Monotone(times) && i < j <= |times|
    ensures var p := LocalParams(defaultRPM, if configured <= 0 then defaultRPM else configured, t);
            && p.rate > 0.0
            && Admitted(LocalAnswers(p, r, None, times)[i..j]) * 60_000_000_000
               <= c * 60_000_000_000 + r * (times[j - 1] - times[i])
  {
    hide LocalParams, LocalAnswers, Decisions, Limits, Admitted;
    var p := LocalParams(defaultRPM, if configured <= 0 then defaultRPM else configured, t);
    LocalParamsAre(defaultRPM, configured, t, r, c);
    LocalAnswersAreDecisions(p, r, None, times);
    WindowInUnits(p, 60_000_000_000, r, times, i, j);
  }

  /** Of any number of requests at one moment an unused key is admitted exactly c. */
  lemma LocalAdmitsBurst(defaultRPM: int, configured: int, t: Tenant, r: int, c: int, now: int, n: nat)
    requires Limits(defaultRPM, configured, t, r, c) && r > 0
    ensures var p := LocalParams(defaultRPM, if configured <= 0 then defaultRPM else configured, t);
            p.rate > 0.0 && Admitted(LocalAnswers(p, r, None, Repeat(now, n))) == if n < c then n else c
  {
    var p := LocalParams(defaultRPM, if configured <= 0 then defaultRPM else configured, t);
    LocalParamsAre(defaultRPM, configured, t, r, c);
    LocalAnswersAreDecisions(p, r, None, Repeat(now, n));
    FreshKeyAdmitsCapacity(p, now, n);
  }

  /** An empty bucket admits its next request exactly when a minute's r-th part has passed. */
  lemma LocalRefillTime(defaultRPM: int, configured: int, t: Tenant, r: int, c: int, last: int, d: nat)
    requires Limits(defaultRPM, configured, t, r, c) && r > 0
    ensures var p := LocalParams(defaultRPM, if configured <= 0 then defaultRPM else configured, t);
            p.rate > 0.0 && (LocalReply(p, r, Some(Bucket(0.0, last)), last + d).allowed <==> d * r >= 60_000_000_000)
  {
    var p := LocalParams(defaultRPM, if configured <= 0 then defaultRPM else configured, t);
    LocalParamsAre(defaultRPM, configured, t, r, c);
    EmptyFor(p, 60_000_000_000, r, last, d);
    hide LocalParams, LocalReply, Admits, Level;
    LocalIsTokenBucket(p, r, Some(Bucket(0.0, last)), last + d);
  }

  class BucketCell {
    var tokens: real
    var last: int

    constructor (tokens: real, last: int)
      ensures View() == Bucket(tokens, last)
    {
      this.tokens, this.last := tokens, last;
    }

    ghost function View(): Bucket
      reads this
    {
      Bucket(tokens, last)
    }
  }

  /** The refill, check and decrement that the limiter does under its lock. */
  method TakeFrom(b: BucketCell, p: Params, rpm: int, now: int) returns (r: LimitResult)
    requires p.rate > 0.0
    modifies b
    ensures b.View() == LocalTake(p, Some(old(b.View())), now)
    ensures r == LocalReply(p, rpm, Some(old(b.View())), now)
  {
    if now > b.last {
      b.tokens := Min(p.cap as real, b.tokens + (now - b.last) as real * p.rate);
      b.last := now;
    }
    if b.tokens < 1.0 {
      return LimitResult(false, rpm, 0, ((1.0 - b.tokens) / p.rate).Floor);
    }
    b.tokens := b.tokens - 1.0;
    r := LimitResult(true, rpm, b.tokens.Floor, 0);
  }

  class LocalLimiter {
    const defaultRPM: int
    const burst: int
    var buckets: map<string, BucketCell>

    constructor (defaultRPM: int, burst: int)
      ensures Valid() && buckets == map[] && this.defaultRPM == defaultRPM
      ensures this.burst == if burst <= 0 then defaultRPM else burst
    {
      this.defaultRPM := defaultRPM;
      this.burst := if burst <= 0 then defaultRPM else burst;
      buckets := map[];
    }

    /** No two keys share a bucket. */
    ghost predicate Valid()
      reads this
    {
      forall k, l :: k in buckets && l in buckets && k != l ==> buckets[k] != buckets[l]
    }

    ghost function BucketOf(k: string): Option<Bucket>
      reads this, buckets.Values
    {
      if k in buckets then Some(buckets[k].View()) else None
    }

    method Allow(t: Tenant, now: int) returns (r: LimitResult)
      requires Valid()
      modifies this, buckets.Values
      ensures Valid() && fresh(buckets.Values - old(buckets.Values))
      ensures var key := if t.keyID != "" then t.keyID else t.id;
              var rpm := if t.rpm > 0 then t.rpm else defaultRPM;
              && (forall k :: k != key ==> BucketOf(k) == old(BucketOf(k)))
              && (rpm <= 0 ==> r == LimitResult(true, 0, 0, 0) && BucketOf(key) == old(BucketOf(key)))
              && (rpm > 0 ==>
                    var p, was := LocalParams(defaultRPM, burst, t), old(BucketOf(key));
                    && BucketOf(key) == Some(LocalTake(p, was, now))
                    && p.rate > 0.0 && r == LocalReply(p, rpm, was, now) && r.limit == rpm)
    {
      var rpm := RPM(defaultRPM, t);
      if rpm <= 0 {
        return LimitResult(true, 0, 0, 0);
      }
      var p := LocalParams(defaultRPM, burst, t);
      var key := KeyOf(t);
      var b: BucketCell;
      if key in buckets {
        b := buckets[key];
      } else {
        b := new BucketCell(p.cap as real, now);
        buckets := buckets[key := b];
      }
      r := TakeFrom(b, p, rpm, now);
    }
  }

  // ---------------------------------------------------------------- in Redis

  class RedisLimiter {
    const defaultRPM: int
    const burst: int
    var keys: map<string, BucketExpiry.Stored>

    constructor (defaultRPM: int, burst: int)
      ensures keys == map[] && this.defaultRPM == defaultRPM
      ensures this.burst == if burst <= 0 then defaultRPM else burst
    {
      this.defaultRPM := defaultRPM;
      this.burst := if burst <= 0 then defaultRPM else burst;
      keys := map[];
    }

    ghost function StoredOf(k: string): Option<BucketExpiry.Stored>
      reads this
    {
      if k in keys then Some(keys[k]) else None
    }

    /** The Lua script, one atomic transition; `now` is in milliseconds. It answers whether the
        request is admitted, the whole tokens left, and the milliseconds to wait. */
    method Run(key: string, rate: real, capacity: int, now: int, ttl: int)
      returns (allowed: bool, remaining: int, retryMS: int)
      requires rate > 0.0
      modifies this
      ensures var p, was := Params(capacity, rate), old(StoredOf(key));
              var live := BucketExpiry.Live(was, now);
              && StoredOf(key) == BucketExpiry.Serve(p, ttl, was, now)
              && allowed == Admits(p, live, now)
              && remaining == Take(p, live, now).tokens.Floor
              && retryMS == if allowed then 0 else Ceil(Wait(p, live, now))
      ensures forall k :: k != key ==> StoredOf(k) == old(StoredOf(k))
    {
      ghost var live := BucketExpiry.Live(StoredOf(key), now);
      var tokens, last := capacity as real, now;
      if key in keys && now < keys[key].deadline {
        tokens, last := keys[key].bucket.tokens, keys[key].bucket.last;
      }
      var elapsed := if now - last > 0 then (now - last) as real else 0.0;
      assert elapsed == Ticks(last, now) && elapsed * rate == Gain(Params(capacity, rate), last, now);
      tokens := Min(capacity as real, tokens + elapsed * rate);
      ghost var level := Level(Params(capacity, rate), live, now);
      assert tokens == level;
      allowed, retryMS := false, 0;
      if tokens >= 1.0 {
        tokens := tokens - 1.0;
        allowed := true;
      } else {
        retryMS := Ceil((1.0 - tokens) / rate);
      }
      keys := keys[key := BucketExpiry.Stored(Bucket(tokens, now), now + ttl)];
      remaining := tokens.Floor;
    }

    method Allow(t: Tenant, now: int) returns (r: LimitResult)
      modifies this
      ensures var key := if t.keyID != "" then t.keyID else t.id;
              forall k :: k != key ==> StoredOf(k) == old(StoredOf(k))
      ensures (if t.rpm > 0 then t.rpm else defaultRPM) <= 0 ==> r == LimitResult(true, 0, 0, 0) && keys == old(keys)
      ensures var key := if t.keyID != "" then t.keyID else t.id;
              var rpm, cap := if t.rpm > 0 then t.rpm else defaultRPM, if t.rpm > 0 then t.rpm else burst;
              rpm > 0 ==>
                var p, was := BucketExpiry.Passed(cap, rpm), old(StoredOf(key));
                var live := BucketExpiry.Live(was, now);
                && StoredOf(key) == BucketExpiry.Serve(p, BucketExpiry.ComputedTTL(cap, rpm), was, now)
                && p.rate > 0.0 && r.limit == rpm
                && r.allowed == Admits(p, live, now)
                && r.remaining == Take(p, live, now).tokens.Floor
                && r.retryAfter == if r.allowed then 0 else Ceil(Wait(p, live, now)) * MS
    {
      var rpm, capacity := RPM(defaultRPM, t), Capacity(burst, t);
      if rpm <= 0 {
        return LimitResult(true, 0, 0, 0);
      }
      BucketExpiry.RoundingOfRate(rpm);
      var ttl := BucketExpiry.ComputedTTL(capacity, rpm);
      var p := BucketExpiry.Passed(capacity, rpm);
      var allowed, remaining, retryMS := Run(KeyOf(t), p.rate, p.cap, now, ttl);
      r := LimitResult(allowed, rpm, remaining, retryMS * MS);
    }
  }

  lemma PassedIs(cap: int, rpm: int)
    requires cap >= 1 && rpm >= 1
    ensures var p := BucketExpiry.Passed(cap, rpm);
            Usable(p) && p.cap == cap && p.rate * 1_000_000_000 as real == BucketExpiry.Millionths(rpm) as real
  {
    BucketExpiry.RoundingOfRate(rpm);
  }

  lemma StretchOrdered(times: seq<int>, i: nat, j: nat)
    requires Monotone(times) && i < j <= |times|
    ensures times[i] <= times[j - 1]
  {}

  lemma RoundingBound(n: int, cap: int, m: int, rpm: int, d: int)
    requires d >= 0 && 60 * m <= 1_000_000 * rpm + 30 && n * 1_000_000_000 <= cap * 1_000_000_000 + m * d
    ensures n * 60_000_000_000 <= cap * 60_000_000_000 + (1_000_000 * rpm + 30) * d
  {
    if d > 0 { BucketExpiry.Scale(1_000_000 * rpm + 30, 60 * m, d); }
    assert (60 * m) * d == 60 * (m * d);
  }

  /** The same laws of the Redis limiter, in milliseconds, with the rate in millionths and while
      expiry goes unnoticed: a stretch of D milliseconds admits at most c requests and r a minute on
      top, within the rounding of the rate. */
  lemma RedisAdmitsAtMost(cap: int, rpm: int, times: seq<int>, i: nat, j: nat)
    requires cap >= 1 && rpm >= 1 && Monotone(times) && i < j <= |times|
    requires BucketExpiry.ExpiryInvisible(BucketExpiry.Passed(cap, rpm), BucketExpiry.ComputedTTL(cap, rpm))
    ensures var p, ttl := BucketExpiry.Passed(cap, rpm), BucketExpiry.ComputedTTL(cap, rpm);
            Admitted(BucketExpiry.Answers(p, ttl, None, times)[i..j]) * 60_000_000_000
            <= cap * 60_000_000_000 + (1_000_000 * rpm + 30) * (times[j - 1] - times[i])
  {
    hide *;
    var p, m := BucketExpiry.Passed(cap, rpm), BucketExpiry.Millionths(rpm);
    BucketExpiry.RateIsNearest(rpm);
    PassedIs(cap, rpm);
    StretchOrdered(times, i, j);
    BucketExpiry.Unnoticed(p, BucketExpiry.ComputedTTL(cap, rpm), times);
    WindowInUnits(p, 1_000_000_000, m, times, i, j);
    RoundingBound(Admitted(Decisions(p, None, times)[i..j]), cap, m, rpm, times[j - 1] - times[i]);
  }

  /** Of any number of requests at one moment an unused key is admitted exactly c. */
  lemma RedisAdmitsBurst(cap: int, rpm: int, now: int, n: nat)
    requires cap >= 1 && rpm >= 1
    requires BucketExpiry.ExpiryInvisible(BucketExpiry.Passed(cap, rpm), BucketExpiry.ComputedTTL(cap, rpm))
    ensures var p, ttl := BucketExpiry.Passed(cap, rpm), BucketExpiry.ComputedTTL(cap, rpm);
            Admitted(BucketExpiry.Answers(p, ttl, None, Repeat(now, n))) == if n < cap then n else cap
  {
    BucketExpiry.RoundingOfRate(rpm);
    FreshKeyAdmitsCapacity(BucketExpiry.Passed(cap, rpm), now, n);
    assert Monotone(Repeat(now, n));
  }

  /** An empty bucket admits its next request after a minute's r-th part, within that rounding. */
  lemma RedisRefillTime(cap: int, rpm: int, last: int, d: nat)
    requires cap >= 1 && rpm >= 1
    ensures var p, b := BucketExpiry.Passed(cap, rpm), Some(Bucket(0.0, last));
            && (d * (1_000_000 * rpm - 30) >= 60_000_000_000 ==> Admits(p, b, last + d))
            && (d * (1_000_000 * rpm + 30) < 60_000_000_000 ==> !Admits(p, b, last + d))
  {
    var p, m := BucketExpiry.Passed(cap, rpm), BucketExpiry.Millionths(rpm);
    BucketExpiry.RateIsNearest(rpm);
    BucketExpiry.RoundingOfRate(rpm);
    assert p.rate * 1_000_000_000 as real == m as real;
    hide BucketExpiry.Passed, BucketExpiry.Millionths, Admits;
    EmptyFor(p, 1_000_000_000, m, last, d);
    if d > 0 {
      BucketExpiry.Scale(60 * m, 1_000_000 * rpm - 30, d);
      BucketExpiry.Scale(1_000_000 * rpm + 30, 60 * m, d);
    }
    assert (60 * m) * d == 60 * (d * m);
  }

  // ---------------------------------------------------------------- the Retry-After header

  /** The header's whole seconds, if the header is written at all. */
  function RetryAfterHeader(r: LimitResult): Option<int> {
    if r.allowed || r.retryAfter <= 0 then None
    else
      var secs := r.retryAfter / SECOND;
      var up := if r.retryAfter % SECOND != 0 then secs + 1 else secs;
      Some(if up > 1 then up else 1)
  }

  /** It is written for a denied request with a wait, and is the least whole number of seconds that
      covers the wait. */
  lemma HeaderIsLeast(r: LimitResult)
    ensures var h := RetryAfterHeader(r);
            && (h.Some? <==> !r.allowed && r.retryAfter > 0)
            && (h.Some? ==> h.value >= 1 && (h.value - 1) * 1_000_000_000 < r.retryAfter <= h.value * 1_000_000_000)
  {}

  /** A client of the Redis limiter that waits as the header says is admitted, absent other
      requests, and a whole second earlier it is not. */
  lemma RedisHeaderIsExact(p: Params, b: Option<Bucket>, now: int, r: LimitResult)
    requires Usable(p) && FitsAny(p, b) && (b.Some? ==> b.value.last <= now) && !Admits(p, b, now)
    requires !r.allowed && r.retryAfter == Ceil(Wait(p, b, now)) * MS
    ensures var h := RetryAfterHeader(r);
            && h.Some? && h.value >= 1
            && Admits(p, Some(Take(p, b, now)), now + h.value * 1000)
            && !Admits(p, Some(Take(p, b, now)), now + (h.value - 1) * 1000)
  {
    RoundedUpIsLeast(p, b, now, 0);
    HeaderIsLeast(r);
    var h := RetryAfterHeader(r).value;
    RoundedUpIsLeast(p, b, now, h * 1000);
    RoundedUpIsLeast(p, b, now, (h - 1) * 1000);
  }

  /** A client of the in-memory limiter that waits as the header says is admitted except when the
      truncated wait is a whole number of seconds and the true wait is not. */
  lemma LocalHeaderIsExactUnlessTruncated(p: Params, b: Option<Bucket>, now: int, r: LimitResult)
    requires Usable(p) && FitsAny(p, b) && (b.Some? ==> b.value.last <= now) && !Admits(p, b, now)
    requires !r.allowed && r.retryAfter == Wait(p, b, now).Floor && r.retryAfter > 0
    ensures var h, w := RetryAfterHeader(r), Wait(p, b, now);
            && h.Some?
            && (Admits(p, Some(Take(p, b, now)), now + h.value * SECOND)
                <==> w.Floor % SECOND != 0 || w.Floor as real == w)
  {
    HeaderIsLeast(r);
    var h := RetryAfterHeader(r).value;
    RoundedUpIsLeast(p, b, now, h * SECOND);
  }

  lemma {:induction false} BurstEmpties(p: Params, n: nat)
    requires Usable(p) && n <= p.cap
    ensures After(p, Some(Bucket(n as real, 0)), Repeat(0, n)) == Some(Bucket(0.0, 0))
  {
    if n > 0 {
      assert Gain(p, 0, 0) == 0.0;
      assert Take(p, Some(Bucket(n as real, 0)), 0) == Bucket((n - 1) as real, 0);
      assert Repeat(0, n)[1..] == Repeat(0, n - 1);
      BurstEmpties(p, n - 1);
    }
  }

  /** It happens: 7 requests a minute, all spent at 0, and one more 7571428571 ns later. */
  lemma {:induction false} LocalHeaderCanBeEarly()
    ensures var p, now := Params(7, 7.0 / 60.0 / SECOND as real), 7_571_428_571;
            var b := After(p, None, Repeat(0, 7));
            && b == Some(Bucket(0.0, 0)) && !Admits(p, b, now) && Wait(p, b, now).Floor == SECOND
            && !Admits(p, Some(Take(p, b, now)), now + SECOND)
  {
    var p, now := Params(7, 7.0 / 60.0 / SECOND as real), 7_571_428_571;
    var b := Some(Bucket(0.0, 0));
    assert After(p, None, Repeat(0, 7)) == b by {
      assert Repeat(0, 7)[1..] == Repeat(0, 6);
      assert Take(p, None, 0) == Bucket(6.0, 0);
      BurstEmpties(p, 6);
    }
    assert Level(p, b, now) == 7_571_428_571.0 * p.rate;
    assert Wait(p, b, now) == 60_000_000_000.0 / 7.0 - 7_571_428_571.0;
    RoundedUpIsLeast(p, b, now, SECOND);
  }
}

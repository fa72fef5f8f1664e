/** Dropping idle buckets after a time to live (internal/api/redis_limiter.go). Ticks are milliseconds. */
module BucketExpiry {
  import opened Prelude
  import opened TokenBucket
  import Backoff

  /** The hash and the moment at which Redis drops it. */
  datatype Stored = Stored(bucket: Bucket, deadline: int)

  function Live(s: Option<Stored>, now: int): Option<Bucket> {
    if s.Some? && now < s.value.deadline then Some(s.value.bucket) else None
  }

  /** One run of the script: it rewrites the hash and its expiry, admitted or not. */
  function Serve(p: Params, ttl: int, s: Option<Stored>, now: int): Option<Stored> {
    Some(Stored(Take(p, Live(s, now), now), now + ttl))
  }

  function Answers(p: Params, ttl: int, s: Option<Stored>, times: seq<int>): (r: seq<bool>)
    ensures |r| == |times|
    decreases |times|
  {
    if times == [] then []
    else [Admits(p, Live(s, times[0]), times[0])] + Answers(p, ttl, Serve(p, ttl, s, times[0]), times[1..])
  }

  function Served(p: Params, ttl: int, s: Option<Stored>, times: seq<int>): Option<Stored>
    decreases |times|
  {
    if times == [] then s else Served(p, ttl, Serve(p, ttl, s, times[0]), times[1..])
  }

  lemma {:induction false} AnswersSplit(p: Params, ttl: int, s: Option<Stored>, xs: seq<int>, ys: seq<int>)
    ensures Answers(p, ttl, s, xs + ys) == Answers(p, ttl, s, xs) + Answers(p, ttl, Served(p, ttl, s, xs), ys)
    decreases |xs|
  {
    if xs == [] {
      assert xs + ys == ys;
    } else {
      assert (xs + ys)[1..] == xs[1..] + ys;
      AnswersSplit(p, ttl, Serve(p, ttl, s, xs[0]), xs[1..], ys);
    }
  }

  /** A bucket left alone for the time to live is full again. */
  ghost predicate Covers(p: Params, ttl: int) { ttl as real * p.rate >= p.cap as real }

  ghost predicate ExpiryInvisible(p: Params, ttl: int) {
    forall times | Monotone(times) :: Answers(p, ttl, None, times) == Decisions(p, None, times)
  }

  lemma Unnoticed(p: Params, ttl: int, times: seq<int>)
    requires ExpiryInvisible(p, ttl) && Monotone(times)
    ensures Answers(p, ttl, None, times) == Decisions(p, None, times)
  {}

  lemma FullAgain(p: Params, ttl: int, b: Bucket, now: int)
    requires Usable(p) && Fits(p, b) && Covers(p, ttl) && now >= b.last + ttl && ttl >= 0
    ensures Level(p, Some(b), now) == p.cap as real
  {
    assert Ticks(b.last, b.last + ttl) == ttl as real;
    GainAdds(p, b.last, b.last + ttl, now);
    GainAdds(p, b.last + ttl, now, now);
  }

  lemma CoveringIsPositive(p: Params, ttl: int)
    requires Usable(p) && Covers(p, ttl)
    ensures ttl > 0
  {
    Gains(ttl as real, 0.0, p.rate);
  }

  lemma {:induction false} ExpiryUnnoticed(p: Params, ttl: int, s: Option<Stored>, times: seq<int>)
    requires Usable(p) && Covers(p, ttl)
    requires s.Some? ==> Fits(p, s.value.bucket) && s.value.deadline == s.value.bucket.last + ttl
    ensures Answers(p, ttl, s, times) == Decisions(p, if s.Some? then Some(s.value.bucket) else None, times)
    decreases |times|
  {
    if times != [] {
      var b, now := if s.Some? then Some(s.value.bucket) else None, times[0];
      CoveringIsPositive(p, ttl);
      if s.Some? && now >= s.value.deadline { FullAgain(p, ttl, s.value.bucket, now); }
      assert Level(p, Live(s, now), now) == Level(p, b, now);
      TakeFits(p, b, now);
      ExpiryUnnoticed(p, ttl, Serve(p, ttl, s, now), times[1..]);
    }
  }

  lemma {:induction false} BurstAdmitted(p: Params, ttl: int, s: Option<Stored>, now: int, n: nat)
    requires Usable(p) && n <= p.cap && Level(p, Live(s, now), now) >= n as real
    ensures Answers(p, ttl, s, Repeat(now, n)) == Repeat(true, n)
    ensures n > 0 ==> Served(p, ttl, s, Repeat(now, n)).Some? && Served(p, ttl, s, Repeat(now, n)).value.deadline == now + ttl
    decreases n
  {
    if n > 0 {
      assert Repeat(now, n)[1..] == Repeat(now, n - 1);
      var s' := Serve(p, ttl, s, now);
      assert Level(p, Live(s, now), now) <= p.cap as real;
      if now < now + ttl {
        assert Level(p, Live(s', now), now) == Level(p, Live(s, now), now) - 1.0;
      }
      BurstAdmitted(p, ttl, s', now, n - 1);
    }
  }

  lemma TruesAdmit(n: nat)
    ensures Admitted(Repeat(true, n)) == n
  {
    if n > 0 {
      assert Repeat(true, n)[1..] == Repeat(true, n - 1);
      TruesAdmit(n - 1);
    }
  }

  /** Two full bursts, the second when the first one's bucket is dropped. */
  lemma DroppingRefills(p: Params, ttl: int)
    requires Usable(p) && ExpiryInvisible(p, ttl)
    ensures Covers(p, ttl)
  {
    var t := if ttl > 0 then ttl else 0;
    var first, second := Repeat(0, p.cap), Repeat(t, p.cap);
    var times := first + second;
    assert Monotone(times);
    BurstAdmitted(p, ttl, None, 0, p.cap);
    var s := Served(p, ttl, None, first);
    assert Live(s, t) == None;
    BurstAdmitted(p, ttl, s, t, p.cap);
    AnswersSplit(p, ttl, None, first, second);
    assert Decisions(p, None, times) == Repeat(true, p.cap) + Repeat(true, p.cap);
    AdmittedAppend(Repeat(true, p.cap), Repeat(true, p.cap));
    TruesAdmit(p.cap);
    WindowFrom(p, None, times);
    GainReaches(p, ttl, t);
  }

  lemma GainReaches(p: Params, ttl: int, t: int)
    requires Usable(p) && t == (if ttl > 0 then ttl else 0) && Gain(p, 0, t) >= p.cap as real
    ensures Covers(p, ttl)
  {
    assert Ticks(0, t) == t as real;
  }

  /** A store that drops a bucket after `ttl` idle milliseconds makes the decisions of one that
      never drops any, in every run, exactly when the time to live covers a full refill. */
  lemma ExpiryInvisibleIffCovered(p: Params, ttl: int)
    requires Usable(p)
    ensures ExpiryInvisible(p, ttl) <==> Covers(p, ttl)
  {
    if Covers(p, ttl) {
      forall times | Monotone(times)
        ensures Answers(p, ttl, None, times) == Decisions(p, None, times)
      {
        ExpiryUnnoticed(p, ttl, None, times);
      }
    }
    if ExpiryInvisible(p, ttl) { DroppingRefills(p, ttl); }
  }

  // ---------------------------------------------------------------- the numbers Allow passes

  const MINUTE := 60_000_000_000

  /** The time to live in milliseconds, with the int64 arithmetic of time.Duration. */
  function ComputedTTL(cap: int, rpm: int): int
    requires rpm > 0
  {
    Quo(Backoff.Wrap64(Quo(Backoff.Wrap64(cap * MINUTE), rpm) + MINUTE), MS)
  }

  /** rpm / 60 rendered with six decimals, in millionths per second. The sixth decimal never
      falls on a tie. */
  function Millionths(rpm: int): int { (rpm * 100_000 + 3) / 6 }

  /** The parameters the script runs with: a rate per millisecond. */
  function Passed(cap: int, rpm: int): Params { Params(cap, Millionths(rpm) as real / 1_000_000_000.0) }

  /** The same with the rate unrounded. */
  function Exact(cap: int, rpm: int): Params { Params(cap, rpm as real / 60_000.0) }

  ghost predicate NoOverflow(cap: int) { cap * MINUTE + MINUTE < Backoff.TWO63 }

  lemma QuotientBound(n: int, d: int)
    requires n >= 0 && d > 0
    ensures 0 <= n / d <= n && n / d * d <= n < n / d * d + d
  {
    var q := n / d;
    assert q * d + n % d == n;
    assert q >= 0;
    Scale(d, 1, if q >= 1 then q else 1);
    assert q >= 1 ==> d * q >= q;
  }

  /** Without overflow the rounding loses less than a millisecond and a nanosecond. */
  lemma TTLAtLeast(cap: int, rpm: int) returns (t: int, n: int)
    requires cap >= 1 && rpm >= 1 && NoOverflow(cap)
    ensures ComputedTTL(cap, rpm) == t && t > 0
    ensures t * MS > n + MINUTE - MS && n * rpm > cap * MINUTE - rpm
  {
    n := cap * MINUTE / rpm;
    QuotientBound(cap * MINUTE, rpm);
    t := (n + MINUTE) / MS;
    Unwrapped(cap * MINUTE);
    Unwrapped(n + MINUTE);
    hide Backoff.Wrap64;
  }

  lemma Unwrapped(x: int)
    requires 0 <= x < Backoff.TWO63
    ensures Backoff.Wrap64(x) == x
  {}

  lemma Spread(t: int, n: int, rpm: int)
    ensures (n + MINUTE - MS) * rpm == n * rpm + (MINUTE - MS) * rpm
    ensures (t * MS) * rpm == (t * rpm) * MS
  {}

  lemma TTLInRefills(cap: int, rpm: int)
    requires cap >= 1 && rpm >= 1 && NoOverflow(cap)
    ensures ComputedTTL(cap, rpm) > 0
    ensures ComputedTTL(cap, rpm) * rpm >= cap * 60_000 + rpm * 59_990
  {
    var t, n := TTLAtLeast(cap, rpm);
    hide ComputedTTL;
    Scale(t * MS, n + MINUTE - MS, rpm);
    Spread(t, n, rpm);
  }

  lemma Scale(x: int, y: int, r: int)
    requires r >= 1 && x >= y
    ensures x * r >= y * r
  {}

  lemma CoversInIntegers(cap: int, ttl: int, num: int, den: int)
    requires den > 0
    ensures Covers(Params(cap, num as real / den as real), ttl) <==> ttl * num >= cap * den
  {
    var r := num as real / den as real;
    assert r * den as real == num as real;
    assert (ttl as real * r) * den as real == ttl as real * num as real;
    assert ttl as real * num as real == (ttl * num) as real;
    assert cap as real * den as real == (cap * den) as real;
    if ttl as real * r < cap as real { Strict(ttl as real * r, cap as real, den as real); }
    if ttl as real * r > cap as real { Strict(cap as real, ttl as real * r, den as real); }
  }

  /** With the rate rpm/60 the computed time to live always covers a full refill. */
  lemma ExactRateIsCovered(cap: int, rpm: int)
    requires cap >= 1 && rpm >= 1 && NoOverflow(cap)
    ensures ExpiryInvisible(Exact(cap, rpm), ComputedTTL(cap, rpm))
  {
    TTLInRefills(cap, rpm);
    CoversInIntegers(cap, ComputedTTL(cap, rpm), rpm, 60_000);
    ExpiryInvisibleIffCovered(Exact(cap, rpm), ComputedTTL(cap, rpm));
  }

  lemma RoundingOfRate(rpm: int)
    requires rpm >= 1
    ensures 6 * Millionths(rpm) >= rpm * 100_000 - 2 && Millionths(rpm) > 0
    ensures rpm % 3 != 2 ==> 6 * Millionths(rpm) >= rpm * 100_000
  {}

  /** 6 * m * ttl * rpm is at least (cap * 60000 + rpm * 59990) * (rpm * 100000 - loss). */
  lemma Expand(cap: int, rpm: int, loss: int)
    ensures (cap * 60_000 + rpm * 59_990) * (rpm * 100_000 - loss)
         == 6_000_000_000 * (cap * rpm) + 5_999_000_000 * (rpm * rpm) - 60_000 * (cap * loss) - 59_990 * (rpm * loss)
  {}

  lemma LossIsSmall(cap: int, rpm: int, loss: int)
    requires rpm >= 1 && cap >= 1 && 0 <= loss <= 2 && (loss == 0 || cap <= 40_000 * (rpm * rpm))
    ensures 5_999_000_000 * (rpm * rpm) >= 60_000 * (cap * loss) + 59_990 * (rpm * loss)
  {
    Scale(rpm, 1, rpm);
    assert cap * loss <= 2 * cap && rpm * loss <= 2 * rpm by { Scale(2, loss, cap); Scale(2, loss, rpm); }
  }

  lemma TimesBoth(a: int, x: int, b: int, y: int)
    requires a >= x >= 1 && b >= y >= 1
    ensures a * b >= x * y
  {
    Scale(a, x, b);
    Scale(b, y, x);
  }

  lemma Product(ttl: int, m: int, cap: int, rpm: int, loss: int)
    requires rpm >= 1 && cap >= 1 && 0 <= loss <= 2
    requires 6 * m >= rpm * 100_000 - loss
    requires ttl * rpm >= cap * 60_000 + rpm * 59_990
    requires loss == 0 || cap <= 40_000 * (rpm * rpm)
    ensures ttl * m >= cap * 1_000_000_000
  {
    TimesBoth(ttl * rpm, cap * 60_000 + rpm * 59_990, 6 * m, rpm * 100_000 - loss);
    Expand(cap, rpm, loss);
    LossIsSmall(cap, rpm, loss);
    Regroup(ttl, rpm, m, cap);
    Cancel(6 * rpm, cap * 1_000_000_000, ttl * m);
  }

  lemma Regroup(ttl: int, rpm: int, m: int, cap: int)
    ensures (ttl * rpm) * (6 * m) == (6 * rpm) * (ttl * m)
    ensures 6_000_000_000 * (cap * rpm) == (6 * rpm) * (cap * 1_000_000_000)
  {}

  lemma Cancel(k: int, a: int, b: int)
    requires k > 0 && k * a <= k * b
    ensures a <= b
  {
    Scale(if a > b then a else b + 1, b + 1, k);
  }

  /** The rate that is sent is the nearest in millionths to the configured one. */
  lemma RateIsNearest(rpm: int)
    ensures -30 <= 60 * Millionths(rpm) - 1_000_000 * rpm <= 30
  {}

  /** The time to live is that of a full refill and a minute more, rounded down. */
  lemma TTLIsRefillAndMinute(cap: int, rpm: int)
    requires cap >= 1 && rpm >= 1 && NoOverflow(cap)
    ensures var ttl := ComputedTTL(cap, rpm);
            cap * 60_000 + rpm * 59_990 <= ttl * rpm <= cap * 60_000 + rpm * 60_000
  {
    TTLInRefills(cap, rpm);
    TTLAtMost(cap, rpm);
  }

  lemma TTLAtMost(cap: int, rpm: int)
    requires cap >= 1 && rpm >= 1 && NoOverflow(cap)
    ensures ComputedTTL(cap, rpm) * rpm <= cap * 60_000 + rpm * 60_000
  {
    var n := cap * MINUTE / rpm;
    QuotientBound(cap * MINUTE, rpm);
    var t := (n + MINUTE) / MS;
    Unwrapped(cap * MINUTE);
    Unwrapped(n + MINUTE);
    hide Backoff.Wrap64;
    assert ComputedTTL(cap, rpm) == t && t * MS <= n + MINUTE;
    hide ComputedTTL;
    Scale(n + MINUTE, t * MS, rpm);
    Distribute(n, MINUTE, rpm);
    Spread(t, n, rpm);
  }

  lemma Distribute(x: int, y: int, r: int)
    ensures (x + y) * r == x * r + y * r
  {}

  /** With the numbers that are passed, and whatever overflows in them, dropping idle buckets goes
      unnoticed exactly when this product of integers is large enough. */
  lemma PassedIsCoveredIff(cap: int, rpm: int)
    requires cap >= 1 && rpm >= 1
    ensures ExpiryInvisible(Passed(cap, rpm), ComputedTTL(cap, rpm))
       <==> ComputedTTL(cap, rpm) * Millionths(rpm) >= cap * 1_000_000_000
  {
    RoundingOfRate(rpm);
    hide ComputedTTL, Millionths, ExpiryInvisible, Covers;
    CoversInIntegers(cap, ComputedTTL(cap, rpm), Millionths(rpm), 1_000_000_000);
    ExpiryInvisibleIffCovered(Passed(cap, rpm), ComputedTTL(cap, rpm));
  }

  /** With the rate rounded to six decimals it still does when the rounding is not downward, which
      is when rpm is not 2 modulo 3, or the burst is not out of all proportion to the rate. */
  lemma SixDecimalRateIsCovered(cap: int, rpm: int)
    requires cap >= 1 && rpm >= 1 && NoOverflow(cap)
    requires rpm % 3 != 2 || cap <= 40_000 * (rpm * rpm)
    ensures ExpiryInvisible(Passed(cap, rpm), ComputedTTL(cap, rpm))
  {
    TTLInRefills(cap, rpm);
    RoundingOfRate(rpm);
    hide ComputedTTL, Millionths, ExpiryInvisible;
    Product(ComputedTTL(cap, rpm), Millionths(rpm), cap, rpm, if rpm % 3 == 2 then 2 else 0);
    PassedIsCoveredIff(cap, rpm);
  }

  /** Otherwise it need not: with 2 requests a minute and a burst of 200000, a bucket is dropped
      before it is full, and some run is decided differently. */
  lemma SixDecimalRateCanFallShort()
    ensures NoOverflow(200_000) && !ExpiryInvisible(Passed(200_000, 2), ComputedTTL(200_000, 2))
  {
    assert ComputedTTL(200_000, 2) == 6_000_060_000;
    assert Millionths(2) == 33_333;
    PassedIsCoveredIff(200_000, 2);
  }

  /** And past int64 the time to live is negative, so that a key is dropped at once. */
  lemma TTLOverflows()
    ensures !NoOverflow(153_722_868) && ComputedTTL(153_722_868, 1) < 0
    ensures !ExpiryInvisible(Passed(153_722_868, 1), ComputedTTL(153_722_868, 1))
  {
    assert ComputedTTL(153_722_868, 1) < 0;
    PassedIsCoveredIff(153_722_868, 1);
  }
}

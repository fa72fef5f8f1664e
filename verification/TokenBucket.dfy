/** The token bucket as values, and what is true of it over whole runs
    (internal/api/ratelimit.go, internal/api/redis_limiter.go). Tokens are reals; a run is the
    sequence of times at which one key asks, and the clock does not go back. */
module TokenBucket {
  import opened Prelude

  /** Capacity in tokens and refill rate in tokens per clock tick. */
  datatype Params = Params(cap: int, rate: real)

  ghost predicate Usable(p: Params) { p.cap >= 1 && p.rate > 0.0 }

  datatype Bucket = Bucket(tokens: real, last: int)

  ghost predicate Fits(p: Params, b: Bucket) { 0.0 <= b.tokens <= p.cap as real }

  function Min(a: real, b: real): real { if a < b then a else b }

  function Ticks(from: int, to: int): real { if to > from then (to - from) as real else 0.0 }

  /** The tokens refilled between two moments. */
  function Gain(p: Params, from: int, to: int): real { Ticks(from, to) * p.rate }

  /** The tokens at `now`, before a request is served. A missing bucket is a full one. */
  function Level(p: Params, b: Option<Bucket>, now: int): real {
    match b
    case None => p.cap as real
    case Some(b) => Min(p.cap as real, b.tokens + Gain(p, b.last, now))
  }

  predicate Admits(p: Params, b: Option<Bucket>, now: int) { Level(p, b, now) >= 1.0 }

  function Take(p: Params, b: Option<Bucket>, now: int): Bucket {
    var t := Level(p, b, now);
    Bucket(if t >= 1.0 then t - 1.0 else t, now)
  }

  function Decisions(p: Params, b: Option<Bucket>, times: seq<int>): (r: seq<bool>)
    ensures |r| == |times|
    decreases |times|
  {
    if times == [] then []
    else [Admits(p, b, times[0])] + Decisions(p, Some(Take(p, b, times[0])), times[1..])
  }

  function After(p: Params, b: Option<Bucket>, times: seq<int>): Option<Bucket>
    decreases |times|
  {
    if times == [] then b else After(p, Some(Take(p, b, times[0])), times[1..])
  }

  function Admitted(ds: seq<bool>): nat {
    if ds == [] then 0 else (if ds[0] then 1 else 0) + Admitted(ds[1..])
  }

  ghost predicate Monotone(times: seq<int>) {
    forall i, j :: 0 <= i < j < |times| ==> times[i] <= times[j]
  }

  ghost predicate Starts(b: Option<Bucket>, times: seq<int>) {
    b.Some? && times != [] ==> b.value.last <= times[0]
  }

  ghost predicate FitsAny(p: Params, b: Option<Bucket>) { b.Some? ==> Fits(p, b.value) }

  // ---------------------------------------------------------------- arithmetic of refilling

  lemma Distributes(x: real, y: real, r: real)
    ensures (x + y) * r == x * r + y * r
  {}

  lemma Gains(x: real, y: real, r: real)
    requires r >= 0.0
    ensures x <= y ==> x * r <= y * r
  {}

  lemma GainAdds(p: Params, a: int, b: int, c: int)
    requires p.rate > 0.0
    ensures Gain(p, a, b) >= 0.0
    ensures a <= b <= c ==> Gain(p, a, b) + Gain(p, b, c) == Gain(p, a, c)
  {
    Gains(0.0, Ticks(a, b), p.rate);
    Distributes(Ticks(a, b), Ticks(b, c), p.rate);
  }

  lemma TakeFits(p: Params, b: Option<Bucket>, now: int)
    requires Usable(p) && FitsAny(p, b)
    ensures Fits(p, Take(p, b, now)) && 0.0 <= Level(p, b, now) <= p.cap as real
  {
    if b.Some? { GainAdds(p, b.value.last, now, now); }
  }

  /** Refilling in two steps is refilling once. */
  lemma LevelLater(p: Params, b: Option<Bucket>, now: int, later: int)
    requires Usable(p) && FitsAny(p, b) && now <= later && (b.Some? ==> b.value.last <= now)
    ensures Level(p, Some(Bucket(Level(p, b, now), now)), later) == Level(p, b, later)
  {
    GainAdds(p, now, later, later);
    if b.Some? { GainAdds(p, b.value.last, now, later); }
  }

  // ---------------------------------------------------------------- how much is admitted

  lemma AdmittedAppend(a: seq<bool>, b: seq<bool>)
    ensures Admitted(a + b) == Admitted(a) + Admitted(b)
  {
    if a == [] {
      assert a + b == b;
    } else {
      assert (a + b)[1..] == a[1..] + b;
      AdmittedAppend(a[1..], b);
    }
  }

  /** Tokens stay between nothing and capacity. */
  lemma {:induction false} TokensStayInRange(p: Params, b: Option<Bucket>, times: seq<int>)
    requires Usable(p) && FitsAny(p, b)
    ensures FitsAny(p, After(p, b, times))
    decreases |times|
  {
    if times != [] {
      TakeFits(p, b, times[0]);
      TokensStayInRange(p, Some(Take(p, b, times[0])), times[1..]);
    }
  }

  function One(b: bool): nat { if b then 1 else 0 }

  /** Every admission spends a token that was there or has been refilled since. */
  lemma {:induction false} AdmissionsAreSpent(p: Params, b: Bucket, times: seq<int>)
    requires Usable(p) && Fits(p, b) && Monotone(times) && Starts(Some(b), times) && times != []
    ensures Admitted(Decisions(p, Some(b), times)) as real
         <= b.tokens + Gain(p, b.last, times[|times| - 1])
    decreases |times|
  {
    var b', n, a := Take(p, Some(b), times[0]), |times| - 1, Admits(p, Some(b), times[0]);
    TakeFits(p, Some(b), times[0]);
    GainAdds(p, b.last, times[0], times[n]);
    GainAdds(p, times[0], times[n], times[n]);
    var rest := Decisions(p, Some(b'), times[1..]);
    assert Decisions(p, Some(b), times) == [a] + rest;
    assert Admitted([a] + rest) == One(a) + Admitted(rest) by { assert ([a] + rest)[1..] == rest; }
    assert b'.tokens + One(a) as real <= b.tokens + Gain(p, b.last, times[0]);
    if n > 0 {
      AdmissionsAreSpent(p, b', times[1..]);
      assert times[1..][n - 1] == times[n];
    } else {
      assert rest == [];
    }
  }

  lemma {:induction false} WindowFrom(p: Params, b: Option<Bucket>, times: seq<int>)
    requires Usable(p) && FitsAny(p, b) && Monotone(times) && Starts(b, times) && times != []
    ensures Admitted(Decisions(p, b, times)) as real
         <= p.cap as real + Gain(p, times[0], times[|times| - 1])
  {
    var full := Bucket(Level(p, b, times[0]), times[0]);
    TakeFits(p, b, times[0]);
    LevelLater(p, b, times[0], times[0]);
    assert Take(p, b, times[0]) == Take(p, Some(full), times[0]);
    assert Decisions(p, b, times) == Decisions(p, Some(full), times);
    AdmissionsAreSpent(p, full, times);
  }

  lemma {:induction false} DecisionsSplit(p: Params, b: Option<Bucket>, xs: seq<int>, ys: seq<int>)
    ensures Decisions(p, b, xs + ys) == Decisions(p, b, xs) + Decisions(p, After(p, b, xs), ys)
    ensures After(p, b, xs + ys) == After(p, After(p, b, xs), ys)
    decreases |xs|
  {
    if xs == [] {
      assert xs + ys == ys;
    } else {
      assert (xs + ys)[1..] == xs[1..] + ys;
      DecisionsSplit(p, Some(Take(p, b, xs[0])), xs[1..], ys);
    }
  }

  lemma {:induction false} LastIsLast(p: Params, b: Option<Bucket>, times: seq<int>)
    requires times != []
    ensures After(p, b, times).Some? && After(p, b, times).value.last == times[|times| - 1]
    decreases |times|
  {
    if |times| > 1 { LastIsLast(p, Some(Take(p, b, times[0])), times[1..]); }
  }

  /** A stretch of a run is a run from the bucket the requests before it left. */
  lemma Stretch(p: Params, times: seq<int>, i: nat, j: nat)
    requires i < j <= |times|
    ensures Decisions(p, None, times)[i..j] == Decisions(p, After(p, None, times[..i]), times[i..j])
  {
    var xs, ys, zs := times[..i], times[i..j], times[j..];
    assert times == xs + (ys + zs);
    DecisionsSplit(p, None, xs, ys + zs);
    var b := After(p, None, xs);
    DecisionsSplit(p, b, ys, zs);
    Middle(Decisions(p, None, xs), Decisions(p, b, ys), Decisions(p, After(p, b, ys), zs));
  }

  lemma StretchStarts(p: Params, times: seq<int>, i: nat, j: nat)
    requires Usable(p) && Monotone(times) && i < j <= |times|
    ensures var b := After(p, None, times[..i]); FitsAny(p, b) && Starts(b, times[i..j])
  {
    TokensStayInRange(p, None, times[..i]);
    if i > 0 { LastIsLast(p, None, times[..i]); }
  }

  lemma Middle(a: seq<bool>, b: seq<bool>, c: seq<bool>)
    ensures (a + (b + c))[|a|..|a| + |b|] == b
  {}

  /** In every run of one key, the requests admitted in any stretch number at most the capacity
      plus what is refilled in that stretch, rate times its length. */
  lemma {:induction false} WindowBound(p: Params, times: seq<int>, i: nat, j: nat)
    requires Usable(p) && Monotone(times) && i < j <= |times|
    ensures Admitted(Decisions(p, None, times)[i..j]) as real
         <= p.cap as real + Gain(p, times[i], times[j - 1])
  {
    Stretch(p, times, i, j);
    StretchStarts(p, times, i, j);
    var ys := times[i..j];
    assert ys[0] == times[i] && ys[|ys| - 1] == times[j - 1];
    WindowFrom(p, After(p, None, times[..i]), ys);
  }

  lemma {:induction false} BurstFrom(p: Params, k: nat, now: int, n: nat)
    requires Usable(p) && k <= p.cap
    ensures Admitted(Decisions(p, Some(Bucket(k as real, now)), Repeat(now, n))) == if n < k then n else k
  {
    if n > 0 {
      var b := Some(Bucket(k as real, now));
      assert Gain(p, now, now) == 0.0;
      assert Repeat(now, n)[1..] == Repeat(now, n - 1);
      var rest := Decisions(p, Some(Take(p, b, now)), Repeat(now, n - 1));
      assert Decisions(p, b, Repeat(now, n))[1..] == rest;
      BurstFrom(p, if k > 0 then k - 1 else 0, now, n - 1);
      assert Take(p, b, now) == Bucket((if k > 0 then k - 1 else 0) as real, now);
    }
  }

  /** Of any number of requests at one moment an unused key is admitted its capacity, and no more. */
  lemma {:induction false} FreshKeyAdmitsCapacity(p: Params, now: int, n: nat)
    requires Usable(p)
    ensures Admitted(Decisions(p, None, Repeat(now, n))) == if n < p.cap then n else p.cap
  {
    if n > 0 {
      var full := Some(Bucket(p.cap as real, now));
      assert Gain(p, now, now) == 0.0;
      assert Take(p, None, now) == Take(p, full, now) && Admits(p, None, now) == Admits(p, full, now);
      assert Decisions(p, None, Repeat(now, n)) == Decisions(p, full, Repeat(now, n));
    }
    BurstFrom(p, p.cap, now, n);
  }

  // ---------------------------------------------------------------- denied requests are invisible

  /** `b` and `d` cannot be told apart from `now` on. */
  ghost predicate Alike(p: Params, b: Option<Bucket>, d: Option<Bucket>, now: int) {
    forall t :: t >= now ==> Level(p, b, t) == Level(p, d, t)
  }

  ghost predicate OnlyDropsDenied(ds: seq<bool>, keep: seq<bool>) {
    |ds| == |keep| && forall k :: 0 <= k < |ds| && !keep[k] ==> !ds[k]
  }

  lemma {:induction false} ErasingDenied(
      p: Params, b: Option<Bucket>, d: Option<Bucket>, now: int, times: seq<int>, keep: seq<bool>)
    requires Usable(p) && FitsAny(p, b) && Alike(p, b, d, now) && (b.Some? ==> b.value.last <= now)
    requires Monotone(times) && (times != [] ==> now <= times[0])
    requires OnlyDropsDenied(Decisions(p, b, times), keep)
    ensures Decisions(p, d, Select(times, keep)) == Select(Decisions(p, b, times), keep)
    ensures forall t :: now <= t && (times != [] ==> times[|times| - 1] <= t) ==>
              Level(p, After(p, b, times), t) == Level(p, After(p, d, Select(times, keep)), t)
    decreases |times|
  {
    if times != [] {
      var t0, b' := times[0], Some(Take(p, b, times[0]));
      var ds := Decisions(p, b, times);
      assert ds[1..] == Decisions(p, b', times[1..]);
      assert OnlyDropsDenied(ds[1..], keep[1..]) by {
        forall k | 0 <= k < |ds[1..]| && !keep[1..][k]
          ensures !ds[1..][k]
        {
          assert !keep[k + 1];
        }
      }
      TakeFits(p, b, t0);
      if keep[0] {
        assert Take(p, b, t0) == Take(p, d, t0);
        ErasingDenied(p, b', b', t0, times[1..], keep[1..]);
      } else {
        assert !ds[0];
        forall t | t >= t0
          ensures Level(p, b', t) == Level(p, d, t)
        {
          LevelLater(p, b, t0, t);
        }
        ErasingDenied(p, b', d, t0, times[1..], keep[1..]);
      }
    }
  }

  /** Erasing any of the denied requests from a run leaves every other decision the same, and
      the bucket the same for every later request. */
  lemma DeniedAreInvisible(p: Params, times: seq<int>, keep: seq<bool>)
    requires Usable(p) && Monotone(times) && OnlyDropsDenied(Decisions(p, None, times), keep)
    ensures Decisions(p, None, Select(times, keep)) == Select(Decisions(p, None, times), keep)
    ensures forall t :: (times != [] ==> times[|times| - 1] <= t) ==>
              Level(p, After(p, None, times), t) == Level(p, After(p, None, Select(times, keep)), t)
  {
    if times != [] { ErasingDenied(p, None, None, times[0], times, keep); }
  }

  // ---------------------------------------------------------------- when to come back

  function Ceil(x: real): int { if x.Floor as real == x then x.Floor else x.Floor + 1 }

  /** The wait in ticks until a denied request's bucket holds one token. */
  function Wait(p: Params, b: Option<Bucket>, now: int): real
    requires p.rate > 0.0
  {
    (1.0 - Level(p, b, now)) / p.rate
  }

  /** Absent other requests, the key is admitted `d` ticks later exactly when `d` covers the wait. */
  lemma AdmittedAfterWait(p: Params, b: Option<Bucket>, now: int, d: nat)
    requires Usable(p) && FitsAny(p, b) && (b.Some? ==> b.value.last <= now) && !Admits(p, b, now)
    ensures Admits(p, Some(Take(p, b, now)), now + d) <==> d as real >= Wait(p, b, now)
  {
    var w, need, x := Wait(p, b, now), 1.0 - Level(p, b, now), d as real;
    assert Ticks(now, now + d) == x;
    assert w * p.rate == need;
    Gains(w, x, p.rate);
    if x < w { Strict(x, w, p.rate); }
  }

  lemma Strict(x: real, y: real, r: real)
    requires r > 0.0
    ensures x < y ==> x * r < y * r
  {}

  /** The script's retry_after, the wait rounded up, is the least whole number of ticks after
      which the key is admitted. */
  lemma RoundedUpIsLeast(p: Params, b: Option<Bucket>, now: int, d: nat)
    requires Usable(p) && FitsAny(p, b) && (b.Some? ==> b.value.last <= now) && !Admits(p, b, now)
    ensures Ceil(Wait(p, b, now)) >= 1
    ensures Admits(p, Some(Take(p, b, now)), now + d) <==> d >= Ceil(Wait(p, b, now))
  {
    AdmittedAfterWait(p, b, now, d);
    AdmittedAfterWait(p, b, now, 0);
    assert Take(p, b, now) == Bucket(Level(p, b, now), now);
    LevelLater(p, b, now, now);
  }

  /** The in-memory limiter rounds down. One tick more is always enough; the advised wait itself
      is, exactly when it was a whole number of ticks; less never is. */
  lemma RoundedDownNeedsOneMore(p: Params, b: Option<Bucket>, now: int, d: nat)
    requires Usable(p) && FitsAny(p, b) && (b.Some? ==> b.value.last <= now) && !Admits(p, b, now)
    ensures var w := Wait(p, b, now);
            && w.Floor >= 0
            && Admits(p, Some(Take(p, b, now)), now + w.Floor + 1)
            && (Admits(p, Some(Take(p, b, now)), now + w.Floor) <==> w.Floor as real == w)
            && (d < w.Floor ==> !Admits(p, Some(Take(p, b, now)), now + d))
  {
    RoundedUpIsLeast(p, b, now, 0);
    var f := Wait(p, b, now).Floor;
    RoundedUpIsLeast(p, b, now, f);
    RoundedUpIsLeast(p, b, now, f + 1);
    RoundedUpIsLeast(p, b, now, d);
  }
}

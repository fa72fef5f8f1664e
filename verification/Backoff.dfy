/** The retry delay of `sleepBackoff`, with Go's wrapping int64 shift (internal/resilience/executor.go). */
module Backoff {

  const TWO63 := 0x8000_0000_0000_0000
  const TWO64 := 0x1_0000_0000_0000_0000

  function Wrap64(x: int): int { (x + TWO63) % TWO64 - TWO63 }

  function Pow2(n: nat): (r: nat)
    ensures r >= 1
  {
    if n == 0 then 1 else 2 * Pow2(n - 1)
  }

  /** `base << (attempt-1)`, clamped as the source clamps it. A shift of 64 or more gives 0, which
      is what wrapping gives too. */
  function Clamped(base: int, max: int, attempt: nat): int
    requires attempt >= 1
  {
    var backoff := Wrap64(base * Pow2(attempt - 1));
    if backoff > max || backoff <= 0 then max else backoff
  }

  /** The delay asked of the timer. `draw` is the random generator's word; Int63n panics on an
      empty range, hence the bounds on `max`. */
  function Delay(base: int, max: int, attempt: nat, retryAfter: int, draw: nat): (d: int)
    requires attempt >= 1 && 0 <= max < TWO63 - 1
    ensures 0 <= d <= max
    ensures retryAfter > 0 ==> d == if retryAfter > max then max else retryAfter
  {
    var delay := if retryAfter <= 0 then draw % (Clamped(base, max, attempt) + 1) else retryAfter;
    if delay > max then max else delay
  }

  lemma Pow2Adds(a: nat, b: nat)
    ensures Pow2(a + b) == Pow2(a) * Pow2(b)
  {
    if a > 0 { Pow2Adds(a - 1, b); }
  }

  lemma Squared(n: nat, p: nat)
    requires Pow2(n) == p
    ensures Pow2(2 * n) == p * p
  {
    hide Pow2;
    Pow2Adds(n, n);
  }

  lemma Pow2Of63()
    ensures Pow2(63) == TWO63 && Pow2(1) == 2
  {
    assert Pow2(1) == 2 && Pow2(2) == 4;
    hide Pow2;
    Squared(2, 4);
    Squared(4, 16);
    Squared(8, 256);
    Squared(16, 65536);
    Squared(32, 65536 * 65536);
    Pow2Adds(63, 1);
  }

  lemma Scales(x: int, y: int, p: int)
    requires p >= 0
    ensures x <= y ==> x * p <= y * p
  {}

  // ---------------------------------------------------------------- where the wrap-around shows

  /** The delay bound that was meant: the exponential over the integers, at most `max`. */
  function Capped(base: int, max: int, attempt: nat): int
    requires attempt >= 1
  {
    var e := base * Pow2(attempt - 1);
    if e < max then e else max
  }

  /** The shift does not overflow, or what it wraps to is clamped anyway. */
  ghost predicate Harmless(base: int, max: int, attempt: nat)
    requires attempt >= 1
  {
    var e := base * Pow2(attempt - 1);
    e < TWO63 || Wrap64(e) <= 0 || Wrap64(e) >= max
  }

  lemma ClampedIffHarmless(base: int, max: int, attempt: nat)
    requires attempt >= 1 && base > 0 && 0 < max < TWO63 - 1
    ensures Clamped(base, max, attempt) == Capped(base, max, attempt) <==> Harmless(base, max, attempt)
  {
    Scales(1, base, Pow2(attempt - 1));
  }

  /** A shift by `k` that overflows wraps to zero or below, or to at least `max`, by the bits of
      `base`: those shifted out of 63 are odd, or no other is set, or the others stay large. */
  predicate BitsClamp(base: int, max: int, k: nat)
    requires k <= 63
  {
    var unit := Pow2(63 - k);
    base / unit % 2 == 1 || base % unit == 0 || base % unit * Pow2(k) >= max
  }

  ghost predicate WrapNeverShows(base: int, max: int) {
    forall k: nat :: k <= 63 && base >= Pow2(63 - k) ==> BitsClamp(base, max, k)
  }

  lemma WrapOf(h: nat, r: int)
    requires 0 <= r < TWO63
    ensures Wrap64(h * TWO63 + r) == if h % 2 == 1 then r - TWO63 else r
  {
    var q := h / 2;
    assert h * TWO63 + r == q * TWO64 + (h % 2 * TWO63 + r);
    WrapDrops(q, h % 2 * TWO63 + r);
  }

  lemma WrapDrops(q: int, r: int)
    ensures Wrap64(q * TWO64 + r) == Wrap64(r)
  {
    var y := r + TWO63;
    assert q * TWO64 + y == (q + y / TWO64) * TWO64 + y % TWO64;
  }

  /** `base` shifted by `k`, split into the bits from 63 on and those below. */
  lemma ShiftSplits(base: int, k: nat)
    requires k <= 63 && base > 0
    ensures Pow2(63 - k) * Pow2(k) == TWO63
    ensures var unit := Pow2(63 - k);
            base * Pow2(k) == base / unit * TWO63 + base % unit * Pow2(k) && 0 <= base % unit * Pow2(k) < TWO63
  {
    hide Pow2;
    Pow2Of63();
    Pow2Adds(63 - k, k);
    var unit, p := Pow2(63 - k), Pow2(k);
    var h, low := base / unit, base % unit;
    assert base == h * unit + low;
    assert base * p == h * (unit * p) + low * p by { Distributes(h, unit, low, p); }
    Scales(low, unit - 1, p);
    Scales(0, low, p);
    assert (unit - 1) * p == unit * p - p by { Distributes(1, unit, -1, p); }
  }

  lemma Distributes(h: int, u: int, l: int, p: int)
    ensures (h * u + l) * p == h * (u * p) + l * p
  {}

  lemma LongShiftIsZero(base: int, k: nat)
    requires k >= 64
    ensures Wrap64(base * Pow2(k)) == 0
  {
    hide Pow2, Wrap64;
    Pow2Of63();
    Pow2Adds(k - 64, 64);
    Pow2Adds(63, 1);
    WrapsToZero(base, Pow2(k - 64));
  }

  lemma WrapsToZero(base: int, r: int)
    ensures Wrap64(base * (r * TWO64)) == 0
  {
    assert base * (r * TWO64) == (base * r) * TWO64;
    WrapDrops(base * r, 0);
  }

  lemma OverflowClamps(h: nat, r: int, max: int)
    requires 0 <= r < TWO63 && 0 < max < TWO63
    ensures var e := h * TWO63 + r;
            (e < TWO63 || Wrap64(e) <= 0 || Wrap64(e) >= max) <==> (h >= 1 ==> h % 2 == 1 || r == 0 || r >= max)
  {
    hide Wrap64;
    WrapOf(h, r);
  }

  lemma Quotient(base: int, unit: int)
    requires unit > 0 && base > 0
    ensures base / unit >= 0 && (base / unit >= 1 <==> base >= unit)
  {}

  lemma HarmlessIffBits(base: int, max: int, k: nat)
    requires base > 0 && 0 < max < TWO63 - 1
    ensures Harmless(base, max, k + 1) <==> (k <= 63 && base >= Pow2(63 - k) ==> BitsClamp(base, max, k))
  {
    hide Pow2, Wrap64;
    if k >= 64 {
      LongShiftIsZero(base, k);
    } else {
      ShiftSplits(base, k);
      var unit, p := Pow2(63 - k), Pow2(k);
      var h, low := base / unit, base % unit;
      Quotient(base, unit);
      OverflowClamps(h, low * p, max);
      assert low * p == 0 <==> low == 0 by { if low >= 1 { Scales(1, low, p); } }
    }
  }

  /** The clamped shift is the exponential for every attempt exactly when, for each shift that
      overflows, the bits of `base` make what is left of it zero, negative, or at least `max`. */
  lemma ClampedIffBits(base: int, max: int)
    requires base > 0 && 0 < max < TWO63 - 1
    ensures (forall attempt: nat :: attempt >= 1 ==> Clamped(base, max, attempt) == Capped(base, max, attempt))
       <==> WrapNeverShows(base, max)
  {
    hide Clamped, Capped, Harmless, BitsClamp;
    forall attempt: nat | attempt >= 1
      ensures Clamped(base, max, attempt) == Capped(base, max, attempt)
         <==> var k := attempt - 1; k <= 63 && base >= Pow2(63 - k) ==> BitsClamp(base, max, k)
    {
      ClampedIffHarmless(base, max, attempt);
      HarmlessIffBits(base, max, attempt - 1);
    }
    if forall attempt: nat :: attempt >= 1 ==> Clamped(base, max, attempt) == Capped(base, max, attempt) {
      forall k: nat | k <= 63 && base >= Pow2(63 - k)
        ensures BitsClamp(base, max, k)
      {
        assert Clamped(base, max, k + 1) == Capped(base, max, k + 1);
      }
    }
  }

  /** A shift that overflows is by more than `max` times if the product of base and `max` fits. */
  lemma OverflowIsLarge(base: int, unit: int, p: int, max: int)
    requires base > 0 && p > 0 && base >= unit && unit * p == TWO63 && base * max < TWO63
    ensures p > max
  {
    Scales(unit, base, p);
    if p <= max { Scales(p, max, base); }
  }

  lemma ProductFits(base: int, max: int, k: nat)
    requires base > 0 && max > 0 && base * max < TWO63 && k <= 63 && base >= Pow2(63 - k)
    ensures BitsClamp(base, max, k)
  {
    ShiftSplits(base, k);
    hide Pow2;
    var unit, p := Pow2(63 - k), Pow2(k);
    OverflowIsLarge(base, unit, p, max);
    var low := base % unit;
    if low != 0 { Scales(1, low, p); }
    assert low == 0 || low * p >= max;
  }

  /** In particular it is wherever the product of the two settings fits. */
  lemma ClampedIsExponential(base: int, max: int, attempt: nat)
    requires attempt >= 1 && base > 0 && 0 < max < TWO63 - 1 && base * max < TWO63
    ensures Clamped(base, max, attempt) == Capped(base, max, attempt)
  {
    hide Clamped, Capped, BitsClamp, Pow2;
    forall k: nat | k <= 63 && base >= Pow2(63 - k)
      ensures BitsClamp(base, max, k)
    {
      ProductFits(base, max, k);
    }
    ClampedIffBits(base, max);
  }

  /** It can show: the third attempt of this configuration asks for a delay of at most 4 instead of
      up to `max`. */
  lemma ShiftCanWrap()
    ensures var base, max := 0x4000_0000_0000_0001, 1_000_000;
            Clamped(base, max, 3) == 4 && Capped(base, max, 3) == max && !WrapNeverShows(base, max)
  {
    var base, max := 0x4000_0000_0000_0001, 1_000_000;
    assert Clamped(base, max, 3) == 4 && Capped(base, max, 3) == max;
    ClampedIffBits(base, max);
  }

  lemma SmallRemainder(d: nat, n: nat)
    requires d < n
    ensures d % n == d
  {}

  /** Some draw gives the delay `d`. */
  ghost predicate Drawn(base: int, max: int, attempt: nat, retryAfter: int, d: int)
    requires attempt >= 1 && 0 <= max < TWO63 - 1
  {
    exists draw: nat :: Delay(base, max, attempt, retryAfter, draw) == d
  }

  lemma DrawnIffClamped(base: int, max: int, attempt: nat, retryAfter: int, d: int)
    requires attempt >= 1 && 0 < max < TWO63 - 1 && retryAfter <= 0
    ensures Drawn(base, max, attempt, retryAfter, d) <==> 0 <= d <= Clamped(base, max, attempt)
  {
    hide Wrap64, Pow2;
    var c := Clamped(base, max, attempt);
    if 0 <= d <= c {
      SmallRemainder(d, c + 1);
      assert Delay(base, max, attempt, retryAfter, d) == d;
    }
  }

  lemma ClampedIsPositive(base: int, max: int, attempt: nat)
    requires attempt >= 1 && max > 0
    ensures 0 < Clamped(base, max, attempt) <= max
  {}

  /** Full jitter: without a Retry-After the delay ranges over exactly the integers from 0 to the
      capped exponential, each reached by some draw, if and only if no wrap-around shows. */
  lemma FullJitter(base: int, max: int, attempt: nat, retryAfter: int)
    requires attempt >= 1 && base > 0 && 0 < max < TWO63 - 1 && retryAfter <= 0
    ensures (forall d :: Drawn(base, max, attempt, retryAfter, d) <==> 0 <= d <= Capped(base, max, attempt))
       <==> Harmless(base, max, attempt)
  {
    hide Drawn, Clamped, Pow2, Harmless, Wrap64;
    ClampedIffHarmless(base, max, attempt);
    forall d
      ensures Drawn(base, max, attempt, retryAfter, d) <==> 0 <= d <= Clamped(base, max, attempt)
    {
      DrawnIffClamped(base, max, attempt, retryAfter, d);
    }
    Scales(1, base, Pow2(attempt - 1));
    ClampedIsPositive(base, max, attempt);
    var c, want := Clamped(base, max, attempt), Capped(base, max, attempt);
    assert c >= want ==> (Drawn(base, max, attempt, retryAfter, c) <==> 0 <= c);
    assert c <= want ==> (Drawn(base, max, attempt, retryAfter, want) <==> want <= c);
  }
}

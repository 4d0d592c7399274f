/** The billing rules of a ride: minutes are billed by rounding the elapsed
    time up to a whole minute, the cost is the frozen per-minute rate times
    the billed minutes rounded to cents, and a scooter without a usable
    per-minute rate is billed at its hourly rate divided by 60. */
module Pricing {
  import opened Records

  const MsPerMinute: int := 60000

  /** `Math.ceil(elapsedMs / 60000)`: the billed minutes. */
  function CeilMinutes(elapsedMs: int): (d: int)
    ensures (d - 1) * MsPerMinute < elapsedMs <= d * MsPerMinute
  {
    -((-elapsedMs) / MsPerMinute)
  }

  /** The bounds above leave exactly one candidate: billing is the ceiling. */
  lemma CeilMinutesUnique(elapsedMs: int, d: int)
    requires (d - 1) * MsPerMinute < elapsedMs <= d * MsPerMinute
    ensures d == CeilMinutes(elapsedMs)
  {
  }

  /** A whole number of cents. */
  ghost predicate IsCents(x: real) {
    (x * 100.0).Floor as real == x * 100.0
  }

  /** Rounds a non-negative amount to cents, a tie going up. */
  function RoundHalfUpCents(x: real): (r: real)
    ensures IsCents(r)
    ensures x - 0.005 < r <= x + 0.005
  {
    var n := (x * 100.0 + 0.5).Floor;
    assert n as real / 100.0 * 100.0 == n as real;
    n as real / 100.0
  }

  /** `Number.prototype.toFixed(2)` read back as a number, on exact reals:
      the magnitude is rounded to the nearest cent, a tie going to the
      larger magnitude, and the sign is put back. */
  function Round2(x: real): (r: real)
    ensures IsCents(r)
    ensures x - 0.005 <= r <= x + 0.005
    ensures 0.0 <= x ==> x - 0.005 < r
    ensures x < 0.0 ==> r < x + 0.005
  {
    if x < 0.0 then
      var m := RoundHalfUpCents(-x);
      NegatedCents(m);
      -m
    else RoundHalfUpCents(x)
  }

  lemma NegatedCents(x: real)
    requires IsCents(x)
    ensures IsCents(-x)
  {
    var n := (x * 100.0).Floor;
    assert -x * 100.0 == (-n) as real;
  }

  lemma {:induction false} Round2OfCents(x: real)
    requires IsCents(x)
    ensures Round2(x) == x
  {
    var n := (x * 100.0).Floor;
    if x < 0.0 {
      assert (-x * 100.0 + 0.5).Floor == -n;
    } else {
      assert (x * 100.0 + 0.5).Floor == n;
    }
  }

  lemma {:induction false} RoundHalfUpMonotone(x: real, y: real)
    requires 0.0 <= x <= y
    ensures RoundHalfUpCents(x) <= RoundHalfUpCents(y)
  {
    assert (x * 100.0 + 0.5).Floor <= (y * 100.0 + 0.5).Floor;
  }

  lemma {:induction false} Round2Monotone(x: real, y: real)
    requires x <= y
    ensures Round2(x) <= Round2(y)
  {
    if 0.0 <= x {
      RoundHalfUpMonotone(x, y);
    } else if y < 0.0 {
      RoundHalfUpMonotone(-y, -x);
    } else {
      assert Round2(x) <= 0.0;
    }
  }

  /** `(rate * minutes).toFixed(2)` read back with `parseFloat`. */
  function Cost(rate: real, minutes: int): (c: real)
    ensures IsCents(c)
    ensures rate * minutes as real - 0.005 <= c <= rate * minutes as real + 0.005
    ensures 0.0 <= rate * minutes as real ==> rate * minutes as real - 0.005 < c
    ensures rate * minutes as real < 0.0 ==> c < rate * minutes as real + 0.005
  {
    Round2(rate * minutes as real)
  }

  /** A longer ride never costs less at the same non-negative rate. */
  lemma {:induction false} CostMonotone(rate: real, m1: int, m2: int)
    requires 0.0 <= rate && m1 <= m2
    ensures Cost(rate, m1) <= Cost(rate, m2)
  {
    var a, b := rate * m1 as real, rate * m2 as real;
    assert b - a == rate * (m2 - m1) as real;
    assert 0.0 <= rate * (m2 - m1) as real;
    Round2Monotone(a, b);
  }

  /** A rate in whole cents is billed exactly, without rounding. */
  lemma {:induction false} CostOfCentRate(rate: real, minutes: int)
    requires IsCents(rate)
    ensures Cost(rate, minutes) == rate * minutes as real
  {
    var n := (rate * 100.0).Floor;
    assert rate * 100.0 == n as real;
    assert rate * minutes as real * 100.0 == (n * minutes) as real;
    assert IsCents(rate * minutes as real);
    Round2OfCents(rate * minutes as real);
  }

  /** A rate of 2.00 and 90 seconds of riding: 2 minutes, 4.00. */
  lemma PricingExample()
    ensures CeilMinutes(90000) == 2
    ensures Cost(2.0, CeilMinutes(90000)) == 4.0
  {
    assert IsCents(4.0);
    Round2OfCents(4.0);
  }

  /** Zero elapsed time bills zero minutes and costs nothing. */
  lemma ZeroElapsedIsFree(rate: real)
    ensures CeilMinutes(0) == 0
    ensures Cost(rate, 0) == 0.0
  {
    assert IsCents(0.0);
    Round2OfCents(0.0);
  }

  /** The rate frozen into a new ride: the scooter's per-minute rate when it
      is truthy, otherwise its hourly rate divided by 60. */
  function FrozenRate(sc: Scooter): (p: Price)
    ensures Truthy(sc.pricePerMinute) ==> p == sc.pricePerMinute
    ensures !Truthy(sc.pricePerMinute) ==> Amount(p) * 60.0 == sc.pricePerHour
  {
    if Truthy(sc.pricePerMinute) then sc.pricePerMinute else Num(sc.pricePerHour / 60.0)
  }
}

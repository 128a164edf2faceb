/**
 * Time bases and the two libavutil helpers the muxing loops call:
 * av_compare_ts (an exact comparison of two timestamps given in different
 * time bases) and av_rescale_q_rnd / av_rescale_q (conversion of a value
 * from one time base to another with round-to-nearest, ties away from zero).
 * All arithmetic is over unbounded integers.
 */
module TimeBase {

  const INT64_MIN: int := -0x8000_0000_0000_0000
  const INT64_MAX: int := 0x7FFF_FFFF_FFFF_FFFF

  /** An AVRational used as a time base: one tick lasts num/den seconds. */
  datatype Rational = Rational(num: int, den: int) {
    /** Time bases and frame rates in FFmpeg are strictly positive fractions. */
    predicate Valid() { num > 0 && den > 0 }
  }

  /** The reference meaning of a timestamp: its position in seconds. */
  ghost function Seconds(ts: int, tb: Rational): real
    requires tb.Valid()
  {
    (ts * tb.num) as real / (tb.den as real)
  }

  /** Cross multiplication is exact comparison of the two quotients. */
  lemma CrossCompare(x: int, dx: int, y: int, dy: int)
    requires dx > 0 && dy > 0
    ensures (x as real / dx as real < y as real / dy as real) <==> x * dy < y * dx
    ensures (x as real / dx as real == y as real / dy as real) <==> x * dy == y * dx
  {
    var a := x as real / dx as real;
    var b := y as real / dy as real;
    assert a * dx as real == x as real;
    assert b * dy as real == y as real;
    var p := dx as real * dy as real;
    assert p > 0.0;
    assert a * p == (x * dy) as real;
    assert b * p == (y * dx) as real;
    assert a < b <==> a * p < b * p;
    assert a == b <==> a * p == b * p;
  }

  /**
   * av_compare_ts: -1 when tsA is earlier than tsB, 0 when they denote the
   * same instant, 1 when it is later.
   */
  function CompareTs(tsA: int, tbA: Rational, tsB: int, tbB: Rational): (r: int)
    requires tbA.Valid() && tbB.Valid()
    ensures r == -1 <==> Seconds(tsA, tbA) < Seconds(tsB, tbB)
    ensures r == 0 <==> Seconds(tsA, tbA) == Seconds(tsB, tbB)
    ensures r == 1 <==> Seconds(tsA, tbA) > Seconds(tsB, tbB)
  {
    var x := tsA * tbA.num;
    var y := tsB * tbB.num;
    CrossCompare(x, tbA.den, y, tbB.den);
    CrossCompare(y, tbB.den, x, tbA.den);
    if x * tbB.den < y * tbA.den then -1
    else if x * tbB.den > y * tbA.den then 1
    else 0
  }

  /** Both loops start with the two current timestamps at 0: a tie. */
  lemma CompareZeroTie(tbA: Rational, tbB: Rational)
    requires tbA.Valid() && tbB.Valid()
    ensures CompareTs(0, tbA, 0, tbB) == 0
  {
  }

  /** Swapping the arguments flips the verdict. */
  lemma CompareAntisymmetric(tsA: int, tbA: Rational, tsB: int, tbB: Rational)
    requires tbA.Valid() && tbB.Valid()
    ensures CompareTs(tsA, tbA, tsB, tbB) == -CompareTs(tsB, tbB, tsA, tbA)
  {
  }

  /** n == q*d + m with 0 <= m < d pins down n / d. */
  lemma DivUnique(n: int, d: int, q: int)
    requires d > 0 && q * d <= n < q * d + d
    ensures n / d == q
  {
    var t := n / d;
    assert t * d <= n < t * d + d;
    if t < q {
      MulAtLeast(q - t, d);
    } else if t > q {
      MulAtLeast(t - q, d);
    }
  }

  lemma MulAtLeast(k: int, d: int)
    requires k >= 1 && d > 0
    ensures k * d >= d
  {
    assert k * d == (k - 1) * d + d;
    assert (k - 1) * d >= 0;
  }

  lemma BelowOne(k: int, d: int)
    requires d > 0 && k * d < d
    ensures k <= 0
  {
    if k >= 1 {
      MulAtLeast(k, d);
    }
  }

  /**
   * Rounding of n/d to the nearest integer, halves away from zero, as
   * AV_ROUND_NEAR_INF does: for non-negative n it adds d/2 before the
   * division, and a negative n is rounded as -(nearest(-n)).
   */
  function DivNearInf(n: int, d: int): (r: int)
    requires d > 0
    ensures n >= 0 ==> 2 * r * d - d <= 2 * n < 2 * r * d + d
    ensures n < 0 ==> 2 * r * d - d < 2 * n <= 2 * r * d + d
  {
    if n >= 0 then
      NearUp(n, d);
      (n + d / 2) / d
    else
      NearUp(-n, d);
      -((-n + d / 2) / d)
  }

  lemma NearUp(n: int, d: int)
    requires d > 0 && n >= 0
    ensures var q := (n + d / 2) / d; 2 * q * d - d <= 2 * n < 2 * q * d + d
  {
    var h := d / 2;
    var q := (n + h) / d;
    assert q * d <= n + h < q * d + d;
    assert 2 * h == d || 2 * h + 1 == d;
  }

  /** A value that is an exact multiple of d rounds to the exact quotient. */
  lemma DivNearInfExact(q: int, d: int)
    requires d > 0
    ensures DivNearInf(q * d, d) == q
  {
    var r := DivNearInf(q * d, d);
    if r > q {
      assert (r - q) * d >= d by { MulAtLeast(r - q, d); }
    } else if r < q {
      assert (q - r) * d >= d by { MulAtLeast(q - r, d); }
    }
  }

  /** Nearest rounding never reorders two values. */
  lemma DivNearInfMonotone(n1: int, n2: int, d: int)
    requires d > 0 && n1 <= n2
    ensures DivNearInf(n1, d) <= DivNearInf(n2, d)
  {
    var r1 := DivNearInf(n1, d);
    var r2 := DivNearInf(n2, d);
    if n1 < n2 {
      assert 2 * r1 * d - d <= 2 * n1;
      assert 2 * n2 <= 2 * r2 * d + d;
      assert (r1 - r2) * d == r1 * d - r2 * d;
      BelowOne(r1 - r2, d);
    }
  }

  /**
   * av_rescale_q(a, from, to): a * from / to rounded to nearest, halves away
   * from zero. Used for durations. With n = a * from.num * to.den and
   * d = from.den * to.num, r is within half a unit of n / d, and an exact
   * half goes up for n >= 0 and down for n < 0.
   */
  function Rescale(a: int, from: Rational, to: Rational): (r: int)
    requires from.Valid() && to.Valid()
    ensures a * from.num * to.den >= 0 ==>
              2 * r * (from.den * to.num) - from.den * to.num
              <= 2 * (a * from.num * to.den)
              < 2 * r * (from.den * to.num) + from.den * to.num
    ensures a * from.num * to.den < 0 ==>
              2 * r * (from.den * to.num) - from.den * to.num
              < 2 * (a * from.num * to.den)
              <= 2 * r * (from.den * to.num) + from.den * to.num
  {
    assert from.den * to.num > 0;
    DivNearInf(a * from.num * to.den, from.den * to.num)
  }

  /**
   * av_rescale_q_rnd(a, from, to, AV_ROUND_NEAR_INF | AV_ROUND_PASS_MINMAX):
   * INT64_MIN (which is AV_NOPTS_VALUE) and INT64_MAX are passed through
   * unchanged, every other value is rescaled as Rescale does.
   */
  function RescaleRnd(a: int, from: Rational, to: Rational): (r: int)
    requires from.Valid() && to.Valid()
    ensures a == INT64_MIN || a == INT64_MAX ==> r == a
    ensures a != INT64_MIN && a != INT64_MAX ==> r == Rescale(a, from, to)
  {
    if a == INT64_MIN || a == INT64_MAX then a else Rescale(a, from, to)
  }

  /** Rescaling (without the pass-through) preserves the order of values. */
  lemma RescaleMonotone(a1: int, a2: int, from: Rational, to: Rational)
    requires from.Valid() && to.Valid() && a1 <= a2
    ensures Rescale(a1, from, to) <= Rescale(a2, from, to)
  {
    var k := from.num * to.den;
    assert k > 0;
    assert a1 * from.num * to.den == a1 * k;
    assert a2 * from.num * to.den == a2 * k;
    assert a1 * k <= a2 * k by { assert (a2 - a1) * k >= 0; }
    DivNearInfMonotone(a1 * k, a2 * k, from.den * to.num);
  }

  /** The same on the timestamp path, for values away from the two pass-through sentinels. */
  lemma RescaleRndMonotone(a1: int, a2: int, from: Rational, to: Rational)
    requires from.Valid() && to.Valid() && INT64_MIN < a1 <= a2 < INT64_MAX
    ensures RescaleRnd(a1, from, to) <= RescaleRnd(a2, from, to)
  {
    RescaleMonotone(a1, a2, from, to);
  }

  /** When a tick of `from` is exactly k ticks of `to`, rescaling multiplies by k. */
  lemma RescaleExact(a: int, from: Rational, to: Rational, k: int)
    requires from.Valid() && to.Valid() && k >= 1
    requires from.num * to.den == k * (from.den * to.num)
    ensures Rescale(a, from, to) == a * k
  {
    var d := from.den * to.num;
    assert d > 0;
    assert a * from.num * to.den == (a * k) * d;
    DivNearInfExact(a * k, d);
  }

  /**
   * When a tick of `from` is exactly k ticks of `to` (from = k * to), a value
   * rescaled to `to` and back is reproduced exactly.
   */
  lemma RescaleRoundTrip(a: int, from: Rational, to: Rational, k: int)
    requires from.Valid() && to.Valid() && k >= 1
    requires from.num * to.den == k * (from.den * to.num)
    ensures Rescale(a, from, to) == a * k
    ensures Rescale(Rescale(a, from, to), to, from) == a
  {
    var d := from.den * to.num;
    assert d > 0;
    assert a * from.num * to.den == (a * k) * d;
    DivNearInfExact(a * k, d);
    assert Rescale(a, from, to) == a * k;
    assert (a * k) * to.num * from.den == a * (k * d);
    assert to.den * from.num == k * d;
    DivNearInfExact(a, k * d);
  }

  /** The same round trip on the timestamp path, where the sentinel passes through. */
  lemma RescaleRndRoundTrip(a: int, from: Rational, to: Rational, k: int)
    requires from.Valid() && to.Valid() && k >= 1
    requires from.num * to.den == k * (from.den * to.num)
    requires a == INT64_MIN || INT64_MIN < a * k < INT64_MAX
    ensures RescaleRnd(RescaleRnd(a, from, to), to, from) == a
  {
    if a != INT64_MIN {
      assert a != INT64_MAX by {
        if a == INT64_MAX { MulAtLeast(k, a); }
      }
      RescaleRoundTrip(a, from, to, k);
    }
  }
}

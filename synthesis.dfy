/**
 * Timestamp synthesis for packets that arrive without a pts (raw H.264 /
 * HEVC / AAC elementary streams). The source computes
 *   frame_duration = (int64)(AV_TIME_BASE / rate)               microseconds
 *   duration       = (int64)(frame_duration / (tb * AV_TIME_BASE))  ticks
 *   pts            = (int64)(idx * frame_duration / (tb * AV_TIME_BASE))
 * in double precision with truncating casts. Here the quotients are taken
 * exactly and truncated; every operand is non-negative, so truncation is
 * the floor that Dafny's `/` computes.
 */
module Synthesis {
  import opened TimeBase

  /** AV_TIME_BASE: microseconds per second. */
  const AV_TIME_BASE: int := 1000000

  /** Microseconds one nominal frame lasts, truncated. */
  function FrameDurationUs(rate: Rational): (r: nat)
    requires rate.Valid()
    ensures r * rate.num <= AV_TIME_BASE * rate.den < (r + 1) * rate.num
  {
    var n := AV_TIME_BASE * rate.den;
    var r := n / rate.num;
    assert r * rate.num <= n < r * rate.num + rate.num;
    r
  }

  /** Whole ticks of tb in `us` microseconds, truncated. */
  function UsToTicks(us: nat, tb: Rational): (r: nat)
    requires tb.Valid()
    ensures r * (tb.num * AV_TIME_BASE) <= us * tb.den < (r + 1) * (tb.num * AV_TIME_BASE)
  {
    var m := tb.num * AV_TIME_BASE;
    var n := us * tb.den;
    var r := n / m;
    assert r * m <= n < r * m + m;
    r
  }

  /**
   * The duration given to a synthesized packet, in ticks of the input time
   * base: r ticks last no longer than one frame period (rate.den / rate.num
   * seconds), and fall short of it by less than one microsecond plus one
   * tick, the two truncations.
   */
  function SynthDuration(rate: Rational, tb: Rational): (r: nat)
    requires rate.Valid() && tb.Valid()
    ensures r * tb.num * rate.num <= tb.den * rate.den
    ensures AV_TIME_BASE * rate.den * tb.den
            < r * tb.num * AV_TIME_BASE * rate.num + rate.num * tb.den + tb.num * AV_TIME_BASE * rate.num
  {
    var f := FrameDurationUs(rate);
    var r := UsToTicks(f, tb);
    assert r * (tb.num * AV_TIME_BASE) * rate.num <= f * tb.den * rate.num <= AV_TIME_BASE * rate.den * tb.den
    by {
      MulLe(r * (tb.num * AV_TIME_BASE), f * tb.den, rate.num);
      MulLe(f * rate.num, AV_TIME_BASE * rate.den, tb.den);
    }
    assert AV_TIME_BASE * rate.den * tb.den < f * tb.den * rate.num + rate.num * tb.den
    by {
      MulLt(AV_TIME_BASE * rate.den, (f + 1) * rate.num, tb.den);
    }
    assert f * tb.den * rate.num < (r + 1) * (tb.num * AV_TIME_BASE) * rate.num
    by {
      MulLt(f * tb.den, (r + 1) * (tb.num * AV_TIME_BASE), rate.num);
    }
    assert r * tb.num * rate.num * AV_TIME_BASE == r * (tb.num * AV_TIME_BASE) * rate.num;
    assert (r + 1) * (tb.num * AV_TIME_BASE) * rate.num
           == r * tb.num * AV_TIME_BASE * rate.num + tb.num * AV_TIME_BASE * rate.num;
    r
  }

  /** a <= b and c > 0 give a * c <= b * c. */
  lemma MulLe(a: int, b: int, c: int)
    requires a <= b && c > 0
    ensures a * c <= b * c
  {
  }

  /** a < b and c > 0 give a * c < b * c. */
  lemma MulLt(a: int, b: int, c: int)
    requires a < b && c > 0
    ensures a * c < b * c
  {
  }

  /**
   * The pts given to the idx-th synthesized packet, in ticks of the input
   * time base. It is recomputed from the index each time, never accumulated.
   * It is never negative, so it is never AV_NOPTS_VALUE.
   */
  function SynthPts(idx: nat, rate: Rational, tb: Rational): (r: nat)
    requires rate.Valid() && tb.Valid()
    ensures idx == 0 ==> r == 0
  {
    UsToTicks(idx * FrameDurationUs(rate), tb)
  }

  /** q * c <= n gives q <= n / c. */
  lemma FloorAtLeast(n: int, c: int, q: int)
    requires c > 0 && q * c <= n
    ensures q <= n / c
  {
    var t := n / c;
    assert n < t * c + c;
    assert (q - t) * c == q * c - t * c;
    BelowOne(q - t, c);
  }

  /** Truncating division is monotone in the dividend. */
  lemma FloorMonotone(a: int, b: int, c: int)
    requires c > 0 && a <= b
    ensures a / c <= b / c
  {
    assert (a / c) * c <= a;
    FloorAtLeast(b, c, a / c);
  }

  /** Synthesized pts never decreases as the frame index grows. */
  lemma SynthPtsMonotone(i: nat, j: nat, rate: Rational, tb: Rational)
    requires rate.Valid() && tb.Valid() && i <= j
    ensures SynthPts(i, rate, tb) <= SynthPts(j, rate, tb)
  {
    var f := FrameDurationUs(rate);
    assert i * f <= j * f by { assert (j - i) * f >= 0; }
    assert i * f * tb.den <= j * f * tb.den by { assert (j * f - i * f) * tb.den >= 0; }
    FloorMonotone(i * f * tb.den, j * f * tb.den, tb.num * AV_TIME_BASE);
  }

  /** Recomputing from the index loses at most what k truncated durations lose: pts(k) >= k * duration. */
  lemma SynthPtsAtLeast(k: nat, rate: Rational, tb: Rational)
    requires rate.Valid() && tb.Valid()
    ensures SynthPts(k, rate, tb) >= k * SynthDuration(rate, tb)
  {
    var f := FrameDurationUs(rate);
    var m := tb.num * AV_TIME_BASE;
    var d := SynthDuration(rate, tb);
    assert d * m <= f * tb.den;
    assert k * d * m <= k * f * tb.den by { assert k * (f * tb.den - d * m) >= 0; }
    FloorAtLeast(k * f * tb.den, m, k * d);
  }

  /**
   * When a frame is a whole number of ticks (as for 25 fps in 1/90000 under
   * exact arithmetic), the synthesized pts form the arithmetic sequence
   * k * duration, so consecutive pts differ by exactly one duration.
   */
  lemma SynthPtsExact(k: nat, rate: Rational, tb: Rational)
    requires rate.Valid() && tb.Valid()
    requires (FrameDurationUs(rate) * tb.den) % (tb.num * AV_TIME_BASE) == 0
    ensures SynthPts(k, rate, tb) == k * SynthDuration(rate, tb)
    ensures SynthPts(k + 1, rate, tb) == SynthPts(k, rate, tb) + SynthDuration(rate, tb)
  {
    var f := FrameDurationUs(rate);
    var m := tb.num * AV_TIME_BASE;
    var d := SynthDuration(rate, tb);
    assert f * tb.den == d * m;
    assert k * f * tb.den == (k * d) * m;
    DivUnique(k * f * tb.den, m, k * d);
    assert (k + 1) * f * tb.den == ((k + 1) * d) * m;
    DivUnique((k + 1) * f * tb.den, m, (k + 1) * d);
  }

  /**
   * An untimed stream at a whole frame rate fps, written to an output time
   * base 1/outDen with outDen a multiple of fps: when a frame is a whole
   * number of input ticks, frame j lands exactly on output tick
   * j * (outDen / fps), so the output advances by outDen / fps ticks per
   * frame.
   */
  lemma UntimedFrameTicks(j: nat, fps: int, tb: Rational, outDen: int)
    requires fps > 0 && AV_TIME_BASE % fps == 0 && outDen > 0 && outDen % fps == 0 && tb.Valid()
    requires (FrameDurationUs(Rational(fps, 1)) * tb.den) % (tb.num * AV_TIME_BASE) == 0
    ensures Rescale(SynthPts(j, Rational(fps, 1), tb), tb, Rational(1, outDen)) == j * (outDen / fps)
  {
    var rate := Rational(fps, 1);
    var u := FrameDurationUs(rate);
    var d := SynthDuration(rate, tb);
    var c := outDen / fps;
    assert u * fps == AV_TIME_BASE by {
      DivUnique(AV_TIME_BASE, fps, AV_TIME_BASE / fps);
    }
    SynthPtsExact(j, rate, tb);
    assert d * (tb.num * AV_TIME_BASE) == u * tb.den;
    assert d * tb.num * fps == tb.den by {
      assert d * tb.num * fps * AV_TIME_BASE == u * fps * tb.den;
    }
    assert outDen == fps * c;
    assert (j * d) * tb.num * outDen == (j * c) * tb.den by {
      assert (j * d) * tb.num * outDen == (j * c) * (d * tb.num * fps);
    }
    assert tb.den * 1 == tb.den;
    DivNearInfExact(j * c, tb.den);
  }
}

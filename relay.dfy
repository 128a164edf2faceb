/**
 * The relay loop of src/streamer/udp_streaming.cpp: packets are read from
 * one input, every packet not on the video stream is dropped, a packet
 * without pts gets one synthesized from the frame counter, timestamps are
 * rescaled to the output stream's time base, the byte position is reset,
 * and the packet is handed to the RTP/UDP writer. The loop runs only when
 * the header write succeeds and ends at the first read failure or refused
 * write; the trailer is written once either way. A failed header write
 * jumps past the loop and the trailer to the cleanup.
 */
module RtpRelay {
  import opened TimeBase
  import opened Packets
  import opened Synthesis

  /**
   * Synthesis for a video packet without pts, with frame counter k: pts
   * from the counter, dts set equal to it, one nominal frame duration. A
   * packet with a pts passes unchanged.
   */
  function Stamped(p: Packet, k: nat, rate: Rational, inTb: Rational): (q: Packet)
    requires rate.Valid() && inTb.Valid()
    ensures q.pts != NOPTS
    ensures p.pts == NOPTS ==> q.dts == q.pts
    ensures p.pts != NOPTS ==> q == p
    ensures q.streamIndex == p.streamIndex && q.pos == p.pos
  {
    if p.pts == NOPTS then
      p.(pts := SynthPts(k, rate, inTb), dts := SynthPts(k, rate, inTb), duration := SynthDuration(rate, inTb))
    else p
  }

  /**
   * The k-th video packet as the writer receives it: stamped, pts and dts
   * rescaled with the sentinel passed through, duration rescaled, pos -1.
   * The stream index is left as read.
   */
  function Relayed(p: Packet, k: nat, inTb: Rational, outTb: Rational, rate: Rational): (r: Packet)
    requires inTb.Valid() && outTb.Valid() && rate.Valid()
    ensures r.pos == -1 && r.streamIndex == p.streamIndex
    ensures p.pts == NOPTS ==> r.pts == r.dts
    ensures p.pts != NOPTS && p.dts == NOPTS ==> r.dts == NOPTS
  {
    var q := Stamped(p, k, rate, inTb);
    q.(pts := RescaleRnd(q.pts, inTb, outTb),
       dts := RescaleRnd(q.dts, inTb, outTb),
       duration := Rescale(q.duration, inTb, outTb),
       pos := -1)
  }

  /**
   * The loop body between the stream filter and the write: the timestamp
   * fix-up for a packet without pts, then the rescale and the position
   * reset, field by field.
   */
  method PreparePacket(pkt: Packet, frameIndex: nat, inTb: Rational, outTb: Rational, rate: Rational)
    returns (out: Packet)
    requires inTb.Valid() && outTb.Valid() && rate.Valid()
    ensures out == Relayed(pkt, frameIndex, inTb, outTb, rate)
  {
    out := pkt;
    if out.pts == NOPTS {
      var calcDuration := FrameDurationUs(rate);
      out := out.(pts := UsToTicks(frameIndex * calcDuration, inTb));
      out := out.(dts := out.pts);
      out := out.(duration := UsToTicks(calcDuration, inTb));
    }
    out := out.(pts := RescaleRnd(out.pts, inTb, outTb));
    out := out.(dts := RescaleRnd(out.dts, inTb, outTb));
    out := out.(duration := Rescale(out.duration, inTb, outTb));
    out := out.(pos := -1);
  }

  /**
   * Reading packet i extends the video packets seen so far by that packet
   * when it is on the video stream and leaves them alone otherwise; either
   * way they stay a prefix of the input's video packets.
   */
  lemma FilterStep(input: seq<Packet>, i: nat, videoIndex: int)
    requires i < |input|
    ensures OfStream(input[..i + 1], videoIndex)
            == OfStream(input[..i], videoIndex) + (if input[i].streamIndex == videoIndex then [input[i]] else [])
    ensures var seen := OfStream(input[..i + 1], videoIndex);
            |seen| <= |OfStream(input, videoIndex)| && seen == OfStream(input, videoIndex)[..|seen|]
  {
    assert input[..i + 1] == input[..i] + [input[i]];
    OfStreamAppend(input[..i], input[i], videoIndex);
    OfStreamPrefix(input, i + 1, videoIndex);
  }

  /**
   * The header write (its outcome is `headerOk`) and the `while (1)` loop
   * over the input's packets. `failAt` is the index
   * of the write attempt that fails, if any. frame_index counts the video
   * packets processed, including the one whose write failed; the k-th
   * written packet is the k-th video packet relayed with counter k.
   */
  method Relay(input: seq<Packet>, videoIndex: int, inTb: Rational, outTb: Rational, rate: Rational,
               headerOk: bool, failAt: Option<nat>)
    returns (written: seq<Packet>, frameIndex: nat, trailerWrites: nat)
    requires inTb.Valid() && outTb.Valid() && rate.Valid()
    ensures !headerOk ==> written == [] && frameIndex == 0 && trailerWrites == 0
    ensures headerOk ==>
            var vids := OfStream(input, videoIndex);
            var refused := failAt.Some? && failAt.value < |vids|;
            && frameIndex == (if refused then failAt.value + 1 else |vids|)
            && |written| == (if refused then failAt.value else |vids|)
            && forall j :: 0 <= j < |written| ==> written[j] == Relayed(vids[j], j, inTb, outTb, rate)
    ensures headerOk ==> trailerWrites == 1
  {
    if !headerOk {
      // goto end
      return [], 0, 0;
    }
    ghost var vids := OfStream(input, videoIndex);
    var i := 0;
    written, frameIndex, trailerWrites := [], 0, 0;
    while true
      invariant 0 <= i <= |input|
      invariant frameIndex <= |vids|
      invariant frameIndex == |written| == |OfStream(input[..i], videoIndex)|
      invariant OfStream(input[..i], videoIndex) == vids[..frameIndex]
      invariant forall j :: 0 <= j < |written| ==> written[j] == Relayed(vids[j], j, inTb, outTb, rate)
      invariant failAt.None? || failAt.value >= frameIndex
      decreases |input| - i
    {
      // av_read_frame
      if i == |input| {
        assert input[..i] == input;
        break;
      }
      var pkt := input[i];
      FilterStep(input, i, videoIndex);
      i := i + 1;
      if pkt.streamIndex != videoIndex {
        continue;
      }
      assert pkt == vids[frameIndex];
      var out := PreparePacket(pkt, frameIndex, inTb, outTb, rate);
      frameIndex := frameIndex + 1;
      // av_interleaved_write_frame: attempt number |written|
      if !WriteSucceeds(failAt, |written|) {
        break;
      }
      written := written + [out];
    }
    trailerWrites := trailerWrites + 1;
  }

  /**
   * What every relayed packet carries: the input's stream index, pos -1;
   * an untimed packet gets equal pts and dts; a timed one keeps its pts
   * and dts up to the change of time base.
   */
  lemma RelayedFacts(p: Packet, k: nat, inTb: Rational, outTb: Rational, rate: Rational)
    requires inTb.Valid() && outTb.Valid() && rate.Valid()
    ensures var r := Relayed(p, k, inTb, outTb, rate);
      && r.streamIndex == p.streamIndex && r.pos == -1
      && (p.pts == NOPTS ==>
            r.pts == r.dts == RescaleRnd(SynthPts(k, rate, inTb), inTb, outTb)
            && r.duration == Rescale(SynthDuration(rate, inTb), inTb, outTb))
      && (p.pts != NOPTS ==>
            r.pts == RescaleRnd(p.pts, inTb, outTb) && r.dts == RescaleRnd(p.dts, inTb, outTb)
            && r.duration == Rescale(p.duration, inTb, outTb))
  {
  }

  /**
   * For a video stream without timestamps, a later frame never gets an
   * earlier output pts (as long as the synthesized value stays below
   * INT64_MAX), and frame 0 is sent at pts 0.
   */
  lemma UntimedOrder(p1: Packet, k1: nat, p2: Packet, k2: nat, inTb: Rational, outTb: Rational, rate: Rational)
    requires inTb.Valid() && outTb.Valid() && rate.Valid()
    requires p1.pts == NOPTS && p2.pts == NOPTS && k1 <= k2
    requires SynthPts(k2, rate, inTb) < INT64_MAX
    ensures Relayed(p1, k1, inTb, outTb, rate).pts <= Relayed(p2, k2, inTb, outTb, rate).pts
    ensures k1 == 0 ==> Relayed(p1, k1, inTb, outTb, rate).pts == 0
  {
    SynthPtsMonotone(k1, k2, rate, inTb);
    RescaleRndMonotone(SynthPts(k1, rate, inTb), SynthPts(k2, rate, inTb), inTb, outTb);
    if k1 == 0 {
      DivNearInfExact(0, inTb.den * outTb.num);
    }
  }

  /**
   * When the frame duration is a whole number of input ticks and a tick of
   * the input is a whole number k of output ticks, consecutive untimed
   * frames are sent exactly one output frame duration apart.
   */
  lemma UntimedSpacing(p1: Packet, p2: Packet, n: nat, inTb: Rational, outTb: Rational, rate: Rational, k: int)
    requires inTb.Valid() && outTb.Valid() && rate.Valid() && k >= 1
    requires p1.pts == NOPTS && p2.pts == NOPTS
    requires (FrameDurationUs(rate) * inTb.den) % (inTb.num * AV_TIME_BASE) == 0
    requires inTb.num * outTb.den == k * (inTb.den * outTb.num)
    requires SynthPts(n + 1, rate, inTb) < INT64_MAX
    ensures var r1 := Relayed(p1, n, inTb, outTb, rate); var r2 := Relayed(p2, n + 1, inTb, outTb, rate);
            r2.pts == r1.pts + r1.duration
  {
    var a := SynthPts(n, rate, inTb);
    var b := SynthPts(n + 1, rate, inTb);
    var d := SynthDuration(rate, inTb);
    SynthPtsExact(n, rate, inTb);
    SynthPtsMonotone(n, n + 1, rate, inTb);
    assert b == a + d;
    ShiftRescaled(a, d, inTb, outTb, k);
    RelayedFacts(p1, n, inTb, outTb, rate);
    RelayedFacts(p2, n + 1, inTb, outTb, rate);
  }

  /** Under an integer tick ratio, rescaling a sum of two tick counts is the sum of the rescaled counts. */
  lemma ShiftRescaled(a: nat, d: nat, from: Rational, to: Rational, k: int)
    requires from.Valid() && to.Valid() && k >= 1
    requires from.num * to.den == k * (from.den * to.num)
    requires a + d < INT64_MAX
    ensures RescaleRnd(a + d, from, to) == RescaleRnd(a, from, to) + Rescale(d, from, to)
  {
    RescaleExact(a, from, to, k);
    RescaleExact(d, from, to, k);
    RescaleExact(a + d, from, to, k);
    assert (a + d) * k == a * k + d * k;
  }
}

/** The AVPacket fields the muxing loops read and write. */
module Packets {
  import opened TimeBase

  /** AV_NOPTS_VALUE, the "unset" timestamp, is INT64_MIN. */
  const NOPTS: int := INT64_MIN

  /**
   * A compressed packet as av_read_frame returns it and as
   * av_interleaved_write_frame receives it. The payload is opaque to the
   * loops and is not part of the model.
   */
  datatype Packet = Packet(streamIndex: int, pts: int, dts: int, duration: int, pos: int)

  datatype Option<T> = None | Some(value: T)

  /**
   * The writer (av_interleaved_write_frame) is modelled by the index of the
   * write attempt that fails, if any: attempt k succeeds iff failAt != Some(k).
   */
  predicate WriteSucceeds(failAt: Option<nat>, attempt: nat)
  {
    failAt != Some(attempt)
  }

  /** The packets of a sequence that carry stream index idx, in order. */
  function OfStream(written: seq<Packet>, idx: int): (r: seq<Packet>)
    ensures |r| <= |written|
  {
    if written == [] then []
    else OfStream(written[..|written| - 1], idx)
         + (if written[|written| - 1].streamIndex == idx then [written[|written| - 1]] else [])
  }

  lemma OfStreamAppend(written: seq<Packet>, p: Packet, idx: int)
    ensures OfStream(written + [p], idx) == OfStream(written, idx) + (if p.streamIndex == idx then [p] else [])
  {
    assert (written + [p])[..|written|] == written;
  }

  /** Filtering a prefix gives a prefix of the filtered sequence. */
  lemma {:induction false} OfStreamPrefix(ps: seq<Packet>, i: nat, idx: int)
    requires i <= |ps|
    ensures |OfStream(ps[..i], idx)| <= |OfStream(ps, idx)|
    ensures OfStream(ps[..i], idx) == OfStream(ps, idx)[..|OfStream(ps[..i], idx)|]
    decreases |ps|
  {
    if i < |ps| {
      var init := ps[..|ps| - 1];
      assert init[..i] == ps[..i];
      OfStreamPrefix(init, i, idx);
    } else {
      assert ps[..i] == ps;
    }
  }

  /** Every packet the filter keeps carries the index it filters for. */
  lemma {:induction false} OfStreamIndex(ps: seq<Packet>, idx: int)
    ensures forall j :: 0 <= j < |OfStream(ps, idx)| ==> OfStream(ps, idx)[j].streamIndex == idx
    decreases |ps|
  {
    if ps != [] {
      OfStreamIndex(ps[..|ps| - 1], idx);
    }
  }

  /** A sequence entirely on stream idx is kept whole; one with no packet on idx is dropped whole. */
  lemma {:induction false} OfStreamAllOrNone(ps: seq<Packet>, idx: int)
    ensures (forall j :: 0 <= j < |ps| ==> ps[j].streamIndex == idx) ==> OfStream(ps, idx) == ps
    ensures (forall j :: 0 <= j < |ps| ==> ps[j].streamIndex != idx) ==> OfStream(ps, idx) == []
    decreases |ps|
  {
    if ps != [] {
      var init := ps[..|ps| - 1];
      OfStreamAllOrNone(init, idx);
      assert init + [ps[|ps| - 1]] == ps;
    }
  }
}

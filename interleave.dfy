/**
 * The two-source interleaving loop shared by `do_muxing`
 * (src/mem_io_muxer.cpp) and `muxing` (src/muxer_core.cpp).
 *
 * Before every pull the loop compares the last pts seen on each input (each
 * in its own input time base) and reads from video when video is not later
 * than audio. A packet without pts gets pts and duration synthesized from
 * the per-stream frame counter; its pts before rescaling becomes that
 * stream's current pts; it is then retagged with the output stream index,
 * rescaled to the output time base and handed to the writer. The first
 * failed read of the selected input or the first failed write ends the
 * loop, and the trailer is written once.
 *
 * Each demuxer is the sequence of packets av_read_frame returns before it
 * first fails; the writer is the sequence of accepted packets together with
 * the index of the attempt that fails (Packets.WriteSucceeds).
 */
module Interleave {
  import opened TimeBase
  import opened Packets
  import opened Synthesis

  /** One input stream and the output stream it is copied to. */
  datatype Source = Source(packets: seq<Packet>, inTb: Rational, rate: Rational, outTb: Rational, outIndex: int)
  {
    predicate Valid() { inTb.Valid() && rate.Valid() && outTb.Valid() }
  }

  /** The whole session: both inputs and the writer's failure point. */
  datatype Config = Config(video: Source, audio: Source, failAt: Option<nat>)
  {
    /** The two output streams are distinct streams of one output context. */
    predicate Valid() { video.Valid() && audio.Valid() && video.outIndex != audio.outIndex }
  }

  // ---------------------------------------------------------------------
  // What happens to the i-th packet of one input, independently of how the
  // two inputs are interleaved.

  /** The value of the frame counter when packet i is processed: the number of earlier packets without pts. */
  function FrameIndexAt(packets: seq<Packet>, i: nat): (n: nat)
    requires i <= |packets|
    ensures n <= i
  {
    if i == 0 then 0
    else FrameIndexAt(packets, i - 1) + (if packets[i - 1].pts == NOPTS then 1 else 0)
  }

  /**
   * Synthesis for a packet without pts. `pkt->dts = pkt->dts` is a
   * self-assignment, so dts is left as read.
   */
  function Synthesize(p: Packet, frameIdx: nat, rate: Rational, inTb: Rational): (q: Packet)
    requires rate.Valid() && inTb.Valid()
    ensures q.pts != NOPTS
    ensures p.pts != NOPTS ==> q == p
    ensures q.dts == p.dts && q.streamIndex == p.streamIndex && q.pos == p.pos
  {
    if p.pts == NOPTS then
      p.(duration := SynthDuration(rate, inTb), pts := SynthPts(frameIdx, rate, inTb))
    else p
  }

  /** Packet i of the input after synthesis, still in the input time base. */
  function Prepared(src: Source, i: nat): (q: Packet)
    requires src.Valid() && i < |src.packets|
    ensures q.pts != NOPTS
    ensures src.packets[i].pts != NOPTS ==> q == src.packets[i]
    ensures q.dts == src.packets[i].dts
  {
    Synthesize(src.packets[i], FrameIndexAt(src.packets, i), src.rate, src.inTb)
  }

  /** Retag with the output stream and rescale pts, dts (pass-through) and duration. */
  function ToOutput(p: Packet, src: Source): (r: Packet)
    requires src.Valid()
    ensures r.streamIndex == src.outIndex && r.pos == p.pos
    ensures p.pts == NOPTS ==> r.pts == NOPTS
    ensures p.dts == NOPTS ==> r.dts == NOPTS
    ensures src.inTb == src.outTb && p.pts != INT64_MAX ==> r.pts == p.pts
  {
    assert src.inTb == src.outTb ==> Rescale(p.pts, src.inTb, src.outTb) == p.pts by {
      if src.inTb == src.outTb {
        RescaleExact(p.pts, src.inTb, src.outTb, 1);
      }
    }
    p.(streamIndex := src.outIndex,
       pts := RescaleRnd(p.pts, src.inTb, src.outTb),
       dts := RescaleRnd(p.dts, src.inTb, src.outTb),
       duration := Rescale(p.duration, src.inTb, src.outTb))
  }

  /** Packet i of the input as the writer receives it. */
  function Emitted(src: Source, i: nat): (e: Packet)
    requires src.Valid() && i < |src.packets|
    ensures e.streamIndex == src.outIndex && e.pos == src.packets[i].pos
    ensures src.packets[i].dts == NOPTS ==> e.dts == NOPTS
  {
    ToOutput(Prepared(src, i), src)
  }

  // ---------------------------------------------------------------------
  // The loop as a function of the session state.

  /** How the loop ended: it is still running, or a read or a write failed. */
  datatype Status = Running | ReadFailed | WriteFailed

  /** Per input: packets read so far, the frame counter and the current pts. */
  datatype Progress = Progress(read: nat, frameIdx: nat, curPts: int)

  datatype MuxState = MuxState(video: Progress, audio: Progress, written: seq<Packet>, status: Status)

  /** Both current pts and both counters start at 0. */
  function Init(): MuxState
  {
    MuxState(Progress(0, 0, 0), Progress(0, 0, 0), [], Running)
  }

  ghost predicate InBounds(cfg: Config, s: MuxState)
  {
    s.video.read <= |cfg.video.packets| && s.audio.read <= |cfg.audio.packets|
  }

  /** `av_compare_ts(cur_video_pts, tb_v, cur_audio_pts, tb_a) <= 0`. */
  predicate SelectsVideo(cfg: Config, s: MuxState)
    requires cfg.Valid()
  {
    CompareTs(s.video.curPts, cfg.video.inTb, s.audio.curPts, cfg.audio.inTb) <= 0
  }

  datatype PullResult = PullResult(progress: Progress, written: seq<Packet>, status: Status)

  /** One iteration on the selected input. */
  function Pull(src: Source, p: Progress, written: seq<Packet>, failAt: Option<nat>): (r: PullResult)
    requires src.Valid() && p.read <= |src.packets|
    ensures r.status == ReadFailed <==> p.read == |src.packets|
    ensures r.status == ReadFailed ==> r.progress == p && r.written == written
    ensures r.status != ReadFailed ==> r.progress.read == p.read + 1
    ensures r.status == Running <==> p.read < |src.packets| && WriteSucceeds(failAt, |written|)
    ensures r.status == Running ==>
              |r.written| == |written| + 1 && r.written[..|written|] == written
              && r.written[|written|].streamIndex == src.outIndex
    ensures r.status != Running ==> r.written == written
  {
    if p.read == |src.packets| then PullResult(p, written, ReadFailed)
    else
      var raw := src.packets[p.read];
      var q := Synthesize(raw, p.frameIdx, src.rate, src.inTb);
      var p' := Progress(p.read + 1, if raw.pts == NOPTS then p.frameIdx + 1 else p.frameIdx, q.pts);
      if WriteSucceeds(failAt, |written|) then PullResult(p', written + [ToOutput(q, src)], Running)
      else PullResult(p', written, WriteFailed)
  }

  function Step(cfg: Config, s: MuxState): (t: MuxState)
    requires cfg.Valid() && InBounds(cfg, s)
    ensures InBounds(cfg, t)
    ensures SelectsVideo(cfg, s) ==> t.audio == s.audio
    ensures !SelectsVideo(cfg, s) ==> t.video == s.video
    ensures t.status != Running ==> t.written == s.written
    ensures t.status == Running ==> |t.written| == |s.written| + 1 && t.written[..|s.written|] == s.written
  {
    if SelectsVideo(cfg, s) then
      var r := Pull(cfg.video, s.video, s.written, cfg.failAt);
      MuxState(r.progress, s.audio, r.written, r.status)
    else
      var r := Pull(cfg.audio, s.audio, s.written, cfg.failAt);
      MuxState(s.video, r.progress, r.written, r.status)
  }

  ghost function Measure(cfg: Config, s: MuxState): nat
    requires InBounds(cfg, s)
  {
    (|cfg.video.packets| - s.video.read) + (|cfg.audio.packets| - s.audio.read)
    + (if s.status == Running then 1 else 0)
  }

  lemma StepProgress(cfg: Config, s: MuxState)
    requires cfg.Valid() && InBounds(cfg, s) && s.status == Running
    ensures InBounds(cfg, Step(cfg, s))
    ensures Measure(cfg, Step(cfg, s)) < Measure(cfg, s)
  {
  }

  /** The loop run to completion from state s. */
  function Run(cfg: Config, s: MuxState): (r: MuxState)
    requires cfg.Valid() && InBounds(cfg, s)
    ensures r.status != Running && InBounds(cfg, r)
    ensures s.status != Running ==> r == s
    ensures |s.written| <= |r.written| && r.written[..|s.written|] == s.written
    decreases Measure(cfg, s)
  {
    if s.status != Running then s
    else
      StepProgress(cfg, s);
      Run(cfg, Step(cfg, s))
  }

  // ---------------------------------------------------------------------
  // The invariant of the loop and what it gives about the finished run.

  /**
   * What is true of one input at every iteration: the frame counter counts
   * the packets read so far that had no pts; the current pts is the
   * pre-rescale pts of the last packet read; the packets written to its
   * output stream are exactly its first packets as Emitted gives them, one
   * fewer than were read when its last packet was refused by the writer.
   */
  ghost predicate SourceInv(src: Source, p: Progress, written: seq<Packet>, lost: bool)
  {
    src.Valid()
    && p.read <= |src.packets|
    && p.frameIdx == FrameIndexAt(src.packets, p.read)
    && p.curPts == (if p.read == 0 then 0 else Prepared(src, p.read - 1).pts)
    && |OfStream(written, src.outIndex)| + (if lost then 1 else 0) == p.read
    && forall j :: 0 <= j < |OfStream(written, src.outIndex)| ==>
         OfStream(written, src.outIndex)[j] == Emitted(src, j)
  }

  ghost predicate Inv(cfg: Config, s: MuxState)
  {
    cfg.Valid()
    && (forall j :: 0 <= j < |s.written| ==>
          s.written[j].streamIndex == cfg.video.outIndex || s.written[j].streamIndex == cfg.audio.outIndex)
    && (s.status != WriteFailed ==>
          SourceInv(cfg.video, s.video, s.written, false) && SourceInv(cfg.audio, s.audio, s.written, false)
          && (forall k: nat :: k < |s.written| ==> WriteSucceeds(cfg.failAt, k))
          && (s.status == Running ==> WriteSucceeds(cfg.failAt, |s.written|) || cfg.failAt == Some(|s.written|)))
    && (s.status == WriteFailed ==>
          cfg.failAt == Some(|s.written|)
          && ((SourceInv(cfg.video, s.video, s.written, true) && SourceInv(cfg.audio, s.audio, s.written, false))
              || (SourceInv(cfg.video, s.video, s.written, false) && SourceInv(cfg.audio, s.audio, s.written, true))))
    && (s.status == ReadFailed ==>
          (SelectsVideo(cfg, s) ==> s.video.read == |cfg.video.packets|)
          && (!SelectsVideo(cfg, s) ==> s.audio.read == |cfg.audio.packets|))
  }

  lemma InitInv(cfg: Config)
    requires cfg.Valid()
    ensures Inv(cfg, Init())
  {
  }

  /** A successful or refused pull on src keeps src's invariant; the other input is untouched. */
  lemma PullKeeps(src: Source, other: Source, p: Progress, q: Progress, written: seq<Packet>, failAt: Option<nat>)
    requires src.outIndex != other.outIndex
    requires SourceInv(src, p, written, false) && SourceInv(other, q, written, false)
    requires p.read < |src.packets|
    ensures var r := Pull(src, p, written, failAt);
            && SourceInv(other, q, r.written, false)
            && SourceInv(src, r.progress, r.written, r.status == WriteFailed)
            && (r.status == Running ==> r.written == written + [Emitted(src, p.read)])
            && (r.status != Running ==> r.written == written)
  {
    var r := Pull(src, p, written, failAt);
    var out := Emitted(src, p.read);
    assert Prepared(src, p.read) == Synthesize(src.packets[p.read], p.frameIdx, src.rate, src.inTb);
    if r.status == Running {
      assert r.written == written + [out];
      OfStreamAppend(written, out, src.outIndex);
      OfStreamAppend(written, out, other.outIndex);
      assert OfStream(r.written, src.outIndex) == OfStream(written, src.outIndex) + [out];
      assert OfStream(r.written, other.outIndex) == OfStream(written, other.outIndex);
    }
  }

  lemma StepKeepsInv(cfg: Config, s: MuxState)
    requires Inv(cfg, s) && s.status == Running
    ensures InBounds(cfg, Step(cfg, s)) && Inv(cfg, Step(cfg, s))
  {
    var t := Step(cfg, s);
    if SelectsVideo(cfg, s) {
      if s.video.read < |cfg.video.packets| {
        PullKeeps(cfg.video, cfg.audio, s.video, s.audio, s.written, cfg.failAt);
      }
    } else {
      if s.audio.read < |cfg.audio.packets| {
        PullKeeps(cfg.audio, cfg.video, s.audio, s.video, s.written, cfg.failAt);
      }
    }
    assert t.video == s.video || t.audio == s.audio;
  }

  lemma {:induction false} RunKeepsInv(cfg: Config, s: MuxState)
    requires Inv(cfg, s) && InBounds(cfg, s)
    ensures Inv(cfg, Run(cfg, s)) && Run(cfg, s).status != Running
    decreases Measure(cfg, s)
  {
    if s.status == Running {
      StepKeepsInv(cfg, s);
      StepProgress(cfg, s);
      RunKeepsInv(cfg, Step(cfg, s));
    }
  }

  /**
   * The first attempted read is always video: both current pts start at 0,
   * the comparison is a tie and ties go to video.
   */
  lemma FirstPullIsVideo(cfg: Config)
    requires cfg.Valid()
    ensures SelectsVideo(cfg, Init())
    ensures Step(cfg, Init()).audio == Init().audio
    ensures Step(cfg, Init()).video.read == (if cfg.video.packets == [] then 0 else 1)
  {
    CompareZeroTie(cfg.video.inTb, cfg.audio.inTb);
  }

  /**
   * Each iteration pulls from video exactly when the video position, in
   * seconds, is not later than the audio position, and from audio
   * otherwise; the other input is left alone, and the iteration ends the
   * loop with a read failure exactly when the selected input is exhausted.
   */
  lemma StepSelectsBySeconds(cfg: Config, s: MuxState)
    requires cfg.Valid() && InBounds(cfg, s) && s.status == Running
    ensures SelectsVideo(cfg, s)
            <==> Seconds(s.video.curPts, cfg.video.inTb) <= Seconds(s.audio.curPts, cfg.audio.inTb)
    ensures var t := Step(cfg, s);
            SelectsVideo(cfg, s) ==>
              t.audio == s.audio && t.video.read == s.video.read + (if s.video.read < |cfg.video.packets| then 1 else 0)
              && (t.status == ReadFailed <==> s.video.read == |cfg.video.packets|)
    ensures var t := Step(cfg, s);
            !SelectsVideo(cfg, s) ==>
              t.video == s.video && t.audio.read == s.audio.read + (if s.audio.read < |cfg.audio.packets| then 1 else 0)
              && (t.status == ReadFailed <==> s.audio.read == |cfg.audio.packets|)
  {
  }

  /**
   * The finished run: it stops only at the first failed read of the input
   * that was selected or at the first refused write; every written packet
   * carries one of the two output stream indexes; the packets written to an
   * output stream are exactly the first packets of its input, in read order,
   * synthesized and rescaled as Emitted says; the frame counters and current
   * pts are those of the last packet read.
   */
  lemma MuxOutcome(cfg: Config)
    requires cfg.Valid()
    ensures var r := Run(cfg, Init());
      && r.status != Running
      && (r.status == ReadFailed ==>
            (SelectsVideo(cfg, r) ==> r.video.read == |cfg.video.packets|)
            && (!SelectsVideo(cfg, r) ==> r.audio.read == |cfg.audio.packets|)
            && |r.written| == r.video.read + r.audio.read
            && forall k: nat :: k < |r.written| ==> WriteSucceeds(cfg.failAt, k))
      && (r.status == WriteFailed ==>
            cfg.failAt == Some(|r.written|) && |r.written| + 1 == r.video.read + r.audio.read)
      && (forall j :: 0 <= j < |r.written| ==>
            r.written[j].streamIndex == cfg.video.outIndex || r.written[j].streamIndex == cfg.audio.outIndex)
      && r.video.read <= |cfg.video.packets| && r.audio.read <= |cfg.audio.packets|
      && |OfStream(r.written, cfg.video.outIndex)| <= r.video.read <= |OfStream(r.written, cfg.video.outIndex)| + 1
      && |OfStream(r.written, cfg.audio.outIndex)| <= r.audio.read <= |OfStream(r.written, cfg.audio.outIndex)| + 1
      && (forall j :: 0 <= j < |OfStream(r.written, cfg.video.outIndex)| ==>
            OfStream(r.written, cfg.video.outIndex)[j] == Emitted(cfg.video, j))
      && (forall j :: 0 <= j < |OfStream(r.written, cfg.audio.outIndex)| ==>
            OfStream(r.written, cfg.audio.outIndex)[j] == Emitted(cfg.audio, j))
      && r.video.frameIdx == FrameIndexAt(cfg.video.packets, r.video.read)
      && r.audio.frameIdx == FrameIndexAt(cfg.audio.packets, r.audio.read)
      && r.video.curPts == (if r.video.read == 0 then 0 else Prepared(cfg.video, r.video.read - 1).pts)
      && r.audio.curPts == (if r.audio.read == 0 then 0 else Prepared(cfg.audio, r.audio.read - 1).pts)
  {
    InitInv(cfg);
    RunKeepsInv(cfg, Init());
    var r := Run(cfg, Init());
    PartitionCount(r.written, cfg.video.outIndex, cfg.audio.outIndex);
  }

  /** Written packets of two distinct streams split the written sequence. */
  lemma {:induction false} PartitionCount(written: seq<Packet>, v: int, a: int)
    requires v != a
    requires forall j :: 0 <= j < |written| ==> written[j].streamIndex == v || written[j].streamIndex == a
    ensures |OfStream(written, v)| + |OfStream(written, a)| == |written|
  {
    if written != [] {
      PartitionCount(written[..|written| - 1], v, a);
    }
  }

  // ---------------------------------------------------------------------
  // Per-packet facts.

  /**
   * Synthesis happens exactly for packets without pts: such a packet gets
   * the pts of its frame counter and one frame duration, and keeps its dts;
   * any other packet passes unchanged. Either way the pts afterwards is set.
   */
  lemma PreparedFacts(src: Source, i: nat)
    requires src.Valid() && i < |src.packets|
    ensures var raw := src.packets[i]; var q := Prepared(src, i);
      && (raw.pts == NOPTS ==>
            q.pts == SynthPts(FrameIndexAt(src.packets, i), src.rate, src.inTb)
            && q.duration == SynthDuration(src.rate, src.inTb)
            && q.dts == raw.dts && q.streamIndex == raw.streamIndex)
      && (raw.pts != NOPTS ==> q == raw)
      && q.pts != NOPTS
  {
  }

  /**
   * When the input carries no timestamps at all, the counter of packet i is
   * i, so packet 0 gets pts 0 and the pts never decrease along the input.
   */
  lemma {:induction false} UntimedInput(src: Source, i: nat, j: nat)
    requires src.Valid() && i <= j < |src.packets|
    requires forall k :: 0 <= k < |src.packets| ==> src.packets[k].pts == NOPTS
    ensures FrameIndexAt(src.packets, j) == j
    ensures Prepared(src, 0).pts == 0
    ensures Prepared(src, i).pts <= Prepared(src, j).pts
  {
    AllUntimedCount(src.packets, i);
    AllUntimedCount(src.packets, j);
    SynthPtsMonotone(i, j, src.rate, src.inTb);
  }

  /**
   * The counter reaches its bound i exactly when every packet before i
   * lacked a pts, and stays 0 exactly when every packet before i had one.
   */
  lemma {:induction false} FrameIndexCounts(packets: seq<Packet>, i: nat)
    requires i <= |packets|
    ensures FrameIndexAt(packets, i) == i <==> forall k :: 0 <= k < i ==> packets[k].pts == NOPTS
    ensures FrameIndexAt(packets, i) == 0 <==> forall k :: 0 <= k < i ==> packets[k].pts != NOPTS
  {
    if i > 0 {
      FrameIndexCounts(packets, i - 1);
    }
  }

  lemma {:induction false} AllUntimedCount(packets: seq<Packet>, i: nat)
    requires i <= |packets|
    requires forall k :: 0 <= k < |packets| ==> packets[k].pts == NOPTS
    ensures FrameIndexAt(packets, i) == i
  {
    if i > 0 {
      AllUntimedCount(packets, i - 1);
    }
  }

  /**
   * Every written packet carries its output stream index, its pts is the
   * rescaled pre-rescale pts (set, so never the sentinel unless the input
   * had INT64_MAX), and an unset dts stays unset after rescaling.
   */
  lemma EmittedFacts(src: Source, i: nat)
    requires src.Valid() && i < |src.packets|
    ensures var e := Emitted(src, i); var q := Prepared(src, i);
      && e.streamIndex == src.outIndex
      && e.pts == RescaleRnd(q.pts, src.inTb, src.outTb)
      && (src.packets[i].dts == NOPTS ==> e.dts == NOPTS)
      && e.duration == Rescale(q.duration, src.inTb, src.outTb)
      && e.pos == src.packets[i].pos
  {
    PreparedFacts(src, i);
  }

  // ---------------------------------------------------------------------
  // The loop itself, with the session globals as fields.

  class Session {
    const cfg: Config
    /** Demuxer positions: how many packets av_read_frame has returned. */
    var videoRead: nat
    var audioRead: nat
    var curVideoPts: int
    var curAudioPts: int
    var videoFrameIdx: nat
    var audioFrameIdx: nat
    /** What the writer has accepted, and how often the trailer was written. */
    var written: seq<Packet>
    var trailerWrites: nat

    ghost predicate Valid()
      reads this
    {
      cfg.Valid() && videoRead <= |cfg.video.packets| && audioRead <= |cfg.audio.packets|
    }

    ghost function State(status: Status): MuxState
      reads this
    {
      MuxState(Progress(videoRead, videoFrameIdx, curVideoPts),
               Progress(audioRead, audioFrameIdx, curAudioPts), written, status)
    }

    constructor (config: Config)
      requires config.Valid()
      ensures Valid() && cfg == config && State(Running) == Init() && trailerWrites == 0
    {
      cfg := config;
      videoRead, audioRead := 0, 0;
      curVideoPts, curAudioPts := 0, 0;
      videoFrameIdx, audioFrameIdx := 0, 0;
      written := [];
      trailerWrites := 0;
    }

    /** av_read_frame on the video input. */
    method ReadVideo() returns (ok: bool, pkt: Packet)
      requires Valid()
      modifies this`videoRead
      ensures Valid()
      ensures ok == (old(videoRead) < |cfg.video.packets|)
      ensures ok ==> videoRead == old(videoRead) + 1 && pkt == cfg.video.packets[old(videoRead)]
      ensures !ok ==> videoRead == old(videoRead)
    {
      ok := videoRead < |cfg.video.packets|;
      if ok {
        pkt := cfg.video.packets[videoRead];
        videoRead := videoRead + 1;
      } else {
        pkt := Packet(0, NOPTS, NOPTS, 0, -1);
      }
    }

    /** av_read_frame on the audio input. */
    method ReadAudio() returns (ok: bool, pkt: Packet)
      requires Valid()
      modifies this`audioRead
      ensures Valid()
      ensures ok == (old(audioRead) < |cfg.audio.packets|)
      ensures ok ==> audioRead == old(audioRead) + 1 && pkt == cfg.audio.packets[old(audioRead)]
      ensures !ok ==> audioRead == old(audioRead)
    {
      ok := audioRead < |cfg.audio.packets|;
      if ok {
        pkt := cfg.audio.packets[audioRead];
        audioRead := audioRead + 1;
      } else {
        pkt := Packet(0, NOPTS, NOPTS, 0, -1);
      }
    }

    /** av_interleaved_write_frame: accepted unless this is the failing attempt. */
    method WriteFrame(pkt: Packet) returns (ok: bool)
      modifies this`written
      ensures ok == WriteSucceeds(cfg.failAt, |old(written)|)
      ensures written == if ok then old(written) + [pkt] else old(written)
    {
      ok := WriteSucceeds(cfg.failAt, |written|);
      if ok {
        written := written + [pkt];
      }
    }

    /** av_write_trailer. */
    method WriteTrailer()
      modifies this`trailerWrites
      ensures trailerWrites == old(trailerWrites) + 1
    {
      trailerWrites := trailerWrites + 1;
    }

    /** One pass of the loop body, up to the `break` or the next iteration. */
    method Iterate() returns (status: Status)
      requires Valid()
      modifies this`videoRead, this`audioRead, this`curVideoPts, this`curAudioPts,
               this`videoFrameIdx, this`audioFrameIdx, this`written
      ensures Valid()
      ensures InBounds(cfg, old(State(Running))) && State(status) == Step(cfg, old(State(Running)))
    {
      var pkt: Packet;
      var src: Source;
      var ok: bool;
      if CompareTs(curVideoPts, cfg.video.inTb, curAudioPts, cfg.audio.inTb) <= 0 {
        src := cfg.video;
        ok, pkt := ReadVideo();
        if !ok {
          return ReadFailed;
        }
        if pkt.pts == NOPTS {
          pkt := pkt.(duration := SynthDuration(src.rate, src.inTb));
          pkt := pkt.(pts := SynthPts(videoFrameIdx, src.rate, src.inTb));
          // pkt->dts = pkt->dts: dts is not touched
          videoFrameIdx := videoFrameIdx + 1;
        }
        curVideoPts := pkt.pts;
        pkt := pkt.(streamIndex := src.outIndex);
      } else {
        src := cfg.audio;
        ok, pkt := ReadAudio();
        if !ok {
          return ReadFailed;
        }
        if pkt.pts == NOPTS {
          pkt := pkt.(duration := SynthDuration(src.rate, src.inTb));
          pkt := pkt.(pts := SynthPts(audioFrameIdx, src.rate, src.inTb));
          audioFrameIdx := audioFrameIdx + 1;
        }
        curAudioPts := pkt.pts;
        pkt := pkt.(streamIndex := src.outIndex);
      }
      pkt := pkt.(pts := RescaleRnd(pkt.pts, src.inTb, src.outTb));
      pkt := pkt.(dts := RescaleRnd(pkt.dts, src.inTb, src.outTb));
      pkt := pkt.(duration := Rescale(pkt.duration, src.inTb, src.outTb));
      ok := WriteFrame(pkt);
      status := if ok then Running else WriteFailed;
    }

    /**
     * The `while (1)` loop: its final state is the run of the loop function
     * from the initial state, and the trailer is written exactly once.
     */
    method Mux()
      requires Valid() && State(Running) == Init() && trailerWrites == 0
      modifies this
      ensures Valid()
      ensures var r := Run(cfg, Init()); State(r.status) == r
      ensures trailerWrites == 1
    {
      ghost var stop := Running;
      while true
        invariant Valid() && InBounds(cfg, State(Running))
        invariant Run(cfg, State(Running)) == Run(cfg, Init())
        invariant trailerWrites == 0
        decreases Measure(cfg, State(Running))
      {
        ghost var before := State(Running);
        StepProgress(cfg, before);
        var status := Iterate();
        if status != Running {
          stop := status;
          break;
        }
      }
      assert Run(cfg, State(stop)) == State(stop);
      WriteTrailer();
    }
  }
}

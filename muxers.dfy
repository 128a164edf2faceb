/**
 * The two programs that run the interleaving loop, with the output streams
 * their setup code creates: stream 0 is video and stream 1 is audio (added
 * in that order to a fresh output context), the audio output time base is
 * 1/sample_rate, and the video output time base is 1/90000 in
 * src/mem_io_muxer.cpp and 1/25 in src/muxer_core.cpp. Both programs write
 * the header first and run the loop only when that succeeds.
 */
module MemIoMuxer {
  import opened TimeBase
  import opened Packets
  import opened Synthesis
  import opened Interleave

  const OUT_VIDEO_INDEX: int := 0
  const OUT_AUDIO_INDEX: int := 1
  const VIDEO_OUT_TB: Rational := Rational(1, 90000)

  /** The video input and the output stream it is copied to. */
  function VideoSource(video: seq<Packet>, inVideoTb: Rational, videoRate: Rational): Source
  {
    Source(video, inVideoTb, videoRate, VIDEO_OUT_TB, OUT_VIDEO_INDEX)
  }

  function SessionConfig(video: seq<Packet>, audio: seq<Packet>, inVideoTb: Rational, inAudioTb: Rational,
                         videoRate: Rational, audioRate: Rational, sampleRate: int, failAt: Option<nat>): (cfg: Config)
    requires inVideoTb.Valid() && inAudioTb.Valid() && videoRate.Valid() && audioRate.Valid() && sampleRate > 0
    ensures cfg.Valid()
  {
    Config(VideoSource(video, inVideoTb, videoRate),
           Source(audio, inAudioTb, audioRate, Rational(1, sampleRate), OUT_AUDIO_INDEX),
           failAt)
  }

  /**
   * do_muxing over the packets the two memory-backed demuxers deliver. When
   * `avformat_write_header` fails (headerOk false) it returns at once:
   * nothing is written and no trailer. Otherwise every written packet is
   * on output stream 0 or 1; stream 0 receives the first video packets in
   * order, synthesized and rescaled to 1/90000, stream 1 the first audio
   * packets rescaled to 1/sample_rate; the trailer is written once.
   */
  method DoMuxing(video: seq<Packet>, audio: seq<Packet>, inVideoTb: Rational, inAudioTb: Rational,
                  videoRate: Rational, audioRate: Rational, sampleRate: int, headerOk: bool, failAt: Option<nat>)
    returns (written: seq<Packet>, trailerWrites: nat)
    requires inVideoTb.Valid() && inAudioTb.Valid() && videoRate.Valid() && audioRate.Valid() && sampleRate > 0
    ensures headerOk ==>
              var cfg := SessionConfig(video, audio, inVideoTb, inAudioTb, videoRate, audioRate, sampleRate, failAt);
              written == Run(cfg, Init()).written
    ensures !headerOk ==> written == []
    ensures trailerWrites == (if headerOk then 1 else 0)
    ensures forall j :: 0 <= j < |written| ==>
              written[j].streamIndex == OUT_VIDEO_INDEX || written[j].streamIndex == OUT_AUDIO_INDEX
    ensures |OfStream(written, OUT_VIDEO_INDEX)| <= |video| && |OfStream(written, OUT_AUDIO_INDEX)| <= |audio|
    ensures forall j :: 0 <= j < |OfStream(written, OUT_VIDEO_INDEX)| ==>
              var p := OfStream(written, OUT_VIDEO_INDEX)[j];
              var src := VideoSource(video, inVideoTb, videoRate);
              p == Emitted(src, j) && p.pts == RescaleRnd(Prepared(src, j).pts, inVideoTb, VIDEO_OUT_TB)
    ensures forall j :: 0 <= j < |OfStream(written, OUT_AUDIO_INDEX)| ==>
              var p := OfStream(written, OUT_AUDIO_INDEX)[j];
              var src := Source(audio, inAudioTb, audioRate, Rational(1, sampleRate), OUT_AUDIO_INDEX);
              p == Emitted(src, j) && p.pts == RescaleRnd(Prepared(src, j).pts, inAudioTb, Rational(1, sampleRate))
  {
    if !headerOk {
      return [], 0;
    }
    var cfg := SessionConfig(video, audio, inVideoTb, inAudioTb, videoRate, audioRate, sampleRate, failAt);
    var session := new Session(cfg);
    session.Mux();
    written, trailerWrites := session.written, session.trailerWrites;
    MuxOutcome(cfg);
  }

  /**
   * A video input without timestamps at fps frames per second, with fps
   * dividing both 1e6 and 90000: when a frame is a whole number of input
   * ticks (exact arithmetic), video packet j is written at 90000 / fps * j,
   * e.g. 3600 * j at 25 fps.
   */
  lemma UntimedVideoPts(video: seq<Packet>, inVideoTb: Rational, fps: int, j: nat)
    requires inVideoTb.Valid() && j < |video|
    requires fps > 0 && AV_TIME_BASE % fps == 0 && 90000 % fps == 0
    requires forall k :: 0 <= k < |video| ==> video[k].pts == NOPTS
    requires (FrameDurationUs(Rational(fps, 1)) * inVideoTb.den) % (inVideoTb.num * AV_TIME_BASE) == 0
    requires SynthPts(j, Rational(fps, 1), inVideoTb) < INT64_MAX
    ensures Emitted(VideoSource(video, inVideoTb, Rational(fps, 1)), j).pts == (90000 / fps) * j
  {
    var src := VideoSource(video, inVideoTb, Rational(fps, 1));
    UntimedInput(src, j, j);
    PreparedFacts(src, j);
    EmittedFacts(src, j);
    UntimedFrameTicks(j, fps, inVideoTb, 90000);
  }

  // -------------------------------------------------------------------
  // A worked run: video at 0, 3600, 7200 in 1/90000 (0, 40, 80 ms) and
  // audio at 0, 1024, 2048 in 1/48000 (0, 21.3, 42.7 ms).

  function WorkedVideo(): seq<Packet>
  {
    [Packet(0, 0, 0, 3600, 0), Packet(0, 3600, 3600, 3600, 1), Packet(0, 7200, 7200, 3600, 2)]
  }

  function WorkedAudio(): seq<Packet>
  {
    [Packet(0, 0, 0, 1024, 0), Packet(0, 1024, 1024, 1024, 1), Packet(0, 2048, 2048, 1024, 2)]
  }

  function WorkedConfig(): (cfg: Config)
    ensures cfg.Valid()
  {
    SessionConfig(WorkedVideo(), WorkedAudio(), Rational(1, 90000), Rational(1, 48000),
                  Rational(25, 1), Rational(48000, 1024), 48000, None)
  }

  /** The packets as written: equal time bases leave every value alone; audio is retagged as stream 1. */
  function WorkedOutput(): seq<Packet>
  {
    [Packet(0, 0, 0, 3600, 0), Packet(0, 3600, 3600, 3600, 1), Packet(1, 0, 0, 1024, 0),
     Packet(1, 1024, 1024, 1024, 1), Packet(1, 2048, 2048, 1024, 2), Packet(0, 7200, 7200, 3600, 2)]
  }

  /** The loop state after k iterations of the worked run. */
  function WorkedState(k: nat): MuxState
    requires k <= 7
  {
    var out := WorkedOutput();
    if k == 0 then Init()
    else if k == 1 then MuxState(Progress(1, 0, 0), Progress(0, 0, 0), out[..1], Running)
    else if k == 2 then MuxState(Progress(2, 0, 3600), Progress(0, 0, 0), out[..2], Running)
    else if k == 3 then MuxState(Progress(2, 0, 3600), Progress(1, 0, 0), out[..3], Running)
    else if k == 4 then MuxState(Progress(2, 0, 3600), Progress(2, 0, 1024), out[..4], Running)
    else if k == 5 then MuxState(Progress(2, 0, 3600), Progress(3, 0, 2048), out[..5], Running)
    else if k == 6 then MuxState(Progress(3, 0, 7200), Progress(3, 0, 2048), out, Running)
    else MuxState(Progress(3, 0, 7200), Progress(3, 0, 2048), out, ReadFailed)
  }

  /** Each iteration of the worked run moves from one listed state to the next. */
  lemma WorkedStep(cfg: Config, k: nat)
    requires cfg == WorkedConfig() && k < 7
    ensures InBounds(cfg, WorkedState(k))
    ensures Step(cfg, WorkedState(k)) == WorkedState(k + 1)
  {
    var out := WorkedOutput();
    if k == 0 {
      RescaleSame(0, cfg.video.inTb);
      RescaleSame(3600, cfg.video.inTb);
    } else if k == 1 {
      RescaleSame(3600, cfg.video.inTb);
      assert out[..2] == out[..1] + [out[1]];
    } else if k == 2 {
      RescaleSame(0, cfg.audio.inTb);
      RescaleSame(1024, cfg.audio.inTb);
      assert out[..3] == out[..2] + [out[2]];
    } else if k == 3 {
      RescaleSame(1024, cfg.audio.inTb);
      assert out[..4] == out[..3] + [out[3]];
    } else if k == 4 {
      RescaleSame(2048, cfg.audio.inTb);
      RescaleSame(1024, cfg.audio.inTb);
      assert out[..5] == out[..4] + [out[4]];
    } else if k == 5 {
      RescaleSame(7200, cfg.video.inTb);
      RescaleSame(3600, cfg.video.inTb);
      assert out == out[..5] + [out[5]];
    }
  }

  /** The whole worked run: from the initial state to the last listed one. */
  lemma WorkedRun(cfg: Config)
    requires cfg == WorkedConfig()
    ensures InBounds(cfg, Init()) && Run(cfg, Init()) == WorkedState(7)
  {
    WorkedStep(cfg, 6);
    RunThrough(cfg, WorkedState(6), WorkedState(7));
    WorkedStep(cfg, 5);
    RunThrough(cfg, WorkedState(5), WorkedState(6));
    WorkedStep(cfg, 4);
    RunThrough(cfg, WorkedState(4), WorkedState(5));
    WorkedStep(cfg, 3);
    RunThrough(cfg, WorkedState(3), WorkedState(4));
    WorkedStep(cfg, 2);
    RunThrough(cfg, WorkedState(2), WorkedState(3));
    WorkedStep(cfg, 1);
    RunThrough(cfg, WorkedState(1), WorkedState(2));
    WorkedStep(cfg, 0);
    RunThrough(cfg, WorkedState(0), WorkedState(1));
  }

  /** A run that takes one iteration from s to t ends where the run from t ends. */
  lemma RunThrough(cfg: Config, s: MuxState, t: MuxState)
    requires cfg.Valid() && InBounds(cfg, s) && s.status == Running && Step(cfg, s) == t
    ensures InBounds(cfg, t) && Run(cfg, s) == Run(cfg, t)
  {
  }

  /** The last listed state: audio is selected and exhausted. */
  lemma WorkedFinal(cfg: Config)
    requires cfg == WorkedConfig()
    ensures var r := WorkedState(7);
            && r.status == ReadFailed && !SelectsVideo(cfg, r)
            && r.video.read == 3 && r.audio.read == 3
            && |r.written| == 6
            && [r.written[0].streamIndex, r.written[1].streamIndex, r.written[2].streamIndex,
                r.written[3].streamIndex, r.written[4].streamIndex, r.written[5].streamIndex] == [0, 0, 1, 1, 1, 0]
            && [r.written[0].pts, r.written[1].pts, r.written[2].pts,
                r.written[3].pts, r.written[4].pts, r.written[5].pts] == [0, 3600, 0, 1024, 2048, 7200]
  {
    assert CompareTs(7200, Rational(1, 90000), 2048, Rational(1, 48000)) == 1;
  }

  /**
   * The loop writes V0, then V1 (video's current pts is still 0 after V0
   * and ties go to video), then A0, A1, A2, then V2 (40 ms is not later
   * than 42.7 ms), and stops when it selects audio, which is exhausted.
   * V1 (40 ms) is written before A0 (0 ms): the written sequence is not in
   * time order even for dense, in-order inputs.
   */
  lemma WorkedInterleaving(cfg: Config)
    requires cfg == WorkedConfig()
    ensures var r := Run(cfg, Init());
            && r.status == ReadFailed && !SelectsVideo(cfg, r)
            && r.video.read == 3 && r.audio.read == 3
            && |r.written| == 6
            && [r.written[0].streamIndex, r.written[1].streamIndex, r.written[2].streamIndex,
                r.written[3].streamIndex, r.written[4].streamIndex, r.written[5].streamIndex] == [0, 0, 1, 1, 1, 0]
            && [r.written[0].pts, r.written[1].pts, r.written[2].pts,
                r.written[3].pts, r.written[4].pts, r.written[5].pts] == [0, 3600, 0, 1024, 2048, 7200]
  {
    WorkedRun(cfg);
    WorkedFinal(cfg);
  }

  /** Rescaling between equal time bases changes nothing. */
  lemma RescaleSame(x: int, tb: Rational)
    requires tb.Valid()
    ensures Rescale(x, tb, tb) == x
  {
    RescaleExact(x, tb, tb, 1);
  }
}

module MuxerCore {
  import opened TimeBase
  import opened Packets
  import opened Synthesis
  import opened Interleave

  /** STREAM_FRAME_RATE: the video output time base is 1/25. */
  const STREAM_FRAME_RATE: int := 25
  const OUT_VIDEO_INDEX: int := 0
  const OUT_AUDIO_INDEX: int := 1

  /** The video input and the output stream it is copied to. */
  function VideoSource(video: seq<Packet>, inVideoTb: Rational, videoRate: Rational): Source
  {
    Source(video, inVideoTb, videoRate, Rational(1, STREAM_FRAME_RATE), OUT_VIDEO_INDEX)
  }

  function SessionConfig(video: seq<Packet>, audio: seq<Packet>, inVideoTb: Rational, inAudioTb: Rational,
                         videoRate: Rational, audioRate: Rational, sampleRate: int, failAt: Option<nat>): (cfg: Config)
    requires inVideoTb.Valid() && inAudioTb.Valid() && videoRate.Valid() && audioRate.Valid() && sampleRate > 0
    ensures cfg.Valid()
  {
    Config(VideoSource(video, inVideoTb, videoRate),
           Source(audio, inAudioTb, audioRate, Rational(1, sampleRate), OUT_AUDIO_INDEX),
           failAt)
  }

  /**
   * muxing: the same loop with video written in 1/25. After a failed
   * header write nothing is written and no trailer. Otherwise the loop
   * ends at a read failure of the selected input or at the first refused
   * write, and the trailer is written once.
   */
  method Muxing(video: seq<Packet>, audio: seq<Packet>, inVideoTb: Rational, inAudioTb: Rational,
                videoRate: Rational, audioRate: Rational, sampleRate: int, headerOk: bool, failAt: Option<nat>)
    returns (written: seq<Packet>, trailerWrites: nat)
    requires inVideoTb.Valid() && inAudioTb.Valid() && videoRate.Valid() && audioRate.Valid() && sampleRate > 0
    ensures headerOk ==>
              var cfg := SessionConfig(video, audio, inVideoTb, inAudioTb, videoRate, audioRate, sampleRate, failAt);
              written == Run(cfg, Init()).written
    ensures !headerOk ==> written == []
    ensures trailerWrites == (if headerOk then 1 else 0)
    ensures failAt.Some? ==> |written| <= failAt.value
    ensures |written| <= |video| + |audio|
    ensures |OfStream(written, OUT_VIDEO_INDEX)| <= |video| && |OfStream(written, OUT_AUDIO_INDEX)| <= |audio|
    ensures forall j :: 0 <= j < |OfStream(written, OUT_VIDEO_INDEX)| ==>
              var p := OfStream(written, OUT_VIDEO_INDEX)[j];
              var src := VideoSource(video, inVideoTb, videoRate);
              p == Emitted(src, j) && p.streamIndex == OUT_VIDEO_INDEX
              && p.pts == RescaleRnd(Prepared(src, j).pts, inVideoTb, Rational(1, STREAM_FRAME_RATE))
              && p.duration == Rescale(Prepared(src, j).duration, inVideoTb, Rational(1, STREAM_FRAME_RATE))
    ensures forall j :: 0 <= j < |OfStream(written, OUT_AUDIO_INDEX)| ==>
              var p := OfStream(written, OUT_AUDIO_INDEX)[j];
              var src := Source(audio, inAudioTb, audioRate, Rational(1, sampleRate), OUT_AUDIO_INDEX);
              p == Emitted(src, j) && p.streamIndex == OUT_AUDIO_INDEX
              && p.pts == RescaleRnd(Prepared(src, j).pts, inAudioTb, Rational(1, sampleRate))
  {
    if !headerOk {
      return [], 0;
    }
    var cfg := SessionConfig(video, audio, inVideoTb, inAudioTb, videoRate, audioRate, sampleRate, failAt);
    var session := new Session(cfg);
    session.Mux();
    written, trailerWrites := session.written, session.trailerWrites;
    MuxOutcome(cfg);
    forall j | 0 <= j < |OfStream(written, OUT_VIDEO_INDEX)|
      ensures OfStream(written, OUT_VIDEO_INDEX)[j].streamIndex == OUT_VIDEO_INDEX
    {
      EmittedFacts(cfg.video, j);
    }
    forall j | 0 <= j < |OfStream(written, OUT_AUDIO_INDEX)|
      ensures OfStream(written, OUT_AUDIO_INDEX)[j].streamIndex == OUT_AUDIO_INDEX
    {
      EmittedFacts(cfg.audio, j);
    }
    assert failAt.Some? && failAt.value < |written| ==> !WriteSucceeds(failAt, failAt.value);
  }

  /**
   * What the 1/25 video time base is for: a video input without
   * timestamps at STREAM_FRAME_RATE frames per second, with a frame a whole
   * number of input ticks (exact arithmetic), has video packet j written
   * at output tick j, one tick per frame.
   */
  lemma UntimedVideoOneTickPerFrame(video: seq<Packet>, inVideoTb: Rational, j: nat)
    requires inVideoTb.Valid() && j < |video|
    requires forall k :: 0 <= k < |video| ==> video[k].pts == NOPTS
    requires (FrameDurationUs(Rational(STREAM_FRAME_RATE, 1)) * inVideoTb.den) % (inVideoTb.num * AV_TIME_BASE) == 0
    requires SynthPts(j, Rational(STREAM_FRAME_RATE, 1), inVideoTb) < INT64_MAX
    ensures Emitted(VideoSource(video, inVideoTb, Rational(STREAM_FRAME_RATE, 1)), j).pts == j
  {
    var src := VideoSource(video, inVideoTb, Rational(STREAM_FRAME_RATE, 1));
    UntimedInput(src, j, j);
    PreparedFacts(src, j);
    EmittedFacts(src, j);
    UntimedFrameTicks(j, STREAM_FRAME_RATE, inVideoTb, STREAM_FRAME_RATE);
  }
}

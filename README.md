# simple_ffmpeg_demo: packet bookkeeping, modelled in Dafny

This project models the logic that the demo programs of simple_ffmpeg_demo
wrap around FFmpeg calls. There are three pieces:

- **The memory-backed read callback.** `read_packet` in
  src/mem_io_muxer.cpp works on the `buffer_data { ptr, size }` state of a
  file mapped into memory. Each call copies the next bytes of the mapping
  into the 4096-byte staging buffer of an AVIOContext.
- **The two-input interleaving loop.** It appears twice: `do_muxing` in
  src/mem_io_muxer.cpp and its copy `muxing` in src/muxer_core.cpp. It
  picks an input with `av_compare_ts` from the last pts seen on each input.
  It reads a packet, synthesizes pts and duration for packets that have
  none, retags the packet with its output stream, rescales it and writes it
  interleaved. It runs only when the header write succeeds, stops at the
  first failed read or write, and then writes the trailer.
- **The single-stream RTP relay loop.** It lives in `main` of
  src/streamer/udp_streaming.cpp. It runs only when the output URL opens
  and the header write succeeds. It drops non-video packets, stamps
  untimed video packets from a frame counter with dts = pts, rescales,
  resets `pos` and writes.

Modules, in dependency order:

| file | module | contents |
|---|---|---|
| timebase.dfy | `TimeBase` | `AVRational`; `av_compare_ts` as an exact rational comparison; the NEAR_INF rounding rule; `av_rescale_q_rnd` with PASS_MINMAX; `av_rescale_q` |
| packets.dfy | `Packets` | the `AVPacket` fields the loops use, `AV_NOPTS_VALUE`, the writer's failure point, a per-stream filter |
| synthesis.dfy | `Synthesis` | frame duration and pts synthesis for untimed streams |
| memio.dfy | `MemIo` | `buffer_data` as a class, with `read_packet` over an `array<byte>` |
| interleave.dfy | `Interleave` | the loop as a step function, its invariant and outcome, and the `Session` class whose fields are the loop's globals and whose `Mux` method is the imperative loop |
| muxers.dfy | `MemIoMuxer`, `MuxerCore` | both programs' output stream setup (indexes 0/1; time bases 1/90000 or 1/25, and 1/sample_rate), the resulting guarantees, and a worked run |
| relay.dfy | `RtpRelay` | the relay loop as a method, with a closed-form specification |

How the environment is modelled:

- **Demuxer.** Each demuxer (`av_read_frame`) is the sequence of packets it
  returns before its first failure.
- **Writer.** The writer (`av_interleaved_write_frame`) is the sequence of
  accepted packets plus an optional index of the write attempt that fails.
- **Setup results.** Input time bases, frame rates, the sample rate and
  whether the header write succeeds are parameters (for the relay, the
  flag also covers opening the output URL). The output indexes
  and requested output time bases are the constants the setup code uses.
- **Timestamps and arithmetic.** Timestamps are unbounded integers, and
  `AV_NOPTS_VALUE` is INT64_MIN. The FFmpeg helpers follow their documented
  semantics in exact arithmetic.
- **Synthesis.** The source computes it in `double` with truncating casts.
  The model idealises this as exact rational quotients truncated toward
  zero. Every operand is non-negative, so truncation is the floor.

## Model

| member | source | states |
|---|---|---|
| TimeBase.CompareTs | src/mem_io_muxer.cpp:218 | the result is -1, 0 or 1 exactly when the first timestamp is earlier than, equal to or later than the second, measured in seconds (ts·num/den) |
| TimeBase.CompareAntisymmetric | src/muxer_core.cpp:200 | swapping the two operands negates the comparison |
| TimeBase.CompareZeroTie | src/mem_io_muxer.cpp:192-193 | two zero timestamps compare equal whatever their time bases |
| TimeBase.DivNearInf | src/mem_io_muxer.cpp:287-289 | the quotient is the integer nearest to n/d, with halves rounded away from zero (both sign cases as two-sided bounds) |
| TimeBase.DivNearInfExact | src/mem_io_muxer.cpp:287-289 | an exact multiple divides without rounding |
| TimeBase.DivNearInfMonotone | src/mem_io_muxer.cpp:287-289 | nearest rounding preserves the order of numerators |
| TimeBase.Rescale | src/mem_io_muxer.cpp:289 | `av_rescale_q`: the result is the integer nearest to a·from/to, with halves rounded away from zero (both sign cases as two-sided bounds) |
| TimeBase.RescaleRnd | src/mem_io_muxer.cpp:287-288 | `av_rescale_q_rnd` with NEAR_INF and PASS_MINMAX: INT64_MIN and INT64_MAX come back unchanged, so an unset timestamp stays unset; every other value is rescaled as `av_rescale_q` does |
| TimeBase.RescaleMonotone | src/muxer_core.cpp:269-271 | rescaling preserves the order of timestamps |
| TimeBase.RescaleRndMonotone | src/muxer_core.cpp:269-270 | the same holds on the timestamp path, for values strictly between the two sentinels |
| TimeBase.RescaleExact | src/mem_io_muxer.cpp:289 | when one input tick is exactly k output ticks, rescaling multiplies by k with no rounding |
| TimeBase.RescaleRoundTrip | src/muxer_core.cpp:271 | when one input tick is exactly k output ticks, rescaling multiplies by k and rescaling back gives the original value |
| TimeBase.RescaleRndRoundTrip | src/muxer_core.cpp:269-270 | the same round trip on the timestamp path, including the unset sentinel |
| Synthesis.FrameDurationUs | src/mem_io_muxer.cpp:237 | the frame duration in microseconds is the floor of 1e6 / rate |
| Synthesis.UsToTicks | src/mem_io_muxer.cpp:240 | the number of whole input ticks in a microsecond count, rounded down |
| Synthesis.SynthDuration | src/mem_io_muxer.cpp:237-240 | the synthesized duration, in seconds, is at most one frame period (1/rate) and falls short of it by less than one microsecond plus one input tick, the two truncations |
| Synthesis.SynthPts | src/mem_io_muxer.cpp:243 | frame 0 is given pts 0 |
| Synthesis.SynthPtsMonotone | src/mem_io_muxer.cpp:243 | synthesized pts never decrease as the frame index grows |
| Synthesis.SynthPtsAtLeast | src/muxer_core.cpp:219-225 | frame k's pts is at least k synthesized durations |
| Synthesis.SynthPtsExact | src/muxer_core.cpp:219-225 | when a frame is a whole number of ticks, the pts form the arithmetic sequence k·duration, one duration apart (in exact arithmetic only, see Left out) |
| Synthesis.UntimedFrameTicks | src/muxer_core.cpp:219-271 | at an integer frame rate dividing 1e6 and the output rate, with whole-tick frames, frame j's synthesized pts rescales to exactly j·(outRate/fps) output ticks (in exact arithmetic only, see Left out) |
| MemIo.ToInt | src/mem_io_muxer.cpp:48 | converting a `size_t` value to `int` gives a value in the 32-bit signed range congruent to it modulo 2^32 |
| MemIo.ReadCount | src/mem_io_muxer.cpp:48 | the signed minimum of the request and the remaining size |
| MemIo.ReadCountAsWritten | src/mem_io_muxer.cpp:48 | `FFMIN(int, size_t)` as C evaluates it: it agrees with the signed minimum for a non-negative request and yields the whole remaining size for a negative one |
| MemIo.NegativeRequestCopiesRemainder | src/mem_io_muxer.cpp:48-52 | a request of -1 against 10 remaining bytes yields 10 as written, but -1 under the signed minimum |
| MemIo.BufferData.constructor | src/mem_io_muxer.cpp:75-76 | the state starts at the start of the mapping with the whole mapping remaining |
| MemIo.BufferData.ReadPacket | src/mem_io_muxer.cpp:45-62 | `read_packet`: it returns n = min(request, remaining), or -1 when that is not positive. On -1, ptr, size and buf are unchanged. Otherwise buf[0..n) holds the next n bytes of the remaining region, the rest of buf is untouched, ptr advances by n, size drops by n, and the consumed prefix grows by exactly those bytes |
| MemIo.ReadToEnd | src/mem_io_muxer.cpp:34-62 | refilling a 4096-byte buffer until -1 delivers the whole mapping in order, in ceil(size/4096) successful calls |
| MemIo.ExactlyOneBuffer | src/mem_io_muxer.cpp:34-52 | a 4096-byte mapping gives one read of 4096 bytes, then -1 on each of the next two reads |
| Packets.OfStream | src/mem_io_muxer.cpp:252-283 | the packets written to one output stream are no more than all packets written |
| Packets.OfStreamIndex | src/mem_io_muxer.cpp:252-283 | every packet of an output stream carries that stream's index |
| Packets.OfStreamAllOrNone | src/mem_io_muxer.cpp:252-283 | packets all tagged with a stream's index are kept whole, and packets none of which carry it are dropped whole |
| Packets.OfStreamPrefix | src/mem_io_muxer.cpp:252-283 | the stream's packets among a prefix of the output are a prefix of the stream's packets |
| Interleave.FrameIndexAt | src/mem_io_muxer.cpp:227-249 | the frame counter at packet i never exceeds i |
| Interleave.FrameIndexCounts | src/mem_io_muxer.cpp:227-249 | the counter at packet i equals i exactly when every earlier packet lacked a pts, and is 0 exactly when every earlier packet had one |
| Interleave.Synthesize | src/mem_io_muxer.cpp:227-249 | the result always has a pts; a packet that has one passes unchanged; dts, stream index and position are kept (the dts self-assignment) |
| Interleave.Prepared | src/mem_io_muxer.cpp:220-249 | packet i of an input after synthesis: it has a pts, it is the packet as read when that had one, and its dts is the one read |
| Interleave.ToOutput | src/mem_io_muxer.cpp:251-289 | the packet is retagged with the output index and keeps its position; an unset pts or dts stays unset (PASS_MINMAX); between equal time bases the pts is unchanged |
| Interleave.Emitted | src/mem_io_muxer.cpp:218-289 | packet i as written: it carries the output index, keeps its position, and an unset dts stays unset |
| Interleave.Pull | src/mem_io_muxer.cpp:218-297 | a pull fails to read exactly when the input is exhausted, and then changes nothing. Otherwise one packet is read; the loop keeps running exactly when the write is accepted, which appends one packet with the output index to the packets already written; after a refused write nothing is appended |
| Interleave.Step | src/mem_io_muxer.cpp:215-300 | one iteration moves only the selected input (video when selected, audio otherwise), stays within the inputs, and either appends one packet to what was written (running) or writes nothing (stopped) |
| Interleave.Run | src/mem_io_muxer.cpp:215-300 | the loop run to completion stops, within the inputs; a stopped state is left as is; what was already written is a prefix of the final output |
| Interleave.InitInv | src/mem_io_muxer.cpp:190-201 | the initial state (current pts 0, counters 0, nothing written) satisfies the loop invariant |
| Interleave.StepProgress | src/mem_io_muxer.cpp:215-300 | each iteration of a running loop reads one more packet or stops the loop |
| Interleave.PullKeeps | src/mem_io_muxer.cpp:218-299 | a pull on one input writes exactly that input's next emitted packet or nothing, keeps both inputs' invariants and leaves the other input's written packets alone |
| Interleave.StepKeepsInv | src/mem_io_muxer.cpp:215-300 | every iteration preserves the loop invariant |
| Interleave.RunKeepsInv | src/mem_io_muxer.cpp:215-300 | the invariant holds when the loop ends, and the loop ends |
| Interleave.FirstPullIsVideo | src/mem_io_muxer.cpp:192-218 | the first selection is video, because both current pts start at 0 and ties go to video; the first iteration leaves audio untouched |
| Interleave.StepSelectsBySeconds | src/mem_io_muxer.cpp:218-263 | video is selected exactly when its current position in seconds is not later than audio's. The other input is untouched, and the loop stops with a read failure exactly when the selected input is exhausted, whether or not the other still has packets |
| Interleave.MuxOutcome | src/mem_io_muxer.cpp:215-300 | the finished loop stopped either at the first failed read of the then-selected input or at the first refused write. Every written packet carries one of the two output indexes, and each output stream holds a prefix of its input, in order, as `Emitted` gives it. The frame counters count the untimed packets read, and each current pts is the pre-rescale pts of the last packet read |
| Interleave.PartitionCount | src/muxer_core.cpp:234-264 | packets tagged with one of two indexes split into the two per-stream subsequences |
| Interleave.PreparedFacts | src/mem_io_muxer.cpp:227-279 | synthesis runs exactly for packets without pts and gives them the counter's pts and one frame duration, with dts left as read (self-assignment); other packets pass unchanged |
| Interleave.UntimedInput | src/muxer_core.cpp:209-231 | for an input without timestamps, packet i gets counter i, packet 0 gets pts 0, and pts never decrease along the input |
| Interleave.AllUntimedCount | src/muxer_core.cpp:209-231 | when no packet has a pts, every packet advances the frame counter |
| Interleave.EmittedFacts | src/mem_io_muxer.cpp:251-289 | a written packet carries the output index, the rescaled pre-rescale pts and duration, and an unset dts stays unset |
| Interleave.Session.constructor | src/mem_io_muxer.cpp:190-201 | the session globals start at 0, nothing is written and no trailer is written yet |
| Interleave.Session.ReadVideo | src/mem_io_muxer.cpp:220-225 | `av_read_frame` on the video demuxer returns its next packet or fails when it is exhausted |
| Interleave.Session.ReadAudio | src/mem_io_muxer.cpp:258-263 | the same for the audio demuxer |
| Interleave.Session.WriteFrame | src/mem_io_muxer.cpp:293-297 | the writer accepts and appends the packet unless this attempt is the failing one |
| Interleave.Session.WriteTrailer | src/mem_io_muxer.cpp:302 | counts one trailer write |
| Interleave.Session.Iterate | src/mem_io_muxer.cpp:216-299 | one pass of the loop body moves the session state exactly as the step function does |
| Interleave.Session.Mux | src/mem_io_muxer.cpp:215-302 | the `while (1)` loop ends in the state the step function reaches when run to completion, and the trailer is written exactly once |
| MemIoMuxer.DoMuxing | src/mem_io_muxer.cpp:188-306 | `do_muxing`: when the header write fails it returns at once, with nothing written and no trailer. Otherwise it writes the loop's packets (the step function run to completion) and one trailer; every packet is on stream 0 or 1; stream 0 holds the first video packets and stream 1 the first audio packets, in read order, with pts rescaled from the input time base to 1/90000 or 1/sample_rate |
| MemIoMuxer.UntimedVideoPts | src/mem_io_muxer.cpp:155-289 | for video without timestamps at fps frames per second (fps dividing 1e6 and 90000, whole-tick frames), video packet j is written at pts 90000/fps·j (in exact arithmetic only, see Left out) |
| MemIoMuxer.WorkedInterleaving | src/mem_io_muxer.cpp:215-300 | video at 0/40/80 ms and audio at 0/21.3/42.7 ms are written in the order V0, V1, A0, A1, A2, V2, with these pts (V1 at 40 ms is written before A0 at 0 ms); the loop stops with a read failure while audio is selected, after reading both inputs to the end |
| MuxerCore.Muxing | src/muxer_core.cpp:170-288 | `muxing`: after a failed header write nothing is written and no trailer; otherwise the loop's packets and one trailer and never more writes than packets or than the failure point allows. Each output stream holds a prefix of its input, in order, carrying its output index, with pts rescaled to 1/25 or 1/sample_rate and video duration rescaled to 1/25 |
| MuxerCore.UntimedVideoOneTickPerFrame | src/muxer_core.cpp:111-271 | for video without timestamps at 25 frames per second with whole-tick frames, video packet j is written at pts j: one output tick per frame |
| RtpRelay.Stamped | src/streamer/udp_streaming.cpp:126-139 | the result always has a pts; an untimed packet gets dts equal to its pts; a timed packet passes unchanged; stream index and position are kept |
| RtpRelay.Relayed | src/streamer/udp_streaming.cpp:124-157 | a relayed packet has pos -1 and its stream index; an untimed one has equal pts and dts; a timed one without dts keeps dts unset |
| RtpRelay.PreparePacket | src/streamer/udp_streaming.cpp:124-157 | the statements between the filter and the write compute exactly the relayed packet |
| RtpRelay.FilterStep | src/streamer/udp_streaming.cpp:115-122 | reading one more packet adds it to the video packets seen when it is video and adds nothing otherwise, and the video packets seen are a prefix of the input's video packets |
| RtpRelay.Relay | src/streamer/udp_streaming.cpp:92-172 | when opening the output or writing the header fails, the jump to the cleanup sends nothing and writes no trailer. Otherwise the k-th written packet is the k-th video packet of the input, relayed with frame counter k. Non-video packets are dropped without touching the counter, and the counter ends one past the refused write or at the number of video packets. The loop ends at the end of input or at the first refused write, and the trailer is written once |
| RtpRelay.RelayedFacts | src/streamer/udp_streaming.cpp:124-157 | a relayed packet keeps its stream index and gets pos -1; an untimed one gets equal pts and dts from the counter and one rescaled frame duration; a timed one has pts, dts and duration rescaled |
| RtpRelay.UntimedOrder | src/streamer/udp_streaming.cpp:126-154 | for untimed video, a later frame never gets an earlier output pts, and frame 0 is sent at pts 0 |
| RtpRelay.UntimedSpacing | src/streamer/udp_streaming.cpp:132-156 | with whole-tick frame durations and an integer tick ratio, consecutive untimed frames are sent exactly one output duration apart (in exact arithmetic only, see Left out) |
| RtpRelay.ShiftRescaled | src/streamer/udp_streaming.cpp:154-156 | under an integer tick ratio, rescaling a sum is the sum of the rescaled parts |

## Left out

- The AVIOContext internals (refill, position, EOF handling) are FFmpeg's, not this repository's. The model stops at the callback and a simple consumer (`MemIo.ReadToEnd`) that refills until -1.
- Floating-point synthesis: the `double` quotients are modelled as exact rationals truncated toward zero. Where the exact quotient is a whole number, the `double` one can fall just below it and truncate one tick lower. At 25 fps with a 1/90000 input time base, 40000 / (1/90000 · 1e6) evaluates in IEEE-754 doubles to just under 3600: the duration is 3599 and the pts are 0, 3599, 7199, 10799 (src/mem_io_muxer.cpp:237-243, src/muxer_core.cpp:219-225, src/streamer/udp_streaming.cpp:132-138). The exact model gives 3600 and 3600·j.
- Synthesis.SynthPtsExact: the arithmetic sequence k·duration holds only in exact arithmetic. Under the source's doubles at 25 fps and 1/90000 the pts 7199 is not 2·3599.
- Synthesis.UntimedFrameTicks: the exact tick j·(outDen/fps) holds only in exact arithmetic. At 25 fps, 1/90000 in and outDen 90000 the source gives 3599 and 7199, not 3600 and 7200. With outDen 25 the nearest rescale absorbs the one-tick shortfall.
- MemIoMuxer.UntimedVideoPts: pts 90000/fps·j holds only in exact arithmetic. At 25 fps with a 1/90000 input time base src/mem_io_muxer.cpp:240-243 gives 3599 and 7199, not 3600 and 7200.
- RtpRelay.UntimedSpacing: one duration apart holds only in exact arithmetic. At 25 fps with 1/90000 in and out the source sends 0, 3599, 7199, and 7199 is not 3599 + 3599.
- Integer widths: `int64_t` timestamps, the `int32_t` frame counters and the `int` request size are unbounded integers, and overflow in synthesis or rescaling is not modelled.
- TimeBase.Rescale: does not model any clamping or overflow handling inside `av_rescale_q`, whose code is not part of this model.
- Wall-clock pacing in the relay (`av_gettime`, `av_usleep`, src/streamer/udp_streaming.cpp:107, 142-148) is timing only and does not change any packet.
- Setup and teardown: opening inputs and outputs, file mapping, codec-parameter copy, `av_dump_format`, `destory_muxer` and the cleanup paths. These are foreign calls and heap ownership. The input time bases, frame rates and sample rate enter the model as parameters, and the outcome of `avformat_write_header` (for the relay, together with `avio_open`) as a flag. The output stream indexes (0 and 1) and the requested output time bases (1/90000 or 1/25, and 1/sample_rate) are fixed as each program's setup sets them.
- MemIoMuxer.DoMuxing: the video and audio pts are stated as rescaled to the output time base the setup requests. FFmpeg documents that `avformat_write_header` may replace a stream's `time_base` with one the muxer prefers; the model assumes the muxer keeps the requested one, and the values written differ when it does not.
- MuxerCore.Muxing: the same assumption as for MemIoMuxer.DoMuxing; in particular, one output tick per video frame (MuxerCore.UntimedVideoOneTickPerFrame) holds only when the muxer keeps 1/25.
- Logging: the `printf` calls (for example src/mem_io_muxer.cpp:54 inside `read_packet`, src/mem_io_muxer.cpp:222, 246 and 291, and src/streamer/udp_streaming.cpp:159) are console output and do not change any modelled value.
- src/muxer.cpp and src/streamer/main.cpp are command-line and logging glue and are not part of this model. So is doc/src_code_study/avio_context.c, which only declares a struct.
- The return values of `do_muxing`/`muxing` (the trailer's result) are not modelled, only that the trailer is written once.
- RtpRelay.Relay: the output time base is a parameter. The source looks up `ofmt_ctx->streams[pkt.stream_index]`, which names the single output stream only when the video stream has input index 0; other indexes are not modelled.
- udp_streaming.cpp does not build as shown (an undeclared `i`, and `goto` jumps over initialisations). The model follows the loop's evident intent.
- A zero or unset frame rate (a division by zero in `double`) is excluded: every rate is required to be positive.
- A packet payload, `av_packet_unref` and `av_free_packet` do not affect any modelled field and are not modelled.
- A round trip through time bases that are not integer multiples of each other is not stated. The model proves only the half-tick bound of each rescale and the exact round trip under an integer ratio.
- Non-decreasing output order across the two streams is not claimed, because it does not hold. The loop selects by the last pts read, which lags one packet behind, so even dense, in-order inputs are written out of time order: MemIoMuxer.WorkedInterleaving writes V1 (40 ms) before A0 (0 ms).

## Findings

| source | as written | input that shows it | evidently intended | confidence | as-written member | corrected member |
|---|---|---|---|---|---|---|
| src/mem_io_muxer.cpp:48 | `FFMIN(buf_size, bd->size)` compares an `int` with a `size_t`, so a negative request is converted to a huge unsigned value, and the "minimum" is the whole remaining size | buf_size = -1 with 10 bytes remaining: as written 10 bytes are copied into a buffer declared to hold -1 bytes and 10 is returned | a signed minimum, so a non-positive request returns -1 and copies nothing (FFmpeg does not normally pass a negative size, so the case is defensive) | not executed | MemIo.NegativeRequestCopiesRemainder | MemIo.BufferData.ReadPacket |

# Simple AM receiver: the integer core, in Dafny

`simple_am_receiver` is a network client for an SDR server. It connects over TCP and reads a
32-byte stream header, which it accepts only with the right magic and the signed 16-bit sample
format. It then loops over frames:

- a data frame carries interleaved (I, Q) pairs, which go through a floating-point chain and a
  decimator that keeps every 42nd value;
- a metadata frame only informs;
- anything else ends the session.

The decimated samples are clipped to 16 bits and collected in an 8192-slot buffer. Every 4096 of
them go to stdout, or to the speakers through four round-robin waveOut buffers, or to both.
Before connecting, a discovery callback may replace the default server address.

This project models and proves the integer part of that program:

- **`Wire`**: the packed little-endian records and their decoders. Each decoder has an encoder,
  with round trips in both directions. Also here: the sample payload, the stream-header checks
  (magic first, then format) and the 64-bit centre frequency built from two 32-bit halves.
- **`FrameReader`**: `recv` and `recv_full` on a `Link` object. The peer side of the socket is
  data:
  - the bytes the server sends;
  - the outcome of each successive `recv` call (a positive size, or a failure);
  - whether SIGINT arrives during that call.

  `recv_full` is a method with the C loop. It is proved against a recursive specification
  function whose properties are lemmas: exact length, -1 on any failed receive, a short count only
  after shutdown, and completion on a cooperating link.
- **`AudioSink`**: the bookkeeping of `audio_write` on an `AudioOut` object. This covers the
  copy clamp, the header byte length, the slot copy and the advance modulo 4. A round-robin
  lemma covers any number of writes.
- **`Pipeline`**: the decimation counter, the clip and the accumulation buffer of
  `process_iq_samples`, on a `Receiver` object that owns `g_audio_out`. The per-pair loop is
  proved against a fold of one-step functions. A closed form of that fold is a lemma:
  - the counter has advanced by N modulo 42;
  - floor((c + N) / 42) samples have been emitted;
  - whole loads of 4096 have gone, in order, to each enabled sink;
  - fewer than 4096 samples are left pending.
- **`Discovery`**: the initial target (localhost, port 4536), the filter of `on_service_found`
  and the truncated host copy, over any run of announcements.
- **`Session`**: the phases of `main` after the connection, as a state machine
  (header exchange, streaming, closed) driven by the link. The imperative `Stream` and
  `Receive` methods are proved to follow it. The exit code is 1 exactly when the stream header
  was not read or not accepted.

The floating-point chain (lowpass filters, envelope, DC block, AGC, volume) is abstracted as a
function `dsp` from the whole history of received pairs to the value that reaches the
decimator. Any causal filter chain is such a function. I/O, the clock and the audio device are
replaced by the peer description and the recorded `played` blocks.

## Model

| member | source | states |
|---|---|---|
| Wire.DecodeStreamHeader | src/simple_am_receiver.c:78-87 | each of the eight fields is the little-endian word at its offset in the packed struct (0, 4, …, 28) |
| Wire.DecodeFrameHeader | src/simple_am_receiver.c:89-94 | magic, sequence, num_samples and flags are the words at offsets 0, 4, 8 and 12 |
| Wire.DecodeMetadata | src/simple_am_receiver.c:96-105 | each of the eight metadata fields is the word at its offset in the 32-byte record |
| Wire.StreamHeaderRoundTrip | src/simple_am_receiver.c:78-87 | decoding the encoding of any stream header gives it back |
| Wire.StreamHeaderBytesRoundTrip | src/simple_am_receiver.c:78-87 | encoding the decoding of any 32 bytes gives the same bytes: the layout loses nothing |
| Wire.FrameHeaderRoundTrip | src/simple_am_receiver.c:89-94 | decode after encode is the identity on frame headers |
| Wire.FrameHeaderBytesRoundTrip | src/simple_am_receiver.c:89-94 | encode after decode is the identity on 16-byte records |
| Wire.MetadataRoundTrip | src/simple_am_receiver.c:96-105 | decode after encode is the identity on metadata records |
| Wire.MetadataBytesRoundTrip | src/simple_am_receiver.c:96-105 | encode after decode is the identity on 32-byte records |
| Wire.MetadataOverlaysFrameHeader | src/simple_am_receiver.c:656-661 | the record built from the 16 header bytes followed by 16 more has magic, sample_rate, sample_format and center_freq_lo equal to the header's magic, sequence, num_samples and flags; its other four fields are the words of the remaining 16 bytes |
| Wire.CheckStreamHeader | src/simple_am_receiver.c:447-466 | accepted if and only if magic is 0x50485849 and format is 1; a wrong magic is reported as such whatever the format; a right magic with another format is reported as an unsupported format |
| Wire.CenterFreq | src/simple_am_receiver.c:452 | the low 32 bits of the 64-bit frequency are lo and the high 32 bits are hi |
| Wire.HeaderFrequency | src/simple_am_receiver.c:452 | in the stream-header path the frequency halves are the words at byte offsets 16 and 20 |
| Wire.MetadataFrequency | src/simple_am_receiver.c:666 | in the metadata path the frequency halves are the words at byte offsets 12 and 16 |
| Wire.DecodeSamples | src/simple_am_receiver.c:330-331 | a payload of 4n bytes holds n (I, Q) pairs |
| Wire.DecodeSamplesCons | src/simple_am_receiver.c:330-331 | pair 0 is the 16-bit words at bytes 0 and 2, and the remaining pairs are those of the rest of the payload |
| Wire.SamplesRoundTrip | src/simple_am_receiver.c:330-331 | decoding the encoding of any run of pairs gives them back |
| Wire.SampleBytesRoundTrip | src/simple_am_receiver.c:330-331 | encoding the pairs decoded from any 4n bytes gives the same bytes |
| FrameReader.Take | src/simple_am_receiver.c:401 | a successful recv hands over no more than asked, no more than the network offers and no more than the peer has left; it is 0 only when nothing is left to send |
| FrameReader.RecvOutcome | src/simple_am_receiver.c:401-402 | one recv moves the stream position by exactly the count it returns; it moves nothing when it fails; a success consumes one receive call and never exceeds the room given |
| FrameReader.RecvFullLoopBounds | src/simple_am_receiver.c:400-404 | from `total`, the loop ends with -1 or with total plus the bytes consumed; -1 only while bytes were missing; it never overshoots len; it stops short only with shutdown seen |
| FrameReader.RecvFullFailures | src/simple_am_receiver.c:400-404 | the loop gives up on whichever receive fails: a result other than -1 means every receive it made got at least one byte; -1 means every receive before the last succeeded and the last one failed, or found the peer closed |
| FrameReader.RecvFullResult | src/simple_am_receiver.c:397-406 | the result is -1 or between 0 and len; it equals the bytes taken from the stream; len means the next len bytes were there; a short count means shutdown; -1 needs len > 0 |
| FrameReader.RecvFullOutcome | src/simple_am_receiver.c:397-406 | recv_full from a count of 0: the link stays within what the peer has, the stream position and the number of receive calls never go back, and the result is -1 or a count between 0 and len (0 when len is negative) |
| FrameReader.RecvFullAfterShutdown | src/simple_am_receiver.c:400-405 | with shutdown already requested, recv_full returns 0 and touches nothing |
| FrameReader.RecvFullFirstFailure | src/simple_am_receiver.c:402 | a failing first recv makes recv_full return -1 |
| FrameReader.RecvFullCompletes | src/simple_am_receiver.c:400-405 | on a link with no failures and no signal, enough data and enough receive calls, recv_full returns len whatever the chunk sizes |
| FrameReader.Link.Recv | src/simple_am_receiver.c:401 | the count and the new link state are those of RecvOutcome; on success the next bytes of the stream land at buf[off..]; the rest of the buffer, or all of it on failure, is unchanged |
| FrameReader.Link.RecvFull | src/simple_am_receiver.c:397-406 | result and new link state equal RecvFullOutcome of the old link state and len; the bytes consumed are exactly those at the front of buf, the rest of buf is unchanged |
| AudioSink.CopyLength | src/simple_am_receiver.c:267 | the copy is min(count, 4096): never more than asked or than a slot, and non-empty when count is |
| AudioSink.AudioWrite | src/simple_am_receiver.c:253-275 | a write never changes whether the device runs, hands over at most one more block, and keeps the slot index in [0, 4); AudioWriteEffect gives the exact block and slot |
| AudioSink.AudioWriteEffect | src/simple_am_receiver.c:253-272 | with the device running and count > 0, exactly the first min(count, 4096) samples are handed over as one more block and the slot index becomes (current + 1) % 4; otherwise nothing changes; the slot index stays in [0, 4) |
| AudioSink.RoundRobin | src/simple_am_receiver.c:267-272 | k writes of non-empty blocks of at most 4096 samples hand over exactly those blocks, in order, and move the slot index on by k modulo 4 |
| AudioSink.AudioOut.constructor | src/simple_am_receiver.c:225-249 | four zeroed 4096-sample slots, every header length 8192 bytes, slot 0 current, device running |
| AudioSink.AudioOut.Write | src/simple_am_receiver.c:253-275 | the bookkeeping follows AudioWrite; the current slot's first min(count, 4096) samples are the input and its header length is twice that; no other slot sample or header changes |
| Pipeline.OutputSample | src/simple_am_receiver.c:356-361 | the stored sample is in [-32768, 32767]; inside that range it is the value truncated toward zero, beyond it the nearer bound |
| Pipeline.Step | src/simple_am_receiver.c:349-373 | one pass of the per-pair loop keeps the counter in [0, 42) and the buffer below 4096 samples; StepSkips, StepKeeps and StepFlushes tie each of its three branches to the closed form |
| Pipeline.Process | src/simple_am_receiver.c:327-376 | the per-pair loop over any run of values keeps the counter in [0, 42) and the buffer below 4096 samples; ProcessClosedForm gives its result in closed form |
| Pipeline.Emitted | src/simple_am_receiver.c:349-361 | from counter c, N values emit floor((c + N) / 42) samples; sample j is the clipped value of the input that brings the counter to 42 for the (j+1)-th time |
| Pipeline.EmittedSnoc | src/simple_am_receiver.c:349-352 | one more value emits one more sample exactly when it brings the counter to 42, and leaves the earlier ones alone |
| Pipeline.StepSkips | src/simple_am_receiver.c:349-350 | a value the decimator drops keeps the closed form |
| Pipeline.StepKeeps | src/simple_am_receiver.c:350-361 | a kept value that does not fill the buffer is appended and keeps the closed form |
| Pipeline.StepFlushes | src/simple_am_receiver.c:361-373 | the value that fills the buffer hands the load of 4096 to each enabled sink, empties the buffer and keeps the closed form |
| Pipeline.ProcessClosedForm | src/simple_am_receiver.c:327-376 | after N values the counter is (c + N) % 42 and stays in [0, 42); the buffer holds fewer than 4096; the emitted samples, in order, are the whole loads sent to stdout (in stdout mode) and to the speakers (when enabled), followed by what is pending |
| Pipeline.SpeakerLoads | src/simple_am_receiver.c:364-371 | with the speakers on, the device has been handed exactly the whole loads, in order, and the slot index has moved on by their number modulo 4 |
| Pipeline.ThousandPairs | src/simple_am_receiver.c:349-364 | from a fresh counter and an empty buffer, 1000 values leave 23 pending samples and counter 34, and nothing reaches stdout or the speakers |
| Pipeline.Receiver.constructor | src/simple_am_receiver.c:307-311 | counter 0, an 8192-slot output array, nothing buffered and nothing written |
| Pipeline.Receiver.PushSample | src/simple_am_receiver.c:349-373 | the new state of counter, buffer, stdout and speakers is one Step on the chain's value; the count stays below 4096; the entries already in g_audio_out are unchanged |
| Pipeline.Receiver.ProcessIq | src/simple_am_receiver.c:327-376 | the pairs decoded from the frame's first 4·num_samples bytes are appended to the history, and the output state is Process over their chain values |
| Discovery.OnServiceFound | src/simple_am_receiver.c:485-497 | only a non-goodbye "sdr_server" announcement with a positive data port changes the target: the port becomes data_port and the host the first min(|ip|, 255) characters of ip; otherwise host and port are unchanged |
| Discovery.OnServiceFoundKeepsBounds | src/simple_am_receiver.c:490-496 | the host never exceeds 255 characters and the port stays positive |
| Discovery.OnServiceFoundIdempotent | src/simple_am_receiver.c:490-496 | a repeated announcement changes nothing more |
| Discovery.LastAnnouncementWins | src/simple_am_receiver.c:492-494 | after an accepted announcement, the target no longer depends on the one before |
| Discovery.InitialTarget | src/simple_am_receiver.c:299-300 | before any announcement the target is localhost on port 4536, within the host buffer and with a positive port |
| Discovery.HearFromInitial | src/simple_am_receiver.c:485-497 | from the initial target, any run of announcements keeps the host within 255 characters and the port positive; if none is accepted, the target is still localhost on the default port |
| Session.ExitCode | src/simple_am_receiver.c:615-683 | the exit code is 1 exactly for a header that did not arrive or was rejected, and 0 for every other way the session ends |
| Session.ReadHeaderOutcome | src/simple_am_receiver.c:439-469 | the header read fails exactly when recv_full does not return 32; otherwise the next 32 bytes of the stream have been taken and the result is CheckStreamHeader applied to their decoding, so an accepted header has magic 0x50485849 and format 1 and is exactly the decoded record; success consumes a receive call |
| Session.ReadFrameOutcome | src/simple_am_receiver.c:638-672 | each frame read that does not end the stream consumes a receive call; a data payload holds 4 bytes per announced pair; a stream end is never a header failure; FrameHeaderLost and the dispatch lemmas give each branch |
| Session.DataFrameDispatch | src/simple_am_receiver.c:645-651 | a data frame has magic 0x49514451; it consumes exactly 16 + 4·num_samples bytes; its header is the first 16 of them and its payload the rest |
| Session.MetaFrameDispatch | src/simple_am_receiver.c:656-664 | a metadata frame consumes exactly 32 bytes, the decoded record comes from them, and its magic is 0x4D455441 |
| Session.DataMagicDispatch | src/simple_am_receiver.c:645-654 | a whole 16-byte frame header with magic 0x49514451 is always followed by the payload read: the frame is data, with that header, when all 4·num_samples bytes arrive, and otherwise the stream ends on a failed data read |
| Session.MetaMagicDispatch | src/simple_am_receiver.c:656-664 | a whole 16-byte frame header with magic 0x4D455441 is always followed by the read of the remaining 16 bytes: the frame is metadata when they arrive, and otherwise the stream ends on a failed metadata read |
| Session.OtherFrameDispatch | src/simple_am_receiver.c:639-671 | an unknown magic ends the stream after exactly 16 bytes and is neither data nor metadata; a stream end is otherwise a lost connection or a failed data or metadata read |
| Session.FrameHeaderLost | src/simple_am_receiver.c:638-642 | the frame read ends the stream as a lost connection, after exactly the link state recv_full left, if and only if the 16-byte frame header does not arrive whole |
| Session.Advance | src/simple_am_receiver.c:614-673 | every step that leaves the session open makes at least one more receive call |
| Session.Run | src/simple_am_receiver.c:636-673 | for any finite peer behaviour, the session reaches the closed phase, the link stays within what the peer has, and receive calls are never undone |
| Session.HeaderRejectedFirst | src/simple_am_receiver.c:615-621 | a delivered header with the wrong magic or format closes the session before any frame: no pair processed, nothing reported, exit code 1 |
| Session.DataFrameStep | src/simple_am_receiver.c:645-654 | a data frame feeds exactly its num_samples decoded pairs, in order, to the output stage, and changes nothing else |
| Session.MetadataFrameStep | src/simple_am_receiver.c:656-668 | a metadata frame is reported and leaves the output stage and the pair history untouched |
| Session.StreamingEnds | src/simple_am_receiver.c:636-683 | for any finite peer behaviour, a session that is streaming ends, and with exit code 0 |
| Session.UnknownFrameStops | src/simple_am_receiver.c:669-671 | a frame with any other magic closes the session with that magic, leaves the DSP state as it was, and exits with 0 |
| Session.FrameHeaderLostStops | src/simple_am_receiver.c:636-642 | while streaming and running, a frame header that does not arrive whole closes the session as a lost connection, with the link where recv_full left it, nothing fed to the output stage, the history and reports unchanged, and exit code 0 |
| Session.ReadStreamHeader | src/simple_am_receiver.c:439-469 | the result and the new link state are those of ReadHeaderOutcome |
| Session.ReadFrame | src/simple_am_receiver.c:636-672 | the result and the new link state are those of ReadFrameOutcome, and a data payload sits at the front of frame_buffer |
| Session.Stream | src/simple_am_receiver.c:636-673 | the frame loop ends in the state the machine reaches from streaming: same link, output stage, history, reports and reason |
| Session.Receive | src/simple_am_receiver.c:614-683 | from the header read on, the final state is the machine's run from the start, and the exit code is ExitCode of the reason it stopped |

## Left out

- Floating-point DSP (`lowpass_init`, `lowpass_process`, the envelope, `dc_block_process`, `audio_agc_process`, the volume product): modelled as the function `dsp` of the pair history. NaN and the float-to-int conversion of a non-finite value are not modelled; `OutputSample` takes a real.
- Sockets and connection set-up (`socket_init`, `socket_cleanup`, `connect_to_server`, `closesocket`): OS network I/O; the connected socket is the `Peer` value.
- The waveOut device (`waveOutOpen`, `waveOutWrite`, `waveOutReset`, unprepare and close), the `WHDR_INQUEUE` wait and the critical section: device I/O and concurrency. A block handed to the device is recorded in `played`.
- `audio_init` failing (a failed `malloc` or `waveOutOpen`) and `audio_close`: device set-up and teardown. The constructor models a successful `audio_init`.
- `audio_write` exists only in the Windows build. Without it, the speaker branch of `process_iq_samples` does not compile; the model keeps the Windows behaviour.
- The discovery library (`pn_discovery_init`, `pn_listen`, `pn_discovery_shutdown`) and the 50 × 100 ms wait: foreign calls and a timeout. Only the callback is modelled.
- Argument parsing, `print_version`, `LOG` output and `signal_handler`: process glue. SIGINT is modelled only as the `signal` flag of a receive call, which clears `running`.
- The `malloc` failure of `frame_buffer` (627-634): allocation is not modelled, and `Receive` allocates the buffer.
- Session.Stream: a data frame announcing more than 16384 pairs would overflow `frame_buffer`, and the program never checks this. `Stream` and `Receive` require, through `FramesFit`, that no frame the session reaches does so.
- `num_samples * 2` is computed in 32 bits and could wrap. Under the 16384-pair precondition it cannot, so the model computes the size exactly.
- Byte order: `recv` fills the packed records `iq_stream_header_t`, `iq_data_frame_t` (the common frame header) and `iq_metadata_update_t` with raw bytes whose fields are then read natively (447, 452, 645, 666), and `frame_buffer` is an `int16_t` array filled the same way. The model decodes all of them as little-endian words (`Wire`) and keeps frame_buffer as 65536 bytes, so it assumes a little-endian host.
- Session.Run, Session.StreamingEnds: the peer is a finite `Peer` (a stream and a finite schedule of receive replies), and a receive past the end of the schedule, or when the stream has nothing left to deliver, counts as the peer closing (recv returns 0). A `recv` that never returns (401 has no timeout, so a stalled but open connection blocks forever) and a peer that sends valid frames forever (the `while (g_running)` loop at 636 never exits) cannot be expressed, so "the session ends" holds only for finite peer behaviour.
- The clock, `fflush` and the actual writes to stdout: stdout is the sequence of samples written.
- Exit code: a lost connection, a failed read and an unknown frame all leave the loop and reach `return 0` (683). `ExitCode` gives 0 for each of them.
- AudioSink.RoundRobin: it states the new slot index only modulo 4 (`current % 4`), because `current` is already in [0, 4) by `SinkInvariant`. The exact value follows from `AudioWriteEffect` one write at a time.

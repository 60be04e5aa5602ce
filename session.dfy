/** A receiving session once connected: read and check the stream header, then take
    frames until something stops the loop. A data frame's pairs go through the
    output stage; a metadata frame is only reported; any other frame, a short read
    or shutdown ends the session.

    The session is specified as a small state machine (header exchange, streaming,
    closed) whose steps are the outcomes of reading one record from the link; the
    methods that do the reading are proved to follow it. */
module Session {
  import opened Wire
  import opened FrameReader
  import opened AudioSink
  import opened Pipeline

  /** frame_buffer holds 16384 pairs. */
  const FrameCapacity: nat := 16384

  /** Why a session ended. */
  datatype Stop =
    | HeaderReadFailed                  // the stream header did not arrive whole
    | HeaderRejected(error: HeaderError) // wrong magic or sample format
    | Stopped                           // shutdown seen at the top of the frame loop
    | ConnectionLost                    // a frame header did not arrive whole
    | DataReadFailed                    // a data payload did not arrive whole
    | MetadataReadFailed                // the rest of a metadata record did not arrive
    | UnknownFrame(magic: u32)          // a frame that is neither data nor metadata

  /** Failures while the stream header is handled make the program exit with 1;
      once streaming has begun, every way out of the loop exits with 0. */
  function ExitCode(why: Stop): (code: int)
    ensures code == 1 <==> why.HeaderReadFailed? || why.HeaderRejected?
    ensures code == 0 <==> !(why.HeaderReadFailed? || why.HeaderRejected?)
  {
    match why
    case HeaderReadFailed => 1
    case HeaderRejected(_) => 1
    case _ => 0
  }

  // ---------------------------------------------------------------------------
  // Reading one record
  // ---------------------------------------------------------------------------

  datatype HeaderRead = HeaderRead(result: Result<StreamHeader, Stop>, after: LinkState)

  /** read_stream_header: 32 bytes, accepted when the magic and the format are right. */
  function ReadHeaderOutcome(p: Peer, s: LinkState): (r: HeaderRead)
    requires Within(p, s)
    ensures Within(p, r.after) && s.next <= r.after.next
    ensures r.result.Ok? ==> r.after.next > s.next
    ensures r.result.Err? ==> r.result.error.HeaderReadFailed? || r.result.error.HeaderRejected?
    ensures r.result == Err(HeaderReadFailed) <==> RecvFullOutcome(p, s, StreamHeaderSize).result != StreamHeaderSize as int
    ensures !r.result.Err? || !r.result.error.HeaderReadFailed? ==>
      && s.pos + StreamHeaderSize <= |p.stream| && r.after.pos == s.pos + StreamHeaderSize
      && CheckStreamHeader(DecodeStreamHeader(p.stream[s.pos..s.pos + StreamHeaderSize]))
         == if r.result.Ok? then Ok(r.result.value) else Err(r.result.error.error)
    ensures r.result.Ok? ==> r.result.value.magic == MagicHeader && r.result.value.sampleFormat == FormatS16
  {
    RecvFullResult(p, s, StreamHeaderSize);
    var g := RecvFullOutcome(p, s, StreamHeaderSize);
    if g.result != StreamHeaderSize as int then HeaderRead(Err(HeaderReadFailed), g.after)
    else
      match CheckStreamHeader(DecodeStreamHeader(p.stream[s.pos..g.after.pos]))
      case Ok(h) => HeaderRead(Ok(h), g.after)
      case Err(e) => HeaderRead(Err(HeaderRejected(e)), g.after)
  }

  /** What one pass of the frame loop reads. */
  datatype FrameRead =
    | DataFrame(header: FrameHeader, payload: seq<byte>, after: LinkState)
    | MetaFrame(update: MetadataUpdate, after: LinkState)
    | EndOfStream(why: Stop, after: LinkState)

  /** One frame: the 16-byte common header, then by its magic either the sample
      payload of 4 bytes per pair or the remaining 16 bytes of a metadata record. */
  function ReadFrameOutcome(p: Peer, s: LinkState): (r: FrameRead)
    requires Within(p, s)
    ensures Within(p, r.after) && s.next <= r.after.next
    ensures !r.EndOfStream? ==> r.after.next > s.next
    ensures r.DataFrame? ==> |r.payload| == r.header.numSamples as int * BytesPerPair
    ensures r.EndOfStream? ==> !r.why.HeaderReadFailed? && !r.why.HeaderRejected?
  {
    RecvFullResult(p, s, FrameHeaderSize);
    var g := RecvFullOutcome(p, s, FrameHeaderSize);
    if g.result != FrameHeaderSize as int then EndOfStream(ConnectionLost, g.after)
    else
      var hb := p.stream[s.pos..g.after.pos];
      var hdr := DecodeFrameHeader(hb);
      if hdr.magic == MagicData then
        var size := hdr.numSamples as int * BytesPerPair;
        RecvFullResult(p, g.after, size);
        var g2 := RecvFullOutcome(p, g.after, size);
        if g2.result != size then EndOfStream(DataReadFailed, g2.after)
        else DataFrame(hdr, p.stream[g.after.pos..g2.after.pos], g2.after)
      else if hdr.magic == MagicMeta then
        var rest := MetadataSize - FrameHeaderSize;
        RecvFullResult(p, g.after, rest);
        var g2 := RecvFullOutcome(p, g.after, rest);
        if g2.result != rest as int then EndOfStream(MetadataReadFailed, g2.after)
        else
          var record := hb + p.stream[g.after.pos..g2.after.pos];
          SliceSplit(p.stream, s.pos, g.after.pos, g2.after.pos);
          MetaFrame(DecodeMetadata(record), g2.after)
      else EndOfStream(UnknownFrame(hdr.magic), g.after)
  }

  /** A data frame takes exactly its 16-byte header and 4 bytes per announced pair. */
  lemma DataFrameDispatch(p: Peer, s: LinkState)
    requires Within(p, s)
    ensures var r := ReadFrameOutcome(p, s);
      r.DataFrame? ==>
        && r.header.magic == MagicData
        && r.after.pos == s.pos + FrameHeaderSize + r.header.numSamples as int * BytesPerPair
        && r.header == DecodeFrameHeader(p.stream[s.pos..s.pos + FrameHeaderSize])
        && r.payload == p.stream[s.pos + FrameHeaderSize..r.after.pos]
  {
    RecvFullResult(p, s, FrameHeaderSize);
    var g := RecvFullOutcome(p, s, FrameHeaderSize);
    if g.result == FrameHeaderSize as int {
      var hdr := DecodeFrameHeader(p.stream[s.pos..g.after.pos]);
      RecvFullResult(p, g.after, hdr.numSamples as int * BytesPerPair);
    }
  }

  /** A metadata frame takes exactly 32 bytes and is read from all of them. */
  lemma MetaFrameDispatch(p: Peer, s: LinkState)
    requires Within(p, s)
    ensures var r := ReadFrameOutcome(p, s);
      r.MetaFrame? ==>
        && r.after.pos == s.pos + MetadataSize
        && r.update == DecodeMetadata(p.stream[s.pos..s.pos + MetadataSize])
        && r.update.magic == MagicMeta
  {
    RecvFullResult(p, s, FrameHeaderSize);
    var g := RecvFullOutcome(p, s, FrameHeaderSize);
    if g.result == FrameHeaderSize as int {
      RecvFullResult(p, g.after, MetadataSize - FrameHeaderSize);
      var g2 := RecvFullOutcome(p, g.after, MetadataSize - FrameHeaderSize);
      if g2.result == (MetadataSize - FrameHeaderSize) as int {
        SliceSplit(p.stream, s.pos, g.after.pos, g2.after.pos);
      }
    }
  }

  /** A whole frame header with the data magic is always followed by the payload
      read: the frame is data when all 4·num_samples bytes arrive, and otherwise the
      stream ends on a failed data read. */
  lemma DataMagicDispatch(p: Peer, s: LinkState)
    requires Within(p, s)
    requires RecvFullOutcome(p, s, FrameHeaderSize).result == FrameHeaderSize as int
    requires s.pos + FrameHeaderSize <= |p.stream|
    requires U32At(p.stream, s.pos) == MagicData
    ensures var g := RecvFullOutcome(p, s, FrameHeaderSize);
      var hdr := DecodeFrameHeader(p.stream[s.pos..s.pos + FrameHeaderSize]);
      var size := hdr.numSamples as int * BytesPerPair;
      var g2 := RecvFullOutcome(p, g.after, size);
      var r := ReadFrameOutcome(p, s);
      && hdr.magic == MagicData
      && (g2.result == size ==> r.DataFrame? && r.header == hdr && r.after == g2.after)
      && (g2.result != size ==> r == EndOfStream(DataReadFailed, g2.after))
  {
    RecvFullResult(p, s, FrameHeaderSize);
    var hb := p.stream[s.pos..s.pos + FrameHeaderSize];
    assert U32At(hb, 0) == U32At(p.stream, s.pos);
  }

  /** A whole frame header with the metadata magic is always followed by the read
      of the 16 remaining bytes of the record: the frame is metadata when they
      arrive, and otherwise the stream ends on a failed metadata read. */
  lemma MetaMagicDispatch(p: Peer, s: LinkState)
    requires Within(p, s)
    requires RecvFullOutcome(p, s, FrameHeaderSize).result == FrameHeaderSize as int
    requires s.pos + FrameHeaderSize <= |p.stream|
    requires U32At(p.stream, s.pos) == MagicMeta
    ensures var g := RecvFullOutcome(p, s, FrameHeaderSize);
      var rest := MetadataSize - FrameHeaderSize;
      var g2 := RecvFullOutcome(p, g.after, rest);
      var r := ReadFrameOutcome(p, s);
      && (g2.result == rest as int ==> r.MetaFrame? && r.after == g2.after)
      && (g2.result != rest as int ==> r == EndOfStream(MetadataReadFailed, g2.after))
  {
    RecvFullResult(p, s, FrameHeaderSize);
    var hb := p.stream[s.pos..s.pos + FrameHeaderSize];
    assert U32At(hb, 0) == U32At(p.stream, s.pos);
  }

  /** Any other magic takes the frame header only and ends the stream; so does a
      frame that does not arrive whole. */
  lemma OtherFrameDispatch(p: Peer, s: LinkState)
    requires Within(p, s)
    ensures var r := ReadFrameOutcome(p, s);
      && (r.EndOfStream? && r.why.UnknownFrame? ==>
          && r.after.pos == s.pos + FrameHeaderSize
          && r.why.magic == U32At(p.stream, s.pos)
          && r.why.magic != MagicData && r.why.magic != MagicMeta)
      && (r.EndOfStream? ==> r.why in {ConnectionLost, DataReadFailed, MetadataReadFailed} || r.why.UnknownFrame?)
  {
    RecvFullResult(p, s, FrameHeaderSize);
    var g := RecvFullOutcome(p, s, FrameHeaderSize);
    if g.result == FrameHeaderSize as int {
      var hb := p.stream[s.pos..g.after.pos];
      assert U32At(hb, 0) == U32At(p.stream, s.pos);
    }
  }

  /** The frame header is the first read of every pass: the stream ends as a lost
      connection exactly when it does not arrive whole. */
  lemma FrameHeaderLost(p: Peer, s: LinkState)
    requires Within(p, s)
    ensures var g := RecvFullOutcome(p, s, FrameHeaderSize);
      g.result != FrameHeaderSize as int <==> ReadFrameOutcome(p, s) == EndOfStream(ConnectionLost, g.after)
  {
  }

  // ---------------------------------------------------------------------------
  // The session as a state machine
  // ---------------------------------------------------------------------------

  datatype Phase = HeaderExchange | Streaming(header: StreamHeader) | Closed(why: Stop)

  /** Where the session is, the link, the output stage, every pair received so far
      and every metadata update reported. */
  datatype SessionState = SessionState(
    phase: Phase, link: LinkState, rx: Out, history: seq<IQ>, reports: seq<MetadataUpdate>)

  /** One step: read the header, or one pass of the frame loop. */
  function Advance(cfg: Config, dsp: seq<IQ> -> real, p: Peer, st: SessionState): (r: SessionState)
    requires Within(p, st.link)
    ensures Within(p, r.link) && st.link.next <= r.link.next
    ensures !st.phase.Closed? ==> r.phase.Closed? || r.link.next > st.link.next
  {
    match st.phase
    case HeaderExchange =>
      var hr := ReadHeaderOutcome(p, st.link);
      st.(phase := if hr.result.Ok? then Streaming(hr.result.value) else Closed(hr.result.error),
          link := hr.after)
    case Streaming(_) =>
      if !st.link.running then st.(phase := Closed(Stopped))
      else
        (match ReadFrameOutcome(p, st.link)
         case DataFrame(hdr, payload, after) =>
           var xs := DecodeSamples(payload);
           st.(link := after, rx := Process(cfg, st.rx, Values(dsp, st.history, xs)), history := st.history + xs)
         case MetaFrame(m, after) => st.(link := after, reports := st.reports + [m])
         case EndOfStream(why, after) => st.(phase := Closed(why), link := after))
    case Closed(_) => st
  }

  /** Steps until the session is closed: every step that does not close it makes at
      least one more receive call from the peer's finite schedule, so this ends. */
  function Run(cfg: Config, dsp: seq<IQ> -> real, p: Peer, st: SessionState): (r: SessionState)
    requires Within(p, st.link)
    ensures r.phase.Closed? && Within(p, r.link) && st.link.next <= r.link.next
    decreases |p.replies| - st.link.next, if st.phase.Closed? then 0 else 1
  {
    if st.phase.Closed? then st
    else Run(cfg, dsp, p, Advance(cfg, dsp, p, st))
  }

  /** The state at the start: nothing received, output stage fresh. */
  function Start(link: LinkState, rx: Out): SessionState
  {
    SessionState(HeaderExchange, link, rx, [], [])
  }

  /** No data frame the session reaches announces more pairs than frame_buffer holds.
      The program never checks this; the model assumes it of the peer. */
  ghost predicate FramesFit(cfg: Config, dsp: seq<IQ> -> real, p: Peer, st: SessionState)
    requires Within(p, st.link)
    decreases |p.replies| - st.link.next, if st.phase.Closed? then 0 else 1
  {
    if st.phase.Closed? then true
    else
      && (st.phase.Streaming? && st.link.running ==> FrameFits(p, st.link))
      && FramesFit(cfg, dsp, p, Advance(cfg, dsp, p, st))
  }

  /** A data frame header, if one arrives, announces at most FrameCapacity pairs. */
  ghost predicate FrameFits(p: Peer, s: LinkState)
    requires Within(p, s)
  {
    RecvFullResult(p, s, FrameHeaderSize);
    var g := RecvFullOutcome(p, s, FrameHeaderSize);
    var hdr := if g.result == FrameHeaderSize as int then DecodeFrameHeader(p.stream[s.pos..g.after.pos])
               else FrameHeader(0, 0, 0, 0);
    hdr.magic == MagicData ==> hdr.numSamples as int <= FrameCapacity
  }

  // ---------------------------------------------------------------------------
  // Properties of the session
  // ---------------------------------------------------------------------------

  /** A stream header with the wrong magic or format closes the session before any
      frame is read: no pair reaches the output stage, nothing is reported, and the
      program exits with 1. */
  lemma HeaderRejectedFirst(cfg: Config, dsp: seq<IQ> -> real, p: Peer, link: LinkState, rx: Out, h: StreamHeader)
    requires Within(p, link)
    requires RecvFullOutcome(p, link, StreamHeaderSize).result == StreamHeaderSize as int
    requires link.pos + StreamHeaderSize <= |p.stream|
    requires DecodeStreamHeader(p.stream[link.pos..link.pos + StreamHeaderSize]) == h
    requires h.magic != MagicHeader || h.sampleFormat != FormatS16
    ensures var fin := Run(cfg, dsp, p, Start(link, rx));
      && fin.phase.Closed? && fin.phase.why.HeaderRejected?
      && fin.rx == rx && fin.history == [] && fin.reports == []
      && ExitCode(fin.phase.why) == 1
  {
    RecvFullResult(p, link, StreamHeaderSize);
    var st := Start(link, rx);
    var next := Advance(cfg, dsp, p, st);
    assert next.phase.Closed?;
  }

  /** A data frame feeds exactly the pairs of its payload, in order, to the output
      stage, and the payload holds as many pairs as the header announces. */
  lemma DataFrameStep(cfg: Config, dsp: seq<IQ> -> real, p: Peer, st: SessionState,
                      hdr: FrameHeader, payload: seq<byte>, after: LinkState)
    requires Within(p, st.link) && st.phase.Streaming? && st.link.running
    requires ReadFrameOutcome(p, st.link) == DataFrame(hdr, payload, after)
    ensures |payload| % BytesPerPair == 0
    ensures var xs := DecodeSamples(payload);
      var r := Advance(cfg, dsp, p, st);
      && |xs| == hdr.numSamples as int
      && r.link == after
      && r.history == st.history + xs
      && r.rx == Process(cfg, st.rx, Values(dsp, st.history, xs))
      && r.phase == st.phase && r.reports == st.reports
  {
  }

  /** A metadata frame is reported and leaves the output stage and the pair history
      untouched. */
  lemma MetadataFrameStep(cfg: Config, dsp: seq<IQ> -> real, p: Peer, st: SessionState)
    requires Within(p, st.link) && st.phase.Streaming? && st.link.running
    requires ReadFrameOutcome(p, st.link).MetaFrame?
    ensures var f := ReadFrameOutcome(p, st.link);
      var r := Advance(cfg, dsp, p, st);
      && r.link == f.after
      && r.reports == st.reports + [f.update]
      && r.rx == st.rx && r.history == st.history && r.phase == st.phase
  {
  }

  /** Once streaming, the session never ends for a reason that belongs to the header
      exchange, so the program exits with 0 however it stops. */
  lemma {:induction false} StreamingEnds(cfg: Config, dsp: seq<IQ> -> real, p: Peer, st: SessionState)
    requires Within(p, st.link) && st.phase.Streaming?
    ensures var fin := Run(cfg, dsp, p, st);
      fin.phase.Closed? && ExitCode(fin.phase.why) == 0
    decreases |p.replies| - st.link.next
  {
    var r := Advance(cfg, dsp, p, st);
    if !r.phase.Closed? {
      StreamingEnds(cfg, dsp, p, r);
    }
  }

  /** A frame with any other magic ends the session, with exit code 0 and the DSP
      state as it was. */
  lemma UnknownFrameStops(cfg: Config, dsp: seq<IQ> -> real, p: Peer, st: SessionState)
    requires Within(p, st.link) && st.phase.Streaming? && st.link.running
    requires RecvFullOutcome(p, st.link, FrameHeaderSize).result == FrameHeaderSize as int
    requires st.link.pos + FrameHeaderSize <= |p.stream|
    requires var m := U32At(p.stream, st.link.pos); m != MagicData && m != MagicMeta
    ensures var r := Advance(cfg, dsp, p, st);
      && r.phase == Closed(UnknownFrame(U32At(p.stream, st.link.pos)))
      && r.rx == st.rx && r.history == st.history && r.reports == st.reports
      && ExitCode(r.phase.why) == 0
  {
    RecvFullResult(p, st.link, FrameHeaderSize);
    var hb := p.stream[st.link.pos..st.link.pos + FrameHeaderSize];
    assert U32At(hb, 0) == U32At(p.stream, st.link.pos);
  }

  /** A frame header that does not arrive whole closes the session as a lost
      connection, with nothing fed to the output stage or reported, and exit code 0. */
  lemma FrameHeaderLostStops(cfg: Config, dsp: seq<IQ> -> real, p: Peer, st: SessionState)
    requires Within(p, st.link) && st.phase.Streaming? && st.link.running
    requires RecvFullOutcome(p, st.link, FrameHeaderSize).result != FrameHeaderSize as int
    ensures var r := Advance(cfg, dsp, p, st);
      && r.phase == Closed(ConnectionLost)
      && r.link == RecvFullOutcome(p, st.link, FrameHeaderSize).after
      && r.rx == st.rx && r.history == st.history && r.reports == st.reports
      && ExitCode(r.phase.why) == 0
  {
  }

  // ---------------------------------------------------------------------------
  // The imperative session
  // ---------------------------------------------------------------------------

  /** read_stream_header(): the magic is checked first, then the sample format. */
  method ReadStreamHeader(link: Link) returns (r: Result<StreamHeader, Stop>)
    requires link.Valid()
    modifies link
    ensures link.Valid()
    ensures var hr := ReadHeaderOutcome(link.peer, old(link.State())); r == hr.result && link.State() == hr.after
  {
    ghost var s := link.State();
    var buf := new byte[StreamHeaderSize];
    var got := link.RecvFull(buf, StreamHeaderSize);
    RecvFullResult(link.peer, s, StreamHeaderSize);
    if got != StreamHeaderSize as int {
      return Err(HeaderReadFailed);
    }
    assert buf[..] == link.peer.stream[s.pos..link.pos];
    var header := DecodeStreamHeader(buf[..]);
    match CheckStreamHeader(header)
    case Ok(h) => r := Ok(h);
    case Err(e) => r := Err(HeaderRejected(e));
  }

  /** One pass of the frame loop up to the dispatch: the frame header into a 16-byte
      record, then the payload into frame_buffer or the rest of the metadata record
      into the tail of a 32-byte one. */
  method ReadFrame(link: Link, frame: array<byte>) returns (r: FrameRead)
    requires link.Valid() && frame.Length == FrameCapacity * BytesPerPair
    requires FrameFits(link.peer, link.State())
    modifies link, frame
    ensures link.Valid()
    ensures r == ReadFrameOutcome(link.peer, old(link.State())) && link.State() == r.after
    ensures r.DataFrame? ==> |r.payload| <= frame.Length && frame[..|r.payload|] == r.payload
  {
    ghost var s := link.State();
    DataFrameDispatch(link.peer, s);
    var hbuf := new byte[FrameHeaderSize];
    var got := link.RecvFull(hbuf, FrameHeaderSize);
    RecvFullResult(link.peer, s, FrameHeaderSize);
    if got != FrameHeaderSize as int {
      return EndOfStream(ConnectionLost, link.State());
    }
    var hb := hbuf[..];
    assert hb == link.peer.stream[s.pos..link.pos];
    ghost var s1 := link.State();
    var hdr := DecodeFrameHeader(hb);
    if hdr.magic == MagicData {
      var size := hdr.numSamples as int * BytesPerPair;
      got := link.RecvFull(frame, size);
      RecvFullResult(link.peer, s1, size);
      if got != size {
        return EndOfStream(DataReadFailed, link.State());
      }
      assert frame[..size] == link.peer.stream[s1.pos..link.pos];
      return DataFrame(hdr, frame[..size], link.State());
    } else if hdr.magic == MagicMeta {
      var rest := MetadataSize - FrameHeaderSize;
      var tail := new byte[rest];
      got := link.RecvFull(tail, rest);
      RecvFullResult(link.peer, s1, rest);
      if got != rest as int {
        return EndOfStream(MetadataReadFailed, link.State());
      }
      assert tail[..] == link.peer.stream[s1.pos..link.pos];
      return MetaFrame(DecodeMetadata(hb + tail[..]), link.State());
    } else {
      return EndOfStream(UnknownFrame(hdr.magic), link.State());
    }
  }

  /** The state of the session as the objects hold it. */
  function Snapshot(phase: Phase, link: Link, rx: Receiver, reports: seq<MetadataUpdate>): SessionState
    reads link, rx, rx.out, rx.sink
    requires 0 <= rx.count <= rx.out.Length
  {
    SessionState(phase, link.State(), rx.State(), rx.history, reports)
  }

  /** The frame loop of main, from an accepted header until the session closes. */
  method Stream(link: Link, rx: Receiver, frame: array<byte>, header: StreamHeader)
    returns (why: Stop, reports: seq<MetadataUpdate>)
    requires link.Valid() && rx.Valid() && frame.Length == FrameCapacity * BytesPerPair
    requires FramesFit(rx.cfg, rx.dsp, link.peer, Snapshot(Streaming(header), link, rx, []))
    modifies link, frame, rx, rx.out, rx.sink, rx.sink.slots, rx.sink.lengths
    ensures link.Valid() && rx.Valid()
    ensures Snapshot(Closed(why), link, rx, reports)
         == Run(rx.cfg, rx.dsp, link.peer, old(Snapshot(Streaming(header), link, rx, [])))
  {
    ghost var goal := Run(rx.cfg, rx.dsp, link.peer, Snapshot(Streaming(header), link, rx, []));
    reports := [];
    while link.running
      invariant link.Valid() && rx.Valid()
      invariant FramesFit(rx.cfg, rx.dsp, link.peer, Snapshot(Streaming(header), link, rx, reports))
      invariant Run(rx.cfg, rx.dsp, link.peer, Snapshot(Streaming(header), link, rx, reports)) == goal
      decreases |link.peer.replies| - link.next
    {
      ghost var st := Snapshot(Streaming(header), link, rx, reports);
      ghost var st' := Advance(rx.cfg, rx.dsp, link.peer, st);
      var r := ReadFrame(link, frame);
      match r {
        case DataFrame(hdr, payload, _) =>
          rx.ProcessIq(frame, hdr.numSamples as nat);
        case MetaFrame(update, _) =>
          reports := reports + [update];
        case EndOfStream(w, _) =>
          assert Snapshot(Closed(w), link, rx, reports) == st';
          return w, reports;
      }
      assert Snapshot(Streaming(header), link, rx, reports) == st';
    }
    why := Stopped;
  }

  /** main from the header read on, once connected: 1 if the stream header failed,
      otherwise 0 whatever ended the frame loop. */
  method Receive(link: Link, rx: Receiver) returns (exitCode: int, why: Stop, reports: seq<MetadataUpdate>)
    requires link.Valid() && rx.Valid() && rx.history == []
    requires FramesFit(rx.cfg, rx.dsp, link.peer, Start(link.State(), rx.State()))
    modifies link, rx, rx.out, rx.sink, rx.sink.slots, rx.sink.lengths
    ensures link.Valid() && rx.Valid()
    ensures var fin := Run(rx.cfg, rx.dsp, link.peer, old(Start(link.State(), rx.State())));
      && fin == Snapshot(Closed(why), link, rx, reports)
      && exitCode == ExitCode(why)
  {
    ghost var st := Start(link.State(), rx.State());
    ghost var st1 := Advance(rx.cfg, rx.dsp, link.peer, st);
    var hr := ReadStreamHeader(link);
    if hr.Err? {
      why, reports := hr.error, [];
      assert st1 == Snapshot(Closed(why), link, rx, reports);
      return 1, why, reports;
    }
    assert st1 == Snapshot(Streaming(hr.value), link, rx, []);
    StreamingEnds(rx.cfg, rx.dsp, link.peer, st1);
    var frame := new byte[FrameCapacity * BytesPerPair];
    why, reports := Stream(link, rx, frame, hr.value);
    exitCode := 0;
  }
}

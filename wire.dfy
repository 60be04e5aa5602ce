/** The I/Q network protocol as it appears on the wire: three packed little-endian
    records of 32-bit words (the stream header, the common frame header and the
    metadata update), the interleaved 16-bit sample payload of a data frame, the
    acceptance test of the stream header and the 64-bit centre frequency that both
    the header and a metadata update carry as two 32-bit halves. */
module Wire {

  newtype byte = x: int | 0 <= x < 0x100
  newtype u32 = x: int | 0 <= x < 0x1_0000_0000
  newtype int16 = x: int | -0x8000 <= x < 0x8000

  datatype Result<T, E> = Ok(value: T) | Err(error: E)

  /** Magic tags, read as little-endian 32-bit words ("PHXI", "IQDQ", "META"). */
  const MagicHeader: u32 := 0x50485849
  const MagicData: u32 := 0x49514451
  const MagicMeta: u32 := 0x4D455441
  /** The only sample format the receiver accepts: interleaved signed 16-bit pairs. */
  const FormatS16: u32 := 1

  /** Sizes of the packed records, in bytes. */
  const StreamHeaderSize: nat := 32
  const FrameHeaderSize: nat := 16
  const MetadataSize: nat := 32
  /** Bytes per (I, Q) pair of the data payload (two 16-bit samples). */
  const BytesPerPair: nat := 4

  // ---------------------------------------------------------------------------
  // 32-bit words
  // ---------------------------------------------------------------------------

  /** The little-endian 32-bit word stored at b[off..off+4]. */
  function U32At(b: seq<byte>, off: nat): u32
    requires off + 4 <= |b|
  {
    (b[off] as int + 0x100 * (b[off + 1] as int + 0x100 * (b[off + 2] as int + 0x100 * b[off + 3] as int))) as u32
  }

  /** The four little-endian bytes of a word. */
  function U32Bytes(x: u32): (b: seq<byte>)
    ensures |b| == 4
  {
    [(x % 0x100) as byte, (x / 0x100 % 0x100) as byte, (x / 0x1_0000 % 0x100) as byte, (x / 0x100_0000) as byte]
  }

  lemma U32RoundTrip(x: u32)
    ensures U32At(U32Bytes(x), 0) == x
  {
    var b := U32Bytes(x);
    var v := x as int;
    assert v == v % 0x100 + 0x100 * (v / 0x100);
    assert v / 0x100 == v / 0x100 % 0x100 + 0x100 * (v / 0x1_0000);
    assert v / 0x1_0000 == v / 0x1_0000 % 0x100 + 0x100 * (v / 0x100_0000);
  }

  lemma U32BytesRoundTrip(b: seq<byte>, off: nat)
    requires off + 4 <= |b|
    ensures U32Bytes(U32At(b, off)) == b[off..off + 4]
  {
    var b0, b1, b2, b3 := b[off] as int, b[off + 1] as int, b[off + 2] as int, b[off + 3] as int;
    var r2 := b2 + 0x100 * b3;
    var r1 := b1 + 0x100 * r2;
    var v := b0 + 0x100 * r1;
    assert v % 0x100 == b0 && v / 0x100 == r1;
    assert r1 % 0x100 == b1 && r1 / 0x100 == r2;
    assert r2 % 0x100 == b2 && r2 / 0x100 == b3;
    assert v / 0x1_0000 == r2;
    assert v / 0x100_0000 == b3;
  }

  /** The words of a record, in order. */
  function Words(b: seq<byte>): (ws: seq<u32>)
    requires |b| % 4 == 0
    ensures |ws| * 4 == |b|
  {
    seq(|b| / 4, k requires 0 <= k < |b| / 4 => U32At(b, 4 * k))
  }

  /** The first word of a record, then the words of the rest of it. */
  lemma WordsCons(b: seq<byte>)
    requires |b| >= 4 && |b| % 4 == 0
    ensures Words(b) == [U32At(b, 0)] + Words(b[4..])
  {
    var ws, rest := Words(b), Words(b[4..]);
    forall k | 0 <= k < |rest|
      ensures ws[k + 1] == rest[k]
    {
      assert U32At(b[4..], 4 * k) == U32At(b, 4 * (k + 1));
    }
  }

  /** The bytes of a sequence of words, each little-endian. */
  function Unwords(ws: seq<u32>): (b: seq<byte>)
    ensures |b| == 4 * |ws|
  {
    if ws == [] then [] else U32Bytes(ws[0]) + Unwords(ws[1..])
  }

  lemma {:induction false} WordsRoundTrip(ws: seq<u32>)
    ensures Words(Unwords(ws)) == ws
  {
    if ws != [] {
      var b := Unwords(ws);
      U32RoundTrip(ws[0]);
      assert b[..4] == U32Bytes(ws[0]);
      assert b[4..] == Unwords(ws[1..]);
      WordsCons(b);
      WordsRoundTrip(ws[1..]);
    }
  }

  lemma {:induction false} UnwordsRoundTrip(b: seq<byte>)
    requires |b| % 4 == 0
    ensures Unwords(Words(b)) == b
    decreases |b|
  {
    if |b| != 0 {
      U32BytesRoundTrip(b, 0);
      UnwordsRoundTrip(b[4..]);
      WordsCons(b);
      assert b == b[0..4] + b[4..];
    }
  }

  // ---------------------------------------------------------------------------
  // The three packed records
  // ---------------------------------------------------------------------------

  /** iq_stream_header_t: sent once by the server right after the connection opens. */
  datatype StreamHeader = StreamHeader(
    magic: u32, version: u32, sampleRate: u32, sampleFormat: u32,
    centerFreqLo: u32, centerFreqHi: u32, gainReduction: u32, lnaState: u32)

  /** iq_data_frame_t: the common header in front of every frame after the stream header. */
  datatype FrameHeader = FrameHeader(magic: u32, sequence: u32, numSamples: u32, flags: u32)

  /** iq_metadata_update_t: a whole metadata frame, its first 16 bytes being the common header. */
  datatype MetadataUpdate = MetadataUpdate(
    magic: u32, sampleRate: u32, sampleFormat: u32, centerFreqLo: u32,
    centerFreqHi: u32, gainReduction: u32, lnaState: u32, reserved: u32)

  function StreamHeaderWords(h: StreamHeader): seq<u32> {
    [h.magic, h.version, h.sampleRate, h.sampleFormat, h.centerFreqLo, h.centerFreqHi, h.gainReduction, h.lnaState]
  }

  function FrameHeaderWords(h: FrameHeader): seq<u32> {
    [h.magic, h.sequence, h.numSamples, h.flags]
  }

  function MetadataWords(m: MetadataUpdate): seq<u32> {
    [m.magic, m.sampleRate, m.sampleFormat, m.centerFreqLo, m.centerFreqHi, m.gainReduction, m.lnaState, m.reserved]
  }

  /** Reads the packed stream header; each field is the word at its offset in the struct. */
  function DecodeStreamHeader(b: seq<byte>): (h: StreamHeader)
    requires |b| == StreamHeaderSize
    ensures h.magic == U32At(b, 0) && h.version == U32At(b, 4)
    ensures h.sampleRate == U32At(b, 8) && h.sampleFormat == U32At(b, 12)
    ensures h.centerFreqLo == U32At(b, 16) && h.centerFreqHi == U32At(b, 20)
    ensures h.gainReduction == U32At(b, 24) && h.lnaState == U32At(b, 28)
  {
    var w := Words(b);
    StreamHeader(w[0], w[1], w[2], w[3], w[4], w[5], w[6], w[7])
  }

  function EncodeStreamHeader(h: StreamHeader): (b: seq<byte>)
    ensures |b| == StreamHeaderSize
  {
    Unwords(StreamHeaderWords(h))
  }

  function DecodeFrameHeader(b: seq<byte>): (h: FrameHeader)
    requires |b| == FrameHeaderSize
    ensures h.magic == U32At(b, 0) && h.sequence == U32At(b, 4)
    ensures h.numSamples == U32At(b, 8) && h.flags == U32At(b, 12)
  {
    var w := Words(b);
    FrameHeader(w[0], w[1], w[2], w[3])
  }

  function EncodeFrameHeader(h: FrameHeader): (b: seq<byte>)
    ensures |b| == FrameHeaderSize
  {
    Unwords(FrameHeaderWords(h))
  }

  function DecodeMetadata(b: seq<byte>): (m: MetadataUpdate)
    requires |b| == MetadataSize
    ensures m.magic == U32At(b, 0) && m.sampleRate == U32At(b, 4)
    ensures m.sampleFormat == U32At(b, 8) && m.centerFreqLo == U32At(b, 12)
    ensures m.centerFreqHi == U32At(b, 16) && m.gainReduction == U32At(b, 20)
    ensures m.lnaState == U32At(b, 24) && m.reserved == U32At(b, 28)
  {
    var w := Words(b);
    MetadataUpdate(w[0], w[1], w[2], w[3], w[4], w[5], w[6], w[7])
  }

  function EncodeMetadata(m: MetadataUpdate): (b: seq<byte>)
    ensures |b| == MetadataSize
  {
    Unwords(MetadataWords(m))
  }

  lemma StreamHeaderRoundTrip(h: StreamHeader)
    ensures DecodeStreamHeader(EncodeStreamHeader(h)) == h
  {
    WordsRoundTrip(StreamHeaderWords(h));
  }

  lemma StreamHeaderBytesRoundTrip(b: seq<byte>)
    requires |b| == StreamHeaderSize
    ensures EncodeStreamHeader(DecodeStreamHeader(b)) == b
  {
    UnwordsRoundTrip(b);
    assert StreamHeaderWords(DecodeStreamHeader(b)) == Words(b);
  }

  lemma FrameHeaderRoundTrip(h: FrameHeader)
    ensures DecodeFrameHeader(EncodeFrameHeader(h)) == h
  {
    WordsRoundTrip(FrameHeaderWords(h));
  }

  lemma FrameHeaderBytesRoundTrip(b: seq<byte>)
    requires |b| == FrameHeaderSize
    ensures EncodeFrameHeader(DecodeFrameHeader(b)) == b
  {
    UnwordsRoundTrip(b);
    assert FrameHeaderWords(DecodeFrameHeader(b)) == Words(b);
  }

  lemma MetadataRoundTrip(m: MetadataUpdate)
    ensures DecodeMetadata(EncodeMetadata(m)) == m
  {
    WordsRoundTrip(MetadataWords(m));
  }

  lemma MetadataBytesRoundTrip(b: seq<byte>)
    requires |b| == MetadataSize
    ensures EncodeMetadata(DecodeMetadata(b)) == b
  {
    UnwordsRoundTrip(b);
    assert MetadataWords(DecodeMetadata(b)) == Words(b);
  }

  /** The metadata record is read over the common header already received: its
      first four fields are the header's four words under other names. */
  lemma MetadataOverlaysFrameHeader(hdr: seq<byte>, rest: seq<byte>)
    requires |hdr| == FrameHeaderSize && |rest| == MetadataSize - FrameHeaderSize
    ensures var h, m := DecodeFrameHeader(hdr), DecodeMetadata(hdr + rest);
      && m.magic == h.magic && m.sampleRate == h.sequence
      && m.sampleFormat == h.numSamples && m.centerFreqLo == h.flags
      && m.centerFreqHi == U32At(rest, 0) && m.gainReduction == U32At(rest, 4)
      && m.lnaState == U32At(rest, 8) && m.reserved == U32At(rest, 12)
  {
    var b := hdr + rest;
    assert b[0..16] == hdr && b[16..32] == rest;
    forall off: nat | off + 4 <= 16
      ensures U32At(b, off) == U32At(hdr, off) && U32At(b, 16 + off) == U32At(rest, off)
    {
      assert b[off] == hdr[off] && b[off + 3] == hdr[off + 3];
    }
  }

  // ---------------------------------------------------------------------------
  // Stream header acceptance and the centre frequency
  // ---------------------------------------------------------------------------

  datatype HeaderError = BadMagic(magic: u32) | UnsupportedFormat(format: u32)

  /** The checks of read_stream_header once the 32 bytes are in: the magic first,
      then the sample format. */
  function CheckStreamHeader(h: StreamHeader): (r: Result<StreamHeader, HeaderError>)
    ensures r.Ok? <==> h.magic == MagicHeader && h.sampleFormat == FormatS16
    ensures r.Ok? ==> r.value == h
    ensures h.magic != MagicHeader ==> r == Err(BadMagic(h.magic))
    ensures h.magic == MagicHeader && h.sampleFormat != FormatS16 ==> r == Err(UnsupportedFormat(h.sampleFormat))
  {
    if h.magic != MagicHeader then Err(BadMagic(h.magic))
    else if h.sampleFormat != FormatS16 then Err(UnsupportedFormat(h.sampleFormat))
    else Ok(h)
  }

  /** ((uint64_t)hi << 32) | lo: the 64-bit centre frequency in Hz. */
  function CenterFreq(lo: u32, hi: u32): (f: bv64)
    ensures f & 0xFFFF_FFFF == lo as bv64
    ensures f >> 32 == hi as bv64
  {
    ((hi as bv64) << 32) | (lo as bv64)
  }

  /** The frequency a stream header carries: its low half is the word at offset 16,
      its high half the word at offset 20. */
  lemma HeaderFrequency(b: seq<byte>)
    requires |b| == StreamHeaderSize
    ensures var h := DecodeStreamHeader(b); var f := CenterFreq(h.centerFreqLo, h.centerFreqHi);
      f & 0xFFFF_FFFF == U32At(b, 16) as bv64 && f >> 32 == U32At(b, 20) as bv64
  {
  }

  /** The frequency a metadata record carries: its low half is the word at offset 12,
      its high half the word at offset 16. */
  lemma MetadataFrequency(b: seq<byte>)
    requires |b| == MetadataSize
    ensures var m := DecodeMetadata(b); var f := CenterFreq(m.centerFreqLo, m.centerFreqHi);
      f & 0xFFFF_FFFF == U32At(b, 12) as bv64 && f >> 32 == U32At(b, 16) as bv64
  {
  }

  // ---------------------------------------------------------------------------
  // Data frame payload: interleaved (I, Q) pairs of signed 16-bit samples
  // ---------------------------------------------------------------------------

  datatype IQ = IQ(i: int16, q: int16)

  /** The little-endian two's-complement 16-bit sample at b[off..off+2]. */
  function I16At(b: seq<byte>, off: nat): int16
    requires off + 2 <= |b|
  {
    var u := b[off] as int + 0x100 * b[off + 1] as int;
    (if u >= 0x8000 then u - 0x1_0000 else u) as int16
  }

  function I16Bytes(x: int16): (b: seq<byte>)
    ensures |b| == 2
  {
    var u := if x < 0 then x as int + 0x1_0000 else x as int;
    [(u % 0x100) as byte, (u / 0x100) as byte]
  }

  lemma I16RoundTrip(x: int16)
    ensures I16At(I16Bytes(x), 0) == x
  {
    var u := if x < 0 then x as int + 0x1_0000 else x as int;
    assert u == u % 0x100 + 0x100 * (u / 0x100);
  }

  lemma I16BytesRoundTrip(b: seq<byte>, off: nat)
    requires off + 2 <= |b|
    ensures I16Bytes(I16At(b, off)) == b[off..off + 2]
  {
    var u := b[off] as int + 0x100 * b[off + 1] as int;
    assert u % 0x100 == b[off] as int && u / 0x100 == b[off + 1] as int;
  }

  /** The (I, Q) pairs of a data payload, which holds BytesPerPair bytes per pair. */
  function DecodeSamples(b: seq<byte>): (s: seq<IQ>)
    requires |b| % BytesPerPair == 0
    ensures |s| * BytesPerPair == |b|
  {
    seq(|b| / BytesPerPair, k requires 0 <= k < |b| / BytesPerPair => IQ(I16At(b, 4 * k), I16At(b, 4 * k + 2)))
  }

  /** The first pair of a payload, then the pairs of the rest of it. */
  lemma DecodeSamplesCons(b: seq<byte>)
    requires |b| >= BytesPerPair && |b| % BytesPerPair == 0
    ensures DecodeSamples(b) == [IQ(I16At(b, 0), I16At(b, 2))] + DecodeSamples(b[4..])
  {
    var s, t := DecodeSamples(b), DecodeSamples(b[4..]);
    forall k | 0 <= k < |t|
      ensures s[k + 1] == t[k]
    {
      assert I16At(b[4..], 4 * k) == I16At(b, 4 * (k + 1));
      assert I16At(b[4..], 4 * k + 2) == I16At(b, 4 * (k + 1) + 2);
    }
  }

  function EncodeSamples(s: seq<IQ>): (b: seq<byte>)
    ensures |b| == BytesPerPair * |s|
  {
    if s == [] then [] else I16Bytes(s[0].i) + I16Bytes(s[0].q) + EncodeSamples(s[1..])
  }

  lemma {:induction false} SamplesRoundTrip(s: seq<IQ>)
    ensures DecodeSamples(EncodeSamples(s)) == s
  {
    if s != [] {
      var b := EncodeSamples(s);
      I16RoundTrip(s[0].i);
      I16RoundTrip(s[0].q);
      assert b[0..2] == I16Bytes(s[0].i) && b[2..4] == I16Bytes(s[0].q);
      assert I16At(b, 0) == I16At(b[0..2], 0) && I16At(b, 2) == I16At(b[2..4], 0);
      assert b[4..] == EncodeSamples(s[1..]);
      DecodeSamplesCons(b);
      SamplesRoundTrip(s[1..]);
    }
  }

  lemma {:induction false} SampleBytesRoundTrip(b: seq<byte>)
    requires |b| % BytesPerPair == 0
    ensures EncodeSamples(DecodeSamples(b)) == b
    decreases |b|
  {
    if |b| != 0 {
      var s := DecodeSamples(b);
      I16BytesRoundTrip(b, 0);
      I16BytesRoundTrip(b, 2);
      DecodeSamplesCons(b);
      assert s[1..] == DecodeSamples(b[4..]);
      SampleBytesRoundTrip(b[4..]);
      assert b == b[0..2] + b[2..4] + b[4..];
    }
  }
}

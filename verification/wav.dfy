/**
 * `encodeWav` of app.js: a canonical 44-byte header for the WAVE form of RIFF
 * (Microsoft/IBM Multimedia Programming Interface and Data Specifications 1.0,
 * "WAVE Form Type", `fmt ` chunk with WAVE_FORMAT_PCM = 1), followed by the
 * interleaved samples as little-endian 16-bit integers.
 */
module Wav {
  import opened Wrappers
  import opened Numeric
  import opened Bytes
  import opened Pcm

  const HeaderSize: nat := 44
  const BytesPerSample: nat := 2
  const FmtChunkSize: int := 16
  const WaveFormatPcm: int := 1
  const BitsPerSample: int := 16

  /** Bytes per frame: one 16-bit sample per channel. */
  function BlockAlign(numChannels: nat): nat
  {
    numChannels * BytesPerSample
  }

  /** The RIFF chunk descriptor: "RIFF", the size of everything after it, "WAVE". */
  function RiffDescriptor(dataLength: nat): (d: seq<Byte>)
    ensures |d| == 12
  {
    CharCodes("RIFF") + Uint32Le(36 + dataLength) + CharCodes("WAVE")
  }

  /** The `fmt ` chunk of a 16-bit PCM stream: format tag 1, channels, rate, byte rate, block align. */
  function FmtChunk(numChannels: nat, sampleRate: nat): (f: seq<Byte>)
    ensures |f| == 24
  {
    var blockAlign := BlockAlign(numChannels);
    CharCodes("fmt ") + Uint32Le(FmtChunkSize) + Uint16Le(WaveFormatPcm) + Uint16Le(numChannels)
    + Uint32Le(sampleRate) + Uint32Le(sampleRate * blockAlign) + Uint16Le(blockAlign) + Uint16Le(BitsPerSample)
  }

  /** The head of the `data` chunk: "data" and the number of sample bytes. */
  function DataChunkHead(dataLength: nat): (d: seq<Byte>)
    ensures |d| == 8
  {
    CharCodes("data") + Uint32Le(dataLength)
  }

  /** The header, written field by field as the DataView calls of `encodeWav` write it. */
  function Header(numChannels: nat, sampleRate: nat, dataLength: nat): (h: seq<Byte>)
    ensures |h| == HeaderSize
  {
    RiffDescriptor(dataLength) + FmtChunk(numChannels, sampleRate) + DataChunkHead(dataLength)
  }

  /** The sample loop of `encodeWav`: `setInt16` of every clamped, scaled sample, in order. */
  function SampleBytes(xs: seq<real>): (b: seq<Byte>)
    ensures |b| == BytesPerSample * |xs|
    decreases |xs|
  {
    if xs == [] then [] else SampleBytes(xs[..|xs| - 1]) + Int16Le(Scaled(xs[|xs| - 1]))
  }

  lemma ReadUint16At(b: seq<Byte>, off: nat, field: seq<Byte>)
    requires off + 2 <= |b| && b[off..off + 2] == field
    ensures ReadUint16Le(b, off) == ReadUint16Le(field, 0)
  {
    assert b[off] == field[0] && b[off + 1] == field[1];
  }

  lemma ReadInt16At(b: seq<Byte>, off: nat, field: seq<Byte>)
    requires off + 2 <= |b| && b[off..off + 2] == field
    ensures ReadInt16Le(b, off) == ReadInt16Le(field, 0)
  {
    ReadUint16At(b, off, field);
  }

  lemma ReadUint32At(b: seq<Byte>, off: nat, field: seq<Byte>)
    requires off + 4 <= |b| && b[off..off + 4] == field
    ensures ReadUint32Le(b, off) == ReadUint32Le(field, 0)
  {
    assert b[off] == field[0] && b[off + 1] == field[1] && b[off + 2] == field[2] && b[off + 3] == field[3];
  }

  /** Sample `i` sits at byte `2 i` of the sample area and reads back as its quantised value. */
  lemma {:induction false} SampleBytesAt(xs: seq<real>, i: nat)
    requires i < |xs|
    ensures ReadInt16Le(SampleBytes(xs), BytesPerSample * i) == Quantize(xs[i])
    decreases |xs|
  {
    var init := xs[..|xs| - 1];
    var tail := Int16Le(Scaled(xs[|xs| - 1]));
    assert SampleBytes(xs) == SampleBytes(init) + tail;
    if i == |xs| - 1 {
      assert SampleBytes(xs)[2 * i..2 * i + 2] == tail;
      ReadInt16At(SampleBytes(xs), 2 * i, tail);
    } else {
      SampleBytesAt(init, i);
      assert SampleBytes(xs)[2 * i..2 * i + 2] == SampleBytes(init)[2 * i..2 * i + 2];
      ReadInt16At(SampleBytes(xs), 2 * i, SampleBytes(init)[2 * i..2 * i + 2]);
      ReadInt16At(SampleBytes(init), 2 * i, SampleBytes(init)[2 * i..2 * i + 2]);
    }
  }

  lemma RiffDescriptorFields(dataLength: nat, b: seq<Byte>)
    requires b == RiffDescriptor(dataLength)
    ensures b[0..4] == CharCodes("RIFF")
    ensures ReadUint32Le(b, 4) == ToUint32(36 + dataLength)
    ensures b[8..12] == CharCodes("WAVE")
  {
    ReadUint32At(b, 4, Uint32Le(36 + dataLength));
  }

  lemma FmtChunkFields(numChannels: nat, sampleRate: nat, b: seq<Byte>)
    requires b == FmtChunk(numChannels, sampleRate)
    ensures b[0..4] == CharCodes("fmt ")
    ensures ReadUint32Le(b, 4) == FmtChunkSize
    ensures ReadUint16Le(b, 8) == WaveFormatPcm
    ensures ReadUint16Le(b, 10) == ToUint16(numChannels)
    ensures ReadUint32Le(b, 12) == ToUint32(sampleRate)
    ensures ReadUint32Le(b, 16) == ToUint32(sampleRate * BlockAlign(numChannels))
    ensures ReadUint16Le(b, 20) == ToUint16(BlockAlign(numChannels))
    ensures ReadUint16Le(b, 22) == BitsPerSample
  {
    var blockAlign := BlockAlign(numChannels);
    ReadUint32At(b, 4, Uint32Le(FmtChunkSize));
    ReadUint16At(b, 8, Uint16Le(WaveFormatPcm));
    ReadUint16At(b, 10, Uint16Le(numChannels));
    ReadUint32At(b, 12, Uint32Le(sampleRate));
    assert b[16..20] == Uint32Le(sampleRate * blockAlign);
    ReadUint32At(b, 16, Uint32Le(sampleRate * blockAlign));
    ReadUint16At(b, 20, Uint16Le(blockAlign));
    ReadUint16At(b, 22, Uint16Le(BitsPerSample));
  }

  lemma DataChunkHeadFields(dataLength: nat, b: seq<Byte>)
    requires b == DataChunkHead(dataLength)
    ensures b[0..4] == CharCodes("data")
    ensures ReadUint32Le(b, 4) == ToUint32(dataLength)
  {
    ReadUint32At(b, 4, Uint32Le(dataLength));
  }

  lemma ReadPrefix(p: seq<Byte>, q: seq<Byte>, off: nat)
    ensures off + 2 <= |p| ==> ReadUint16Le(p + q, off) == ReadUint16Le(p, off)
    ensures off + 2 <= |p| ==> ReadInt16Le(p + q, off) == ReadInt16Le(p, off)
    ensures off + 4 <= |p| ==> ReadUint32Le(p + q, off) == ReadUint32Le(p, off)
  {
  }

  lemma ReadSuffix(p: seq<Byte>, q: seq<Byte>, off: nat)
    ensures off + 2 <= |q| ==> ReadUint16Le(p + q, |p| + off) == ReadUint16Le(q, off)
    ensures off + 2 <= |q| ==> ReadInt16Le(p + q, |p| + off) == ReadInt16Le(q, off)
    ensures off + 4 <= |q| ==> ReadUint32Le(p + q, |p| + off) == ReadUint32Le(q, off)
  {
  }

  /** The fields of the 44-byte header, each at its fixed offset, as `encodeWav` writes them. */
  predicate HeaderFields(b: seq<Byte>, numChannels: nat, sampleRate: nat, dataLength: nat)
  {
    && |b| >= HeaderSize
    && b[0..4] == CharCodes("RIFF")
    && ReadUint32Le(b, 4) == ToUint32(36 + dataLength)
    && b[8..12] == CharCodes("WAVE")
    && b[12..16] == CharCodes("fmt ")
    && ReadUint32Le(b, 16) == FmtChunkSize
    && ReadUint16Le(b, 20) == WaveFormatPcm
    && ReadUint16Le(b, 22) == ToUint16(numChannels)
    && ReadUint32Le(b, 24) == ToUint32(sampleRate)
    && ReadUint32Le(b, 28) == ToUint32(sampleRate * BlockAlign(numChannels))
    && ReadUint16Le(b, 32) == ToUint16(BlockAlign(numChannels))
    && ReadUint16Le(b, 34) == BitsPerSample
    && b[36..40] == CharCodes("data")
    && ReadUint32Le(b, 40) == ToUint32(dataLength)
  }

  /** Every field of the 44-byte header at its fixed offset. */
  lemma HeaderLayout(numChannels: nat, sampleRate: nat, dataLength: nat)
    ensures HeaderFields(Header(numChannels, sampleRate, dataLength), numChannels, sampleRate, dataLength)
  {
    var riff := RiffDescriptor(dataLength);
    var fmt := FmtChunk(numChannels, sampleRate);
    var head := DataChunkHead(dataLength);
    var h := Header(numChannels, sampleRate, dataLength);
    assert h == (riff + fmt) + head;
    RiffDescriptorFields(dataLength, riff);
    FmtChunkFields(numChannels, sampleRate, fmt);
    DataChunkHeadFields(dataLength, head);
    ReadPrefix(riff + fmt, head, 4);
    ReadPrefix(riff, fmt, 4);
    forall k: nat | k + 4 <= 24
      ensures ReadUint32Le(h, 12 + k) == ReadUint32Le(fmt, k)
      ensures k + 2 <= 24 ==> ReadUint16Le(h, 12 + k) == ReadUint16Le(fmt, k)
    {
      ReadPrefix(riff + fmt, head, 12 + k);
      ReadSuffix(riff, fmt, k);
    }
    assert ReadUint16Le(h, 12 + 22) == ReadUint16Le(fmt, 22) by {
      ReadPrefix(riff + fmt, head, 34);
      ReadSuffix(riff, fmt, 22);
    }
    ReadSuffix(riff + fmt, head, 4);
    assert h[0..4] == riff[0..4];
    assert h[8..12] == riff[8..12];
    assert h[12..16] == fmt[0..4];
    assert h[36..40] == head[0..4];
  }

  /** Appending bytes after a header leaves its fields where they are. */
  lemma HeaderFieldsPrefix(h: seq<Byte>, rest: seq<Byte>, numChannels: nat, sampleRate: nat, dataLength: nat)
    requires HeaderFields(h, numChannels, sampleRate, dataLength)
    ensures HeaderFields(h + rest, numChannels, sampleRate, dataLength)
  {
    var b := h + rest;
    forall off: nat | off + 4 <= HeaderSize
      ensures ReadUint32Le(b, off) == ReadUint32Le(h, off)
      ensures ReadUint16Le(b, off) == ReadUint16Le(h, off)
    {
      ReadPrefix(h, rest, off);
    }
    assert ReadUint16Le(b, 34) == ReadUint16Le(h, 34) by {
      ReadPrefix(h, rest, 34);
    }
    assert b[0..4] == h[0..4] && b[8..12] == h[8..12] && b[12..16] == h[12..16] && b[36..40] == h[36..40];
  }

  /** The header followed by the sample area, as `encodeWav` lays out `xs` in one buffer. */
  function WavFile(numChannels: nat, sampleRate: nat, xs: seq<real>): (bytes: seq<Byte>)
    ensures |bytes| == HeaderSize + BytesPerSample * |xs|
  {
    Header(numChannels, sampleRate, |xs| * BytesPerSample) + SampleBytes(xs)
  }

  /** `encodeWav`: the bytes of the returned "audio/wav" Blob. */
  function EncodeWav(buf: AudioBuffer): (bytes: seq<Byte>)
    requires buf.Valid()
    ensures |bytes| == HeaderSize + BytesPerSample * (buf.length * buf.NumberOfChannels())
  {
    WavFile(buf.NumberOfChannels(), buf.sampleRate, Interleave(buf))
  }

  /** Sample `i` of `xs` reads back at byte `44 + 2 i` of the file as its quantised value. */
  lemma WavSamplesAt(numChannels: nat, sampleRate: nat, xs: seq<real>)
    ensures forall i :: 0 <= i < |xs| ==>
              ReadInt16Le(WavFile(numChannels, sampleRate, xs), HeaderSize + BytesPerSample * i) == Quantize(xs[i])
  {
    var h := Header(numChannels, sampleRate, |xs| * BytesPerSample);
    var samples := SampleBytes(xs);
    forall i | 0 <= i < |xs|
      ensures ReadInt16Le(h + samples, HeaderSize + BytesPerSample * i) == Quantize(xs[i])
    {
      SampleBytesAt(xs, i);
      ReadSuffix(h, samples, 2 * i);
    }
  }

  /** Header fields at their offsets, then sample `i` of `xs` at byte `44 + 2 i`. */
  lemma WavFileLayout(numChannels: nat, sampleRate: nat, xs: seq<real>)
    ensures HeaderFields(WavFile(numChannels, sampleRate, xs), numChannels, sampleRate, BytesPerSample * |xs|)
    ensures forall i :: 0 <= i < |xs| ==>
              ReadInt16Le(WavFile(numChannels, sampleRate, xs), HeaderSize + BytesPerSample * i) == Quantize(xs[i])
  {
    var dataLength := |xs| * BytesPerSample;
    HeaderLayout(numChannels, sampleRate, dataLength);
    HeaderFieldsPrefix(Header(numChannels, sampleRate, dataLength), SampleBytes(xs), numChannels, sampleRate, dataLength);
    WavSamplesAt(numChannels, sampleRate, xs);
  }

  /**
   * Where everything lies in an encoded buffer: the RIFF descriptor, the `fmt `
   * chunk and the `data` chunk head at their fixed offsets, with the buffer's
   * channel count and rate, then sample `i` of the interleaved stream at
   * byte `44 + 2 i`.
   */
  lemma EncodeWavLayout(buf: AudioBuffer)
    requires buf.Valid()
    ensures var bytes := EncodeWav(buf);
            var interleaved := Interleave(buf);
            && |bytes| == HeaderSize + BytesPerSample * |interleaved|
            && HeaderFields(bytes, buf.NumberOfChannels(), buf.sampleRate, BytesPerSample * |interleaved|)
            && forall i :: 0 <= i < |interleaved| ==>
                 ReadInt16Le(bytes, HeaderSize + BytesPerSample * i) == Quantize(interleaved[i])
  {
    WavFileLayout(buf.NumberOfChannels(), buf.sampleRate, Interleave(buf));
  }

  /** What a reader of a 16-bit PCM WAVE file recovers from its header and `data` chunk. */
  datatype WavInfo = WavInfo(numChannels: int, sampleRate: int, byteRate: int, blockAlign: int, samples: seq<int>)

  /**
   * The files the reader accepts: a single `fmt ` chunk of 16 bytes with
   * format tag 1 and 16 bits per sample, followed directly by the `data`
   * chunk, with both size fields consistent with the file length.
   */
  predicate Accepts(b: seq<Byte>)
  {
    && |b| >= HeaderSize && |b| % 2 == 0
    && b[0..4] == CharCodes("RIFF") && ReadUint32Le(b, 4) == |b| - 8 && b[8..12] == CharCodes("WAVE")
    && b[12..16] == CharCodes("fmt ") && ReadUint32Le(b, 16) == FmtChunkSize
    && ReadUint16Le(b, 20) == WaveFormatPcm && ReadUint16Le(b, 34) == BitsPerSample
    && b[36..40] == CharCodes("data") && ReadUint32Le(b, 40) == |b| - HeaderSize
  }

  /** The samples of the `data` chunk, in order. */
  function ReadSamples(b: seq<Byte>): (samples: seq<int>)
    requires |b| >= HeaderSize
    ensures |samples| == (|b| - HeaderSize) / BytesPerSample
  {
    var count := (|b| - HeaderSize) / BytesPerSample;
    seq(count, i requires 0 <= i < count => ReadInt16Le(b, HeaderSize + BytesPerSample * i))
  }

  /** A reader for the files `encodeWav` writes. */
  function DecodeWav(b: seq<Byte>): Option<WavInfo>
  {
    if !Accepts(b) then None
    else Some(WavInfo(ReadUint16Le(b, 22), ReadUint32Le(b, 24), ReadUint32Le(b, 28), ReadUint16Le(b, 32), ReadSamples(b)))
  }

  /** The reader accepts every written file whose RIFF size fits in its 32-bit field. */
  lemma AcceptsWavFile(numChannels: nat, sampleRate: nat, xs: seq<real>)
    requires 36 + BytesPerSample * |xs| < TwoTo32
    ensures Accepts(WavFile(numChannels, sampleRate, xs))
  {
    var b := WavFile(numChannels, sampleRate, xs);
    var dataLength := BytesPerSample * |xs|;
    WavFileLayout(numChannels, sampleRate, xs);
    assert ToUint32(36 + dataLength) == |b| - 8;
    assert ToUint32(dataLength) == |b| - HeaderSize;
    EvenLength(|xs|);
  }

  lemma EvenLength(count: nat)
    ensures (HeaderSize + BytesPerSample * count) % 2 == 0
  {
    assert HeaderSize + BytesPerSample * count == 2 * (22 + count);
  }

  /** The reader gets back exactly the quantised samples. */
  lemma ReadSamplesWavFile(numChannels: nat, sampleRate: nat, xs: seq<real>)
    ensures ReadSamples(WavFile(numChannels, sampleRate, xs)) == QuantizeAll(xs)
  {
    WavSamplesAt(numChannels, sampleRate, xs);
  }

  /**
   * Round trip: reading back an encoded buffer gives its channel count, rate,
   * byte rate and block align (as the 16- and 32-bit fields hold them) and
   * exactly the quantised interleaved samples, whenever the RIFF size fits in
   * its 32-bit field.
   */
  lemma DecodeWavFile(numChannels: nat, sampleRate: nat, xs: seq<real>)
    requires 36 + BytesPerSample * |xs| < TwoTo32
    ensures DecodeWav(WavFile(numChannels, sampleRate, xs)) == Some(WavInfo(
              ToUint16(numChannels), ToUint32(sampleRate), ToUint32(sampleRate * BlockAlign(numChannels)),
              ToUint16(BlockAlign(numChannels)), QuantizeAll(xs)))
  {
    AcceptsWavFile(numChannels, sampleRate, xs);
    ReadSamplesWavFile(numChannels, sampleRate, xs);
    WavFileLayout(numChannels, sampleRate, xs);
  }

  lemma DecodeEncodeWav(buf: AudioBuffer)
    requires buf.Valid()
    requires 36 + BytesPerSample * (buf.length * buf.NumberOfChannels()) < TwoTo32
    ensures DecodeWav(EncodeWav(buf)) == Some(WavInfo(
              ToUint16(buf.NumberOfChannels()), ToUint32(buf.sampleRate),
              ToUint32(buf.sampleRate * BlockAlign(buf.NumberOfChannels())),
              ToUint16(BlockAlign(buf.NumberOfChannels())),
              QuantizeAll(Interleave(buf))))
  {
    DecodeWavFile(buf.NumberOfChannels(), buf.sampleRate, Interleave(buf));
  }

  /** A mono file of four samples at 44100 Hz: 52 bytes, each sample truncated toward zero. */
  lemma WavFourSampleExample()
    ensures |EncodeWav(AudioBuffer(44100, 4, [[0.0, 0.5, -0.5, 1.0]]))| == 52
    ensures ReadUint32Le(EncodeWav(AudioBuffer(44100, 4, [[0.0, 0.5, -0.5, 1.0]])), 4) == 44
    ensures ReadUint16Le(EncodeWav(AudioBuffer(44100, 4, [[0.0, 0.5, -0.5, 1.0]])), 22) == 1
    ensures ReadUint32Le(EncodeWav(AudioBuffer(44100, 4, [[0.0, 0.5, -0.5, 1.0]])), 24) == 44100
    ensures ReadUint32Le(EncodeWav(AudioBuffer(44100, 4, [[0.0, 0.5, -0.5, 1.0]])), 28) == 88200
    ensures ReadUint16Le(EncodeWav(AudioBuffer(44100, 4, [[0.0, 0.5, -0.5, 1.0]])), 32) == 2
    ensures ReadUint32Le(EncodeWav(AudioBuffer(44100, 4, [[0.0, 0.5, -0.5, 1.0]])), 40) == 8
    ensures ReadInt16Le(EncodeWav(AudioBuffer(44100, 4, [[0.0, 0.5, -0.5, 1.0]])), 44) == 0
    ensures ReadInt16Le(EncodeWav(AudioBuffer(44100, 4, [[0.0, 0.5, -0.5, 1.0]])), 46) == 16383
    ensures ReadInt16Le(EncodeWav(AudioBuffer(44100, 4, [[0.0, 0.5, -0.5, 1.0]])), 48) == -16384
    ensures ReadInt16Le(EncodeWav(AudioBuffer(44100, 4, [[0.0, 0.5, -0.5, 1.0]])), 50) == 32767
  {
    var buf := AudioBuffer(44100, 4, [[0.0, 0.5, -0.5, 1.0]]);
    assert buf.NumberOfChannels() == 1;
    EncodeWavLayout(buf);
    var interleaved := Interleave(buf);
    assert interleaved == [0.0, 0.5, -0.5, 1.0];
    assert interleaved[0] == 0.0 && interleaved[1] == 0.5 && interleaved[2] == -0.5 && interleaved[3] == 1.0;
    assert Trunc(16383.5) == 16383;
    assert Quantize(0.5) == 16383;
    assert Quantize(-0.5) == -16384;
    assert BlockAlign(1) == 2;
  }
}

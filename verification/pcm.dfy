/**
 * Decoded PCM audio and the sample rules shared by both encoders in app.js:
 * the float-to-int16 quantisation (clamp, asymmetric scale, ToInt16 store)
 * and frame-major channel interleaving.
 */
module Pcm {
  import opened Numeric

  /**
   * A Web Audio AudioBuffer: `channels[c]` is `getChannelData(c)`,
   * `|channels|` is `numberOfChannels`.
   */
  datatype AudioBuffer = AudioBuffer(sampleRate: nat, length: nat, channels: seq<seq<real>>) {

    function NumberOfChannels(): nat
    {
      |channels|
    }

    /** What the platform guarantees of every AudioBuffer: at least one channel, all of `length` frames. */
    predicate Valid()
    {
      && |channels| >= 1
      && forall c :: 0 <= c < |channels| ==> |channels[c]| == length
    }
  }

  /** `Math.max(-1, Math.min(1, x))`. */
  function Clamp(x: real): (s: real)
    ensures -1.0 <= s <= 1.0
    ensures -1.0 <= x <= 1.0 ==> s == x
  {
    Max(-1.0, Min(1.0, x))
  }

  /** The value handed to the Int16 store: negatives scaled by 0x8000, the rest by 0x7fff. */
  function Scaled(x: real): real
  {
    var s := Clamp(x);
    if s < 0.0 then s * 32768.0 else s * 32767.0
  }

  /**
   * One sample as `floatToInt16` and the WAV writer store it: the scaled
   * value converted by ToInt16. Because the scaled value never leaves the
   * int16 range, the store is a plain truncation toward zero and never wraps.
   */
  function Quantize(x: real): (q: int)
    ensures -32768 <= q <= 32767
    ensures x <= -1.0 ==> q == -32768
    ensures x >= 1.0 ==> q == 32767
    ensures -1.0 < x < 0.0 ==> q as real - 1.0 < x * 32768.0 <= q as real <= 0.0
    ensures 0.0 <= x < 1.0 ==> 0.0 <= q as real <= x * 32767.0 < q as real + 1.0
  {
    ToInt16(Scaled(x))
  }

  /** Quantisation is monotone non-decreasing, despite the two different scale factors. */
  lemma QuantizeMonotone(x: real, y: real)
    requires x <= y
    ensures Quantize(x) <= Quantize(y)
  {
    var sx, sy := Clamp(x), Clamp(y);
    assert sx <= sy;
    if sx < 0.0 && 0.0 <= sy {
      assert Scaled(x) < 0.0 <= Scaled(y);
    } else if sx < 0.0 {
      assert Scaled(x) == sx * 32768.0 <= sy * 32768.0 == Scaled(y);
    } else {
      assert Scaled(x) == sx * 32767.0 <= sy * 32767.0 == Scaled(y);
    }
    TruncMonotone(Scaled(x), Scaled(y));
  }

  /** Every sample of a buffer quantised, position by position. */
  function QuantizeAll(xs: seq<real>): (r: seq<int>)
    ensures |r| == |xs|
    ensures forall i :: 0 <= i < |xs| ==> r[i] == Quantize(xs[i])
  {
    seq(|xs|, i requires 0 <= i < |xs| => Quantize(xs[i]))
  }

  /** `floatToInt16`: a fresh Int16Array holding the quantised samples of `buffer`. */
  method FloatToInt16(buffer: seq<real>) returns (result: seq<int>)
    ensures |result| == |buffer|
    ensures forall i :: 0 <= i < |buffer| ==> -32768 <= result[i] <= 32767
    ensures forall i :: 0 <= i < |buffer| && buffer[i] <= -1.0 ==> result[i] == -32768
    ensures forall i :: 0 <= i < |buffer| && buffer[i] >= 1.0 ==> result[i] == 32767
    ensures forall i :: 0 <= i < |buffer| && buffer[i] == 0.0 ==> result[i] == 0
    ensures forall i, j :: 0 <= i < |buffer| && 0 <= j < |buffer| && buffer[i] <= buffer[j] ==> result[i] <= result[j]
    ensures result == QuantizeAll(buffer)
  {
    result := [];
    var i := 0;
    while i < |buffer|
      invariant 0 <= i <= |buffer|
      invariant result == QuantizeAll(buffer[..i])
    {
      result := result + [Quantize(buffer[i])];
      i := i + 1;
      assert buffer[..i] == buffer[..i - 1] + [buffer[i - 1]];
    }
    assert buffer[..i] == buffer;
    forall i, j | 0 <= i < |buffer| && 0 <= j < |buffer| && buffer[i] <= buffer[j]
      ensures result[i] <= result[j]
    {
      QuantizeMonotone(buffer[i], buffer[j]);
    }
  }

  lemma MulAtLeast(a: int, n: nat)
    requires a >= 1
    ensures a * n >= n
  {
  }

  /** Euclidean division recovers frame and channel from a frame-major index. */
  lemma FrameMajorIndex(i: nat, c: nat, n: nat)
    requires c < n
    ensures (i * n + c) / n == i && (i * n + c) % n == c
  {
    var k := i * n + c;
    var q, r := k / n, k % n;
    assert k == q * n + r;
    assert (q - i) * n == c - r;
    if q > i {
      MulAtLeast(q - i, n);
    } else if q < i {
      MulAtLeast(i - q, n);
    }
  }

  /** A frame-major index of a `frames`-by-`n` interleaving stays inside it. */
  lemma FrameMajorBound(i: nat, c: nat, n: nat, frames: nat)
    requires c < n && i < frames
    ensures i * n + c < frames * n
  {
    MulAtLeast(frames - i, n);
    assert (frames - i) * n == frames * n - i * n;
  }

  /** Any index below `frames * n` is a frame below `frames` and a channel below `n`. */
  lemma FrameMajorSplit(k: nat, n: nat, frames: nat)
    requires 0 < n && k < frames * n
    ensures k / n < frames && k % n < n
  {
    var q := k / n;
    assert k == q * n + k % n;
    if q > frames {
      MulAtLeast(q - frames, n);
    }
  }

  /** Position of channel `c` of frame `i` in a frame-major interleaving of `n` channels. */
  function FrameIndex(i: nat, c: nat, n: nat): nat
  {
    i * n + c
  }

  /** Sample `k` of the frame-major interleaving of `channels`. */
  function FrameMajorSample(channels: seq<seq<real>>, frames: nat, k: nat): real
    requires |channels| > 0 && k < frames * |channels|
    requires forall c :: 0 <= c < |channels| ==> |channels[c]| == frames
  {
    FrameMajorSplit(k, |channels|, frames);
    channels[k % |channels|][k / |channels|]
  }

  /** `interleaveChannels`: mono is returned as is, otherwise frame-major interleaving. */
  function Interleave(buf: AudioBuffer): (r: seq<real>)
    requires buf.Valid()
    ensures |r| == buf.length * buf.NumberOfChannels()
    ensures buf.NumberOfChannels() == 1 ==> r == buf.channels[0]
    ensures forall i, c :: 0 <= i < buf.length && 0 <= c < buf.NumberOfChannels() ==>
              FrameIndex(i, c, buf.NumberOfChannels()) < |r| && r[FrameIndex(i, c, buf.NumberOfChannels())] == buf.channels[c][i]
  {
    var n := buf.NumberOfChannels();
    if n == 1 then
      buf.channels[0]
    else
      var r := seq(buf.length * n, k requires 0 <= k < buf.length * n =>
        FrameMajorSample(buf.channels, buf.length, k));
      InterleaveIndex(buf, r);
      r
  }

  lemma InterleaveIndex(buf: AudioBuffer, r: seq<real>)
    requires buf.Valid() && |r| == buf.length * buf.NumberOfChannels()
    requires forall k :: 0 <= k < |r| ==> r[k] == FrameMajorSample(buf.channels, buf.length, k)
    ensures forall i, c :: 0 <= i < buf.length && 0 <= c < buf.NumberOfChannels() ==>
              FrameIndex(i, c, buf.NumberOfChannels()) < |r| && r[FrameIndex(i, c, buf.NumberOfChannels())] == buf.channels[c][i]
  {
    var n := buf.NumberOfChannels();
    forall i, c | 0 <= i < buf.length && 0 <= c < n
      ensures FrameIndex(i, c, n) < |r| && r[FrameIndex(i, c, n)] == buf.channels[c][i]
    {
      var k := FrameIndex(i, c, n);
      FrameMajorBound(i, c, n, buf.length);
      FrameMajorIndex(i, c, n);
      assert k / n == i && k % n == c;
      calc {
        r[k];
        FrameMajorSample(buf.channels, buf.length, k);
        buf.channels[k % n][k / n];
      }
    }
  }

  /** The inverse of interleaving: channel `c` is every `n`-th sample starting at `c`. */
  function Deinterleave(samples: seq<real>, n: nat, frames: nat): (chs: seq<seq<real>>)
    requires |samples| == frames * n
  {
    seq(n, c requires 0 <= c < n =>
      seq(frames, i requires 0 <= i < frames =>
        FrameMajorBound(i, c, n, frames);
        samples[FrameIndex(i, c, n)]))
  }

  /** Interleaving loses nothing: de-interleaving gives back every channel. */
  lemma DeinterleaveInterleave(buf: AudioBuffer)
    requires buf.Valid()
    ensures Deinterleave(Interleave(buf), buf.NumberOfChannels(), buf.length) == buf.channels
  {
    var n := buf.NumberOfChannels();
    var d := Deinterleave(Interleave(buf), n, buf.length);
    forall c | 0 <= c < n
      ensures d[c] == buf.channels[c]
    {
      forall i | 0 <= i < buf.length
        ensures d[c][i] == buf.channels[c][i]
      {
        FrameMajorBound(i, c, n, buf.length);
      }
    }
  }
}

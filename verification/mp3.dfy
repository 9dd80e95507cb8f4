/**
 * `encodeMp3` of app.js: the orchestration around the lamejs frame encoder.
 * The encoder itself is opaque; it is a collaborator whose internal state is
 * threaded through every call, so the model takes nothing about its output for granted.
 */
module Mp3 {
  import opened Wrappers
  import opened Seqs
  import opened Bytes
  import opened Pcm

  /** Frames per `encodeBuffer` call, the MPEG-1 Layer III granule pair. */
  const BlockSize: nat := 1152
  /** The bitrate, in kbit/s, the encoder is created with. */
  const Bitrate: nat := 160

  /** The Int16Array arguments of one `encoder.encodeBuffer(left[, right])` call. */
  datatype BlockCall = BlockCall(left: seq<int>, right: Option<seq<int>>)

  /**
   * `lamejs.Mp3Encoder`: `create(channels, sampleRate, kbps)` is the constructed
   * encoder's state, `encodeBuffer` consumes one block and yields the next state
   * and the bytes it emitted (possibly none), `flush` yields the final bytes.
   */
  datatype Codec<!S> = Codec(
    create: (nat, nat, nat) -> S,
    encodeBuffer: (S, BlockCall) -> (S, seq<Byte>),
    flush: S -> seq<Byte>)

  datatype Mp3Error = EncoderUnavailable

  /** What one run of `encodeMp3` did: the `encodeBuffer` calls, in order, and the Blob it returned. */
  datatype Mp3Run = Mp3Run(calls: seq<BlockCall>, blob: Blob)

  /** ceil(frames / 1152): how many blocks a channel of `frames` frames splits into. */
  function BlockCount(frames: nat): nat
  {
    (frames + BlockSize - 1) / BlockSize
  }

  /** Where `subarray(start, start + 1152)` ends on a channel of `frames` frames. */
  function BlockEnd(frames: nat, start: nat): nat
  {
    if start + BlockSize <= frames then start + BlockSize else frames
  }

  /** The call `encodeMp3` makes for block `k` of `buf`; channels past the second are never read. */
  predicate IsBlockCall(buf: AudioBuffer, k: nat, call: BlockCall)
    requires buf.Valid()
  {
    var start := k * BlockSize;
    && start < buf.length
    && call.left == QuantizeAll(buf.channels[0][start..BlockEnd(buf.length, start)])
    && call.right == if buf.NumberOfChannels() > 1
                     then Some(QuantizeAll(buf.channels[1][start..BlockEnd(buf.length, start)]))
                     else None
  }

  /** The encoder's state and emitted chunks after it has been fed `calls` in order from state `s`. */
  function Feed<S>(codec: Codec<S>, s: S, calls: seq<BlockCall>): (S, seq<seq<Byte>>)
    decreases |calls|
  {
    if calls == [] then (s, [])
    else
      var before := Feed(codec, s, calls[..|calls| - 1]);
      var after := codec.encodeBuffer(before.0, calls[|calls| - 1]);
      (after.0, before.1 + [after.1])
  }

  /** Feeding one more block continues from the state the earlier blocks left. */
  lemma FeedSnoc<S>(codec: Codec<S>, s: S, calls: seq<BlockCall>, call: BlockCall)
    ensures var before := Feed(codec, s, calls);
            var after := codec.encodeBuffer(before.0, call);
            Feed(codec, s, calls + [call]) == (after.0, before.1 + [after.1])
  {
    assert (calls + [call])[..|calls|] == calls;
  }

  /** Appending the call for the next block keeps every call the call for its block. */
  lemma ExtendCalls(buf: AudioBuffer, calls: seq<BlockCall>, call: BlockCall)
    requires buf.Valid()
    requires forall k :: 0 <= k < |calls| ==> IsBlockCall(buf, k, calls[k])
    requires IsBlockCall(buf, |calls|, call)
    ensures forall k :: 0 <= k < |calls| + 1 ==> IsBlockCall(buf, k, (calls + [call])[k])
  {
    forall k | 0 <= k < |calls| + 1
      ensures IsBlockCall(buf, k, (calls + [call])[k])
    {
      if k < |calls| {
        assert (calls + [call])[k] == calls[k];
      }
    }
  }

  /**
   * `blob` is what `encodeMp3` returns for `buf` after making the block calls
   * `calls`: one call per block, and the codec's non-empty chunks followed by
   * its flush output, as an "audio/mpeg" Blob.
   */
  predicate IsRunOf<S>(codec: Codec<S>, buf: AudioBuffer, calls: seq<BlockCall>, blob: Blob)
    requires buf.Valid()
  {
    && |calls| == BlockCount(buf.length)
    && (forall k :: 0 <= k < |calls| ==> IsBlockCall(buf, k, calls[k]))
    && var fed := Feed(codec, codec.create(buf.NumberOfChannels(), buf.sampleRate, Bitrate), calls);
       && blob.mimeType == "audio/mpeg"
       && blob.parts == NonEmpty(fed.1 + [codec.flush(fed.0)])
  }

  /** `blob` is the MP3 encoding of `buf` through `codec`. */
  ghost predicate EncodesAs<S>(codec: Codec<S>, buf: AudioBuffer, blob: Blob)
    requires buf.Valid()
  {
    exists calls :: IsRunOf(codec, buf, calls, blob)
  }

  /** The loop `for (i = 0; i < frames; i += 1152)` runs exactly ceil(frames / 1152) times. */
  lemma BlockCountExact(frames: nat, count: nat)
    requires count * BlockSize >= frames
    requires count == 0 || (count - 1) * BlockSize < frames
    ensures count == BlockCount(frames)
  {
  }

  /** Block `k` starts inside the channel; every block but the last is full, the last holds 1 to 1152 frames. */
  lemma BlockBounds(frames: nat, k: nat)
    requires k < BlockCount(frames)
    ensures k * BlockSize < frames
    ensures k + 1 < BlockCount(frames) ==> BlockEnd(frames, k * BlockSize) == k * BlockSize + BlockSize
    ensures k + 1 == BlockCount(frames) ==>
              BlockEnd(frames, k * BlockSize) == frames && 0 < frames - k * BlockSize <= BlockSize
  {
  }

  /** Quantisation works sample by sample, so it distributes over concatenation. */
  lemma QuantizeAllAppend(a: seq<real>, b: seq<real>)
    ensures QuantizeAll(a + b) == QuantizeAll(a) + QuantizeAll(b)
  {
  }

  /** How many frames the first `m` blocks cover. */
  function Covered(frames: nat, m: nat): nat
  {
    if m * BlockSize < frames then m * BlockSize else frames
  }

  /** The left arguments of the calls, in order. */
  function LeftArguments(calls: seq<BlockCall>): seq<seq<int>>
  {
    seq(|calls|, k requires 0 <= k < |calls| => calls[k].left)
  }

  /**
   * The left channel reaches the encoder exactly once, in order: the left
   * arguments of the calls concatenate to the whole quantised channel 0.
   */
  lemma {:induction false} LeftChannelFedInOrder(buf: AudioBuffer, calls: seq<BlockCall>)
    requires buf.Valid()
    requires |calls| == BlockCount(buf.length)
    requires forall k :: 0 <= k < |calls| ==> IsBlockCall(buf, k, calls[k])
    ensures Flatten(LeftArguments(calls)) == QuantizeAll(buf.channels[0])
  {
    var ch := buf.channels[0];
    var m := 0;
    while m < |calls|
      invariant m <= |calls|
      invariant Flatten(LeftArguments(calls[..m])) == QuantizeAll(ch[..Covered(|ch|, m)])
    {
      LeftPrefixStep(buf, calls, m);
      m := m + 1;
    }
    assert calls[..m] == calls;
    if m > 0 {
      BlockBounds(buf.length, m - 1);
    }
    assert ch[..Covered(|ch|, m)] == ch;
  }

  lemma LeftPrefixStep(buf: AudioBuffer, calls: seq<BlockCall>, m: nat)
    requires buf.Valid()
    requires m < |calls| == BlockCount(buf.length)
    requires IsBlockCall(buf, m, calls[m])
    requires Flatten(LeftArguments(calls[..m])) == QuantizeAll(buf.channels[0][..Covered(buf.length, m)])
    ensures Flatten(LeftArguments(calls[..m + 1])) == QuantizeAll(buf.channels[0][..Covered(buf.length, m + 1)])
  {
    CoveredStep(buf.length, m);
    LeftArgumentsSnoc(calls, m);
    QuantizePrefixSplit(buf.channels[0], m * BlockSize, BlockEnd(buf.length, m * BlockSize));
  }

  /** The first `m + 1` blocks cover the first `m` and then block `m`. */
  lemma CoveredStep(frames: nat, m: nat)
    requires m < BlockCount(frames)
    ensures Covered(frames, m) == m * BlockSize
    ensures Covered(frames, m + 1) == BlockEnd(frames, m * BlockSize)
  {
    BlockBounds(frames, m);
  }

  lemma LeftArgumentsSnoc(calls: seq<BlockCall>, m: nat)
    requires m < |calls|
    ensures Flatten(LeftArguments(calls[..m + 1])) == Flatten(LeftArguments(calls[..m])) + calls[m].left
  {
    assert LeftArguments(calls[..m + 1]) == LeftArguments(calls[..m]) + [calls[m].left];
    FlattenAppend(LeftArguments(calls[..m]), [calls[m].left]);
    FlattenSingleton(calls[m].left);
  }

  lemma QuantizePrefixSplit(ch: seq<real>, start: nat, end: nat)
    requires start <= end <= |ch|
    ensures QuantizeAll(ch[..end]) == QuantizeAll(ch[..start]) + QuantizeAll(ch[start..end])
  {
    assert ch[..end] == ch[..start] + ch[start..end];
    QuantizeAllAppend(ch[..start], ch[start..end]);
  }

  /** `encodeMp3`: the MP3 Blob, or the failure thrown when lamejs is not loaded. */
  method EncodeMp3<S>(lame: Option<Codec<S>>, buf: AudioBuffer) returns (r: Result<Mp3Run, Mp3Error>)
    requires buf.Valid()
    ensures lame.None? <==> r.Failure?
    ensures r.Failure? ==> r.error == EncoderUnavailable
    ensures r.Success? ==>
              && |r.value.calls| == BlockCount(buf.length)
              && (forall k :: 0 <= k < |r.value.calls| ==> IsBlockCall(buf, k, r.value.calls[k]))
              && r.value.blob.mimeType == "audio/mpeg"
              && (forall p :: p in r.value.blob.parts ==> |p| > 0)
    ensures r.Success? ==>
              var codec := lame.value;
              var fed := Feed(codec, codec.create(buf.NumberOfChannels(), buf.sampleRate, Bitrate), r.value.calls);
              var tail := codec.flush(fed.0);
              && r.value.blob.parts == NonEmpty(fed.1 + [tail])
              && r.value.blob.Bytes() == Flatten(fed.1) + tail
  {
    if lame.None? {
      return Failure(EncoderUnavailable);
    }
    var codec := lame.value;
    var numChannels := buf.NumberOfChannels();
    var state := codec.create(numChannels, buf.sampleRate, Bitrate);
    ghost var initial := state;
    var left := buf.channels[0];
    var right: Option<seq<real>> := if numChannels > 1 then Some(buf.channels[1]) else None;
    var calls: seq<BlockCall> := [];
    var mp3Data: seq<seq<Byte>> := [];
    ghost var emitted: seq<seq<Byte>> := [];
    var i := 0;
    while i < |left|
      invariant i == |calls| * BlockSize
      invariant |calls| == 0 || (|calls| - 1) * BlockSize < |left|
      invariant forall k :: 0 <= k < |calls| ==> IsBlockCall(buf, k, calls[k])
      invariant (state, emitted) == Feed(codec, initial, calls)
      invariant mp3Data == NonEmpty(emitted)
    {
      var end := BlockEnd(|left|, i);
      var leftChunk := FloatToInt16(left[i..end]);
      var call;
      if numChannels > 1 && right.Some? {
        var rightChunk := FloatToInt16(right.value[i..end]);
        call := BlockCall(leftChunk, Some(rightChunk));
      } else {
        call := BlockCall(leftChunk, None);
      }
      assert IsBlockCall(buf, |calls|, call);
      ExtendCalls(buf, calls, call);
      FeedSnoc(codec, initial, calls, call);
      var next := codec.encodeBuffer(state, call);
      var buffer := next.1;
      state := next.0;
      if |buffer| > 0 {
        mp3Data := mp3Data + [buffer];
      }
      NonEmptyAppend(emitted, buffer);
      emitted := emitted + [buffer];
      calls := calls + [call];
      i := i + BlockSize;
    }
    BlockCountExact(|left|, |calls|);
    var flushBuffer := codec.flush(state);
    NonEmptyAppend(emitted, flushBuffer);
    if |flushBuffer| > 0 {
      mp3Data := mp3Data + [flushBuffer];
    }
    NonEmptyFlatten(emitted + [flushBuffer]);
    FlattenAppend(emitted, [flushBuffer]);
    FlattenSingleton(flushBuffer);
    r := Success(Mp3Run(calls, Blob(mp3Data, "audio/mpeg")));
  }
}

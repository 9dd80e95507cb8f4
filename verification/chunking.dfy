/**
 * The speech chunker of `process_and_play_text`: text longer than 10000
 * characters is cut into consecutive 10000-character slices before it is
 * sent to the speech service.
 */
module Chunking {
  import opened Seqs

  /** The longest text sent to the speech service in one request. */
  const ChunkLimit := 10000

  /** `[text[i:i+n] for i in range(0, len(text), n)]`. */
  function Slices(text: string, n: nat): (r: seq<string>)
    requires n > 0
    ensures |text| == 0 <==> |r| == 0
    decreases |text|
  {
    if |text| == 0 then []
    else if |text| <= n then [text]
    else [text[..n]] + Slices(text[n..], n)
  }

  /** The list of chunks `process_and_play_text` speaks, one request each. */
  function SpeechChunks(text: string): (r: seq<string>)
    ensures |r| >= 1
    ensures |text| <= ChunkLimit ==> r == [text]
  {
    if |text| > ChunkLimit then Slices(text, ChunkLimit) else [text]
  }

  /** The slices concatenate back to the text. */
  lemma {:induction false} SlicesFlatten(text: string, n: nat)
    requires n > 0
    ensures Flatten(Slices(text, n)) == text
    decreases |text|
  {
    if |text| == 0 {
    } else if |text| <= n {
      FlattenSingleton(text);
    } else {
      SlicesFlatten(text[n..], n);
      FlattenCons(text[..n], Slices(text[n..], n));
      assert text == text[..n] + text[n..];
    }
  }

  /** Every slice but the last is exactly `n` long; the last holds 1 to `n` characters. */
  lemma {:induction false} SlicesSizes(text: string, n: nat)
    requires n > 0
    ensures var r := Slices(text, n);
      (forall k :: 0 <= k < |r| - 1 ==> |r[k]| == n) && (|r| > 0 ==> 0 < |r[|r| - 1]| <= n)
    ensures (|Slices(text, n)| - 1) * n < |text| <= |Slices(text, n)| * n
    decreases |text|
  {
    if |text| > n {
      SlicesSizes(text[n..], n);
      var rest := Slices(text[n..], n);
      assert Slices(text, n) == [text[..n]] + rest;
      assert (|rest| + 1) * n == |rest| * n + n;
      assert |rest| * n == (|rest| - 1) * n + n;
    }
  }

  /** The chunker never loses, reorders or duplicates text, and respects the limit. */
  lemma SpeechChunksPartition(text: string)
    ensures Flatten(SpeechChunks(text)) == text
    ensures forall k :: 0 <= k < |SpeechChunks(text)| ==> |SpeechChunks(text)[k]| <= ChunkLimit
    ensures |text| > ChunkLimit ==> var r := SpeechChunks(text);
      (forall k :: 0 <= k < |r| - 1 ==> |r[k]| == ChunkLimit) && 0 < |r[|r| - 1]| <= ChunkLimit
  {
    if |text| > ChunkLimit {
      SlicesFlatten(text, ChunkLimit);
      SlicesSizes(text, ChunkLimit);
    } else {
      FlattenSingleton(text);
    }
  }

  /**
   * The length guard only matters for empty text: without it, the slicing
   * alone would give the same chunks for every non-empty text, but no chunk
   * at all for "" where the guarded version speaks one empty chunk.
   */
  lemma GuardOnlyMattersForEmpty(text: string)
    ensures |text| > 0 ==> SpeechChunks(text) == Slices(text, ChunkLimit)
    ensures |text| == 0 ==> SpeechChunks(text) == [""] && Slices(text, ChunkLimit) == []
  {
  }
}

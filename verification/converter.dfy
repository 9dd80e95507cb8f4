/**
 * The small rules of the app.js conversion flow: capture progress, the
 * progress-bar clamp, recorder mime-type choice, output format and download
 * name, and packaging the encoded audio into the downloadable Blob.
 */
module Converter {
  import opened Wrappers
  import opened Numeric
  import opened Bytes
  import opened Pcm
  import Wav
  import Mp3

  /** `video.duration`: a finite number of seconds, or NaN / Infinity (no metadata yet, or a stream). */
  datatype MediaDuration = Finite(seconds: real) | NotFinite

  /** The share of the progress bar the live capture may use. */
  const CaptureCeiling: real := 95.0

  /**
   * The `timeupdate` handler of the capture: nothing unless the duration is
   * finite and positive, else the playback position scaled to 95, capped at 95.
   */
  function CaptureProgress(duration: MediaDuration, currentTime: real): (p: Option<real>)
    ensures p.Some? <==> duration.Finite? && duration.seconds > 0.0
    ensures p.Some? ==> p.value <= CaptureCeiling
    ensures p.Some? && 0.0 <= currentTime ==> 0.0 <= p.value
    ensures p.Some? && currentTime >= duration.seconds ==> p.value == CaptureCeiling
    ensures p.Some? && currentTime <= duration.seconds ==> p.value * duration.seconds == CaptureCeiling * currentTime
  {
    if !duration.Finite? || duration.seconds <= 0.0 then None
    else
      var d := duration.seconds;
      var ratio := currentTime / d;
      assert ratio * d == currentTime;
      assert d / d == 1.0;
      assert currentTime <= d ==> ratio <= 1.0 by {
        if currentTime <= d { DivMonotone(currentTime, d, d); }
      }
      assert currentTime >= d ==> ratio >= 1.0 by {
        if currentTime >= d { DivMonotone(d, currentTime, d); }
      }
      assert 0.0 <= currentTime ==> 0.0 <= ratio by {
        if 0.0 <= currentTime { DivMonotone(0.0, currentTime, d); }
      }
      Some(Min(CaptureCeiling, ratio * CaptureCeiling))
  }

  /** Later playback positions never report less progress. */
  lemma CaptureProgressMonotone(duration: MediaDuration, t1: real, t2: real)
    requires t1 <= t2
    requires CaptureProgress(duration, t1).Some?
    ensures CaptureProgress(duration, t1).value <= CaptureProgress(duration, t2).value
  {
    var d := duration.seconds;
    DivMonotone(t1, t2, d);
  }

  /** `updateProgress`: the percentage shown, `Math.round` of the input clamped into [0, 100]. */
  function UpdateProgress(percent: real): (shown: int)
    ensures 0 <= shown <= 100
    ensures 0.0 <= percent <= 100.0 ==> shown as real - 0.5 <= percent < shown as real + 0.5
    ensures percent >= 100.0 ==> shown == 100
    ensures percent < 0.0 ==> shown == 0
  {
    if MathRound(percent) < 0 then 0
    else if MathRound(percent) > 100 then 100
    else MathRound(percent)
  }

  /** The progress bar never moves backwards for a larger input. */
  lemma UpdateProgressMonotone(p1: real, p2: real)
    requires p1 <= p2
    ensures UpdateProgress(p1) <= UpdateProgress(p2)
  {
    MathRoundMonotone(p1, p2);
  }

  /** Every value is at most every later one. */
  predicate NonDecreasing(xs: seq<int>)
  {
    forall i, j :: 0 <= i < j < |xs| ==> xs[i] <= xs[j]
  }

  /** Playback positions as `timeupdate` delivers them: never going back. */
  predicate Ascending(times: seq<real>)
  {
    forall i, j :: 0 <= i < j < |times| ==> times[i] <= times[j]
  }

  /** The percentages shown for the `timeupdate` events at `times`, in order. */
  function ShownCaptureProgress(duration: MediaDuration, times: seq<real>): seq<int>
  {
    if !duration.Finite? || duration.seconds <= 0.0 then []
    else seq(|times|, i requires 0 <= i < |times| => UpdateProgress(CaptureProgress(duration, times[i]).value))
  }

  /**
   * The percentages a successful run shows, in order, as app.js is written:
   * 0 on submit, 5 once metadata has loaded, one value per `timeupdate`,
   * 95 when playback ends, 97 when the recording is flushed, 98 before
   * decoding and 100 when the download is ready.
   */
  function ProgressTrace(duration: MediaDuration, times: seq<real>): (trace: seq<int>)
    ensures |trace| == 6 + (if duration.Finite? && duration.seconds > 0.0 then |times| else 0)
    ensures trace[..2] == [0, 5]
    ensures trace[|trace| - 4..] == [95, 97, 98, 100]
  {
    [0, 5] + ShownCaptureProgress(duration, times) + [95, 97, 98, 100]
  }

  /**
   * What does hold of the run as written: every shown value is in [0, 100],
   * the run ends at 100, and the capture phase alone never exceeds 95 and
   * never moves backwards.
   */
  lemma ProgressTraceBounds(duration: MediaDuration, times: seq<real>)
    requires Ascending(times)
    ensures var trace := ProgressTrace(duration, times);
            && (forall i :: 0 <= i < |trace| ==> 0 <= trace[i] <= 100)
            && trace[|trace| - 1] == 100
    ensures forall i :: 0 <= i < |ShownCaptureProgress(duration, times)| ==> ShownCaptureProgress(duration, times)[i] <= 95
    ensures NonDecreasing(ShownCaptureProgress(duration, times))
  {
    var shown := ShownCaptureProgress(duration, times);
    forall i | 0 <= i < |shown|
      ensures shown[i] <= 95
    {
      UpdateProgressMonotone(CaptureProgress(duration, times[i]).value, CaptureCeiling);
    }
    forall i, j | 0 <= i < j < |shown|
      ensures shown[i] <= shown[j]
    {
      CaptureProgressMonotone(duration, times[i], times[j]);
      UpdateProgressMonotone(CaptureProgress(duration, times[i]).value, CaptureProgress(duration, times[j]).value);
    }
  }

  /**
   * As written, the bar can move backwards: after 5 is shown at metadata
   * time, a 10-second video's first `timeupdate` at 0.25 s shows 2.
   */
  lemma ProgressTraceCanDecrease()
    ensures ProgressTrace(Finite(10.0), [0.25]) == [0, 5, 2, 95, 97, 98, 100]
    ensures !NonDecreasing(ProgressTrace(Finite(10.0), [0.25]))
  {
    assert CaptureProgress(Finite(10.0), 0.25).value == 2.375;
    assert MathRound(2.375) == 2;
    assert ShownCaptureProgress(Finite(10.0), [0.25]) == [2];
    var trace := ProgressTrace(Finite(10.0), [0.25]);
    assert trace[1] > trace[2];
  }

  /** The progress already shown before playback starts. */
  const MetadataProgress: real := 5.0

  /** The `timeupdate` report kept at or above the 5 already shown. */
  function CorrectedCaptureProgress(duration: MediaDuration, currentTime: real): (p: Option<real>)
    ensures p.Some? <==> duration.Finite? && duration.seconds > 0.0
    ensures p.Some? ==> MetadataProgress <= p.value <= CaptureCeiling
  {
    match CaptureProgress(duration, currentTime)
    case Some(v) => Some(Max(MetadataProgress, v))
    case None => None
  }

  /** The run's percentages with the corrected `timeupdate` report. */
  function CorrectedProgressTrace(duration: MediaDuration, times: seq<real>): seq<int>
  {
    var shown := if !duration.Finite? || duration.seconds <= 0.0 then []
                 else seq(|times|, i requires 0 <= i < |times| =>
                        UpdateProgress(CorrectedCaptureProgress(duration, times[i]).value));
    [0, 5] + shown + [95, 97, 98, 100]
  }

  /** With the correction, the bar never moves backwards during a run and ends at 100. */
  lemma CorrectedProgressTraceMonotone(duration: MediaDuration, times: seq<real>)
    requires Ascending(times)
    ensures NonDecreasing(CorrectedProgressTrace(duration, times))
    ensures var trace := CorrectedProgressTrace(duration, times);
            trace[0] == 0 && trace[|trace| - 1] == 100
  {
    var trace := CorrectedProgressTrace(duration, times);
    if duration.Finite? && duration.seconds > 0.0 {
      var shown := trace[2..|trace| - 4];
      forall i | 0 <= i < |shown|
        ensures 5 <= shown[i] <= 95
      {
        var v := CorrectedCaptureProgress(duration, times[i]).value;
        UpdateProgressMonotone(MetadataProgress, v);
        UpdateProgressMonotone(v, CaptureCeiling);
      }
      forall i, j | 0 <= i < j < |shown|
        ensures shown[i] <= shown[j]
      {
        CaptureProgressMonotone(duration, times[i], times[j]);
        UpdateProgressMonotone(CorrectedCaptureProgress(duration, times[i]).value,
                               CorrectedCaptureProgress(duration, times[j]).value);
      }
      assert trace == [0, 5] + shown + [95, 97, 98, 100];
    }
  }

  /** The MediaRecorder container formats, in order of preference. */
  const RecorderCandidates: seq<string> := ["audio/webm;codecs=opus", "audio/ogg;codecs=opus", "audio/mp4"]

  /** A candidate counts as supported when `MediaRecorder.isTypeSupported` is missing or accepts it. */
  predicate Supported(isTypeSupported: Option<string -> bool>, mime: string)
  {
    isTypeSupported.None? || isTypeSupported.value(mime)
  }

  /** Index of the first supported candidate at or after `from`, or `|candidates|` when there is none. */
  function FirstSupported(candidates: seq<string>, isTypeSupported: Option<string -> bool>, from: nat): (k: nat)
    requires from <= |candidates|
    ensures from <= k <= |candidates|
    ensures forall j :: from <= j < k ==> !Supported(isTypeSupported, candidates[j])
    ensures k < |candidates| ==> Supported(isTypeSupported, candidates[k])
    decreases |candidates| - from
  {
    if from == |candidates| || Supported(isTypeSupported, candidates[from]) then from
    else FirstSupported(candidates, isTypeSupported, from + 1)
  }

  /** `selectRecorderMimeType`: the first supported candidate, else "" (let the browser choose). */
  function SelectRecorderMimeType(isTypeSupported: Option<string -> bool>): (mime: string)
    ensures isTypeSupported.None? ==> mime == RecorderCandidates[0]
    ensures mime == "" <==> forall k :: 0 <= k < |RecorderCandidates| ==> !Supported(isTypeSupported, RecorderCandidates[k])
    ensures mime != "" ==>
              exists k :: && 0 <= k < |RecorderCandidates| && mime == RecorderCandidates[k]
                          && Supported(isTypeSupported, mime)
                          && forall j :: 0 <= j < k ==> !Supported(isTypeSupported, RecorderCandidates[j])
  {
    var k := FirstSupported(RecorderCandidates, isTypeSupported, 0);
    if k < |RecorderCandidates| then RecorderCandidates[k] else ""
  }

  /** The output extension from the form's `format` field (absent means "mp3"). */
  function OutputExtension(formatChoice: Option<string>): (ext: string)
    ensures ext == "wav" || ext == "mp3"
    ensures ext == "wav" <==> formatChoice == Some("wav")
  {
    if formatChoice.GetOr("mp3") == "wav" then "wav" else "mp3"
  }

  /** `p` starts the final extension of `name`: a '.' followed by at least one character, none a '/' or '.'. */
  predicate ExtensionAt(name: string, p: nat)
  {
    && p + 1 < |name|
    && name[p] == '.'
    && forall j :: p < j < |name| ==> name[j] != '/' && name[j] != '.'
  }

  /** A name has at most one final extension. */
  lemma ExtensionUnique(name: string, p: nat, q: nat)
    requires ExtensionAt(name, p) && ExtensionAt(name, q)
    ensures p == q
  {
  }

  /** The last '.' or '/' at or before index `i - 1`, scanning backwards. */
  function LastDotOrSlash(name: string, i: nat): (r: Option<nat>)
    requires i <= |name|
    ensures r.Some? ==> r.value < i && (name[r.value] == '.' || name[r.value] == '/')
    ensures r.Some? ==> forall j :: r.value < j < i ==> name[j] != '/' && name[j] != '.'
    ensures r.None? ==> forall j :: 0 <= j < i ==> name[j] != '/' && name[j] != '.'
    decreases i
  {
    if i == 0 then None
    else if name[i - 1] == '.' || name[i - 1] == '/' then Some(i - 1)
    else LastDotOrSlash(name, i - 1)
  }

  /** Where the match of `/\.[^/.]+$/` starts in `name`, if it matches. */
  function ExtensionStart(name: string): (r: Option<nat>)
    ensures r.Some? ==> ExtensionAt(name, r.value)
    ensures r.None? ==> forall p: nat :: !ExtensionAt(name, p)
  {
    match LastDotOrSlash(name, |name|)
    case Some(p) =>
      if name[p] == '.' && p + 1 < |name| then Some(p) else None
    case None => None
  }

  /** `name.replace(/\.[^/.]+$/, "")`: the name without its final extension. */
  function StripExtension(name: string): (base: string)
    ensures (exists p: nat :: ExtensionAt(name, p)) ==> exists p: nat :: ExtensionAt(name, p) && base == name[..p]
    ensures (forall p: nat :: !ExtensionAt(name, p)) ==> base == name
  {
    match ExtensionStart(name)
    case Some(p) => name[..p]
    case None => name
  }

  /** The `download` attribute: the stripped name, or "audio" when that is empty, then "." and the extension. */
  function DownloadName(name: string, ext: string): (fileName: string)
    ensures |fileName| > |ext| + 1
    ensures fileName[|fileName| - |ext| - 1..] == "." + ext
  {
    var base := StripExtension(name);
    (if base == "" then "audio" else base) + "." + ext
  }

  /**
   * The download name always ends in "." + ext after a non-empty stem; the
   * stem is the input name when the name has no extension, the name cut
   * before its extension otherwise, unless that leaves nothing.
   */
  lemma DownloadNameShape(name: string, ext: string)
    ensures var fileName := DownloadName(name, ext);
            && |fileName| > |ext| + 1
            && fileName[|fileName| - |ext| - 1..] == "." + ext
            && var stem := fileName[..|fileName| - |ext| - 1];
               && ((forall p: nat :: !ExtensionAt(name, p)) ==> stem == (if name == "" then "audio" else name))
               && (forall p: nat :: ExtensionAt(name, p) ==> stem == (if p == 0 then "audio" else name[..p]))
  {
    var base := StripExtension(name);
    var stem := if base == "" then "audio" else base;
    var fileName := DownloadName(name, ext);
    assert fileName == stem + ("." + ext);
    assert fileName[..|fileName| - |ext| - 1] == stem;
    forall p: nat | ExtensionAt(name, p)
      ensures base == name[..p]
    {
      var q: nat :| ExtensionAt(name, q) && base == name[..q];
      ExtensionUnique(name, p, q);
    }
  }

  /** What the finished conversion hands to the page: the Blob and the name to save it under. */
  datatype Download = Download(blob: Blob, fileName: string)

  /** The error the page shows when the MP3 encoder library is missing. */
  const EncoderMissingMessage: string := "MP3 encoder library missing. Please reload the page."

  /**
   * The tail of the submit handler once the captured audio is decoded:
   * encode in the chosen format and name the download after the input.
   */
  method PackageDownload<S>(formatChoice: Option<string>, inputName: string, lame: Option<Mp3.Codec<S>>, buf: AudioBuffer)
    returns (r: Result<Download, string>)
    requires buf.Valid()
    ensures r.Failure? <==> formatChoice != Some("wav") && lame.None?
    ensures r.Failure? ==> r.error == EncoderMissingMessage
    ensures r.Success? ==> r.value.fileName == DownloadName(inputName, OutputExtension(formatChoice))
    ensures r.Success? && formatChoice == Some("wav") ==>
              r.value.blob.mimeType == "audio/wav" && r.value.blob.Bytes() == Wav.EncodeWav(buf)
    ensures r.Success? && formatChoice != Some("wav") ==>
              && r.value.blob.mimeType == "audio/mpeg"
              && lame.Some? && Mp3.EncodesAs(lame.value, buf, r.value.blob)
  {
    var outputExt := OutputExtension(formatChoice);
    var finalBlob;
    if outputExt == "wav" {
      var bytes := Wav.EncodeWav(buf);
      finalBlob := Blob([bytes], "audio/wav");
      Seqs.FlattenSingleton(bytes);
    } else {
      var encoded := Mp3.EncodeMp3(lame, buf);
      if encoded.Failure? {
        return Failure(EncoderMissingMessage);
      }
      finalBlob := encoded.value.blob;
      assert Mp3.IsRunOf(lame.value, buf, encoded.value.calls, finalBlob);
    }
    r := Success(Download(finalBlob, DownloadName(inputName, outputExt)));
  }
}

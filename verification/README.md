# Autumn audio converter and Luna voice-assistant helpers, modelled in Dafny

The repository holds two programs:

- `app.js`: a browser page that turns a video file into an audio download.
  It captures the soundtrack, decodes it to PCM and encodes it as 16-bit WAV or as MP3 through lamejs.
- Four Python scripts of "Luna", a voice assistant. Each transcribes a request and asks a chat model for a reply.
  It then speaks the reply in chunks and saves it to a text file.

This project models the pure core of both.

Converter side:

- `Numeric` holds the ECMAScript conversions the code relies on:
  - `ToInt16`, the truncation and wrap-around an `Int16Array` store or `DataView.setInt16` performs;
  - `ToUint16` and `ToUint32`;
  - `Math.round`.
- `Bytes` holds little-endian field writers and readers.
- `Pcm` covers the `AudioBuffer`, `floatToInt16` (clamp, asymmetric scale, truncate) and `interleaveChannels`.
- `Wav` covers `encodeWav`. The header is built from its RIFF descriptor, `fmt ` chunk and `data` chunk head, followed by the sample bytes. A reader for such files is added to state the round trip.
- `Mp3` covers `encodeMp3`. The lamejs encoder is an opaque `Codec` of three functions threading a hidden state.
- `Converter` covers the remaining rules:
  - the capture-progress report and the progress-bar clamp;
  - the progress sequence of one run;
  - recorder mime-type choice;
  - output extension and download name;
  - packaging of the encoded Blob.

Assistant side:

- `Text` holds the ASCII `split()`, `strip()`, `lower()`, `join` and `in` operations.
- `Filenames` holds `sanitize_filename` and the reply file name.
- `Chunking` holds the 10000-character speech chunker.
- `Sentences` holds `split_into_sentences` and `group_sentences`.
- `Assistant` holds:
  - the complexity decision and the model choice;
  - assembly of the o1-mini reply;
  - the choice of the answer in an assistant thread.

Three facts about the converter code shape the model:

- Samples are truncated toward zero by the `Int16Array`/`setInt16` store (app.js:83, app.js:173).
- `interleaveChannels` assumes channels of equal length, as every `AudioBuffer` has; the model states this as `AudioBuffer.Valid`.
- The MP3 bitrate is fixed at 160 kbit/s (app.js:94). It is passed to the codec's constructor, which the model leaves opaque.

## Model

| member | source | states |
|---|---|---|
| Numeric.ToInt16 | app.js:83 | storing a number into an Int16Array gives a value in [-32768, 32767], congruent modulo 2^16 to its truncation toward zero and equal to it when that is in range |
| Numeric.MathRound | app.js:41 | Math.round gives the integer r with r - 0.5 <= x < r + 0.5 |
| Numeric.MathRoundMonotone | app.js:41 | Math.round never decreases for a larger argument |
| Pcm.Quantize | app.js:82-83 | one sample: result in [-32768, 32767], -32768 at or below -1, 32767 at or above 1, otherwise x·32768 (negative) or x·32767 (non-negative) truncated toward zero |
| Pcm.QuantizeMonotone | app.js:82-83 | quantisation is monotone non-decreasing |
| Pcm.FloatToInt16 | app.js:79-86 | same length as the input; every element in range; -1 and below map to -32768, 1 and above to 32767, 0 to 0; order of samples preserved; element i is the quantisation of sample i |
| Pcm.Interleave | app.js:123-139 | mono returns channel 0 itself; otherwise length is frames × channels and position i·n + c holds channel c's sample i |
| Pcm.DeinterleaveInterleave | app.js:128-137 | the interleaving loses nothing: taking every n-th sample from offset c gives channel c back |
| Bytes.Uint16Le | app.js:161-162 | setUint16(…, true) writes two bytes that read back little-endian as the value modulo 2^16 |
| Bytes.Uint32Le | app.js:157 | setUint32(…, true) writes four bytes that read back little-endian as the value modulo 2^32 |
| Bytes.Int16Le | app.js:173 | setInt16(…, true) writes two bytes that read back as a signed little-endian value equal to ToInt16 of the number |
| Wav.RiffDescriptorFields | app.js:156-158 | "RIFF", the 32-bit size 36 + data length, "WAVE" |
| Wav.FmtChunkFields | app.js:159-166 | "fmt ", size 16, format 1, channels, sample rate, byte rate = rate × 2 × channels, block align = 2 × channels, 16 bits, each in its little-endian field |
| Wav.DataChunkHeadFields | app.js:167-168 | "data" and the 32-bit data length |
| Wav.HeaderLayout | app.js:145-168 | the 44-byte header carries every field at its offset 0, 4, 8, 12, 16, 20, 22, 24, 28, 32, 34, 36, 40 |
| Wav.SampleBytesAt | app.js:170-175 | the sample area holds at byte 2i the little-endian int16 quantisation of sample i |
| Wav.WavFileLayout | app.js:145-175 | the file is 44 + 2N bytes, with the header fields and each sample i readable at 44 + 2i |
| Wav.EncodeWav | app.js:141-178 | the WAV buffer is 44 + 2 × frames × channels bytes long |
| Wav.EncodeWavLayout | app.js:141-178 | for an AudioBuffer: all header fields, with channel count and rate taken from the buffer, and the quantised interleaved sample i at offset 44 + 2i |
| Wav.DecodeWavFile | app.js:145-175 | a WAVE reader recovers channel count, rate, byte rate, block align and exactly the quantised samples from the written file |
| Wav.DecodeEncodeWav | app.js:141-178 | round trip: reading back an encoded buffer gives its format fields and the quantised interleaved samples |
| Wav.WavFourSampleExample | app.js:141-178 | mono, 44100 Hz, samples 0, 0.5, -0.5, 1: 52 bytes, sizes 44 and 8, byte rate 88200, samples 0, 16383, -16384, 32767 |
| Mp3.BlockCountExact | app.js:101 | the number of loop iterations is the unique count c with (c-1)·1152 < frames <= c·1152 |
| Mp3.BlockBounds | app.js:101-102 | every block but the last spans exactly 1152 frames; the last spans 1 to 1152 |
| Mp3.LeftChannelFedInOrder | app.js:97-109 | the left-channel blocks passed to the encoder concatenate to the whole quantised channel 0, in order |
| Mp3.EncodeMp3 | app.js:88-121 | fails before encoding exactly when the encoder library is missing; otherwise makes ⌈frames/1152⌉ encodeBuffer calls on consecutive slices, with a right channel exactly when there are two or more channels; the Blob is "audio/mpeg", holds no empty part, and its bytes are the codec's chunks in order followed by the flush output |
| Converter.CaptureProgress | app.js:280-284 | reported only for a finite positive duration; never above 95; 95 once playback reaches the end; otherwise currentTime/duration × 95 |
| Converter.CaptureProgressMonotone | app.js:280-284 | a later playback position never reports less |
| Converter.UpdateProgress | app.js:40-44 | the shown percentage is in [0, 100], is Math.round of an in-range input, 100 above and 0 below the range |
| Converter.UpdateProgressMonotone | app.js:41 | the shown percentage never decreases for a larger input |
| Converter.ProgressTrace | app.js:245-407 | the shown percentages of a successful run: 0 and 5, one value per timeupdate when the duration is usable, then 95, 97, 98, 100; see ProgressTraceBounds and ProgressTraceCanDecrease |
| Converter.ProgressTraceBounds | app.js:245-407 | over one run every shown value is in [0, 100] and the last is 100; during capture the values never exceed 95 and never decrease |
| Converter.ProgressTraceCanDecrease | app.js:245-283 | as written, a 10 s video whose first timeupdate comes at 0.25 s shows 0, 5, 2, 95, 97, 98, 100: the bar moves backwards |
| Converter.CorrectedCaptureProgress | app.js:280-284 | the capture report kept within [5, 95] |
| Converter.CorrectedProgressTraceMonotone | app.js:245-407 | with the corrected report the whole run's values never decrease, start at 0 and end at 100 |
| Converter.FirstSupported | app.js:71-76 | the position the loop stops at: every earlier candidate is unsupported, and the one it stops at is supported unless the list ran out |
| Converter.SelectRecorderMimeType | app.js:69-77 | audio/webm;codecs=opus when isTypeSupported is missing; otherwise the earliest supported of the three candidates, "" exactly when none is |
| Converter.OutputExtension | app.js:385-386 | "wav" exactly when the format field is "wav", otherwise "mp3" (also when absent) |
| Converter.ExtensionStart | app.js:402 | the regex /\.[^/.]+$/ matches at p exactly when p is a '.' followed by at least one character and no '/' or '.' up to the end |
| Converter.StripExtension | app.js:402 | the name cut before its final extension, or the name itself when it has none |
| Converter.DownloadName | app.js:402-404 | `${baseName || "audio"}.${outputExt}`: always the extension after a dot, behind a non-empty stem; the stem is pinned down by DownloadNameShape |
| Converter.DownloadNameShape | app.js:402-404 | the download name is a non-empty stem, ".", and the extension; the stem is the name without its extension, or "audio" when that is empty |
| Converter.PackageDownload | app.js:385-404 | fails with the encoder-missing message exactly for MP3 without the encoder; a WAV choice yields an audio/wav Blob of the encoded bytes; an MP3 choice yields the audio/mpeg Blob of an encodeMp3 run through the loaded codec: one call per 1152-frame block, then the codec's non-empty chunks and its flush output; the download is named by the derived file name |
| Text.Strip | luna_single_response_o1_mini.py:209 | strip() returns a contiguous part of the string with only whitespace before and after it and no whitespace at either end |
| Text.StripUnique | luna_single_response_o1_mini.py:209 | any text lying in the string with only whitespace around it and none at its own ends is what strip() returns, so that characterisation determines it |
| Text.StripIdempotent | luna_single_response_o1_mini.py:209 | stripping twice is stripping once |
| Text.Words | luna_full_models_01.py:264 | split() gives non-empty words without whitespace |
| Text.WordsKeepText | luna_full_models_01.py:264 | the words concatenate to exactly the non-whitespace characters of the text |
| Text.WordsJoin | luna_full_models_01.py:264-266 | splitting space-joined words gives the words back |
| Text.FirstWords | luna_full_models_01.py:264 | split()[:3] is the first min(3, word count) words |
| Filenames.Sanitize | luna_full_models_01.py:256-260 | the result contains none of the nine forbidden characters (backslash, slash, colon, asterisk, question mark, double quote, less-than, greater-than, vertical bar) and is no longer than the input |
| Filenames.SanitizeAppend | luna_full_models_01.py:256-260 | sanitising works character by character: it distributes over concatenation |
| Filenames.SanitizeChar | luna_full_models_01.py:258-259 | one character is deleted exactly when it is one of the nine forbidden ones |
| Filenames.SanitizeKeepsAllowed | luna_single_response_o1_mini.py:225-229 | every other character keeps its number of occurrences |
| Filenames.SanitizeIdentity | luna_full_models_01.py:256-260 | a string is left unchanged exactly when it has no forbidden character |
| Filenames.SanitizeIdempotent | luna_single_response_o1_mini.py:225-229 | sanitising twice is sanitising once |
| Filenames.RawResponseFileName | luna_raw_assistant.py:176-178 | the unsanitised name ends in ".txt" |
| Filenames.ResponseFileName | luna_full_models_01.py:264-267 | the saved name contains no forbidden character |
| Filenames.ResponseFileNameShape | luna_single_response_o1_mini.py:233-236 | the saved name is the sanitised stem, "_", the sanitised timestamp and ".txt" |
| Filenames.CleanRequestName | luna_full_models_01.py:264-267 | for requests and timestamps without forbidden characters the sanitised name is the raw name |
| Filenames.RawNameKeepsSeparator | luna_raw_assistant.py:176-178 | as written, the request "1/2" yields the name "1/2_20240101_120000.txt", which contains a path separator |
| Chunking.SpeechChunks | luna_full_models_01.py:94-99 | at least one chunk; text of at most 10000 characters is the single chunk [text] |
| Chunking.Slices | luna_full_models_01.py:97 | `[text[i:i+n] for i in range(0, len(text), n)]`: no slices exactly for empty text; the contents are pinned down by SlicesFlatten and SlicesSizes |
| Chunking.SlicesFlatten | luna_full_models_01.py:97 | the slices concatenate back to the text |
| Chunking.SlicesSizes | luna_full_models_01.py:97 | every slice but the last has exactly n characters, the last 1 to n; the count c satisfies (c-1)·n < length <= c·n |
| Chunking.SpeechChunksPartition | luna_single_response_o1_mini.py:93-99 | the chunks concatenate to the text, none exceeds 10000 characters, and long text is cut into full 10000-character chunks plus a last of 1 to 10000 |
| Chunking.GuardOnlyMattersForEmpty | luna_full_models_01.py:94-99 | the length test changes the result only for empty text, which gives one empty chunk instead of none |
| Sentences.SplitWithGaps | luna_raw_assistant.py:51-52 | one more piece than removed gaps; every piece but the last is non-empty and ends in . ! or ?; no piece contains such a mark followed by a space; gaps are non-empty runs of spaces; no later piece starts with a space |
| Sentences.SplitIntoSentences | luna_strawberry_working_pydentic_luna_voice_cheap.py:90-93 | a non-empty list whose pieces but the last end in . ! or ?, with no punctuation-space pair inside a piece |
| Sentences.SplitWeave | luna_raw_assistant.py:52 | putting the removed space runs back between the pieces gives the text |
| Sentences.StepClose | luna_raw_assistant.py:60-63 | a sentence that would overflow the open group closes it and starts a new one, keeping the invariant |
| Sentences.StepExtend | luna_raw_assistant.py:64-65 | a sentence that fits, or the first one, extends the open group, keeping the invariant |
| Sentences.GreedyStateOk | luna_raw_assistant.py:54-66 | after any prefix, closed groups plus the open group partition it, groups are non-empty, bounded unless single, and were closed only on overflow |
| Sentences.FinishOk | luna_raw_assistant.py:67-70 | emitting the open group at the end gives a greedy packing |
| Sentences.GroupSentences | luna_strawberry_working_pydentic_luna_voice_cheap.py:95-112 | groups are the space-joined packs; packs flatten to the input, are non-empty, stay within max_chars unless single, and each was closed because its next sentence would overflow it; empty input gives no groups; both scripts pass the default `DefaultMaxChars`, 250 |
| Sentences.GreedyPackingUnique | luna_raw_assistant.py:59-65 | two packings with those properties are equal, so the greedy packing is determined by the input |
| Assistant.DetermineTaskComplexity | luna_full_models_01.py:159-196 | the flag is set exactly when the lower-cased text contains a think-hard phrase, and then the result is complex; otherwise complex exactly when the stripped, lower-cased classifier answer is "complex", and simple on an API error |
| Assistant.SelectModel | luna_full_models_01.py:209-217 | gpt-3.5-turbo exactly for simple requests without the flag; 2000 tokens exactly with the flag; budgets 1000, 1500 or 2000 |
| Assistant.ModelForRequest | luna_full_models_01.py:159-217 | end to end: think-hard requests get gpt-4 with 2000 tokens whatever the classifier says; otherwise gpt-4 with 1500 exactly when the classifier says complex, gpt-3.5-turbo with 1000 otherwise and on an API error |
| Assistant.ThinkHardExample | luna_full_models_01.py:161-163 | "Please THINK HARD" is sent to gpt-4 with 2000 tokens |
| Assistant.ItemsText | luna_single_response_o1_mini.py:203-205 | the concatenated item texts, "" when no item contributes; characterised by ItemsTextFlatten, ItemsTextAppend and IgnoresOtherItems |
| Assistant.ItemsTextFlatten | luna_single_response_o1_mini.py:202-205 | the reply is the in-order concatenation of each item's text, where only text items contribute and a missing text contributes "" |
| Assistant.ItemsTextAppend | luna_single_response_o1_mini.py:203-205 | the concatenation distributes over splitting the item list |
| Assistant.IgnoresOtherItems | luna_single_response_o1_mini.py:204 | an item whose type is not "text" contributes nothing wherever it stands |
| Assistant.AssistantReply | luna_single_response_o1_mini.py:198-209 | the reply lies inside the raw reply (the plain string, or the text items' texts concatenated) with only whitespace around it and none at its own ends, and is already stripped |
| Assistant.ReplyDetermined | luna_single_response_o1_mini.py:198-209 | any text lying in the raw reply that way is the returned reply |
| Assistant.SingleTextItemReply | luna_single_response_o1_mini.py:202-209 | a single text item whose text has no whitespace at either end comes back as its text; a text item without text gives "" |
| Assistant.MessageText | luna_raw_assistant.py:171 | an IndexError exactly when the content list is present but empty; "" when content is missing; otherwise the value of the first part's text entry, or "" when the text entry or its value is missing |
| Assistant.AssistantMessages | luna_raw_assistant.py:169 | only assistant-role messages are kept, never more than the input |
| Assistant.AssistantMessagesAppend | luna_raw_assistant.py:169 | the filter distributes over concatenation, so every kept message keeps its listing order |
| Assistant.AssistantMessagesSingle | luna_raw_assistant.py:169 | one message is kept exactly when its role is "assistant" |
| Assistant.LastAssistantTextSnoc | luna_raw_assistant.py:169-173 | appending a message changes the answer exactly when that message is the assistant's, and then it answers |
| Assistant.LastAssistantText | luna_raw_assistant.py:166-173 | the text of the last assistant-role message, the "No response" text without data, and only the empty-content IndexError as a failure; see LastAssistantAnswers, NoAssistantMessage and LastAssistantTextSnoc |
| Assistant.LastAssistantAnswers | luna_raw_assistant.py:170-171 | the answer is the text of the last assistant-role message in list order |
| Assistant.NoAssistantMessage | luna_raw_assistant.py:172-173 | without assistant messages, or without a data field, the answer is "No response from the assistant." |

## Left out

- DOM and UI glue of app.js is not modelled because it is presentation only. This covers element lookups, drag-and-drop highlighting, button state, status texts and object-URL handling.
- Web Audio, MediaRecorder and `<video>` plumbing is not modelled because it is platform I/O and event-driven. This covers `ensureAudioContext`, `waitForEvent`, `decodeBlobToAudioBuffer` and the event sequencing of `captureAudioFromFile`. The run's progress values enter `Converter.ProgressTrace` as the fixed sequence the handlers report.
- The internals of lamejs are not modelled: the codec is an abstract parameter. So is the `window.lamejs` probe, which becomes `Option<Codec>`. The 160 kbit/s bitrate only reaches the codec's constructor.
- Float32 storage is not modelled. Channels are exact reals, so Float32 rounding of samples, and NaN and Infinity as sample values, do not arise. NaN or Infinity durations are the `NotFinite` case.
- Pcm.Interleave: requires channels of equal length (`AudioBuffer.Valid`), which every Web Audio buffer has. No error for unequal channels is modelled.
- Wav.DecodeEncodeWav: holds only while 36 + 2N fits in 32 bits. Beyond that the size fields wrap around, as `ToUint32` models, and the reader rejects the file.
- Converter.ProgressTraceBounds: covers a successful run only. A failed run resets the bar to 0, which is not modelled.
- Converter.ProgressTraceBounds: takes `video.duration` as one value for the whole run. Each `timeupdate` re-reads it (app.js:280-284), so a duration that changes during playback can lower the capture-phase value; that case is not covered.
- Converter.CorrectedProgressTraceMonotone: takes `video.duration` as one value for the whole run. With a duration that grows during playback, even the corrected report can fall back towards 5, so monotonicity is promised for a fixed duration only.
- Pcm.AudioBuffer: the sample rate is a whole number (the default `AudioContext` rate), as is `Wav.FmtChunk`'s. The truncation `setUint32` would apply to a fractional `sampleRate` or `sampleRate * blockAlign` (app.js:163-164) is not modelled.
- Python I/O is not modelled. This covers recording, playback, speech synthesis, OpenAI and HTTP requests, the polling loop, keyboard hooks, logging and file writes. The current time is a timestamp parameter of the file-name functions, and the classifier call is its outcome (`ClassifierOutcome`).
- Exceptions other than the OpenAI API error in `determine_task_complexity` are not modelled. Nor are the catch-all error replies of `send_to_openai`, or malformed JSON shapes beyond missing keys and an empty content list.
- `str.lower`, `str.strip` and `str.split` are modelled for ASCII only; Unicode case mapping and whitespace are out of scope.

## Findings

| source | as written | input that shows it | evidently intended | confidence | as-written member | corrected member |
|---|---|---|---|---|---|---|
| app.js:245, app.js:280-284 | the bar shows 5 once metadata has loaded; each timeupdate then shows currentTime/duration × 95, which is below 5 early in playback | a 10 s video whose first timeupdate arrives at 0.25 s: 0, 5, 2, 95, 97, 98, 100 | progress never moves backwards within a run; the capture report stays at or above the 5 already shown | medium, not executed | Converter.ProgressTraceCanDecrease | Converter.CorrectedProgressTraceMonotone |
| luna_raw_assistant.py:176-178 | the reply's file name is built from the first three words of the request without `sanitize_filename`; the strawberry script does the same at lines 224-226 | the request "1/2" gives "1/2_20240101_120000.txt", which `os.path.join` treats as a sub-directory | the sanitised name the other two scripts save under, free of the nine forbidden characters | high, not executed | Filenames.RawNameKeepsSeparator | Filenames.ResponseFileName |

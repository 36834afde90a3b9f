# Text-to-speech reader: playback controller, PCM decoder and PDF text assembly

This project models, in Dafny, the core of a browser text-to-speech reader:

- **`decodeAudioData`** (`pcm.dfy`, with `base64.dfy`). Base64 text from the speech
  service is turned into bytes by `atob`. The bytes are read as little-endian signed
  16-bit PCM and become a mono 24000 Hz audio buffer with samples `s / 32768`. Every
  failure is rethrown as `"Failed to decode audio data."`. `atob` is modelled as the
  forgiving-base64 decode of the WHATWG Infra Standard over the alphabet of section 4
  of RFC 4648. A canonical RFC 4648 encoder is defined beside it, so that the decoder
  has a round trip.
- **`AudioController`** (`controller.dfy`). A class with the source's fields
  (`buffer`, `source`, `startTime`, `pauseTime`, `isPlaying`). The audio engine is
  abstracted:
  - `now` stands for `context.currentTime` and only moves forward through `Advance`;
  - playback nodes are numbered handles;
  - `sounding` holds the nodes producing audio;
  - `pendingEnded` holds the nodes whose `ended` event is still queued;
  - `endedCalls` counts the invocations of the `onEnded` callback;
  - the asynchronous `onended` handler is the method `NodeEnded`, which the
    environment calls.
- **The page loop of `extractTextFromPdf`** (`pdf_text.dfy`). The document is given as
  its pages, each page the `str` values of its text items. At most 10 pages are read.
  Items are joined with a space, and each page text is followed by `"\n\n"`.

The code differs from an idealised player in these points, and the model follows the code:

- `loadAudio` replaces only `buffer`. It neither rewinds `pauseTime` nor stops a
  playing node.
- `play` does not stop an existing node before it starts a new one.
- Decoding an empty payload fails rather than giving an empty buffer. The code
  passes zero frames to `createBuffer`, and the Web Audio API rejects a buffer length
  of 0 with `NotSupportedError`, which the decoder's `catch` turns into the decode
  error.
- The `ended` handler tests the shared `isPlaying` flag and not the node's identity
  (see Findings).

## Model

| member | source | states |
|---|---|---|
| `Base64.Atob` | services/audioService.ts:7 | `atob` yields a binary string: every character code is below 256 |
| `Base64.AtobRejectsForeignChar` | services/audioService.ts:7 | a character outside the base64 alphabet, whitespace and `=` makes `atob` fail, wherever it stands |
| `Base64.AtobLength` | services/audioService.ts:7-8 | `atob` yields 3 bytes per 4 significant characters, plus 1 or 2 for a partial last group |
| `Base64.AtobEncodeRoundTrip` | services/audioService.ts:7 | `atob` of the canonical base64 encoding of any byte sequence gives back exactly those bytes |
| `Pcm.Int16LE` | services/audioService.ts:16-18 | an `Int16Array` element read from two little-endian bytes is in [-32768, 32767] and negative exactly when the high byte is >= 128 |
| `Pcm.Int16Bytes` | services/audioService.ts:16-18 | storing a 16-bit value as two little-endian bytes and reading it back gives the value |
| `Pcm.DecodeAudioData` | services/audioService.ts:1-39 | the method with the byte-copy loop and the sample loop returns exactly the decoder's specification `Decode` |
| `Pcm.ToSampleRange` | services/audioService.ts:31 | a scaled sample lies in [-1, 32767/32768], and multiplying by 32768 recovers the integer exactly |
| `Pcm.DecodeSuccess` | services/audioService.ts:18-32 | a successful decode has an even, non-zero byte count, 1 channel at 24000 Hz, n/2 frames and duration (n/2)/24000 s; frame i is the LE int16 of bytes 2i and 2i+1 over 32768; the buffer is well formed |
| `Pcm.DecodeFailureCases` | services/audioService.ts:5-38 | decoding fails exactly when `atob` fails or yields an odd or zero byte count, and always with "Failed to decode audio data." |
| `Pcm.DecodeRoundTrip` | services/audioService.ts:7-32 | base64 of the LE bytes of N >= 1 int16 samples decodes to a 24000 Hz mono buffer holding exactly those samples over 32768 |
| `Pcm.EmptyPayloadFails` | services/audioService.ts:23-26 | an empty payload (zero frames) fails to decode |
| `Playback.AudioController.constructor` | services/audioService.ts:42-58 | a new controller has no buffer, no node, is not playing, and both times are 0 |
| `Playback.AudioController.Advance` | services/audioService.ts:125 | the audio clock only moves forward; nothing else changes |
| `Playback.AudioController.GetCurrentTime` | services/audioService.ts:123-126 | the position (`pauseTime` when not playing, `now - startTime` when playing) is never negative |
| `Playback.AudioController.GetDuration` | services/audioService.ts:128-130 | the duration is 0 exactly when no buffer is loaded; otherwise it is frames / 24000 |
| `Playback.AudioController.LoadAudio` | services/audioService.ts:60-63 | returns the decode outcome; on success only `buffer` changes (playing state, node and `pauseTime` kept); on failure nothing changes |
| `Playback.AudioController.Play` | services/audioService.ts:65-90 | without a buffer nothing changes; otherwise a fresh node sounds, `isPlaying` is true and the position equals `offset` if non-zero, else `pauseTime`; an existing node is not stopped |
| `Playback.AudioController.Pause` | services/audioService.ts:92-99 | when playing: stops the node, clears it and `isPlaying`, and sets `pauseTime` to `now - startTime`; otherwise nothing changes; the reported position is the same before and after |
| `Playback.AudioController.Stop` | services/audioService.ts:101-112 | always ends not playing, with no node and position 0; a second call changes nothing |
| `Playback.AudioController.Seek` | services/audioService.ts:102-121 | keeps the playing/not-playing status; afterwards `pauseTime` and the position equal `time`; the old source node (if any) is always stopped; when playing a new node is started, otherwise no node is created and `startTime` and the pending events stay as they were |
| `Playback.AudioController.NodeEnded` | services/audioService.ts:78-84 | the handler as written: `onEnded` is called (once) exactly when `isPlaying` was set, whichever node ended, and `isPlaying` is cleared |
| `Playback.AudioController.NodeEndedGuarded` | services/audioService.ts:78-84 | corrected handler: only the current node's event clears `isPlaying` and calls `onEnded`; it keeps the single-voice invariant |
| `Playback.EndedTwice` | services/audioService.ts:78-84 | two `ended` events in a row invoke `onEnded` at most once |
| `Playback.PauseThenEnded` | services/audioService.ts:78-99 | a `pause()` processed before an `ended` event suppresses `onEnded` |
| `Playback.StopThenEnded` | services/audioService.ts:78-112 | a `stop()` processed before an `ended` event suppresses `onEnded` |
| `Playback.TimingScenario` | services/audioService.ts:86-125 | on a 2.0 s buffer: play, 1.0 s, pause gives 1.0; play, 0.5 s more gives 1.5; seek(0.2) gives 0.2; pause then play resumes at 0.2 |
| `Playback.StaleEndedAfterSeek` | services/audioService.ts:78-121 | as written: after a seek while playing, the stopped node's event calls `onEnded` and clears `isPlaying` while the new node sounds; a following `play()` leaves two nodes sounding |
| `Playback.StaleEndedAfterSeekGuarded` | services/audioService.ts:78-121 | with the corrected handler the same events keep one node playing, and `onEnded` fires once, when that node ends |
| `PdfText.ExtractTextFromPdf` | services/pdfService.ts:1-39 | the method with the page loop returns exactly the specification `ExtractText` |
| `PdfText.PageTextLength` | services/pdfService.ts:23 | a page of n >= 1 items has text length = sum of item lengths + n - 1 (one space between items), 0 for no items |
| `PdfText.JoinSplit` | services/pdfService.ts:23 | the joined page text splits at any inner item into the items before it, one separator and the items from it on |
| `PdfText.PagesTextAppend` | services/pdfService.ts:20-25 | the accumulated text of pages `a` then `b` is the text of `a` followed by the text of `b` |
| `PdfText.PageContribution` | services/pdfService.ts:24 | page i contributes exactly its page text followed by `"\n\n"`, between the texts of the earlier and the later pages |
| `PdfText.PagesTextLength` | services/pdfService.ts:15-25 | the text length is the sum of the page-text lengths plus 2 per page |
| `PdfText.ExtractTextPages` | services/pdfService.ts:15-27 | pages after the 10th never affect the result; with at most 10 pages all are read; zero pages give ""; the length is the page-text lengths plus 2 per page read |
| `PdfText.ExtractTextErrors` | services/pdfService.ts:9-12 | an unread file fails with "Failed to read file"; a missing pdf.js fails with "PDF.js library not loaded" whatever the document; a pdf.js error is passed on unchanged |

## Findings

| source | as written | input that shows it | evidently intended | confidence | as-written member | corrected member |
|---|---|---|---|---|---|---|
| services/audioService.ts:78-84 | the `onended` handler tests only the shared `isPlaying` flag | `play()`, then `seek(t)` while playing; the stopped node's `ended` event is dispatched after `seek` has restarted playback | `onEnded` only when the node that is playing reaches its end (the comment: only when not stopped manually); the caller's `play()` then does not start a second voice | not executed | `Playback.StaleEndedAfterSeek` | `Playback.AudioController.NodeEndedGuarded` |

The as-written handler is `Playback.AudioController.NodeEnded`. The corrected one
compares the ended node with `source`. `NodeEndedGuarded` preserves
`SingleVoice()`: the only node producing audio is the current source, and only while
`isPlaying`. `StaleEndedAfterSeekGuarded` runs the same events through it.

## Left out

- Web Audio engine internals are abstracted as the clock and node handles. Left out:
  the creation of the `AudioContext`, the analyser and its FFT size, the node graph
  connections, `resume()` of a suspended context, `getContext()` and real audio output.
- A node does not record which buffer it plays. After `LoadAudio` during playback, the
  model does not show the old node continuing with the old buffer.
- The environment decides when a sounding node runs out and calls `NodeEnded`. The
  model does not tie that moment to `now - startTime` reaching the buffer duration.
- Floating point is not modelled: times and samples are exact reals. The IEEE rounding
  of `/ 32768.0` is left out, and so are `NaN` and `-0` in `offset || pauseTime`.
- `Int16Array` uses the platform's byte order; the model fixes little-endian, as the
  code assumes.
- `async`/`await`, the event loop and `console.error` logging are left out. Callbacks
  and promise outcomes are explicit calls and `Result` values. The `onEnded` callback
  (which only updates the caller's UI state) is counted in `endedCalls`.
- `Playback.AudioController.Play` requires `offset >= 0`. The node's `start` throws
  `RangeError` on a negative offset. The model does not capture the partial state left
  when that throw happens after a node was already created. The only caller passes no
  offset.
- `Playback.AudioController.Seek` requires `time >= 0`. The controller does not clamp.
  The skip buttons pass `Math.max(0, currentTime - 10)` and
  `Math.min(duration, currentTime + 10)` (App.tsx:259, 288; the latter is not negative
  because `currentTime` is not), and the slider's range input (App.tsx:241-246,
  `min="0"`) keeps the value that `handleSeek` passes on in [0, duration]. A negative
  time would reach `start` through `play`.
- In `extractTextFromPdf`, the FileReader and pdf.js document loading are replaced by
  inputs:
  - whether the file was read;
  - whether pdf.js is present;
  - the document's pages, or the error pdf.js rejects with.
  A failure of an individual `getPage` or `getTextContent` call is not modelled
  separately. A text item without `str` counts as the empty string, as `join` renders
  it.
- App.tsx (UI wiring, the 5000-character truncation), the speech-synthesis client,
  the components, types.ts and constants.ts are not part of this model.

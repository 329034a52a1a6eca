# NACtranslate speech pipeline — Dafny model

NACtranslate streams microphone audio from a browser to a Flask
speech-to-text service and shows the translated text as subtitles. This
project models the sequential logic of that pipeline and proves properties
about it:

- **`PcmProcessor`** — the audio worklet `PCMProcessor`: float samples
  (modelled as reals) are clamped to [-1, 1], scaled by 0x7fff and stored
  in an `Int16Array` (ECMAScript ToInt16: truncation toward zero, then
  wrap-around modulo 2^16, written out). The converted samples go into a
  buffer, and once it holds `BUFFER_SIZE` (144000) samples exactly that
  many are posted and the rest are kept.
- **`MicrophoneCapture`** — the React component's pure state logic. It covers
  the `{from, to}` language reducer, the subtitle log (each non-empty reply on a
  new line above the old text), the message the worklet port handler sends,
  and the `handleStopMic` teardown over nullable resource handles.
- **`SpeechBackend`** — what the two versions of `speech_to_text.py` share.
  That is the `Lang-From`/`Lang-To` header defaults ("en", "ru"), the nine-entry
  `VOSK_MODELS` table, the `translate_text` guard and the three-way reply
  choice. The Vosk recognizer is a state machine value (`Recognizer`) whose
  steps are left open. The Argos translator is a set of installed codes plus a
  translation function.
- **`StreamingRecognition`** — the version under `nactranslate/src/backend`.
  It reads the body in 4096-byte chunks, builds the transcription from the
  accepted chunk texts and the final text, and falls back to the last partial
  result.
- **`WholeRecognition`** — the version under `python-scripts/`. It makes one
  `AcceptWaveform` call on the whole body and uses only `FinalResult()`.
  Its `BUFFER_SIZE` (65536) is declared but never used.
- **`Relay`** — the `ws` server's `message` handler. It parses, posts `data`
  to the backend, forwards the reply text and always sends an
  acknowledgement.
- **`Pipeline`** — lemmas that span components.
- **`Strings`**, **`Json`**, **`Wrappers`** — support code. This covers
  Python's `str.strip()` and `" ".join`, values returned by `JSON.parse` with
  their property reads, and `Option`.

`translate_text`, the header defaults, `VOSK_MODELS` and the reply choice are
equivalent in `python-scripts/speech_to_text.py` (lines 11-20, 47-48,
27-37, 92-103). They are defined once, in `SpeechBackend`, and used by both
route models.

## Model

| member | source | states |
|---|---|---|
| PcmProcessor.Clamp | nactranslate/public/pcmProcessor.js:21 | the clamped sample lies in [-1, 1]: inputs already in range are unchanged, inputs at or above 1 become 1, inputs at or below -1 become -1 |
| PcmProcessor.Truncate | nactranslate/public/pcmProcessor.js:21 | the result is the integer part of the real, rounded toward zero: for non-negative x it is the largest integer not above x, for negative x the smallest integer not below x |
| PcmProcessor.ToInt16 | nactranslate/public/pcmProcessor.js:17-21 | an `Int16Array` store yields a value in [-32768, 32767] that is congruent to the truncated input modulo 65536, and it is the truncated input itself whenever that fits |
| PcmProcessor.ConvertSample | nactranslate/public/pcmProcessor.js:21 | every converted sample lies in [-32767, 32767]: inputs >= 1 give 32767, inputs <= -1 give -32767 and 0 gives 0; the 16-bit store never wraps, so the sample is the truncated scaled value |
| PcmProcessor.ConvertMonotone | nactranslate/public/pcmProcessor.js:21 | the conversion is monotone non-decreasing |
| PcmProcessor.ConvertOdd | nactranslate/public/pcmProcessor.js:21 | the conversion is odd: conv(-x) = -conv(x) |
| PcmProcessor.Convert | nactranslate/public/pcmProcessor.js:17-22 | the converted frame has as many samples as the input frame, each within [-32767, 32767] |
| PcmProcessor.ConvertFrame | nactranslate/public/pcmProcessor.js:17-22 | the conversion loop fills an array of the frame's length whose i-th element is the conversion of the i-th input sample, so it computes exactly the `Convert` used by `Process` |
| PcmProcessor.Process | nactranslate/public/pcmProcessor.js:13-34 | returns true; with no input or no channel 0 nothing changes and nothing is posted; otherwise the posted chunk followed by the new buffer equals the old buffer followed by the converted frame; a chunk is posted exactly when the buffer reaches BUFFER_SIZE, and it has exactly BUFFER_SIZE samples |
| PcmProcessor.ProcessKeepsBufferShort | nactranslate/public/pcmProcessor.js:27-31 | a buffer shorter than BUFFER_SIZE stays shorter after a frame of at most BUFFER_SIZE samples |
| PcmProcessor.StepConserves | nactranslate/public/pcmProcessor.js:25-31 | one call appends its posted chunk to the chunks posted so far without losing or duplicating a sample |
| PcmProcessor.RunConserves | nactranslate/public/pcmProcessor.js:25-31 | over any sequence of calls, all posted chunks followed by the remaining buffer equal the initial buffer followed by every converted frame, in order |
| PcmProcessor.Run | nactranslate/public/pcmProcessor.js:13-34 | repeated `process()` calls post no more chunks than there were calls, and every chunk posted holds exactly `BUFFER_SIZE` samples (one call posts at most one, by `Process`'s optional chunk) |
| PcmProcessor.RunChunksAndBound | nactranslate/public/pcmProcessor.js:8-31 | starting from the constructor's empty buffer with frames of at most BUFFER_SIZE samples, every posted chunk has exactly BUFFER_SIZE samples and the buffer stays below BUFFER_SIZE |
| MicrophoneCapture.HandleLanguageChange | nactranslate/src/MicrophoneCapture.jsx:12-33 | `spokenLanguage` sets `from` and keeps `to`; `transcribedLanguage` sets `to` and keeps `from`; any other name leaves the pair unchanged |
| MicrophoneCapture.LanguageChangesCommute | nactranslate/src/MicrophoneCapture.jsx:15-27 | updates to the two fields commute and together set the whole pair |
| MicrophoneCapture.LanguageChangeLastWins | nactranslate/src/MicrophoneCapture.jsx:15-27 | two updates through the same control equal the second one alone |
| MicrophoneCapture.ApplyChangesLastWriteWins | nactranslate/src/MicrophoneCapture.jsx:10-33 | after any event sequence each field holds the value of the last event for its control, or its earlier value (initially en/fr) when there was none |
| MicrophoneCapture.OnSocketMessage | nactranslate/src/MicrophoneCapture.jsx:65-71 | an empty reply leaves the subtitles unchanged; a non-empty reply r gives r, a line break, then the old text, so the old text is a suffix and the length grows by the length of r plus one |
| MicrophoneCapture.InitialSelection | nactranslate/src/MicrophoneCapture.jsx:10-33 | from the initial selection, the spoken language stays "en" while no `spokenLanguage` event has occurred, and the target stays "fr" while no `transcribedLanguage` event has |
| MicrophoneCapture.ShowAllPrepends | nactranslate/src/MicrophoneCapture.jsx:65-71 | after any sequence of replies the subtitles are the non-empty replies newest first, each followed by a line break, above the earlier text |
| MicrophoneCapture.InitialSubtitles | nactranslate/src/MicrophoneCapture.jsx:9 | the subtitles read "TESTING" until a non-empty reply arrives, and after any replies that text stays at the bottom of the log |
| MicrophoneCapture.PortMessage | nactranslate/src/MicrophoneCapture.jsx:75-84 | a message is sent exactly when the socket is open, and its `data`, `lang_to` and `lang_from` fields are the chunk and the selected pair |
| MicrophoneCapture.StopMic | nactranslate/src/MicrophoneCapture.jsx:97-116 | afterwards every handle is null and the status is "Microphone disconnected"; each held resource is released, only held resources are released, and nothing is released when nothing was held |
| MicrophoneCapture.StopMicIdempotent | nactranslate/src/MicrophoneCapture.jsx:97-116 | a second teardown releases nothing and leaves the state as the first left it |
| Json.Lookup | nactranslate/src/wsserver.js:13-14 | a key is found exactly when some member has it, and the value found belongs to a member with that key |
| Json.LookupLaterWins | nactranslate/src/wsserver.js:13-14 | of members sharing a key, the last one is read |
| Json.Member | nactranslate/src/wsserver.js:14 | for keys that name no built-in property, such as `data`, `lang_to` and `lang_from`, destructuring reads only an object's own members; on any other non-null value the field is undefined |
| Strings.Strip | nactranslate/src/backend/python-scripts/speech_to_text.py:113 | the result neither starts nor ends with white space, is no longer than the input, and is empty exactly when the input is all white space |
| Strings.StripUnique | nactranslate/src/backend/python-scripts/speech_to_text.py:113 | stripping any white-space padding around a stripped string gives back that string |
| Strings.StripIdempotent | nactranslate/src/backend/python-scripts/speech_to_text.py:113 | stripping twice equals stripping once |
| SpeechBackend.RequestLanguages | nactranslate/src/backend/python-scripts/speech_to_text.py:47-48 | a missing `Lang-From` reads as "en", a missing `Lang-To` as "ru"; present headers are used as given |
| SpeechBackend.ModelPath | nactranslate/src/backend/python-scripts/speech_to_text.py:26-36 | a model directory is found exactly for the nine supported codes; it is the `VOSK_MODELS` entry for that code, and it is never empty |
| SpeechBackend.TranslateText | nactranslate/src/backend/python-scripts/speech_to_text.py:11-20 | "" when either language is not installed or the text is empty; otherwise the translator's output |
| SpeechBackend.SelectReply | nactranslate/src/backend/python-scripts/speech_to_text.py:122-129 | an empty transcription gives "No speech detected"; a non-empty one is translated when both languages are given and differ, and returned as is otherwise |
| SpeechBackend.UninstalledLanguageRepliesEmpty | nactranslate/src/backend/python-scripts/speech_to_text.py:122-125 | a translation with an uninstalled language replies with empty text, not with "No speech detected" |
| StreamingRecognition.ReadChunks | nactranslate/src/backend/python-scripts/speech_to_text.py:88-91 | the reads are non-empty, at most 4096 bytes, all but the last full, their number is the body length divided by 4096, rounded up, and together they are the body |
| StreamingRecognition.Feed | nactranslate/src/backend/python-scripts/speech_to_text.py:88-93 | the recognizer takes exactly one step per chunk read |
| StreamingRecognition.AcceptedTexts | nactranslate/src/backend/python-scripts/speech_to_text.py:93-98 | the accepted-chunk texts kept are non-empty and stripped |
| StreamingRecognition.LastPartial | nactranslate/src/backend/python-scripts/speech_to_text.py:99-103 | the partial text is "" or the `partial` field of some chunk that was not accepted |
| StreamingRecognition.LastPartialOverwritten | nactranslate/src/backend/python-scripts/speech_to_text.py:99-103 | the last non-accepted chunk's `partial` field wins, even when it is empty or missing |
| StreamingRecognition.AccumulateIsSpacePrefixed | nactranslate/src/backend/python-scripts/speech_to_text.py:93-98 | the loop's `transcription` is each kept accepted text preceded by one space |
| StreamingRecognition.RawTranscription | nactranslate/src/backend/python-scripts/speech_to_text.py:93-110 | before stripping, the transcription is every kept accepted text and then the non-empty final text, each preceded by one space |
| StreamingRecognition.SpacePrefixedJoin | nactranslate/src/backend/python-scripts/speech_to_text.py:98-113 | a non-empty space-prefixed list is one space followed by the pieces joined with single spaces |
| StreamingRecognition.StripSpacePrefixed | nactranslate/src/backend/python-scripts/speech_to_text.py:113 | stripping the space-prefixed pieces gives their single-space join |
| StreamingRecognition.Assemble | nactranslate/src/backend/python-scripts/speech_to_text.py:106-117 | the transcription neither starts nor ends with white space, and it is empty exactly when both the accumulated text and the last partial text are all white space |
| StreamingRecognition.AssembleIsJoin | nactranslate/src/backend/python-scripts/speech_to_text.py:93-117 | the transcription is the stripped non-empty accepted texts and then the final text, joined by single spaces; when there are none it is the stripped last partial text |
| StreamingRecognition.ProcessAudio | nactranslate/src/backend/python-scripts/speech_to_text.py:41-129 | a spoken language without a model gets the unsupported-model error; otherwise the body is read in 4096-byte chunks into the recognizer loaded from that language's `VOSK_MODELS` directory, and the reply is chosen for the accepted and final texts joined by single spaces, or for the stripped last partial text when there are none |
| StreamingRecognition.UnsupportedLanguageReply | nactranslate/src/backend/python-scripts/speech_to_text.py:57-66 | a spoken language without a model replies exactly "Error: Unsupported language model", whatever the recognizer |
| StreamingRecognition.SupportedLanguageReply | nactranslate/src/backend/python-scripts/speech_to_text.py:122-129 | with a model, the reply is "No speech detected" for an empty transcription, the translation when the target is given and differs, and the transcription otherwise |
| StreamingRecognition.DefaultsToEnglishRussian | nactranslate/src/backend/python-scripts/speech_to_text.py:47-48 | a request without language headers uses the English model and translates into Russian |
| WholeRecognition.ProcessAudio | python-scripts/speech_to_text.py:42-103 | a spoken language without a model gets the unsupported-model error; otherwise, with `t` the stripped final text after the whole body goes in one call to the recognizer loaded from that language's `VOSK_MODELS` directory, the reply is "No speech detected" when `t` is empty, the translation when a different target language is given, and `t` itself otherwise |
| WholeRecognition.UnsupportedLanguageReply | python-scripts/speech_to_text.py:58-67 | a spoken language without a model replies exactly "Error: Unsupported language model", whatever the recognizer |
| WholeRecognition.NoPartialFallback | python-scripts/speech_to_text.py:83-87 | the whole body goes to the recognizer in one call; a final text that is empty after stripping replies "No speech detected", whatever partial result there was |
| WholeRecognition.SupportedLanguageReply | python-scripts/speech_to_text.py:92-103 | with a model, the reply is "No speech detected", the translation, or the transcription, chosen as in the streaming version |
| WholeRecognition.DefaultsToEnglishRussian | python-scripts/speech_to_text.py:47-48 | a request without language headers uses the English model and translates into Russian |
| WholeRecognition.AgreesWithStreamingOnShortBodies | python-scripts/speech_to_text.py:81-87 | on a non-empty body of at most 4096 bytes that the recognizer loaded with the request's spoken-language model does not accept and gives a non-empty final text, both versions give the same reply |
| Json.ToStringThrows | nactranslate/src/wsserver.js:15 | converting a parsed value to a string in a template literal throws exactly for an object with its own "toString" member or an array holding such a value at any depth |
| Json.ObjectToStringThrows | nactranslate/src/wsserver.js:15 | an object's conversion throws exactly when some member, duplicate or not, is named "toString" |
| Relay.BackendRequest | nactranslate/src/wsserver.js:14-16 | the POST goes to the backend URL, carries only the `data` field as body and only an octet-stream content type as header |
| Relay.LogThrows | nactranslate/src/wsserver.js:15 | the log line throws only for an object message, one whose `lang_to` or `lang_from` cannot be made a string |
| Relay.HandleMessage | nactranslate/src/wsserver.js:11-24 | each inbound message sends one or two frames, the last being the acknowledgement; a parse failure, a `null` message or a language field whose string conversion throws in the log line makes no backend call, and nothing else does; a failed call sends only the acknowledgement; a successful one sends the reply text verbatim, then the acknowledgement |
| Relay.LanguageFieldsIgnored | nactranslate/src/wsserver.js:14-16 | two messages with the same `data` are handled identically, whatever their language fields, provided both fields can be made strings |
| Relay.UnprintableLanguageSkipsBackend | nactranslate/src/wsserver.js:14-23 | a message whose `lang_to` is an object with its own "toString" member sends only the acknowledgement and makes no backend call, whatever its `data` |
| Pipeline.SelectionNeverReachesBackend | nactranslate/src/wsserver.js:14-16 | for any two client language selections the relay makes the same request, and the backend reads it as en to ru |
| Pipeline.SubtitlesAfterExchange | nactranslate/src/wsserver.js:18-23 | after one successful exchange the subtitle log shows the acknowledgement above the backend's text (when non-empty) above the earlier text |
| Pipeline.FlaskBackend | nactranslate/src/backend/python-scripts/speech_to_text.py:74-76 | the backend fails on exactly the requests on which the route raises, and otherwise responds with the route's reply text |
| Pipeline.EndToEndUsesDefaults | nactranslate/src/wsserver.js:14-23 | whatever the user selected, the relay posts only `data` with the binary content type; if the route does not raise, the reply is the English transcription translated into Russian (or "No speech detected"), then the acknowledgement; if it raises, only the acknowledgement comes back |

## Left out

- `handleMicAccess` audio-graph and socket setup is browser I/O and is not modelled. That covers `getUserMedia`, `AudioContext`, the compressor parameters, loading the worklet module and building the WebSocket. Its two status texts appear only as the constants `STATUS_CONNECTED` and `STATUS_FAILED`.
- Float32 semantics are not modelled. Samples are reals, so IEEE-754 rounding and NaN (which ToInt16 maps to 0) are left out.
- The JSON serialisation of the `Int16Array` chunk is not modelled. `PortMessage` takes the serialised `data` as an opaque JSON value. The pipeline lemmas take as given that the relay parses back the object the client built. Turning `data` into request bytes is the `encode` parameter, because axios's body encoding is not part of this model.
- The port handler reads the `langselections` captured when the microphone was connected, which may be stale. `PortMessage` takes the language pair as a parameter, and which pair a closure holds is React behaviour.
- `HandleLanguageChange` is modelled as a pure function. The source mutates the previous state object in place before copying it, which is a React in-place-mutation effect.
- `StopMicIdempotent` models a second teardown on the state the first one left. In the component, `socket` is read from the render closure, so a second click before React re-renders would see the old socket again.
- The `Error: Model resolution failed` branch is not modelled. `dict.get` with a string key cannot raise, so that branch is unreachable.
- `SpeechBackend.RequestLanguages` looks header names up exactly as written. Flask's case-insensitive header lookup is not modelled.
- The model directory stands for `os.path.join(parent_dir, path)`. File-system layout is outside the model.
- Vosk and Argos internals are parameters: model loading, `AcceptWaveform`, `Result`, `PartialResult`, `FinalResult`, the installed languages and the translation. A JSON field holding a non-string value is not modelled.
- The relay's backend reply is taken to carry a `text` field. Every path of both backend models returns one (`SpeechBackend.Reply`). The route also has paths that raise, which Flask answers with an error status: `get_translation` finds no path between two installed languages (line 17 of both versions), or `Model` is handed a missing model directory (line 75 of the streaming version, line 76 of the whole-body one). The models do not decide when this happens. `Pipeline.FlaskBackend` takes it as the `crashes` parameter, which makes the relay's POST fail.
- Logging is left out: `console`/`print` output, Flask routing, the `ws` server loop and the HTTP transport. The one log line that changes control flow is modelled: the relay's template literal at `wsserver.js:15` throws on an unprintable language field (`Relay.LogThrows`).
- Recognizer queries: `Recognizer.feed` covers `AcceptWaveform` together with the `Result()` or `PartialResult()` query the streaming route makes after it. The whole-body route makes no such query. `WholeRecognition.AgreesWithStreamingOnShortBodies` therefore takes those queries not to change what `FinalResult()` returns.
- Concurrent messages on one relay connection are not modelled. One message is handled at a time, and the interleaving of the async handler is concurrency.
- `get_argos_models.py` is a one-off package installer, and `App.jsx` is markup only.
- Some behaviour is absent from the modelled source files, so it is not part of this model: a push-to-talk recording controller, start/stop recording commands, an explicit-stop flush, and binary audio frames on the socket.

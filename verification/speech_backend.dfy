/** The decision logic shared by both versions of the Flask speech-to-text
    backend: header defaults, the Vosk model table, the Argos translation
    guard and the choice of reply. The Vosk recognizer and the Argos
    translator are supplied as values whose behaviour is left open. */
module SpeechBackend {
  import opened Wrappers
  import opened Strings

  newtype byte = b: int | 0 <= b < 256

  /** The request body. */
  type Bytes = seq<byte>

  /** Request headers by name. */
  type Headers = map<string, string>

  /** The JSON reply `{"text": ...}`; every path of the route returns one. */
  datatype Reply = Reply(text: string)

  const DEFAULT_FROM: string := "en"
  const DEFAULT_TO: string := "ru"

  const UNSUPPORTED_MODEL: string := "Error: Unsupported language model"
  const NO_SPEECH: string := "No speech detected"

  /** The language codes that have a Vosk model. */
  const SUPPORTED_LANGUAGES: set<string> := {"en", "es", "fr", "ru", "pt", "uk", "tl", "de", "ar"}

  /** `VOSK_MODELS`: spoken language to model directory. */
  const VOSK_MODELS: map<string, string> := map[
    "en" := "vosk-models/vosk-model-small-en-us-0.15",
    "es" := "vosk-models/vosk-model-small-es-0.42",
    "fr" := "vosk-models/vosk-model-small-fr-0.22",
    "ru" := "vosk-models/vosk-model-small-ru-0.22",
    "pt" := "vosk-models/vosk-model-small-pt-0.3",
    "uk" := "vosk-models/vosk-model-small-uk-v3-small",
    "tl" := "vosk-models/vosk-model-small-tl-ph-generic-0.6",
    "de" := "vosk-models/vosk-model-small-de-0.15",
    "ar" := "vosk-models/vosk-model-ar-mgb2-0.4"
  ]

  /** The languages a request asks for. */
  datatype Languages = Languages(from: string, to: string)

  /** `request.headers.get(name, default)`. */
  function HeaderOr(headers: Headers, name: string, default: string): string
  {
    if name in headers then headers[name] else default
  }

  /** The `Lang-From` and `Lang-To` headers, defaulting to English and
      Russian when absent. */
  function RequestLanguages(headers: Headers): (langs: Languages)
    ensures "Lang-From" !in headers ==> langs.from == DEFAULT_FROM
    ensures "Lang-To" !in headers ==> langs.to == DEFAULT_TO
    ensures "Lang-From" in headers ==> langs.from == headers["Lang-From"]
    ensures "Lang-To" in headers ==> langs.to == headers["Lang-To"]
  {
    Languages(HeaderOr(headers, "Lang-From", DEFAULT_FROM), HeaderOr(headers, "Lang-To", DEFAULT_TO))
  }

  /** `VOSK_MODELS.get(from_lang)`, kept only when it is truthy. */
  function ModelPath(lang: string): (path: Option<string>)
    ensures path.Some? <==> lang in SUPPORTED_LANGUAGES
    ensures path.Some? ==> path.value != ""
    ensures path.Some? ==> lang in VOSK_MODELS && path.value == VOSK_MODELS[lang]
  {
    if lang in VOSK_MODELS && VOSK_MODELS[lang] != "" then Some(VOSK_MODELS[lang]) else None
  }

  /** The installed Argos language codes and the translation they perform. */
  datatype Argos = Argos(installed: set<string>, translate: (string, string, string) -> string)

  /** `translate_text`: translate only when both languages are installed and
      the text is non-empty; otherwise the empty string. */
  function TranslateText(argos: Argos, from: string, to: string, text: string): (r: string)
    ensures (from !in argos.installed || to !in argos.installed || text == "") ==> r == ""
    ensures (from in argos.installed && to in argos.installed && text != "") ==> r == argos.translate(from, to, text)
  {
    if from in argos.installed && to in argos.installed && text != "" then argos.translate(from, to, text)
    else ""
  }

  /** What a recognizer reports after one `AcceptWaveform` call: whether it
      accepted the chunk, with the `"text"` field of `Result()` when it did and
      the `"partial"` field of `PartialResult()` when it did not (`None` when
      the field is missing). */
  datatype Step = Accepted(text: Option<string>) | NotAccepted(partial: Option<string>)

  /** A Vosk `KaldiRecognizer` as a state machine: the state made from a model
      directory, the step taken on one chunk of audio, and the `"text"` field of
      `FinalResult()`. A step includes the `Result()` or `PartialResult()` query
      that follows `AcceptWaveform`; those queries are taken not to change what
      the recognizer reports later, so a caller that skips them (as the
      whole-body route does) reaches the same state. */
  datatype Recognizer<!S> = Recognizer(
    load: string -> S,
    feed: (S, Bytes) -> (S, Step),
    finalResult: S -> Option<string>)

  /** The reply for a transcription: translate when the languages are both
      given and differ, return the transcription itself when they do not, and
      report that no speech was detected when it is empty. */
  function SelectReply(langs: Languages, transcription: string, argos: Argos): (r: Reply)
    ensures transcription == "" ==> r == Reply(NO_SPEECH)
    ensures (transcription != "" && langs.from != "" && langs.to != "" && langs.from != langs.to)
              ==> r == Reply(TranslateText(argos, langs.from, langs.to, transcription))
    ensures (transcription != "" && (langs.from == "" || langs.to == "" || langs.from == langs.to))
              ==> r == Reply(transcription)
  {
    if langs.from != "" && langs.to != "" && langs.from != langs.to && transcription != "" then
      Reply(TranslateText(argos, langs.from, langs.to, transcription))
    else if transcription != "" then
      Reply(transcription)
    else
      Reply(NO_SPEECH)
  }

  /** A translation that cannot happen (a language not installed) replies
      with an empty text, never with "No speech detected". */
  lemma UninstalledLanguageRepliesEmpty(langs: Languages, transcription: string, argos: Argos)
    requires transcription != "" && langs.from != "" && langs.to != "" && langs.from != langs.to
    requires langs.from !in argos.installed || langs.to !in argos.installed
    ensures SelectReply(langs, transcription, argos) == Reply("")
  {
  }
}

/** The `/process_audio` route of the backend version that hands the whole
    body to the recognizer in one call and uses only `FinalResult()`. */
module WholeRecognition {
  import opened Wrappers
  import opened Strings
  import opened SpeechBackend
  import StreamingRecognition

  /** Declared by this version but never read: the body is not split. */
  const BUFFER_SIZE: nat := 65536

  /** One `AcceptWaveform` call on the whole body, whose outcome is ignored,
      then the stripped `"text"` of `FinalResult()`. */
  function Transcribe<S>(rec: Recognizer<S>, path: string, body: Bytes): string
  {
    var fed := rec.feed(rec.load(path), body);
    Strip(rec.finalResult(fed.0).GetOr(""))
  }

  /** `process_audio` of this version. */
  function ProcessAudio<S>(headers: Headers, body: Bytes, rec: Recognizer<S>, argos: Argos): (r: Reply)
    ensures RequestLanguages(headers).from !in SUPPORTED_LANGUAGES ==> r == Reply(UNSUPPORTED_MODEL)
    ensures var langs := RequestLanguages(headers);
            langs.from in SUPPORTED_LANGUAGES ==>
              var t := Strip(rec.finalResult(rec.feed(rec.load(VOSK_MODELS[langs.from]), body).0).GetOr(""));
              && (t == "" ==> r == Reply(NO_SPEECH))
              && (t != "" && langs.to != "" && langs.from != langs.to ==> r == Reply(TranslateText(argos, langs.from, langs.to, t)))
              && (t != "" && (langs.to == "" || langs.from == langs.to) ==> r == Reply(t))
  {
    var langs := RequestLanguages(headers);
    match ModelPath(langs.from)
    case None => Reply(UNSUPPORTED_MODEL)
    case Some(path) => SelectReply(langs, Transcribe(rec, path, body), argos)
  }

  /** A spoken language without a Vosk model gets the unsupported-model
      error, whatever the recognizer would have said. */
  lemma UnsupportedLanguageReply<S>(headers: Headers, body: Bytes, rec: Recognizer<S>, argos: Argos)
    requires RequestLanguages(headers).from !in SUPPORTED_LANGUAGES
    ensures ProcessAudio(headers, body, rec, argos) == Reply(UNSUPPORTED_MODEL)
  {
  }

  /** The recognizer sees the whole body in a single call, and the
      transcription is exactly the stripped final text: a final result that is
      empty after stripping means "No speech detected", whatever partial
      result the recognizer had. */
  lemma NoPartialFallback<S>(headers: Headers, body: Bytes, rec: Recognizer<S>, argos: Argos)
    requires RequestLanguages(headers).from in SUPPORTED_LANGUAGES
    requires Strip(rec.finalResult(rec.feed(rec.load(ModelPath(RequestLanguages(headers).from).value), body).0).GetOr("")) == ""
    ensures ProcessAudio(headers, body, rec, argos) == Reply(NO_SPEECH)
  {
  }

  /** With a model for the spoken language, the reply is the translation, the
      transcription, or "No speech detected". */
  lemma SupportedLanguageReply<S>(headers: Headers, body: Bytes, rec: Recognizer<S>, argos: Argos)
    requires RequestLanguages(headers).from in SUPPORTED_LANGUAGES
    ensures var langs := RequestLanguages(headers);
            var t := Transcribe(rec, ModelPath(langs.from).value, body);
            && (t == "" ==> ProcessAudio(headers, body, rec, argos) == Reply(NO_SPEECH))
            && (t != "" && langs.to != "" && langs.from != langs.to ==>
                  ProcessAudio(headers, body, rec, argos) == Reply(TranslateText(argos, langs.from, langs.to, t)))
            && (t != "" && (langs.to == "" || langs.from == langs.to) ==>
                  ProcessAudio(headers, body, rec, argos) == Reply(t))
  {
    var langs := RequestLanguages(headers);
    assert langs.from != "";
  }

  /** A request without language headers is transcribed with the English
      model and translated into Russian, as in the streaming version. */
  lemma DefaultsToEnglishRussian<S>(body: Bytes, rec: Recognizer<S>, argos: Argos)
    ensures ProcessAudio(map[], body, rec, argos)
         == SelectReply(Languages("en", "ru"), Transcribe(rec, VOSK_MODELS["en"], body), argos)
  {
  }

  /** A body of at most one read is read as a single chunk. */
  lemma ShortBodyIsOneChunk(body: Bytes)
    requires 0 < |body| <= StreamingRecognition.READ_SIZE
    ensures StreamingRecognition.ReadChunks(body) == [body]
  {
    assert body[..|body|] == body && body[|body|..] == [];
    assert StreamingRecognition.ReadChunks([]) == [];
  }

  lemma FeedOneChunk<S>(rec: Recognizer<S>, s0: S, body: Bytes)
    ensures StreamingRecognition.Feed(rec, s0, [body]) == (rec.feed(s0, body).0, [rec.feed(s0, body).1])
  {
    assert [body][..0] == [];
    assert StreamingRecognition.Feed(rec, s0, [body][..0]) == (s0, []);
    assert [] + [rec.feed(s0, body).1] == [rec.feed(s0, body).1];
  }

  /** One chunk that is not accepted, with a non-empty final text: the
      transcription is that final text. */
  lemma AssembleOneNotAccepted(step: Step, final: Option<string>)
    requires step.NotAccepted?
    requires StreamingRecognition.FinalText(final) != ""
    ensures StreamingRecognition.Assemble([step], final) == StreamingRecognition.FinalText(final)
  {
    assert [step][..0] == [];
    assert StreamingRecognition.AcceptedTexts([step]) == [];
    assert StreamingRecognition.Pieces([step], final) == [StreamingRecognition.FinalText(final)];
    StreamingRecognition.AssembleIsJoin([step], final);
  }

  lemma TranscribeAgrees<S>(rec: Recognizer<S>, path: string, body: Bytes)
    requires 0 < |body| <= StreamingRecognition.READ_SIZE
    requires rec.feed(rec.load(path), body).1.NotAccepted?
    requires Strip(rec.finalResult(rec.feed(rec.load(path), body).0).GetOr("")) != ""
    ensures StreamingRecognition.Transcribe(rec, path, body) == Transcribe(rec, path, body)
  {
    var s0 := rec.load(path);
    ShortBodyIsOneChunk(body);
    FeedOneChunk(rec, s0, body);
    AssembleOneNotAccepted(rec.feed(s0, body).1, rec.finalResult(rec.feed(s0, body).0));
  }

  /** The two versions agree on a non-empty body of at most one read whose
      single chunk the recognizer does not accept, provided the final text is
      not empty: the streaming version then makes the same single call, and its
      partial-result fallback is not used. */
  lemma AgreesWithStreamingOnShortBodies<S>(headers: Headers, body: Bytes, rec: Recognizer<S>, argos: Argos)
    requires 0 < |body| <= StreamingRecognition.READ_SIZE
    requires var p := ModelPath(RequestLanguages(headers).from);
             p.Some? ==> rec.feed(rec.load(p.value), body).1.NotAccepted?
    requires var p := ModelPath(RequestLanguages(headers).from);
             p.Some? ==> Strip(rec.finalResult(rec.feed(rec.load(p.value), body).0).GetOr("")) != ""
    ensures ProcessAudio(headers, body, rec, argos) == StreamingRecognition.ProcessAudio(headers, body, rec, argos)
  {
    var langs := RequestLanguages(headers);
    if langs.from in SUPPORTED_LANGUAGES {
      TranscribeAgrees(rec, ModelPath(langs.from).value, body);
    }
  }
}

/** Properties of the components put together: client, relay and backend. */
module Pipeline {
  import opened Wrappers
  import opened Json
  import MicrophoneCapture
  import Relay
  import SpeechBackend
  import StreamingRecognition

  /** The client's language selection never reaches the backend: for any two
      selections the relay makes the same request, and the backend reads it
      as English to Russian. */
  lemma SelectionNeverReachesBackend(l1: MicrophoneCapture.LanguagePair, l2: MicrophoneCapture.LanguagePair,
                                     data: Json, post: Relay.PostRequest -> Relay.BackendOutcome)
    ensures var h1 := Relay.HandleMessage(MicrophoneCapture.PortMessage(true, l1, data), post);
            var h2 := Relay.HandleMessage(MicrophoneCapture.PortMessage(true, l2, data), post);
            && h1 == h2
            && h1.request.Some?
            && SpeechBackend.RequestLanguages(h1.request.value.headers) == SpeechBackend.Languages("en", "ru")
  {
    var m1 := MicrophoneCapture.PortMessage(true, l1, data).value;
    var m2 := MicrophoneCapture.PortMessage(true, l2, data).value;
    Relay.LanguageFieldsIgnored(m1, m2, post);
  }

  /** The relay's two frames both land in the subtitle log: after one
      successful exchange the acknowledgement sits above the backend's text
      (which is left out when empty). */
  lemma SubtitlesAfterExchange(prev: string, parsed: Json, post: Relay.PostRequest -> Relay.BackendOutcome)
    requires parsed != JNull && !Relay.LogThrows(parsed)
    requires post(Relay.BackendRequest(parsed)).Responded?
    ensures var t := post(Relay.BackendRequest(parsed)).text;
            MicrophoneCapture.ShowAll(prev, Relay.HandleMessage(Some(parsed), post).sent)
              == Relay.ACK + "\n" + (if t != "" then t + "\n" else "") + prev
  {
    var t := post(Relay.BackendRequest(parsed)).text;
    var sent := Relay.HandleMessage(Some(parsed), post).sent;
    MicrophoneCapture.ShowAllPrepends(prev, sent);
    assert sent == [t, Relay.ACK];
    assert sent[..1] == [t] && sent[..1][..0] == [];
    var tail := if t != "" then t + "\n" else "";
    assert MicrophoneCapture.NewestFirst([t]) == tail + MicrophoneCapture.NewestFirst([]);
    assert MicrophoneCapture.NewestFirst(sent) == Relay.ACK + "\n" + MicrophoneCapture.NewestFirst([t]);
    assert MicrophoneCapture.NewestFirst(sent) + prev == Relay.ACK + "\n" + tail + prev;
  }

  /** The streaming backend behind the relay, with `encode` standing for how
      the posted `data` value becomes request bytes and `crashes` for the
      requests on which the route raises (a missing model directory, a
      language pair with no translation path), which Flask answers with an
      error status that makes the relay's POST fail. */
  function FlaskBackend<S>(rec: SpeechBackend.Recognizer<S>, argos: SpeechBackend.Argos,
                           encode: Option<Json> -> SpeechBackend.Bytes,
                           crashes: Relay.PostRequest -> bool): (backend: Relay.PostRequest -> Relay.BackendOutcome)
    ensures forall req :: crashes(req) ==> backend(req).Failed?
    ensures forall req :: !crashes(req) ==> backend(req).Responded?
    ensures forall req :: !crashes(req) ==>
              backend(req) == Relay.Responded(StreamingRecognition.ProcessAudio(req.headers, encode(req.body), rec, argos).text)
  {
    (req: Relay.PostRequest) =>
      if crashes(req) then Relay.Failed
      else Relay.Responded(StreamingRecognition.ProcessAudio(req.headers, encode(req.body), rec, argos).text)
  }

  /** End to end, whatever languages the user selected, the relay posts the
      same request carrying only `data`. When the route does not raise on it,
      the text sent back is the English transcription translated into Russian
      (or "No speech detected"), followed by the acknowledgement; when it
      raises, only the acknowledgement comes back. */
  lemma EndToEndUsesDefaults<S>(langs: MicrophoneCapture.LanguagePair, data: Json, rec: SpeechBackend.Recognizer<S>,
                                argos: SpeechBackend.Argos, encode: Option<Json> -> SpeechBackend.Bytes,
                                crashes: Relay.PostRequest -> bool)
    ensures var h := Relay.HandleMessage(MicrophoneCapture.PortMessage(true, langs, data), FlaskBackend(rec, argos, encode, crashes));
            var t := StreamingRecognition.Transcribe(rec, SpeechBackend.VOSK_MODELS["en"], encode(Some(data)));
            && h.request.Some?
            && h.request.value == Relay.PostRequest(Relay.BACKEND_URL, Some(data), map["Content-Type" := Relay.OCTET_STREAM])
            && (crashes(h.request.value) ==> h.sent == [Relay.ACK])
            && (!crashes(h.request.value) ==> h.sent == [SpeechBackend.SelectReply(SpeechBackend.Languages("en", "ru"), t, argos).text, Relay.ACK])
  {
    var post := FlaskBackend(rec, argos, encode, crashes);
    SelectionNeverReachesBackend(langs, langs, data, post);
    var h := Relay.HandleMessage(MicrophoneCapture.PortMessage(true, langs, data), post);
    var req := h.request.value;
    assert req.body == Some(data);
    assert req.headers == map["Content-Type" := Relay.OCTET_STREAM];
    StreamingRecognition.DefaultsToEnglishRussian(encode(Some(data)), rec, argos);
  }
}

/** The `/process_audio` route of the backend that feeds the recognizer in
    4096-byte reads and falls back to the last partial result. */
module StreamingRecognition {
  import opened Wrappers
  import opened Strings
  import opened SpeechBackend

  /** Bytes per `read` of the request body. */
  const READ_SIZE: nat := 4096

  /** The chunks laid end to end. */
  function Concat(chunks: seq<Bytes>): Bytes
    decreases |chunks|
  {
    if |chunks| == 0 then [] else chunks[0] + Concat(chunks[1..])
  }

  /** The read loop: `read(4096)` until it returns nothing. Each chunk is
      non-empty and at most 4096 bytes, every chunk but the last is full, and
      the chunks put back together are the body. */
  function ReadChunks(body: Bytes): (chunks: seq<Bytes>)
    ensures Concat(chunks) == body
    ensures forall i :: 0 <= i < |chunks| ==> 0 < |chunks[i]| <= READ_SIZE
    ensures forall i :: 0 <= i < |chunks| - 1 ==> |chunks[i]| == READ_SIZE
    ensures |chunks| == (|body| + READ_SIZE - 1) / READ_SIZE
    decreases |body|
  {
    if |body| == 0 then []
    else
      var n := if |body| < READ_SIZE then |body| else READ_SIZE;
      var rest := ReadChunks(body[n..]);
      assert body[..n] + body[n..] == body;
      [body[..n]] + rest
  }

  /** The recognizer state and its steps after feeding `chunks` in order. */
  function Feed<S>(rec: Recognizer<S>, s: S, chunks: seq<Bytes>): (r: (S, seq<Step>))
    ensures |r.1| == |chunks|
    decreases |chunks|
  {
    if |chunks| == 0 then (s, [])
    else
      var before := Feed(rec, s, chunks[..|chunks| - 1]);
      var after := rec.feed(before.0, chunks[|chunks| - 1]);
      (after.0, before.1 + [after.1])
  }

  /** `result.get("text", "").strip()` of an accepted chunk. */
  function AcceptedText(step: Step): string
    requires step.Accepted?
  {
    Strip(step.text.GetOr(""))
  }

  /** The step contributes a word group to the transcription. */
  predicate Contributes(step: Step) {
    step.Accepted? && AcceptedText(step) != ""
  }

  /** `transcription` after the loop: `" " + chunk_text` appended for each
      accepted chunk whose text is not empty. */
  function Accumulate(steps: seq<Step>): string
    decreases |steps|
  {
    if |steps| == 0 then ""
    else
      var last := steps[|steps| - 1];
      Accumulate(steps[..|steps| - 1]) + (if Contributes(last) then " " + AcceptedText(last) else "")
  }

  /** Reference reading: the non-empty stripped texts of the accepted chunks,
      in order. */
  function AcceptedTexts(steps: seq<Step>): (ps: seq<string>)
    ensures NonEmptyStripped(ps)
    decreases |steps|
  {
    if |steps| == 0 then []
    else
      var last := steps[|steps| - 1];
      AcceptedTexts(steps[..|steps| - 1]) + (if Contributes(last) then [AcceptedText(last)] else [])
  }

  /** `partial_text` after the loop: the `"partial"` field of the last chunk
      that was not accepted (even when that field is empty), or "" when every
      chunk was accepted. */
  function LastPartial(steps: seq<Step>): (p: string)
    ensures p == "" || exists i :: 0 <= i < |steps| && steps[i] == NotAccepted(Some(p))
    decreases |steps|
  {
    if |steps| == 0 then ""
    else if steps[|steps| - 1].NotAccepted? then steps[|steps| - 1].partial.GetOr("")
    else LastPartial(steps[..|steps| - 1])
  }

  /** A later non-accepted chunk overwrites the partial text, even with "". */
  lemma {:induction false} LastPartialOverwritten(front: seq<Step>, partial: Option<string>, rest: seq<Step>)
    requires forall k :: 0 <= k < |rest| ==> rest[k].Accepted?
    ensures LastPartial(front + [NotAccepted(partial)] + rest) == partial.GetOr("")
    decreases |rest|
  {
    var steps := front + [NotAccepted(partial)] + rest;
    if |rest| > 0 {
      assert steps[..|steps| - 1] == front + [NotAccepted(partial)] + rest[..|rest| - 1];
      LastPartialOverwritten(front, partial, rest[..|rest| - 1]);
    }
  }

  /** The transcription built from the chunk steps and `FinalResult()`:
      accepted texts then the final text, stripped; when that is empty, the
      stripped last partial text. */
  function Assemble(steps: seq<Step>, final: Option<string>): (r: string)
    ensures Stripped(r)
    ensures r == "" <==> AllSpace(RawText(steps, final)) && AllSpace(LastPartial(steps))
  {
    var transcription := Strip(RawText(steps, final));
    if transcription == "" then Strip(LastPartial(steps)) else transcription
  }

  /** `final_result.get("text", "").strip()`. */
  function FinalText(final: Option<string>): string
  {
    Strip(final.GetOr(""))
  }

  /** `transcription` before its final strip: the loop's text, then the
      final text preceded by a space when it is not empty. */
  function RawText(steps: seq<Step>, final: Option<string>): string
  {
    Accumulate(steps) + (if FinalText(final) != "" then " " + FinalText(final) else "")
  }

  /** The word groups that make up the transcription. */
  function Pieces(steps: seq<Step>, final: Option<string>): seq<string>
  {
    AcceptedTexts(steps) + (if FinalText(final) != "" then [FinalText(final)] else [])
  }

  lemma PiecesNonEmptyStripped(steps: seq<Step>, final: Option<string>)
    ensures NonEmptyStripped(Pieces(steps, final))
  {
    var accepted := AcceptedTexts(steps);
    if FinalText(final) != "" {
      assert Pieces(steps, final) == accepted + [FinalText(final)];
    } else {
      assert Pieces(steps, final) == accepted + [];
    }
  }

  /** Each piece preceded by a single space. */
  function SpacePrefixed(ps: seq<string>): string
    decreases |ps|
  {
    if |ps| == 0 then "" else SpacePrefixed(ps[..|ps| - 1]) + " " + ps[|ps| - 1]
  }

  lemma {:induction false} SpacePrefixedJoin(ps: seq<string>)
    requires |ps| > 0
    ensures SpacePrefixed(ps) == " " + Join(ps)
    decreases |ps|
  {
    if |ps| > 1 {
      SpacePrefixedJoin(ps[..|ps| - 1]);
    }
  }

  lemma {:induction false} AccumulateIsSpacePrefixed(steps: seq<Step>)
    ensures Accumulate(steps) == SpacePrefixed(AcceptedTexts(steps))
    decreases |steps|
  {
    if |steps| > 0 {
      var init := steps[..|steps| - 1];
      var last := steps[|steps| - 1];
      AccumulateIsSpacePrefixed(init);
      if Contributes(last) {
        var ps := AcceptedTexts(init) + [AcceptedText(last)];
        assert ps[..|ps| - 1] == AcceptedTexts(init);
      } else {
        assert AcceptedTexts(steps) == AcceptedTexts(init);
      }
    }
  }

  /** Before the final strip, the transcription is each piece preceded by a
      space. */
  lemma SpacePrefixedSnoc(ps: seq<string>, x: string)
    ensures SpacePrefixed(ps + [x]) == SpacePrefixed(ps) + (" " + x)
  {
    assert (ps + [x])[..|ps|] == ps;
  }

  lemma RawTranscription(steps: seq<Step>, final: Option<string>)
    ensures RawText(steps, final) == SpacePrefixed(Pieces(steps, final))
  {
    var finalText := FinalText(final);
    var accepted := AcceptedTexts(steps);
    AccumulateIsSpacePrefixed(steps);
    if finalText != "" {
      assert Pieces(steps, final) == accepted + [finalText];
      SpacePrefixedSnoc(accepted, finalText);
    } else {
      assert Pieces(steps, final) == accepted by {
        assert accepted + [] == accepted;
      }
      assert Accumulate(steps) + "" == Accumulate(steps);
    }
  }

  /** Stripping a space-prefixed list of non-empty stripped pieces gives
      their join. */
  lemma StripSpacePrefixed(ps: seq<string>)
    requires NonEmptyStripped(ps)
    ensures Strip(SpacePrefixed(ps)) == Join(ps)
    ensures ps != [] ==> Join(ps) != []
  {
    if ps == [] {
      assert SpacePrefixed(ps) == "";
    } else {
      SpacePrefixedJoin(ps);
      JoinStripped(ps);
      assert AllSpace(" ");
      StripUnique(" ", Join(ps), "");
      assert " " + Join(ps) + "" == SpacePrefixed(ps);
    }
  }

  /** The transcription is the accepted texts and the final text joined by
      single spaces; only when there are none does the last partial text
      stand in for them. */
  lemma AssembleIsJoin(steps: seq<Step>, final: Option<string>)
    ensures Pieces(steps, final) != [] ==> Assemble(steps, final) == Join(Pieces(steps, final))
    ensures Pieces(steps, final) == [] ==> Assemble(steps, final) == Strip(LastPartial(steps))
  {
    var ps := Pieces(steps, final);
    PiecesNonEmptyStripped(steps, final);
    RawTranscription(steps, final);
    StripSpacePrefixed(ps);
  }

  /** The transcription of a body with the model at `path`. */
  function Transcribe<S>(rec: Recognizer<S>, path: string, body: Bytes): string
  {
    var fed := Feed(rec, rec.load(path), ReadChunks(body));
    Assemble(fed.1, rec.finalResult(fed.0))
  }

  /** `process_audio`: resolve the languages and the model, transcribe, and
      select the reply. */
  function ProcessAudio<S>(headers: Headers, body: Bytes, rec: Recognizer<S>, argos: Argos): (r: Reply)
    ensures RequestLanguages(headers).from !in SUPPORTED_LANGUAGES ==> r == Reply(UNSUPPORTED_MODEL)
    ensures var langs := RequestLanguages(headers);
            langs.from in SUPPORTED_LANGUAGES ==>
              var fed := Feed(rec, rec.load(VOSK_MODELS[langs.from]), ReadChunks(body));
              var ps := Pieces(fed.1, rec.finalResult(fed.0));
              r == SelectReply(langs, if ps != [] then Join(ps) else Strip(LastPartial(fed.1)), argos)
  {
    var langs := RequestLanguages(headers);
    match ModelPath(langs.from)
    case None => Reply(UNSUPPORTED_MODEL)
    case Some(path) =>
      var fed := Feed(rec, rec.load(path), ReadChunks(body));
      AssembleIsJoin(fed.1, rec.finalResult(fed.0));
      SelectReply(langs, Transcribe(rec, path, body), argos)
  }

  /** A spoken language without a Vosk model gets the unsupported-model
      error, whatever the recognizer would have said. */
  lemma UnsupportedLanguageReply<S>(headers: Headers, body: Bytes, rec: Recognizer<S>, argos: Argos)
    requires RequestLanguages(headers).from !in SUPPORTED_LANGUAGES
    ensures ProcessAudio(headers, body, rec, argos) == Reply(UNSUPPORTED_MODEL)
  {
  }

  /** With a model for the spoken language, the reply is the translation, the
      transcription, or "No speech detected". */
  lemma SupportedLanguageReply<S>(headers: Headers, body: Bytes, rec: Recognizer<S>, argos: Argos)
    requires RequestLanguages(headers).from in SUPPORTED_LANGUAGES
    ensures var langs := RequestLanguages(headers);
            var t := Transcribe(rec, ModelPath(langs.from).value, body);
            && (t == "" ==> ProcessAudio(headers, body, rec, argos) == Reply(NO_SPEECH))
            && (t != "" && langs.to != "" && langs.from != langs.to ==>
                  ProcessAudio(headers, body, rec, argos) == Reply(TranslateText(argos, langs.from, langs.to, t)))
            && (t != "" && (langs.to == "" || langs.from == langs.to) ==>
                  ProcessAudio(headers, body, rec, argos) == Reply(t))
  {
    var langs := RequestLanguages(headers);
    assert langs.from != "";
  }

  /** A request without language headers is transcribed with the English
      model and translated into Russian. */
  lemma DefaultsToEnglishRussian<S>(body: Bytes, rec: Recognizer<S>, argos: Argos)
    ensures ProcessAudio(map[], body, rec, argos)
         == SelectReply(Languages("en", "ru"), Transcribe(rec, VOSK_MODELS["en"], body), argos)
  {
  }
}

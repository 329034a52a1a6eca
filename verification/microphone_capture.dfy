/** The client component `MicrophoneCapture`: its language-pair reducer, its
    subtitle log, the message its worklet port handler sends to the relay, and
    the `handleStopMic` teardown. React state updates are modelled as pure
    functions from the previous value to the next one. */
module MicrophoneCapture {
  import opened Wrappers
  import opened Json

  /** The `{from, to}` language selection. */
  datatype LanguagePair = LanguagePair(from: string, to: string)

  /** The initial selection: English to French. */
  const INITIAL_LANGUAGES: LanguagePair := LanguagePair("en", "fr")

  const SPOKEN_LANGUAGE: string := "spokenLanguage"
  const TRANSCRIBED_LANGUAGE: string := "transcribedLanguage"

  /** `handleLanguageChange`: the `<select>` named `spokenLanguage` sets
      `from`, the one named `transcribedLanguage` sets `to`; any other name
      only logs an error. */
  function HandleLanguageChange(prev: LanguagePair, name: string, value: string): (next: LanguagePair)
    ensures name == SPOKEN_LANGUAGE ==> next.from == value && next.to == prev.to
    ensures name == TRANSCRIBED_LANGUAGE ==> next.to == value && next.from == prev.from
    ensures name != SPOKEN_LANGUAGE && name != TRANSCRIBED_LANGUAGE ==> next == prev
  {
    if name == SPOKEN_LANGUAGE then prev.(from := value)
    else if name == TRANSCRIBED_LANGUAGE then prev.(to := value)
    else prev
  }

  /** Updates to the two different fields commute, and together they set the
      whole pair. */
  lemma LanguageChangesCommute(p: LanguagePair, a: string, b: string)
    ensures HandleLanguageChange(HandleLanguageChange(p, SPOKEN_LANGUAGE, a), TRANSCRIBED_LANGUAGE, b)
         == HandleLanguageChange(HandleLanguageChange(p, TRANSCRIBED_LANGUAGE, b), SPOKEN_LANGUAGE, a)
         == LanguagePair(a, b)
  {
  }

  /** Two updates through the same control: the last one wins. */
  lemma LanguageChangeLastWins(p: LanguagePair, name: string, a: string, b: string)
    ensures HandleLanguageChange(HandleLanguageChange(p, name, a), name, b)
         == HandleLanguageChange(p, name, b)
  {
  }

  /** A change event: the control's name and its new value. */
  datatype Change = Change(name: string, value: string)

  /** The pair after a sequence of change events. */
  function ApplyChanges(p: LanguagePair, events: seq<Change>): LanguagePair
    decreases |events|
  {
    if |events| == 0 then p
    else HandleLanguageChange(ApplyChanges(p, events[..|events| - 1]),
                              events[|events| - 1].name, events[|events| - 1].value)
  }

  /** The value of the last event for control `name`, if there is one. */
  function LastValue(events: seq<Change>, name: string): Option<string>
    decreases |events|
  {
    if |events| == 0 then None
    else if events[|events| - 1].name == name then Some(events[|events| - 1].value)
    else LastValue(events[..|events| - 1], name)
  }

  /** After any sequence of events, each field holds the value of the last
      event for its control, or its earlier value when there was none. */
  lemma {:induction false} ApplyChangesLastWriteWins(p: LanguagePair, events: seq<Change>)
    ensures ApplyChanges(p, events).from == LastValue(events, SPOKEN_LANGUAGE).GetOr(p.from)
    ensures ApplyChanges(p, events).to == LastValue(events, TRANSCRIBED_LANGUAGE).GetOr(p.to)
    decreases |events|
  {
    if |events| > 0 {
      ApplyChangesLastWriteWins(p, events[..|events| - 1]);
    }
  }

  /** From the initial English-to-French selection, the spoken language stays
      English until the `spokenLanguage` control changes it, and the target
      stays French until the `transcribedLanguage` control does. */
  lemma InitialSelection(events: seq<Change>)
    ensures (forall i :: 0 <= i < |events| ==> events[i].name != SPOKEN_LANGUAGE)
              ==> ApplyChanges(INITIAL_LANGUAGES, events).from == "en"
    ensures (forall i :: 0 <= i < |events| ==> events[i].name != TRANSCRIBED_LANGUAGE)
              ==> ApplyChanges(INITIAL_LANGUAGES, events).to == "fr"
  {
    ApplyChangesLastWriteWins(INITIAL_LANGUAGES, events);
    LastValueNone(events, SPOKEN_LANGUAGE);
    LastValueNone(events, TRANSCRIBED_LANGUAGE);
  }

  /** No event for control `name` means no last value for it. */
  lemma {:induction false} LastValueNone(events: seq<Change>, name: string)
    ensures (forall i :: 0 <= i < |events| ==> events[i].name != name) ==> LastValue(events, name).None?
    decreases |events|
  {
    if |events| > 0 {
      LastValueNone(events[..|events| - 1], name);
    }
  }

  /** The subtitle text before any reply arrives. */
  const INITIAL_SUBTITLES: string := "TESTING"

  /** `ws.onmessage`: a non-empty reply goes on a new line above the earlier
      text; an empty reply changes nothing. */
  function OnSocketMessage(prev: string, reply: string): (next: string)
    ensures reply == "" ==> next == prev
    ensures reply != "" ==> |next| == |reply| + 1 + |prev|
    ensures reply != "" ==> next[..|reply|] == reply && next[|reply|] == '\n'
    ensures reply != "" ==> next[|reply| + 1..] == prev
  {
    if reply != "" then reply + "\n" + prev else prev
  }

  /** The subtitles after a sequence of replies, oldest first. */
  function ShowAll(prev: string, replies: seq<string>): string
    decreases |replies|
  {
    if |replies| == 0 then prev
    else OnSocketMessage(ShowAll(prev, replies[..|replies| - 1]), replies[|replies| - 1])
  }

  /** Reference reading of the log: the non-empty replies newest first, each
      ended by a line break. */
  function NewestFirst(replies: seq<string>): string
    decreases |replies|
  {
    if |replies| == 0 then ""
    else
      var r := replies[|replies| - 1];
      (if r != "" then r + "\n" else "") + NewestFirst(replies[..|replies| - 1])
  }

  /** The log only ever grows at the front: the subtitles are the non-empty
      replies newest first, above the text shown before them. */
  lemma {:induction false} ShowAllPrepends(prev: string, replies: seq<string>)
    ensures ShowAll(prev, replies) == NewestFirst(replies) + prev
    decreases |replies|
  {
    if |replies| > 0 {
      var init := replies[..|replies| - 1];
      var r := replies[|replies| - 1];
      var before := ShowAll(prev, init);
      ShowAllPrepends(prev, init);
      assert ShowAll(prev, replies) == OnSocketMessage(before, r);
      if r != "" {
        assert OnSocketMessage(before, r) == r + "\n" + before;
        assert NewestFirst(replies) == r + "\n" + NewestFirst(init);
        assert r + "\n" + (NewestFirst(init) + prev) == (r + "\n" + NewestFirst(init)) + prev;
      } else {
        assert NewestFirst(replies) == "" + NewestFirst(init);
      }
    }
  }

  /** `handleMicAccess`'s worklet port handler: while the socket is open, each
      posted chunk is sent as the JSON object `{data, lang_to, lang_from}`,
      using the selection the handler holds; otherwise nothing is sent.
      `data` stands for the chunk as it reads after serialisation. */
  function PortMessage(socketOpen: bool, langs: LanguagePair, data: Json): (sent: Option<Json>)
    ensures sent.Some? <==> socketOpen
    ensures sent.Some? ==> Member(sent.value, "data") == Some(data)
    ensures sent.Some? ==> Member(sent.value, "lang_to") == Some(JString(langs.to))
    ensures sent.Some? ==> Member(sent.value, "lang_from") == Some(JString(langs.from))
  {
    if socketOpen then
      var ms := [("data", data), ("lang_to", JString(langs.to)), ("lang_from", JString(langs.from))];
      assert ms[..2] == [ms[0], ms[1]] && ms[..2][..1] == [ms[0]];
      Some(JObject(ms))
    else None
  }

  /** Until a non-empty reply arrives, the subtitles read "TESTING"; after
      any replies, that text is still at the bottom of the log. */
  lemma InitialSubtitles(replies: seq<string>)
    ensures (forall i :: 0 <= i < |replies| ==> replies[i] == "") ==> ShowAll(INITIAL_SUBTITLES, replies) == INITIAL_SUBTITLES
    ensures ShowAll(INITIAL_SUBTITLES, replies) == NewestFirst(replies) + INITIAL_SUBTITLES
  {
    ShowAllPrepends(INITIAL_SUBTITLES, replies);
    NewestFirstEmpty(replies);
  }

  /** Only empty replies leave nothing in the reference log. */
  lemma {:induction false} NewestFirstEmpty(replies: seq<string>)
    ensures (forall i :: 0 <= i < |replies| ==> replies[i] == "") ==> NewestFirst(replies) == ""
    decreases |replies|
  {
    if |replies| > 0 {
      NewestFirstEmpty(replies[..|replies| - 1]);
    }
  }

  /** An opaque reference to a browser resource. */
  type Handle = nat

  /** The component's resource handles (`null` is `None`) and its status text. */
  datatype Session = Session(
    status: string,
    socket: Option<Handle>,
    audioContext: Option<Handle>,
    mediaStream: Option<Handle>,
    workletNode: Option<Handle>)

  /** One release call made on a held resource. */
  datatype Release =
    | ClosePort(node: Handle)
    | DisconnectNode(node: Handle)
    | StopTracks(stream: Handle)
    | CloseContext(context: Handle)
    | CloseSocket(socket: Handle)

  const STATUS_CONNECTED: string := "Microphone connected"
  const STATUS_FAILED: string := "Failed to connect microphone"
  const STATUS_DISCONNECTED: string := "Microphone disconnected"

  /** Every resource handle is released. */
  predicate Released(s: Session) {
    s.socket.None? && s.audioContext.None? && s.mediaStream.None? && s.workletNode.None?
  }

  /** `handleStopMic`: release each resource that is held (the worklet node's
      port and connection, the stream's tracks, the audio context, the socket),
      clear its handle, and report the microphone as disconnected. */
  function StopMic(s: Session): (r: (Session, seq<Release>))
    ensures Released(r.0) && r.0.status == STATUS_DISCONNECTED
    ensures s.workletNode.Some? ==> ClosePort(s.workletNode.value) in r.1 && DisconnectNode(s.workletNode.value) in r.1
    ensures s.mediaStream.Some? ==> StopTracks(s.mediaStream.value) in r.1
    ensures s.audioContext.Some? ==> CloseContext(s.audioContext.value) in r.1
    ensures s.socket.Some? ==> CloseSocket(s.socket.value) in r.1
    ensures forall e :: e in r.1 ==>
              || (e.ClosePort? && s.workletNode == Some(e.node))
              || (e.DisconnectNode? && s.workletNode == Some(e.node))
              || (e.StopTracks? && s.mediaStream == Some(e.stream))
              || (e.CloseContext? && s.audioContext == Some(e.context))
              || (e.CloseSocket? && s.socket == Some(e.socket))
    ensures Released(s) <==> r.1 == []
  {
    var worklet := match s.workletNode case Some(w) => [ClosePort(w), DisconnectNode(w)] case None => [];
    var stream := match s.mediaStream case Some(m) => [StopTracks(m)] case None => [];
    var context := match s.audioContext case Some(a) => [CloseContext(a)] case None => [];
    var socket := match s.socket case Some(k) => [CloseSocket(k)] case None => [];
    (Session(STATUS_DISCONNECTED, None, None, None, None), worklet + stream + context + socket)
  }

  /** `handleStopMic` is idempotent: a second call releases nothing and leaves
      the state as the first call left it. */
  lemma StopMicIdempotent(s: Session)
    ensures StopMic(StopMic(s).0) == (StopMic(s).0, [])
  {
  }
}

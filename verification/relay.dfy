/** The WebSocket relay: for each inbound message it parses JSON, posts the
    `data` field to the backend, forwards the backend's text and always sends
    an acknowledgement. Messages are handled one at a time. */
module Relay {
  import opened Wrappers
  import opened Json

  /** The acknowledgement sent after every inbound message. */
  const ACK: string := "Message back from server completed."

  const BACKEND_URL: string := "http://localhost:5000/process_audio"
  const OCTET_STREAM: string := "application/octet-stream"

  /** The HTTP POST made to the backend: URL, body (the parsed `data` field,
      `None` when it is undefined) and headers. */
  datatype PostRequest = PostRequest(url: string, body: Option<Json>, headers: map<string, string>)

  /** How the POST ended: the `text` field of the backend's JSON reply, or a
      failure (refused connection, error status). */
  datatype BackendOutcome = Responded(text: string) | Failed

  /** What handling one message did: the backend request it made, if any,
      and the text frames it sent back, in order. */
  datatype Handled = Handled(request: Option<PostRequest>, sent: seq<string>)

  /** The request built from a parsed message: only `data` is carried, with
      a fixed binary content type; `lang_to` and `lang_from` are dropped. */
  function BackendRequest(message: Json): (req: PostRequest)
    ensures req.url == BACKEND_URL
    ensures req.body == Member(message, "data")
    ensures req.headers.Keys == {"Content-Type"} && req.headers["Content-Type"] == OCTET_STREAM
  {
    PostRequest(BACKEND_URL, Member(message, "data"), map["Content-Type" := OCTET_STREAM])
  }

  /** Whether line 15's log statement throws: it puts `lang_to` and then
      `lang_from` into a template literal, and a missing field reads as the
      string "undefined". */
  predicate LogThrows(message: Json)
    ensures LogThrows(message) ==> message.JObject?
  {
    || (Member(message, "lang_to").Some? && ToStringThrows(Member(message, "lang_to").value))
    || (Member(message, "lang_from").Some? && ToStringThrows(Member(message, "lang_from").value))
  }

  /** The `message` handler. `parsed` is the outcome of `JSON.parse` (`None`
      when it throws); destructuring `null` throws as well, and so does the
      log line when a language field cannot be made a string. Any throw skips
      the backend call; the acknowledgement is sent in every case, last. */
  function HandleMessage(parsed: Option<Json>, post: PostRequest -> BackendOutcome): (h: Handled)
    ensures 1 <= |h.sent| <= 2 && h.sent[|h.sent| - 1] == ACK
    ensures h.request.None? <==> (parsed.None? || parsed == Some(JNull) || LogThrows(parsed.value))
    ensures h.request.None? ==> h.sent == [ACK]
    ensures h.request.Some? ==> h.request.value == BackendRequest(parsed.value)
    ensures h.request.Some? && post(h.request.value).Failed? ==> h.sent == [ACK]
    ensures h.request.Some? && post(h.request.value).Responded? ==> h.sent == [post(h.request.value).text, ACK]
  {
    match parsed
    case None => Handled(None, [ACK])
    case Some(JNull) => Handled(None, [ACK])
    case Some(message) =>
      if LogThrows(message) then Handled(None, [ACK])
      else
        var req := BackendRequest(message);
        match post(req)
        case Responded(text) => Handled(Some(req), [text, ACK])
        case Failed => Handled(Some(req), [ACK])
  }

  /** The language fields never reach the backend: two messages with the
      same `data` whose language fields can both be logged are handled
      identically, whatever languages they name. */
  lemma LanguageFieldsIgnored(m1: Json, m2: Json, post: PostRequest -> BackendOutcome)
    requires m1 != JNull && m2 != JNull
    requires !LogThrows(m1) && !LogThrows(m2)
    requires Member(m1, "data") == Member(m2, "data")
    ensures HandleMessage(Some(m1), post) == HandleMessage(Some(m2), post)
  {
  }

  /** A language field whose string conversion throws, such as an object with
      its own `"toString"` member, cancels the backend call whatever the
      message's `data`: only the acknowledgement goes back. */
  lemma UnprintableLanguageSkipsBackend(data: Json, ms: seq<(string, Json)>, v: Json,
                                        post: PostRequest -> BackendOutcome)
    ensures var message := JObject([("data", data), ("lang_to", JObject(ms + [("toString", v)]))]);
            HandleMessage(Some(message), post) == Handled(None, [ACK])
  {
    var message := JObject([("data", data), ("lang_to", JObject(ms + [("toString", v)]))]);
    assert Lookup(message.members, "lang_to") == Some(JObject(ms + [("toString", v)]));
    assert Lookup(ms + [("toString", v)], "toString") == Some(v);
  }
}

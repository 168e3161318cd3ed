/**
 * The text relay, `POST /api/chat`: validates the body, opens a chat with the provider,
 * sends the last history entry as a streamed request and answers with an event stream
 * of its chunks. The handler has no `try`, so every exception it meets is left to the
 * framework.
 */
module ChatRoute {
  import opened Wrappers
  import opened Js
  import opened Conversation
  import opened Upstream
  import opened Http

  const MissingFields: string := "Model e mensagens obrigatórias"

  /** What reading `.content` of the `undefined` last entry of an empty history throws. */
  const NoLastEntry: string := "Cannot read properties of undefined (reading 'content')"

  const EventStreamHeaders: map<string, string> :=
    map["Content-Type" := "text/event-stream", "Cache-Control" := "no-cache", "Connection" := "keep-alive"]

  /**
   * `streamGeminiChat`: the chunk source the response stream is built from, or the error
   * it throws, with the provider calls it makes. The message sent is the content of the
   * last history entry, whatever its role and even when it is empty.
   */
  function StreamGeminiChat(model: Value, messages: seq<Message>, gemini: (ChatSession, string) -> StreamReply)
    : (r: (Result<ChunkSource>, seq<Call>))
    ensures History(messages) == [] ==> r == (Failure(NoLastEntry), [])
    ensures History(messages) != [] ==>
              var h := History(messages);
              var call := SendMessageStream(NewChat(model, messages), h[|h| - 1].content);
              r.1 == [call] &&
              match gemini(call.session, call.message)
              case StreamRejected(e) => r.0 == Failure(e)
              case Streaming(source) => r.0 == Success(source)
  {
    var history := History(messages);
    var chat := NewChat(model, messages);
    if history == [] then (Failure(NoLastEntry), [])
    else
      var lastUser := history[|history| - 1];
      var calls := [SendMessageStream(chat, lastUser.content)];
      match gemini(chat, lastUser.content)
      case StreamRejected(e) => (Failure(e), calls)
      case Streaming(source) => (Success(source), calls)
  }

  /** `POST`: the response, or the exception that escapes the handler. */
  function Post(body: RequestBody, gemini: (ChatSession, string) -> StreamReply): (x: Exchange)
    // a body that is not JSON makes `request.json()` throw before anything else
    ensures body.Unparsable? ==> x == Exchange(Unhandled(body.error), [])
    // a falsy model or a non-array messages field: 400 and no upstream call
    ensures body.Body? && Rejects(body.model, body.messages) ==>
              x == Exchange(Responded(Response(400, map[], ErrorJson(MissingFields))), [])
    // otherwise exactly the calls of streamGeminiChat are made
    ensures body.Body? && !Rejects(body.model, body.messages) ==>
              x.calls == StreamGeminiChat(body.model, body.messages.items, gemini).1
    // a failing streamGeminiChat escapes; a chunk source is answered with 200 and the event stream
    ensures body.Body? && !Rejects(body.model, body.messages) ==>
              var g := StreamGeminiChat(body.model, body.messages.items, gemini).0;
              (g.Failure? ==> x.outcome == Unhandled(g.error)) &&
              (g.Success? ==> x.outcome == Responded(Response(200, EventStreamHeaders, EventStream(g.value))))
    // success: 200, the event-stream headers, and a body streaming the provider's chunks
    ensures x.outcome.Responded? && x.outcome.response.status != 400 ==>
              body.Body? && x.outcome.response.status == 200 &&
              x.outcome.response.headers == EventStreamHeaders &&
              x.outcome.response.payload.EventStream? &&
              StreamGeminiChat(body.model, body.messages.items, gemini).0 ==
                Success(x.outcome.response.payload.source)
  {
    match body
    case Unparsable(e) => Exchange(Unhandled(e), [])
    case Body(model, messages) =>
      if Rejects(model, messages) then Exchange(Responded(Response(400, map[], ErrorJson(MissingFields))), [])
      else
        var (stream, calls) := StreamGeminiChat(model, messages.items, gemini);
        match stream
        case Failure(e) => Exchange(Unhandled(e), calls)
        case Success(source) => Exchange(Responded(Response(200, EventStreamHeaders, EventStream(source))), calls)
  }
}

/**
 * The voice relay, `POST /api/chat2`: one non-streamed completion, whose text is sent to
 * the speech server; the audio is streamed back. Unlike the text relay, every failure
 * after the request arrives is caught and answered with a 500.
 */
module SpeechRoute {
  import opened Wrappers
  import opened Js
  import opened Conversation
  import opened Upstream
  import opened Http

  const MissingFields: string := "Campos 'model' e 'messages' são obrigatórios."
  const EmptyLastMessage: string := "Última mensagem do usuário está vazia."
  const InvalidReply: string := "Texto gerado pelo Gemini está vazio ou inválido."
  const InternalError: string := "Erro interno"

  const AudioHeaders: map<string, string> := map["Content-Type" := "audio/wav"]

  /** `error?.message || "Erro interno"`: an empty message is replaced by the fallback. */
  function ErrorText(message: string): (r: string)
    ensures r != ""
    ensures message != "" ==> r == message
    ensures message == "" ==> r == InternalError
  {
    if message == "" then InternalError else message
  }

  /**
   * `gerarTextoComGemini`: the generated text, or the error it throws, with the provider
   * calls made. An empty history or an empty last entry fails before any call; a reply
   * whose text is absent, empty or not a string fails after it.
   */
  function GenerateText(model: Value, messages: seq<Message>, gemini: (ChatSession, string) -> TextReply)
    : (r: (Result<string>, seq<Call>))
    ensures r.0.Success? ==> r.0.value != ""
    ensures var h := History(messages);
            if h == [] || h[|h| - 1].content == "" then r == (Failure(EmptyLastMessage), [])
            else
              var call := SendMessage(NewChat(model, messages), h[|h| - 1].content);
              r.1 == [call] &&
              match gemini(call.session, call.message)
              case TextRejected(e) => r.0 == Failure(e)
              case Replied(Text(s)) => r.0 == if s == "" then Failure(InvalidReply) else Success(s)
              case Replied(_) => r.0 == Failure(InvalidReply)
  {
    var history := History(messages);
    var chat := NewChat(model, messages);
    if history == [] || history[|history| - 1].content == "" then (Failure(EmptyLastMessage), [])
    else
      var lastUser := history[|history| - 1];
      var calls := [SendMessage(chat, lastUser.content)];
      match gemini(chat, lastUser.content)
      case TextRejected(e) => (Failure(e), calls)
      case Replied(field) =>
        match field
        case Text(s) => if s == "" then (Failure(InvalidReply), calls) else (Success(s), calls)
        case _ => (Failure(InvalidReply), calls)
  }

  /**
   * `POST`, on a server whose speech host is configured (the module refuses to load
   * otherwise): the generated text is fetched as audio from `host`.
   */
  function Post(host: string, body: RequestBody, gemini: (ChatSession, string) -> TextReply,
                piper: (string, string) -> SpeechReply): (x: Exchange)
    requires host != ""
    // every failure is caught: the route always answers
    ensures x.outcome.Responded?
    ensures x.outcome.response.status in {200, 400, 500}
    ensures body.Unparsable? ==> x == Exchange(Responded(Response(500, map[], ErrorJson(ErrorText(body.error)))), [])
    ensures body.Body? && Rejects(body.model, body.messages) ==>
              x == Exchange(Responded(Response(400, map[], ErrorJson(MissingFields))), [])
    ensures body.Body? && !Rejects(body.model, body.messages) ==>
              var (text, asked) := GenerateText(body.model, body.messages.items, gemini);
              match text
              case Failure(e) => x == Exchange(Responded(Response(500, map[], ErrorJson(ErrorText(e)))), asked)
              case Success(t) =>
                x.calls == asked + [PiperGet(host, t)] &&
                match piper(host, t)
                case SpeechFailed(e) => x.outcome == Responded(Response(500, map[], ErrorJson(ErrorText(e))))
                case AudioStream(bytes) => x.outcome == Responded(Response(200, AudioHeaders, Audio(bytes)))
    // the speech server is only ever asked to read a non-empty generated text
    ensures forall c :: c in x.calls && c.PiperGet? ==> c.host == host && c.text != ""
  {
    match body
    case Unparsable(e) => Exchange(Responded(Response(500, map[], ErrorJson(ErrorText(e)))), [])
    case Body(model, messages) =>
      if Rejects(model, messages) then Exchange(Responded(Response(400, map[], ErrorJson(MissingFields))), [])
      else
        var (text, asked) := GenerateText(model, messages.items, gemini);
        match text
        case Failure(e) => Exchange(Responded(Response(500, map[], ErrorJson(ErrorText(e)))), asked)
        case Success(t) =>
          var calls := asked + [PiperGet(host, t)];
          match piper(host, t)
          case SpeechFailed(e) => Exchange(Responded(Response(500, map[], ErrorJson(ErrorText(e)))), calls)
          case AudioStream(bytes) => Exchange(Responded(Response(200, AudioHeaders, Audio(bytes))), calls)
  }

  /** A request whose last history entry is empty never reaches the speech server. */
  lemma EmptyLastTurnSkipsSpeech(host: string, model: Value, messages: seq<Message>,
                                 gemini: (ChatSession, string) -> TextReply, piper: (string, string) -> SpeechReply)
    requires host != "" && Truthy(model)
    requires History(messages) == [] || History(messages)[|History(messages)| - 1].content == ""
    ensures Post(host, Body(model, MessageArray(messages)), gemini, piper) ==
              Exchange(Responded(Response(500, map[], ErrorJson(EmptyLastMessage))), [])
  {
  }

  /**
   * A conversation whose last turn is not empty gets past the checks: the provider is asked
   * for a reply to that turn, and a usable reply is read aloud by the speech server next.
   */
  lemma LastTurnAnswered(host: string, model: Value, messages: seq<Message>,
                         gemini: (ChatSession, string) -> TextReply, piper: (string, string) -> SpeechReply)
    requires host != "" && Truthy(model)
    requires var h := History(messages); |h| >= 1 && h[|h| - 1].content != ""
    ensures var h := History(messages);
            var ask := SendMessage(NewChat(model, messages), h[|h| - 1].content);
            var x := Post(host, Body(model, MessageArray(messages)), gemini, piper);
            |x.calls| >= 1 && x.calls[0] == ask &&
            (gemini(ask.session, ask.message).Replied? && gemini(ask.session, ask.message).text.Text? &&
             gemini(ask.session, ask.message).text.s != "" ==>
               x.calls == [ask, PiperGet(host, gemini(ask.session, ask.message).text.s)])
  {
  }
}

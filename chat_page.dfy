/**
 * The chat screen's `sendMessage`: a non-blank input becomes a user turn (after the
 * persona message when the conversation has none), the conversation is posted to the
 * text relay, and the streamed reply is decoded into one assistant message.
 */
module ChatPage {
  import opened Wrappers
  import opened Js
  import opened Conversation
  import opened Upstream
  import opened Http
  import EventStream
  import StreamDecoder
  import ChatRoute

  const Persona: Message :=
    Message(System, "Você Seu nome é DatAI é a IA Data Matemática,  e professor de programação.")

  const DefaultModel: string := "gemini-2.0-flash"

  /** The choices of the model selector. */
  const ModelOptions: seq<string> := [
    "gemini-2.0-flash", "gemini-2.0-flash-lite", "gemini-1.5-flash", "gemini-1.5-flash-8b",
    "gemini-1.5-pro", "gemini-2.0-pro", "gemini-1.0"
  ]

  /**
   * What the page posts is accepted by the text relay: the only provider call made sends the
   * typed input, and when the provider streams, the answer is a 200 event stream.
   */
  lemma RequestAccepted(model: string, messages: seq<Message>, input: string,
                        gemini: (ChatSession, string) -> StreamReply)
    requires model != "" && !IsBlank(input)
    ensures var h := WithUserTurn(Persona, messages, input);
            var x := ChatRoute.Post(Body(Str(model), MessageArray(h)), gemini);
            x.calls == [SendMessageStream(NewChat(Str(model), h), input)] &&
            (gemini(NewChat(Str(model), h), input).Streaming? ==>
               x.outcome == Responded(Response(200, ChatRoute.EventStreamHeaders,
                                               EventStream(gemini(NewChat(Str(model), h), input).source))))
  {
    LastTurnSent(Persona, messages, input);
  }

  /**
   * End to end: when the provider streams `chunks` without failing, the relay's event stream,
   * cut into reads anywhere, is decoded by the page into exactly the chunk texts in order.
   */
  lemma ReplyIsChunkText(model: string, messages: seq<Message>, input: string,
                         gemini: (ChatSession, string) -> StreamReply, chunks: seq<string>, received: seq<string>)
    requires model != "" && !IsBlank(input)
    requires var h := WithUserTurn(Persona, messages, input);
             gemini(NewChat(Str(model), h), input) == Streaming(ChunkSource(chunks, None))
    requires Concat(received) == EventStream.StreamText(chunks)
    ensures ChatRoute.Post(Body(Str(model), MessageArray(WithUserTurn(Persona, messages, input))), gemini).outcome ==
              Responded(Response(200, ChatRoute.EventStreamHeaders, EventStream(ChunkSource(chunks, None))))
    ensures StreamDecoder.Decoded(Concat(received)) == Concat(chunks)
  {
    RequestAccepted(model, messages, input, gemini);
    StreamDecoder.RoundTrip(chunks, received);
  }

  /** Appending a reply that is not a system message keeps the conversation's shape. */
  lemma ReplyKeepsShape(ms: seq<Message>, reply: Message)
    requires SystemFirstOnly(ms) && reply.role != System
    ensures SystemFirstOnly(ms + [reply])
  {
    assert forall i :: 1 <= i < |ms| ==> (ms + [reply])[i] == ms[i];
  }

  /** The screen's state: the conversation shown, the input box and the selected model. */
  class ChatScreen {
    var messages: seq<Message>
    var input: string
    var selectedModel: string
    var loading: bool

    /** The conversation is empty or starts with its only system message; the model is one on offer. */
    predicate Valid()
      reads this
    {
      (messages == [] || SystemFirstOnly(messages)) && selectedModel in ModelOptions && !loading
    }

    constructor()
      ensures messages == [] && input == "" && selectedModel == DefaultModel && !loading
      ensures Valid()
    {
      messages, input, selectedModel, loading := [], "", DefaultModel, false;
    }

    /** The input box's `onChange`. */
    method Type(text: string)
      requires Valid()
      modifies this
      ensures Valid()
      ensures input == text
      ensures messages == old(messages) && selectedModel == old(selectedModel) && loading == old(loading)
    {
      input := text;
    }

    /** The model selector's `onChange`. */
    method SelectModel(model: string)
      requires Valid() && model in ModelOptions
      modifies this
      ensures Valid()
      ensures selectedModel == model
      ensures messages == old(messages) && input == old(input) && loading == old(loading)
    {
      selectedModel := model;
    }

    /** "Novo Chat": the conversation is emptied. */
    method ClearChat()
      requires Valid()
      modifies this
      ensures Valid()
      ensures messages == []
      ensures input == old(input) && selectedModel == old(selectedModel) && loading == old(loading)
    {
      messages := [];
    }

    /**
     * `sendMessage`. `reply` is what the response body yields, read by read, or `None` when
     * the request fails or has no body (the page then only shows an error notice). The
     * result is the request body posted, if any.
     */
    method SendMessage(reply: Option<seq<string>>) returns (request: Option<RequestBody>)
      requires Valid()
      modifies this
      ensures Valid() && selectedModel == old(selectedModel)
      ensures IsBlank(old(input)) ==> request == None && messages == old(messages) && input == old(input)
      ensures !IsBlank(old(input)) ==>
                var h := WithUserTurn(Persona, old(messages), old(input));
                request == Some(Body(Str(selectedModel), MessageArray(h))) && input == "" &&
                messages == match reply
                            case None => h
                            case Some(received) => h + [Message(Assistant, StreamDecoder.Decoded(Concat(received)))]
    {
      if IsBlank(input) {
        return None;
      }
      var newHistory := WithUserTurn(Persona, messages, input);
      WithUserTurnShape(Persona, messages, input);
      request := Some(Body(Str(selectedModel), MessageArray(newHistory)));
      messages, input, loading := newHistory, "", true;
      if reply.Some? {
        var index := |newHistory|;
        messages := messages + [Message(Assistant, "")];
        var content, _ := StreamDecoder.DecodeStream(reply.value);
        messages := messages[index := Message(Assistant, content)];
        assert messages == newHistory + [Message(Assistant, content)];
        ReplyKeepsShape(newHistory, Message(Assistant, content));
      }
      loading := false;
    }
  }
}

/**
 * The completion provider (Gemini) and the speech-synthesis server (Piper), seen from the
 * relay: what is sent to them, and the replies they may give. The services themselves are
 * not modelled; each route takes them as function parameters and records every call it
 * makes in a trace.
 */
module Upstream {
  import opened Wrappers
  import opened Js
  import opened Conversation

  /** `{ role, parts: [{ text }] }`, the provider's turn format. */
  datatype Content = Content(role: string, parts: seq<string>)

  datatype GenerationConfig = GenerationConfig(systemInstruction: Option<string>, temperature: real, maxOutputTokens: nat)

  /** The argument of `ai.chats.create`. */
  datatype ChatSession = ChatSession(model: Value, history: seq<Content>, config: GenerationConfig)

  const Temperature: real := 0.1
  const MaxOutputTokens: nat := 1024

  function ToContent(m: Message): Content {
    Content(m.role, [m.content])
  }

  /**
   * The chat both relay routes open: the turn history in the provider's format, the first
   * system message as instruction, and the fixed generation settings.
   */
  function NewChat(model: Value, messages: seq<Message>): (c: ChatSession)
    ensures c.model == model
    ensures |c.history| == |History(messages)|
    ensures forall i :: 0 <= i < |c.history| ==>
              c.history[i].role == History(messages)[i].role && c.history[i].parts == [History(messages)[i].content]
    ensures c.config == GenerationConfig(SystemInstruction(messages), 0.1, 1024)
  {
    var h := History(messages);
    ChatSession(model, seq(|h|, i requires 0 <= i < |h| => ToContent(h[i])),
                GenerationConfig(SystemInstruction(messages), Temperature, MaxOutputTokens))
  }

  /** The chunk texts of a streamed generation in arrival order, and the error raised after them, if any. */
  datatype ChunkSource = ChunkSource(chunks: seq<string>, failure: Option<string>)

  /** Outcome of `chat.sendMessageStream`: rejected, or a stream of chunks. */
  datatype StreamReply = StreamRejected(error: string) | Streaming(source: ChunkSource)

  /** `result?.text` as JavaScript sees it: absent, a string, or some other value. */
  datatype TextField = Missing | Text(s: string) | NotAString

  /** Outcome of `chat.sendMessage`. */
  datatype TextReply = TextRejected(error: string) | Replied(text: TextField)

  /** Outcome of the Piper request: an error (network or HTTP status), or the audio bytes. */
  datatype SpeechReply = SpeechFailed(error: string) | AudioStream(bytes: seq<bv8>)

  /** One outbound network call. */
  datatype Call =
    | SendMessageStream(session: ChatSession, message: string)
    | SendMessage(session: ChatSession, message: string)
    | PiperGet(host: string, text: string)
}

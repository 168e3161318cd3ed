/**
 * The voice screen: speech recognition feeds transcripts, each non-blank transcript becomes
 * a user turn (after the Jarbas persona message when none is present) posted to the voice
 * relay, and a microphone button toggles recognition on and off.
 */
module VoicePage {
  import opened Wrappers
  import opened Js
  import opened Conversation
  import opened Upstream
  import opened Http
  import SpeechRoute

  const DefaultModel: string := "deepseek-v2"

  /** The persona message, a template literal keeping its line breaks and indentation. */
  const Persona: Message := Message(System,
    "\n" +
    "      Quado tiver codigo de programação ou de bliblioteca vc substitui pela frase You can use this code to restore your conversation.\n" +
    "      Todos os Usuários se Ze da manga, você deve chamá-lo de ze da manga.\n" +
    "      Você é Jarbas, um assistente criado por Mateus Santos, programador full stack, o brado da programação. \n" +
    "      Sua função é oferecer suporte sem restrições, respondendo de forma clara,\n" +
    "      objetiva e útil a qualquer solicitação do usuário. Você deve manter o contexto\n" +
    "      da conversa e garantir que as interações sejam fluidas e naturais. \n" +
    "      O usuário pode utilizar o chat livremente, sem limites de mensagens ou tópicos.\n" +
    "      Esse é um prompt inicial para você responder os usuários.\n" +
    "      quado tiver codigo de programação ou de bliblioteca vc substitui pela frase You can use this code to restore your conversation.\n" +
    "      ")

  /** The `query` URL parameter, when present and non-empty, names the model. */
  function ModelFromQuery(query: Option<string>): (model: string)
    ensures model != ""
    ensures query.Some? && query.value != "" ==> model == query.value
    ensures query.None? || query.value == "" ==> model == DefaultModel
  {
    match query
    case Some(m) => if m != "" then m else DefaultModel
    case None => DefaultModel
  }

  /**
   * `event.results[event.results.length - 1][0].transcript`: the first alternative of the
   * latest result; `None` where that indexing would throw.
   */
  function SelectTranscript(results: seq<seq<string>>): (r: Option<string>)
    ensures r.Some? <==> |results| >= 1 && |results[|results| - 1]| >= 1
    ensures r.Some? ==> r.value == results[|results| - 1][0]
  {
    if |results| >= 1 && |results[|results| - 1]| >= 1 then Some(results[|results| - 1][0]) else None
  }

  /** A conversation shaped by earlier sends keeps its shape. */
  lemma NewHistoryShape(messages: seq<Message>, transcript: string)
    requires messages == [] || SystemFirstOnly(messages)
    requires !IsBlank(transcript)
    ensures SystemFirstOnly(NewHistory(Persona, messages, transcript).value)
  {
    WithUserTurnShape(Persona, messages, transcript);
  }

  /** The history the relay derives from a posted conversation ends with the transcript, which is not empty. */
  lemma SentTurn(messages: seq<Message>, transcript: string)
    requires !IsBlank(transcript)
    ensures var hs := History(NewHistory(Persona, messages, transcript).value);
            |hs| >= 1 && hs[|hs| - 1] == Message(User, transcript) && transcript != ""
  {
    LastTurnSent(Persona, messages, transcript);
  }

  /**
   * What the screen posts gets past the voice relay's checks: the provider is asked for a
   * reply to the transcript, and a usable reply is read aloud by the speech server.
   */
  lemma TranscriptSent(model: string, messages: seq<Message>, transcript: string, h: seq<Message>, host: string,
                       gemini: (ChatSession, string) -> TextReply, piper: (string, string) -> SpeechReply)
    requires model != "" && host != ""
    requires NewHistory(Persona, messages, transcript) == Some(h)
    ensures var ask := SendMessage(NewChat(Str(model), h), transcript);
            var x := SpeechRoute.Post(host, Body(Str(model), MessageArray(h)), gemini, piper);
            |x.calls| >= 1 && x.calls[0] == ask &&
            (gemini(ask.session, ask.message).Replied? && gemini(ask.session, ask.message).text.Text? &&
             gemini(ask.session, ask.message).text.s != "" ==>
               x.calls == [ask, PiperGet(host, gemini(ask.session, ask.message).text.s)])
  {
    SentTurn(messages, transcript);
    SpeechRoute.LastTurnAnswered(host, Str(model), h, gemini, piper);
  }

  datatype Command = Start | Stop

  /** The browser's recognizer, seen through the commands it receives. */
  class Recognizer {
    var commands: seq<Command>

    constructor()
      ensures commands == []
    {
      commands := [];
    }

    method Start()
      modifies this
      ensures commands == old(commands) + [Command.Start]
    {
      commands := commands + [Command.Start];
    }

    method Stop()
      modifies this
      ensures commands == old(commands) + [Command.Stop]
    {
      commands := commands + [Command.Stop];
    }
  }

  /** The screen's state: the recognizer (absent where the browser has none), the listening flag, the conversation and the model. */
  class VoiceScreen {
    var recognizer: Recognizer?
    var isListening: bool
    var messages: seq<Message>
    var model: string

    /**
     * Listening needs a recognizer, and the last command it was given is `start`; the
     * conversation is empty or starts with its only system message.
     */
    predicate Valid()
      reads this, recognizer
    {
      (messages == [] || SystemFirstOnly(messages)) &&
      (recognizer == null ==> !isListening) &&
      (isListening ==> |recognizer.commands| >= 1 && recognizer.commands[|recognizer.commands| - 1] == Command.Start)
    }

    /**
     * The two mount effects: the model is taken from the query parameter, and where the
     * browser supports recognition a recognizer is created and started at once.
     */
    constructor(supported: bool, query: Option<string>)
      ensures model == ModelFromQuery(query) && messages == []
      ensures supported ==> recognizer != null && fresh(recognizer) && recognizer.commands == [Command.Start] && isListening
      ensures !supported ==> recognizer == null && !isListening
      ensures Valid()
    {
      model := ModelFromQuery(query);
      messages := [];
      if supported {
        var r := new Recognizer();
        r.Start();
        recognizer := r;
        isListening := true;
      } else {
        recognizer := null;
        isListening := false;
      }
    }

    /** `toggleListening`: stop when listening, start otherwise; nothing without a recognizer. */
    method ToggleListening()
      requires Valid()
      modifies this, recognizer
      ensures Valid()
      ensures recognizer == old(recognizer) && messages == old(messages) && model == old(model)
      ensures recognizer == null ==> isListening == old(isListening)
      ensures recognizer != null && old(isListening) ==>
                !isListening && recognizer.commands == old(recognizer.commands) + [Command.Stop]
      ensures recognizer != null && !old(isListening) ==>
                isListening && recognizer.commands == old(recognizer.commands) + [Command.Start]
    {
      if recognizer != null {
        if isListening {
          recognizer.Stop();
          isListening := false;
        } else {
          recognizer.Start();
          isListening := true;
        }
      }
    }

    /** `onerror`: listening stops; the recognizer receives no command. */
    method OnError()
      requires Valid()
      modifies this
      ensures Valid()
      ensures !isListening
      ensures recognizer == old(recognizer) && messages == old(messages) && model == old(model)
    {
      isListening := false;
    }

    /**
     * `onresult` and `sendMessage`: the latest transcript, when not blank, extends the
     * conversation, which is posted to the voice relay; the result is the request body posted.
     */
    method OnResult(results: seq<seq<string>>) returns (request: Option<RequestBody>)
      requires Valid()
      modifies this
      ensures Valid()
      ensures recognizer == old(recognizer) && isListening == old(isListening) && model == old(model)
      ensures match SelectTranscript(results)
              case None => request == None && messages == old(messages)
              case Some(t) =>
                match NewHistory(Persona, old(messages), t)
                case None => request == None && messages == old(messages)
                case Some(h) => messages == h && request == Some(Body(Str(model), MessageArray(h)))
    {
      var transcript := SelectTranscript(results);
      if transcript.None? {
        return None;
      }
      var updated := NewHistory(Persona, messages, transcript.value);
      if updated.None? {
        return None;
      }
      NewHistoryShape(messages, transcript.value);
      messages := updated.value;
      request := Some(Body(Str(model), MessageArray(updated.value)));
    }
  }
}

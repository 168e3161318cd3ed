# DatAI relay and chat clients, modelled in Dafny

DatAI is a Next.js application that relays a chat conversation to a completion provider
(Gemini) and returns the answer either as a text event stream (`POST /api/chat`) or, after
a non-streamed completion, as speech synthesised by a Piper server (`POST /api/chat2`).
Two browser screens use these routes: the chat screen builds the conversation, posts it and
decodes the event stream line by line; the voice screen turns speech-recognition
transcripts into user turns. A small helper computes CORS headers.

This project models that core and proves its properties:

- `Conversation`: messages, the split of a conversation into system instruction and turn
  history, and the client-side "add persona if missing, then the user turn" rule.
- `Upstream`, `Http`: the provider and speech server as function parameters, the chat
  session handed to the provider, request bodies, responses, and a trace of outbound calls.
- `JsonString`: `JSON.stringify` of a string (ECMA-262's `QuoteJSONString`, string escapes of
  section 7 of RFC 8259) and the string reader of `JSON.parse`, with their round trip.
- `EventStream`: the `data: …\n\n` frame of each chunk (the `data:` field of the
  server-sent events format, section 9.2 of the WHATWG HTML Living Standard) and the
  `start` loop that enqueues frames into the response stream's controller.
- `ChatRoute`, `SpeechRoute`: the two `POST` handlers and the shared health check.
- `StreamDecoder`: the chat screen's read loop with its carry buffer, and the round trip
  "decoded text = chunk texts concatenated, however the stream is cut into reads".
- `CodeFence`: the split of a message on ```` ``` ```` fences used for rendering, following
  the regular-expression split method of ECMA-262.
- `ChatPage`, `VoicePage`: the two screens' state (as classes) and what they send.
- `Cors`: the header decision for cross-origin requests.
- `Js`, `Wrappers`: JavaScript truthiness, whitespace, `split("\n")`, and `Option`/`Result`.

The model follows the code as written. Points worth knowing:

- The text relay has no `try`: a body that is not JSON, an empty turn history (reading
  `.content` of `undefined`) and a rejected provider call all escape the handler
  (`Outcome.Unhandled`) instead of being answered with a 500 JSON error.
- Neither relay requires the last turn to be a user turn: it may have role `model`. The text
  relay sends it even when its content is empty; only the voice relay refuses that.
- Validation is JavaScript truthiness of `model`: any truthy value passes, whatever its type.
- The voice relay's error for an empty last turn is "Última mensagem do usuário está vazia.".
- A provider stream that fails part-way leaves the response stream errored (the exception
  escapes `start`); no closing frame is written.
- `handleCors` answers a preflight with 204, although the comment beside it says 200.

## Model

| member | source | states |
|---|---|---|
| Conversation.SystemInstruction | app/api/chat/route.ts:11 | none exactly when no message has role `system`; otherwise the content of the first one |
| Conversation.History | app/api/chat/route.ts:12 | a message is in the history iff it is in the conversation with role `user` or `model`; never longer than the input |
| Conversation.HistoryAppend | app/api/chat/route.ts:12 | the filter commutes with concatenation, so relative order is kept |
| Conversation.HistorySingle | app/api/chat/route.ts:12 | a single message is kept iff it is a turn |
| Conversation.SystemCountAppend | app/page.tsx:30-31 | system messages of a concatenation add up |
| Conversation.HasSystem | app/page.tsx:30 | `messages.some(m => m.role === "system")`; SystemCountZero ties it to the number of system messages |
| Conversation.SystemCountZero | app/page.tsx:30 | no system message is counted iff `some(role === "system")` is false |
| Conversation.WithUserTurn | app/page.tsx:30-31 | the last element is the user turn; with a system message present the old messages come before it unchanged, otherwise the persona, then the old messages in order |
| Conversation.LastTurnSent | app/page.tsx:29-31 | the turn history of such a conversation ends with the new user turn |
| Conversation.SystemNotDuplicated | app/page.tsx:30-31 | adding a turn makes one system message out of none and never adds a second |
| Conversation.WithUserTurnShape | app/page.tsx:30-31 | from an empty conversation, or one starting with its only system message, the result again starts with its only system message |
| Upstream.NewChat | app/api/chat/route.ts:14-18 | the session carries the model, the turn history in order as `{role, parts: [content]}`, the first system content as instruction, temperature 0.1 and at most 1024 output tokens |
| Http.Rejects | app/api/chat/route.ts:40 | the guard on a falsy `model` or a `messages` that is not an array, shared with app/api/chat2/route.ts:62; ChatRoute.Post and SpeechRoute.Post answer it with 400 and no call |
| Http.Health | app/api/chat2/route.ts:102-104 | 200 with `{status: "ok", message: "API está saudável"}`, as in app/api/chat/route.ts:51-53 |
| JsonString.HexValue | app/api/chat/route.ts:28 | a hexadecimal digit's value is below 16 |
| JsonString.HexRoundTrip | app/api/chat/route.ts:28 | the lower-case digit written for a value reads back as that value |
| JsonString.EscapeChar | app/api/chat/route.ts:28 | an escaped character is never empty, contains no control character and does not start with a quote |
| JsonString.EscapeAllNoControl | app/api/chat/route.ts:28 | an escaped string contains no control character |
| JsonString.QuoteHasNoNewline | app/api/chat/route.ts:28 | a quoted string contains no raw line feed |
| JsonString.Unescape | app/page.tsx:66 | an escape sequence read consumes at least one and at most all remaining characters |
| JsonString.ParseBody | app/page.tsx:66 | reading a string body leaves a strictly shorter rest |
| JsonString.ParseString | app/page.tsx:66 | reading a string literal leaves a strictly shorter rest |
| JsonString.ParseEscapedChar | app/page.tsx:66 | the reader turns one escaped character back into that character |
| JsonString.ParseEscapeAll | app/page.tsx:66 | the reader turns an escaped string and its closing quote back into the string, leaving what follows |
| JsonString.Quote | app/api/chat/route.ts:28 | `JSON.stringify` of a string is enclosed in quotation marks and holds no control character; ParseQuote reads it back |
| JsonString.ParseQuote | app/page.tsx:66 | reading `JSON.stringify(s)` followed by anything gives back `s` and exactly what followed |
| JsonString.MessageJsonRoundTrip | app/page.tsx:66-67 | parsing `{"message":{"content":…}}` made by the relay gives back the chunk text |
| JsonString.MessageJson | app/api/chat/route.ts:28 | `JSON.stringify({ message: { content } })`; MessageJsonStart, MessageJsonNoNewline and MessageJsonRoundTrip characterise it |
| JsonString.ParseMessageJson | app/page.tsx:66 | `JSON.parse(payload).message.content` for the relay's payload shape; MessageJsonRoundTrip reads every payload back to its text |
| JsonString.MessageJsonStart | app/api/chat/route.ts:28 | the payload starts with `{`, so no whitespace follows `data: ` |
| JsonString.MessageJsonNoNewline | app/api/chat/route.ts:28 | the payload contains no line feed |
| EventStream.EventLine | app/api/chat/route.ts:28 | `data: ` followed by the JSON payload; EventLineContent decodes it back to the chunk text |
| EventStream.Frame | app/api/chat/route.ts:28 | the event line followed by a blank line; FrameShape characterises it |
| EventStream.FrameShape | app/api/chat/route.ts:28 | a frame is its `data:` line plus two line feeds, the line has no line feed, and the frame's only line feeds are its last two characters |
| EventStream.Frames | app/api/chat/route.ts:27-28 | one frame per chunk, in chunk order, each `data: ` + payload + `\n\n` |
| EventStream.FramesAppend | app/api/chat/route.ts:27-28 | a further chunk adds exactly its frame at the end |
| EventStream.StreamController.constructor | app/api/chat/route.ts:25 | a new response stream is empty and readable |
| EventStream.StreamController.Enqueue | app/api/chat/route.ts:28 | the chunk is added at the end of the queue; the stream stays readable |
| EventStream.StreamController.Close | app/api/chat/route.ts:30 | the stream is closed and its queue unchanged |
| EventStream.StreamController.Error | app/api/chat/route.ts:27 | the stream is errored with the reason, and the record of what was enqueued stays as it was (frames not yet read are not modelled as dropped) |
| EventStream.Start | app/api/chat/route.ts:26-31 | the queue gains exactly the frames of the chunks in arrival order; the stream is closed after the last one, or errored with the provider's failure |
| ChatRoute.StreamGeminiChat | app/api/chat/route.ts:10-35 | an empty history fails with no call; otherwise one streamed call sends the content of the last history entry on the session of `NewChat`, and its rejection or chunk source is passed on |
| ChatRoute.Post | app/api/chat/route.ts:38-49 | bad JSON escapes with no call; a falsy model or non-array messages gets 400 with the error and no call; otherwise the calls are those of `streamGeminiChat`, a failure there escapes with its error, and a chunk source is answered with 200, the event-stream headers and a body streaming that source; no other response is possible |
| SpeechRoute.ErrorText | app/api/chat2/route.ts:96 | the error text is never empty: the message itself, or "Erro interno" for an empty one |
| SpeechRoute.GenerateText | app/api/chat2/route.ts:18-55 | an empty history or empty last entry fails before any call; otherwise one call sends the last entry's content; a rejection passes its error on; a reply that is missing, empty or not a string fails; a generated text is never empty |
| SpeechRoute.Post | app/api/chat2/route.ts:57-100 | always answers, with 200, 400 or 500; 400 for bad fields with no call; every later failure is 500 with its message or "Erro interno"; a generated text is sent unchanged to the speech host and its audio returned with `audio/wav`; the speech server is only asked for non-empty text |
| SpeechRoute.EmptyLastTurnSkipsSpeech | app/api/chat2/route.ts:39-42 | an empty last turn gives 500 "Última mensagem do usuário está vazia." with no call at all |
| SpeechRoute.LastTurnAnswered | app/api/chat2/route.ts:39-85 | with a non-empty last turn the first call sends exactly that turn, and a usable reply is the only text sent to the speech server next |
| Js.Truthy | app/api/chat/route.ts:40 | `!v` is false exactly for values other than undefined, null, false, 0 and "" |
| Js.BlankTrim | app/page.tsx:26 | a text is blank, `!s.trim()`, exactly when dropping its leading whitespace leaves nothing; the same test is at app/audio/page.tsx:88 and app/page.tsx:63 |
| Js.DropSpaces | app/page.tsx:65 | removes a blank prefix and stops at the first non-space |
| Js.ConcatAppend | app/page.tsx:58 | concatenating reads distributes over appending them |
| Js.SplitLines | app/page.tsx:59 | at least one piece, none containing a line feed |
| Js.JoinSplit | app/page.tsx:59 | rejoining the pieces with line feeds gives back the text |
| Js.SplitNoNewline | app/page.tsx:59 | a text without line feed is one piece |
| Js.SplitAfterLine | app/page.tsx:59 | a line then a line feed splits off as the first piece |
| Js.SplitJoin | app/page.tsx:59 | pieces without line feeds joined and split again are the same pieces |
| Js.SplitCons | app/page.tsx:59 | how the first character of a text decides its first piece |
| Js.SplitStep | app/page.tsx:59 | the pieces of a non-empty text follow from its first character and the pieces of the rest |
| Js.ConsAppend | app/page.tsx:58-60 | putting a character before pieces extended at their last piece changes only the front, and decides the new last piece |
| Js.SplitAppend | app/page.tsx:58-60 | splitting `a + b` keeps the complete lines of `a` and continues from its unterminated tail |
| Js.SplitAppendCarried | app/page.tsx:58-60 | the append law for a text follows from the law for its tail when its first character is a line feed or its tail has several pieces |
| Js.SplitAppendJoined | app/page.tsx:58-60 | the append law for a one-piece text follows from the law for its tail |
| StreamDecoder.LineContent | app/page.tsx:63-67 | a blank line is skipped; otherwise the `data:` prefix is stripped and the payload parsed; LineSkipped, LineAdded and EventLineContent characterise it |
| StreamDecoder.StripData | app/page.tsx:65 | the text is unchanged unless it starts with `data:`; then that and the whitespace after it are removed and what is left starts with no whitespace |
| StreamDecoder.GatherSnoc | app/page.tsx:67 | a decoded line adds its content at the end; a skipped one adds nothing |
| StreamDecoder.GatherAppend | app/page.tsx:62-67 | gathering distributes over concatenation |
| StreamDecoder.ParseLines | app/page.tsx:62-67 | each line is decoded on its own |
| StreamDecoder.ParseLinesAppend | app/page.tsx:62-67 | decoding lines distributes over concatenation |
| StreamDecoder.DecodeLinesAppend | app/page.tsx:62-67 | decoded content of lines distributes over concatenation |
| StreamDecoder.DecodeLine | app/page.tsx:63-67 | one line adds its decoded content, or nothing when blank or unparsable |
| StreamDecoder.DecodeLinesStep | app/page.tsx:62 | the `for` loop adds one line's contribution per step |
| StreamDecoder.LineSkipped | app/page.tsx:64-75 | a blank or unparsable line changes nothing and decoding continues with the next |
| StreamDecoder.LineAdded | app/page.tsx:64-67 | a parsed line appends exactly its `message.content` |
| StreamDecoder.Decoded | app/page.tsx:58-67 | the text the page appends for everything received: the complete lines decoded in order; DecodedAppend and RoundTrip characterise it |
| StreamDecoder.Pending | app/page.tsx:60 | the carry buffer holds no line feed |
| StreamDecoder.DecodedAppend | app/page.tsx:58-60 | decoding in two reads equals decoding the first and then the carry plus the second |
| StreamDecoder.ReadStep | app/page.tsx:56-60 | one read extends content and buffer as the loop body does |
| StreamDecoder.ConsumeLines | app/page.tsx:62-76 | the content grows by exactly the decoded complete lines |
| StreamDecoder.DecodeStream | app/page.tsx:53-77 | after all reads, content is the decoding of the complete lines received and the buffer is the unterminated tail, with no line feed |
| StreamDecoder.SplitTerminated | app/page.tsx:59 | lines each followed by a blank line split into the lines paired with empty pieces |
| EventStream.StreamText | app/api/chat/route.ts:27-28 | the whole stream: the frames of the chunks concatenated; StreamTextTerminated and RoundTrip characterise it |
| StreamDecoder.EventLines | app/api/chat/route.ts:28 | one `data:` line per chunk, in order |
| StreamDecoder.StreamTextTerminated | app/api/chat/route.ts:27-28 | the event stream is its `data:` lines, each followed by a blank line |
| StreamDecoder.GatherPaired | app/page.tsx:63-67 | contents interleaved with skipped blank lines gather to the contents concatenated |
| StreamDecoder.BlankLineContent | app/page.tsx:63 | an empty line is skipped |
| StreamDecoder.StripDataField | app/page.tsx:65 | `data: ` before text not starting with whitespace is stripped to that text |
| StreamDecoder.StripEventLine | app/page.tsx:65 | stripping a frame's line leaves exactly its JSON payload |
| StreamDecoder.EventLineContent | app/page.tsx:63-67 | a frame's line decodes to exactly its chunk text |
| StreamDecoder.ParsePairedCons | app/page.tsx:62-67 | a line followed by a blank one decodes to that line's content then a skip, ahead of the rest |
| StreamDecoder.ParsePaired | app/page.tsx:62-67 | lines paired with blank lines decode to their texts interleaved with skips |
| StreamDecoder.RoundTrip | app/page.tsx:53-67 | the relay's event stream, cut into reads anywhere, decodes to the chunk texts concatenated in order and leaves an empty buffer |
| CodeFence.CloseAfter | app/page.tsx:117 | the nearest fence at or after a position, and none before it |
| CodeFence.SplitFrom | app/page.tsx:117 | the `@@split` scan from a position, with at least one part; SplitFromOdd, SplitFromCode, SplitFromRebuild, SplitFromLazy and SplitFromLeftmost characterise it |
| CodeFence.Split | app/page.tsx:117 | `content.split(/```([\s\S]+?)```/g)`, with at least one part |
| CodeFence.Rebuild | app/page.tsx:117-119 | the parts rejoined with a fence around each odd-index part; SplitShape shows it inverts Split |
| CodeFence.MatchAt | app/page.tsx:117 | a match is an opening fence, at least one character and the nearest closing fence after that; with both present a match exists |
| CodeFence.CaptureLazy | app/page.tsx:117 | a matched capture holds no fence that closes before its end |
| CodeFence.Reassemble | app/page.tsx:117 | the text before a match, the fenced capture and the text after make up the message |
| CodeFence.SplitFromOdd | app/page.tsx:117 | the scan yields an odd number of parts |
| CodeFence.SplitFromCode | app/page.tsx:117 | the scan's odd-index parts are non-empty |
| CodeFence.SplitFromRebuild | app/page.tsx:117-119 | the scan's parts, fenced at odd indices, rebuild the text |
| CodeFence.SplitShape | app/page.tsx:117-119 | the part count is odd, code parts are non-empty, and fencing the code parts again rebuilds the message |
| CodeFence.SplitFromLazy | app/page.tsx:117 | no code part contains a fence starting after its first character before its closing fence |
| CodeFence.SplitLazy | app/page.tsx:117 | every code block ends at the nearest possible closing fence |
| CodeFence.SplitFromLeftmost | app/page.tsx:117 | the first part runs up to the first position where a match starts |
| CodeFence.SplitLeftmost | app/page.tsx:117 | no match starts inside the first text part, and one starts right after it when there is more than one part |
| CodeFence.SplitFromSkip | app/page.tsx:117 | positions where the pattern does not match leave the scan unchanged |
| CodeFence.SplitRestart | app/page.tsx:117 | at the leftmost match the split emits the text before it and the capture, then continues with the split of the text after the match |
| CodeFence.SplitNoMatch | app/page.tsx:117 | with no match anywhere the message is one part; with SplitRestart this determines every part of the split |
| CodeFence.NoFenceFrom | app/page.tsx:117 | with no fence ahead the scan yields the text as one part |
| CodeFence.NoFence | app/page.tsx:117-119 | a message without fences renders as one text part |
| Conversation.NewHistory | app/page.tsx:26-31 | nothing iff the text is blank; otherwise the conversation plus the user turn, with the given persona first when there was no system message |
| ChatPage.RequestAccepted | app/page.tsx:38-42 | the page's request passes the text relay's checks; its one provider call sends the typed input; a streaming provider gives a 200 event stream |
| ChatPage.ReplyIsChunkText | app/page.tsx:38-77 | end to end: the relay answers 200 and the page decodes its stream, cut anywhere, into the provider's chunk texts concatenated |
| ChatPage.ReplyKeepsShape | app/page.tsx:51 | appending the assistant message keeps the conversation starting with its only system message |
| ChatPage.ChatScreen.constructor | app/page.tsx:13-17 | empty conversation and input, model "gemini-2.0-flash", not loading |
| ChatPage.ChatScreen.Type | app/page.tsx:261 | only the input changes |
| ChatPage.ChatScreen.SelectModel | app/page.tsx:163-175 | only the selected model changes, to one of the options |
| ChatPage.ChatScreen.ClearChat | app/page.tsx:113 | the conversation is emptied and nothing else changes |
| ChatPage.ChatScreen.SendMessage | app/page.tsx:25-83 | a blank input changes nothing and posts nothing; otherwise the new history is posted with the selected model, the input is cleared, and the conversation ends with one assistant message holding the decoded reply; the conversation keeps exactly one system message, first |
| VoicePage.ModelFromQuery | app/audio/page.tsx:17-27 | a non-empty `query` parameter names the model; otherwise "deepseek-v2" |
| VoicePage.SelectTranscript | app/audio/page.tsx:44 | the first alternative of the last result, present iff that result and alternative exist |
| VoicePage.NewHistoryShape | app/audio/page.tsx:88-111 | a conversation with the system message only first keeps that shape after the new turn |
| VoicePage.SentTurn | app/audio/page.tsx:88-111 | the turn history of the posted conversation ends with the transcript as a user turn |
| VoicePage.TranscriptSent | app/audio/page.tsx:108-123 | the posted conversation passes the voice relay's checks: the first call sends the transcript, and a usable reply goes to the speech server next |
| VoicePage.Recognizer.constructor | app/audio/page.tsx:34 | a new recognizer has received no command |
| VoicePage.Recognizer.Start | app/audio/page.tsx:64 | records one `start` |
| VoicePage.Recognizer.Stop | app/audio/page.tsx:78 | records one `stop` |
| VoicePage.VoiceScreen.constructor | app/audio/page.tsx:21-69 | the model comes from the query; with recognition supported a recognizer is created, started once and listening is on; otherwise there is none and listening is off |
| VoicePage.VoiceScreen.ToggleListening | app/audio/page.tsx:75-85 | listening: `stop` and off; not listening: `start` and on; without a recognizer nothing changes |
| VoicePage.VoiceScreen.OnError | app/audio/page.tsx:58-61 | listening is off and nothing else changes |
| VoicePage.VoiceScreen.OnResult | app/audio/page.tsx:43-47 | the latest transcript, when present and not blank, becomes the conversation posted with the model; otherwise nothing changes and nothing is posted |
| Cors.CorsHeaders | app/lib/cors.ts:5-12 | exactly four headers: the origin, or `*` when missing or empty, and the constants `GET,POST,OPTIONS`, `Content-Type`, `true` |
| Cors.HandleCors | app/lib/cors.ts:4-23 | a preflight iff the method is `OPTIONS`, answered with 204, no body and those headers; any other method gets the header map itself |

## Left out

- Http.MessagesField: every element of `messages` is modelled as a `{role, content}` pair of strings, while the routes only check `Array.isArray`. So these paths are not modelled: an element such as `null` passes the guard and then throws on `m.role` (unhandled in the text relay, a 500 with that message in the voice relay); a last turn without `content` makes the text relay send `message: undefined`; a JSON body of `null` throws while it is destructured; a non-string `content` is judged by truthiness rather than by comparison with `""`.
- The Gemini SDK and the Piper request are not modelled: they are function parameters, and every call is recorded with its arguments.
- Byte plumbing (`TextEncoder`, `TextDecoder`, `Readable.toWeb`) is not modelled: text is a sequence of characters, the audio an opaque byte sequence, and a multi-byte character split across reads cannot occur.
- Characters are Unicode scalar values, so lone surrogates do not exist; the JSON reader refuses `\u` escapes of surrogate code points, which the relay never writes.
- StreamDecoder.LineContent: `JSON.parse` is modelled only for the exact payload the relay writes, `{"message":{"content":<string>}}` without whitespace; other JSON values are treated as unparsable lines, whereas the page would append `message.content` of any shape it can read (a number, or "undefined" for a missing field).
- A chunk whose text is undefined (the key is then dropped and the page appends "undefined") is not modelled: chunk texts are strings.
- A read that fails part-way is not modelled on the page: `reply` is either all reads up to `done`, or absent when the request fails.
- Concurrency is not modelled: the `for await` suspension, cancellation, updates by other handlers while a reply streams (such as "Novo Chat" during a send), and the requests' overlap.
- React rendering, effects, scrolling, Markdown and syntax highlighting, toasts, the model-limits table and `copyCode` are not modelled; the voice screen's `onstart`/`isSpeaking` indicator and loading flags neither.
- VoicePage.VoiceScreen.OnResult: in the source the `onresult` handler is set up once and calls the first render's `sendMessage`, so both the messages and the model name are the first render's: every transcript is posted as `{model: "deepseek-v2", messages: [Jarbas persona, user turn]}` whatever `?query=` says. The model posts the current conversation with the model taken from the query instead. The `onend` handler's restart with `setTimeout` is left out.
- `playAudio` on the chat screen and audio playback, `stopAudio`, `goBack` and blob URLs on the voice screen are not modelled: they only hand bytes to the browser.
- app/chat/page.tsx, app/test/page.tsx and app/audio2/page.tsx are not part of this model.
- The startup guards on `GEMINI_API_KEY` and `PIPER_HOST` are not modelled as such; SpeechRoute.Post requires a non-empty speech host instead.
- `Response.headers` holds only the headers a handler passes itself: the `content-type: application/json` that `NextResponse.json` adds to the 400, 500 and health answers is not modelled.
- How the framework answers an exception that escapes the text relay is not modelled (`Outcome.Unhandled`).
- Logging is not modelled.
- The agreement between streamed and non-streamed generations depends on the provider and is not stated.

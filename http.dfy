/** Request bodies and responses of the relay routes, as far as the core looks at them. */
module Http {
  import opened Js
  import opened Conversation
  import opened Upstream

  /** The `messages` field: an array of messages, or anything else. */
  datatype MessagesField = MessageArray(items: seq<Message>) | NotAnArray

  /** `await request.json()`: a body that is not JSON, or the two fields destructured from it. */
  datatype RequestBody = Unparsable(error: string) | Body(model: Value, messages: MessagesField)

  /** The guard `!model || !Array.isArray(messages)` fails. */
  predicate Rejects(model: Value, messages: MessagesField) {
    !Truthy(model) || !messages.MessageArray?
  }

  datatype Payload =
    | ErrorJson(error: string)
    | StatusJson(status: string, message: string)
    | EventStream(source: ChunkSource)
    | Audio(bytes: seq<bv8>)
    | NoBody

  datatype Response = Response(status: int, headers: map<string, string>, payload: Payload)

  /** A response, or an exception the route does not catch (the framework answers it). */
  datatype Outcome = Responded(response: Response) | Unhandled(error: string)

  /** What a request led to, and the outbound calls made on the way, in order. */
  datatype Exchange = Exchange(outcome: Outcome, calls: seq<Call>)

  const HealthMessage: string := "API está saudável"

  /** `GET`: the health check, the same in both relay routes. */
  function Health(): (r: Response)
    ensures r.status == 200 && r.payload == StatusJson("ok", HealthMessage)
  {
    Response(200, map[], StatusJson("ok", HealthMessage))
  }
}

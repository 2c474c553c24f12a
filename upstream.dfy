/** The boundary of the two handlers: the request body as Flask decodes it, the
    calls made to the generation service and what it answers, and the HTTP
    response. */
module Upstream {
  import opened JsonValue

  /** What `request.get_json()` yields: a decoded value, or an exception
      (wrong content type, undecodable text). */
  datatype Body = Undecodable | Decoded(value: Json)

  /** The prompt sent to the service, reduced to the request data it embeds;
      the fixed wording around it is not modelled. */
  datatype Prompt =
    | HomilyPrompt(date: string)
    | ChatPrompt(question: Json)

  /** One call of `client.models.generate_content`. */
  datatype Call = Call(model: string, prompt: Prompt, jsonMode: bool)

  /** The outcome of one call: the reply's text; `DecodeFault` where the call
      itself raises `json.JSONDecodeError` (the client decodes the body of the
      service's HTTP reply as JSON); `Fail` for any other exception, including a
      reply without text. */
  datatype UpstreamResult = Fail | DecodeFault | Text(text: string)

  datatype Response = Response(status: int, payload: Json)

  /** The response of a handler together with every call it made, in order. */
  datatype Exchange = Exchange(response: Response, calls: seq<Call>)

  /** A one-key JSON object `{key: message}`, the shape of every error reply. */
  function ErrorPayload(key: string, message: string): Json {
    JObject(map[key := JString(message)])
  }
}

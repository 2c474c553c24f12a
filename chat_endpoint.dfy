/** `POST /chat`: checks that a question was sent, asks the generation service
    for a free-text answer and returns it stripped of surrounding whitespace. */
module ChatEndpoint {
  import opened JsonValue
  import opened PyText
  import opened Upstream

  const MissingQuestionMessage := "Pergunta não fornecida."
  const FailureMessage := "Erro ao gerar resposta."

  /** The model asked for an answer, in free-text mode. */
  const ChatModel := "gemini-2.0-flash"

  /** Every fault inside the handler (no `.get` on the body, a failed call) ends here. */
  const ChatFailure := Response(500, ErrorPayload("erro", FailureMessage))

  const MissingQuestion := Response(400, ErrorPayload("erro", MissingQuestionMessage))

  /** The single call made for a question; the question is embedded as sent,
      without trimming, whatever JSON value it is. */
  function ChatCall(question: Json): Call {
    Call(ChatModel, ChatPrompt(question), false)
  }

  /** The 200 payload `{"resposta": answer}`. */
  function AnswerPayload(answer: string): Json {
    JObject(map["resposta" := JString(answer)])
  }

  /** `chat()`: the response and the calls made to the service. Only a dict has
      `.get`; any other body, or an exception from `get_json`, is a 500. */
  function Chat(body: Body, generate: Call -> UpstreamResult): (e: Exchange)
    ensures e.response.status in {200, 400, 500}
    ensures |e.calls| <= 1
    ensures e.response.status == 400 ==> e.calls == []
    ensures e.response.status == 200 ==>
      && |e.calls| == 1 && generate(e.calls[0]).Text?
      && e.response.payload == AnswerPayload(Strip(generate(e.calls[0]).text))
    ensures e.response.status != 200 ==> e.response.payload.JObject? && e.response.payload.fields.Keys == {"erro"}
    ensures forall c :: c in e.calls ==> !c.jsonMode && c.prompt.ChatPrompt? && Truthy(c.prompt.question)
  {
    if !body.Decoded? || !HasGet(body.value) then Exchange(ChatFailure, [])
    else
      var question := Get(body.value.fields, "pergunta");
      if !Truthy(question) then Exchange(MissingQuestion, [])
      else
        var call := ChatCall(question);
        match generate(call)
        case Text(text) => Exchange(Response(200, AnswerPayload(Strip(text))), [call])
        case _ => Exchange(ChatFailure, [call])
  }

  /** An absent or falsy "pergunta" is a 400 before any call. */
  lemma MissingQuestionRejected(fields: map<string, Json>, generate: Call -> UpstreamResult)
    requires !Truthy(Get(fields, "pergunta"))
    ensures Chat(Decoded(JObject(fields)), generate) == Exchange(MissingQuestion, [])
  {
  }

  /** A body without `.get` (`null`, a list, a string, a number) or one Flask
      could not decode is a 500, and no call is made. */
  lemma BodyWithoutGetFails(body: Body, generate: Call -> UpstreamResult)
    requires body.Undecodable? || !body.value.JObject?
    ensures Chat(body, generate) == Exchange(ChatFailure, [])
  {
  }

  /** A call that raises anything (`JSONDecodeError` included) is a 500 with the
      generic message; nothing is synthesised. */
  lemma UpstreamFaultFails(fields: map<string, Json>, generate: Call -> UpstreamResult)
    requires Truthy(Get(fields, "pergunta")) && !generate(ChatCall(Get(fields, "pergunta"))).Text?
    ensures Chat(Decoded(JObject(fields)), generate) == Exchange(ChatFailure, [ChatCall(fields["pergunta"])])
  {
  }

  /** A successful call is a 200 whose answer is the reply with its surrounding
      whitespace removed and nothing else changed. */
  lemma AnswerIsStrippedReply(fields: map<string, Json>, generate: Call -> UpstreamResult, text: string)
    requires Truthy(Get(fields, "pergunta")) && generate(ChatCall(Get(fields, "pergunta"))) == Text(text)
    ensures Chat(Decoded(JObject(fields)), generate)
            == Exchange(Response(200, AnswerPayload(Strip(text))), [ChatCall(fields["pergunta"])])
    ensures IsStripped(Strip(text)) && IsStripOf(text, Strip(text))
  {
  }

  /** A reply with no surrounding whitespace is sent back verbatim. */
  lemma StrippedReplyVerbatim(fields: map<string, Json>, generate: Call -> UpstreamResult, text: string)
    requires Truthy(Get(fields, "pergunta")) && generate(ChatCall(Get(fields, "pergunta"))) == Text(text)
    requires IsStripped(text)
    ensures Chat(Decoded(JObject(fields)), generate).response == Response(200, AnswerPayload(text))
  {
    StripOfStripped(text);
  }

  /** The question itself is not trimmed: a question of whitespace alone passes
      the check and is embedded as it is. */
  lemma BlankQuestionAsked(fields: map<string, Json>, generate: Call -> UpstreamResult, question: string)
    requires "pergunta" in fields && fields["pergunta"] == JString(question)
    requires question != [] && AllSpaceIn(question, 0, |question|)
    ensures Chat(Decoded(JObject(fields)), generate).calls == [ChatCall(JString(question))]
    ensures Chat(Decoded(JObject(fields)), generate).response.status != 400
  {
  }

  /** The status is 500 exactly when the body has no `.get`, or a question was
      sent and the call failed. */
  lemma ServerErrorCases(body: Body, generate: Call -> UpstreamResult)
    ensures Chat(body, generate).response.status == 500 <==>
      || !body.Decoded? || !body.value.JObject?
      || (Truthy(Get(body.value.fields, "pergunta")) && !generate(ChatCall(Get(body.value.fields, "pergunta"))).Text?)
  {
  }
}

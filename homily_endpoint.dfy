/** `POST /homilia`: `make_homilia` validates the body and its date, then
    `criar_homilia` asks the generation service for a homily in JSON and turns
    its reply, or its failure, into the record that is sent back. */
module HomilyEndpoint {
  import opened Wrappers
  import opened JsonValue
  import opened PyText
  import opened Calendar
  import opened Upstream

  const InvalidBodyMessage := "Requisição JSON inválida. Esperava um objeto JSON."
  const MissingDateMessage := "O campo \"data\" é obrigatório."
  const BadFormatMessage := "O campo \"data\" deve estar no formato DD/MM/YYYY."
  const InternalErrorMessage := "Erro interno ao gerar a homilia."

  /** The model asked for a homily, in JSON output mode. */
  const HomilyModel := "gemini-2.0-flash-lite"

  /** The structured record the prompt asks for, and the shape of both fallbacks. */
  datatype HomilyRecord = HomilyRecord(
    titulo: string,
    referenciaBiblica: string,
    temaCentral: string,
    pontosDaReflexao: seq<string>,
    aplicacaoPratica: seq<string>,
    erro: Option<string>)
  {
    /** The dict that `jsonify` serialises; `erro` is a key only when it is set. */
    function ToJson(): (j: Json)
      ensures j.JObject?
      ensures j.fields.Keys == RecordKeys + (if erro.Some? then {"erro"} else {})
      ensures j.fields["titulo"] == JString(titulo)
      ensures erro.Some? ==> j.fields["erro"] == JString(erro.value)
    {
      var content := map[
        "titulo" := JString(titulo),
        "referencia_biblica" := JString(referenciaBiblica),
        "tema_central" := JString(temaCentral),
        "pontos_da_reflexao" := JArray(Strings(pontosDaReflexao)),
        "aplicacao_pratica" := JArray(Strings(aplicacaoPratica))];
      if erro.Some? then JObject(content["erro" := JString(erro.value)]) else JObject(content)
    }
  }

  const RecordKeys: set<string> :=
    {"titulo", "referencia_biblica", "tema_central", "pontos_da_reflexao", "aplicacao_pratica"}

  /** A Python list of `str`, as JSON. */
  function Strings(items: seq<string>): seq<Json> {
    seq(|items|, k requires 0 <= k < |items| => JString(items[k]))
  }

  /** A record put in place of a homily: empty content and an alert in `erro`. */
  function FallbackRecord(titulo: string, erro: string): HomilyRecord {
    HomilyRecord(titulo, "", "", [], [], Some(erro))
  }

  /** Returned when the reply of the service is not valid JSON. */
  const MalformedReplyRecord := FallbackRecord(
    "Erro ao interpretar a homilia",
    "A resposta da IA veio em formato inválido. Tente novamente.")

  /** Returned when the call to the service raises anything else. */
  const UnexpectedErrorRecord := FallbackRecord(
    "Erro ao gerar a homilia",
    "Ocorreu um erro inesperado. Tente novamente em instantes.")

  /** The JSON shape of a fallback: the five content keys plus `erro`, every
      content field empty and the alert non-empty. */
  predicate IsFallbackJson(j: Json) {
    && j.JObject?
    && j.fields.Keys == RecordKeys + {"erro"}
    && j.fields["referencia_biblica"] == JString("")
    && j.fields["tema_central"] == JString("")
    && j.fields["pontos_da_reflexao"] == JArray([])
    && j.fields["aplicacao_pratica"] == JArray([])
    && j.fields["titulo"].JString?
    && j.fields["erro"].JString? && j.fields["erro"].s != []
  }

  /** The single call `criar_homilia` makes for a date text. */
  function HomilyCall(date: string): Call {
    Call(HomilyModel, HomilyPrompt(date), true)
  }

  /** What `criar_homilia` does: return a value, or let an exception escape. */
  datatype HomilyOutcome = Returned(value: Json) | Escaped

  /** `criar_homilia(data)`: the parsed reply, returned as it is without any check
      of its shape, or one of the two fallback records. `parseJson` is `json.loads`
      on the stripped reply text, `None` where it raises `JSONDecodeError`. When
      the call itself raises `JSONDecodeError`, the handler for that exception
      reads `response`, which was never assigned; the `UnboundLocalError` it
      raises is not caught by the sibling handler and escapes. */
  function CreateHomily(date: string, generate: Call -> UpstreamResult, parseJson: string -> Option<Json>): (r: HomilyOutcome)
    ensures r.Escaped? <==> generate(HomilyCall(date)).DecodeFault?
    ensures generate(HomilyCall(date)).Fail? ==> r.Returned? && IsFallbackJson(r.value)
    ensures generate(HomilyCall(date)).Text? && parseJson(Strip(generate(HomilyCall(date)).text)).None?
            ==> r.Returned? && IsFallbackJson(r.value)
  {
    match generate(HomilyCall(date))
    case Fail => Returned(UnexpectedErrorRecord.ToJson())
    case DecodeFault => Escaped
    case Text(text) =>
      match parseJson(Strip(text))
      case Some(parsed) => Returned(parsed)
      case None => Returned(MalformedReplyRecord.ToJson())
  }

  /** A reply that parses is sent back verbatim, whatever its shape. */
  lemma ParsedReplyPassedThrough(date: string, generate: Call -> UpstreamResult, parseJson: string -> Option<Json>, text: string, parsed: Json)
    requires generate(HomilyCall(date)) == Text(text) && parseJson(Strip(text)) == Some(parsed)
    ensures CreateHomily(date, generate, parseJson) == Returned(parsed)
  {
  }

  /** A reply that is not JSON gives the "malformed response" record. */
  lemma MalformedReplyFallback(date: string, generate: Call -> UpstreamResult, parseJson: string -> Option<Json>)
    requires generate(HomilyCall(date)).Text? && parseJson(Strip(generate(HomilyCall(date)).text)).None?
    ensures CreateHomily(date, generate, parseJson) == Returned(MalformedReplyRecord.ToJson())
    ensures CreateHomily(date, generate, parseJson).value.fields["titulo"] == JString("Erro ao interpretar a homilia")
  {
  }

  /** A call failing with anything but `JSONDecodeError` gives the "unexpected error" record. */
  lemma UpstreamFaultFallback(date: string, generate: Call -> UpstreamResult, parseJson: string -> Option<Json>)
    requires generate(HomilyCall(date)).Fail?
    ensures CreateHomily(date, generate, parseJson) == Returned(UnexpectedErrorRecord.ToJson())
    ensures CreateHomily(date, generate, parseJson).value.fields["titulo"] == JString("Erro ao gerar a homilia")
  {
  }

  /** The two fallbacks have the same keys and empty content, and differ in both
      their title and their alert, so a caller can tell the two faults apart. */
  lemma FallbackRecordsDistinct()
    ensures IsFallbackJson(MalformedReplyRecord.ToJson()) && IsFallbackJson(UnexpectedErrorRecord.ToJson())
    ensures MalformedReplyRecord.ToJson().fields.Keys == UnexpectedErrorRecord.ToJson().fields.Keys
    ensures MalformedReplyRecord.titulo != UnexpectedErrorRecord.titulo
    ensures MalformedReplyRecord.erro != UnexpectedErrorRecord.erro
  {
  }

  /** The outcome of validating a `/homilia` body: the error response, or the
      canonical date text the prompt embeds. */
  datatype Validation = Rejected(response: Response) | Accepted(date: string)

  function BadRequest(message: string): Response {
    Response(400, ErrorPayload("error", message))
  }

  /** A fault escaping validation is caught by the outer handler. */
  const InternalError := Response(500, ErrorPayload("error", InternalErrorMessage))

  /** Lines 101-112 of `make_homilia`, up to the re-encoding of the date. A
      truthy "data" that is not a string makes `strptime` raise `TypeError`,
      which the `except ValueError` does not catch. */
  function ValidateHomily(body: Body): (v: Validation)
    ensures v.Accepted? <==>
      && body.Decoded? && body.value.JObject?
      && Get(body.value.fields, "data").JString?
      && ParseDate(Get(body.value.fields, "data").s).Some?
    ensures v.Accepted? ==> NormaliseDate(Get(body.value.fields, "data").s) == Some(v.date)
    ensures v.Rejected? ==> v.response.status in {400, 500} && v.response.payload.JObject? && v.response.payload.fields.Keys == {"error"}
  {
    match body
    case Undecodable => Rejected(InternalError)
    case Decoded(value) =>
      if !Truthy(value) || !value.JObject? then Rejected(BadRequest(InvalidBodyMessage))
      else
        var data := Get(value.fields, "data");
        if !Truthy(data) then Rejected(BadRequest(MissingDateMessage))
        else if !data.JString? then Rejected(InternalError)
        else
          match ParseDate(data.s)
          case None => Rejected(BadRequest(BadFormatMessage))
          case Some(d) => Accepted(FormatDate(d))
  }

  /** `make_homilia()`: the response and the calls made to the service. An
      exception escaping `criar_homilia` is caught by the outer handler. */
  function MakeHomily(body: Body, generate: Call -> UpstreamResult, parseJson: string -> Option<Json>): (e: Exchange)
    ensures e.response.status in {200, 400, 500}
    ensures |e.calls| <= 1
    ensures e.calls != [] <==> ValidateHomily(body).Accepted?
    ensures e.response.status == 200 <==>
      ValidateHomily(body).Accepted? && !generate(HomilyCall(ValidateHomily(body).date)).DecodeFault?
    ensures e.response.status != 200 ==> e.response.payload.JObject? && e.response.payload.fields.Keys == {"error"}
    ensures forall c :: c in e.calls ==> c.jsonMode && c.prompt.HomilyPrompt?
  {
    match ValidateHomily(body)
    case Rejected(response) => Exchange(response, [])
    case Accepted(date) =>
      match CreateHomily(date, generate, parseJson)
      case Returned(record) => Exchange(Response(200, record), [HomilyCall(date)])
      case Escaped => Exchange(InternalError, [HomilyCall(date)])
  }

  /** A body Flask cannot decode ends in the internal-error 500, before any call. */
  lemma UndecodableBodyIsInternalError(generate: Call -> UpstreamResult, parseJson: string -> Option<Json>)
    ensures MakeHomily(Undecodable, generate, parseJson) == Exchange(InternalError, [])
  {
  }

  /** A body that is not an object, or is falsy (`null`, `[]`, `0`, and `{}` too),
      is refused with the "invalid body" message before any call. */
  lemma BadBodyRejected(value: Json, generate: Call -> UpstreamResult, parseJson: string -> Option<Json>)
    requires !Truthy(value) || !value.JObject?
    ensures MakeHomily(Decoded(value), generate, parseJson) == Exchange(BadRequest(InvalidBodyMessage), [])
  {
  }

  /** The empty object gets the "invalid body" message, not the "missing field" one. */
  lemma EmptyObjectIsInvalidBody(generate: Call -> UpstreamResult, parseJson: string -> Option<Json>)
    ensures MakeHomily(Decoded(JObject(map[])), generate, parseJson).response.payload
            == ErrorPayload("error", InvalidBodyMessage)
  {
  }

  /** An object whose "data" is absent or falsy is refused with the "missing field" message. */
  lemma MissingDateRejected(fields: map<string, Json>, generate: Call -> UpstreamResult, parseJson: string -> Option<Json>)
    requires fields != map[] && !Truthy(Get(fields, "data"))
    ensures MakeHomily(Decoded(JObject(fields)), generate, parseJson) == Exchange(BadRequest(MissingDateMessage), [])
  {
  }

  /** A date text that `strptime` refuses gets the "DD/MM/YYYY" message before any call. */
  lemma BadDateRejected(fields: map<string, Json>, generate: Call -> UpstreamResult, parseJson: string -> Option<Json>)
    requires "data" in fields && fields["data"].JString? && fields["data"].s != []
    requires ParseDate(fields["data"].s).None?
    ensures MakeHomily(Decoded(JObject(fields)), generate, parseJson) == Exchange(BadRequest(BadFormatMessage), [])
  {
  }

  /** A truthy "data" that is not a string (a number, a list, an object) ends in
      the internal-error 500, not in a 400. */
  lemma NonStringDateIsInternalError(fields: map<string, Json>, generate: Call -> UpstreamResult, parseJson: string -> Option<Json>)
    requires "data" in fields && Truthy(fields["data"]) && !fields["data"].JString?
    ensures MakeHomily(Decoded(JObject(fields)), generate, parseJson) == Exchange(InternalError, [])
  {
  }

  /** Once the date is accepted exactly one call is made, embedding the normalised
      date, which has the canonical `DD/MM/YYYY` shape for four-digit years. Unless
      that call raises `JSONDecodeError`, the status is 200 and the payload is
      exactly what `criar_homilia` returned. */
  lemma ValidDateGenerates(fields: map<string, Json>, generate: Call -> UpstreamResult, parseJson: string -> Option<Json>, text: string, date: string)
    requires "data" in fields && fields["data"] == JString(text)
    requires NormaliseDate(text) == Some(date)
    ensures MakeHomily(Decoded(JObject(fields)), generate, parseJson).calls == [HomilyCall(date)]
    ensures !generate(HomilyCall(date)).DecodeFault? ==>
      MakeHomily(Decoded(JObject(fields)), generate, parseJson).response
      == Response(200, CreateHomily(date, generate, parseJson).value)
    ensures ParseDate(text).value.year >= 1000 ==> IsCanonicalDate(date) && NormaliseDate(date) == Some(date)
  {
    if ParseDate(text).value.year >= 1000 {
      NormaliseIdempotent(text);
    }
  }

  /** A `JSONDecodeError` raised by the call itself escapes `criar_homilia` and ends
      in the internal-error 500, after the one call. */
  lemma CallDecodeFaultIsInternalError(fields: map<string, Json>, generate: Call -> UpstreamResult, parseJson: string -> Option<Json>, text: string, date: string)
    requires "data" in fields && fields["data"] == JString(text)
    requires NormaliseDate(text) == Some(date) && generate(HomilyCall(date)).DecodeFault?
    ensures MakeHomily(Decoded(JObject(fields)), generate, parseJson) == Exchange(InternalError, [HomilyCall(date)])
  {
  }

  /** The calls made never depend on the service; nor does the status, as long as
      no call raises `JSONDecodeError`: a failed call or a reply that is not JSON
      never gives a 500. */
  lemma StatusIndependentOfUpstream(body: Body, generate1: Call -> UpstreamResult, parseJson1: string -> Option<Json>,
                                    generate2: Call -> UpstreamResult, parseJson2: string -> Option<Json>)
    ensures MakeHomily(body, generate1, parseJson1).calls == MakeHomily(body, generate2, parseJson2).calls
    ensures (forall c :: c in MakeHomily(body, generate1, parseJson1).calls ==>
               !generate1(c).DecodeFault? && !generate2(c).DecodeFault?)
            ==> MakeHomily(body, generate1, parseJson1).response.status == MakeHomily(body, generate2, parseJson2).response.status
  {
  }

  /** The status is 500 exactly when the body cannot be decoded, "data" is truthy
      but not a string, or the date is accepted and the call raises `JSONDecodeError`. */
  lemma ServerErrorCases(body: Body, generate: Call -> UpstreamResult, parseJson: string -> Option<Json>)
    ensures MakeHomily(body, generate, parseJson).response.status == 500 <==>
      || body.Undecodable?
      || (body.value.JObject? && Truthy(Get(body.value.fields, "data")) && !Get(body.value.fields, "data").JString?)
      || (ValidateHomily(body).Accepted? && generate(HomilyCall(ValidateHomily(body).date)).DecodeFault?)
  {
  }
}

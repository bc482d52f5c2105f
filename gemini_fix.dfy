/**
 * The fix-generation endpoint's POST handler: check the request, ask the
 * model for a fix, read the JSON object out of its reply, fall back to a fixed
 * record when that text does not parse, and fill absent or falsy fields of the
 * answer with defaults.
 */
module GeminiFix {
  import opened Wrappers
  import opened JsString
  import opened JsonValue
  import opened GeminiExtract

  const MissingFields := "Missing required fields: originalCode or issue"
  const NoResponse := "No response from Gemini"
  const DefaultLanguage := "javascript"
  const DefaultExplanation := "Security fix applied"
  const ReviewAdvice := "Review the generated fix carefully"
  const TestAdvice := "Test thoroughly before deployment"
  const ExplanationLimit: nat := 500
  const Ellipsis := "..."

  /** What the JavaScript runtime (V8) throws when a property of `null` is read. */
  const NullReadError := "Cannot read properties of null (reading 'fixedCode')"

  /**
   * The parsed request body `{ originalCode, issue, fileName, language }`; an
   * absent field is `None`.
   */
  datatype FixRequest = FixRequest(
    originalCode: Option<Json>, issue: Option<Json>,
    fileName: Option<Json>, language: Option<Json>)

  /** The request fields the prompt embeds (the prompt's wording is not modelled). */
  datatype Prompt = Prompt(fileName: Option<Json>, language: Json, issue: Json, originalCode: Json)

  /**
   * What the model call gives back: the message of an error thrown while
   * calling it or reading its body, a response that is not ok, or the text of
   * each candidate (`candidates[i].content.parts[0].text`; an absent list is empty).
   */
  datatype Upstream =
    | Thrown(message: string)
    | NotOk(status: nat, statusText: string)
    | Replied(candidates: seq<string>)

  /** The model call, as an oracle on the prompt's fields. */
  type Model = Prompt -> Upstream

  /** `JSON.parse`, as an oracle: `None` when it throws. */
  type JsonParse = string -> Option<Json>

  /** The `data` of the success envelope. */
  datatype FixData = FixData(
    fixedCode: Json, explanation: Json, recommendations: Json,
    originalIssue: Json, generatedAt: string)

  /** The JSON envelope the handler returns. */
  datatype FixResponse =
    | Fixed(data: FixData)
    | BadRequest(error: string)
    | Failed(error: string)
  {
    function Status(): nat
    {
      match this
      case Fixed(_) => 200
      case BadRequest(_) => 400
      case Failed(_) => 500
    }

    /** Only the upstream-failure envelope carries `fallback: true`. */
    predicate Fallback()
    {
      Failed?
    }
  }

  // ---------------------------------------------------------------- request

  /** `!originalCode || !issue` is false. */
  predicate HasRequiredFields(req: FixRequest)
  {
    Truthy(req.originalCode) && Truthy(req.issue)
  }

  /** `language = 'javascript'`: the default applies only when the field is absent. */
  function Language(req: FixRequest): (r: Json)
    ensures req.language.None? ==> r == Str(DefaultLanguage)
    ensures req.language.Some? ==> r == req.language.value
  {
    match req.language
    case None => Str(DefaultLanguage)
    case Some(v) => v
  }

  function PromptFor(req: FixRequest): Prompt
    requires HasRequiredFields(req)
  {
    Prompt(req.fileName, Language(req), req.issue.value, req.originalCode.value)
  }

  /** `Gemini API error: ${status} ${statusText}`. */
  function UpstreamError(status: nat, statusText: string): string
  {
    "Gemini API error: " + NatToString(status) + " " + statusText
  }

  // ---------------------------------------------------------------- fallback

  /** `text.substring(0, 500) + '...'`. */
  function TruncatedExplanation(text: string): (r: string)
    ensures |r| <= ExplanationLimit + |Ellipsis|
    ensures EndsWith(r, Ellipsis)
    ensures StartsWith(text, r[..|r| - |Ellipsis|])
    ensures |text| <= ExplanationLimit ==> r == text + Ellipsis
    ensures |text| > ExplanationLimit ==> |r| == ExplanationLimit + |Ellipsis|
  {
    Prefix(text, ExplanationLimit) + Ellipsis
  }

  /** The record built when the candidate text does not parse. */
  function FallbackRecord(originalCode: Json, text: string): Json
  {
    Object(map[
      "fixedCode" := originalCode,
      "explanation" := Str(TruncatedExplanation(text)),
      "recommendations" := Array([Str(ReviewAdvice), Str(TestAdvice)])])
  }

  // ---------------------------------------------------------------- assembly

  /**
   * The success data: each field of the parsed response when it is truthy,
   * its default otherwise; the issue is passed through unchanged.
   */
  function Assemble(parsed: Json, originalCode: Json, issue: Json, now: string): (d: FixData)
    requires !parsed.Null?
    ensures Truthy(Get(parsed, "fixedCode")) ==> Some(d.fixedCode) == Get(parsed, "fixedCode")
    ensures !Truthy(Get(parsed, "fixedCode")) ==> d.fixedCode == originalCode
    ensures Truthy(Get(parsed, "explanation")) ==> Some(d.explanation) == Get(parsed, "explanation")
    ensures !Truthy(Get(parsed, "explanation")) ==> d.explanation == Str(DefaultExplanation)
    ensures Truthy(Get(parsed, "recommendations")) ==> Some(d.recommendations) == Get(parsed, "recommendations")
    ensures !Truthy(Get(parsed, "recommendations")) ==> d.recommendations == Array([])
    ensures Truthy(Some(originalCode)) ==> Truthy(Some(d.fixedCode)) && Truthy(Some(d.explanation))
    ensures d.originalIssue == issue && d.generatedAt == now
  {
    FixData(
      Or(Get(parsed, "fixedCode"), originalCode),
      Or(Get(parsed, "explanation"), Str(DefaultExplanation)),
      Or(Get(parsed, "recommendations"), Array([])),
      issue, now)
  }

  /**
   * When the reply does not parse, the answer keeps the original code, explains
   * with at most the first 500 characters of the reply followed by "...", and
   * gives the two fixed recommendations.
   */
  lemma ParseFailureAnswer(originalCode: Json, issue: Json, text: string, now: string)
    requires Truthy(Some(originalCode))
    ensures var d := Assemble(FallbackRecord(originalCode, text), originalCode, issue, now);
            && d.fixedCode == originalCode
            && d.explanation == Str(TruncatedExplanation(text))
            && |d.explanation.s| <= ExplanationLimit + |Ellipsis| && EndsWith(d.explanation.s, Ellipsis)
            && d.recommendations == Array([Str(ReviewAdvice), Str(TestAdvice)])
            && d.originalIssue == issue
  {
    var record := FallbackRecord(originalCode, text);
    assert Get(record, "explanation") == Some(Str(TruncatedExplanation(text)));
    assert Truthy(Get(record, "explanation"));
    assert Truthy(Get(record, "recommendations"));
  }

  // ---------------------------------------------------------------- handler

  /** What the handler answers once the request is complete and the model was called. */
  ghost predicate AnswersFor(req: FixRequest, upstream: Upstream, parse: JsonParse, now: string, resp: FixResponse)
    requires HasRequiredFields(req)
  {
    match upstream
    case Thrown(message) => resp == Failed(message)
    case NotOk(status, statusText) => resp == Failed(UpstreamError(status, statusText))
    case Replied(candidates) =>
      if candidates == [] then resp == Failed(NoResponse)
      else
        var text := candidates[0];
        match parse(JsonCandidate(text))
        case None =>
          resp == Fixed(FixData(req.originalCode.value, Str(TruncatedExplanation(text)),
                                Array([Str(ReviewAdvice), Str(TestAdvice)]), req.issue.value, now))
        case Some(Null) => resp == Failed(NullReadError)
        case Some(v) => resp == Fixed(Assemble(v, req.originalCode.value, req.issue.value, now))
  }

  /**
   * The POST handler. `body` is the parsed request body or the message thrown
   * while reading it; `now` is the clock reading stored as `generatedAt`.
   */
  method Post(body: Result<FixRequest>, model: Model, parse: JsonParse, now: string) returns (resp: FixResponse)
    ensures body.Failure? ==> resp == Failed(body.message)
    ensures body.Success? && !HasRequiredFields(body.value) ==> resp == BadRequest(MissingFields)
    ensures body.Success? && HasRequiredFields(body.value) ==>
              AnswersFor(body.value, model(PromptFor(body.value)), parse, now, resp)
    ensures body.Success? && HasRequiredFields(body.value) && body.value.language.None? ==>
              AnswersFor(body.value, model(Prompt(body.value.fileName, Str("javascript"),
                                                  body.value.issue.value, body.value.originalCode.value)),
                         parse, now, resp)
    ensures body.Success? && HasRequiredFields(body.value) && body.value.language.Some? ==>
              AnswersFor(body.value, model(Prompt(body.value.fileName, body.value.language.value,
                                                  body.value.issue.value, body.value.originalCode.value)),
                         parse, now, resp)
    ensures resp.Fixed? ==> Truthy(Some(resp.data.fixedCode)) && Truthy(Some(resp.data.explanation))
    ensures resp.Status() == 400 <==> body.Success? && !HasRequiredFields(body.value)
    ensures resp.Fallback() <==> resp.Status() == 500
  {
    if body.Failure? {
      return Failed(body.message);
    }
    var req := body.value;
    if !HasRequiredFields(req) {
      return BadRequest(MissingFields);
    }
    var originalCode := req.originalCode.value;
    var upstream := model(PromptFor(req));
    if upstream.Thrown? {
      return Failed(upstream.message);
    }
    if upstream.NotOk? {
      return Failed(UpstreamError(upstream.status, upstream.statusText));
    }
    if upstream.candidates == [] {
      return Failed(NoResponse);
    }
    var responseText := upstream.candidates[0];

    var parsedResponse: Json;
    var parsed := parse(JsonCandidate(responseText));
    if parsed.Some? {
      parsedResponse := parsed.value;
    } else {
      parsedResponse := FallbackRecord(originalCode, responseText);
      ParseFailureAnswer(originalCode, req.issue.value, responseText, now);
    }

    if parsedResponse.Null? {
      return Failed(NullReadError);
    }
    resp := Fixed(Assemble(parsedResponse, originalCode, req.issue.value, now));
  }
}

/** The analysis client (services/geminiService.ts): one request to the text-generation
    service, then JSON.parse of the response text with a local fallback when parsing
    fails. The service and the parser are parameters; a failure of the service call is
    not caught here and reaches the caller as a rejected promise. */
module AnalysisClient {
  import opened Wrappers
  import opened Json
  import opened Types

  const ModelName: string := "gemini-3-flash-preview"
  const ResponseMimeType: string := "application/json"

  /** The prompt is this head, the file name, then this tail. */
  const PromptHead: string := "Analyze this mobile app file name: \""
  const PromptTail: string :=
    "\". \n  Provide a professional JSON response with:\n"
    + "  1. A set of suggested Release Notes for this version (assuming it's a new update).\n"
    + "  2. A brief security check summary (hypothetical, based on standard app practices).\n"
    + "  3. A short marketing tagline and description."

  /** A generateContent request. The response schema is an object whose `properties`
      are all of string type and whose `required` list names the fields it must have. */
  datatype Request = Request(
    model: string,
    contents: string,
    responseMimeType: string,
    properties: seq<string>,
    required: seq<string>)

  /** How the awaited generateContent call ended: it threw, or it returned a response
      whose `text` may be missing. */
  datatype ServiceOutcome = Threw | Returned(text: Option<string>)

  /** How a promise settles. */
  datatype Settled<T> = Resolved(value: T) | Rejected

  /** The request for one file: the name is quoted inside the prompt, and the schema
      requires exactly the three fields of AnalysisResult. */
  function BuildRequest(fileName: string): (req: Request)
    ensures |req.contents| == |PromptHead| + |fileName| + |PromptTail|
    ensures req.contents[|PromptHead|..|PromptHead| + |fileName|] == fileName
    ensures req.properties == req.required == FieldNames
    ensures req.model == ModelName && req.responseMimeType == ResponseMimeType
  {
    var contents := PromptHead + fileName + PromptTail;
    assert contents[|PromptHead|..|PromptHead| + |fileName|] == fileName;
    Request(ModelName, contents, ResponseMimeType, FieldNames, FieldNames)
  }

  /** `response.text || "{}"`: a missing or empty text is replaced by "{}". */
  function ResponseBody(text: Option<string>): (body: string)
    ensures body != ""
    ensures text.Some? && text.value != "" ==> body == text.value
    ensures text.None? || text.value == "" ==> body == "{}"
  {
    if text.Some? && text.value != "" then text.value else "{}"
  }

  /** What the client returns when the response text does not parse. */
  function ClientFallback(): (r: AnalysisResult)
    ensures Conforms(ToJson(r))
    ensures r.releaseNotes != "" && r.securitySummary != "" && r.marketingCopy != ""
  {
    AnalysisResult(
      "Minor bug fixes and performance improvements.",
      "Safe to install. No harmful permissions detected.",
      "The latest version of your favorite app is here!")
  }

  /** analyzeAppFile. The promise rejects exactly when the service call throws; otherwise
      it resolves to whatever the body parses to, unchecked, or to the client fallback
      when the body does not parse. */
  function Analyze(fileName: string, service: Request -> ServiceOutcome,
                   parse: string -> Option<Value>): (r: Settled<Value>)
    ensures r.Rejected? <==> service(BuildRequest(fileName)).Threw?
    ensures r.Resolved? ==>
      var body := ResponseBody(service(BuildRequest(fileName)).text);
      parse(body) == Some(r.value) || (parse(body) == None && r.value == ToJson(ClientFallback()))
  {
    match service(BuildRequest(fileName))
    case Threw => Rejected
    case Returned(text) =>
      match parse(ResponseBody(text))
      case Some(data) => Resolved(data)
      case None => Resolved(ToJson(ClientFallback()))
  }

  /** A parsed value is returned as it is, whether or not it has the AnalysisResult shape:
      `as AnalysisResult` checks nothing. */
  lemma ParsedValueReturnedUnchecked(fileName: string, service: Request -> ServiceOutcome,
                                     parse: string -> Option<Value>, text: Option<string>, v: Value)
    requires service(BuildRequest(fileName)) == Returned(text)
    requires parse(ResponseBody(text)) == Some(v)
    ensures Analyze(fileName, service, parse) == Resolved(v)
  {
  }

  /** A body that does not parse yields the client fallback, which does conform. */
  lemma UnparseableGivesClientFallback(fileName: string, service: Request -> ServiceOutcome,
                                       parse: string -> Option<Value>, text: Option<string>)
    requires service(BuildRequest(fileName)) == Returned(text)
    requires parse(ResponseBody(text)) == None
    ensures Analyze(fileName, service, parse) == Resolved(ToJson(ClientFallback()))
    ensures Conforms(Analyze(fileName, service, parse).value)
  {
    JsonRoundTrip(ClientFallback());
  }

  /** A missing or empty text becomes "{}", which parses: the fallback is not used and the
      resolved value has none of the three fields. */
  lemma EmptyTextGivesEmptyObject(fileName: string, service: Request -> ServiceOutcome,
                                  parse: string -> Option<Value>)
    requires parse("{}") == Some(EmptyObject)
    requires var out := service(BuildRequest(fileName));
      out.Returned? && (out.text.None? || out.text.value == "")
    ensures var r := Analyze(fileName, service, parse);
      r == Resolved(EmptyObject) && r.value != ToJson(ClientFallback()) && !Conforms(r.value)
    ensures forall f :: f in FieldNames ==> f !in Analyze(fileName, service, parse).value.fields
  {
  }

  // ---------------------------------------------------------------------------
  // The client as evidently intended: a parsed value that lacks the AnalysisResult
  // shape is treated like an unparseable body.
  // ---------------------------------------------------------------------------

  /** analyzeAppFile with the shape check the cast omits. */
  function AnalyzeChecked(fileName: string, service: Request -> ServiceOutcome,
                          parse: string -> Option<Value>): (r: Settled<Value>)
    ensures r.Rejected? <==> service(BuildRequest(fileName)).Threw?
    ensures r.Resolved? ==> Conforms(r.value)
  {
    match service(BuildRequest(fileName))
    case Threw => Rejected
    case Returned(text) =>
      match parse(ResponseBody(text))
      case Some(data) =>
        if Conforms(data) then Resolved(data)
        else JsonRoundTrip(ClientFallback()); Resolved(ToJson(ClientFallback()))
      case None => JsonRoundTrip(ClientFallback()); Resolved(ToJson(ClientFallback()))
  }

  /** The checked client differs from the one as written only where the parsed value does
      not have the AnalysisResult shape. */
  lemma CheckedAgreesOnConformingValues(fileName: string, service: Request -> ServiceOutcome,
                                        parse: string -> Option<Value>)
    ensures var r := Analyze(fileName, service, parse);
      (r.Rejected? || Conforms(r.value)) <==> AnalyzeChecked(fileName, service, parse) == r
  {
    JsonRoundTrip(ClientFallback());
  }
}

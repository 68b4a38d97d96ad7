/** The records and the step enumeration shared by the controller and the client
    (types.ts), plus the meaning of the cast `data as AnalysisResult`. */
module Types {
  import opened Json

  /** The four screens of the upload flow. */
  datatype AppStep = Idle | Uploading | Analyzing | Success

  /** Position of a step in the forward order Idle < Uploading < Analyzing < Success. */
  function StepRank(s: AppStep): (r: nat)
    ensures s == Idle <==> r == 0
    ensures s == Uploading <==> r == 1
    ensures s == Analyzing <==> r == 2
    ensures s == Success <==> r == 3
  {
    match s
    case Idle => 0
    case Uploading => 1
    case Analyzing => 2
    case Success => 3
  }

  /** The human-readable size. `ZeroBytes` is the literal "0 Bytes"; `Scaled` is
      `bytes / 1024^exponent`, rounded to two decimals, followed by a space and `unit`. */
  datatype SizeLabel = ZeroBytes | Scaled(bytes: nat, exponent: nat, unit: string)

  datatype AppMetadata = AppMetadata(
    name: string,
    version: string,
    size: SizeLabel,
    fileType: string,
    uploadDate: string)

  datatype AnalysisResult = AnalysisResult(
    releaseNotes: string,
    securitySummary: string,
    marketingCopy: string)

  /** The three field names both the schema and the record use. */
  const FieldNames: seq<string> := ["releaseNotes", "securitySummary", "marketingCopy"]

  /** The JSON object whose three fields are the record's strings. */
  function ToJson(a: AnalysisResult): (j: Value)
    ensures j.JObject? && j.fields.Keys == {"releaseNotes", "securitySummary", "marketingCopy"}
  {
    JObject(map[
      "releaseNotes" := JString(a.releaseNotes),
      "securitySummary" := JString(a.securitySummary),
      "marketingCopy" := JString(a.marketingCopy)])
  }

  /** True when `j` really has the shape the cast claims: an object whose three fields
      are strings. The cast itself never checks this. */
  predicate Conforms(j: Value)
  {
    j.JObject?
    && "releaseNotes" in j.fields && j.fields["releaseNotes"].JString?
    && "securitySummary" in j.fields && j.fields["securitySummary"].JString?
    && "marketingCopy" in j.fields && j.fields["marketingCopy"].JString?
  }

  /** The record a conforming value denotes. */
  function FromJson(j: Value): (r: AnalysisResult)
    requires Conforms(j)
  {
    AnalysisResult(
      j.fields["releaseNotes"].s,
      j.fields["securitySummary"].s,
      j.fields["marketingCopy"].s)
  }

  /** Every record converts to a conforming value and back to itself. */
  lemma JsonRoundTrip(a: AnalysisResult)
    ensures Conforms(ToJson(a)) && FromJson(ToJson(a)) == a
  {
  }

  /** Two records with the same JSON form are the same record. */
  lemma ToJsonInjective(a: AnalysisResult, b: AnalysisResult)
    ensures ToJson(a) == ToJson(b) <==> a == b
  {
    if ToJson(a) == ToJson(b) {
      JsonRoundTrip(a);
      JsonRoundTrip(b);
    }
  }
}

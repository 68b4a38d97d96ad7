/** The upload-flow controller of App.tsx: the component's four state slots and the
    handlers that update them. `SelectFile` runs the three phases of handleFileSelect;
    the 2000 ms delay is the boundary between the first and the second. */
module AppFlow {
  import opened Wrappers
  import opened Json
  import opened Types
  import opened FileInfo
  import opened AnalysisClient

  /** The version every upload is labelled with. */
  const Version: string := "1.0.0"

  /** What the controller stores when the analysis promise rejects. */
  function ControllerFallback(): (r: AnalysisResult)
    ensures Conforms(ToJson(r))
    ensures r.releaseNotes != "" && r.securitySummary != "" && r.marketingCopy != ""
  {
    AnalysisResult(
      "Minor updates and stability improvements.",
      "Scanned for common vulnerabilities.",
      "Download the latest version now.")
  }

  /** The metadata derived from the chosen file and today's date. */
  function MakeMetadata(name: string, bytes: nat, today: string): (m: AppMetadata)
    ensures m.name == name && m.version == "1.0.0" && m.uploadDate == today
    ensures m.fileType != "" && '.' !in m.fileType
    ensures m.size == ZeroBytes <==> bytes == 0
  {
    AppMetadata(name, Version, FormatFileSize(bytes), FileType(name), today)
  }

  /** The `analysis` slot after the analysis promise settles. A resolved JSON null is
      stored as it is, which reads as an empty slot. */
  function SettledAnalysis(outcome: Settled<Value>): (a: Option<Value>)
    ensures outcome.Rejected? ==> a.Some? && Conforms(a.value)
    ensures a.None? <==> outcome == Resolved(JNull)
    ensures outcome.Resolved? && a.Some? ==> a.value == outcome.value
  {
    match outcome
    case Resolved(result) => if result == JNull then None else Some(result)
    case Rejected => Some(ToJson(ControllerFallback()))
  }

  /** The `analysis` slot at the end of a selection of `fileName`. */
  function FinalAnalysis(fileName: string, service: Request -> ServiceOutcome,
                         parse: string -> Option<Value>): Option<Value>
  {
    SettledAnalysis(Analyze(fileName, service, parse))
  }

  class App {
    var step: AppStep
    var metadata: Option<AppMetadata>
    var analysis: Option<Value>
    var error: Option<string>

    /** The states the flow can reach: the error slot is always empty, nothing is held
        before the upload finishes, the metadata is held from ANALYZING on, and the
        analysis only once the flow has reached SUCCESS. */
    ghost predicate Valid()
      reads this
      ensures Valid() && analysis.Some? ==> step == Success && metadata.Some?
      ensures Valid() && step != Idle ==> step == Uploading || metadata.Some?
    {
      && error == None
      && (step == Idle || step == Uploading ==> metadata == None && analysis == None)
      && (step == Analyzing ==> metadata.Some? && analysis == None)
      && (step == Success ==> metadata.Some?)
    }

    constructor ()
      ensures Valid()
      ensures step == Idle && metadata == None && analysis == None && error == None
    {
      step, metadata, analysis, error := Idle, None, None, None;
    }

    /** reset: back to IDLE with every slot cleared, from whatever state. */
    method Reset()
      modifies this
      ensures Valid()
      ensures step == Idle && metadata == None && analysis == None && error == None
    {
      step := Idle;
      metadata := None;
      analysis := None;
      error := None;
    }

    /** The first phase of handleFileSelect: clear the error and show UPLOADING. */
    method BeginUpload()
      requires Valid() && step == Idle
      modifies this
      ensures Valid()
      ensures step == Uploading && StepRank(step) == StepRank(old(step)) + 1
      ensures error == None && metadata == old(metadata) && analysis == old(analysis)
    {
      error := None;
      step := Uploading;
    }

    /** The second phase, after the delay: store the metadata and show ANALYZING. */
    method FinishUpload(name: string, bytes: nat, today: string)
      requires Valid() && step == Uploading
      modifies this
      ensures Valid()
      ensures step == Analyzing && StepRank(step) == StepRank(old(step)) + 1
      ensures metadata == Some(MakeMetadata(name, bytes, today))
      ensures analysis == old(analysis) && error == old(error)
    {
      metadata := Some(MakeMetadata(name, bytes, today));
      step := Analyzing;
    }

    /** The third phase: whichever way the analysis promise settles, store an analysis
        and show SUCCESS. */
    method Settle(outcome: Settled<Value>)
      requires Valid() && step == Analyzing
      modifies this
      ensures Valid()
      ensures step == Success && StepRank(step) == StepRank(old(step)) + 1
      ensures analysis == SettledAnalysis(outcome)
      ensures metadata == old(metadata) && error == old(error)
    {
      match outcome {
        case Resolved(result) =>
          analysis := if result == JNull then None else Some(result);
          step := Success;
        case Rejected =>
          analysis := Some(ToJson(ControllerFallback()));
          step := Success;
      }
    }

    /** handleFileSelect from IDLE: it always ends in SUCCESS with no error, holding the
        new file's metadata and the analysis the two fallback layers decide. */
    method SelectFile(name: string, bytes: nat, today: string,
                      service: Request -> ServiceOutcome, parse: string -> Option<Value>)
      requires Valid() && step == Idle
      modifies this
      ensures Valid()
      ensures step == Success && error == None
      ensures metadata == Some(MakeMetadata(name, bytes, today))
      ensures analysis == FinalAnalysis(name, service, parse)
    {
      BeginUpload();
      FinishUpload(name, bytes, today);
      var result := Analyze(name, service, parse);
      Settle(result);
    }
  }

  // ---------------------------------------------------------------------------
  // Which analysis the user sees.
  // ---------------------------------------------------------------------------

  /** The two fallback triples differ in every field. */
  lemma FallbacksDiffer()
    ensures ControllerFallback().releaseNotes != ClientFallback().releaseNotes
    ensures ControllerFallback().securitySummary != ClientFallback().securitySummary
    ensures ControllerFallback().marketingCopy != ClientFallback().marketingCopy
    ensures ToJson(ControllerFallback()) != ToJson(ClientFallback())
  {
    var ours, theirs := ControllerFallback(), ClientFallback();
    assert |ours.releaseNotes| != |theirs.releaseNotes|;
    assert |ours.securitySummary| != |theirs.securitySummary|;
    assert |ours.marketingCopy| != |theirs.marketingCopy|;
    ToJsonInjective(ControllerFallback(), ClientFallback());
  }

  /** A throwing service call ends with the controller's fallback. */
  lemma ServiceFailureGivesControllerFallback(fileName: string, service: Request -> ServiceOutcome,
                                              parse: string -> Option<Value>)
    requires service(BuildRequest(fileName)).Threw?
    ensures FinalAnalysis(fileName, service, parse) == Some(ToJson(ControllerFallback()))
  {
  }

  /** A body that does not parse ends with the client's fallback. */
  lemma ParseFailureGivesClientFallback(fileName: string, service: Request -> ServiceOutcome,
                                        parse: string -> Option<Value>)
    requires var out := service(BuildRequest(fileName));
      out.Returned? && parse(ResponseBody(out.text)) == None
    ensures FinalAnalysis(fileName, service, parse) == Some(ToJson(ClientFallback()))
  {
  }

  /** A resolved value other than JSON null is stored exactly. */
  lemma ResolvedValueStored(fileName: string, service: Request -> ServiceOutcome,
                            parse: string -> Option<Value>, v: Value)
    requires Analyze(fileName, service, parse) == Resolved(v) && v != JNull
    ensures FinalAnalysis(fileName, service, parse) == Some(v)
  {
  }

  /** The analysis slot is empty at the end only when the service's body parsed to null. */
  lemma FinalAnalysisPresent(fileName: string, service: Request -> ServiceOutcome,
                             parse: string -> Option<Value>)
    ensures FinalAnalysis(fileName, service, parse).None? <==>
      var out := service(BuildRequest(fileName));
      out.Returned? && parse(ResponseBody(out.text)) == Some(JNull)
  {
  }

  /** Seeing the controller's fallback means the service threw, or its body parsed to that
      very triple; seeing the client's means the body did not parse, or parsed to that
      very triple. */
  lemma FallbackIdentifiesLayer(fileName: string, service: Request -> ServiceOutcome,
                                parse: string -> Option<Value>)
    ensures var out := service(BuildRequest(fileName));
      FinalAnalysis(fileName, service, parse) == Some(ToJson(ControllerFallback())) <==>
        out.Threw? || parse(ResponseBody(out.text)) == Some(ToJson(ControllerFallback()))
    ensures var out := service(BuildRequest(fileName));
      FinalAnalysis(fileName, service, parse) == Some(ToJson(ClientFallback())) <==>
        out.Returned? && parse(ResponseBody(out.text)) in {None, Some(ToJson(ClientFallback()))}
  {
    FallbacksDiffer();
  }

  /** With the checked client the user always sees an analysis of the right shape. */
  lemma CheckedClientAlwaysGivesAnalysis(fileName: string, service: Request -> ServiceOutcome,
                                         parse: string -> Option<Value>)
    ensures var a := SettledAnalysis(AnalyzeChecked(fileName, service, parse));
      a.Some? && Conforms(a.value)
  {
    JsonRoundTrip(ControllerFallback());
  }

  /** A service that answers with the text "null": the flow reaches SUCCESS with the
      analysis slot empty, so the result screen has nothing to show. */
  method NullBodyScenario() returns (step: AppStep, metadata: Option<AppMetadata>,
                                     analysis: Option<Value>)
    ensures step == Success && metadata.Some? && analysis == None
  {
    var app := new App();
    var service := (req: Request) => Returned(Some("null"));
    var parse := (body: string) => if body == "null" then Some(JNull) else None;
    app.SelectFile("MyApp-2.0.apk", 1536, "10/17/2026", service, parse);
    step, metadata, analysis := app.step, app.metadata, app.analysis;
  }
}

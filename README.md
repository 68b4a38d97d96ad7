# App upload flow — a Dafny model

This project models the logic core of a small web front end for sharing mobile app
builds. The user picks an `.apk`, `.ipa` or `.zip` file. The page pretends to upload it,
derives metadata from the file name and size, and asks a text-generation service for
release notes, a security blurb and a marketing line. It then shows a result screen.
Two fallback layers make sure the user always reaches that screen:

- The **analysis client** (`services/geminiService.ts`) catches a response body that
  does not parse as JSON. It returns its own fallback triple.
- The **flow controller** (`App.tsx`) catches a failed service call. It stores a
  different fallback triple.

Modules, one per source unit:

- `Wrappers` holds `Option`. It stands for the source's `T | null` state slots.
- `Json` holds the shape of a value returned by `JSON.parse`.
- `Types` holds the records and the step enumeration of `types.ts`. It also says what
  it means for a JSON value to really have the `AnalysisResult` shape. The source's
  `as AnalysisResult` is a cast and never checks that shape.
- `FileInfo` holds the two pure derivations in `App.tsx`. The first is the file type,
  `name.split('.').pop() || 'unknown'`. The second is the size unit.
- `AnalysisClient` models `analyzeAppFile`. The service and `JSON.parse` are parameters.
- `AppFlow` holds class `App`. Its fields are the component's four state slots: `step`,
  `metadata`, `analysis` and `error`. Its methods are `Reset` and `SelectFile`.
  `SelectFile` runs the three phases of `handleFileSelect`: `BeginUpload`,
  `FinishUpload` and `Settle`.

`App.Valid()` is the reachable-state invariant. It says:

- the error slot is always empty;
- nothing is held before the upload finishes;
- the metadata is held from ANALYZING on;
- an analysis is held only once the flow has reached SUCCESS.

`SelectFile` requires IDLE. The upload zone ignores clicks while loading
(components/UploadZone.tsx:25), and it is not rendered on the result screen
(App.tsx:68), so a selection can only start from IDLE. Every phase moves the step
exactly one place forward. Only `Reset` moves it back.

The state after `SelectFile` depends only on the new file, the date and the service's
answer, never on an earlier selection. So a second selection after a reset fully
replaces the metadata and the analysis.

Two behaviours of the code are easy to misread. This model follows the code in both:

- A name without any `.` gets the whole name as its type (`FileInfo.FileTypeWithoutDot`),
  not `unknown`. `unknown` appears only for the empty name and for names ending in `.`.
- The client does not validate the parsed response. A missing or empty text becomes
  `"{}"`, which parses to an object with none of the three fields. That object is
  returned as it is (`AnalysisClient.EmptyTextGivesEmptyObject`).

## Model

| member | source | states |
|---|---|---|
| `Types.StepRank` | types.ts:16-21 | IDLE, UPLOADING, ANALYZING and SUCCESS have ranks 0, 1, 2 and 3, each step alone at its rank, which is the flow's forward order |
| `Types.JsonRoundTrip` | types.ts:10-14 | an AnalysisResult written as a JSON object with its three string fields has the AnalysisResult shape and reads back as the same record |
| `Types.ToJsonInjective` | types.ts:10-14 | two records have the same JSON form exactly when they are equal |
| `FileInfo.Split` | App.tsx:34 | `split('.')` always gives at least one part; what the parts are is stated by SplitProperties |
| `FileInfo.SplitProperties` | App.tsx:34 | `split('.')` gives at least one part; no part holds the separator; joining the parts with it gives the name back; there is more than one part exactly when the name holds a `.` |
| `FileInfo.SplitJoin` | App.tsx:34 | splitting the join of separator-free parts gives those parts back, so split and join are inverse |
| `FileInfo.SplitLastIsLastSegment` | App.tsx:34 | `pop()` of the split is the suffix after the last `.`, or the whole name when there is no `.` |
| `FileInfo.FileTypeIsLastSegment` | App.tsx:34 | the type is the last `.`-segment, or `unknown` exactly when that segment is empty; the segment is empty exactly for the empty name and for names ending in `.` |
| `FileInfo.FileTypeWithoutDot` | App.tsx:34 | a non-empty name without `.` is its own type |
| `FileInfo.FileType` | App.tsx:34 | `name.split('.').pop() \|\| 'unknown'`: for every name the type is never empty and never contains `.` |
| `FileInfo.FileTypeOfApk` | App.tsx:34 | "app.apk" has type "apk" |
| `FileInfo.FileTypeOfDoubleExtension` | App.tsx:34 | "bundle.tar.zip" has type "zip" |
| `FileInfo.FileTypeOfTrailingDot` | App.tsx:34 | "build." has type "unknown" |
| `FileInfo.UnitIndex` | App.tsx:17-19 | for a positive size, the unit index i satisfies 1024^i <= bytes < 1024^(i+1) |
| `FileInfo.UnitIndexUnique` | App.tsx:19 | only one exponent brackets a positive size, so the unit choice is determined |
| `FileInfo.UnitLabel` | App.tsx:18-20 | `sizes[i]` inside the string concatenation: a unit from the four-entry table for i below 4, and "undefined" exactly when i is 4 or more |
| `FileInfo.FormatFileSize` | App.tsx:15-21 | the size label is "0 Bytes" exactly when the size is 0; otherwise it scales this very byte count |
| `FileInfo.FormatFileSizeUnit` | App.tsx:17-20 | a size with 1024^i <= bytes < 1024^(i+1) is shown with exponent i and unit `sizes[i]` |
| `FileInfo.FormatFileSizePastTable` | App.tsx:18-20 | from 1024^4 bytes on, the index runs past the four-entry unit table, and the unit reads "undefined" |
| `FileInfo.FormatFileSizeExamples` | App.tsx:15-20 | 0 gives "0 Bytes"; 1023 gives Bytes; 1024 and 1536 give KB; 1048576 gives MB; 1073741824 gives GB |
| `AnalysisClient.BuildRequest` | services/geminiService.ts:8-29 | the prompt quotes the file name at a fixed offset; the schema's properties and required fields are exactly the three AnalysisResult fields; the request asks for JSON from the fixed model |
| `AnalysisClient.ResponseBody` | services/geminiService.ts:32 | the text handed to JSON.parse is never empty: it is the response text, or "{}" when that text is missing or empty |
| `AnalysisClient.ClientFallback` | services/geminiService.ts:36-40 | the client fallback triple has the AnalysisResult shape and three non-empty texts |
| `AnalysisClient.Analyze` | services/geminiService.ts:7-42 | the promise rejects exactly when the service call throws; otherwise it resolves to the parsed body, or to the client fallback when the body does not parse |
| `AnalysisClient.ParsedValueReturnedUnchecked` | services/geminiService.ts:32-33 | a parsed body is returned unchanged, whatever its shape |
| `AnalysisClient.UnparseableGivesClientFallback` | services/geminiService.ts:34-40 | a body that does not parse yields the client fallback triple, which has the AnalysisResult shape |
| `AnalysisClient.EmptyTextGivesEmptyObject` | services/geminiService.ts:32-33 | missing or empty text resolves to the empty object, not the fallback, and the value lacks all three fields |
| `AnalysisClient.AnalyzeChecked` | services/geminiService.ts:31-41 | corrected client: it rejects exactly when the service throws, and every resolved value has the AnalysisResult shape |
| `AnalysisClient.CheckedAgreesOnConformingValues` | services/geminiService.ts:32-33 | the corrected and the as-written client agree exactly when the as-written one rejects or returns a well-shaped value |
| `AppFlow.ControllerFallback` | App.tsx:47-51 | the controller fallback triple has the AnalysisResult shape and three non-empty texts |
| `AppFlow.MakeMetadata` | App.tsx:30-36 | the metadata keeps the file name and the date, has version "1.0.0", a type that is non-empty and dot-free, and the "0 Bytes" label exactly for an empty file |
| `AppFlow.SettledAnalysis` | App.tsx:41-51 | a rejection stores a well-shaped fallback; a resolved value is stored exactly; the slot is empty exactly when the promise resolved to JSON null |
| `AppFlow.App.Valid` | App.tsx:10-13 | in every reachable state the error is null; an analysis is held only in SUCCESS, together with metadata; past IDLE and UPLOADING the metadata is held |
| `AppFlow.App.constructor` | App.tsx:10-13 | the flow starts in IDLE with metadata, analysis and error all null |
| `AppFlow.App.Reset` | App.tsx:56-61 | from any state: IDLE with metadata, analysis and error null, and the invariant holds |
| `AppFlow.App.BeginUpload` | App.tsx:24-25 | from IDLE: the error is cleared, the step moves forward to UPLOADING, and nothing else changes |
| `AppFlow.App.FinishUpload` | App.tsx:28-39 | after the delay: the metadata (name, version "1.0.0", size label, type, date) is stored and the step moves forward to ANALYZING |
| `AppFlow.App.Settle` | App.tsx:40-53 | whether the analysis resolves or rejects, the step moves forward to SUCCESS; the analysis slot holds the resolved value or the controller fallback; the metadata and error stay as they were |
| `AppFlow.App.SelectFile` | App.tsx:23-54 | from IDLE, a selection always ends in SUCCESS with no error, the new file's metadata and the analysis that the two fallback layers decide |
| `AppFlow.FallbacksDiffer` | App.tsx:47-51 | the controller fallback differs from the client fallback in every field, so the two layers are distinguishable |
| `AppFlow.ServiceFailureGivesControllerFallback` | App.tsx:44-52 | if the service call throws, the user sees the controller fallback triple |
| `AppFlow.ParseFailureGivesClientFallback` | services/geminiService.ts:34-40 | if the body does not parse, the user sees the client fallback triple |
| `AppFlow.ResolvedValueStored` | App.tsx:41-43 | a resolved value other than JSON null is stored exactly |
| `AppFlow.FinalAnalysisPresent` | App.tsx:41-52 | after a selection the analysis slot (not the screen) is empty exactly when the service's body parsed to JSON null |
| `AppFlow.FallbackIdentifiesLayer` | App.tsx:44-52 | the final analysis is the controller fallback exactly when the service threw or echoed that triple; it is the client fallback exactly when the body did not parse or echoed that triple |
| `AppFlow.CheckedClientAlwaysGivesAnalysis` | App.tsx:40-53 | with the corrected client, SUCCESS always holds a well-shaped analysis |
| `AppFlow.NullBodyScenario` | App.tsx:40-43 | a service answering with the text "null" leaves the flow in SUCCESS with metadata but no analysis |

## Left out

- The rendering is not modelled. This covers all of components/ and the markup in
  App.tsx:63-148. It is presentation only. The upload zone contributes only the IDLE
  precondition of `SelectFile`.
- The share link, the clipboard and the copy timer in components/ResultView.tsx are not
  modelled. They are random, browser I/O or timing.
- The 2000 ms delay (App.tsx:28) is not modelled. It is the boundary between
  `BeginUpload` and `FinishUpload`.
- The date is a parameter of `SelectFile`. It stands for `new Date().toLocaleDateString()`,
  which is a clock and locale call.
- The generateContent client and JSON.parse are parameters, because they are a foreign
  network call and a foreign parser. The only assumption made about the parser is that
  "{}" parses to the empty object, and only where a lemma needs it. The prompt text is
  data: nothing about the service's answer depends on it here.
- `console.error` logging (App.tsx:45, services/geminiService.ts:35) is not modelled. It is
  a side effect only.
- Overlapping selections and async interleaving are not modelled. The IDLE guard makes
  them unreachable.
- FileInfo.FormatFileSize: the displayed magnitude (`bytes / 1024^i`, `toFixed(2)`,
  `parseFloat`) is kept as the byte count and exponent, not rendered as text. The
  exponent is the exact integer floor of log base 1024. The source computes it with
  floating-point `Math.log`, which may round differently at exact powers of 1024.
- AppFlow.App.Valid: holds the analysis in SUCCESS only as the source does. A body that
  parses to JSON null leaves it empty (see Findings).
- Json.Value: numbers are reals. Parse failures are a single `None`, with no error
  detail.

## Findings

| source | as written | input that shows it | evidently intended | confidence | as-written member | corrected member |
|---|---|---|---|---|---|---|
| services/geminiService.ts:32-33 | the parsed body is returned through a type cast with no shape check; a body that parses to JSON `null` resolves to `null`, App.tsx:42-43 stores it and shows SUCCESS, and App.tsx:121 then renders nothing, not even the reset button. App.tsx:121 tests the slot for truthiness, so a body parsing to `false` or to the empty JSON string also leaves a blank SUCCESS screen, and `0` shows a bare "0"; the model stores those as present values and exhibits the `null` case | the service returns the text `null` | a body that is not an object with the three string fields is treated like an unparseable one, so SUCCESS always has an analysis to show | low: the service is asked for a schema-conforming object, so it must ignore its schema first; not executed | `AppFlow.NullBodyScenario` | `AnalysisClient.AnalyzeChecked` |

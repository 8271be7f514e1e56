# VibeCheck generation client and model catalog, in Dafny

VibeCheck sends one prompt to several Gemini model configurations and shows their
outputs side by side. This project models the parts of it that have real logic and
can be read in full:

- the **generation client** (`src/lib/llm.js`): the attempt loop with at most five
  attempts and exponential backoff (base 1233 ms); cancellation by an `AbortError`;
  the rethrow of the last failure; the request it builds (configuration, safety
  settings, content parts); the parse of an input image data URI; the normalisation
  of a response into text or an image data URI;
- the **model catalog** (`src/lib/models.js`) and the selection rules the interface
  applies to it: the models offered per output mode (`App.jsx`), the batch-model
  reset when a preset is picked (`Intro.jsx`), and the "N selected" count of versus
  mode (`App.jsx`).

The network call is replaced by abstract outcomes. `Generation.Generate` receives one
`AttemptOutcome` per possible attempt. Each outcome says whether the try block
reached `return Promise.race(...)` (and how that race settles: a response, an API
error, or the 193333 ms timeout) or threw before reaching it. The method returns the
settlement of the call, the delays it slept and the number of attempts made.

The try block returns the raced promise without awaiting it. So the catch block
only sees errors thrown before the `return`. A rejection of the race settles the
whole call directly and is never retried: a timeout, an API error, a response
without image data, or an `AbortError` raised by the API. This model follows the
code here. The catch block's `AbortError` test and its backoff only make sense
for rejections of the race (nothing before the `return` is awaited), yet as
written they never see one. The parameter `awaitsRace` of
`Generation.Generate` selects either the code as written (`false`) or the awaited
variant (`true`); see "Findings".

Modules: `Js` (JavaScript `indexOf`, `substring`, `split`; `Join` as the inverse of
`Split`), `DataUri`, `Models`, `Selection`, `Request`, `Response`, `Generation`.

## Model

| member | source | states |
|---|---|---|
| `Js.IndexOf` | src/lib/llm.js:50 | -1 exactly when the character is absent; otherwise the position of its first occurrence |
| `Js.IndexOfAt` | src/lib/llm.js:50 | an occurrence with none before it is the index `indexOf` returns |
| `Js.Substring` | src/lib/llm.js:50 | `substring` clamps both bounds into [0, length] and swaps them when reversed: every combination of a bound below, inside or past the string is stated (for instance `"abc".substring(5, -1)` is `"abc"`) |
| `Js.Split` | src/lib/llm.js:49 | `split` yields at least one piece, and exactly one when the separator is absent |
| `Js.SplitPiecesOmitSeparator` | src/lib/llm.js:49 | no piece of a split contains the separator |
| `Js.JoinSplit` | src/lib/llm.js:49 | joining the pieces of a split at the separator gives back the string |
| `Js.SplitJoin` | src/lib/llm.js:49 | splitting a join of separator-free pieces gives back the pieces |
| `DataUri.Build` | src/lib/llm.js:70 | the URI is `data:`, the mime type, `;base64,` and the payload, in that order and nothing else |
| `DataUri.MimeType` | src/lib/llm.js:50 | the mime-type parse of an input image; with no ';' it returns the first five characters |
| `DataUri.Payload` | src/lib/llm.js:49 | the payload parse is undefined exactly when the URI has no ',' |
| `DataUri.BuildSplitsAtComma` | src/lib/llm.js:70 | the built `data:<mime>;base64,<data>` splits at ',' into its head and the payload |
| `DataUri.ParseBuild` | src/lib/llm.js:49-50 | parsing a built data URI as an input image recovers the mime type and the payload |
| `DataUri.HeadMimeType` | src/components/ModelOutput.jsx:29 | the `split(':')[1].split(';')[0]` step is undefined exactly when the head has no ':', and its result never contains ';' |
| `DataUri.HeadMimeTypeOfBuilt` | src/components/ModelOutput.jsx:29 | the head `data:<mime>;base64` of a built URI yields the mime type back when it has neither ';' nor ':' |
| `DataUri.ClipboardMimeType` | src/components/ModelOutput.jsx:29 | the clipboard's mime-type parse is undefined exactly when the part before the first ',' has no ':', and its result never contains ';' |
| `DataUri.ClipboardParseBuild` | src/components/ModelOutput.jsx:28-29 | the clipboard's mime-type parse of a built data URI recovers the mime type when it has no ':' |
| `Models.KeysListCatalog` | src/lib/models.js:5-47 | the catalog has five keys, listed once each in the order `lite, flash, flashThinking, pro, flashImage` |
| `Models.CatalogSize` | src/lib/models.js:5-47 | the catalog has exactly as many entries as its key list, five |
| `Models.OnlyFlashImageOutputsImages` | src/lib/models.js:38-46 | only `flashImage` has `imageOutput` true; every other entry omits the flag |
| `Models.OnlyFlashImageCannotThink` | src/lib/models.js:5-47 | only `flashImage` has `thinkingCapable` false |
| `Selection.FilterEligible` | src/components/App.jsx:195-196 | the filter never lengthens the list |
| `Selection.FilterMembership` | src/components/App.jsx:195-196 | the filter keeps a key exactly when the key is eligible for the mode |
| `Selection.ModelChoices` | src/components/App.jsx:195-196 | a catalog key is offered in a mode exactly when it is eligible for that mode |
| `Selection.FilterAppend` | src/components/App.jsx:195-196 | filtering keeps catalog order: it distributes over concatenation |
| `Selection.FilterKeepsEligible` | src/components/App.jsx:195-196 | a list whose keys are all eligible passes the filter unchanged |
| `Selection.FilterDropsIneligible` | src/components/App.jsx:195-196 | a list with no eligible key filters to nothing |
| `Selection.ModelChoicesByMode` | src/components/App.jsx:195-196 | image mode offers `[flashImage]`; every other mode offers `[lite, flash, flashThinking, pro]` |
| `Selection.ChoicesPartitionCatalog` | src/components/App.jsx:196 | the image-mode choices and those of any other mode are disjoint and together cover the catalog |
| `Selection.FirstImageKey` | src/components/Intro.jsx:55 | `find` returns the first key whose entry outputs images, and nothing only when no entry does |
| `Selection.FirstImageKeyOfCatalog` | src/components/Intro.jsx:55 | the first image-output key of the catalog is `flashImage` |
| `Selection.ChoosePreset` | src/components/Intro.jsx:50-61 | the preset's mode is always selected; image mode forces batch mode with `flashImage`; otherwise an image-output batch model becomes `flash` and any other is kept; a batch model that is not a catalog key throws the `TypeError` of reading `imageOutput` from `undefined` after the mode change, leaving batch mode and batch model as they were and adding no round |
| `Selection.PresetKeepsBatchModelOffered` | src/components/Intro.jsx:50-59 | after a preset click that does not throw, the batch model is one of the models the new mode offers |
| `Selection.SelectedKeys` | src/components/App.jsx:190 | the filter keeps exactly the keys whose flag is set |
| `Selection.SelectedCount` | src/components/App.jsx:190-191 | the count is at most the number of keys, and zero exactly when no flag is set |
| `Selection.SelectedKeysCardinality` | src/components/App.jsx:190-191 | for distinct keys the count equals the size of the set of keys with the flag set |
| `Selection.SelectedCountIsSetFlags` | src/components/App.jsx:190-191 | the "N selected" count is the number of flags that are set, so at most the number of keys |
| `Selection.SelectedCountAtMostCatalog` | src/components/App.jsx:190-191 | when only catalog keys are flagged, the count is at most five |
| `Selection.TwoOfThreeSelected` | src/components/App.jsx:190-191 | `{flash: true, pro: true, lite: false}` reads "2 selected" |
| `Request.BlockNothing` | src/lib/llm.js:95-100 | one setting per category, in order, each with threshold `BLOCK_NONE` |
| `Request.SafetySettingsBlockNothing` | src/lib/llm.js:95-100 | the four distinct harm categories are all set to `BLOCK_NONE` |
| `Request.BuildConfig` | src/lib/llm.js:31-40 | thinking budget 0 is sent iff the model is thinking-capable and thinking is off; `[TEXT, IMAGE]` modalities are sent iff image output is requested; system instruction and safety settings are passed as they are |
| `Request.ZeroBudgetOnlyForLiteAndFlash` | src/lib/llm.js:34-36 | with a catalog entry's flags, the zero budget is sent for `lite` and `flash` and no other model |
| `Request.ImagePart` | src/lib/llm.js:47-52 | an input image becomes an inline-data part whose `data` is undefined exactly when the string has no ','; without a ';' its mime type is the first five characters |
| `Request.BuildParts` | src/lib/llm.js:45-56 | one part without an image (absent or empty), two with one; the text part is always last, and the image part comes first |
| `Request.BuildParams` | src/lib/llm.js:29-59 | the call names the request's model and sends `BuildConfig`'s configuration (system instruction, safety settings, zero thinking budget exactly for a thinking-capable model with thinking off, `[TEXT, IMAGE]` exactly for image output) and one content holding `BuildParts`' parts: the input image part first when there is one, the prompt text last |
| `Request.PromptImageReachesApi` | src/lib/llm.js:45-55 | an input image `data:<mime>;base64,<data>` reaches the API as inline data (data, mime) ahead of the prompt text |
| `Response.FirstInline` | src/lib/llm.js:63-65 | `find` returns the first part carrying inline data, and nothing only when no part carries any |
| `Response.FirstCandidateParts` | src/lib/llm.js:63 | `candidates?.[0]?.content?.parts` is present exactly when every step of the chain is, and is then the first candidate's parts |
| `Response.ImageOf` | src/lib/llm.js:63-65 | no image exactly when the parts are missing or none carries inline data; otherwise the inline data of the first part that carries any |
| `Response.Normalize` | src/lib/llm.js:62-72 | text mode returns `res.text` as it is; image mode fails with "No image data in response" exactly when the first candidate has no inline part, and otherwise returns `data:<mime>;base64,<data>` built from the first inline part |
| `Response.NormalizedImageParses` | src/lib/llm.js:62-72 | the image data URI built from the first inline part parses back into that part's mime type and payload, for the client and for the clipboard |
| `Generation.Settle` | src/lib/llm.js:61-74 | the race settles with the timeout error, the API error, "No image data in response", the response text in text mode, or in image mode the data URI built from the first inline part |
| `Generation.Caught` | src/lib/llm.js:61-75 | as written the catch block sees only errors thrown before the `return`; awaited, it sees exactly the race's rejections, with the race's own error |
| `Generation.Final` | src/lib/llm.js:61-82 | a thrown `AbortError` gives no result and any other thrown error is rethrown; as written a returned race settles the call as it is; awaited, a fulfilled race is returned, and a rejected one gives no result for an `AbortError` and its error otherwise |
| `Generation.StopFrom` | src/lib/llm.js:23-90 | the loop ends on the first attempt that does not retry, or on the fifth; every attempt before it retried |
| `Generation.Backoffs` | src/lib/llm.js:84-85 | the sleep before attempt i+2 is `1233 * 2^i` |
| `Generation.Generate` | src/lib/llm.js:23-90 | makes between 1 and 5 attempts; ends on the attempt `StopFrom` names; sleeps the delays of the failed attempts before it and none after the last; settles with that attempt's race, no result on cancellation, or the caught error rethrown |
| `Generation.LastAttemptIs` | src/lib/llm.js:23-90 | the loop ends on attempt k exactly when all earlier attempts retried and k does not retry or is the fifth |
| `Generation.BackoffSchedule` | src/lib/llm.js:84-85 | the delays are 1233, 2466, 4932 and 9864 ms, each double the last, 18495 ms in all |
| `Generation.CaughtFailuresThenSuccess` | src/lib/llm.js:75-89 | four caught failures and then a response: the response's value is returned after the four delays |
| `Generation.LastCaughtFailureRethrown` | src/lib/llm.js:80-82 | five caught failures: the fifth error is rethrown unchanged |
| `Generation.CancellationEndsLoop` | src/lib/llm.js:76-78 | a caught `AbortError` on attempt k ends the loop there with no result |
| `Generation.ReturnedRaceSettlesCall` | src/lib/llm.js:61-74 | as written, the first attempt that reaches the `return` ends the loop with the race's settlement; every earlier attempt threw |
| `Generation.TimeoutEscapesRetry` | src/lib/llm.js:25-27 | as written, a timeout on the first attempt ends the loop on that attempt and rejects the call with the timeout error |
| `Generation.MissingImageEscapesRetry` | src/lib/llm.js:66-68 | as written, a first response without image data rejects the call after one attempt |
| `Generation.TimeoutRetriedWhenAwaited` | src/lib/llm.js:23-90 | awaited, five timeouts make five attempts with the four delays and reject with the timeout error |
| `Generation.MissingImageRetriedWhenAwaited` | src/lib/llm.js:66-68 | awaited, a response without image data is retried after 1233 ms, and a later image is returned |

## Left out

- The `GoogleGenAI` SDK call and the API key (src/lib/llm.js:11, 29): the network boundary. A call is an abstract `RaceOutcome`.
- The `p-limit` gate of 9 concurrent calls (src/lib/llm.js:13, 92): concurrency in a library whose code is not part of this model.
- The timers: the 193333 ms timeout race and the backoff sleep (src/lib/llm.js:25-27, 61, 85). They involve wall-clock time. The timeout is the `TimedOut` outcome; a sleep is its delay value.
- The `console.warn` after each sleep (src/lib/llm.js:86-88): logging.
- Round and output creation, insertion at the front, removal and reset: they live in `src/lib/actions` and `src/lib/store`, which are not part of this model. The versus target list of an `addRound` is therefore not modelled either.
- `src/lib/modes.js` is not part of this model. Intro lists presets only for modes whose `imageOutput` is falsy (Intro.jsx:38), so whether the `key === 'image'` branch can run is unknown. `Selection.ChoosePreset` models both branches. The `addRound(prompt)` that follows is not modelled.
- React rendering, hooks, DOM events, `FileReader`, the clipboard write, the theme, the elapsed-time display (`Date.now`, `toFixed`) and `lodash.shuffle` of presets: presentation, time and randomness.
- Generation.Generate: needs at least five outcomes, one per possible attempt. Outcomes that are not consumed are ignored. It returns the delays instead of sleeping. It does not say which request each attempt sends; that request is the same pure `Request.BuildParams` every time.
- Response.Normalize: inline data always carries string `mimeType` and `data`. The case where the template would print "undefined" for a missing field is not modelled.
- Strings are sequences of Unicode scalar values, while JavaScript's `indexOf`, `substring` and `split` count UTF-16 code units. The two agree on the ASCII data URIs the client handles; a surrogate pair within the first five code units would make `DataUri.MimeType`'s "first five characters" differ.
- Selection.ChoosePreset: a batch model named after an `Object.prototype` property (`toString`, `constructor`, `__proto__`, `valueOf`, ...) reads `undefined` from `models[batchModel].imageOutput` in the source, so nothing throws, the batch model is kept and the round is added; the model treats every non-catalog key as throwing. The interface only ever sets a catalog key as batch model (App.jsx:207, Intro.jsx:54-58).
- JavaScript truthiness is modelled only where the code depends on it: an empty or absent `promptImage`, an absent `imageOutput` key, an absent `inlineData`.

## Findings

| source | as written | input that shows it | evidently intended | confidence | as-written member | corrected member |
|---|---|---|---|---|---|---|
| src/lib/llm.js:61 | `return Promise.race(...)` inside the `try` is not awaited. Its rejections (timeout, API error, "No image data in response") bypass the `catch`, so they are never retried, and an `AbortError` from the API surfaces as an error instead of no result | first attempt outcome `Returned(TimedOut)`: the call rejects with the timeout error after one attempt and no delay | `return await Promise.race(...)`: every failure except an `AbortError` is retried, up to five attempts with the 1233·2^k delays | high; not executed | `Generation.TimeoutEscapesRetry` | `Generation.TimeoutRetriedWhenAwaited` |

`Generation.Generate` with `awaitsRace = true` is the corrected definition. The same
loop, invariants and lemmas (`LastCaughtFailureRethrown`, `CancellationEndsLoop`,
`CaughtFailuresThenSuccess`) hold for both settings. `MissingImageRetriedWhenAwaited`
shows the corrected behaviour for a response without image data.

/** The request the generation client hands to the model API on every attempt:
    its configuration (system instruction, safety settings, thinking budget,
    response modalities) and its content parts (an optional input image, then
    the prompt text). */
module Request {
  import opened Js
  import DataUri
  import Models

  /** What a caller passes to the generation client. A missing flag is `false`. */
  datatype GenerationRequest = GenerationRequest(
    model: string,
    systemInstruction: string,
    prompt: string,
    promptImage: Option<string>,
    imageOutput: bool,
    thinking: bool,
    thinkingCapable: bool)

  datatype Modality = TEXT | IMAGE

  datatype ThinkingConfig = ThinkingConfig(thinkingBudget: int)

  datatype SafetySetting = SafetySetting(category: string, threshold: string)

  /** The request configuration; `None` stands for a key the spread leaves out. */
  datatype GenerationConfig = GenerationConfig(
    systemInstruction: string,
    safetySettings: seq<SafetySetting>,
    thinkingConfig: Option<ThinkingConfig>,
    responseModalities: Option<seq<Modality>>)

  /** An input image part; `data` is `undefined` when the image string has no ','. */
  datatype InlineData = InlineData(data: Option<string>, mimeType: string)

  datatype Part = InlinePart(inlineData: InlineData) | TextPart(text: string)

  datatype Content = Content(parts: seq<Part>)

  datatype GenerateContentParams = GenerateContentParams(
    model: string,
    config: GenerationConfig,
    contents: seq<Content>)

  const HarmCategories: seq<string> := [
    "HARM_CATEGORY_HATE_SPEECH",
    "HARM_CATEGORY_SEXUALLY_EXPLICIT",
    "HARM_CATEGORY_DANGEROUS_CONTENT",
    "HARM_CATEGORY_HARASSMENT"
  ]

  const BlockNone := "BLOCK_NONE"

  /** `categories.map(category => ({category, threshold: 'BLOCK_NONE'}))`. */
  function BlockNothing(categories: seq<string>): (r: seq<SafetySetting>)
    ensures |r| == |categories|
    ensures forall i :: 0 <= i < |r| ==> r[i] == SafetySetting(categories[i], BlockNone)
  {
    if categories == [] then []
    else [SafetySetting(categories[0], BlockNone)] + BlockNothing(categories[1..])
  }

  const SafetySettings: seq<SafetySetting> := BlockNothing(HarmCategories)

  /** Every harm category is listed once, and none of them blocks anything. */
  lemma SafetySettingsBlockNothing()
    ensures |SafetySettings| == 4
    ensures forall i :: 0 <= i < |SafetySettings| ==> SafetySettings[i].threshold == BlockNone
    ensures forall i :: 0 <= i < |SafetySettings| ==> SafetySettings[i].category == HarmCategories[i]
    ensures Distinct(HarmCategories)
  {
  }

  /** The configuration object: the thinking budget is forced to 0 exactly for
      a thinking-capable model with thinking off, and both text and image are
      requested exactly when image output is. */
  function BuildConfig(req: GenerationRequest): (c: GenerationConfig)
    ensures c.systemInstruction == req.systemInstruction && c.safetySettings == SafetySettings
    ensures c.thinkingConfig.Some? <==> req.thinkingCapable && !req.thinking
    ensures c.thinkingConfig.Some? ==> c.thinkingConfig.value.thinkingBudget == 0
    ensures c.responseModalities.Some? <==> req.imageOutput
    ensures c.responseModalities.Some? ==> c.responseModalities.value == [TEXT, IMAGE]
  {
    GenerationConfig(
      req.systemInstruction,
      SafetySettings,
      if req.thinkingCapable && !req.thinking then Some(ThinkingConfig(0)) else None,
      if req.imageOutput then Some([TEXT, IMAGE]) else None)
  }

  /** The truthiness of `promptImage`: absent or empty means no image. */
  predicate HasImage(promptImage: Option<string>) {
    promptImage.Some? && promptImage.value != ""
  }

  /** The inline-data part made from an input image data URI. */
  function ImagePart(promptImage: string): (r: Part)
    ensures r.InlinePart?
    ensures r.inlineData.data.None? <==> ',' !in promptImage
    ensures ';' !in promptImage ==> r.inlineData.mimeType == promptImage[..if |promptImage| < 5 then |promptImage| else 5]
  {
    InlinePart(InlineData(DataUri.Payload(promptImage), DataUri.MimeType(promptImage)))
  }

  /** The content parts: the image part (when there is an image), then the text. */
  function BuildParts(prompt: string, promptImage: Option<string>): (r: seq<Part>)
    ensures |r| == if HasImage(promptImage) then 2 else 1
    ensures r[|r| - 1] == TextPart(prompt)
    ensures HasImage(promptImage) ==> r[0] == ImagePart(promptImage.value)
    ensures forall i :: 0 <= i < |r| - 1 ==> r[i].InlinePart?
  {
    (if HasImage(promptImage) then [ImagePart(promptImage.value)] else []) + [TextPart(prompt)]
  }

  /** The arguments of one `generateContent` call. */
  function BuildParams(req: GenerationRequest): (r: GenerateContentParams)
    ensures r.model == req.model && |r.contents| == 1
    ensures r.config == BuildConfig(req) && r.contents == [Content(BuildParts(req.prompt, req.promptImage))]
    ensures r.config.thinkingConfig.Some? <==> req.thinkingCapable && !req.thinking
    ensures r.config.responseModalities.Some? <==> req.imageOutput
    ensures |r.contents[0].parts| == (if HasImage(req.promptImage) then 2 else 1)
    ensures r.contents[0].parts[|r.contents[0].parts| - 1] == TextPart(req.prompt)
  {
    GenerateContentParams(
      req.model,
      BuildConfig(req),
      [Content(BuildParts(req.prompt, req.promptImage))])
  }

  /** An input image given as a data URI reaches the API as its own mime type
      and payload, ahead of the prompt text. */
  lemma PromptImageReachesApi(req: GenerationRequest, mimeType: string, data: string)
    requires req.promptImage == Some(DataUri.Build(mimeType, data))
    requires DataUri.Parsable(mimeType, data)
    ensures BuildParams(req).contents ==
      [Content([InlinePart(InlineData(Some(data), mimeType)), TextPart(req.prompt)])]
  {
    var uri := DataUri.Build(mimeType, data);
    assert uri[0] == 'd';
    DataUri.ParseBuild(mimeType, data);
    var parts := BuildParts(req.prompt, req.promptImage);
    assert parts[0] == InlinePart(InlineData(Some(data), mimeType));
    assert parts == [parts[0], parts[1]];
  }

  /** For a request carrying a catalog entry's thinking flags, the zero thinking
      budget is sent for `lite` and `flash` and for no other model. */
  lemma ZeroBudgetOnlyForLiteAndFlash(key: string, req: GenerationRequest)
    requires key in Models.Catalog
    requires req.thinking == Models.Catalog[key].thinking
    requires req.thinkingCapable == Models.Catalog[key].thinkingCapable
    ensures BuildConfig(req).thinkingConfig.Some? <==> key == "lite" || key == "flash"
  {
  }
}

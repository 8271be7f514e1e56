/** Normalisation of a model response: in image mode the first part carrying
    inline data becomes a data URI, and a response without one is an error; in
    text mode the response text is returned as it is. */
module Response {
  import opened Js
  import DataUri

  /** An inline image in a response: mime type and base64 payload. */
  datatype Blob = Blob(mimeType: string, data: string)

  datatype ResponsePart = ResponsePart(inlineData: Option<Blob>, text: Option<string>)

  datatype CandidateContent = CandidateContent(parts: Option<seq<ResponsePart>>)

  datatype Candidate = Candidate(content: Option<CandidateContent>)

  /** A response; `text` is the value of its `text` accessor, possibly `undefined`. */
  datatype GenerateContentResponse = GenerateContentResponse(
    candidates: Option<seq<Candidate>>,
    text: Option<string>)

  const NoImageError := Error("Error", "No image data in response")

  /** `parts.find(part => part.inlineData)`: the first inline image. */
  function FirstInline(parts: seq<ResponsePart>): (r: Option<Blob>)
    ensures r.None? <==> forall i :: 0 <= i < |parts| ==> parts[i].inlineData.None?
    ensures r.Some? ==> exists i :: 0 <= i < |parts| && parts[i].inlineData == r
                          && forall j :: 0 <= j < i ==> parts[j].inlineData.None?
  {
    if parts == [] then None
    else if parts[0].inlineData.Some? then parts[0].inlineData
    else
      var r := FirstInline(parts[1..]);
      if r.Some? then
        var i :| 0 <= i < |parts[1..]| && parts[1..][i].inlineData == r
                 && forall j :: 0 <= j < i ==> parts[1..][j].inlineData.None?;
        assert parts[i + 1].inlineData == r;
        r
      else r
  }

  /** The parts of the first candidate, where every step of the optional
      chain `candidates?.[0]?.content?.parts` is present. */
  function FirstCandidateParts(res: GenerateContentResponse): (r: Option<seq<ResponsePart>>)
    ensures r.Some? <==> res.candidates.Some? && |res.candidates.value| > 0
                         && res.candidates.value[0].content.Some?
                         && res.candidates.value[0].content.value.parts.Some?
    ensures r.Some? ==> r.value == res.candidates.value[0].content.value.parts.value
  {
    match res.candidates
    case None => None
    case Some(cs) =>
      if cs == [] then None
      else match cs[0].content
        case None => None
        case Some(content) => content.parts
  }

  /** The image part the client picks, if any. */
  function ImageOf(res: GenerateContentResponse): (r: Option<Blob>)
    ensures r.None? <==> FirstCandidateParts(res).None?
                         || forall i :: 0 <= i < |FirstCandidateParts(res).value| ==>
                              FirstCandidateParts(res).value[i].inlineData.None?
    ensures r.Some? ==> exists i :: 0 <= i < |FirstCandidateParts(res).value|
                           && FirstCandidateParts(res).value[i].inlineData == r
                           && forall j :: 0 <= j < i ==> FirstCandidateParts(res).value[j].inlineData.None?
  {
    match FirstCandidateParts(res)
    case None => None
    case Some(parts) => FirstInline(parts)
  }

  /** The value the client's `.then` callback produces, or the error it throws. */
  function Normalize(res: GenerateContentResponse, imageOutput: bool): (r: Result<Option<string>>)
    ensures !imageOutput ==> r == Ok(res.text)
    ensures imageOutput ==> (r.Err? <==> ImageOf(res).None?)
    ensures imageOutput && r.Err? ==> r.error == NoImageError
    ensures imageOutput && r.Ok? ==> r.value == Some(DataUri.Build(ImageOf(res).value.mimeType, ImageOf(res).value.data))
  {
    if imageOutput then
      match ImageOf(res)
      case None => Err(NoImageError)
      case Some(blob) => Ok(Some(DataUri.Build(blob.mimeType, blob.data)))
    else Ok(res.text)
  }

  /** The data URI produced in image mode parses back, both as an input image
      and by the clipboard code, into the chosen part's mime type and payload. */
  lemma NormalizedImageParses(res: GenerateContentResponse, parts: seq<ResponsePart>, k: nat)
    requires FirstCandidateParts(res) == Some(parts)
    requires k < |parts| && parts[k].inlineData.Some?
    requires forall j :: 0 <= j < k ==> parts[j].inlineData.None?
    requires DataUri.Parsable(parts[k].inlineData.value.mimeType, parts[k].inlineData.value.data)
    requires ':' !in parts[k].inlineData.value.mimeType
    ensures Normalize(res, true).Ok?
    ensures DataUri.MimeType(Normalize(res, true).value.value) == parts[k].inlineData.value.mimeType
    ensures DataUri.Payload(Normalize(res, true).value.value) == Some(parts[k].inlineData.value.data)
    ensures DataUri.ClipboardMimeType(Normalize(res, true).value.value) == Some(parts[k].inlineData.value.mimeType)
  {
    var blob := parts[k].inlineData.value;
    var r := FirstInline(parts);
    assert r.Some?;
    var i :| 0 <= i < |parts| && parts[i].inlineData == r && forall j :: 0 <= j < i ==> parts[j].inlineData.None?;
    assert i == k;
    DataUri.ParseBuild(blob.mimeType, blob.data);
    DataUri.ClipboardParseBuild(blob.mimeType, blob.data);
  }
}

/** Data URIs of the form `data:<mime>;base64,<payload>`: the one the client
    builds from a response image, the parse it applies to an input image, and
    the parse the clipboard code applies to an output image. */
module DataUri {
  import opened Js

  /** The template string `data:${mimeType};base64,${data}`. */
  function Build(mimeType: string, data: string): (r: string)
    ensures |r| == 5 + |mimeType| + 8 + |data|
    ensures r[..5] == "data:" && r[5..5 + |mimeType|] == mimeType
    ensures r[5 + |mimeType|..13 + |mimeType|] == ";base64," && r[13 + |mimeType|..] == data
  {
    "data:" + mimeType + ";base64," + data
  }

  /** `uri.substring(5, uri.indexOf(';'))`: the mime type of an input image.
      Without a ';' the end bound -1 is clamped to 0 and the bounds swap, so
      the first five characters come back. */
  function MimeType(uri: string): (r: string)
    ensures ';' !in uri ==> r == uri[..if |uri| < 5 then |uri| else 5]
  {
    Substring(uri, 5, IndexOf(uri, ';'))
  }

  /** `uri.split(',')[1]`: the payload, `undefined` when there is no ','. */
  function Payload(uri: string): (r: Option<string>)
    ensures r.None? <==> ',' !in uri
  {
    At(Split(uri, ','), 1)
  }

  /** `head.split(':')[1].split(';')[0]`: the mime type inside the part of a
      URI before its first ','. `None` where `[1]` is `undefined`, on which
      the next `.split` throws. */
  function HeadMimeType(head: string): (r: Option<string>)
    ensures r.None? <==> ':' !in head
    ensures r.Some? ==> ';' !in r.value
  {
    match At(Split(head, ':'), 1)
    case None => None
    case Some(rest) =>
      SplitPiecesOmitSeparator(rest, ';');
      Some(Split(rest, ';')[0])
  }

  /** `uri.split(',')[0].split(':')[1].split(';')[0]`: the mime type the
      clipboard copy uses. */
  function ClipboardMimeType(uri: string): (r: Option<string>)
    ensures r.None? <==> ':' !in Split(uri, ',')[0]
    ensures r.Some? ==> ';' !in r.value
  {
    HeadMimeType(Split(uri, ',')[0])
  }

  /** What a mime type and payload must avoid for the parses to find their
      boundaries again. */
  predicate Parsable(mimeType: string, data: string) {
    ';' !in mimeType && ',' !in mimeType && ',' !in data
  }

  /** The built URI is the join of its head and the payload at the ','. */
  lemma {:induction false} BuildSplitsAtComma(mimeType: string, data: string)
    requires Parsable(mimeType, data)
    ensures Split(Build(mimeType, data), ',') == ["data:" + mimeType + ";base64", data]
  {
    var head := "data:" + mimeType + ";base64";
    assert forall i :: 0 <= i < |head| ==> head[i] == ',' ==> 5 <= i < 5 + |mimeType| && mimeType[i - 5] == ',';
    assert ',' !in head;
    assert Join([head, data], ',') == Build(mimeType, data);
    SplitJoin([head, data], ',');
  }

  /** Parsing a built URI the way an input image is parsed recovers the mime
      type and the payload. */
  lemma {:induction false} ParseBuild(mimeType: string, data: string)
    requires Parsable(mimeType, data)
    ensures MimeType(Build(mimeType, data)) == mimeType
    ensures Payload(Build(mimeType, data)) == Some(data)
  {
    var uri := Build(mimeType, data);
    assert uri[5 + |mimeType|] == ';';
    assert forall i :: 0 <= i < 5 + |mimeType| ==> uri[..5 + |mimeType|][i] == uri[i];
    assert forall i :: 0 <= i < |mimeType| ==> uri[5 + i] == mimeType[i];
    IndexOfAt(uri, ';', 5 + |mimeType|);
    assert uri[5..5 + |mimeType|] == mimeType;
    BuildSplitsAtComma(mimeType, data);
  }

  /** The head `data:<mime>;base64` of a built URI yields the mime type back,
      when the mime type has neither ';' nor ':'. */
  lemma {:induction false} HeadMimeTypeOfBuilt(mimeType: string)
    requires ';' !in mimeType && ':' !in mimeType
    ensures HeadMimeType("data:" + mimeType + ";base64") == Some(mimeType)
  {
    var rest := mimeType + ";base64";
    assert "data:" + mimeType + ";base64" == "data" + [':'] + rest;
    JoinPair("data", rest, ':');
    NotInConcat(':', mimeType, ";base64");
    SplitJoin(["data", rest], ':');
    assert rest == mimeType + [';'] + "base64";
    JoinPair(mimeType, "base64", ';');
    SplitJoin([mimeType, "base64"], ';');
  }

  /** The clipboard parse of a built URI recovers the mime type too, when the
      mime type has no ':'. */
  lemma {:induction false} ClipboardParseBuild(mimeType: string, data: string)
    requires Parsable(mimeType, data) && ':' !in mimeType
    ensures ClipboardMimeType(Build(mimeType, data)) == Some(mimeType)
  {
    BuildSplitsAtComma(mimeType, data);
    HeadMimeTypeOfBuilt(mimeType);
  }

  /** Joining two pieces puts the separator between them. */
  lemma JoinPair(a: string, b: string, sep: char)
    ensures Join([a, b], sep) == a + [sep] + b
  {
    assert [a, b][1..] == [b];
  }

  /** A character in neither part is not in their concatenation. */
  lemma NotInConcat(c: char, a: string, b: string)
    requires c !in a && c !in b
    ensures c !in a + b
  {
  }
}

/**
 * Multimodal message content between the surfaces (src/translator/mod.rs, the Anthropic and Google adapters under
 * src/adapter/inbound and src/adapter/outbound).
 */
module Content {
  import opened Base
  import opened Json

  // ---------------------------------------------------------------- the canonical form

  datatype ContentPart = Text(text: string) | Image(url: string)

  datatype DataUrl = DataUrl(mime: string, data: string)

  const SCHEME := "data:"
  const BASE64 := ";base64"
  const NO_MIME := "application/octet-stream"

  function StripSuffix(text: string, suffix: string): string {
    if |suffix| <= |text| && text[|text| - |suffix|..] == suffix then text[..|text| - |suffix|] else text
  }

  /** Splits a `data:` URL (RFC 2397, section 3) into media type and payload. */
  function ParseDataUrl(url: string): Option<DataUrl> {
    if !(SCHEME <= url) then None
    else
      var rest := url[|SCHEME|..];
      var k := IndexOf(rest, ',');
      if k == |rest| then None
      else
        var header := StripSuffix(rest[..k], BASE64);
        Some(DataUrl(if header == "" then NO_MIME else header, rest[k + 1..]))
  }

  /** The one canonical form of an inline image. */
  function ToDataUrl(media: string, data: string): string {
    SCHEME + media + BASE64 + "," + data
  }

  /** A media type that comes back from a data URL. */
  predicate PlainMedia(media: string) {
    media != "" && ',' !in media
  }

  /** An inline image survives as a data URL exactly when its media type is non-empty and has no comma. */
  lemma DataUrlRoundTrip(media: string, data: string)
    ensures ParseDataUrl(ToDataUrl(media, data)).Some?
    ensures ParseDataUrl(ToDataUrl(media, data)) == Some(DataUrl(media, data)) <==> PlainMedia(media)
  {
    var url := ToDataUrl(media, data);
    var rest := media + BASE64 + "," + data;
    assert url == SCHEME + rest && url[|SCHEME|..] == rest;
    assert rest[|media| + |BASE64|] == ',';
    if ',' in media {
      EarlyComma(media, data);
    } else {
      PlainHeader(media, data);
    }
  }

  lemma EarlyComma(media: string, data: string)
    requires ',' in media
    ensures ParseDataUrl(ToDataUrl(media, data)).Some? && ParseDataUrl(ToDataUrl(media, data)).value.mime != media
  {
    var rest := media + BASE64 + "," + data;
    var m := IndexOf(media, ',');
    assert forall j | 0 <= j <= m && m < |media| :: rest[j] == media[j];
    assert m < |media|;
    FirstIndex(rest, ',', m);
    assert ToDataUrl(media, data)[|SCHEME|..] == rest;
    assert |StripSuffix(rest[..m], BASE64)| <= m;
    assert ',' !in NO_MIME;
  }

  lemma PlainHeader(media: string, data: string)
    requires ',' !in media
    ensures ParseDataUrl(ToDataUrl(media, data)) == Some(DataUrl(if media == "" then NO_MIME else media, data))
  {
    var rest, k := media + BASE64 + "," + data, |media| + |BASE64|;
    assert rest[..k] == media + BASE64;
    assert forall j | 0 <= j < |media| :: media[j] in media;
    assert ',' !in BASE64;
    forall j | 0 <= j < k
      ensures rest[j] != ','
    {
      if j < |media| {
        assert rest[j] == media[j];
      } else {
        assert rest[j] == BASE64[j - |media|];
      }
    }
    FirstIndex(rest, ',', k);
    assert ToDataUrl(media, data)[|SCHEME|..] == rest;
    assert rest[..k][|media|..] == BASE64 && rest[..k][..|media|] == media;
    assert rest[k + 1..] == data;
  }

  function ImagePartUrl(part: Value): string {
    match part.Get("image_url")
    case Some(Str(s)) => s
    case Some(v) => StrOf(v.Get("url")).UnwrapOr("")
    case None => ""
  }

  function PartOf(p: Value): Option<ContentPart> {
    var kind := StrOf(p.Get("type"));
    if kind == Some("text") then
      var text := StrOf(p.Get("text"));
      if text.Some? then Some(Text(text.value)) else None
    else if kind == Some("image_url") then Some(Image(ImagePartUrl(p)))
    else None
  }

  function PartsOf(parts: seq<Value>): seq<ContentPart> {
    if parts == [] then []
    else (if PartOf(parts[0]).Some? then [PartOf(parts[0]).value] else []) + PartsOf(parts[1..])
  }

  /** The ordered parts of a message content value. */
  function ContentParts(content: Value): seq<ContentPart> {
    match content
    case Str(s) => [Text(s)]
    case Arr(parts) => PartsOf(parts)
    case _ => []
  }

  predicate HasImage(parts: seq<ContentPart>) {
    exists p | p in parts :: p.Image?
  }

  function JoinTexts(texts: seq<string>): string {
    if texts == [] then "" else if |texts| == 1 then texts[0] else texts[0] + "\n" + JoinTexts(texts[1..])
  }

  function TextsOf(parts: seq<ContentPart>): seq<string> {
    if parts == [] then [] else (if parts[0].Text? then [parts[0].text] else []) + TextsOf(parts[1..])
  }

  function ContentText(content: Value): string {
    JoinTexts(TextsOf(ContentParts(content)))
  }

  function TextJson(text: string): Value {
    Obj(map["type" := Str("text"), "text" := Str(text)])
  }

  function ImageUrlJson(url: string): Value {
    Obj(map["type" := Str("image_url"), "image_url" := Obj(map["url" := Str(url)])])
  }

  // ---------------------------------------------------------------- Anthropic, in and out

  function TextFields(blocks: seq<Value>): seq<string> {
    if blocks == [] then []
    else (if StrOf(blocks[0].Get("text")).Some? then [StrOf(blocks[0].Get("text")).value] else [])
         + TextFields(blocks[1..])
  }

  function AnthropicContentText(content: Value): string {
    match content
    case Str(s) => s
    case Arr(blocks) => JoinTexts(TextFields(blocks))
    case _ => ""
  }

  predicate IsImageBlock(b: Value) {
    StrOf(b.Get("type")) == Some("image")
  }

  function AnthropicImagePart(block: Value): Option<Value> {
    var source := block.Get("source");
    var kind := StrOf(Field(source, "type"));
    if kind == Some("url") then
      var url := StrOf(Field(source, "url"));
      if url.Some? then Some(ImageUrlJson(url.value)) else None
    else if kind == Some("base64") then
      Some(ImageUrlJson(ToDataUrl(StrOf(Field(source, "media_type")).UnwrapOr("image/png"),
                                  StrOf(Field(source, "data")).UnwrapOr(""))))
    else None
  }

  function AnthropicPart(b: Value): Option<Value> {
    if IsImageBlock(b) then AnthropicImagePart(b)
    else
      var text := StrOf(b.Get("text")).UnwrapOr("");
      if text == "" then None else Some(TextJson(text))
  }

  function AnthropicPartsOf(blocks: seq<Value>): seq<Value> {
    if blocks == [] then []
    else (if AnthropicPart(blocks[0]).Some? then [AnthropicPart(blocks[0]).value] else [])
         + AnthropicPartsOf(blocks[1..])
  }

  /** An Anthropic content value in canonical form. */
  function AnthropicContent(content: Value): Value {
    if content.Arr? && exists b | b in content.items :: IsImageBlock(b)
    then Arr(AnthropicPartsOf(content.items))
    else Str(AnthropicContentText(content))
  }

  function UrlImageJson(url: string): Value {
    Obj(map["type" := Str("image"), "source" := Obj(map["type" := Str("url"), "url" := Str(url)])])
  }

  function InlineImageJson(media: string, data: string): Value {
    Obj(map["type" := Str("image"),
            "source" := Obj(map["type" := Str("base64"), "media_type" := Str(media), "data" := Str(data)])])
  }

  function ImageBlock(url: string): Value {
    match ParseDataUrl(url)
    case Some(d) => InlineImageJson(d.mime, d.data)
    case None => UrlImageJson(url)
  }

  function BlockOf(p: ContentPart): Value {
    match p
    case Text(text) => TextJson(text)
    case Image(url) => ImageBlock(url)
  }

  function BlocksOf(parts: seq<ContentPart>): (r: seq<Value>)
    ensures |r| == |parts|
  {
    if parts == [] then [] else [BlockOf(parts[0])] + BlocksOf(parts[1..])
  }

  /** Canonical content as an Anthropic message content. */
  function MessageContent(content: Value): Value {
    var parts := ContentParts(content);
    if HasImage(parts) then Arr(BlocksOf(parts)) else Str(ContentText(content))
  }

  // ---------------------------------------------------------------- Google, in and out

  function PartField(part: Value, camel: string, snake: string): Option<Value> {
    part.Get(camel).Or(part.Get(snake))
  }

  predicate IsGoogleImage(p: Value) {
    PartField(p, "inlineData", "inline_data").Some? || PartField(p, "fileData", "file_data").Some?
  }

  function GooglePart(p: Value): Option<Value> {
    var inline := PartField(p, "inlineData", "inline_data");
    var file := PartField(p, "fileData", "file_data");
    if inline.Some? then
      Some(ImageUrlJson(ToDataUrl(StrOf(PartField(inline.value, "mimeType", "mime_type")).UnwrapOr("image/png"),
                                  StrOf(inline.value.Get("data")).UnwrapOr(""))))
    else if file.Some? then
      var uri := StrOf(PartField(file.value, "fileUri", "file_uri"));
      if uri.Some? then Some(ImageUrlJson(uri.value)) else None
    else
      var text := StrOf(p.Get("text"));
      if text.Some? then Some(TextJson(text.value)) else None
  }

  function GooglePartsIn(parts: seq<Value>): seq<Value> {
    if parts == [] then []
    else (if GooglePart(parts[0]).Some? then [GooglePart(parts[0]).value] else []) + GooglePartsIn(parts[1..])
  }

  /** Google parts in canonical form. */
  function GoogleContent(parts: Value): Value {
    if parts.Arr? && exists p | p in parts.items :: IsGoogleImage(p)
    then Arr(GooglePartsIn(parts.items))
    else Str(if parts.Arr? then JoinTexts(TextFields(parts.items)) else "")
  }

  function PathOf(url: string): string {
    if url == "" || url[0] == '?' || url[0] == '#' then "" else [url[0]] + PathOf(url[1..])
  }

  function Lower(text: string): string {
    if text == "" then "" else [if 'A' <= text[0] <= 'Z' then text[0] - 'A' + 'a' else text[0]] + Lower(text[1..])
  }

  predicate EndsWith(text: string, suffix: string) {
    |suffix| <= |text| && text[|text| - |suffix|..] == suffix
  }

  function InferImageMime(url: string): string {
    var path := Lower(PathOf(url));
    if EndsWith(path, ".png") then "image/png"
    else if EndsWith(path, ".jpg") || EndsWith(path, ".jpeg") then "image/jpeg"
    else if EndsWith(path, ".gif") then "image/gif"
    else if EndsWith(path, ".webp") then "image/webp"
    else "image/jpeg"
  }

  function GoogleTextJson(text: string): Value {
    Obj(map["text" := Str(text)])
  }

  function InlineDataJson(mime: string, data: string): Value {
    Obj(map["inlineData" := Obj(map["mimeType" := Str(mime), "data" := Str(data)])])
  }

  function FileDataJson(mime: string, uri: string): Value {
    Obj(map["fileData" := Obj(map["mimeType" := Str(mime), "fileUri" := Str(uri)])])
  }

  function GoogleImage(url: string): Value {
    match ParseDataUrl(url)
    case Some(d) => InlineDataJson(d.mime, d.data)
    case None => FileDataJson(InferImageMime(url), url)
  }

  function GooglePartOut(p: ContentPart): Value {
    match p
    case Text(text) => GoogleTextJson(text)
    case Image(url) => GoogleImage(url)
  }

  function GooglePartsOut(parts: seq<ContentPart>): (r: seq<Value>)
    ensures |r| == |parts|
  {
    if parts == [] then [] else [GooglePartOut(parts[0])] + GooglePartsOut(parts[1..])
  }

  /** Canonical content as Google parts. */
  function GoogleParts(content: Value): seq<Value> {
    var parts := ContentParts(content);
    if HasImage(parts) then GooglePartsOut(parts) else [GoogleTextJson(ContentText(content))]
  }

  // ---------------------------------------------------------------- what a client sends

  /** A content element a client of either surface may send. */
  datatype Element = Words(text: string) | Link(mime: string, url: string) | Inline(media: string, data: string)

  predicate IsPicture(e: Element) {
    !e.Words?
  }

  predicate AnyPicture(es: seq<Element>) {
    exists e | e in es :: IsPicture(e)
  }

  /** As an Anthropic block; a linked image carries no media type there. */
  function AsBlock(e: Element): Value {
    match e
    case Words(text) => TextJson(text)
    case Link(_, url) => UrlImageJson(url)
    case Inline(media, data) => InlineImageJson(media, data)
  }

  function AsBlocks(es: seq<Element>): seq<Value> {
    if es == [] then [] else [AsBlock(es[0])] + AsBlocks(es[1..])
  }

  /** As a Google part. */
  function AsPart(e: Element): Value {
    match e
    case Words(text) => GoogleTextJson(text)
    case Link(mime, url) => FileDataJson(mime, url)
    case Inline(media, data) => InlineDataJson(media, data)
  }

  function AsParts(es: seq<Element>): seq<Value> {
    if es == [] then [] else [AsPart(es[0])] + AsParts(es[1..])
  }

  /** The canonical parts an element becomes: texts that are dropped become none. */
  function Canonical(e: Element, dropEmpty: bool): seq<ContentPart> {
    match e
    case Words(text) => if dropEmpty && text == "" then [] else [Text(text)]
    case Link(_, url) => [Image(url)]
    case Inline(media, data) => [Image(ToDataUrl(media, data))]
  }

  function CanonicalAll(es: seq<Element>, dropEmpty: bool): seq<ContentPart> {
    if es == [] then [] else Canonical(es[0], dropEmpty) + CanonicalAll(es[1..], dropEmpty)
  }

  lemma TextPart(text: string)
    ensures PartOf(TextJson(text)) == Some(Text(text))
  {
  }

  lemma ImagePart(url: string)
    ensures PartOf(ImageUrlJson(url)) == Some(Image(url))
  {
  }

  lemma AnthropicElement(e: Element)
    ensures AnthropicPart(AsBlock(e)) == match e
                                         case Words(text) => if text == "" then None else Some(TextJson(text))
                                         case Link(_, url) => Some(ImageUrlJson(url))
                                         case Inline(media, data) => Some(ImageUrlJson(ToDataUrl(media, data)))
    ensures IsImageBlock(AsBlock(e)) <==> IsPicture(e)
  {
  }

  lemma GoogleElement(e: Element)
    ensures GooglePart(AsPart(e)) == match e
                                     case Words(text) => Some(TextJson(text))
                                     case Link(_, url) => Some(ImageUrlJson(url))
                                     case Inline(media, data) => Some(ImageUrlJson(ToDataUrl(media, data)))
    ensures IsGoogleImage(AsPart(e)) <==> IsPicture(e)
  {
  }

  /** What the inbound Anthropic adapter makes of elements. */
  lemma {:induction false} AnthropicElements(es: seq<Element>)
    ensures PartsOf(AnthropicPartsOf(AsBlocks(es))) == CanonicalAll(es, true)
    ensures (exists b | b in AsBlocks(es) :: IsImageBlock(b)) <==> AnyPicture(es)
    ensures HasImage(CanonicalAll(es, true)) <==> AnyPicture(es)
  {
    if es != [] {
      var e, more := es[0], es[1..];
      AnthropicElements(more);
      AnthropicElement(e);
      assert es == [e] + more;
      assert AsBlocks(es)[0] == AsBlock(e) && AsBlocks(es)[1..] == AsBlocks(more);
      var rest := AnthropicPartsOf(AsBlocks(more));
      PictureCons(e, more, true);
      match e
      case Words(text) =>
        TextPart(text);
        if text == "" {
          assert AnthropicPartsOf(AsBlocks(es)) == rest;
        } else {
          PartsCons(TextJson(text), rest);
        }
      case Link(_, url) =>
        ImagePart(url);
        PartsCons(ImageUrlJson(url), rest);
      case Inline(media, data) =>
        ImagePart(ToDataUrl(media, data));
        PartsCons(ImageUrlJson(ToDataUrl(media, data)), rest);
    }
  }

  lemma PartsCons(p: Value, rest: seq<Value>)
    ensures PartsOf([p] + rest) == (if PartOf(p).Some? then [PartOf(p).value] else []) + PartsOf(rest)
  {
    assert ([p] + rest)[1..] == rest;
  }

  lemma PictureCons(e: Element, more: seq<Element>, dropEmpty: bool)
    ensures AnyPicture([e] + more) <==> IsPicture(e) || AnyPicture(more)
    ensures HasImage(CanonicalAll([e] + more, dropEmpty)) <==> IsPicture(e) || HasImage(CanonicalAll(more, dropEmpty))
  {
    assert ([e] + more)[1..] == more;
    assert e in [e] + more;
    if x :| x in more && IsPicture(x) {
      assert x in [e] + more;
    }
    var c, rest := Canonical(e, dropEmpty), CanonicalAll(more, dropEmpty);
    if IsPicture(e) {
      assert c[0] in c + rest;
    }
    if p :| p in rest && p.Image? {
      assert p in c + rest;
    }
  }

  /** What the inbound Google adapter makes of elements. */
  lemma {:induction false} GoogleElements(es: seq<Element>)
    ensures PartsOf(GooglePartsIn(AsParts(es))) == CanonicalAll(es, false)
    ensures (exists p | p in AsParts(es) :: IsGoogleImage(p)) <==> AnyPicture(es)
    ensures HasImage(CanonicalAll(es, false)) <==> AnyPicture(es)
  {
    if es != [] {
      var e, more := es[0], es[1..];
      GoogleElements(more);
      GoogleElement(e);
      assert es == [e] + more;
      PictureCons(e, more, false);
      assert AsParts(es)[0] == AsPart(e) && AsParts(es)[1..] == AsParts(more);
      var rest := GooglePartsIn(AsParts(more));
      match e
      case Words(text) =>
        TextPart(text);
        PartsCons(TextJson(text), rest);
      case Link(_, url) =>
        ImagePart(url);
        PartsCons(ImageUrlJson(url), rest);
      case Inline(media, data) =>
        ImagePart(ToDataUrl(media, data));
        PartsCons(ImageUrlJson(ToDataUrl(media, data)), rest);
    }
  }

  // ---------------------------------------------------------------- round trips

  /** An element an Anthropic client gets back unchanged. */
  predicate KeptByAnthropic(e: Element) {
    match e
    case Words(text) => text != ""
    case Link(_, url) => ParseDataUrl(url).None?
    case Inline(media, _) => PlainMedia(media)
  }

  /** An element a Google client gets back unchanged. */
  predicate KeptByGoogle(e: Element) {
    match e
    case Words(_) => true
    case Link(mime, url) => ParseDataUrl(url).None? && mime == InferImageMime(url)
    case Inline(media, _) => PlainMedia(media)
  }

  lemma BlockBack(e: Element)
    requires e.Words? ==> e.text != ""
    ensures Canonical(e, true) != [] && |Canonical(e, true)| == 1
    ensures BlockOf(Canonical(e, true)[0]) == AsBlock(e) <==> KeptByAnthropic(e)
  {
    match e
    case Words(_) =>
    case Link(_, url) => KindsDiffer(url);
    case Inline(media, data) =>
      DataUrlRoundTrip(media, data);
      InlineInjective(ParseDataUrl(ToDataUrl(media, data)).value, DataUrl(media, data));
  }

  lemma KindsDiffer(url: string)
    ensures ImageBlock(url) == UrlImageJson(url) <==> ParseDataUrl(url).None?
    ensures GoogleImage(url).Get("fileData").Some? <==> ParseDataUrl(url).None?
  {
    if ParseDataUrl(url).Some? {
      assert StrOf(Field(ImageBlock(url).Get("source"), "type")) == Some("base64");
      assert StrOf(Field(UrlImageJson(url).Get("source"), "type")) == Some("url");
    }
  }

  lemma InlineInjective(a: DataUrl, b: DataUrl)
    ensures InlineImageJson(a.mime, a.data) == InlineImageJson(b.mime, b.data) <==> a == b
    ensures InlineDataJson(a.mime, a.data) == InlineDataJson(b.mime, b.data) <==> a == b
  {
    assert Field(InlineImageJson(a.mime, a.data).Get("source"), "media_type") == Some(Str(a.mime));
    assert Field(InlineImageJson(a.mime, a.data).Get("source"), "data") == Some(Str(a.data));
    assert Field(InlineImageJson(b.mime, b.data).Get("source"), "media_type") == Some(Str(b.mime));
    assert Field(InlineImageJson(b.mime, b.data).Get("source"), "data") == Some(Str(b.data));
    assert Field(InlineDataJson(a.mime, a.data).Get("inlineData"), "mimeType") == Some(Str(a.mime));
    assert Field(InlineDataJson(a.mime, a.data).Get("inlineData"), "data") == Some(Str(a.data));
    assert Field(InlineDataJson(b.mime, b.data).Get("inlineData"), "mimeType") == Some(Str(b.mime));
    assert Field(InlineDataJson(b.mime, b.data).Get("inlineData"), "data") == Some(Str(b.data));
  }

  lemma {:induction false} FewerBlocks(es: seq<Element>)
    ensures |CanonicalAll(es, true)| <= |es| && |AsBlocks(es)| == |es|
  {
    if es != [] {
      FewerBlocks(es[1..]);
    }
  }

  lemma {:induction false} BlocksBack(es: seq<Element>)
    ensures BlocksOf(CanonicalAll(es, true)) == AsBlocks(es) <==> forall e | e in es :: KeptByAnthropic(e)
  {
    if es != [] {
      var e, more := es[0], es[1..];
      BlocksBack(more);
      FewerBlocks(more);
      assert es == [e] + more && e in es;
      if e.Words? && e.text == "" {
        assert CanonicalAll(es, true) == CanonicalAll(more, true);
        assert !KeptByAnthropic(e);
      } else {
        BlockBack(e);
        var p, rest := Canonical(e, true)[0], CanonicalAll(more, true);
        assert CanonicalAll(es, true) == [p] + rest;
        ConsBlocks(p, rest);
        HeadTail(BlockOf(p), BlocksOf(rest), AsBlock(e), AsBlocks(more));
      }
    }
  }

  lemma ConsBlocks(p: ContentPart, rest: seq<ContentPart>)
    ensures BlocksOf([p] + rest) == [BlockOf(p)] + BlocksOf(rest)
    ensures GooglePartsOut([p] + rest) == [GooglePartOut(p)] + GooglePartsOut(rest)
  {
    assert ([p] + rest)[1..] == rest;
  }

  lemma HeadTail<T>(a: T, more: seq<T>, b: T, others: seq<T>)
    ensures [a] + more == [b] + others <==> a == b && more == others
  {
    assert ([a] + more)[1..] == more && ([b] + others)[1..] == others;
    assert ([a] + more)[0] == a && ([b] + others)[0] == b;
  }

  /** The texts of elements without a picture. */
  function WordsOf(es: seq<Element>): seq<string> {
    if es == [] then [] else (if es[0].Words? then [es[0].text] else []) + WordsOf(es[1..])
  }

  lemma {:induction false} PlainFields(es: seq<Element>)
    requires !AnyPicture(es)
    ensures TextFields(AsBlocks(es)) == WordsOf(es) && TextFields(AsParts(es)) == WordsOf(es)
    ensures |es| == 1 ==> es[0].Words? && WordsOf(es) == [es[0].text]
  {
    if es != [] {
      var e, more := es[0], es[1..];
      assert e in es && !IsPicture(e);
      assert forall x | x in more :: x in es;
      PlainFields(more);
      assert AsBlocks(es)[0] == AsBlock(e) && AsBlocks(es)[1..] == AsBlocks(more);
      assert AsParts(es)[0] == AsPart(e) && AsParts(es)[1..] == AsParts(more);
      assert StrOf(AsBlock(e).Get("text")) == Some(e.text) && StrOf(AsPart(e).Get("text")) == Some(e.text);
    }
  }

  /** Content without a picture becomes one text. */
  lemma PlainContent(es: seq<Element>)
    requires !AnyPicture(es)
    ensures AnthropicContent(Arr(AsBlocks(es))) == Str(JoinTexts(WordsOf(es)))
    ensures GoogleContent(Arr(AsParts(es))) == Str(JoinTexts(WordsOf(es)))
  {
    hide CanonicalAll, PartsOf, GooglePartsIn, AnthropicPartsOf, AsParts, AsBlocks, TextFields, WordsOf, JoinTexts,
         IsImageBlock, IsGoogleImage;
    AnthropicElements(es);
    GoogleElements(es);
    PlainFields(es);
  }

  /** One text leaves for either upstream as itself. */
  lemma PlainOut(text: string)
    ensures MessageContent(Str(text)) == Str(text)
    ensures GoogleParts(Str(text)) == [GoogleTextJson(text)]
  {
    var parts := ContentParts(Str(text));
    assert parts == [Text(text)] && parts[1..] == [];
    assert TextsOf(parts) == [text];
    assert ContentText(Str(text)) == text;
  }

  lemma {:induction false} PartCount(es: seq<Element>)
    ensures |AsParts(es)| == |es| && |RelinkedAll(es)| == |es|
  {
    if es != [] {
      PartCount(es[1..]);
    }
  }

  /** Without a picture a list of Google parts is one joined text. */
  lemma PlainParts(es: seq<Element>, others: seq<Element>)
    requires !AnyPicture(es) && |others| == |es| && (|es| == 1 ==> others == es)
    ensures GoogleParts(Str(JoinTexts(WordsOf(es)))) == AsParts(others) <==> |es| == 1
  {
    PlainOut(JoinTexts(WordsOf(es)));
    PartCount(others);
    PlainFields(es);
    if |es| == 1 {
      assert es[0] in es && !IsPicture(es[0]);
      assert es[1..] == [] && AsParts(es) == [AsPart(es[0])];
    }
  }

  /**
   * Anthropic content comes through inbound and outbound translation exactly as it was if and only if it has a picture,
   * every text is non-empty, no linked image is a data URL, and every inline image has a plain media type.
   */
  lemma AnthropicRoundTrip(es: seq<Element>)
    ensures MessageContent(AnthropicContent(Arr(AsBlocks(es)))) == Arr(AsBlocks(es))
       <==> AnyPicture(es) && forall e | e in es :: KeptByAnthropic(e)
  {
    hide CanonicalAll, PartsOf, AnthropicPartsOf, AsBlocks, BlocksOf, IsImageBlock, KeptByAnthropic, WordsOf, JoinTexts;
    if AnyPicture(es) {
      AnthropicElements(es);
      BlocksBack(es);
    } else {
      PlainContent(es);
      PlainOut(JoinTexts(WordsOf(es)));
    }
  }

  lemma LinkBack(mime: string, url: string)
    ensures GoogleImage(url) == FileDataJson(mime, url) <==> ParseDataUrl(url).None? && mime == InferImageMime(url)
  {
    KindsDiffer(url);
    MimeOf(mime, url);
    MimeOf(InferImageMime(url), url);
    hide FileDataJson, InferImageMime, ParseDataUrl, InlineDataJson;
  }

  lemma MimeOf(mime: string, url: string)
    ensures Field(FileDataJson(mime, url).Get("fileData"), "mimeType") == Some(Str(mime))
  {
  }

  lemma PartBack(e: Element)
    ensures |Canonical(e, false)| == 1
    ensures GooglePartOut(Canonical(e, false)[0]) == AsPart(e) <==> KeptByGoogle(e)
  {
    match e
    case Words(_) =>
    case Link(mime, url) =>
      LinkBack(mime, url);
    case Inline(media, data) =>
      DataUrlRoundTrip(media, data);
      InlineInjective(ParseDataUrl(ToDataUrl(media, data)).value, DataUrl(media, data));
  }

  lemma {:induction false} PartsBack(es: seq<Element>)
    ensures GooglePartsOut(CanonicalAll(es, false)) == AsParts(es) <==> forall e | e in es :: KeptByGoogle(e)
  {
    if es != [] {
      var e, more := es[0], es[1..];
      PartsBack(more);
      assert es == [e] + more && e in es;
      PartBack(e);
      var p, rest := Canonical(e, false)[0], CanonicalAll(more, false);
      assert CanonicalAll(es, false) == [p] + rest;
      ConsBlocks(p, rest);
      HeadTail(GooglePartOut(p), GooglePartsOut(rest), AsPart(e), AsParts(more));
    }
  }

  /**
   * Google content likewise: with a picture, if and only if every inline image has a plain media type and every linked
   * image is no data URL and names the media type its extension suggests; without one, if and only if it is one text.
   */
  lemma GoogleRoundTrip(es: seq<Element>)
    ensures GoogleParts(GoogleContent(Arr(AsParts(es)))) == AsParts(es)
       <==> if AnyPicture(es) then forall e | e in es :: KeptByGoogle(e) else |es| == 1
  {
    hide CanonicalAll, PartsOf, GooglePartsIn, AsParts, GooglePartsOut, KeptByGoogle, IsGoogleImage, WordsOf, JoinTexts;
    if AnyPicture(es) {
      GoogleElements(es);
      PartsBack(es);
    } else {
      PlainContent(es);
      PlainParts(es, es);
    }
  }

  /** The element as it reaches a Google upstream: a link gains the media type its extension suggests. */
  function Relinked(e: Element): Element {
    match e
    case Link(_, url) => Link(InferImageMime(url), url)
    case _ => e
  }

  function RelinkedAll(es: seq<Element>): seq<Element> {
    if es == [] then [] else [Relinked(es[0])] + RelinkedAll(es[1..])
  }

  lemma PartCross(e: Element)
    requires e.Words? ==> e.text != ""
    ensures |Canonical(e, true)| == 1
    ensures GooglePartOut(Canonical(e, true)[0]) == AsPart(Relinked(e)) <==> KeptByAnthropic(e)
  {
    match e
    case Words(_) =>
    case Link(_, url) =>
      LinkBack(InferImageMime(url), url);
    case Inline(media, data) =>
      DataUrlRoundTrip(media, data);
      InlineInjective(ParseDataUrl(ToDataUrl(media, data)).value, DataUrl(media, data));
  }

  lemma {:induction false} PartsCross(es: seq<Element>)
    ensures GooglePartsOut(CanonicalAll(es, true)) == AsParts(RelinkedAll(es))
        <==> forall e | e in es :: KeptByAnthropic(e)
  {
    hide GooglePartOut, AsPart, Relinked, ImageBlock;
    if es != [] {
      var e, more := es[0], es[1..];
      PartsCross(more);
      FewerBlocks(more);
      PartCount(RelinkedAll(es));
      PartCount(es);
      assert es == [e] + more && e in es;
      assert RelinkedAll(es)[0] == Relinked(e) && RelinkedAll(es)[1..] == RelinkedAll(more);
      if e.Words? && e.text == "" {
        assert CanonicalAll(es, true) == CanonicalAll(more, true);
        assert !KeptByAnthropic(e);
      } else {
        PartCross(e);
        var p, rest := Canonical(e, true)[0], CanonicalAll(more, true);
        assert CanonicalAll(es, true) == [p] + rest;
        ConsBlocks(p, rest);
        HeadTail(GooglePartOut(p), GooglePartsOut(rest), AsPart(Relinked(e)), AsParts(RelinkedAll(more)));
      }
    }
  }

  /**
   * What enters by the Anthropic surface leaves for a Google upstream with the same texts, addresses, payloads and
   * inline media types, in order: with a picture, exactly when Anthropic itself would get it back; without, when it is
   * one text.
   */
  lemma AnthropicToGoogle(es: seq<Element>)
    ensures GoogleParts(AnthropicContent(Arr(AsBlocks(es)))) == AsParts(RelinkedAll(es))
       <==> if AnyPicture(es) then forall e | e in es :: KeptByAnthropic(e) else |es| == 1
  {
    hide CanonicalAll, PartsOf, AnthropicPartsOf, AsBlocks, AsParts, GooglePartsOut, IsImageBlock, KeptByAnthropic,
         WordsOf, JoinTexts, Relinked;
    if AnyPicture(es) {
      AnthropicElements(es);
      PartsCross(es);
    } else {
      PlainContent(es);
      PartCount(es);
      if |es| == 1 {
        PlainUnlinked(es);
      }
      PlainParts(es, RelinkedAll(es));
    }
  }

  lemma PlainUnlinked(es: seq<Element>)
    requires !AnyPicture(es) && |es| == 1
    ensures RelinkedAll(es) == es
  {
    assert es[0] in es && !IsPicture(es[0]);
    assert es[1..] == [] && RelinkedAll(es) == [Relinked(es[0])];
  }

  /** An element that reaches an Anthropic upstream from the Google surface; a link's media type has no place there. */
  predicate Crosses(e: Element) {
    match e
    case Words(_) => true
    case Link(_, url) => ParseDataUrl(url).None?
    case Inline(media, _) => PlainMedia(media)
  }

  lemma BlockCross(e: Element)
    ensures |Canonical(e, false)| == 1
    ensures BlockOf(Canonical(e, false)[0]) == AsBlock(e) <==> Crosses(e)
  {
    match e
    case Words(_) =>
    case Link(_, url) => KindsDiffer(url);
    case Inline(media, data) =>
      DataUrlRoundTrip(media, data);
      InlineInjective(ParseDataUrl(ToDataUrl(media, data)).value, DataUrl(media, data));
  }

  lemma {:induction false} BlocksCross(es: seq<Element>)
    ensures BlocksOf(CanonicalAll(es, false)) == AsBlocks(es) <==> forall e | e in es :: Crosses(e)
  {
    hide BlockOf, AsBlock;
    if es != [] {
      var e, more := es[0], es[1..];
      BlocksCross(more);
      BlockCross(e);
      assert es == [e] + more && e in es;
      var p, rest := Canonical(e, false)[0], CanonicalAll(more, false);
      assert CanonicalAll(es, false) == [p] + rest;
      ConsBlocks(p, rest);
      HeadTail(BlockOf(p), BlocksOf(rest), AsBlock(e), AsBlocks(more));
    }
  }

  /**
   * What enters by the Google surface leaves for an Anthropic upstream with the same texts, addresses, payloads and
   * inline media types, in order, if and only if it has a picture, no linked image is a data URL and every inline image
   * has a plain media type. The media type a client gave a linked image plays no part.
   */
  lemma GoogleToAnthropic(es: seq<Element>)
    ensures MessageContent(GoogleContent(Arr(AsParts(es)))) == Arr(AsBlocks(es))
       <==> AnyPicture(es) && forall e | e in es :: Crosses(e)
  {
    hide CanonicalAll, PartsOf, GooglePartsIn, AsParts, BlocksOf, AsBlocks, IsGoogleImage, Crosses, WordsOf, JoinTexts;
    if AnyPicture(es) {
      GoogleElements(es);
      BlocksCross(es);
    } else {
      PlainContent(es);
      PlainOut(JoinTexts(WordsOf(es)));
    }
  }

  // ---------------------------------------------------------------- joined texts

  /** `text` is the texts one after the other with a line end between any two. */
  predicate JoinOf(texts: seq<string>, text: string)
    decreases |texts|
  {
    if texts == [] then text == ""
    else if |texts| == 1 then text == texts[0]
    else
      var last := texts[|texts| - 1];
      && |last| + 1 <= |text|
      && text[|text| - |last|..] == last && text[|text| - |last| - 1] == '\n'
      && JoinOf(texts[..|texts| - 1], text[..|text| - |last| - 1])
  }

  lemma {:induction false} JoinSnoc(texts: seq<string>, last: string)
    requires texts != []
    ensures JoinTexts(texts + [last]) == JoinTexts(texts) + "\n" + last
  {
    var all := texts + [last];
    assert all[1..] == texts[1..] + [last];
    if |texts| == 1 {
      assert all[1..] == [last] && JoinTexts([last]) == last;
    } else {
      JoinSnoc(texts[1..], last);
      assert texts[0] + "\n" + (JoinTexts(texts[1..]) + "\n" + last)
          == texts[0] + "\n" + JoinTexts(texts[1..]) + "\n" + last;
    }
  }

  lemma {:induction false} JoinIs(texts: seq<string>)
    ensures JoinOf(texts, JoinTexts(texts))
  {
    if |texts| > 1 {
      var front, last := texts[..|texts| - 1], texts[|texts| - 1];
      JoinIs(front);
      JoinSnoc(front, last);
      assert texts == front + [last];
      var text := JoinTexts(texts);
      assert text == JoinTexts(front) + "\n" + last;
      assert text[..|text| - |last| - 1] == JoinTexts(front);
    }
  }

  /** The text of element `i`. */
  lemma {:induction false} WordsAre(es: seq<Element>)
    requires !AnyPicture(es)
    ensures |WordsOf(es)| == |es|
    ensures forall i | 0 <= i < |es| :: es[i].Words? && WordsOf(es)[i] == es[i].text
  {
    if es != [] {
      assert es[0] in es && !IsPicture(es[0]);
      assert forall x | x in es[1..] :: x in es;
      WordsAre(es[1..]);
    }
  }

  /** Content without a picture becomes, on either surface, all its texts in order, with a line end between any two. */
  lemma PlainContentJoins(es: seq<Element>, texts: seq<string>)
    requires !AnyPicture(es)
    requires |texts| == |es| && forall i | 0 <= i < |es| :: es[i] == Words(texts[i])
    ensures AnthropicContent(Arr(AsBlocks(es))) == GoogleContent(Arr(AsParts(es)))
    ensures AnthropicContent(Arr(AsBlocks(es))).Str? && JoinOf(texts, AnthropicContent(Arr(AsBlocks(es))).text)
  {
    hide JoinTexts, JoinOf, AnthropicContent, GoogleContent, WordsOf;
    PlainContent(es);
    WordsAre(es);
    assert WordsOf(es) == texts;
    JoinIs(texts);
  }
}

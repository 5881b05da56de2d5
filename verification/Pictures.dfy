/**
 * How pictures and texts are read member by member, spelled one way or another or with members missing
 * (src/adapter/inbound/anthropic.rs, src/adapter/inbound/google.rs and src/translator/mod.rs).
 */
module Pictures {
  import opened Base
  import opened Json
  import opened Content

  /** A member that is a text, or nothing. */
  function TextAt(fields: map<string, Value>, key: string): Option<string> {
    if key in fields && fields[key].Str? then Some(fields[key].text) else None
  }

  /** The member under either spelling, the first one winning. */
  function Either(fields: map<string, Value>, camel: string, snake: string): Option<Value> {
    if camel in fields then Some(fields[camel]) else if snake in fields then Some(fields[snake]) else None
  }

  function OrText(text: Option<string>, fallback: string): string {
    if text.Some? then text.value else fallback
  }

  /** A canonical picture: an address under `image_url`. */
  predicate IsPictureOf(part: Value, url: string) {
    part == Obj(map["type" := Str("image_url"), "image_url" := Obj(map["url" := Str(url)])])
  }

  /** The data URL of an inline picture. */
  function Inlined(media: string, data: string): string {
    "data:" + media + ";base64" + "," + data
  }

  /**
   * An Anthropic picture: its address, or its inline data with `image/png` for a missing media type and no bytes for
   * missing data; a source of any other type, or an address that is no text, is dropped.
   */
  lemma AnthropicPictureReads(block: Value, source: map<string, Value>)
    requires block.Get("source") == Some(Obj(source)) && IsImageBlock(block)
    ensures match AnthropicPart(block)
            case Some(part) =>
              || (TextAt(source, "type") == Some("url") && TextAt(source, "url").Some?
                  && IsPictureOf(part, TextAt(source, "url").value))
              || (TextAt(source, "type") == Some("base64")
                  && IsPictureOf(part, Inlined(OrText(TextAt(source, "media_type"), "image/png"),
                                               OrText(TextAt(source, "data"), ""))))
            case None =>
              && TextAt(source, "type") != Some("base64")
              && (TextAt(source, "type") == Some("url") ==> TextAt(source, "url").None?)
  {
  }

  /** A Google picture under `inlineData` or `inline_data`: its data with `image/png` for a missing media type. */
  lemma GoogleInlineReads(fields: map<string, Value>, inline: map<string, Value>)
    requires Either(fields, "inlineData", "inline_data") == Some(Obj(inline))
    ensures var media := StrOf(Either(inline, "mimeType", "mime_type"));
            var part := GooglePart(Obj(fields));
            && part.Some?
            && IsPictureOf(part.value, Inlined(OrText(media, "image/png"), OrText(TextAt(inline, "data"), "")))
  {
  }

  /** A Google picture under `fileData` or `file_data`: its address, or nothing when that is no text. */
  lemma GoogleFileReads(fields: map<string, Value>, file: map<string, Value>)
    requires Either(fields, "inlineData", "inline_data") == None
    requires Either(fields, "fileData", "file_data") == Some(Obj(file))
    ensures match StrOf(Either(file, "fileUri", "file_uri"))
            case Some(uri) => GooglePart(Obj(fields)).Some? && IsPictureOf(GooglePart(Obj(fields)).value, uri)
            case None => GooglePart(Obj(fields)) == None
  {
  }

  /** A canonical part: a text with its text, a picture with its address, nested or bare, or nothing. */
  lemma PartReads(fields: map<string, Value>)
    ensures match PartOf(Obj(fields))
            case Some(Text(text)) => TextAt(fields, "type") == Some("text") && TextAt(fields, "text") == Some(text)
            case Some(Image(url)) =>
              && TextAt(fields, "type") == Some("image_url")
              && (if "image_url" !in fields then url == ""
                  else if fields["image_url"].Str? then url == fields["image_url"].text
                  else if fields["image_url"].Obj? then url == OrText(TextAt(fields["image_url"].fields, "url"), "")
                  else url == "")
            case None =>
              && TextAt(fields, "type") != Some("image_url")
              && (TextAt(fields, "type") == Some("text") ==> TextAt(fields, "text") == None)
  {
  }

  // ---------------------------------------------------------------- media types

  /** A letter against a lower-case one, whatever its case. */
  predicate SameLetter(c: char, lower: char) {
    if 'A' <= c <= 'Z' then c as int + 32 == lower as int else c == lower
  }

  predicate Spells(text: string, lower: string) {
    |text| == |lower| && forall i | 0 <= i < |text| :: SameLetter(text[i], lower[i])
  }

  /** The length of an address without its query and fragment. */
  predicate PathEnds(url: string, k: nat) {
    && k <= |url|
    && (forall i | 0 <= i < k :: url[i] != '?' && url[i] != '#')
    && (k < |url| ==> url[k] == '?' || url[k] == '#')
  }

  /** Whether an address has an extension, in letters of either case, before any query or fragment. */
  predicate HasExtension(url: string, k: nat, extension: string)
    requires k <= |url|
  {
    |extension| <= k && Spells(url[k - |extension|..k], extension)
  }

  lemma {:induction false} PathIs(url: string) returns (k: nat)
    ensures PathEnds(url, k) && PathOf(url) == url[..k]
  {
    if url == "" || url[0] == '?' || url[0] == '#' {
      k := 0;
    } else {
      var n := PathIs(url[1..]);
      k := n + 1;
      assert forall i | 0 < i < k :: url[i] == url[1..][i - 1];
      assert [url[0]] + url[1..][..n] == url[..k];
    }
  }

  lemma {:induction false} LowerIs(text: string)
    ensures |Lower(text)| == |text|
    ensures forall i | 0 <= i < |text| :: SameLetter(text[i], Lower(text)[i])
  {
    if text != "" {
      LowerIs(text[1..]);
    }
  }

  lemma ExtensionIs(url: string, k: nat, extension: string)
    requires k <= |url|
    ensures EndsWith(Lower(url[..k]), extension) <==> HasExtension(url, k, extension)
  {
    var path := url[..k];
    LowerIs(path);
    if |extension| <= k {
      var at := k - |extension|;
      assert url[at..k] == path[at..];
      if HasExtension(url, k, extension) {
        forall i | 0 <= i < |extension|
          ensures Lower(path)[at..][i] == extension[i]
        {
          assert SameLetter(path[at..][i], extension[i]) && SameLetter(path[at + i], Lower(path)[at + i]);
        }
      }
      if EndsWith(Lower(path), extension) {
        forall i | 0 <= i < |extension|
          ensures SameLetter(url[at..k][i], extension[i])
        {
          assert extension[i] == Lower(path)[at..][i] == Lower(path)[at + i];
        }
      }
    }
  }

  /** A link's media type goes by the extension before any query or fragment, and is `image/jpeg` for any other. */
  lemma MediaByExtension(url: string) returns (k: nat)
    ensures PathEnds(url, k)
    ensures InferImageMime(url) == if HasExtension(url, k, ".png") then "image/png"
                                   else if HasExtension(url, k, ".gif") then "image/gif"
                                   else if HasExtension(url, k, ".webp") then "image/webp"
                                   else "image/jpeg"
  {
    k := PathIs(url);
    ExtensionIs(url, k, ".png");
    ExtensionIs(url, k, ".jpg");
    ExtensionIs(url, k, ".jpeg");
    ExtensionIs(url, k, ".gif");
    ExtensionIs(url, k, ".webp");
    NotBoth(url, k);
    hide HasExtension, Lower, PathOf, EndsWith;
  }

  /** An address that ends in `g` for one extension may not be taken for another. */
  lemma NotBoth(url: string, k: nat)
    requires k <= |url|
    ensures HasExtension(url, k, ".jpg") || HasExtension(url, k, ".jpeg") ==>
              && !HasExtension(url, k, ".png") && !HasExtension(url, k, ".gif") && !HasExtension(url, k, ".webp")
  {
    EndLetters(url, k, ".png");
    EndLetters(url, k, ".jpg");
    EndLetters(url, k, ".jpeg");
    EndLetters(url, k, ".gif");
    EndLetters(url, k, ".webp");
    hide HasExtension;
  }

  lemma EndLetters(url: string, k: nat, extension: string)
    requires k <= |url| && |extension| >= 2
    ensures HasExtension(url, k, extension) ==>
              && k >= 2 && SameLetter(url[k - 1], extension[|extension| - 1])
              && SameLetter(url[k - 2], extension[|extension| - 2])
  {
    if HasExtension(url, k, extension) {
      var ending := url[k - |extension|..k];
      assert ending[|ending| - 1] == url[k - 1] && ending[|ending| - 2] == url[k - 2];
    }
  }

  /** An inline picture without a media type is of unknown type. */
  lemma NoMediaType(data: string)
    ensures ParseDataUrl("data:" + (";base64" + ("," + data))) == Some(DataUrl("application/octet-stream", data))
  {
    var header, rest := ";base64", ";base64" + ("," + data);
    var url := "data:" + rest;
    assert url[|SCHEME|..] == rest && SCHEME <= url;
    assert rest[7] == ',';
    forall j | 0 <= j < 7
      ensures rest[j] != ','
    {
      assert rest[j] == header[j];
    }
    FirstIndex(rest, ',', 7);
    assert rest[..7] == header && rest[8..] == data;
    assert StripSuffix(header, BASE64) == "";
  }

  // ---------------------------------------------------------------- no pictures at all

  function TextParts(texts: seq<string>): seq<Value> {
    if texts == [] then []
    else [Obj(map["type" := Str("text"), "text" := Str(texts[0])])] + TextParts(texts[1..])
  }

  lemma {:induction false} TextPartsRead(texts: seq<string>)
    ensures TextsOf(PartsOf(TextParts(texts))) == texts
    ensures forall p | p in PartsOf(TextParts(texts)) :: p.Text?
  {
    hide PartOf;
    if texts != [] {
      TextPartsRead(texts[1..]);
      TextPart(texts[0]);
      var more := PartsOf(TextParts(texts[1..]));
      assert TextParts(texts)[1..] == TextParts(texts[1..]);
      assert ([Text(texts[0])] + more)[1..] == more;
    }
  }

  /** Texts alone leave for either upstream as one text: all of them in order, a line end between any two. */
  lemma TextsLeaveJoined(texts: seq<string>)
    ensures var content := Arr(TextParts(texts));
            && MessageContent(content).Str? && JoinOf(texts, MessageContent(content).text)
            && GoogleParts(content) == [Obj(map["text" := MessageContent(content)])]
  {
    hide JoinTexts, JoinOf, TextsOf, PartsOf, TextParts;
    TextPartsRead(texts);
    JoinIs(texts);
  }

  /** Content that is neither a text nor a list says nothing. */
  lemma NoContent(content: Value)
    requires !content.Str? && !content.Arr?
    ensures AnthropicContent(content) == GoogleContent(content) == MessageContent(content) == Str("")
  {
  }
}

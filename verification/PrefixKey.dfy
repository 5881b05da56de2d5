/** The routing hint derived from a body's cacheable prefix (src/adapter/outbound/prompt_cache.rs). */
module PrefixKey {
  import opened Base
  import opened Json
  import opened Domain
  import Fnv
  import PromptCache

  /** The writer of a string's UTF-8 bytes, which this model leaves open. */
  type Encoder = string -> Bytes

  const HINT := "prompt_cache_key"

  function TextOfItems(items: seq<Value>): string {
    if items == [] then "" else BlockText(items[0]) + TextOfItems(items[1..])
  }

  /** A content value (string, block, or array of blocks) flattened to its text. */
  function BlockText(v: Value): string {
    match v
    case Str(s) => s
    case Arr(items) => TextOfItems(items)
    case Obj(fields) =>
      (if "text" in fields then BlockText(fields["text"]) else "")
      + (if "content" in fields then BlockText(fields["content"]) else "")
      + (if "instructions" in fields then BlockText(fields["instructions"]) else "")
    case _ => ""
  }

  function TextOfOption(v: Option<Value>): string {
    if v.Some? then BlockText(v.value) else ""
  }

  function FirstItem(v: Option<Value>): Option<Value> {
    match ArrOf(v)
    case Some(items) => if items == [] then None else Some(items[0])
    case None => None
  }

  /** The cacheable prefix: system prompt, instructions, first message, first input item. */
  function PrefixText(body: Value): string {
    TextOfOption(body.Get("system"))
    + TextOfOption(body.Get("instructions"))
    + TextOfOption(Field(FirstItem(body.Get("messages")), "content"))
    + TextOfOption(FirstItem(body.Get("input")))
  }

  function KeyOfHash(hash: nat): string {
    "agos-" + Fnv.Hex(hash, 16)
  }

  function KeyOf(encode: Encoder, prefix: string): string {
    KeyOfHash(Fnv.HashFrom(Fnv.OFFSET, encode(prefix)))
  }

  function KeyFor(encode: Encoder, body: Value): Option<string> {
    var prefix := PrefixText(body);
    if AllBlank(prefix) then None else Some(KeyOf(encode, prefix))
  }

  /** Gathers the prefix part by part. */
  method GatherPrefix(body: Value) returns (prefix: string)
    ensures prefix == PrefixText(body)
  {
    prefix := "";
    var system := body.Get("system");
    if system.Some? {
      prefix := prefix + BlockText(system.value);
    }
    assert prefix == TextOfOption(system);
    var instructions := body.Get("instructions");
    ghost var soFar := prefix;
    if instructions.Some? {
      prefix := prefix + BlockText(instructions.value);
    }
    assert prefix == soFar + TextOfOption(instructions);
    soFar := prefix;
    var messages := ArrOf(body.Get("messages"));
    if messages.Some? && messages.value != [] {
      var content := messages.value[0].Get("content");
      if content.Some? {
        prefix := prefix + BlockText(content.value);
      }
    }
    assert prefix == soFar + TextOfOption(Field(FirstItem(body.Get("messages")), "content"));
    soFar := prefix;
    var input := ArrOf(body.Get("input"));
    if input.Some? && input.value != [] {
      prefix := prefix + BlockText(input.value[0]);
    }
    assert prefix == soFar + TextOfOption(FirstItem(body.Get("input")));
  }

  method PrefixKeyOf(encode: Encoder, body: Value) returns (key: Option<string>)
    ensures key == KeyFor(encode, body)
  {
    var prefix := GatherPrefix(body);
    if forall c | c in prefix :: IsBlank(c) {
      return None;
    }
    var hash := Fnv.Hash(encode(prefix));
    return Some("agos-" + Fnv.Hex(hash, 16));
  }

  /** Different 64-bit hashes give different keys. */
  lemma KeysSeparateHashes(g: nat, h: nat)
    requires g < Fnv.TWO_64 && h < Fnv.TWO_64 && KeyOfHash(g) == KeyOfHash(h)
    ensures g == h
  {
    Fnv.Pow2Is();
    assert KeyOfHash(g)[5..] == Fnv.Hex(g, 16) && KeyOfHash(h)[5..] == Fnv.Hex(h, 16);
    assert Fnv.Pow2(4 * 16) == Fnv.TWO_64;
    Fnv.HexInjective(g, h, 16);
  }

  /** Prefixes of equal length that differ in exactly one byte never share a key. */
  lemma NearPrefixesKeyedApart(encode: Encoder, p: string, q: string, i: nat)
    requires |encode(p)| == |encode(q)| && i < |encode(p)| && encode(p)[i] != encode(q)[i]
    requires forall j | 0 <= j < |encode(p)| && j != i :: encode(p)[j] == encode(q)[j]
    ensures KeyOf(encode, p) != KeyOf(encode, q)
  {
    Fnv.NearStringsHashApart(Fnv.OFFSET, encode(p), encode(q), i);
    Fnv.HashIsWord(Fnv.OFFSET, encode(p));
    Fnv.HashIsWord(Fnv.OFFSET, encode(q));
    if KeyOf(encode, p) == KeyOf(encode, q) {
      KeysSeparateHashes(Fnv.HashFrom(Fnv.OFFSET, encode(p)), Fnv.HashFrom(Fnv.OFFSET, encode(q)));
    }
  }

  /** Two bodies whose prefix parts agree, whatever else they hold: in particular all turns of one conversation. */
  predicate SamePrefixParts(a: Value, b: Value) {
    && a.Get("system") == b.Get("system")
    && a.Get("instructions") == b.Get("instructions")
    && Field(FirstItem(a.Get("messages")), "content") == Field(FirstItem(b.Get("messages")), "content")
    && FirstItem(a.Get("input")) == FirstItem(b.Get("input"))
  }

  /** The key depends on the prefix parts alone. */
  lemma KeyFromPrefixParts(encode: Encoder, a: Value, b: Value)
    requires SamePrefixParts(a, b)
    ensures KeyFor(encode, a) == KeyFor(encode, b)
  {
    hide TextOfOption, FirstItem;
    assert PrefixText(a) == PrefixText(b);
  }

  /**
   * Two bodies share a key exactly when their whole prefixes are blank or hash alike; where parts end plays no role.
   */
  lemma SharedKeyIff(encode: Encoder, a: Value, b: Value)
    ensures KeyFor(encode, a) == KeyFor(encode, b)
       <==> if AllBlank(PrefixText(a)) || AllBlank(PrefixText(b))
            then AllBlank(PrefixText(a)) && AllBlank(PrefixText(b))
            else Fnv.HashFrom(Fnv.OFFSET, encode(PrefixText(a))) == Fnv.HashFrom(Fnv.OFFSET, encode(PrefixText(b)))
  {
    hide PrefixText, AllBlank, KeyOfHash;
    var g := Fnv.HashFrom(Fnv.OFFSET, encode(PrefixText(a)));
    var h := Fnv.HashFrom(Fnv.OFFSET, encode(PrefixText(b)));
    Fnv.HashIsWord(Fnv.OFFSET, encode(PrefixText(a)));
    Fnv.HashIsWord(Fnv.OFFSET, encode(PrefixText(b)));
    if KeyOfHash(g) == KeyOfHash(h) {
      KeysSeparateHashes(g, h);
    }
  }

  /** An encoding under which two bodies with different prefixes, not both blank, have different keys. */
  lemma ToldApart(a: Value, b: Value) returns (encode: Encoder)
    requires PrefixText(a) != PrefixText(b) && !(AllBlank(PrefixText(a)) && AllBlank(PrefixText(b)))
    ensures KeyFor(encode, a) != KeyFor(encode, b)
  {
    hide PrefixText, AllBlank, KeyOf;
    encode := s => if s == PrefixText(a) then [0] else [1];
    if !AllBlank(PrefixText(a)) && !AllBlank(PrefixText(b)) {
      NearPrefixesKeyedApart(encode, PrefixText(a), PrefixText(b), 0);
    }
  }

  /**
   * Two bodies share a key under every encoding if and only if their joined prefixes are the same text or both blank;
   * where one part ends and the next begins plays no role. Bodies that differ in this share one by a collision only.
   */
  lemma AlwaysSharedIff(a: Value, b: Value)
    ensures (forall encode: Encoder :: KeyFor(encode, a) == KeyFor(encode, b))
       <==> PrefixText(a) == PrefixText(b) || (AllBlank(PrefixText(a)) && AllBlank(PrefixText(b)))
  {
    hide PrefixText, AllBlank, KeyOf;
    if PrefixText(a) != PrefixText(b) && !(AllBlank(PrefixText(a)) && AllBlank(PrefixText(b))) {
      var encode := ToldApart(a, b);
    }
  }

  /** A body with a system prompt and one message. */
  function Prompt(system: string, first: string): Value {
    Obj(map["system" := Str(system),
            "messages" := Arr([Obj(map["role" := Str("user"), "content" := Str(first)])])])
  }

  lemma PromptText(system: string, first: string)
    ensures PrefixText(Prompt(system, first)) == system + first
  {
    assert TextOfOption(Prompt(system, first).Get("system")) == system;
    assert TextOfOption(Field(FirstItem(Prompt(system, first).Get("messages")), "content")) == first;
    assert system + "" + first + "" == system + first;
  }

  /** Text moved from the first message to the system prompt changes neither: such unrelated prompts share their key. */
  lemma BoundaryLost(encode: Encoder, system: string, moved: string, first: string)
    ensures KeyFor(encode, Prompt(system + moved, first)) == KeyFor(encode, Prompt(system, moved + first))
  {
    PromptText(system + moved, first);
    PromptText(system, moved + first);
    Assoc(system, moved, first);
  }

  /** Turns that share a conversation's first message share its key, however the conversation goes on. */
  lemma ConversationKeepsKey(encode: Encoder, fields: map<string, Value>, messages: seq<Value>, more: seq<Value>)
    requires messages != []
    ensures KeyFor(encode, Obj(fields["messages" := Arr(messages)]))
         == KeyFor(encode, Obj(fields["messages" := Arr(messages + more)]))
  {
    var a, b := Obj(fields["messages" := Arr(messages)]), Obj(fields["messages" := Arr(messages + more)]);
    KeyFromPrefixParts(encode, a, b);
  }

  /** The body after adding the hint; the flag says whether it was added. */
  function Hinted(encode: Encoder, body: Value): (Value, nat) {
    if body.Get(HINT).Some? || KeyFor(encode, body).None? || !body.Obj? then (body, 0)
    else (Obj(body.fields[HINT := Str(KeyFor(encode, body).value)]), 1)
  }

  method MarkOpenAi(encode: Encoder, body: PromptCache.Body) returns (added: nat)
    modifies body
    ensures (body.value, added) == Hinted(encode, old(body.value))
  {
    if body.value.Get(HINT).Some? {
      return 0;
    }
    var key := PrefixKeyOf(encode, body.value);
    if key.None? {
      return 0;
    }
    if body.value.Obj? {
      body.value := Obj(body.value.fields[HINT := Str(key.value)]);
      return 1;
    }
    return 0;
  }

  /** Adding the hint touches no other member, never replaces a caller's own, and happens at most once. */
  lemma HintOnlyAdds(encode: Encoder, body: Value)
    ensures var (after, added) := Hinted(encode, body);
            && (added == 0 ==> after == body)
            && (added == 1 ==> body.Obj? && HINT !in body.fields && after.Obj? && after.fields - {HINT} == body.fields)
            && added <= 1
            && Hinted(encode, after) == (after, 0)
  {
    var (after, added) := Hinted(encode, body);
    if added == 1 {
      assert after.fields - {HINT} == body.fields;
    }
  }

  /** Applies a route's prompt-cache policy to a translated body. */
  method Apply(encode: Encoder, kind: ProviderKind, policy: PromptCachePolicy,
               body: PromptCache.Body) returns (added: nat)
    modifies body
    ensures body.value == Applied(encode, kind, policy, old(body.value))
    ensures added <= 2 && (added == 0 ==> body.value == old(body.value))
  {
    if policy.Off? {
      return 0;
    }
    match kind
    case Anthropic =>
      ghost var before := body.value;
      added := body.MarkAnthropic();
      if !PromptCache.HasCacheControl(before) {
        PromptCache.MarkersAfter(before);
        if PromptCache.Spots(before) == {} {
          PromptCache.UntouchedWithoutSpot(before);
        }
      }
    case OpenAI | Custom | OpenAIResponses =>
      HintOnlyAdds(encode, body.value);
      added := MarkOpenAi(encode, body);
    case Google =>
      added := 0;
  }

  function Applied(encode: Encoder, kind: ProviderKind, policy: PromptCachePolicy, body: Value): Value {
    if policy.Off? then body
    else match kind
         case Anthropic => PromptCache.MarkedBody(body)
         case OpenAI | Custom | OpenAIResponses => Hinted(encode, body).0
         case Google => body
  }

  /** Applying any policy twice is applying it once. */
  lemma ApplyIdempotent(encode: Encoder, kind: ProviderKind, policy: PromptCachePolicy, body: Value)
    ensures Applied(encode, kind, policy, Applied(encode, kind, policy, body)) == Applied(encode, kind, policy, body)
  {
    PromptCache.MarkingIdempotent(body);
    HintOnlyAdds(encode, body);
  }

  // ---------------------------------------------------------------- what the prefix says

  /** A prompt as clients write it: a text, or blocks of which some are texts. */
  datatype Written = Plain(text: string) | Blocks(blocks: seq<Block>)

  datatype Block = Text(text: string) | Picture(source: Value)

  function BlockValue(b: Block): Value {
    match b
    case Text(text) => Obj(map["type" := Str("text"), "text" := Str(text)])
    case Picture(source) => Obj(map["type" := Str("image"), "source" := source])
  }

  function BlockValues(blocks: seq<Block>): seq<Value> {
    seq(|blocks|, i requires 0 <= i < |blocks| => BlockValue(blocks[i]))
  }

  function ValueOf(w: Written): Value {
    match w
    case Plain(text) => Str(text)
    case Blocks(blocks) => Arr(BlockValues(blocks))
  }

  function Texts(blocks: seq<Block>): seq<string> {
    if blocks == [] then []
    else (match blocks[0] case Text(text) => [text] case Picture(_) => []) + Texts(blocks[1..])
  }

  /** All its texts, one after the other. */
  function Said(w: Written): string {
    match w
    case Plain(text) => text
    case Blocks(blocks) => Concat(Texts(blocks))
  }

  lemma OneBlock(b: Block)
    ensures BlockText(BlockValue(b)) == match b case Text(text) => text case Picture(_) => ""
  {
    assert "text" != "type" && "type" != "source" && "content" != "source" && "instructions" != "source";
  }

  lemma {:induction false} BlocksSay(blocks: seq<Block>)
    ensures TextOfItems(BlockValues(blocks)) == Concat(Texts(blocks))
  {
    hide BlockText, BlockValue;
    if blocks != [] {
      var more := blocks[1..];
      OneBlock(blocks[0]);
      BlocksSay(more);
      assert BlockValues(blocks)[1..] == BlockValues(more);
      match blocks[0]
      case Text(text) =>
        assert Texts(blocks)[1..] == Texts(more);
      case Picture(_) =>
        assert Texts(blocks) == Texts(more);
    }
  }

  lemma WrittenSays(w: Written)
    ensures BlockText(ValueOf(w)) == Said(w)
  {
    match w
    case Plain(_) =>
    case Blocks(blocks) => BlocksSay(blocks);
  }

  /** Where a body may keep a prompt: as a member, or as the content of the first item of a list. */
  predicate Keeps(member: Option<Value>, w: Option<Written>) {
    member == match w case Some(prompt) => Some(ValueOf(prompt)) case None => None
  }

  predicate Opens(list: Option<Value>, role: string, w: Option<Written>) {
    match w
    case None => list == None || list == Some(Arr([]))
    case Some(prompt) =>
      && list.Some? && list.value.Arr? && list.value.items != []
      && list.value.items[0] == Obj(map["role" := Str(role), "content" := ValueOf(prompt)])
  }

  function SaidIf(w: Option<Written>): string {
    match w case Some(prompt) => Said(prompt) case None => ""
  }

  lemma OpensWith(list: Option<Value>, role: string, w: Option<Written>)
    requires Opens(list, role, w)
    ensures TextOfOption(Field(FirstItem(list), "content")) == SaidIf(w)
    ensures TextOfOption(FirstItem(list)) == SaidIf(w)
  {
    match w
    case None =>
    case Some(prompt) =>
      WrittenSays(prompt);
      var item := Obj(map["role" := Str(role), "content" := ValueOf(prompt)]);
      assert "text" != "role" && "text" != "content" && "instructions" != "content" && "instructions" != "role";
      assert item.Get("content") == Some(ValueOf(prompt));
      assert BlockText(item) == "" + BlockText(ValueOf(prompt)) + "";
  }

  /**
   * The prefix is everything said by the system prompt, the instructions, the first message and the first input item,
   * in this order, each as a text or as blocks; pictures and later items say nothing.
   */
  lemma PrefixSays(body: Value, system: Option<Written>, instructions: Option<Written>, first: Option<Written>,
                   input: Option<Written>, role: string, inputRole: string)
    requires Keeps(body.Get("system"), system) && Keeps(body.Get("instructions"), instructions)
    requires Opens(body.Get("messages"), role, first) && Opens(body.Get("input"), inputRole, input)
    ensures PrefixText(body) == SaidIf(system) + SaidIf(instructions) + SaidIf(first) + SaidIf(input)
  {
    hide BlockText, Said, ValueOf, FirstItem, Opens;
    OpensWith(body.Get("messages"), role, first);
    OpensWith(body.Get("input"), inputRole, input);
    if system.Some? {
      WrittenSays(system.value);
    }
    if instructions.Some? {
      WrittenSays(instructions.value);
    }
  }

  /** The key is `agos-` and the hash in sixteen digits. */
  lemma KeyReads(encode: Encoder, prefix: string)
    ensures var key := KeyOf(encode, prefix);
            && key[..5] == "agos-"
            && |key| == 21
            && Fnv.HexValue(key[5..]) == Fnv.HashFrom(Fnv.OFFSET, encode(prefix))
  {
    var hash := Fnv.HashFrom(Fnv.OFFSET, encode(prefix));
    Fnv.HashIsWord(Fnv.OFFSET, encode(prefix));
    Fnv.Pow2Is();
    assert Fnv.Pow2(4 * 16) == Fnv.TWO_64;
    Fnv.HexReads(hash, 16);
    assert KeyOf(encode, prefix)[5..] == Fnv.Hex(hash, 16);
  }

  /** What each policy and kind of provider does to an object: nothing, the hint where there is none yet, or markers. */
  lemma AppliedIs(encode: Encoder, kind: ProviderKind, policy: PromptCachePolicy, fields: map<string, Value>)
    ensures var body := Obj(fields);
            var after := Applied(encode, kind, policy, body);
            && (policy == Off || kind == Google ==> after == body)
            && (policy == Auto && kind == Anthropic ==> after == PromptCache.MarkedBody(body))
            && (policy == Auto && kind in {OpenAI, Custom, OpenAIResponses} ==>
                  after == if "prompt_cache_key" in fields || AllBlank(PrefixText(body)) then body
                           else Obj(fields["prompt_cache_key" := Str(KeyOf(encode, PrefixText(body)))]))
  {
  }

  /** An object says what its text, its content and its instructions say, in this order, and nothing else. */
  lemma ItemSays(fields: map<string, Value>, text: Option<Written>, content: Option<Written>,
                 instructions: Option<Written>)
    requires Keeps(Obj(fields).Get("text"), text) && Keeps(Obj(fields).Get("content"), content)
    requires Keeps(Obj(fields).Get("instructions"), instructions)
    ensures BlockText(Obj(fields)) == SaidIf(text) + SaidIf(content) + SaidIf(instructions)
  {
    MemberSays(Obj(fields).Get("text"), text);
    MemberSays(Obj(fields).Get("content"), content);
    MemberSays(Obj(fields).Get("instructions"), instructions);
    ObjectText(fields);
    hide BlockText, Keeps, SaidIf;
  }

  lemma MemberSays(member: Option<Value>, w: Option<Written>)
    requires Keeps(member, w)
    ensures TextOfOption(member) == SaidIf(w)
  {
    if w.Some? {
      WrittenSays(w.value);
    }
  }

  lemma ObjectText(fields: map<string, Value>)
    ensures var v := Obj(fields);
            BlockText(v) == TextOfOption(v.Get("text")) + TextOfOption(v.Get("content"))
                            + TextOfOption(v.Get("instructions"))
  {
  }
}

/** Marking a translated request body for provider-side prompt caching (src/adapter/outbound/prompt_cache.rs). */
module PromptCache {
  import opened Base
  import opened Json

  const MARK := "cache_control"

  /** The marker value. */
  const EPHEMERAL := Obj(map["type" := Str("ephemeral")])

  /** Whether any object of the tree carries a marker. */
  predicate HasCacheControl(v: Value) {
    match v
    case Obj(fields) => MARK in fields || exists k | k in fields :: HasCacheControl(fields[k])
    case Arr(items) => exists i | 0 <= i < |items| :: HasCacheControl(items[i])
    case _ => false
  }

  // ---------------------------------------------------------------- the edit

  /** A plain string turned into a one-block array; anything else is left alone. */
  function Opened(v: Value): Value {
    if v.Str? then Arr([Obj(map["type" := Str("text"), "text" := v])]) else v
  }

  function Marked(v: Value, mark: bool): Value {
    if mark && v.Obj? then Obj(v.fields[MARK := EPHEMERAL]) else v
  }

  /** Position of the last element that `holds`. */
  function LastWhere(holds: Value -> bool, items: seq<Value>): (r: Option<nat>)
    ensures r.Some? ==> r.value < |items| && holds(items[r.value])
                        && forall j | r.value < j < |items| :: !holds(items[j])
    ensures r.None? ==> forall j | 0 <= j < |items| :: !holds(items[j])
  {
    if items == [] then None
    else if holds(items[|items| - 1]) then Some(|items| - 1)
    else LastWhere(holds, items[..|items| - 1])
  }

  predicate IsUserTurn(m: Value) {
    StrOf(m.Get("role")) == Some("user")
  }

  predicate IsTextBlock(b: Value) {
    StrOf(b.Get("type")) == Some("text")
  }

  /** Where the system prompt's marker goes, once the prompt is opened. */
  function SystemSpot(v: Value): Option<nat> {
    var o := Opened(v);
    if o.Arr? && o.items != [] && o.items[|o.items| - 1].Obj? then Some(|o.items| - 1) else None
  }

  /** Where a user turn's marker goes, once its content is opened. */
  function TurnSpot(v: Value): Option<nat> {
    var o := Opened(v);
    if o.Arr? then LastWhere(IsTextBlock, o.items) else None
  }

  function MarkedAt(v: Value, spot: Option<nat>, mark: bool): Value {
    var o := Opened(v);
    if spot.Some? && o.Arr? && spot.value < |o.items|
    then Arr(o.items[spot.value := Marked(o.items[spot.value], mark)])
    else o
  }

  function SystemEdit(v: Value, mark: bool): Value {
    MarkedAt(v, SystemSpot(v), mark)
  }

  function ContentEdit(v: Value, mark: bool): Value {
    MarkedAt(v, TurnSpot(v), mark)
  }

  function TurnEdit(m: Value, mark: bool): Value {
    if m.Get("content").Some? then Obj(m.fields["content" := ContentEdit(m.fields["content"], mark)]) else m
  }

  function MessagesEdit(items: seq<Value>, mark: bool): seq<Value> {
    match LastWhere(IsUserTurn, items)
    case None => items
    case Some(i) => items[i := TurnEdit(items[i], mark)]
  }

  /** The whole edit; without `mark` it opens strings but marks nothing. */
  function Edit(body: Value, mark: bool): Value {
    if !body.Obj? then body
    else
      var m := body.fields;
      var m1 := if "system" in m then m["system" := SystemEdit(m["system"], mark)] else m;
      if "messages" in m1 && m1["messages"].Arr?
      then Obj(m1["messages" := Arr(MessagesEdit(m1["messages"].items, mark))])
      else Obj(m1)
  }

  /** Opens a system prompt and marks its last block; `added` counts the marker. */
  method MarkSystem(v: Value) returns (system: Value, added: nat)
    requires !HasCacheControl(v)
    ensures system == SystemEdit(v, true)
    ensures added == if SystemSpot(v).Some? then 1 else 0
  {
    system, added := v, 0;
    if system.Str? {
      system := Arr([Obj(map["type" := Str("text"), "text" := system])]);
    }
    if system.Arr? && system.items != [] && system.items[|system.items| - 1].Obj? {
      var last := system.items[|system.items| - 1];
      if MARK !in last.fields {
        system := Arr(system.items[|system.items| - 1 := Obj(last.fields[MARK := EPHEMERAL])]);
        added := 1;
      }
    }
  }

  /** Opens the content of a turn and marks its last text block. */
  method MarkContent(v: Value) returns (content: Value, added: nat)
    requires !HasCacheControl(v)
    ensures content == ContentEdit(v, true)
    ensures added == if TurnSpot(v).Some? then 1 else 0
  {
    content, added := v, 0;
    if content.Str? {
      content := Arr([Obj(map["type" := Str("text"), "text" := content])]);
    }
    if content.Arr? {
      var blocks := content.items;
      var j := LastIndex(IsTextBlock, blocks);
      if j > 0 && MARK !in blocks[j - 1].fields {
        content := Arr(blocks[j - 1 := Obj(blocks[j - 1].fields[MARK := EPHEMERAL])]);
        added := 1;
      }
    }
  }

  /** One past the last element that `holds`, or 0: a search from the back. */
  method LastIndex(holds: Value -> bool, items: seq<Value>) returns (i: nat)
    ensures i <= |items|
    ensures LastWhere(holds, items) == if i == 0 then None else Some(i - 1)
  {
    i := |items|;
    assert items[..i] == items;
    while i > 0 && !holds(items[i - 1])
      invariant i <= |items|
      invariant LastWhere(holds, items) == LastWhere(holds, items[..i])
    {
      assert items[..i][..i - 1] == items[..i - 1];
      i := i - 1;
    }
  }

  /** Marks the last user turn of a conversation. */
  method MarkMessages(items: seq<Value>) returns (messages: seq<Value>, added: nat)
    requires !HasCacheControl(Arr(items))
    ensures messages == MessagesEdit(items, true)
    ensures added == if TurnPaths(Obj(map["messages" := Arr(items)])) == {} then 0 else 1
  {
    hide LastWhere, TurnSpot, ContentEdit, IsUserTurn, IsTextBlock;
    messages, added := items, 0;
    var i := LastIndex(IsUserTurn, items);
    if i > 0 {
      var turn := items[i - 1];
      if turn.Get("content").Some? {
        assert !HasCacheControl(turn);
        var content;
        content, added := MarkContent(turn.fields["content"]);
        turn := Obj(turn.fields["content" := content]);
      }
      messages := items[i - 1 := turn];
    }
  }

  /** The request body under construction, edited in place. */
  class Body {
    var value: Value

    constructor (value: Value)
      ensures this.value == value
    {
      this.value := value;
    }

    /** Marks the system prompt and the last text block of the final user turn; returns how many markers it added. */
    method MarkAnthropic() returns (added: nat)
      modifies this
      ensures value == MarkedBody(old(value))
      ensures added == if HasCacheControl(old(value)) then 0 else |Spots(old(value))|
    {
      hide SystemSpot, SystemEdit, TurnSpot, LastWhere, MessagesEdit, IsUserTurn;
      if HasCacheControl(value) {
        return 0;
      }
      ghost var before := value;
      added := 0;
      if value.Obj? && "system" in value.fields {
        var system;
        system, added := MarkSystem(value.fields["system"]);
        value := Obj(value.fields["system" := system]);
      }
      if value.Obj? && "messages" in value.fields && value.fields["messages"].Arr? {
        var items := value.fields["messages"].items;
        assert items == before.fields["messages"].items;
        assert !HasCacheControl(before.fields["messages"]);
        var messages, more := MarkMessages(items);
        value := Obj(value.fields["messages" := Arr(messages)]);
        added := added + more;
      }
      SpotCount(before);
    }
  }

  /** What marking makes of a body: nothing at all if the client already placed a marker anywhere. */
  function MarkedBody(body: Value): Value {
    if HasCacheControl(body) then body else Edit(body, true)
  }

  lemma SpotCount(body: Value)
    ensures |Spots(body)| == |SystemPaths(body)| + |TurnPaths(body)|
  {
    assert SystemPaths(body) !! TurnPaths(body);
  }

  // ---------------------------------------------------------------- where markers are

  datatype Hop = Key(k: string) | At(i: nat)

  type Path = seq<Hop>

  /** The places of all markers in a tree. */
  ghost function Markers(v: Value): set<Path> {
    match v
    case Obj(fields) =>
      (if MARK in fields then {[]} else {})
      + set k, p | k in fields && k != MARK && p in Markers(fields[k]) :: [Key(k)] + p
    case Arr(items) => set i, p | 0 <= i < |items| && p in Markers(items[i]) :: [At(i)] + p
    case _ => {}
  }

  /** The places the edit marks: at most one under the system prompt and one in the last user turn. */
  ghost function SystemPaths(body: Value): set<Path> {
    if body.Get("system").Some? && SystemSpot(body.fields["system"]).Some?
    then {[Key("system"), At(SystemSpot(body.fields["system"]).value)]}
    else {}
  }

  ghost function TurnPaths(body: Value): set<Path> {
    if body.Get("messages").Some? && body.fields["messages"].Arr? then
      var items := body.fields["messages"].items;
      var i := LastWhere(IsUserTurn, items);
      if i.Some? && items[i.value].Get("content").Some? && TurnSpot(items[i.value].fields["content"]).Some?
      then {[Key("messages"), At(i.value), Key("content"), At(TurnSpot(items[i.value].fields["content"]).value)]}
      else {}
    else {}
  }

  ghost function Spots(body: Value): set<Path> {
    SystemPaths(body) + TurnPaths(body)
  }

  // ---------------------------------------------------------------- exactly these markers are added

  lemma {:induction false} NoMarkers(v: Value)
    ensures !HasCacheControl(v) <==> Markers(v) == {}
  {
    match v
    case Obj(fields) =>
      if MARK !in fields {
        forall k | k in fields
          ensures !HasCacheControl(fields[k]) <==> Markers(fields[k]) == {}
        {
          NoMarkers(fields[k]);
        }
        if k :| k in fields && HasCacheControl(fields[k]) {
          var p :| p in Markers(fields[k]);
          assert [Key(k)] + p in Markers(v);
        }
      }
    case Arr(items) =>
      forall i | 0 <= i < |items|
        ensures !HasCacheControl(items[i]) <==> Markers(items[i]) == {}
      {
        NoMarkers(items[i]);
      }
      if i :| 0 <= i < |items| && HasCacheControl(items[i]) {
        var p :| p in Markers(items[i]);
        assert [At(i)] + p in Markers(v);
      }
    case _ =>
  }

  ghost function Under(hop: Hop, ps: set<Path>): set<Path> {
    set p | p in ps :: [hop] + p
  }

  /** Replacing an unmarked member moves the markers of its replacement below that member, and no others. */
  lemma MarkersOfMember(fields: map<string, Value>, k: string, v: Value)
    requires k != MARK && k in fields && Markers(fields[k]) == {}
    ensures Markers(Obj(fields[k := v])) == Markers(Obj(fields)) + Under(Key(k), Markers(v))
  {
    var after := fields[k := v];
    forall p
      ensures p in Markers(Obj(after)) <==> p in Markers(Obj(fields)) + Under(Key(k), Markers(v))
    {
      if p in Markers(Obj(after)) && p != [] {
        var k', q :| k' in after && k' != MARK && q in Markers(after[k']) && p == [Key(k')] + q;
        assert k' == k || (k' in fields && q in Markers(fields[k']));
      }
      if p in Markers(Obj(fields)) && p != [] {
        var k', q :| k' in fields && k' != MARK && q in Markers(fields[k']) && p == [Key(k')] + q;
        assert k' in after && q in Markers(after[k']);
      }
      if p in Under(Key(k), Markers(v)) {
        var q :| q in Markers(v) && p == [Key(k)] + q;
        assert k in after && q in Markers(after[k]);
      }
    }
  }

  lemma MarkersOfItem(items: seq<Value>, i: nat, v: Value)
    requires i < |items| && Markers(items[i]) == {}
    ensures Markers(Arr(items[i := v])) == Markers(Arr(items)) + Under(At(i), Markers(v))
  {
    var after := items[i := v];
    forall p
      ensures p in Markers(Arr(after)) <==> p in Markers(Arr(items)) + Under(At(i), Markers(v))
    {
      if p in Markers(Arr(after)) {
        var j, q :| 0 <= j < |after| && q in Markers(after[j]) && p == [At(j)] + q;
        assert j == i || q in Markers(items[j]);
      }
      if p in Markers(Arr(items)) {
        var j, q :| 0 <= j < |items| && q in Markers(items[j]) && p == [At(j)] + q;
        assert q in Markers(after[j]);
      }
      if p in Under(At(i), Markers(v)) {
        var q :| q in Markers(v) && p == [At(i)] + q;
        assert q in Markers(after[i]);
      }
    }
  }

  lemma OpenedUnmarked(v: Value)
    requires !HasCacheControl(v)
    ensures !HasCacheControl(Opened(v))
  {
    if v.Str? {
      var block := Obj(map["type" := Str("text"), "text" := v]);
      assert !HasCacheControl(block);
      assert forall i | 0 <= i < |Opened(v).items| :: Opened(v).items[i] == block;
    }
  }

  lemma MarkersOfSpot(v: Value, spot: Option<nat>)
    requires !HasCacheControl(v)
    requires spot.Some? ==> Opened(v).Arr? && spot.value < |Opened(v).items| && Opened(v).items[spot.value].Obj?
    ensures Markers(MarkedAt(v, spot, true)) == if spot.Some? then {[At(spot.value)]} else {}
  {
    OpenedUnmarked(v);
    NoMarkers(Opened(v));
    if spot.Some? {
      var items, i := Opened(v).items, spot.value;
      assert !HasCacheControl(items[i]);
      NoMarkers(items[i]);
      MarkersOfMarked(items[i]);
      MarkersOfItem(items, i, Marked(items[i], true));
      UnderOne(At(i), []);
      var root: Path := [];
      assert [At(i)] + root == [At(i)];
    }
  }

  lemma MarkersOfMarked(v: Value)
    requires v.Obj? && !HasCacheControl(v)
    ensures Markers(Marked(v, true)) == {[]}
  {
    forall k | k in v.fields
      ensures Markers(v.fields[k]) == {}
    {
      NoMarkers(v.fields[k]);
    }
  }

  lemma UnderOne(hop: Hop, p: Path)
    ensures Under(hop, {p}) == {[hop] + p} && Under(hop, {}) == {}
  {
  }

  lemma MarkersOfTurn(m: Value)
    requires !HasCacheControl(m)
    ensures Markers(TurnEdit(m, true))
         == if m.Get("content").Some? && TurnSpot(m.fields["content"]).Some?
            then {[Key("content"), At(TurnSpot(m.fields["content"]).value)]} else {}
  {
    hide Markers, Under, MarkedAt, LastWhere;
    NoMarkers(m);
    if m.Get("content").Some? {
      var content := m.fields["content"];
      assert !HasCacheControl(content);
      NoMarkers(content);
      MarkersOfSpot(content, TurnSpot(content));
      MarkersOfMember(m.fields, "content", ContentEdit(content, true));
      if TurnSpot(content).Some? {
        UnderOne(Key("content"), [At(TurnSpot(content).value)]);
        assert [Key("content")] + [At(TurnSpot(content).value)] == [Key("content"), At(TurnSpot(content).value)];
      } else {
        UnderOne(Key("content"), []);
      }
    }
  }

  /** The place of a marker inside the list of messages. */
  ghost function TurnPlace(items: seq<Value>): set<Path> {
    var i := LastWhere(IsUserTurn, items);
    if i.Some? && items[i.value].Get("content").Some? && TurnSpot(items[i.value].fields["content"]).Some?
    then {[At(i.value), Key("content"), At(TurnSpot(items[i.value].fields["content"]).value)]}
    else {}
  }

  lemma MarkersOfMessages(items: seq<Value>)
    requires !HasCacheControl(Arr(items))
    ensures Markers(Arr(MessagesEdit(items, true))) == TurnPlace(items)
  {
    hide Markers, TurnSpot, TurnEdit, Under;
    NoMarkers(Arr(items));
    match LastWhere(IsUserTurn, items)
    case None =>
    case Some(i) =>
      assert !HasCacheControl(items[i]);
      NoMarkers(items[i]);
      MarkersOfTurn(items[i]);
      MarkersOfItem(items, i, TurnEdit(items[i], true));
      if items[i].Get("content").Some? && TurnSpot(items[i].fields["content"]).Some? {
        var j := TurnSpot(items[i].fields["content"]).value;
        UnderOne(At(i), [Key("content"), At(j)]);
        assert [At(i)] + [Key("content"), At(j)] == [At(i), Key("content"), At(j)];
      } else {
        UnderOne(At(i), []);
      }
  }

  lemma UnderMessages(items: seq<Value>, body: Value)
    requires body.Get("messages") == Some(Arr(items))
    ensures Under(Key("messages"), TurnPlace(items)) == TurnPaths(body)
  {
    UnderOne(Key("messages"), []);
    if TurnPlace(items) != {} {
      var i := LastWhere(IsUserTurn, items).value;
      var j := TurnSpot(items[i].fields["content"]).value;
      UnderOne(Key("messages"), [At(i), Key("content"), At(j)]);
      assert [Key("messages")] + [At(i), Key("content"), At(j)] == [Key("messages"), At(i), Key("content"), At(j)];
    }
  }

  lemma MarkersOfSystem(body: Value)
    requires !HasCacheControl(body) && body.Get("system").Some?
    ensures Markers(Obj(body.fields["system" := SystemEdit(body.fields["system"], true)])) == SystemPaths(body)
  {
    var m := body.fields;
    NoMarkers(body);
    assert !HasCacheControl(m["system"]);
    NoMarkers(m["system"]);
    MarkersOfSpot(m["system"], SystemSpot(m["system"]));
    MarkersOfMember(m, "system", SystemEdit(m["system"], true));
    match SystemSpot(m["system"])
    case None => UnderOne(Key("system"), []);
    case Some(i) =>
      UnderOne(Key("system"), [At(i)]);
      assert [Key("system")] + [At(i)] == [Key("system"), At(i)];
  }

  /**
   * In a body without client markers, the markers present afterwards are exactly the two spots: the last block of the
   * system prompt and the last text block of the last user turn, whichever exist. The returned count is their number.
   */
  lemma MarkersAfter(body: Value)
    requires !HasCacheControl(body)
    ensures Markers(MarkedBody(body)) == Spots(body)
    ensures |Spots(body)| <= 2
  {
    NoMarkers(body);
    SpotCount(body);
    if body.Obj? {
      var m := body.fields;
      var m1 := m;
      if "system" in m {
        MarkersOfSystem(body);
        m1 := m["system" := SystemEdit(m["system"], true)];
      }
      assert Markers(Obj(m1)) == SystemPaths(body);
      if "messages" in m && m["messages"].Arr? {
        MarkersWithMessages(body, m1);
      }
    }
  }

  lemma MarkersWithMessages(body: Value, m1: map<string, Value>)
    requires !HasCacheControl(body) && body.Get("messages").Some? && body.fields["messages"].Arr?
    requires "messages" in m1 && m1["messages"] == body.fields["messages"]
    ensures Markers(Obj(m1["messages" := Arr(MessagesEdit(m1["messages"].items, true))]))
         == Markers(Obj(m1)) + TurnPaths(body)
  {
    var items := m1["messages"].items;
    assert !HasCacheControl(body.fields["messages"]);
    NoMarkers(m1["messages"]);
    MarkersOfMessages(items);
    MarkersOfMember(m1, "messages", Arr(MessagesEdit(items, true)));
    UnderMessages(items, body);
  }

  // ---------------------------------------------------------------- nothing but markers is added

  /** Removes every marker of a tree. */
  function Erase(v: Value): Value {
    match v
    case Obj(fields) => Obj(map k | k in fields && k != MARK :: Erase(fields[k]))
    case Arr(items) => Arr(seq(|items|, i requires 0 <= i < |items| => Erase(items[i])))
    case _ => v
  }

  lemma {:induction false} EraseUnmarked(v: Value)
    requires !HasCacheControl(v)
    ensures Erase(v) == v
  {
    match v
    case Obj(fields) =>
      forall k | k in fields
        ensures Erase(fields[k]) == fields[k]
      {
        assert !HasCacheControl(fields[k]);
        EraseUnmarked(fields[k]);
      }
    case Arr(items) =>
      forall i | 0 <= i < |items|
        ensures Erase(items[i]) == items[i]
      {
        EraseUnmarked(items[i]);
      }
    case _ =>
  }

  lemma EraseMember(fields: map<string, Value>, k: string, v: Value)
    requires k != MARK
    ensures Erase(Obj(fields[k := v])) == Obj(Erase(Obj(fields)).fields[k := Erase(v)])
  {
  }

  lemma EraseItem(items: seq<Value>, i: nat, v: Value)
    requires i < |items|
    ensures Erase(Arr(items[i := v])) == Arr(Erase(Arr(items)).items[i := Erase(v)])
  {
  }

  lemma EraseMarked(v: Value, mark: bool)
    requires !HasCacheControl(v)
    ensures Erase(Marked(v, mark)) == v
  {
    EraseUnmarked(v);
    if mark && v.Obj? {
      assert Erase(Marked(v, mark)).fields == Erase(v).fields;
    }
  }

  lemma EraseMarkedAt(v: Value, spot: Option<nat>)
    requires !HasCacheControl(v)
    ensures Erase(MarkedAt(v, spot, true)) == Opened(v)
  {
    OpenedUnmarked(v);
    EraseUnmarked(Opened(v));
    var o := Opened(v);
    if spot.Some? && o.Arr? && spot.value < |o.items| {
      EraseItem(o.items, spot.value, Marked(o.items[spot.value], true));
      EraseMarked(o.items[spot.value], true);
      assert o.items[spot.value := o.items[spot.value]] == o.items;
    }
  }

  /** The body with the strings opened that the edit opens, and no marker. */
  function OpenedBody(body: Value): Value {
    if !body.Obj? then body
    else
      var m := body.fields;
      var m1 := if "system" in m then m["system" := Opened(m["system"])] else m;
      if "messages" in m && m["messages"].Arr?
      then Obj(m1["messages" := Arr(OpenedMessages(m["messages"].items))])
      else Obj(m1)
  }

  function OpenedMessages(items: seq<Value>): seq<Value> {
    match LastWhere(IsUserTurn, items)
    case None => items
    case Some(i) =>
      if items[i].Get("content").Some?
      then items[i := Obj(items[i].fields["content" := Opened(items[i].fields["content"])])]
      else items
  }

  lemma EraseMessages(items: seq<Value>)
    requires !HasCacheControl(Arr(items))
    ensures Erase(Arr(MessagesEdit(items, true))) == Arr(OpenedMessages(items))
  {
    EraseUnmarked(Arr(items));
    match LastWhere(IsUserTurn, items)
    case None =>
    case Some(i) =>
      var m := items[i];
      assert !HasCacheControl(m);
      EraseUnmarked(m);
      EraseItem(items, i, TurnEdit(m, true));
      if m.Get("content").Some? {
        var content := m.fields["content"];
        assert !HasCacheControl(content);
        EraseMarkedAt(content, TurnSpot(content));
        EraseMember(m.fields, "content", ContentEdit(content, true));
      } else {
        assert items[i := m] == items;
      }
  }

  /** Erasing the markers leaves the body as it was, but for the strings that were opened into one-block arrays. */
  lemma EraseGivesOpened(body: Value)
    requires !HasCacheControl(body)
    ensures Erase(MarkedBody(body)) == OpenedBody(body)
  {
    hide Erase, SystemSpot, MarkedAt, MessagesEdit, OpenedMessages, Opened;
    EraseUnmarked(body);
    if body.Obj? {
      var m := body.fields;
      var m1 := m;
      if "system" in m {
        assert !HasCacheControl(m["system"]);
        EraseMarkedAt(m["system"], SystemSpot(m["system"]));
        EraseMember(m, "system", SystemEdit(m["system"], true));
        m1 := m["system" := SystemEdit(m["system"], true)];
      }
      if "messages" in m && m["messages"].Arr? {
        assert !HasCacheControl(m["messages"]);
        var items := m["messages"].items;
        EraseMessages(items);
        EraseMember(m1, "messages", Arr(MessagesEdit(items, true)));
      }
    }
  }

  /** Turns a one-block text array back into its string. */
  function Collapsed(v: Value): Value {
    if v.Arr? && |v.items| == 1 && v.items[0].Get("text").Some? then v.items[0].fields["text"] else v
  }

  /** Erases all markers, then collapses the system prompt and the last user turn if they were strings. */
  function Restored(v: Value, systemWasText: bool, turnWasText: bool): Value {
    var e := Erase(v);
    if !e.Obj? then e
    else
      var m := e.fields;
      var m1 := if systemWasText && "system" in m then m["system" := Collapsed(m["system"])] else m;
      if turnWasText && "messages" in m && m["messages"].Arr?
      then Obj(m1["messages" := Arr(CollapsedMessages(m["messages"].items))])
      else Obj(m1)
  }

  function CollapsedMessages(items: seq<Value>): seq<Value> {
    match LastWhere(IsUserTurn, items)
    case None => items
    case Some(i) =>
      if items[i].Get("content").Some?
      then items[i := Obj(items[i].fields["content" := Collapsed(items[i].fields["content"])])]
      else items
  }

  predicate SystemIsText(body: Value) {
    body.Get("system").Some? && body.fields["system"].Str?
  }

  predicate TurnIsText(body: Value) {
    && body.Get("messages").Some? && body.fields["messages"].Arr?
    && var items := body.fields["messages"].items;
       var i := LastWhere(IsUserTurn, items);
       i.Some? && items[i.value].Get("content").Some? && items[i.value].fields["content"].Str?
  }

  lemma {:induction false} LastWhereUnique(holds: Value -> bool, items: seq<Value>, i: nat)
    requires i < |items| && holds(items[i]) && forall j | i < j < |items| :: !holds(items[j])
    ensures LastWhere(holds, items) == Some(i)
  {
  }

  lemma MessagesRoundTrip(items: seq<Value>, i: nat)
    requires LastWhere(IsUserTurn, items) == Some(i)
    requires items[i].Get("content").Some? && items[i].fields["content"].Str?
    ensures CollapsedMessages(OpenedMessages(items)) == items
  {
    var turn := Obj(items[i].fields["content" := Opened(items[i].fields["content"])]);
    TurnRoundTrip(items[i]);
    LastWhereKept(items, i, turn);
    assert items[i := turn][i := items[i]] == items;
  }

  lemma TurnRoundTrip(m: Value)
    requires IsUserTurn(m) && m.Get("content").Some? && m.fields["content"].Str?
    ensures var turn := Obj(m.fields["content" := Opened(m.fields["content"])]);
            && IsUserTurn(turn) && turn.Get("content").Some?
            && Obj(turn.fields["content" := Collapsed(turn.fields["content"])]) == m
  {
    var turn := Obj(m.fields["content" := Opened(m.fields["content"])]);
    assert Collapsed(turn.fields["content"]) == m.fields["content"];
    assert turn.fields["content" := m.fields["content"]] == m.fields;
  }

  lemma LastWhereKept(items: seq<Value>, i: nat, turn: Value)
    requires LastWhere(IsUserTurn, items) == Some(i) && IsUserTurn(turn)
    ensures LastWhere(IsUserTurn, items[i := turn]) == Some(i)
  {
    var wide := items[i := turn];
    assert forall j | i < j < |wide| :: wide[j] == items[j];
    LastWhereUnique(IsUserTurn, wide, i);
  }

  lemma MessagesUntouched(items: seq<Value>)
    requires !TurnIsText(Obj(map["messages" := Arr(items)]))
    ensures OpenedMessages(items) == items
  {
    match LastWhere(IsUserTurn, items)
    case None =>
    case Some(i) =>
      if items[i].Get("content").Some? {
        assert items[i].fields["content" := items[i].fields["content"]] == items[i].fields;
        assert items[i := items[i]] == items;
      }
  }

  lemma SystemRoundTrip(v: Value)
    ensures v.Str? ==> Collapsed(Opened(v)) == v
    ensures !v.Str? ==> Opened(v) == v
  {
  }

  lemma RestoresOpened(body: Value)
    requires body.Obj?
    ensures OpenedBody(body).Obj? && OpenedBody(body).fields.Keys == body.fields.Keys
    ensures forall k | k in body.fields && k != "system" && k != "messages" ::
              OpenedBody(body).fields[k] == body.fields[k]
    ensures "system" in body.fields ==> OpenedBody(body).fields["system"] == Opened(body.fields["system"])
    ensures "messages" in body.fields ==>
              var o, v := OpenedBody(body).fields["messages"], body.fields["messages"];
              o == if v.Arr? then Arr(OpenedMessages(v.items)) else v
  {
  }

  /** Marking only adds: what it did can be undone completely, whatever the body. */
  lemma MarkingOnlyAdds(body: Value)
    requires !HasCacheControl(body)
    ensures Restored(MarkedBody(body), SystemIsText(body), TurnIsText(body)) == body
  {
    EraseGivesOpened(body);
    if body.Obj? {
      var m := body.fields;
      RestoresOpened(body);
      if "system" in m {
        SystemRoundTrip(m["system"]);
      }
      if "messages" in m && m["messages"].Arr? {
        var items := m["messages"].items;
        if TurnIsText(body) {
          MessagesRoundTrip(items, LastWhere(IsUserTurn, items).value);
        } else {
          MessagesUntouched(items);
        }
      }
      RestoredIs(OpenedBody(body), body);
    }
  }

  /** Collapsing member by member. */
  lemma RestoredIs(o: Value, body: Value)
    requires o.Obj? && body.Obj? && o.fields.Keys == body.fields.Keys
    requires Erase(MarkedBody(body)) == o
    requires forall k | k in body.fields && k != "system" && k != "messages" :: o.fields[k] == body.fields[k]
    requires "system" in o.fields ==>
               body.fields["system"] == if SystemIsText(body) then Collapsed(o.fields["system"]) else o.fields["system"]
    requires TurnIsText(body) ==> o.fields["messages"].Arr?
                                  && body.fields["messages"] == Arr(CollapsedMessages(o.fields["messages"].items))
    requires !TurnIsText(body) && "messages" in o.fields ==> body.fields["messages"] == o.fields["messages"]
    ensures Restored(MarkedBody(body), SystemIsText(body), TurnIsText(body)) == body
  {
    hide Erase, MarkedBody, Collapsed, CollapsedMessages, SystemIsText, TurnIsText;
    assert Restored(MarkedBody(body), SystemIsText(body), TurnIsText(body)).fields == body.fields;
  }

  /** A second application changes nothing. */
  lemma MarkingIdempotent(body: Value)
    ensures MarkedBody(MarkedBody(body)) == MarkedBody(body)
  {
    if !HasCacheControl(body) {
      MarkersAfter(body);
      NoMarkers(MarkedBody(body));
      if Spots(body) == {} {
        UntouchedWithoutSpot(body);
      }
    }
  }

  /** A body that offers no spot comes out as it went in. */
  lemma UntouchedWithoutSpot(body: Value)
    requires !HasCacheControl(body) && Spots(body) == {}
    ensures MarkedBody(body) == body
  {
    MarkersAfter(body);
    NoMarkers(MarkedBody(body));
    EraseGivesOpened(body);
    EraseUnmarked(MarkedBody(body));
    NothingOpened(body);
  }

  /** A last user turn that is plain text always offers a spot. */
  lemma TextTurnHasSpot(body: Value)
    requires TurnIsText(body)
    ensures TurnPaths(body) != {}
  {
    var items := body.fields["messages"].items;
    var text := items[LastWhere(IsUserTurn, items).value].fields["content"];
    LastWhereUnique(IsTextBlock, Opened(text).items, 0);
  }

  /** Without a spot nothing was opened either: an opened string always offers one. */
  lemma NothingOpened(body: Value)
    requires Spots(body) == {}
    ensures OpenedBody(body) == body
  {
    if body.Obj? {
      var m := body.fields;
      if "system" in m {
        assert SystemPaths(body) == {};
        assert !m["system"].Str?;
        assert m["system" := m["system"]] == m;
      }
      if "messages" in m && m["messages"].Arr? {
        var items := m["messages"].items;
        assert TurnPaths(body) == {};
        if TurnIsText(body) {
          TextTurnHasSpot(body);
        }
        MessagesUntouched(items);
        assert m["messages" := Arr(items)] == m;
      }
    }
  }
}

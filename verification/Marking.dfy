/**
 * Where the prompt-cache markers of a request body are put, in terms of the body's JSON
 * (src/adapter/outbound/prompt_cache.rs).
 */
module Marking {
  import opened Base
  import opened Json
  import opened PromptCache

  // ---------------------------------------------------------------- what a marker is

  /** The value at a path of a tree. */
  function ValueAt(v: Value, path: Path): Option<Value>
    decreases |path|
  {
    if path == [] then Some(v)
    else match path[0]
         case Key(k) => if v.Obj? && k in v.fields then ValueAt(v.fields[k], path[1..]) else None
         case At(i) => if v.Arr? && i < |v.items| then ValueAt(v.items[i], path[1..]) else None
  }

  lemma UnderKey(v: Value, k: string, rest: Path)
    ensures ValueAt(v, [Key(k)] + rest) == if v.Obj? && k in v.fields then ValueAt(v.fields[k], rest) else None
  {
    assert ([Key(k)] + rest)[1..] == rest;
  }

  lemma UnderItem(v: Value, i: nat, rest: Path)
    ensures ValueAt(v, [At(i)] + rest) == if v.Arr? && i < |v.items| then ValueAt(v.items[i], rest) else None
  {
    assert ([At(i)] + rest)[1..] == rest;
  }

  /** The markers of a tree are its members named `cache_control`, but for those inside one. */
  lemma {:induction false} MarkersAre(v: Value, p: Path)
    ensures p in Markers(v)
       <==> ValueAt(v, p + [Key("cache_control")]).Some? && Key("cache_control") !in p
    decreases |p|
  {
    if p == [] {
      assert p + [Key("cache_control")] == [Key("cache_control")] + [];
      UnderKey(v, "cache_control", []);
    } else {
      var hop, rest := p[0], p[1..];
      assert p == [hop] + rest && p + [Key("cache_control")] == [hop] + (rest + [Key("cache_control")]);
      match hop
      case Key(k) =>
        UnderKey(v, k, rest + [Key("cache_control")]);
        if v.Obj? && k in v.fields {
          MarkersAre(v.fields[k], rest);
        }
        FirstHop(v, hop, rest);
      case At(i) =>
        UnderItem(v, i, rest + [Key("cache_control")]);
        if v.Arr? && i < |v.items| {
          MarkersAre(v.items[i], rest);
        }
        FirstHop(v, hop, rest);
    }
  }

  /** A marker below the root lies below the member or element its path begins with. */
  lemma FirstHop(v: Value, hop: Hop, rest: Path)
    ensures [hop] + rest in Markers(v)
       <==> match hop
            case Key(k) => v.Obj? && k in v.fields && k != "cache_control" && rest in Markers(v.fields[k])
            case At(i) => v.Arr? && i < |v.items| && rest in Markers(v.items[i])
  {
    var p := [hop] + rest;
    assert p[0] == hop && p[1..] == rest;
    match v
    case Obj(fields) =>
      if p in Markers(v) {
        var k, q :| k in fields && k != MARK && q in Markers(fields[k]) && p == [Key(k)] + q;
        assert ([Key(k)] + q)[0] == Key(k) && ([Key(k)] + q)[1..] == q;
      }
    case Arr(items) =>
      if p in Markers(v) {
        var i, q :| 0 <= i < |items| && q in Markers(items[i]) && p == [At(i)] + q;
        assert ([At(i)] + q)[0] == At(i) && ([At(i)] + q)[1..] == q;
      }
    case _ =>
  }

  // ---------------------------------------------------------------- the places the edit marks

  /** Message `i` is the last one whose role is `user`. */
  predicate LastUser(messages: seq<Value>, i: nat) {
    && i < |messages| && messages[i].Get("role") == Some(Str("user"))
    && forall k | i < k < |messages| :: messages[k].Get("role") != Some(Str("user"))
  }

  /** Block `j` is the last one whose type is `text`. */
  predicate LastText(blocks: seq<Value>, j: nat) {
    && j < |blocks| && blocks[j].Get("type") == Some(Str("text"))
    && forall k | j < k < |blocks| :: blocks[k].Get("type") != Some(Str("text"))
  }

  /** The block of a turn's content that is marked; a plain string becomes the only block. */
  predicate TurnBlock(content: Value, j: nat) {
    if content.Str? then j == 0 else content.Arr? && LastText(content.items, j)
  }

  /** The block of a system prompt that is marked. */
  predicate SystemBlock(system: Value, j: nat) {
    if system.Str? then j == 0 else system.Arr? && j == |system.items| - 1 && system.items[j].Obj?
  }

  lemma {:induction false} LastWhereIs(holds: Value -> bool, items: seq<Value>, i: nat)
    ensures LastWhere(holds, items) == Some(i)
       <==> i < |items| && holds(items[i]) && forall k | i < k < |items| :: !holds(items[k])
  {
    if i < |items| && holds(items[i]) && forall k | i < k < |items| :: !holds(items[k]) {
      LastWhereUnique(holds, items, i);
    }
  }

  lemma LastUserIs(messages: seq<Value>, i: nat)
    ensures LastWhere(IsUserTurn, messages) == Some(i) <==> LastUser(messages, i)
  {
    LastWhereIs(IsUserTurn, messages, i);
    hide LastWhere;
    forall k | 0 <= k < |messages|
      ensures IsUserTurn(messages[k]) <==> messages[k].Get("role") == Some(Str("user"))
    {
    }
  }

  lemma TurnBlockIs(content: Value, j: nat)
    ensures TurnSpot(content) == Some(j) <==> TurnBlock(content, j)
  {
    var o := Opened(content);
    if o.Arr? {
      LastWhereIs(IsTextBlock, o.items, j);
      forall k | 0 <= k < |o.items|
        ensures IsTextBlock(o.items[k]) <==> o.items[k].Get("type") == Some(Str("text"))
      {
      }
    }
    hide LastWhere;
  }

  lemma SystemBlockIs(system: Value, j: nat)
    ensures SystemSpot(system) == Some(j) <==> SystemBlock(system, j)
  {
  }

  /** The body has a system prompt whose marked block is `j`. */
  predicate SystemPlace(body: Value, j: nat) {
    body.Get("system").Some? && SystemBlock(body.fields["system"], j)
  }

  /** The body has a message `i`, the last of the user, with content whose marked block is `j`. */
  predicate TurnPlace(body: Value, i: nat, j: nat) {
    && body.Get("messages").Some? && body.fields["messages"].Arr?
    && var messages := body.fields["messages"].items;
       LastUser(messages, i) && messages[i].Get("content").Some? && TurnBlock(messages[i].fields["content"], j)
  }

  /**
   * In a body without client markers the edit marks exactly: the last block of the system prompt, if that is an object,
   * and the last text block of the last user message, if it has content with one; strings count as one text block.
   */
  lemma MarkedPlaces(body: Value, p: Path)
    requires !HasCacheControl(body)
    ensures p in Markers(MarkedBody(body)) <==>
            || (exists j: nat :: SystemPlace(body, j) && p == [Key("system"), At(j)])
            || (exists i: nat, j: nat :: TurnPlace(body, i, j) && p == [Key("messages"), At(i), Key("content"), At(j)])
  {
    MarkersAfter(body);
    hide Markers, MarkedBody, SystemPlace, TurnPlace, SystemPaths, TurnPaths;
    SystemPlaces(body, p);
    TurnPlaces(body, p);
  }

  lemma SystemPlaces(body: Value, p: Path)
    ensures p in SystemPaths(body) <==> exists j: nat :: SystemPlace(body, j) && p == [Key("system"), At(j)]
  {
    hide SystemSpot, SystemBlock;
    if body.Get("system").Some? {
      var system := body.fields["system"];
      forall j: nat
        ensures SystemSpot(system) == Some(j) <==> SystemBlock(system, j)
      {
        SystemBlockIs(system, j);
      }
      if p in SystemPaths(body) {
        assert SystemPlace(body, SystemSpot(system).value);
      }
    }
  }

  lemma TurnPlaceIs(body: Value, i: nat, j: nat)
    ensures TurnPlace(body, i, j) ==> TurnPaths(body) == {[Key("messages"), At(i), Key("content"), At(j)]}
  {
    hide TurnSpot, LastWhere, TurnBlock, LastUser;
    if TurnPlace(body, i, j) {
      LastUserIs(body.fields["messages"].items, i);
      TurnBlockIs(body.fields["messages"].items[i].fields["content"], j);
    }
  }

  lemma TurnPlaces(body: Value, p: Path)
    ensures p in TurnPaths(body)
       <==> exists i: nat, j: nat :: TurnPlace(body, i, j) && p == [Key("messages"), At(i), Key("content"), At(j)]
  {
    if i: nat, j: nat :| TurnPlace(body, i, j) && p == [Key("messages"), At(i), Key("content"), At(j)] {
      TurnPlaceIs(body, i, j);
    }
    hide TurnSpot, LastWhere, TurnBlock, LastUser;
    if p in TurnPaths(body) {
      var items := body.fields["messages"].items;
      var i := LastWhere(IsUserTurn, items).value;
      var j := TurnSpot(items[i].fields["content"]).value;
      LastUserIs(items, i);
      TurnBlockIs(items[i].fields["content"], j);
      assert TurnPlace(body, i, j);
    }
  }

  // ---------------------------------------------------------------- what is put there

  /** Every marker the edit puts is the same: `{"type": "ephemeral"}`. */
  lemma MarkersAreEphemeral(body: Value, p: Path)
    requires !HasCacheControl(body) && p in Markers(MarkedBody(body))
    ensures ValueAt(MarkedBody(body), p + [Key("cache_control")]) == Some(Obj(map["type" := Str("ephemeral")]))
  {
    MarkersAfter(body);
    if p in SystemPaths(body) {
      SystemEphemeral(body);
    } else {
      TurnEphemeral(body);
    }
  }

  lemma SpotEphemeral(v: Value, spot: Option<nat>)
    requires spot.Some? && Opened(v).Arr? && spot.value < |Opened(v).items| && Opened(v).items[spot.value].Obj?
    ensures ValueAt(MarkedAt(v, spot, true), [At(spot.value), Key("cache_control")])
         == Some(Obj(map["type" := Str("ephemeral")]))
  {
    var marked := MarkedAt(v, spot, true);
    assert [At(spot.value), Key("cache_control")] == [At(spot.value)] + [Key("cache_control")];
    UnderItem(marked, spot.value, [Key("cache_control")]);
    assert [Key("cache_control")] == [Key("cache_control")] + [];
    UnderKey(marked.items[spot.value], "cache_control", []);
  }

  lemma SystemEphemeral(body: Value)
    requires !HasCacheControl(body) && SystemPaths(body) != {}
    ensures ValueAt(MarkedBody(body),
                    [Key("system"), At(SystemSpot(body.fields["system"]).value)] + [Key("cache_control")])
         == Some(Obj(map["type" := Str("ephemeral")]))
  {
    var system := body.fields["system"];
    var spot := SystemSpot(system);
    SpotEphemeral(system, spot);
    assert [Key("system"), At(spot.value)] + [Key("cache_control")]
        == [Key("system")] + [At(spot.value), Key("cache_control")];
    hide ValueAt, MarkedAt, Opened, MessagesEdit, HasCacheControl, SystemSpot;
    UnderKey(MarkedBody(body), "system", [At(spot.value), Key("cache_control")]);
  }

  lemma TurnEphemeral(body: Value)
    requires !HasCacheControl(body) && TurnPaths(body) != {}
    ensures forall p | p in TurnPaths(body) ::
              ValueAt(MarkedBody(body), p + [Key("cache_control")]) == Some(Obj(map["type" := Str("ephemeral")]))
  {
    var items := body.fields["messages"].items;
    var i := LastWhere(IsUserTurn, items).value;
    var content := items[i].fields["content"];
    var spot := TurnSpot(content);
    assert Opened(content).items[spot.value].Obj?;
    SpotEphemeral(content, spot);
    hide ValueAt, MarkedAt, Opened, HasCacheControl, TurnSpot, LastWhere, SystemEdit;
    var end: Path := [At(spot.value), Key("cache_control")];
    UnderKey(TurnEdit(items[i], true), "content", end);
    UnderItem(Arr(MessagesEdit(items, true)), i, [Key("content")] + end);
    UnderKey(MarkedBody(body), "messages", [At(i)] + ([Key("content")] + end));
    assert [Key("messages"), At(i), Key("content"), At(spot.value)] + [Key("cache_control")]
        == [Key("messages")] + ([At(i)] + ([Key("content")] + end));
  }
}

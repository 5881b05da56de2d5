/**
 * The Responses surface: output items, the accumulation of streamed tool calls, and the closing burst of a stream
 * against the non-streamed rendering (src/adapter/inbound/responses.rs).
 */
module Responses {
  import opened Base
  import opened Translator

  // ---------------------------------------------------------------- output items

  datatype OutItem =
    | MessageItem(id: string, text: string)
    | CallItem(id: string, callId: string, name: string, arguments: string)

  datatype Event =
    | Created(responseId: string)
    | TextDelta(itemId: string, delta: string)
    | ItemDone(outputIndex: nat, item: OutItem)
    | Completed(responseId: string, inputTokens: nat, outputTokens: nat)

  const RESP := "resp_"

  function ResponseId(id: string): string {
    if RESP <= id then id else if id == "" then "resp_agos" else RESP + id
  }

  function MessageOf(text: string, responseId: string): OutItem {
    MessageItem("msg_" + responseId, text)
  }

  function FunctionCallItem(call: ToolCall, index: nat): OutItem {
    var id := if call.id == "" then "fc_" + Decimal(index) else call.id;
    CallItem(id, if call.callId == "" then id else call.callId, call.name, call.arguments)
  }

  /** The `output` of the non-streamed rendering. */
  function RenderOutput(resp: CanonicalResponse): seq<OutItem> {
    (if resp.text != "" then [MessageOf(resp.text, ResponseId(resp.id))] else [])
    + seq(|resp.toolCalls|, i requires 0 <= i < |resp.toolCalls| => FunctionCallItem(resp.toolCalls[i], i))
  }

  // ---------------------------------------------------------------- accumulating tool calls

  function Latest(known: string, update: Option<string>): string {
    if update.Some? && update.value != "" then update.value else known
  }

  function AbsorbInto(call: ToolCall, d: ToolCallDelta): ToolCall {
    ToolCall(Latest(call.id, d.id), Latest(call.callId, d.callId), Latest(call.name, d.name),
             call.arguments + d.argumentsDelta.UnwrapOr(""))
  }

  /** Pads with blank calls up to length `n`. */
  function Resized(calls: seq<ToolCall>, n: nat): (r: seq<ToolCall>)
    ensures |r| == if n < |calls| then |calls| else n
    ensures forall i | 0 <= i < |r| :: r[i] == if i < |calls| then calls[i] else Blank()
  {
    if n <= |calls| then calls else calls + seq(n - |calls|, _ => Blank())
  }

  function Absorbed(calls: seq<ToolCall>, d: ToolCallDelta): seq<ToolCall> {
    var wide := Resized(calls, d.index + 1);
    wide[d.index := AbsorbInto(wide[d.index], d)]
  }

  function AbsorbedAll(calls: seq<ToolCall>, ds: seq<ToolCallDelta>): seq<ToolCall>
    decreases |ds|
  {
    if ds == [] then calls else AbsorbedAll(Absorbed(calls, ds[0]), ds[1..])
  }

  /** The fragments of one call, in order. */
  function Project(ds: seq<ToolCallDelta>, index: nat): seq<ToolCallDelta> {
    if ds == [] then []
    else (if ds[0].index == index then [ds[0]] else []) + Project(ds[1..], index)
  }

  function FoldOne(call: ToolCall, ds: seq<ToolCallDelta>): ToolCall
    decreases |ds|
  {
    if ds == [] then call else FoldOne(AbsorbInto(call, ds[0]), ds[1..])
  }

  function SlotOf(calls: seq<ToolCall>, i: nat): ToolCall {
    if i < |calls| then calls[i] else Blank()
  }

  /** However fragments of different calls interleave, each call is built from its own fragments alone. */
  lemma {:induction false} AbsorbProjects(calls: seq<ToolCall>, ds: seq<ToolCallDelta>, i: nat)
    ensures SlotOf(AbsorbedAll(calls, ds), i) == FoldOne(SlotOf(calls, i), Project(ds, i))
    ensures |AbsorbedAll(calls, ds)| >= |calls|
    ensures Project(ds, i) != [] ==> i < |AbsorbedAll(calls, ds)|
    ensures (forall d | d in ds :: d.index < i) && |calls| <= i ==> |AbsorbedAll(calls, ds)| <= i
    decreases |ds|
  {
    if ds != [] {
      AbsorbProjects(Absorbed(calls, ds[0]), ds[1..], i);
      if ds[0].index == i {
        assert ([ds[0]] + Project(ds[1..], i))[1..] == Project(ds[1..], i);
      } else {
        assert [] + Project(ds[1..], i) == Project(ds[1..], i);
      }
      assert forall d | d in ds[1..] :: d in ds;
    }
  }

  /** What a run of fragments leaves in a field: each fragment repeats the value, leaves it blank or omits it. */
  predicate Names(values: seq<Option<string>>, target: string) {
    && (forall v | v in values :: v == None || v == Some("") || v == Some(target))
    && (target == "" || Some(target) in values)
  }

  function Ids(ds: seq<ToolCallDelta>): seq<Option<string>> {
    seq(|ds|, i requires 0 <= i < |ds| => ds[i].id)
  }

  function CallIds(ds: seq<ToolCallDelta>): seq<Option<string>> {
    seq(|ds|, i requires 0 <= i < |ds| => ds[i].callId)
  }

  function NameParts(ds: seq<ToolCallDelta>): seq<Option<string>> {
    seq(|ds|, i requires 0 <= i < |ds| => ds[i].name)
  }

  function ArgumentsOf(ds: seq<ToolCallDelta>): string {
    if ds == [] then "" else ds[0].argumentsDelta.UnwrapOr("") + ArgumentsOf(ds[1..])
  }

  /** `ds` is a cutting of `call` into fragments: its arguments cut anywhere, its ids and name given at least once. */
  predicate CutsInto(call: ToolCall, ds: seq<ToolCallDelta>) {
    && Names(Ids(ds), call.id)
    && Names(CallIds(ds), call.callId)
    && Names(NameParts(ds), call.name)
    && ArgumentsOf(ds) == call.arguments
  }

  function FoldField(known: string, values: seq<Option<string>>): string
    decreases |values|
  {
    if values == [] then known else FoldField(Latest(known, values[0]), values[1..])
  }

  lemma {:induction false} FoldOneFields(call: ToolCall, ds: seq<ToolCallDelta>)
    ensures FoldOne(call, ds) == ToolCall(FoldField(call.id, Ids(ds)), FoldField(call.callId, CallIds(ds)),
                                          FoldField(call.name, NameParts(ds)), call.arguments + ArgumentsOf(ds))
    decreases |ds|
  {
    hide Latest;
    if ds == [] {
      assert call.arguments + "" == call.arguments;
    } else {
      FoldOneFields(AbsorbInto(call, ds[0]), ds[1..]);
      Assoc(call.arguments, ds[0].argumentsDelta.UnwrapOr(""), ArgumentsOf(ds[1..]));
      assert Ids(ds)[1..] == Ids(ds[1..]);
      assert CallIds(ds)[1..] == CallIds(ds[1..]);
      assert NameParts(ds)[1..] == NameParts(ds[1..]);
    }
  }

  lemma {:induction false} FoldFieldSettles(known: string, values: seq<Option<string>>, target: string)
    requires known == "" || known == target
    requires forall v | v in values :: v == None || v == Some("") || v == Some(target)
    ensures FoldField(known, values) == if Some(target) in values then target else known
    decreases |values|
  {
    if values != [] {
      assert values[0] in values && forall v | v in values[1..] :: v in values;
      FoldFieldSettles(Latest(known, values[0]), values[1..], target);
    }
  }

  /** A call is folded back from any cutting of it. */
  lemma CutFolds(call: ToolCall, ds: seq<ToolCallDelta>)
    requires CutsInto(call, ds)
    ensures FoldOne(Blank(), ds) == call
  {
    FoldOneFields(Blank(), ds);
    FoldFieldSettles("", Ids(ds), call.id);
    FoldFieldSettles("", CallIds(ds), call.callId);
    FoldFieldSettles("", NameParts(ds), call.name);
    assert "" + call.arguments == call.arguments;
  }

  /** Any cutting of any calls into fragments, interleaved in any way, is absorbed back into exactly those calls. */
  lemma {:induction false} AbsorbRebuilds(calls: seq<ToolCall>, ds: seq<ToolCallDelta>)
    requires forall i | 0 <= i < |calls| :: Project(ds, i) != [] && CutsInto(calls[i], Project(ds, i))
    requires forall d | d in ds :: d.index < |calls|
    ensures AbsorbedAll([], ds) == calls
  {
    var built := AbsorbedAll([], ds);
    AbsorbProjects([], ds, |calls|);
    if calls != [] {
      AbsorbProjects([], ds, |calls| - 1);
    }
    assert |built| == |calls|;
    forall i | 0 <= i < |calls|
      ensures built[i] == calls[i]
    {
      AbsorbProjects([], ds, i);
      CutFolds(calls[i], Project(ds, i));
      assert SlotOf(built, i) == calls[i];
    }
  }

  // ---------------------------------------------------------------- the closing burst

  /** The finished items of a turn, from call `from` on; a call without a name is left out but keeps its place. */
  function CallEvents(calls: seq<ToolCall>, base: nat, from: nat): seq<Event>
    requires from <= |calls|
    decreases |calls| - from
  {
    if from == |calls| then []
    else
      (if calls[from].name == "" then [] else [ItemDone(base + from, FunctionCallItem(calls[from], from))])
      + CallEvents(calls, base, from + 1)
  }

  function ItemEvents(responseId: string, text: string, calls: seq<ToolCall>): seq<Event> {
    if text != ""
    then [ItemDone(0, MessageOf(text, responseId))] + CallEvents(calls, 1, 0)
    else CallEvents(calls, 0, 0)
  }

  function Closing(responseId: string, text: string, calls: seq<ToolCall>, prompt: nat, completion: nat): seq<Event> {
    ItemEvents(responseId, text, calls) + [Completed(responseId, prompt, completion)]
  }

  /** Item events alone, with strictly increasing output indices, all at least `least`. */
  predicate Ascending(events: seq<Event>, least: nat) {
    && (forall i | 0 <= i < |events| :: events[i].ItemDone? && events[i].outputIndex >= least)
    && (forall i, j | 0 <= i < j < |events| :: events[i].ItemDone? && events[j].ItemDone? ==>
          events[i].outputIndex < events[j].outputIndex)
  }

  lemma {:induction false} CallEventsAscend(calls: seq<ToolCall>, base: nat, from: nat)
    requires from <= |calls|
    ensures Ascending(CallEvents(calls, base, from), base + from)
    decreases |calls| - from
  {
    hide FunctionCallItem;
    if from < |calls| {
      CallEventsAscend(calls, base, from + 1);
    }
  }

  lemma ItemEventsAscend(responseId: string, text: string, calls: seq<ToolCall>)
    ensures Ascending(ItemEvents(responseId, text, calls), 0)
  {
    CallEventsAscend(calls, 0, 0);
    CallEventsAscend(calls, 1, 0);
  }

  function ItemsOf(events: seq<Event>): seq<OutItem> {
    if events == [] then []
    else (if events[0].ItemDone? then [events[0].item] else []) + ItemsOf(events[1..])
  }

  function CallItems(calls: seq<ToolCall>, from: nat): seq<OutItem>
    requires from <= |calls|
  {
    seq(|calls| - from, i requires 0 <= i < |calls| - from => FunctionCallItem(calls[from + i], from + i))
  }

  lemma {:induction false} CallEventCount(calls: seq<ToolCall>, base: nat, from: nat)
    requires from <= |calls|
    ensures |ItemsOf(CallEvents(calls, base, from))| <= |calls| - from
    ensures (|ItemsOf(CallEvents(calls, base, from))| == |calls| - from) ==>
              forall i | from <= i < |calls| :: calls[i].name != ""
    decreases |calls| - from
  {
    hide FunctionCallItem;
    if from < |calls| {
      var more := CallEvents(calls, base, from + 1);
      CallEventCount(calls, base, from + 1);
      if calls[from].name == "" {
        assert CallEvents(calls, base, from) == more;
      } else {
        ItemsCons(base + from, FunctionCallItem(calls[from], from), more);
      }
    }
  }

  lemma ItemsCons(index: nat, item: OutItem, more: seq<Event>)
    ensures ItemsOf([ItemDone(index, item)] + more) == [item] + ItemsOf(more)
  {
    assert ([ItemDone(index, item)] + more)[1..] == more;
  }

  lemma {:induction false} NamedCallItems(calls: seq<ToolCall>, base: nat, from: nat)
    requires from <= |calls|
    requires forall i | from <= i < |calls| :: calls[i].name != ""
    ensures ItemsOf(CallEvents(calls, base, from)) == CallItems(calls, from)
    decreases |calls| - from
  {
    if from < |calls| {
      var head := FunctionCallItem(calls[from], from);
      NamedCallItems(calls, base, from + 1);
      ItemsCons(base + from, head, CallEvents(calls, base, from + 1));
      assert CallItems(calls, from) == [head] + CallItems(calls, from + 1);
    }
  }

  /**
   * The items a stream closes with are the `output` of the non-streamed rendering of the same id, text and calls,
   * exactly when every call has a name.
   */
  lemma StreamedItemsAgree(resp: CanonicalResponse)
    ensures ItemsOf(ItemEvents(ResponseId(resp.id), resp.text, resp.toolCalls)) == RenderOutput(resp)
       <==> forall i | 0 <= i < |resp.toolCalls| :: resp.toolCalls[i].name != ""
  {
    var calls, id := resp.toolCalls, ResponseId(resp.id);
    var base := if resp.text != "" then 1 else 0;
    var events := CallEvents(calls, base, 0);
    CallEventCount(calls, base, 0);
    if forall i | 0 <= i < |calls| :: calls[i].name != "" {
      NamedCallItems(calls, base, 0);
    }
    var listed := seq(|calls|, i requires 0 <= i < |calls| => FunctionCallItem(calls[i], i));
    assert listed == CallItems(calls, 0);
    if resp.text != "" {
      ItemsCons(0, MessageOf(resp.text, id), events);
    } else {
      assert RenderOutput(resp) == listed;
    }
  }

  // ---------------------------------------------------------------- what the items hold

  /** An item that carries call `call`, the `k`th of its response. */
  predicate Carries(item: OutItem, call: ToolCall, k: nat) {
    && item.CallItem?
    && item.name == call.name && item.arguments == call.arguments
    && item.id == (if call.id != "" then call.id else "fc_" + Decimal(k))
    && item.callId == (if call.callId != "" then call.callId else item.id)
  }

  /** An item that carries the text of response `id`. */
  predicate Says(item: OutItem, text: string, id: string) {
    item.MessageItem? && item.text == text && item.id == "msg_" + id
  }

  /** The non-streamed output: the text, if there is one, then one item for each call, in order. */
  lemma OutputHolds(resp: CanonicalResponse)
    ensures var out, calls, base := RenderOutput(resp), resp.toolCalls, if resp.text != "" then 1 else 0;
            && |out| == base + |calls|
            && (resp.text != "" ==> Says(out[0], resp.text, ResponseId(resp.id)))
            && forall k | 0 <= k < |calls| :: Carries(out[base + k], calls[k], k)
  {
    hide Carries, FunctionCallItem;
    forall k | 0 <= k < |resp.toolCalls|
      ensures Carries(FunctionCallItem(resp.toolCalls[k], k), resp.toolCalls[k], k)
    {
      ItemCarries(resp.toolCalls[k], k);
    }
  }

  /** How many of the first `k` calls have a name. */
  function NamedBefore(calls: seq<ToolCall>, k: nat): nat
    requires k <= |calls|
  {
    if k == 0 then 0 else NamedBefore(calls, k - 1) + if calls[k - 1].name == "" then 0 else 1
  }

  lemma {:induction false} CallEventAt(calls: seq<ToolCall>, base: nat, from: nat, k: nat)
    requires from <= k < |calls| && calls[k].name != ""
    ensures NamedBefore(calls, from) <= NamedBefore(calls, k)
    ensures var i, events := NamedBefore(calls, k) - NamedBefore(calls, from), CallEvents(calls, base, from);
            && i < |events| && events[i].ItemDone? && events[i].outputIndex == base + k
            && Carries(events[i].item, calls[k], k)
    decreases k - from
  {
    hide FunctionCallItem, Carries, CallEvents;
    if from == k {
      ItemCarries(calls[k], k);
      CallEventFirst(calls, base, k);
    } else {
      CallEventAt(calls, base, from + 1, k);
      NamedStep(calls, from);
      hide NamedBefore;
      if calls[from].name != "" {
        CallEventFirst(calls, base, from);
      } else {
        CallEventNone(calls, base, from);
      }
    }
  }

  lemma NamedStep(calls: seq<ToolCall>, k: nat)
    requires k < |calls|
    ensures NamedBefore(calls, k + 1) == NamedBefore(calls, k) + if calls[k].name == "" then 0 else 1
  {
  }

  lemma CallEventFirst(calls: seq<ToolCall>, base: nat, from: nat)
    requires from < |calls| && calls[from].name != ""
    ensures CallEvents(calls, base, from)
         == [ItemDone(base + from, FunctionCallItem(calls[from], from))] + CallEvents(calls, base, from + 1)
  {
  }

  lemma CallEventNone(calls: seq<ToolCall>, base: nat, from: nat)
    requires from < |calls| && calls[from].name == ""
    ensures CallEvents(calls, base, from) == CallEvents(calls, base, from + 1)
  {
    assert CallEvents(calls, base, from) == [] + CallEvents(calls, base, from + 1);
  }

  lemma ItemCarries(call: ToolCall, k: nat)
    ensures Carries(FunctionCallItem(call, k), call, k)
  {
  }

  lemma {:induction false} CallEventTotal(calls: seq<ToolCall>, base: nat, from: nat)
    requires from <= |calls|
    ensures |CallEvents(calls, base, from)| == NamedBefore(calls, |calls|) - NamedBefore(calls, from)
    decreases |calls| - from
  {
    hide FunctionCallItem;
    if from < |calls| {
      CallEventTotal(calls, base, from + 1);
    }
  }

  /**
   * The closing burst: the text, if there is one, then one item for each call with a name, in order and at the index of
   * its call, then the completion with its counts, and nothing else.
   */
  lemma ClosingHolds(responseId: string, text: string, calls: seq<ToolCall>, prompt: nat, completion: nat)
    ensures var sent, base := Closing(responseId, text, calls, prompt, completion), if text != "" then 1 else 0;
            && |sent| == base + NamedBefore(calls, |calls|) + 1
            && (text != "" ==> sent[0].ItemDone? && sent[0].outputIndex == 0 && Says(sent[0].item, text, responseId))
            && sent[|sent| - 1] == Completed(responseId, prompt, completion)
    ensures forall k | 0 <= k < |calls| && calls[k].name != "" ::
              var sent, i := Closing(responseId, text, calls, prompt, completion),
                             (if text != "" then 1 else 0) + NamedBefore(calls, k);
              && i < |sent| && sent[i].ItemDone? && sent[i].outputIndex == (if text != "" then 1 else 0) + k
              && Carries(sent[i].item, calls[k], k)
  {
    var base := if text != "" then 1 else 0;
    hide CallEvents, FunctionCallItem, Carries, NamedBefore;
    CallEventTotal(calls, base, 0);
    NoneBefore(calls);
    forall k | 0 <= k < |calls| && calls[k].name != ""
      ensures var sent, i := Closing(responseId, text, calls, prompt, completion), base + NamedBefore(calls, k);
              && i < |sent| && sent[i].ItemDone? && sent[i].outputIndex == base + k
              && Carries(sent[i].item, calls[k], k)
    {
      CallEventAt(calls, base, 0, k);
    }
  }

  lemma NoneBefore(calls: seq<ToolCall>)
    ensures NamedBefore(calls, 0) == 0
  {
  }

  /** A response id always has its prefix, is kept when it has it already, and is never made twice. */
  lemma ResponseIdPrefixed(id: string)
    ensures "resp_" <= ResponseId(id)
    ensures ResponseId(id) == id <==> "resp_" <= id
    ensures !("resp_" <= id) ==> ResponseId(id) == "resp_" + if id == "" then "agos" else id
  {
  }

  /** `value` is the last of the values that is neither absent nor empty, or `known` when there is none. */
  predicate Newest(values: seq<Option<string>>, known: string, value: string) {
    || (value == known && forall i | 0 <= i < |values| :: Missing(values[i]))
    || (exists i | 0 <= i < |values| ::
          values[i] == Some(value) && value != "" && forall j | i < j < |values| :: Missing(values[j]))
  }

  predicate Missing(v: Option<string>) {
    v == None || v == Some("")
  }

  lemma {:induction false} FoldFieldNewest(known: string, values: seq<Option<string>>)
    ensures Newest(values, known, FoldField(known, values))
    decreases |values|
  {
    if values != [] {
      var first, more := values[0], values[1..];
      FoldFieldNewest(Latest(known, first), more);
      NewestCons(known, first, more, FoldField(Latest(known, first), more));
    }
  }

  lemma NewestCons(known: string, first: Option<string>, more: seq<Option<string>>, value: string)
    requires Newest(more, Latest(known, first), value)
    ensures Newest([first] + more, known, value)
  {
    var all := [first] + more;
    assert forall i | 0 <= i < |more| :: all[i + 1] == more[i];
    if i :| 0 <= i < |more| && more[i] == Some(value) && value != ""
            && forall j | i < j < |more| :: Missing(more[j]) {
      assert all[i + 1] == Some(value);
      assert forall j | i + 1 < j < |all| :: all[j] == more[j - 1];
    } else {
      assert value == Latest(known, first);
      assert forall j | 0 < j < |all| :: all[j] == more[j - 1];
      assert !Missing(first) ==> all[0] == Some(value);
    }
  }

  /**
   * However the fragments of a turn interleave, each call ends up with the last id, call id and name sent for it that
   * are not empty, and with its arguments joined in order.
   */
  lemma AbsorbsNewest(ds: seq<ToolCallDelta>, k: nat)
    ensures var call, own := SlotOf(AbsorbedAll([], ds), k), Project(ds, k);
            && Newest(Ids(own), "", call.id) && Newest(CallIds(own), "", call.callId)
            && Newest(NameParts(own), "", call.name) && call.arguments == ArgumentsOf(own)
  {
    hide Newest, FoldField;
    var own := Project(ds, k);
    AbsorbProjects([], ds, k);
    FoldOneFields(Blank(), own);
    FoldFieldNewest("", Ids(own));
    FoldFieldNewest("", CallIds(own));
    FoldFieldNewest("", NameParts(own));
    assert "" + ArgumentsOf(own) == ArgumentsOf(own);
  }
}

/** Reading tool calls out of OpenAI-shaped JSON (src/adapter/outbound/openai.rs). */
module OpenAiDecode {
  import opened Base
  import opened Json
  import opened Translator

  /** The first step `/0` of a JSON pointer: an array's first element, or an object's member "0". */
  function First(v: Option<Value>): Option<Value> {
    match v
    case Some(Arr(items)) => if items == [] then None else Some(items[0])
    case Some(Obj(fields)) => if "0" in fields then Some(fields["0"]) else None
    case _ => None
  }

  function ToolCallList(v: Value, part: string): seq<Value> {
    ArrOf(Field(Field(First(v.Get("choices")), part), "tool_calls")).UnwrapOr([])
  }

  function NonEmpty(s: Option<string>): Option<string> {
    if s == Some("") then None else s
  }

  /** Arguments as the string the wire format specifies; `show` writes any other JSON value. */
  function ArgumentsToString(show: Value -> string, v: Option<Value>): string {
    match v
    case None => "{}"
    case Some(Null) => "{}"
    case Some(Str(s)) => s
    case Some(other) => show(other)
  }

  function ParseToolCall(show: Value -> string, call: Value): Option<ToolCall> {
    var name := NonEmpty(StrOf(Field(call.Get("function"), "name")));
    if name.None? then None
    else
      var id := StrOf(call.Get("id")).UnwrapOr("");
      Some(ToolCall(id, id, name.value, ArgumentsToString(show, Field(call.Get("function"), "arguments"))))
  }

  function ParseCalls(show: Value -> string, calls: seq<Value>): seq<ToolCall> {
    if calls == [] then []
    else match ParseToolCall(show, calls[0])
         case None => ParseCalls(show, calls[1..])
         case Some(call) => [call] + ParseCalls(show, calls[1..])
  }

  /** The tool calls of a whole response. */
  function ParseToolCalls(show: Value -> string, v: Value): seq<ToolCall> {
    ParseCalls(show, ToolCallList(v, "message"))
  }

  function AsU32(n: nat): nat {
    n % 0x1_0000_0000
  }

  function ParseFragment(position: nat, call: Value): ToolCallDelta {
    var index := call.Get("index");
    var given := if index.Some? then index.value.AsU64() else None;
    var id := NonEmpty(StrOf(call.Get("id")));
    ToolCallDelta(AsU32(given.UnwrapOr(position)), id, id,
                  NonEmpty(StrOf(Field(call.Get("function"), "name"))),
                  StrOf(Field(call.Get("function"), "arguments")))
  }

  /** The tool-call fragments of one stream chunk. */
  function ParseStreamToolCalls(v: Value): seq<ToolCallDelta> {
    var calls := ToolCallList(v, "delta");
    seq(|calls|, i requires 0 <= i < |calls| => ParseFragment(i, calls[i]))
  }

  /** Every call read from a response has a name, whatever the response. */
  lemma {:induction false} ParsedCallsAreNamed(show: Value -> string, calls: seq<Value>)
    ensures forall c | c in ParseCalls(show, calls) :: c.name != "" && c.callId == c.id
  {
    if calls != [] {
      ParsedCallsAreNamed(show, calls[1..]);
    }
  }

  // ---------------------------------------------------------------- the wire shape and its reading

  function WithText(fields: map<string, Value>, key: string, text: Option<string>): map<string, Value> {
    if text.Some? then fields[key := Str(text.value)] else fields
  }

  function Wrapped(part: string, calls: seq<Value>): Value {
    Obj(map["choices" := Arr([Obj(map[part := Obj(map["tool_calls" := Arr(calls)])])])])
  }

  function CallJson(call: ToolCall): Value {
    Obj(map["id" := Str(call.id), "function" := Obj(map["name" := Str(call.name), "arguments" := Str(call.arguments)])])
  }

  function FragmentJson(d: ToolCallDelta): Value {
    Obj(WithText(map["index" := Num(d.index),
                     "function" := Obj(WithText(WithText(map[], "name", d.name), "arguments", d.argumentsDelta))],
                 "id", d.id))
  }

  function CallsJson(calls: seq<ToolCall>): seq<Value> {
    if calls == [] then [] else [CallJson(calls[0])] + CallsJson(calls[1..])
  }

  lemma CallRoundTrip(show: Value -> string, call: ToolCall)
    requires call.name != "" && call.callId == call.id
    ensures ParseToolCall(show, CallJson(call)) == Some(call)
  {
  }

  lemma {:induction false} ListRoundTrip(show: Value -> string, calls: seq<ToolCall>)
    requires forall c | c in calls :: c.name != "" && c.callId == c.id
    ensures ParseCalls(show, CallsJson(calls)) == calls
  {
    if calls != [] {
      assert calls[0] in calls && forall c | c in calls[1..] :: c in calls;
      CallRoundTrip(show, calls[0]);
      ListRoundTrip(show, calls[1..]);
      assert ([CallJson(calls[0])] + CallsJson(calls[1..]))[1..] == CallsJson(calls[1..]);
    }
  }

  /** The calls of a whole response are read back exactly if and only if each has a name and one id for both roles. */
  lemma CallsRoundTrip(show: Value -> string, calls: seq<ToolCall>)
    ensures ParseToolCalls(show, Wrapped("message", CallsJson(calls))) == calls
       <==> forall c | c in calls :: c.name != "" && c.callId == c.id
  {
    if forall c | c in calls :: c.name != "" && c.callId == c.id {
      ListRoundTrip(show, calls);
    }
    ParsedCallsAreNamed(show, CallsJson(calls));
    assert ToolCallList(Wrapped("message", CallsJson(calls)), "message") == CallsJson(calls);
  }

  /** A fragment as it travels: one id for both roles, ids and names either given or omitted. */
  predicate OnWire(d: ToolCallDelta) {
    && d.index < 0x1_0000_0000
    && d.callId == d.id && d.id != Some("") && d.name != Some("")
  }

  lemma FragmentRoundTrip(position: nat, d: ToolCallDelta)
    requires OnWire(d)
    ensures ParseFragment(position, FragmentJson(d)) == d
  {
  }

  /** A fragment read from a chunk always has the shape fragments travel in. */
  lemma ParsedFragmentOnWire(position: nat, call: Value)
    ensures OnWire(ParseFragment(position, call))
  {
  }

  /** The fragments of a chunk are read back exactly if and only if each has the shape fragments travel in. */
  lemma FragmentsRoundTrip(ds: seq<ToolCallDelta>)
    ensures ParseStreamToolCalls(Wrapped("delta", seq(|ds|, i requires 0 <= i < |ds| => FragmentJson(ds[i])))) == ds
       <==> forall d | d in ds :: OnWire(d)
  {
    var json := seq(|ds|, i requires 0 <= i < |ds| => FragmentJson(ds[i]));
    assert ToolCallList(Wrapped("delta", json), "delta") == json;
    forall i | 0 <= i < |ds|
      ensures ParseFragment(i, json[i]) == ds[i] <==> OnWire(ds[i])
    {
      if OnWire(ds[i]) {
        FragmentRoundTrip(i, ds[i]);
      }
      ParsedFragmentOnWire(i, json[i]);
    }
    var parsed := ParseStreamToolCalls(Wrapped("delta", json));
    assert |parsed| == |ds| && forall i | 0 <= i < |ds| :: parsed[i] == ParseFragment(i, json[i]);
    if forall d | d in ds :: OnWire(d) {
      assert forall i | 0 <= i < |ds| :: ds[i] in ds;
    }
  }

  // ---------------------------------------------------------------- member by member

  /** A member that is a text, or nothing. */
  function TextAt(fields: map<string, Value>, key: string): Option<string> {
    if key in fields && fields[key].Str? then Some(fields[key].text) else None
  }

  /**
   * A call with a name is read with its id in both roles, none counting as empty, and with its arguments as a text:
   * none and null count as an empty object, anything else is written out.
   */
  lemma CallReads(show: Value -> string, fields: map<string, Value>, called: map<string, Value>)
    requires "function" in fields && fields["function"] == Obj(called)
    ensures match ParseToolCall(show, Obj(fields))
            case None => TextAt(called, "name") in {None, Some("")}
            case Some(call) =>
              && TextAt(called, "name") == Some(call.name) && call.name != ""
              && call.id == TextAt(fields, "id").UnwrapOr("") && call.callId == call.id
              && (if "arguments" !in called || called["arguments"] == Null then call.arguments == "{}"
                  else if called["arguments"].Str? then call.arguments == called["arguments"].text
                  else call.arguments == show(called["arguments"]))
  {
  }

  /**
   * The fragments of a chunk keep their order. Each is read with the index it gives, or else its position, cut to 32
   * bits, and with what it says of the call.
   */
  lemma FragmentReads(v: Value, i: nat, fields: map<string, Value>, called: map<string, Value>)
    requires i < |ToolCallList(v, "delta")| && ToolCallList(v, "delta")[i] == Obj(fields)
    requires "function" in fields && fields["function"] == Obj(called)
    ensures |ParseStreamToolCalls(v)| == |ToolCallList(v, "delta")|
    ensures var d := ParseStreamToolCalls(v)[i];
            && d.index == (if "index" in fields && fields["index"].Num? && IsWord(fields["index"].n)
                           then fields["index"].n else i) % 0x1_0000_0000
            && d.id == d.callId == (if TextAt(fields, "id") == Some("") then None else TextAt(fields, "id"))
            && d.name == (if TextAt(called, "name") == Some("") then None else TextAt(called, "name"))
            && d.argumentsDelta == TextAt(called, "arguments")
  {
    hide ToolCallList;
  }

  predicate IsWord(n: int) {
    0 <= n < 0x1_0000_0000_0000_0000
  }

  /** The first choice is read from a list and from an object with the member `0` alike. */
  lemma ChoiceByIndex(choice: Value, more: seq<Value>, part: string)
    ensures ToolCallList(Obj(map["choices" := Obj(map["0" := choice])]), part)
         == ToolCallList(Obj(map["choices" := Arr([choice] + more)]), part)
         == match Field(choice.Get(part), "tool_calls") case Some(Arr(calls)) => calls case _ => []
  {
  }
}

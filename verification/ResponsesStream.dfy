/** The stateful Responses renderer (src/adapter/inbound/responses.rs). */
module ResponsesStream {
  import opened Base
  import opened Translator
  import opened Responses

  /** The renderer's fields as a value. */
  datatype RenderState = RenderState(
    responseId: string,
    created: bool,
    text: string,
    calls: seq<ToolCall>,
    promptTokens: nat,
    completionTokens: nat,
    finished: bool)

  const FRESH := RenderState("", false, "", [], 0, 0, false)

  function Opening(st: RenderState): seq<Event> {
    if st.created then [] else [Created(st.responseId)]
  }

  function ClosingOf(st: RenderState): seq<Event> {
    Closing(st.responseId, st.text, st.calls, st.promptTokens, st.completionTokens)
  }

  function Identified(st: RenderState, id: string): RenderState {
    if st.responseId == "" then st.(responseId := ResponseId(id)) else st
  }

  /** Whether an event ends the turn. */
  predicate Ends(ev: StreamEvent) {
    ev.finishReason.Some? || ev.done
  }

  /** The state after an event that is not ignored, up to the closing burst. */
  function Took(st: RenderState, ev: StreamEvent): RenderState {
    st.(created := true,
        text := st.text + ev.delta,
        calls := AbsorbedAll(st.calls, ev.toolCallDeltas),
        promptTokens := ev.promptTokens.UnwrapOr(st.promptTokens),
        completionTokens := ev.completionTokens.UnwrapOr(st.completionTokens))
  }

  function DeltaOf(st: RenderState, ev: StreamEvent): seq<Event> {
    if ev.delta != "" then [TextDelta("msg_" + st.responseId, ev.delta)] else []
  }

  /** The state after an event. */
  function Rendered(st: RenderState, ev: StreamEvent, id: string): RenderState {
    if st.finished then st else Took(Identified(st, id), ev).(finished := Ends(ev))
  }

  /** What an event sends. */
  function Sends(st: RenderState, ev: StreamEvent, id: string): seq<Event> {
    if st.finished then []
    else
      var known := Identified(st, id);
      Opening(known) + DeltaOf(known, ev) + if Ends(ev) then ClosingOf(Took(known, ev)) else []
  }

  /** The state and the sends when the upstream ends. */
  function FinishedOff(st: RenderState, id: string): RenderState {
    if st.finished then st else Identified(st, id).(created := true, finished := true)
  }

  function FinalSends(st: RenderState, id: string): seq<Event> {
    if st.finished then []
    else Opening(Identified(st, id)) + ClosingOf(Identified(st, id))
  }

  /** No frames at all is told apart from an empty string of frames. */
  function Frames(out: seq<Event>): Option<seq<Event>> {
    if out == [] then None else Some(out)
  }

  class ResponsesRenderer {
    var responseId: string
    var created: bool
    var text: string
    var calls: seq<ToolCall>
    var promptTokens: nat
    var completionTokens: nat
    var finished: bool

    function State(): RenderState
      reads this
    {
      RenderState(responseId, created, text, calls, promptTokens, completionTokens, finished)
    }

    constructor ()
      ensures State() == FRESH
    {
      responseId, created, text, calls := "", false, "", [];
      promptTokens, completionTokens, finished := 0, 0, false;
    }

    /** Folds one streamed fragment into the accumulated call at its index. */
    method Absorb(delta: ToolCallDelta)
      modifies this`calls
      ensures calls == Absorbed(old(calls), delta)
    {
      var index := delta.index;
      if |calls| <= index {
        calls := Resized(calls, index + 1);
      }
      var call := calls[index];
      if delta.id.Some? && delta.id.value != "" {
        call := call.(id := delta.id.value);
      }
      if delta.callId.Some? && delta.callId.value != "" {
        call := call.(callId := delta.callId.value);
      }
      if delta.name.Some? && delta.name.value != "" {
        call := call.(name := delta.name.value);
      }
      if delta.argumentsDelta.Some? {
        call := call.(arguments := call.arguments + delta.argumentsDelta.value);
      }
      assert call.arguments == old(SlotOf(calls, index)).arguments + delta.argumentsDelta.UnwrapOr("");
      calls := calls[index := call];
    }

    /** The closing burst: the finished items, then the completion. */
    method TerminalFrames() returns (frames: seq<Event>)
      modifies this`finished
      ensures finished
      ensures frames == ClosingOf(old(State()))
    {
      finished := true;
      frames := [];
      var outputIndex := 0;
      if text != "" {
        frames := frames + [ItemDone(outputIndex, MessageOf(text, responseId))];
        outputIndex := outputIndex + 1;
      }
      ghost var head := frames;
      for position := 0 to |calls|
        invariant finished
        invariant frames + CallEvents(calls, outputIndex, position) == head + CallEvents(calls, outputIndex, 0)
      {
        ghost var more := CallEvents(calls, outputIndex, position + 1);
        if calls[position].name == "" {
          assert CallEvents(calls, outputIndex, position) == more;
          continue;
        }
        var done := ItemDone(outputIndex + position, FunctionCallItem(calls[position], position));
        Assoc(frames, [done], more);
        frames := frames + [done];
      }
      assert frames == head + CallEvents(calls, outputIndex, 0);
      assert frames == ItemEvents(responseId, text, calls);
      frames := frames + [Completed(responseId, promptTokens, completionTokens)];
    }

    method AbsorbAll(deltas: seq<ToolCallDelta>)
      modifies this`calls
      ensures calls == AbsorbedAll(old(calls), deltas)
    {
      var i := 0;
      while i < |deltas|
        invariant i <= |deltas|
        invariant AbsorbedAll(calls, deltas[i..]) == AbsorbedAll(old(calls), deltas)
      {
        assert deltas[i..][1..] == deltas[i + 1..];
        Absorb(deltas[i]);
        i := i + 1;
      }
    }

    /** Settles the response id and announces the response, unless that is done. */
    method Open(id: string) returns (out: seq<Event>)
      modifies this`responseId, this`created
      ensures State() == Identified(old(State()), id).(created := true)
      ensures out == Opening(Identified(old(State()), id))
    {
      hide ResponseId;
      if responseId == "" {
        responseId := ResponseId(id);
      }
      out := [];
      if !created {
        created := true;
        out := out + [Created(responseId)];
      }
    }

    method Render(ev: StreamEvent, id: string) returns (frames: Option<seq<Event>>)
      modifies this
      ensures State() == Rendered(old(State()), ev, id)
      ensures frames == Frames(Sends(old(State()), ev, id))
    {
      hide AbsorbedAll, ResponseId, Closing;
      if finished {
        return None;
      }
      ghost var known := Identified(State(), id);
      var out := Open(id);
      if ev.promptTokens.Some? {
        promptTokens := ev.promptTokens.value;
      }
      if ev.completionTokens.Some? {
        completionTokens := ev.completionTokens.value;
      }
      AbsorbAll(ev.toolCallDeltas);
      assert ev.delta == "" ==> known.text + ev.delta == known.text;
      if ev.delta != "" {
        text := text + ev.delta;
        out := out + [TextDelta("msg_" + responseId, ev.delta)];
      }
      assert State() == Took(known, ev);
      assert out == Opening(known) + DeltaOf(known, ev);
      if ev.finishReason.Some? || ev.done {
        var closing := TerminalFrames();
        out := out + closing;
      } else {
        assert out + [] == out;
      }
      return if out == [] then None else Some(out);
    }

    method Finish(id: string) returns (frames: Option<seq<Event>>)
      modifies this
      ensures State() == FinishedOff(old(State()), id)
      ensures frames == Frames(FinalSends(old(State()), id))
    {
      if finished {
        return None;
      }
      var out := Open(id);
      var closing := TerminalFrames();
      assert closing == ClosingOf(Identified(old(State()), id)) && |closing| > 0;
      return Some(out + closing);
    }
  }
}

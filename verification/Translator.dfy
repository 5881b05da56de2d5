/** The canonical response types every adapter speaks (src/translator/mod.rs). */
module Translator {
  import opened Base

  /** A tool call in wire form; `Blank()` is the value a fresh accumulator slot starts from. */
  datatype ToolCall = ToolCall(id: string, callId: string, name: string, arguments: string)

  function Blank(): ToolCall {
    ToolCall("", "", "", "")
  }

  /** One streamed fragment of the call at `index`. */
  datatype ToolCallDelta = ToolCallDelta(
    index: nat,
    id: Option<string>,
    callId: Option<string>,
    name: Option<string>,
    argumentsDelta: Option<string>)

  /** A provider-independent chunk of a streamed completion. */
  datatype StreamEvent = StreamEvent(
    delta: string,
    finishReason: Option<string>,
    promptTokens: Option<nat>,
    completionTokens: Option<nat>,
    done: bool,
    toolCallDeltas: seq<ToolCallDelta>)

  /** A provider-independent single-turn response. */
  datatype CanonicalResponse = CanonicalResponse(
    id: string,
    text: string,
    promptTokens: nat,
    completionTokens: nat,
    toolCalls: seq<ToolCall>)
}

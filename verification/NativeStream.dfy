/** The task that drives the Responses renderer over an upstream body (src/server/native.rs). */
module NativeStream {
  import opened Base
  import opened Domain
  import opened Translator
  import opened Responses
  import opened ResponsesStream
  import Sse

  type Decoder = (ProviderKind, Bytes) -> Option<StreamEvent>

  /** The id handed to the renderer. */
  const TASK_ID := "chatcmpl-agos"

  // ---------------------------------------------------------------- lines

  /** A text cut into its complete lines, each with its line end, and what follows the last line end. */
  function SplitLines(text: Bytes): (cut: Sse.Cut)
    ensures Sse.LF !in cut.rest
    decreases |text|
  {
    var k := IndexOf(text, Sse.LF);
    if k == |text| then Sse.Cut([], text)
    else
      var tail := SplitLines(text[k + 1..]);
      Sse.Cut([text[..k + 1]] + tail.raws, tail.rest)
  }

  function WholeLines(text: Bytes): seq<Bytes> {
    SplitLines(text).raws
  }

  function PartLine(text: Bytes): (part: Bytes)
    ensures Sse.LF !in part
  {
    SplitLines(text).rest
  }

  lemma LineStep(text: Bytes, k: nat)
    requires k < |text| && k == IndexOf(text, Sse.LF)
    ensures SplitLines(text)
         == Sse.Cut([text[..k + 1]] + SplitLines(text[k + 1..]).raws, SplitLines(text[k + 1..]).rest)
  {
    hide IndexOf;
  }

  lemma NoLine(text: Bytes)
    requires IndexOf(text, Sse.LF) == |text|
    ensures SplitLines(text) == Sse.Cut([], text)
  {
    hide IndexOf;
  }

  /** Lines do not depend on where the text was cut. */
  lemma {:induction false} LinesAppend(a: Bytes, b: Bytes)
    ensures WholeLines(a + b) == WholeLines(a) + WholeLines(PartLine(a) + b)
    ensures PartLine(a + b) == PartLine(PartLine(a) + b)
    decreases |a|
  {
    var k := IndexOf(a, Sse.LF);
    if k == |a| {
      var none, all := WholeLines(a), WholeLines(a + b);
      assert none == [] && none + all == all;
    } else {
      var more := a[k + 1..];
      LineStep(a, k);
      FirstIndex(a + b, Sse.LF, k);
      LineStep(a + b, k);
      Sse.Slices(a, b, k);
      assert (a + b)[..k + 1] == a[..k + 1];
      LinesAppend(more, b);
      Assoc([a[..k + 1]], WholeLines(more), WholeLines(PartLine(more) + b));
    }
  }

  function StripAll(prefix: Bytes, text: Bytes): Bytes
    requires prefix != []
    decreases |text|
  {
    if prefix <= text then StripAll(prefix, text[|prefix|..]) else text
  }

  /** The event a line decodes to, if any. */
  function EventOf(decode: Decoder, kind: ProviderKind, line: Bytes): Option<StreamEvent> {
    var trimmed := Sse.Trim(line);
    if !(Sse.DATA_FIELD <= trimmed) then None
    else
      var payload := Sse.Trim(StripAll(Sse.DATA_FIELD, trimmed));
      if payload == Sse.DONE then None else decode(kind, payload)
  }

  function EventsOf(decode: Decoder, kind: ProviderKind, lines: seq<Bytes>): seq<StreamEvent> {
    if lines == [] then []
    else EventsOf(decode, kind, lines[..|lines| - 1])
         + match EventOf(decode, kind, lines[|lines| - 1]) case Some(ev) => [ev] case None => []
  }

  /** The events of a whole upstream text; a last line without a line end counts when the body ended cleanly. */
  function EventsIn(decode: Decoder, kind: ProviderKind, text: Bytes, clean: bool): seq<StreamEvent> {
    EventsOf(decode, kind, WholeLines(text) + if clean then [PartLine(text)] else [])
  }

  // ---------------------------------------------------------------- the run as a fold over events

  function RunAll(id: string, evs: seq<StreamEvent>): RenderState {
    if evs == [] then FRESH else Rendered(RunAll(id, evs[..|evs| - 1]), evs[|evs| - 1], id)
  }

  function SendsAll(id: string, evs: seq<StreamEvent>): seq<Event> {
    if evs == [] then []
    else SendsAll(id, evs[..|evs| - 1]) + Sends(RunAll(id, evs[..|evs| - 1]), evs[|evs| - 1], id)
  }

  /** Everything sent on a body that ended cleanly. */
  function WholeRun(id: string, evs: seq<StreamEvent>): seq<Event> {
    SendsAll(id, evs) + FinalSends(RunAll(id, evs), id)
  }

  /** Decodes one line and renders it; `done` says whether the event ends the turn. */
  method DecodeLine(decode: Decoder, kind: ProviderKind, line: Bytes, renderer: ResponsesRenderer)
    returns (sent: seq<Event>, done: bool)
    modifies renderer
    ensures match EventOf(decode, kind, line)
            case None => sent == [] && !done && renderer.State() == old(renderer.State())
            case Some(ev) =>
              && sent == Sends(old(renderer.State()), ev, TASK_ID)
              && renderer.State() == Rendered(old(renderer.State()), ev, TASK_ID)
              && (done <==> !old(renderer.finished) && Ends(ev))
  {
    sent, done := [], false;
    var trimmed := Sse.Trim(line);
    if !(Sse.DATA_FIELD <= trimmed) {
      return;
    }
    var payload := Sse.Trim(StripAll(Sse.DATA_FIELD, trimmed));
    if payload == Sse.DONE {
      return;
    }
    var ev := decode(kind, payload);
    if ev.None? {
      return;
    }
    var frames := renderer.Render(ev.value, TASK_ID);
    if frames.Some? {
      sent := frames.value;
      done := ev.value.done || ev.value.finishReason.Some?;
    }
  }

  /** Renders every complete line of the buffer and keeps the rest. */
  method DrainLines(decode: Decoder, kind: ProviderKind, renderer: ResponsesRenderer, text: Bytes,
                    before: seq<Event>, terminal: bool, ghost lines: seq<Bytes>)
    returns (buf: Bytes, sent: seq<Event>, sawTerminal: bool)
    requires Synced(renderer, decode, kind, lines, before, terminal)
    modifies renderer
    ensures buf == PartLine(text)
    ensures Synced(renderer, decode, kind, lines + WholeLines(text), sent, sawTerminal)
  {
    hide SplitLines, IndexOf, EventOf, EventsOf, RunAll, SendsAll, Sends;
    buf, sent, sawTerminal := text, before, terminal;
    ghost var drained := lines;
    while true
      invariant drained + WholeLines(buf) == lines + WholeLines(text) && PartLine(buf) == PartLine(text)
      invariant Synced(renderer, decode, kind, drained, sent, sawTerminal)
      decreases |buf|
    {
      var pos := IndexOf(buf, Sse.LF);
      if pos == |buf| {
        NoLine(buf);
        assert drained + [] == drained;
        break;
      }
      LineStep(buf, pos);
      var line := buf[..pos + 1];
      buf := buf[pos + 1..];
      Assoc(drained, [line], WholeLines(buf));
      var out, done := DecodeLine(decode, kind, line, renderer);
      EventsSnoc(decode, kind, drained, line);
      drained := drained + [line];
      sent := sent + out;
      sawTerminal := sawTerminal || done;
    }
  }

  /** Flushes the trailing partial line, then gives the renderer its chance to close the turn. */
  method CloseTask(decode: Decoder, kind: ProviderKind, renderer: ResponsesRenderer, buf: Bytes,
                   before: seq<Event>, terminal: bool, ghost lines: seq<Bytes>)
    returns (sent: seq<Event>)
    requires Synced(renderer, decode, kind, lines, before, terminal)
    modifies renderer
    ensures sent == WholeRun(TASK_ID, EventsOf(decode, kind, lines + [buf]))
  {
    sent := before;
    var sawTerminal := terminal;
    EventsSnoc(decode, kind, lines, buf);
    if !sawTerminal {
      var out, done := DecodeLine(decode, kind, buf, renderer);
      sent := sent + out;
      sawTerminal := sawTerminal || done;
    }
    assert sent == SendsAll(TASK_ID, EventsOf(decode, kind, lines + [buf]));
    assert renderer.State() == RunAll(TASK_ID, EventsOf(decode, kind, lines + [buf]));
    if !sawTerminal {
      var marker := renderer.Finish(TASK_ID);
      if marker.Some? {
        sent := sent + marker.value;
      }
    }
  }

  /** The text chunks become when each is decoded on its own; a character cut in two may be damaged. */
  function TextOf(lossy: Bytes -> Bytes, chunks: seq<Bytes>): Bytes {
    if chunks == [] then [] else lossy(chunks[0]) + TextOf(lossy, chunks[1..])
  }

  /**
   * Runs a whole upstream body, cut into chunks anywhere, through a fresh renderer. `lossy` is the decoding of a chunk
   * to UTF-8 text, and `broken` the transport error the body ends with, if it does not end cleanly.
   */
  method StreamTask(decode: Decoder, lossy: Bytes -> Bytes, kind: ProviderKind, chunks: seq<Bytes>,
                    broken: Option<string>)
    returns (sent: seq<Event>, fault: Option<string>)
    ensures broken.None? ==>
              fault == None && sent == WholeRun(TASK_ID, EventsIn(decode, kind, TextOf(lossy, chunks), true))
    ensures broken.Some? ==>
              && fault == Some("stream error: " + broken.value)
              && sent == SendsAll(TASK_ID, EventsIn(decode, kind, TextOf(lossy, chunks), false))
  {
    var renderer := new ResponsesRenderer();
    sent := [];
    var buf: Bytes := [];
    var sawTerminal := false;
    ghost var read: Bytes := [];
    for i := 0 to |chunks|
      invariant fresh(renderer)
      invariant buf == PartLine(read)
      invariant read + TextOf(lossy, chunks[i..]) == TextOf(lossy, chunks)
      invariant Synced(renderer, decode, kind, WholeLines(read), sent, sawTerminal)
    {
      var text := lossy(chunks[i]);
      LinesAppend(read, text);
      assert chunks[i..][0] == chunks[i] && chunks[i..][1..] == chunks[i + 1..];
      Assoc(read, text, TextOf(lossy, chunks[i + 1..]));
      buf, sent, sawTerminal := DrainLines(decode, kind, renderer, buf + text, sent, sawTerminal, WholeLines(read));
      read := read + text;
    }
    assert read == TextOf(lossy, chunks);
    if broken.Some? {
      assert WholeLines(read) + [] == WholeLines(read);
      return sent, Some("stream error: " + broken.value);
    }
    sent := CloseTask(decode, kind, renderer, buf, sent, sawTerminal, WholeLines(read));
    return sent, None;
  }

  /** Chunks of valid UTF-8 are decoded to themselves, so the text is that of the body and the cuts do not show. */
  lemma {:induction false} UndamagedText(lossy: Bytes -> Bytes, chunks: seq<Bytes>)
    requires forall c | c in chunks :: lossy(c) == c
    ensures TextOf(lossy, chunks) == Concat(chunks)
  {
    if chunks != [] {
      assert chunks[0] in chunks && forall c | c in chunks[1..] :: c in chunks;
      UndamagedText(lossy, chunks[1..]);
    }
  }

  /** The task's variables agree with the fold over the lines decoded so far. */
  ghost predicate Synced(renderer: ResponsesRenderer, decode: Decoder, kind: ProviderKind, lines: seq<Bytes>,
                         sent: seq<Event>, sawTerminal: bool)
    reads renderer
  {
    var evs := EventsOf(decode, kind, lines);
    && renderer.State() == RunAll(TASK_ID, evs)
    && sent == SendsAll(TASK_ID, evs)
    && (sawTerminal <==> renderer.finished)
  }

  lemma EventsSnoc(decode: Decoder, kind: ProviderKind, lines: seq<Bytes>, line: Bytes)
    ensures var evs, next := EventsOf(decode, kind, lines), EventsOf(decode, kind, lines + [line]);
            match EventOf(decode, kind, line)
            case None => next == evs
            case Some(ev) =>
              && RunAll(TASK_ID, next) == Rendered(RunAll(TASK_ID, evs), ev, TASK_ID)
              && SendsAll(TASK_ID, next) == SendsAll(TASK_ID, evs) + Sends(RunAll(TASK_ID, evs), ev, TASK_ID)
  {
    assert (lines + [line])[..|lines + [line]| - 1] == lines;
    match EventOf(decode, kind, line)
    case None =>
    case Some(ev) =>
      var evs := EventsOf(decode, kind, lines);
      assert (evs + [ev])[..|evs + [ev]| - 1] == evs;
  }

  // ---------------------------------------------------------------- what a run sends, in closed form

  /** The events up to and including the first that ends the turn; later ones are ignored. */
  function Consumed(evs: seq<StreamEvent>): seq<StreamEvent> {
    if evs == [] then []
    else
      var before := Consumed(evs[..|evs| - 1]);
      if Over(before) then before else before + [evs[|evs| - 1]]
  }

  predicate Over(consumed: seq<StreamEvent>) {
    consumed != [] && Ends(consumed[|consumed| - 1])
  }

  /** The non-empty text fragments of events. */
  function Texts(evs: seq<StreamEvent>): seq<string> {
    if evs == [] then []
    else Texts(evs[..|evs| - 1]) + if evs[|evs| - 1].delta != "" then [evs[|evs| - 1].delta] else []
  }

  /** The tool-call fragments of events, in the order they arrived. */
  function Fragments(evs: seq<StreamEvent>): seq<ToolCallDelta> {
    if evs == [] then [] else Fragments(evs[..|evs| - 1]) + evs[|evs| - 1].toolCallDeltas
  }

  /** The last prompt and completion counts reported, or 0. */
  function PromptOf(evs: seq<StreamEvent>): nat {
    if evs == [] then 0 else evs[|evs| - 1].promptTokens.UnwrapOr(PromptOf(evs[..|evs| - 1]))
  }

  function CompletionOf(evs: seq<StreamEvent>): nat {
    if evs == [] then 0 else evs[|evs| - 1].completionTokens.UnwrapOr(CompletionOf(evs[..|evs| - 1]))
  }

  function DeltaEvents(id: string, texts: seq<string>): seq<Event> {
    seq(|texts|, i requires 0 <= i < |texts| => TextDelta("msg_" + ResponseId(id), texts[i]))
  }

  function ClosingFor(id: string, evs: seq<StreamEvent>): seq<Event> {
    Closing(ResponseId(id), Concat(Texts(evs)), AbsorbedAll([], Fragments(evs)), PromptOf(evs), CompletionOf(evs))
  }

  lemma {:induction false} AbsorbedAllAppend(calls: seq<ToolCall>, a: seq<ToolCallDelta>, b: seq<ToolCallDelta>)
    ensures AbsorbedAll(calls, a + b) == AbsorbedAll(AbsorbedAll(calls, a), b)
    decreases |a|
  {
    if a == [] {
      assert a + b == b;
    } else {
      assert (a + b)[1..] == a[1..] + b;
      AbsorbedAllAppend(Absorbed(calls, a[0]), a[1..], b);
    }
  }

  lemma ConcatSnoc(texts: seq<string>, more: string)
    ensures Concat(texts + [more]) == Concat(texts) + more
  {
    ConcatAppend(texts, [more]);
    var none: seq<string> := [more][1..];
    assert none == [] && more + Concat(none) == more;
  }

  /** The renderer's state after any events: everything in it is a function of the consumed events. */
  function StateFor(id: string, consumed: seq<StreamEvent>): RenderState {
    RenderState(if consumed == [] then "" else ResponseId(id), consumed != [], Concat(Texts(consumed)),
                AbsorbedAll([], Fragments(consumed)), PromptOf(consumed), CompletionOf(consumed), Over(consumed))
  }

  lemma TookFor(id: string, before: seq<StreamEvent>, ev: StreamEvent)
    requires !Over(before)
    ensures Rendered(StateFor(id, before), ev, id) == StateFor(id, before + [ev])
    ensures Took(Identified(StateFor(id, before), id), ev) == StateFor(id, before + [ev]).(finished := false)
  {
    hide AbsorbedAll, Concat, ResponseId;
    var after := before + [ev];
    assert after[..|after| - 1] == before;
    AbsorbedAllAppend([], Fragments(before), ev.toolCallDeltas);
    if ev.delta != "" {
      ConcatSnoc(Texts(before), ev.delta);
    } else {
      assert Texts(before) + [] == Texts(before);
      assert Concat(Texts(before)) + ev.delta == Concat(Texts(before));
    }
  }

  lemma {:induction false} StateAfter(id: string, evs: seq<StreamEvent>)
    ensures RunAll(id, evs) == StateFor(id, Consumed(evs))
  {
    if evs != [] {
      var n := |evs| - 1;
      StateAfter(id, evs[..n]);
      if !Over(Consumed(evs[..n])) {
        TookFor(id, Consumed(evs[..n]), evs[n]);
      }
    }
  }

  /** What has been sent after any events: the opening, the live text, and the closing burst once the turn is over. */
  function SentFor(id: string, consumed: seq<StreamEvent>): seq<Event> {
    (if consumed == [] then [] else [Created(ResponseId(id))])
    + DeltaEvents(id, Texts(consumed))
    + if Over(consumed) then ClosingFor(id, consumed) else []
  }

  lemma SentForSnoc(id: string, before: seq<StreamEvent>, ev: StreamEvent)
    requires !Over(before)
    ensures SentFor(id, before + [ev]) == SentFor(id, before) + Sends(StateFor(id, before), ev, id)
  {
    var after := before + [ev];
    var opening: seq<Event> := if before == [] then [Created(ResponseId(id))] else [];
    var live, delta := SentFor(id, before), DeltaOf(Identified(StateFor(id, before), id), ev);
    var closing := if Ends(ev) then ClosingFor(id, after) else [];
    SendsFor(id, before, ev);
    SentSoFar(id, before, ev);
    Assoc(live, opening, delta);
    Assoc(live, opening + delta, closing);
  }

  /** What has been sent after one more event, around what had been sent before it. */
  lemma SentSoFar(id: string, before: seq<StreamEvent>, ev: StreamEvent)
    requires !Over(before)
    ensures SentFor(id, before + [ev])
         == SentFor(id, before) + (if before == [] then [Created(ResponseId(id))] else [])
            + DeltaOf(Identified(StateFor(id, before), id), ev)
            + (if Ends(ev) then ClosingFor(id, before + [ev]) else [])
  {
    var after := before + [ev];
    var opening: seq<Event> := [Created(ResponseId(id))];
    var live, delta := DeltaEvents(id, Texts(before)), DeltaOf(Identified(StateFor(id, before), id), ev);
    DeltasSnoc(id, before, ev);
    Assoc(opening, live, delta);
    EmptyEnd(opening + live);
    EmptyEnd(opening);
    if before == [] {
      assert live == [];
      EmptyEnd(live);
      EmptyEnd(delta);
    }
  }

  lemma DeltasSnoc(id: string, before: seq<StreamEvent>, ev: StreamEvent)
    requires !Over(before)
    ensures DeltaEvents(id, Texts(before + [ev]))
         == DeltaEvents(id, Texts(before)) + DeltaOf(Identified(StateFor(id, before), id), ev)
  {
    var after := before + [ev];
    assert after[..|after| - 1] == before;
    var known := Identified(StateFor(id, before), id);
    assert known.responseId == ResponseId(id);
    if ev.delta == "" {
      assert Texts(after) == Texts(before);
    } else {
      assert Texts(after) == Texts(before) + [ev.delta];
    }
  }

  /** What one more event sends, in terms of the events taken. */
  lemma SendsFor(id: string, before: seq<StreamEvent>, ev: StreamEvent)
    requires !Over(before)
    ensures Sends(StateFor(id, before), ev, id)
         == (if before == [] then [Created(ResponseId(id))] else [])
            + DeltaOf(Identified(StateFor(id, before), id), ev)
            + (if Ends(ev) then ClosingFor(id, before + [ev]) else [])
  {
    TookFor(id, before, ev);
  }

  lemma {:induction false} SentAfter(id: string, evs: seq<StreamEvent>)
    ensures SendsAll(id, evs) == SentFor(id, Consumed(evs))
  {
    if evs == [] {
      assert Texts(Consumed(evs)) == [];
    } else {
      var n := |evs| - 1;
      SentAfter(id, evs[..n]);
      StateAfter(id, evs[..n]);
      var before := Consumed(evs[..n]);
      if Over(before) {
        assert Sends(StateFor(id, before), evs[n], id) == [];
      } else {
        SentForSnoc(id, before, evs[n]);
      }
    }
  }

  /**
   * Every body that ends cleanly: exactly one opening, the live text, one finished item for the text and one per named
   * call, exactly one completion, and nothing else; every part is a function of the events up to the end of the turn.
   */
  lemma CleanRun(id: string, evs: seq<StreamEvent>)
    ensures WholeRun(id, evs)
         == [Created(ResponseId(id))] + DeltaEvents(id, Texts(Consumed(evs))) + ClosingFor(id, Consumed(evs))
  {
    StateAfter(id, evs);
    SentAfter(id, evs);
    var consumed := Consumed(evs);
    if Over(consumed) {
      EmptyEnd(SentFor(id, consumed));
    } else if consumed == [] {
      SilentRun(id);
    } else {
      CutRun(id, consumed);
    }
  }

  lemma EmptyEnd<T>(xs: seq<T>)
    ensures xs + [] == xs && [] + xs == xs
  {
  }

  /** A body without any event still opens and completes. */
  lemma SilentRun(id: string)
    ensures SentFor(id, []) + FinalSends(StateFor(id, []), id)
         == [Created(ResponseId(id))] + DeltaEvents(id, Texts([])) + ClosingFor(id, [])
  {
    var none: seq<string> := Texts([]);
    assert none == [] && DeltaEvents(id, none) == [];
    var known := Identified(StateFor(id, []), id);
    assert FinalSends(StateFor(id, []), id) == [Created(ResponseId(id))] + ClosingFor(id, []);
    EmptyEnd(FinalSends(StateFor(id, []), id));
    EmptyEnd([Created(ResponseId(id))]);
  }

  /** A body that ends before its turn does is closed by the proxy. */
  lemma CutRun(id: string, consumed: seq<StreamEvent>)
    requires consumed != [] && !Over(consumed)
    ensures SentFor(id, consumed) + FinalSends(StateFor(id, consumed), id)
         == [Created(ResponseId(id))] + DeltaEvents(id, Texts(consumed)) + ClosingFor(id, consumed)
  {
    var live := [Created(ResponseId(id))] + DeltaEvents(id, Texts(consumed));
    EmptyEnd(live);
    assert SentFor(id, consumed) == live;
    EmptyEnd(ClosingFor(id, consumed));
    assert FinalSends(StateFor(id, consumed), id) == ClosingFor(id, consumed);
  }

  /** The event grammar a Responses client relies on; `m` is where the finished items start. */
  predicate TurnGrammar(sent: seq<Event>, m: nat) {
    && 1 <= m < |sent|
    && sent[0].Created?
    && (forall i | 1 <= i < m :: sent[i].TextDelta?)
    && Ascending(sent[m..|sent| - 1], 0)
    && sent[|sent| - 1].Completed?
  }

  /** The text sent live. */
  function LiveText(events: seq<Event>): string {
    if events == [] then "" else (if events[0].TextDelta? then events[0].delta else "") + LiveText(events[1..])
  }

  lemma {:induction false} LiveTextOf(id: string, texts: seq<string>)
    ensures LiveText(DeltaEvents(id, texts)) == Concat(texts)
  {
    if texts != [] {
      LiveTextOf(id, texts[1..]);
      assert DeltaEvents(id, texts)[1..] == DeltaEvents(id, texts[1..]);
    }
  }

  /** A clean run follows the grammar, and its message item holds exactly the text sent live. */
  lemma CleanRunGrammar(id: string, evs: seq<StreamEvent>) returns (m: nat)
    ensures TurnGrammar(WholeRun(id, evs), m)
    ensures MessageIsLiveText(WholeRun(id, evs), m, ResponseId(id))
  {
    hide WholeRun, Consumed, Texts, Fragments, PromptOf, CompletionOf, AbsorbedAll, ItemEvents;
    CleanRun(id, evs);
    var consumed := Consumed(evs);
    var texts, calls := Texts(consumed), AbsorbedAll([], Fragments(consumed));
    m := 1 + |texts|;
    GrammarOf([Created(ResponseId(id))] + DeltaEvents(id, texts), ResponseId(id), calls,
              PromptOf(consumed), CompletionOf(consumed), Concat(texts));
    LiveTextOf(id, texts);
    var live := [Created(ResponseId(id))] + DeltaEvents(id, texts);
    assert live[1..] == DeltaEvents(id, texts);
    Layout(live, ItemEvents(ResponseId(id), Concat(texts), calls),
           Completed(ResponseId(id), PromptOf(consumed), CompletionOf(consumed)));
  }

  /** What is sent before the turn is over: nothing, or the opening and live text, and no item or completion. */
  predicate OpenTurn(sent: seq<Event>) {
    sent != [] ==> sent[0].Created? && forall i | 1 <= i < |sent| :: sent[i].TextDelta?
  }

  /**
   * A body that breaks off with a transport error: if the turn was over before, what was sent is what a clean run
   * sends; if not, it is the opening and the live text so far, and the turn is never closed.
   */
  lemma BrokenRunGrammar(id: string, evs: seq<StreamEvent>)
    ensures if Over(Consumed(evs)) then SendsAll(id, evs) == WholeRun(id, evs)
            else OpenTurn(SendsAll(id, evs)) && LiveText(SendsAll(id, evs)) == Concat(Texts(Consumed(evs)))
  {
    hide Consumed, SendsAll, RunAll, Texts, Fragments, PromptOf, CompletionOf, AbsorbedAll, Concat, LiveText;
    var consumed := Consumed(evs);
    SentAfter(id, evs);
    StateAfter(id, evs);
    if Over(consumed) {
      EmptyEnd(SendsAll(id, evs));
    } else {
      OpenTurnSent(id, consumed);
    }
  }

  lemma OpenTurnSent(id: string, consumed: seq<StreamEvent>)
    requires !Over(consumed)
    ensures OpenTurn(SentFor(id, consumed)) && LiveText(SentFor(id, consumed)) == Concat(Texts(consumed))
  {
    var live := DeltaEvents(id, Texts(consumed));
    LiveTextOf(id, Texts(consumed));
    if consumed == [] {
      assert Texts(consumed) == [] && live == [] && SentFor(id, consumed) == [];
    } else {
      var opening := [Created(ResponseId(id))];
      assert SentFor(id, consumed) == opening + live;
      assert (opening + live)[1..] == live;
      assert "" + LiveText(live) == LiveText(live);
    }
  }

  /** The message item, if any, comes first among the finished items and holds the live text. */
  predicate MessageIsLiveText(sent: seq<Event>, m: nat, responseId: string)
    requires TurnGrammar(sent, m)
  {
    var live, items := LiveText(sent[1..m]), sent[m..|sent| - 1];
    && (live != "" ==> items != [] && items[0] == ItemDone(0, MessageOf(live, responseId)))
    && (forall i | 0 <= i < |items| && items[i].item.MessageItem? :: i == 0 && live != "")
  }

  lemma GrammarOf(live: seq<Event>, responseId: string, calls: seq<ToolCall>, prompt: nat, completion: nat,
                  text: string)
    requires live != [] && live[0].Created? && forall i | 1 <= i < |live| :: live[i].TextDelta?
    ensures var sent := live + Closing(responseId, text, calls, prompt, completion);
            && TurnGrammar(sent, |live|)
            && (LiveText(live[1..]) == text ==> MessageIsLiveText(sent, |live|, responseId))
  {
    var items := ItemEvents(responseId, text, calls);
    Layout(live, items, Completed(responseId, prompt, completion));
    ItemEventsAscend(responseId, text, calls);
    MessageFirst(responseId, text, calls);
  }

  lemma Layout(live: seq<Event>, items: seq<Event>, last: Event)
    requires live != []
    ensures var sent, m := live + (items + [last]), |live|;
            && sent[..m] == live && sent[1..m] == live[1..]
            && sent[m..|sent| - 1] == items
            && sent[|sent| - 1] == last
            && forall i | m <= i < |sent| - 1 :: sent[i] == items[i - m]
  {
  }

  lemma MessageFirst(responseId: string, text: string, calls: seq<ToolCall>)
    ensures var items := ItemEvents(responseId, text, calls);
            && (text != "" ==> items != [] && items[0] == ItemDone(0, MessageOf(text, responseId)))
            && (forall i | 0 <= i < |items| && items[i].ItemDone? && items[i].item.MessageItem? :: i == 0 && text != "")
  {
    CallEventsAreCalls(calls, 0, 0);
    CallEventsAreCalls(calls, 1, 0);
  }

  lemma {:induction false} CallEventsAreCalls(calls: seq<ToolCall>, base: nat, from: nat)
    requires from <= |calls|
    ensures forall e | e in CallEvents(calls, base, from) :: e.ItemDone? && e.item.CallItem?
    decreases |calls| - from
  {
    hide FunctionCallItem;
    if from < |calls| {
      var head, more := ItemDone(base + from, FunctionCallItem(calls[from], from)), CallEvents(calls, base, from + 1);
      CallEventsAreCalls(calls, base, from + 1);
      CallItemAt(calls[from], from);
      assert forall e | e in [head] + more :: e == head || e in more;
    }
  }

  lemma CallItemAt(call: ToolCall, index: nat)
    ensures FunctionCallItem(call, index).CallItem?
  {
  }

  /**
   * Streaming agrees with not streaming. Let the events of a turn carry any cutting of the calls of a response into
   * fragments, interleaved in any way, and its text in any pieces; then the items the stream closes with are the
   * `output` of the non-streamed rendering of that response.
   */
  lemma StreamingAgrees(id: string, evs: seq<StreamEvent>, resp: CanonicalResponse)
    requires ResponseId(resp.id) == ResponseId(id)
    requires Concat(Texts(Consumed(evs))) == resp.text
    requires forall i | 0 <= i < |resp.toolCalls| ::
               && resp.toolCalls[i].name != ""
               && CutsInto(resp.toolCalls[i], Project(Fragments(Consumed(evs)), i))
    requires forall d | d in Fragments(Consumed(evs)) :: d.index < |resp.toolCalls|
    ensures ItemsOf(WholeRun(id, evs)) == RenderOutput(resp)
  {
    var consumed := Consumed(evs);
    forall i | 0 <= i < |resp.toolCalls|
      ensures Project(Fragments(consumed), i) != []
    {
      assert Some(resp.toolCalls[i].name) in NameParts(Project(Fragments(consumed), i));
    }
    AbsorbRebuilds(resp.toolCalls, Fragments(consumed));
    StreamedItemsAgree(resp);
    CleanRun(id, evs);
    var items := ItemEvents(ResponseId(id), resp.text, resp.toolCalls);
    var live := [Created(ResponseId(id))] + DeltaEvents(id, Texts(consumed));
    var done := [Completed(ResponseId(id), PromptOf(consumed), CompletionOf(consumed))];
    assert WholeRun(id, evs) == live + (items + done);
    ItemsAppend(live, items + done);
    ItemsAppend(items, done);
    NoItems(live);
    NoItems(done);
  }

  lemma {:induction false} ItemsAppend(a: seq<Event>, b: seq<Event>)
    ensures ItemsOf(a + b) == ItemsOf(a) + ItemsOf(b)
  {
    if a == [] {
      assert a + b == b;
    } else {
      ItemsAppend(a[1..], b);
      assert (a + b)[1..] == a[1..] + b && (a + b)[0] == a[0];
      Assoc(if a[0].ItemDone? then [a[0].item] else [], ItemsOf(a[1..]), ItemsOf(b));
    }
  }

  lemma {:induction false} NoItems(events: seq<Event>)
    requires forall e | e in events :: !e.ItemDone?
    ensures ItemsOf(events) == []
  {
    if events != [] {
      assert events[0] in events && forall e | e in events[1..] :: e in events;
      NoItems(events[1..]);
    }
  }

  /** The response that a turn's text and fragments were cut from. */
  predicate CutFrom(resp: CanonicalResponse, text: string, fragments: seq<ToolCallDelta>) {
    && text == resp.text
    && (forall i | 0 <= i < |resp.toolCalls| ::
          resp.toolCalls[i].name != "" && CutsInto(resp.toolCalls[i], Project(fragments, i)))
    && forall d | d in fragments :: d.index < |resp.toolCalls|
  }

  /** An item with the name sent in some fragment and the arguments joined from all of them. */
  predicate Joined(item: OutItem, call: ToolCall, k: nat, fragments: seq<ToolCallDelta>) {
    && Carries(item, call, k)
    && item.arguments == ArgumentsOf(fragments) && Some(item.name) in NameParts(fragments)
  }

  /**
   * What a clean run closes with, under any cutting of the calls of a response into fragments: for each call its own
   * name, and its arguments joined from its own fragments in order.
   */
  lemma FinishedCalls(id: string, evs: seq<StreamEvent>, resp: CanonicalResponse, k: nat)
    requires ResponseId(resp.id) == ResponseId(id) && k < |resp.toolCalls|
    requires CutFrom(resp, Concat(Texts(Consumed(evs))), Fragments(Consumed(evs)))
    ensures var items, i := ItemsOf(WholeRun(id, evs)), k + if resp.text != "" then 1 else 0;
            && |items| == i - k + |resp.toolCalls|
            && Joined(items[i], resp.toolCalls[k], k, Project(Fragments(Consumed(evs)), k))
  {
    hide Consumed, WholeRun, Fragments, Texts, RenderOutput, Decimal, Project;
    StreamingAgrees(id, evs, resp);
    OutputHolds(resp);
  }

  // ---------------------------------------------------------------- lines

  lemma {:induction false} TrimStartPast(blank: Bytes, text: Bytes)
    requires (forall b | b in blank :: Sse.IsSpace(b)) && text != [] && !Sse.IsSpace(text[0])
    ensures Sse.TrimStart(blank + text) == text
  {
    if blank == [] {
      assert blank + text == text;
    } else {
      assert blank[0] in blank && forall b | b in blank[1..] :: b in blank;
      assert (blank + text)[1..] == blank[1..] + text;
      TrimStartPast(blank[1..], text);
    }
  }

  lemma {:induction false} TrimEndBefore(text: Bytes, blank: Bytes)
    requires (forall b | b in blank :: Sse.IsSpace(b)) && text != [] && !Sse.IsSpace(text[|text| - 1])
    ensures Sse.TrimEnd(text + blank) == text
  {
    if blank == [] {
      assert text + blank == text;
    } else {
      var k := |blank| - 1;
      assert blank[k] in blank && forall b | b in blank[..k] :: b in blank;
      assert (text + blank)[..|text + blank| - 1] == text + blank[..k];
      TrimEndBefore(text, blank[..k]);
    }
  }

  lemma Padded(before: Bytes, text: Bytes, after: Bytes)
    requires (forall b | b in before :: Sse.IsSpace(b)) && (forall b | b in after :: Sse.IsSpace(b))
    requires text != [] && !Sse.IsSpace(text[0]) && !Sse.IsSpace(text[|text| - 1])
    ensures Sse.Trim(before + text + after) == text
  {
    hide Sse.TrimStart, Sse.TrimEnd, Sse.IsSpace;
    Assoc(before, text, after);
    TrimStartPast(before, text + after);
    TrimEndBefore(text, after);
  }

  /** A text, `n` times. */
  function Times(text: Bytes, n: nat): Bytes {
    if n == 0 then [] else text + Times(text, n - 1)
  }

  lemma {:induction false} StripsAll(field: Bytes, n: nat, rest: Bytes)
    requires field != [] && !(field <= rest)
    ensures StripAll(field, Times(field, n) + rest) == rest
  {
    if n == 0 {
      assert Times(field, n) + rest == rest;
    } else {
      var more := Times(field, n - 1) + rest;
      Assoc(field, Times(field, n - 1), rest);
      assert (field + more)[|field|..] == more;
      StripsAll(field, n - 1, rest);
    }
  }

  /**
   * A `data:` line, with blanks around it and behind the field name, hands exactly its payload to the decoder, unless
   * that is the sentinel; a field name that is repeated at once is stripped as often as it stands there.
   */
  lemma LineHandsPayload(decode: Decoder, kind: ProviderKind, before: Bytes, n: nat, gap: Bytes, payload: Bytes,
                         after: Bytes)
    requires forall b | b in before || b in gap || b in after :: Sse.IsSpace(b)
    requires payload != [] && !Sse.IsSpace(payload[0]) && !Sse.IsSpace(payload[|payload| - 1])
    requires n > 0 && !([100, 97, 116, 97, 58] <= payload)
    ensures EventOf(decode, kind, before + (Times([100, 97, 116, 97, 58], n) + (gap + payload)) + after)
         == if payload == [91, 68, 79, 78, 69, 93] then None else decode(kind, payload)
  {
    hide Times, StripAll, Sse.Trim, Sse.IsSpace;
    var rest := gap + payload;
    GapNoField(gap, payload);
    StripsAll(Sse.DATA_FIELD, n, rest);
    PayloadTrimmed(gap, payload);
    FieldLeads(n, gap, payload);
    LinePadded(before, Times(Sse.DATA_FIELD, n) + rest, after);
  }

  lemma FieldLeads(n: nat, gap: Bytes, payload: Bytes)
    requires n > 0 && payload != []
    ensures var line := Times(Sse.DATA_FIELD, n) + (gap + payload);
            line[|line| - 1] == payload[|payload| - 1] && Sse.DATA_FIELD <= line && line[0] == 100
  {
    var field, more := Sse.DATA_FIELD, Times(Sse.DATA_FIELD, n - 1);
    var line := Times(field, n) + (gap + payload);
    assert line == field + (more + (gap + payload)) by {
      Assoc(field, more, gap + payload);
    }
    hide Times;
    assert line[0] == field[0];
  }

  lemma LinePadded(before: Bytes, line: Bytes, after: Bytes)
    requires forall b | b in before || b in after :: Sse.IsSpace(b)
    requires line != [] && line[0] == 100 && !Sse.IsSpace(line[|line| - 1])
    ensures Sse.Trim(before + line + after) == line
  {
    Padded(before, line, after);
  }

  lemma PayloadTrimmed(gap: Bytes, payload: Bytes)
    requires forall b | b in gap :: Sse.IsSpace(b)
    requires payload != [] && !Sse.IsSpace(payload[0]) && !Sse.IsSpace(payload[|payload| - 1])
    ensures Sse.Trim(gap + payload) == payload
  {
    var none: Bytes := [];
    Padded(gap, payload, none);
    assert gap + payload + none == gap + payload;
  }

  /** What follows the field name does not begin with it again. */
  lemma GapNoField(gap: Bytes, payload: Bytes)
    requires (forall b | b in gap :: Sse.IsSpace(b)) && !(Sse.DATA_FIELD <= payload)
    ensures !(Sse.DATA_FIELD <= gap + payload)
  {
    if gap == [] {
      assert gap + payload == payload;
    } else {
      assert gap[0] in gap && (gap + payload)[0] == gap[0] && Sse.DATA_FIELD[0] == 100;
    }
  }

  /** A line of any other kind hands over nothing. */
  lemma OtherLineIgnored(decode: Decoder, kind: ProviderKind, before: Bytes, text: Bytes, after: Bytes)
    requires forall b | b in before || b in after :: Sse.IsSpace(b)
    requires text != [] && !Sse.IsSpace(text[0]) && !Sse.IsSpace(text[|text| - 1])
    requires !([100, 97, 116, 97, 58] <= text)
    ensures EventOf(decode, kind, before + text + after) == None
  {
    Padded(before, text, after);
  }

  /** One line with its line end, which is its only one. */
  predicate IsLine(line: Bytes) {
    line != [] && line[|line| - 1] == 10 && forall i | 0 <= i < |line| - 1 :: line[i] != 10
  }

  lemma FirstLineOf(line: Bytes, rest: Bytes)
    requires IsLine(line)
    ensures WholeLines(line + rest) == [line] + WholeLines(rest) && PartLine(line + rest) == PartLine(rest)
  {
    var text, k := line + rest, |line| - 1;
    assert forall i | 0 <= i <= k :: text[i] == line[i];
    FirstIndex(text, Sse.LF, k);
    LineStep(text, k);
    assert text[..k + 1] == line && text[k + 1..] == rest;
  }

  lemma {:induction false} LinesOf(lines: seq<Bytes>, last: Bytes)
    requires (forall line | line in lines :: IsLine(line)) && Sse.LF !in last
    ensures WholeLines(Concat(lines) + last) == lines && PartLine(Concat(lines) + last) == last
  {
    if lines == [] {
      assert Concat(lines) + last == last;
      assert IndexOf(last, Sse.LF) == |last|;
    } else {
      var line, more := lines[0], lines[1..];
      assert line in lines && forall x | x in more :: x in lines;
      LinesOf(more, last);
      hide WholeLines, PartLine, IsLine;
      Assoc(line, Concat(more), last);
      FirstLineOf(line, Concat(more) + last);
    }
  }

  /** The lines of a body are decoded in order; what follows the last line end counts only if the body ended cleanly. */
  lemma LinesDecoded(decode: Decoder, kind: ProviderKind, lines: seq<Bytes>, last: Bytes, clean: bool)
    requires (forall line | line in lines :: IsLine(line)) && 10 !in last
    ensures EventsIn(decode, kind, Concat(lines) + last, clean)
         == EventsOf(decode, kind, if clean then lines + [last] else lines)
  {
    LinesOf(lines, last);
    assert lines + [] == lines;
  }

  /** The proxy's own id for a native stream; the first event sent to the client carries it. */
  lemma NativeTurnId(evs: seq<StreamEvent>)
    ensures WholeRun(TASK_ID, evs) != [] && WholeRun(TASK_ID, evs)[0] == Created("resp_chatcmpl-agos")
  {
    hide WholeRun, Texts, Consumed, DeltaEvents, ClosingFor;
    CleanRun(TASK_ID, evs);
    ResponseIdPrefixed(TASK_ID);
    assert "chatcmpl-agos"[0] != "resp_"[0];
    var opening := Created(ResponseId(TASK_ID));
    Assoc([opening], DeltaEvents(TASK_ID, Texts(Consumed(evs))), ClosingFor(TASK_ID, Consumed(evs)));
    assert WholeRun(TASK_ID, evs)[0] == opening;
  }
}

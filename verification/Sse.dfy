/** The incremental server-sent-events frame parser (src/server/sse.rs). */
module Sse {
  import opened Base
  import Json

  const LF: Byte := 10
  const CR: Byte := 13
  const SPACE: Byte := 32

  /** The field names `data:` and `event:`. */
  const DATA_FIELD: Bytes := [100, 97, 116, 97, 58]
  const EVENT_FIELD: Bytes := [101, 118, 101, 110, 116, 58]

  /** The sentinel payload `[DONE]`. */
  const DONE: Bytes := [91, 68, 79, 78, 69, 93]

  datatype SseFrame = SseFrame(event: Bytes, data: Bytes)

  // ---------------------------------------------------------------- frame boundaries

  /** A line end at `i` that is directly followed by an empty line. */
  predicate BlankLineAfter(buf: Bytes, i: nat) {
    && i < |buf| && buf[i] == LF
    && (|| (i + 1 < |buf| && buf[i + 1] == LF)
        || (i + 2 < |buf| && buf[i + 1] == CR && buf[i + 2] == LF))
  }

  /** Length of the frame whose last line ends at `i`: the byte after it is the one-byte terminator. */
  function FrameLen(buf: Bytes, i: nat): nat
    requires BlankLineAfter(buf, i)
  {
    if buf[i + 1] == LF then i + 1 else i + 2
  }

  /** Length of the first complete frame at or after position `i`. */
  function FrameEndFrom(buf: Bytes, i: nat): (end: Option<nat>)
    requires i <= |buf|
    ensures end.Some? ==> i < end.value < |buf| && buf[end.value] == LF
    decreases |buf| - i
  {
    if i == |buf| then None
    else if BlankLineAfter(buf, i) then Some(FrameLen(buf, i))
    else FrameEndFrom(buf, i + 1)
  }

  function FrameEnd(buf: Bytes): Option<nat> {
    FrameEndFrom(buf, 0)
  }

  /** There is no frame end exactly when no line end is followed by an empty line. */
  lemma {:induction false} NoFrameEnd(buf: Bytes, i: nat)
    requires i <= |buf|
    ensures FrameEndFrom(buf, i).None? <==> forall k | i <= k < |buf| :: !BlankLineAfter(buf, k)
    decreases |buf| - i
  {
    if i < |buf| && !BlankLineAfter(buf, i) {
      NoFrameEnd(buf, i + 1);
    }
  }

  /** The line end that the first frame end belongs to. */
  lemma {:induction false} FrameEndAt(buf: Bytes, i: nat) returns (k: nat)
    requires i <= |buf| && FrameEndFrom(buf, i).Some?
    ensures i <= k < |buf| && BlankLineAfter(buf, k)
    ensures FrameEndFrom(buf, i).value == FrameLen(buf, k)
    ensures forall j | i <= j < k :: !BlankLineAfter(buf, j)
    decreases |buf| - i
  {
    if BlankLineAfter(buf, i) {
      k := i;
    } else {
      k := FrameEndAt(buf, i + 1);
    }
  }

  /** Scans for the end of the next complete frame, as `(frame length, terminator length)`. */
  method FindFrameEnd(buf: Bytes) returns (end: Option<(nat, nat)>)
    ensures end == match FrameEnd(buf) case None => None case Some(n) => Some((n, 1))
    ensures end.None? <==> forall k | 0 <= k < |buf| :: !BlankLineAfter(buf, k)
  {
    var i := 0;
    while i < |buf|
      invariant i <= |buf|
      invariant FrameEndFrom(buf, i) == FrameEnd(buf)
      invariant forall k | 0 <= k < i :: !BlankLineAfter(buf, k)
    {
      if buf[i] == LF {
        if i + 1 < |buf| && buf[i + 1] == LF {
          return Some((i + 1, 1));
        }
        if i + 2 < |buf| && buf[i + 1] == CR && buf[i + 2] == LF {
          return Some((i + 2, 1));
        }
      }
      i := i + 1;
    }
    return None;
  }

  /** A buffer cut into its complete raw frames and the unfinished rest. */
  datatype Cut = Cut(raws: seq<Bytes>, rest: Bytes)

  function RawFrames(buf: Bytes): (cut: Cut)
    ensures FrameEnd(cut.rest).None?
    decreases |buf|
  {
    match FrameEnd(buf)
    case None => Cut([], buf)
    case Some(n) =>
      var tail := RawFrames(buf[n + 1..]);
      Cut([buf[..n]] + tail.raws, tail.rest)
  }

  /** More bytes never move a frame end that is already there. */
  lemma FrameEndStable(a: Bytes, b: Bytes)
    requires FrameEnd(a).Some?
    ensures FrameEnd(a + b) == FrameEnd(a)
  {
    var k := FrameEndAt(a, 0);
    assert BlankLineAfter(a + b, k) && FrameLen(a + b, k) == FrameLen(a, k);
    forall j | 0 <= j < k
      ensures !BlankLineAfter(a + b, j)
    {
      assert !BlankLineAfter(a, j);
    }
    FirstEnd(a + b, 0, k);
  }

  lemma {:induction false} FirstEnd(buf: Bytes, i: nat, k: nat)
    requires i <= k < |buf| && BlankLineAfter(buf, k)
    requires forall j | i <= j < k :: !BlankLineAfter(buf, j)
    ensures FrameEndFrom(buf, i) == Some(FrameLen(buf, k))
    decreases k - i
  {
    if i < k {
      FirstEnd(buf, i + 1, k);
    }
  }

  lemma CutStep(buf: Bytes, n: nat)
    requires FrameEnd(buf) == Some(n)
    ensures RawFrames(buf) == Cut([buf[..n]] + RawFrames(buf[n + 1..]).raws, RawFrames(buf[n + 1..]).rest)
  {
  }

  lemma Slices(a: Bytes, b: Bytes, n: nat)
    requires n < |a|
    ensures (a + b)[..n] == a[..n] && (a + b)[n + 1..] == a[n + 1..] + b
  {
  }

  /** Chunking invariance: cutting `a` first and feeding `b` to what is left cuts `a + b`. */
  lemma {:induction false} CutAppend(a: Bytes, b: Bytes)
    ensures RawFrames(a + b).raws == RawFrames(a).raws + RawFrames(RawFrames(a).rest + b).raws
    ensures RawFrames(a + b).rest == RawFrames(RawFrames(a).rest + b).rest
    decreases |a|
  {
    match FrameEnd(a)
    case None =>
      var none, all := RawFrames(a).raws, RawFrames(a + b).raws;
      assert none == [] && none + all == all;
    case Some(n) =>
      var more := a[n + 1..];
      CutStep(a, n);
      FrameEndStable(a, b);
      Slices(a, b, n);
      CutStep(a + b, n);
      CutAppend(more, b);
      Assoc([a[..n]], RawFrames(more).raws, RawFrames(RawFrames(more).rest + b).raws);
  }

  /** The bytes the raw frames were cut from: each raw frame followed by its one-byte terminator. */
  function Rejoin(raws: seq<Bytes>): Bytes {
    if raws == [] then [] else raws[0] + [LF] + Rejoin(raws[1..])
  }

  lemma Rebuilt(buf: Bytes, n: nat)
    requires n < |buf| && buf[n] == LF
    ensures buf == buf[..n] + [LF] + buf[n + 1..]
  {
  }

  lemma RejoinCons(r: Bytes, raws: seq<Bytes>)
    ensures Rejoin([r] + raws) == r + [LF] + Rejoin(raws)
  {
    assert ([r] + raws)[1..] == raws;
  }

  /** A cut loses, adds and moves nothing. */
  lemma {:induction false} CutConserves(buf: Bytes)
    ensures Rejoin(RawFrames(buf).raws) + RawFrames(buf).rest == buf
    decreases |buf|
  {
    match FrameEnd(buf)
    case None =>
      assert RawFrames(buf) == Cut([], buf);
    case Some(n) =>
      var tail := RawFrames(buf[n + 1..]);
      CutStep(buf, n);
      CutConserves(buf[n + 1..]);
      RejoinCons(buf[..n], tail.raws);
      Assoc(buf[..n] + [LF], Rejoin(tail.raws), tail.rest);
      Rebuilt(buf, n);
  }

  /** A cut whose pieces end exactly at their first blank line and whose rest has none. */
  ghost predicate CutOf(cut: Cut, buf: Bytes) {
    && Rejoin(cut.raws) + cut.rest == buf
    && FrameEnd(cut.rest).None?
    && forall r | r in cut.raws :: FrameEnd(r + [LF]) == Some(|r|)
  }

  /** `RawFrames` is the only such cut. */
  lemma {:induction false} CutUnique(cut: Cut, buf: Bytes)
    ensures CutOf(cut, buf) <==> cut == RawFrames(buf)
  {
    if CutOf(cut, buf) {
      CutDetermined(cut, buf);
    }
    CutConserves(buf);
    RawsEndAtFirstBlank(buf);
  }

  lemma {:induction false} CutDetermined(cut: Cut, buf: Bytes)
    requires CutOf(cut, buf)
    ensures cut == RawFrames(buf)
    decreases |cut.raws|
  {
    hide RawFrames, FrameEndFrom;
    if cut.raws != [] {
      var r, more := cut.raws[0], Cut(cut.raws[1..], cut.rest);
      var tail := Rejoin(more.raws) + more.rest;
      assert buf == (r + [LF]) + tail;
      FrameEndStable(r + [LF], tail);
      CutStep(buf, |r|);
      assert buf[..|r|] == r && buf[|r| + 1..] == tail;
      CutDetermined(more, tail);
      assert cut.raws == [r] + more.raws;
    } else {
      assert buf == cut.rest;
      CutWhole(buf);
    }
  }

  lemma CutWhole(buf: Bytes)
    requires FrameEnd(buf).None?
    ensures RawFrames(buf) == Cut([], buf)
  {
  }

  lemma {:induction false} RawsEndAtFirstBlank(buf: Bytes)
    ensures forall r | r in RawFrames(buf).raws :: FrameEnd(r + [LF]) == Some(|r|)
    decreases |buf|
  {
    match FrameEnd(buf)
    case None =>
    case Some(n) =>
      RawsEndAtFirstBlank(buf[n + 1..]);
      CutStep(buf, n);
      var r := buf[..n];
      var k := FrameEndAt(buf, 0);
      assert r + [LF] == buf[..n + 1];
      assert BlankLineAfter(r + [LF], k) && FrameLen(r + [LF], k) == n;
      forall j | 0 <= j < k
        ensures !BlankLineAfter(r + [LF], j)
      {
        assert !BlankLineAfter(buf, j);
      }
      FirstEnd(r + [LF], 0, k);
  }

  // ---------------------------------------------------------------- one raw frame

  /** The lines of a text; a final line end opens no further line. */
  function Lines(text: Bytes): seq<Bytes>
    decreases |text|
  {
    if text == [] then []
    else
      var k := IndexOf(text, LF);
      if k == |text| then [text] else [text[..k]] + Lines(text[k + 1..])
  }

  function TrimEndCr(line: Bytes): (r: Bytes)
    ensures r <= line
    ensures r != [] ==> r[|r| - 1] != CR
    ensures line == [] || line[|line| - 1] != CR ==> r == line
  {
    if line != [] && line[|line| - 1] == CR then TrimEndCr(line[..|line| - 1]) else line
  }

  function StripPrefix(prefix: Bytes, line: Bytes): Option<Bytes> {
    if prefix <= line then Some(line[|prefix|..]) else None
  }

  function StripSpace(rest: Bytes): Bytes {
    if rest != [] && rest[0] == SPACE then rest[1..] else rest
  }

  /** The value a line gives to `field`, if it is a line of that field. */
  function FieldOf(field: Bytes, line: Bytes): Option<Bytes> {
    match StripPrefix(field, TrimEndCr(line))
    case None => None
    case Some(rest) => Some(StripSpace(rest))
  }

  /** The payloads of the `data:` lines, in order. */
  function DataOf(lines: seq<Bytes>): seq<Bytes> {
    if lines == [] then []
    else
      var front := DataOf(lines[..|lines| - 1]);
      match FieldOf(DATA_FIELD, lines[|lines| - 1])
      case Some(d) => front + [d]
      case None => front
  }

  /** The last event name given by a line that is not a `data:` line. */
  function EventOf(lines: seq<Bytes>): Bytes {
    if lines == [] then []
    else
      var last := lines[|lines| - 1];
      if FieldOf(DATA_FIELD, last).None? && FieldOf(EVENT_FIELD, last).Some?
      then FieldOf(EVENT_FIELD, last).value
      else EventOf(lines[..|lines| - 1])
  }

  function JoinLines(parts: seq<Bytes>): Bytes {
    if parts == [] then []
    else if |parts| == 1 then parts[0]
    else parts[0] + [LF] + JoinLines(parts[1..])
  }

  function ParsedFrame(raw: Bytes): Option<SseFrame> {
    var lines := Lines(raw);
    if DataOf(lines) == [] then None
    else Some(SseFrame(EventOf(lines), JoinLines(DataOf(lines))))
  }

  method ParseFrame(raw: Bytes) returns (frame: Option<SseFrame>)
    ensures frame == ParsedFrame(raw)
  {
    var lines := Lines(raw);
    var event: Bytes := [];
    var dataLines: seq<Bytes> := [];
    for i := 0 to |lines|
      invariant dataLines == DataOf(lines[..i])
      invariant event == EventOf(lines[..i])
    {
      assert lines[..i + 1][..i] == lines[..i];
      var line := TrimEndCr(lines[i]);
      var data := StripPrefix(DATA_FIELD, line);
      if data.Some? {
        dataLines := dataLines + [StripSpace(data.value)];
      } else {
        var name := StripPrefix(EVENT_FIELD, line);
        if name.Some? {
          event := StripSpace(name.value);
        }
      }
    }
    assert lines[..|lines|] == lines;
    if dataLines == [] {
      return None;
    }
    return Some(SseFrame(event, JoinLines(dataLines)));
  }

  /** The frames among a list of raw frames: comments and other data-less frames vanish. */
  function Parsed(raws: seq<Bytes>): seq<SseFrame> {
    if raws == [] then []
    else match ParsedFrame(raws[0])
         case None => Parsed(raws[1..])
         case Some(f) => [f] + Parsed(raws[1..])
  }

  lemma {:induction false} ParsedAppend(a: seq<Bytes>, b: seq<Bytes>)
    ensures Parsed(a + b) == Parsed(a) + Parsed(b)
  {
    hide ParsedFrame;
    if a == [] {
      assert a + b == b;
    } else {
      ParsedAppend(a[1..], b);
      assert (a + b)[1..] == a[1..] + b && (a + b)[0] == a[0];
      match ParsedFrame(a[0])
      case None =>
      case Some(f) => Assoc([f], Parsed(a[1..]), Parsed(b));
    }
  }

  // ---------------------------------------------------------------- the parser

  /** Frames completed by a buffer. */
  function Frames(buf: Bytes): seq<SseFrame> {
    Parsed(RawFrames(buf).raws)
  }

  /** What is still incomplete in a buffer. */
  function Leftover(buf: Bytes): (rest: Bytes)
    ensures FrameEnd(rest).None?
  {
    RawFrames(buf).rest
  }

  /** The frame an unterminated rest becomes when the stream ends. */
  function Flush(rest: Bytes): seq<SseFrame> {
    if rest == [] || ParsedFrame(rest).None? then [] else [ParsedFrame(rest).value]
  }

  /** Every frame of a stream that ended cleanly after `bytes`. */
  function AllFrames(bytes: Bytes): seq<SseFrame> {
    Frames(bytes) + Flush(Leftover(bytes))
  }

  /** The frames and rest of a stream do not depend on where it was cut. */
  lemma FeedAppend(a: Bytes, b: Bytes)
    ensures Frames(a + b) == Frames(a) + Frames(Leftover(a) + b)
    ensures Leftover(a + b) == Leftover(Leftover(a) + b)
  {
    CutAppend(a, b);
    ParsedAppend(RawFrames(a).raws, RawFrames(RawFrames(a).rest + b).raws);
  }

  class SseParser {
    var buf: Bytes

    constructor ()
      ensures buf == []
    {
      buf := [];
    }

    method Feed(bytes: Bytes) returns (frames: seq<SseFrame>)
      modifies this
      ensures frames == Frames(old(buf) + bytes)
      ensures buf == Leftover(old(buf) + bytes)
    {
      buf := buf + bytes;
      ghost var all := buf;
      frames := [];
      while true
        invariant frames + Frames(buf) == Frames(all)
        invariant Leftover(buf) == Leftover(all)
        decreases |buf|
      {
        var end := FindFrameEnd(buf);
        if end.None? {
          break;
        }
        var raw := buf[..end.value.0];
        buf := buf[end.value.0..];
        buf := buf[end.value.1..];
        var frame := ParseFrame(raw);
        if frame.Some? {
          frames := frames + [frame.value];
        }
      }
    }

    method Finish() returns (frames: seq<SseFrame>)
      modifies this
      ensures frames == Flush(old(buf))
      ensures buf == []
    {
      if buf == [] {
        return [];
      }
      var raw := buf;
      buf := [];
      var frame := ParseFrame(raw);
      frames := if frame.Some? then [frame.value] else [];
    }
  }

  /** What feeding a list of chunks yields altogether. */
  function FedFrames(rest: Bytes, chunks: seq<Bytes>): seq<SseFrame>
    decreases |chunks|
  {
    if chunks == [] then []
    else Frames(rest + chunks[0]) + FedFrames(Leftover(rest + chunks[0]), chunks[1..])
  }

  function FedRest(rest: Bytes, chunks: seq<Bytes>): Bytes
    decreases |chunks|
  {
    if chunks == [] then rest
    else FedRest(Leftover(rest + chunks[0]), chunks[1..])
  }

  /** Any run of `Feed` calls yields the frames and rest of one `Feed` of everything. */
  lemma {:induction false} AnyChunking(rest: Bytes, chunks: seq<Bytes>)
    requires FrameEnd(rest).None?
    ensures FedFrames(rest, chunks) == Frames(rest + Concat(chunks))
    ensures FedRest(rest, chunks) == Leftover(rest + Concat(chunks))
    decreases |chunks|
  {
    if chunks == [] {
      assert rest + Concat(chunks) == rest;
    } else {
      var head := rest + chunks[0];
      AnyChunking(Leftover(head), chunks[1..]);
      FeedAppend(head, Concat(chunks[1..]));
      Assoc(rest, chunks[0], Concat(chunks[1..]));
    }
  }

  // ---------------------------------------------------------------- classification

  /** What one payload means for the stream that carries it. */
  datatype Class =
    | Error(code: Option<int>, message: string, raw: Bytes)
    | Done
    | Other(raw: Bytes, json: Option<Json.Value>)

  const DEFAULT_ERROR := "upstream reported an in-band error"

  /** `parse` is the JSON reader, which this model leaves open. */
  function Classify(parse: Bytes -> Option<Json.Value>, data: Bytes): Class {
    var trimmed := Trim(data);
    if trimmed == DONE then Done
    else
      var json := parse(trimmed);
      var err := Json.Field(json, "error");
      if err.Some? then
        var code := err.value.Get("code");
        Error(if code.Some? then code.value.AsI64() else None,
              Json.StrOf(err.value.Get("message")).UnwrapOr(DEFAULT_ERROR),
              trimmed)
      else Other(trimmed, json)
  }

  // ---------------------------------------------------------------- wire form

  /** `data: <payload>` and a blank line. */
  function ToWire(payload: Bytes): Bytes {
    DATA_FIELD + [SPACE] + payload + [LF, LF]
  }

  predicate IsSpace(b: Byte) {
    9 <= b <= 13 || b == 32
  }

  function TrimStart(text: Bytes): (r: Bytes)
    ensures |r| <= |text|
    ensures r != [] ==> !IsSpace(r[0]) && r[|r| - 1] == text[|text| - 1]
  {
    if text != [] && IsSpace(text[0]) then TrimStart(text[1..]) else text
  }

  function TrimEnd(text: Bytes): (r: Bytes)
    ensures r <= text
    ensures r != [] ==> !IsSpace(r[|r| - 1])
  {
    if text != [] && IsSpace(text[|text| - 1]) then TrimEnd(text[..|text| - 1]) else text
  }

  function Trim(text: Bytes): (r: Bytes)
    ensures r != [] ==> !IsSpace(r[0]) && !IsSpace(r[|r| - 1])
  {
    TrimEnd(TrimStart(text))
  }

  /** Total length of the payloads, each with one separator. */
  function PaddedLen(parts: seq<Bytes>): nat {
    if parts == [] then 0 else 1 + |parts[0]| + PaddedLen(parts[1..])
  }

  lemma {:induction false} PaddedAppend(a: seq<Bytes>, b: seq<Bytes>)
    ensures PaddedLen(a + b) == PaddedLen(a) + PaddedLen(b)
  {
    if a == [] {
      assert a + b == b;
    } else {
      PaddedAppend(a[1..], b);
      assert (a + b)[1..] == a[1..] + b;
    }
  }

  lemma {:induction false} JoinedLen(parts: seq<Bytes>)
    requires parts != []
    ensures |JoinLines(parts)| + 1 == PaddedLen(parts)
  {
    if |parts| > 1 {
      JoinedLen(parts[1..]);
    }
  }

  lemma DataOfOne(line: Bytes)
    ensures DataOf([line]) == match FieldOf(DATA_FIELD, line) case Some(d) => [d] case None => []
    ensures FieldOf(DATA_FIELD, line).None? ==> EventOf([line]) == FieldOf(EVENT_FIELD, line).UnwrapOr([])
    ensures FieldOf(DATA_FIELD, line).Some? ==> EventOf([line]) == []
  {
    var none: seq<Bytes> := [line][..0];
    assert none == [];
  }

  lemma {:induction false} DataAppend(a: seq<Bytes>, b: seq<Bytes>)
    ensures DataOf(a + b) == DataOf(a) + DataOf(b)
  {
    if b == [] {
      assert a + b == a;
    } else {
      DataAppend(a, b[..|b| - 1]);
      assert (a + b)[..|a + b| - 1] == a + b[..|b| - 1];
    }
  }

  /** One line carries less data than it is long. */
  lemma LineData(line: Bytes)
    ensures PaddedLen(DataOf([line])) <= |line|
    ensures line != [] ==> PaddedLen(DataOf([line])) < |line|
  {
    DataOfOne(line);
    match FieldOf(DATA_FIELD, line)
    case None =>
      assert DataOf([line]) == [];
    case Some(d) =>
      assert [d][1..] == [] && PaddedLen([d]) == 1 + |d|;
      assert |d| + 5 <= |line|;
  }

  /** The data lines of a non-empty text carry strictly less than the text. */
  lemma {:induction false} DataShrinks(text: Bytes)
    requires text != []
    ensures PaddedLen(DataOf(Lines(text))) < |text|
    decreases |text|
  {
    hide Lines, DataOf, PaddedLen, IndexOf, FieldOf;
    var k := IndexOf(text, LF);
    var line := text[..k];
    LineData(line);
    NoData();
    LinesStep(text);
    if k == |text| {
      assert line == text;
    } else {
      var more := text[k + 1..];
      DataAppend([line], Lines(more));
      PaddedAppend(DataOf([line]), DataOf(Lines(more)));
      if more != [] {
        DataShrinks(more);
      }
    }
  }

  lemma LinesStep(text: Bytes)
    requires text != []
    ensures IndexOf(text, LF) == |text| ==> Lines(text) == [text]
    ensures IndexOf(text, LF) < |text| ==>
              Lines(text) == [text[..IndexOf(text, LF)]] + Lines(text[IndexOf(text, LF) + 1..])
  {
    hide IndexOf;
  }

  lemma NoData()
    ensures PaddedLen(DataOf(Lines([]))) == 0
  {
  }

  /**
   * Re-parsing the wire form of a payload gives that payload back, and nothing else,
   * exactly when the payload has no line end and does not end in a carriage return.
   */
  lemma WireRoundTrip(payload: Bytes)
    ensures Frames(ToWire(payload)) == [SseFrame([], payload)] && Leftover(ToWire(payload)) == []
       <==> LF !in payload && (payload == [] || payload[|payload| - 1] != CR)
  {
    if LF !in payload {
      SingleLineWire(payload);
    } else {
      MultiLineWire(payload);
    }
  }

  lemma SingleLineWire(payload: Bytes)
    requires LF !in payload
    ensures Frames(ToWire(payload)) == [SseFrame([], TrimEndCr(payload))]
    ensures Leftover(ToWire(payload)) == []
  {
    var wire := ToWire(payload);
    var k := 6 + |payload|;
    assert forall j | 0 <= j < k :: wire[j] != LF;
    FirstEnd(wire, 0, k);
    var raw := wire[..k + 1];
    assert wire[k + 2..] == [];
    assert RawFrames(wire) == Cut([raw], []);
    assert raw[..k] == DATA_FIELD + [SPACE] + payload;
    assert raw[k + 1..] == [];
    FirstIndex(raw, LF, k);
    assert Lines(raw) == [raw[..k]];
    FirstLine(payload);
    assert Parsed([raw][1..]) == [];
  }

  lemma {:induction false} TrimAfter(prefix: Bytes, payload: Bytes)
    requires prefix != [] && prefix[|prefix| - 1] != CR
    ensures TrimEndCr(prefix + payload) == prefix + TrimEndCr(payload)
    decreases |payload|
  {
    if payload == [] {
      assert prefix + payload == prefix;
    } else if payload[|payload| - 1] == CR {
      TrimAfter(prefix, payload[..|payload| - 1]);
      assert (prefix + payload)[..|prefix + payload| - 1] == prefix + payload[..|payload| - 1];
    }
  }

  /** A payload with a line end cannot survive: the first frame its wire form is read as is shorter. */
  lemma MultiLineWire(payload: Bytes)
    requires LF in payload
    ensures Frames(ToWire(payload)) != [] && |Frames(ToWire(payload))[0].data| < |payload|
  {
    var wire := ToWire(payload);
    var i := IndexOf(payload, LF);
    var k := 6 + i;
    assert wire[k] == LF && forall j | 0 <= j < k :: wire[j] != LF;
    assert BlankLineAfter(wire, |wire| - 2);
    NoFrameEnd(wire, 0);
    var at := FrameEndAt(wire, 0);
    var n := FrameEnd(wire).value;
    CutStep(wire, n);
    FirstLineData(payload, wire[..n], k);
    assert RawFrames(wire).raws[0] == wire[..n];
    assert Frames(wire)[0] == ParsedFrame(wire[..n]).value;
  }

  /** The first frame of a multi-line payload's wire form is shorter than the payload. */
  lemma FirstLineData(payload: Bytes, raw: Bytes, k: nat)
    requires 6 <= k < |raw| <= |payload| + 7 && raw[k] == LF
    requires raw <= ToWire(payload) && k - 6 < |payload|
    requires forall j | 0 <= j < k :: raw[j] != LF
    ensures ParsedFrame(raw).Some? && |ParsedFrame(raw).value.data| < |payload|
  {
    var head, more := payload[..k - 6], raw[k + 1..];
    FirstIndex(raw, LF, k);
    assert raw[..k] == DATA_FIELD + [SPACE] + head;
    assert Lines(raw) == [DATA_FIELD + [SPACE] + head] + Lines(more);
    hide Lines, IndexOf;
    FirstLineJoined(head, more);
    hide DataOf;
  }

  lemma FirstLineJoined(head: Bytes, more: Bytes)
    ensures var data := DataOf([DATA_FIELD + [SPACE] + head] + Lines(more));
            data != [] && |JoinLines(data)| <= |head| + if more == [] then 0 else |more| - 1
  {
    FirstLine(head);
    NoData();
    hide Lines, FieldOf, DataOf;
    DataAppend([DATA_FIELD + [SPACE] + head], Lines(more));
    if more != [] {
      DataShrinks(more);
    }
    FirstLineFits(head, DataOf(Lines(more)), if more == [] then 0 else |more| - 1);
  }

  lemma FirstLineFits(head: Bytes, others: seq<Bytes>, room: nat)
    requires PaddedLen(others) <= room
    ensures |JoinLines([TrimEndCr(head)] + others)| <= |head| + room
  {
    PaddedAppend([TrimEndCr(head)], others);
    JoinedLen([TrimEndCr(head)] + others);
    var none: seq<Bytes> := [TrimEndCr(head)][1..];
    assert none == [];
  }

  lemma FirstLine(head: Bytes)
    ensures var first := DATA_FIELD + [SPACE] + head;
            && FieldOf(DATA_FIELD, first) == Some(TrimEndCr(head))
            && DataOf([first]) == [TrimEndCr(head)]
            && EventOf([first]) == []
  {
    var first := DATA_FIELD + [SPACE] + head;
    TrimAfter(DATA_FIELD + [SPACE], head);
    Assoc(DATA_FIELD, [SPACE], TrimEndCr(head));
    Stripped(DATA_FIELD, TrimEndCr(head));
    DataOfOne(first);
  }

  lemma Stripped(field: Bytes, value: Bytes)
    ensures StripPrefix(field, field + ([SPACE] + value)) == Some([SPACE] + value)
    ensures StripSpace([SPACE] + value) == value
  {
    assert (field + ([SPACE] + value))[|field|..] == [SPACE] + value;
    assert ([SPACE] + value)[1..] == value;
  }

  // ---------------------------------------------------------------- in-band errors

  /** The payload of an in-band error with its code, if it is a 64-bit number, and its message, if it is a text. */
  lemma ErrorReads(parse: Bytes -> Option<Json.Value>, data: Bytes, fields: map<string, Json.Value>,
                   error: map<string, Json.Value>)
    requires Trim(data) != [91, 68, 79, 78, 69, 93] && parse(Trim(data)) == Some(Json.Obj(fields))
    requires "error" in fields && fields["error"] == Json.Obj(error)
    ensures var c := Classify(parse, data);
            && c.Error? && c.raw == Trim(data)
            && (match c.code
                case Some(n) => "code" in error && error["code"] == Json.Num(n)
                case None => "code" in error && error["code"].Num? ==>
                               !(-0x8000_0000_0000_0000 <= error["code"].n < 0x8000_0000_0000_0000))
            && (if "message" in error && error["message"].Str? then c.message == error["message"].text
                else c.message == "upstream reported an in-band error")
  {
  }

  /** An error that is no object has neither; a payload without an error is no error. */
  lemma OtherReads(parse: Bytes -> Option<Json.Value>, data: Bytes)
    requires Trim(data) != [91, 68, 79, 78, 69, 93]
    ensures var json := parse(Trim(data));
            && (Classify(parse, data).Error? <==> json.Some? && json.value.Obj? && "error" in json.value.fields)
            && (Classify(parse, data).Error? && !json.value.fields["error"].Obj? ==>
                  Classify(parse, data) == Error(None, "upstream reported an in-band error", Trim(data)))
            && (!Classify(parse, data).Error? ==> Classify(parse, data) == Other(Trim(data), json))
  {
  }

  lemma DoneReads(parse: Bytes -> Option<Json.Value>, data: Bytes)
    ensures Classify(parse, data).Done? <==> Trim(data) == [91, 68, 79, 78, 69, 93]
  {
  }
}

/** What a frame written line by line is read as (`parse_frame` in src/server/sse.rs). */
module SseFields {
  import opened Base
  import opened Sse

  /** One line of a frame: a data line, an event line or any other, ended by LF or CR LF. */
  datatype Line =
    | Data(gap: bool, text: Bytes, crlf: bool)
    | Name(gap: bool, text: Bytes, crlf: bool)
    | Other(text: Bytes, crlf: bool)

  /** A line's own text has no line end in it, and cannot be mistaken for another kind of line. */
  predicate Plain(line: Line) {
    && LF !in line.text && (line.text != [] ==> line.text[|line.text| - 1] != CR)
    && match line
       case Data(gap, text, _) => gap || !([32] <= text)
       case Name(gap, text, _) => gap || !([32] <= text)
       case Other(text, _) =>
         text != [] && !([100, 97, 116, 97, 58] <= text) && !([101, 118, 101, 110, 116, 58] <= text)
  }

  predicate AllPlain(lines: seq<Line>) {
    forall line | line in lines :: Plain(line)
  }

  /** `data:` or `event:`, at most one space, and the text. */
  function Shown(line: Line): Bytes {
    match line
    case Data(gap, text, _) => [100, 97, 116, 97, 58] + (if gap then [32] else []) + text
    case Name(gap, text, _) => [101, 118, 101, 110, 116, 58] + (if gap then [32] else []) + text
    case Other(text, _) => text
  }

  function WithCr(line: Line): Bytes {
    if line.crlf then Shown(line) + [13] else Shown(line)
  }

  /** The empty line that ends a frame, with either line end. */
  function BlankLine(crlf: bool): Bytes {
    if crlf then [13, 10] else [10]
  }

  function BeforeLf(crlf: bool): Bytes {
    if crlf then [13] else []
  }

  function Written(lines: seq<Line>): Bytes {
    if lines == [] then [] else Written(lines[..|lines| - 1]) + (WithCr(lines[|lines| - 1]) + [10])
  }

  /** The payload of a frame: the texts of its data lines in order, with a line end between any two. */
  function Payload(lines: seq<Line>): Option<Bytes> {
    if lines == [] then None
    else
      var before := Payload(lines[..|lines| - 1]);
      match lines[|lines| - 1]
      case Data(_, text, _) => Some(if before.Some? then before.value + [10] + text else text)
      case _ => before
  }

  /** The name of a frame: the text of its last event line. */
  function NameOf(lines: seq<Line>): Bytes {
    if lines == [] then []
    else match lines[|lines| - 1]
         case Name(_, text, _) => text
         case _ => NameOf(lines[..|lines| - 1])
  }

  // ---------------------------------------------------------------- one line

  lemma NoFinalCr(field: Bytes, gap: Bytes, text: Bytes, cr: Bytes)
    requires field != [] && field[|field| - 1] != CR && (gap == [] || gap == [SPACE]) && (cr == [] || cr == [CR])
    requires text != [] ==> text[|text| - 1] != CR
    ensures TrimEndCr(field + gap + text + cr) == field + gap + text
  {
    var whole := field + gap + text;
    assert whole[|whole| - 1] != CR;
    if cr == [] {
      assert whole + cr == whole;
    } else {
      assert (whole + cr)[..|whole + cr| - 1] == whole;
    }
  }

  lemma ValueRead(field: Bytes, gap: Bytes, text: Bytes, cr: Bytes)
    requires field != [] && field[|field| - 1] != CR && (gap == [] || gap == [SPACE]) && (cr == [] || cr == [CR])
    requires text != [] ==> text[|text| - 1] != CR
    requires gap == [SPACE] || !([SPACE] <= text)
    ensures FieldOf(field, field + gap + text + cr) == Some(text)
  {
    hide TrimEndCr;
    NoFinalCr(field, gap, text, cr);
    Assoc(field, gap, text);
    ValueBehind(field, gap, text);
  }

  lemma ValueBehind(field: Bytes, gap: Bytes, text: Bytes)
    requires gap == [SPACE] || (gap == [] && !([SPACE] <= text))
    ensures StripPrefix(field, field + (gap + text)) == Some(gap + text)
    ensures StripSpace(gap + text) == text
  {
    var rest := gap + text;
    assert (field + rest)[|field|..] == rest;
    if gap == [] {
      assert rest == text;
      assert text != [] ==> [text[0]] <= text;
    } else {
      assert rest[1..] == text && rest[0] == SPACE;
    }
  }

  lemma LineRead(line: Line)
    requires Plain(line)
    ensures FieldOf(DATA_FIELD, WithCr(line)) == if line.Data? then Some(line.text) else None
    ensures !line.Data? ==> FieldOf(EVENT_FIELD, WithCr(line)) == if line.Name? then Some(line.text) else None
  {
    hide FieldOf;
    var cr: Bytes := if line.crlf then [CR] else [];
    assert WithCr(line) == Shown(line) + cr;
    match line
    case Data(gap, text, _) =>
      ValueRead(DATA_FIELD, if gap then [SPACE] else [], text, cr);
    case Name(gap, text, _) =>
      ValueRead(EVENT_FIELD, if gap then [SPACE] else [], text, cr);
      var shown := Shown(line);
      assert shown[0] == 101 && DATA_FIELD[0] == 100;
      assert shown[|shown| - 1] != CR;
      OtherField(DATA_FIELD, shown, cr);
    case Other(text, _) =>
      OtherField(DATA_FIELD, text, cr);
      OtherField(EVENT_FIELD, text, cr);
  }

  lemma OtherField(field: Bytes, text: Bytes, cr: Bytes)
    requires !(field <= text) && (text != [] ==> text[|text| - 1] != CR) && (cr == [] || cr == [CR])
    ensures FieldOf(field, text + cr) == None
  {
    if cr == [] {
      assert text + cr == text;
    } else {
      assert (text + cr)[..|text + cr| - 1] == text;
    }
  }

  // ---------------------------------------------------------------- the lines of a frame

  function LinesShown(lines: seq<Line>): seq<Bytes> {
    if lines == [] then [] else LinesShown(lines[..|lines| - 1]) + [WithCr(lines[|lines| - 1])]
  }

  /** Texts that end with a line end are split apart from what follows. */
  lemma {:induction false} LinesApart(a: Bytes, b: Bytes)
    requires a == [] || a[|a| - 1] == LF
    ensures Lines(a + b) == Lines(a) + Lines(b)
    decreases |a|
  {
    if a == [] {
      assert a + b == b && Lines(a) + Lines(b) == Lines(b);
    } else {
      var k := IndexOf(a, LF);
      assert k < |a|;
      FirstIndex(a + b, LF, k);
      Slices(a, b, k);
      LinesApart(a[k + 1..], b);
      Assoc([a[..k]], Lines(a[k + 1..]), Lines(b));
    }
  }

  lemma OneLine(line: Bytes)
    requires LF !in line
    ensures Lines(line + [LF]) == [line]
    ensures Lines(line) == if line == [] then [] else [line]
  {
    var text, k := line + [LF], |line|;
    assert text[k] == LF;
    forall j | 0 <= j < k
      ensures text[j] != LF
    {
      assert text[j] == line[j] && line[j] in line;
    }
    FirstIndex(text, LF, k);
    assert text[..k] == line && text[k + 1..] == [];
  }

  lemma NoLineEnd(line: Line)
    requires Plain(line)
    ensures LF !in WithCr(line) && WithCr(line) != []
    ensures WithCr(line)[0] != LF && (WithCr(line)[0] == CR ==> |WithCr(line)| > 1 && WithCr(line)[1] != LF)
  {
  }

  lemma {:induction false} LinesOfWritten(lines: seq<Line>)
    requires AllPlain(lines)
    ensures Lines(Written(lines)) == LinesShown(lines)
    ensures lines != [] ==> Written(lines) != [] && Written(lines)[|Written(lines)| - 1] == LF
  {
    hide Plain, WithCr, Lines;
    if lines == [] {
      OneLine([]);
    } else {
      var front, last := lines[..|lines| - 1], lines[|lines| - 1];
      assert last in lines && forall line | line in front :: line in lines;
      LinesOfWritten(front);
      NoLineEnd(last);
      OneLine(WithCr(last));
      LinesApart(Written(front), WithCr(last) + [LF]);
      assert front == [] ==> Written(front) == [];
    }
  }

  lemma {:induction false} FieldsRead(lines: seq<Line>)
    requires AllPlain(lines)
    ensures EventOf(LinesShown(lines)) == NameOf(lines)
    ensures DataOf(LinesShown(lines)) == [] <==> Payload(lines) == None
    ensures Payload(lines).Some? ==> JoinLines(DataOf(LinesShown(lines))) == Payload(lines).value
  {
    hide Plain, WithCr, FieldOf, JoinLines;
    if lines != [] {
      var front, last := lines[..|lines| - 1], lines[|lines| - 1];
      assert last in lines && forall line | line in front :: line in lines;
      FieldsRead(front);
      LineRead(last);
      var shown := LinesShown(lines);
      assert shown[..|shown| - 1] == LinesShown(front) && shown[|shown| - 1] == WithCr(last);
      if last.Data? {
        JoinSnoc(DataOf(LinesShown(front)), last.text);
      }
    }
  }

  lemma {:induction false} JoinSnoc(parts: seq<Bytes>, last: Bytes)
    ensures JoinLines(parts + [last]) == if parts == [] then last else JoinLines(parts) + [LF] + last
  {
    var all := parts + [last];
    if |parts| <= 1 {
      if parts == [] {
        assert all == [last];
      } else {
        assert all == [parts[0], last] && all[1..] == [last];
      }
    } else {
      JoinSnoc(parts[1..], last);
      assert all[1..] == parts[1..] + [last];
      Assoc(parts[0] + [LF], JoinLines(parts[1..]), [LF]);
      Assoc(parts[0] + [LF], JoinLines(parts[1..]) + [LF], last);
    }
  }

  // ---------------------------------------------------------------- where the frame ends

  lemma {:induction false} NoBlankBefore(lines: seq<Line>, j: nat)
    requires AllPlain(lines) && j + 1 < |Written(lines)|
    ensures !BlankLineAfter(Written(lines), j)
  {
    var front, last := lines[..|lines| - 1], lines[|lines| - 1];
    assert last in lines && forall line | line in front :: line in lines;
    var before, line := Written(front), WithCr(last);
    assert Written(lines) == before + (line + [LF]);
    NoLineEnd(last);
    LinesOfWritten(front);
    hide Plain, WithCr, Written, BlankLineAfter, AllPlain;
    if j + 1 < |before| {
      NoBlankBefore(front, j);
      StillNoBlank(before, line + [LF], j);
    } else {
      NoBlankIn(before, line, j);
    }
  }

  lemma NoBlankIn(before: Bytes, line: Bytes, j: nat)
    requires |before| <= j + 1 && j < |before| + |line|
    requires LF !in line && line != [] && (line[0] == CR ==> |line| > 1)
    ensures !BlankLineAfter(before + (line + [LF]), j)
  {
    var all := before + (line + [LF]);
    forall i | |before| <= i < |before| + |line|
      ensures all[i] != LF
    {
      assert all[i] == line[i - |before|] && line[i - |before|] in line;
    }
    assert all[|before|] == line[0];
  }

  lemma NoneBlank(lines: seq<Line>)
    requires AllPlain(lines)
    ensures forall j | 0 <= j && j + 1 < |Written(lines)| :: !BlankLineAfter(Written(lines), j)
  {
    hide Written, AllPlain, BlankLineAfter;
    forall j | 0 <= j && j + 1 < |Written(lines)|
      ensures !BlankLineAfter(Written(lines), j)
    {
      NoBlankBefore(lines, j);
    }
  }

  /** A frame ends at the blank line behind its lines. */
  lemma EndsAtBlank(lines: seq<Line>, crlf: bool)
    requires lines != [] && AllPlain(lines)
    ensures FrameEnd(Written(lines) + BlankLine(crlf)) == Some(|Written(lines)| + |BlankLine(crlf)| - 1)
  {
    hide Written, AllPlain, BlankLineAfter, FrameEndFrom, BlankLine, Lines, LinesShown;
    LinesOfWritten(lines);
    NoneBlank(lines);
    BlankIs(crlf);
    FirstBlank(Written(lines), BlankLine(crlf));
  }

  lemma BlankIs(crlf: bool)
    ensures BlankLine(crlf) == [LF] || BlankLine(crlf) == [CR, LF]
  {
  }

  lemma FirstBlank(text: Bytes, blank: Bytes)
    requires text != [] && text[|text| - 1] == LF && (blank == [LF] || blank == [CR, LF])
    requires forall j | 0 <= j && j + 1 < |text| :: !BlankLineAfter(text, j)
    ensures FrameEnd(text + blank) == Some(|text| + |blank| - 1)
  {
    var all, k := text + blank, |text| - 1;
    BlankBehind(text, blank);
    forall j | 0 <= j < k
      ensures !BlankLineAfter(all, j)
    {
      StillNoBlank(text, blank, j);
    }
    FirstEnd(all, 0, k);
  }

  lemma BlankBehind(text: Bytes, blank: Bytes)
    requires text != [] && text[|text| - 1] == LF && (blank == [LF] || blank == [CR, LF])
    ensures BlankLineAfter(text + blank, |text| - 1)
    ensures FrameLen(text + blank, |text| - 1) == |text| + |blank| - 1
  {
  }

  lemma StillNoBlank(text: Bytes, blank: Bytes, j: nat)
    requires text != [] && text[|text| - 1] == LF
    requires j + 1 < |text| && !BlankLineAfter(text, j)
    ensures !BlankLineAfter(text + blank, j)
  {
    assert forall i | 0 <= i < |text| :: (text + blank)[i] == text[i];
  }

  /**
   * A frame of any plain lines, each ended by LF or CR LF, is read as one frame: its payload is all data lines' texts
   * in order, a line end between any two, its name the text of the last event line; other lines are passed over, and
   * without a data line there is no frame. One space behind the colon does not belong to the text.
   */
  lemma FrameReads(lines: seq<Line>, crlf: bool)
    requires lines != [] && AllPlain(lines)
    ensures var wire := Written(lines) + BlankLine(crlf);
            && Leftover(wire) == []
            && Frames(wire) == match Payload(lines)
                               case Some(payload) => [SseFrame(NameOf(lines), payload)]
                               case None => []
  {
    hide Written, AllPlain, Payload, NameOf, ParsedFrame, Parsed, RawFrames, FrameEndFrom, BlankLine, BeforeLf;
    var raw := Written(lines) + BeforeLf(crlf);
    EndsAtBlank(lines, crlf);
    BlankBytes(Written(lines), crlf);
    OneFrame(raw);
    FrameParsed(lines, crlf);
    OneParsed(raw);
  }

  lemma FrameParsed(lines: seq<Line>, crlf: bool)
    requires lines != [] && AllPlain(lines)
    ensures ParsedFrame(Written(lines) + BeforeLf(crlf))
         == match Payload(lines) case Some(payload) => Some(SseFrame(NameOf(lines), payload)) case None => None
  {
    hide Written, AllPlain, Payload, NameOf, ParsedFrame;
    RawReads(lines, BeforeLf(crlf));
  }

  lemma BlankBytes(text: Bytes, crlf: bool)
    ensures text + BlankLine(crlf) == text + BeforeLf(crlf) + [LF]
    ensures |BlankLine(crlf)| == |BeforeLf(crlf)| + 1
  {
    assert BlankLine(crlf) == BeforeLf(crlf) + [LF];
    Assoc(text, BeforeLf(crlf), [LF]);
  }

  lemma OneFrame(raw: Bytes)
    requires FrameEnd(raw + [LF]) == Some(|raw|)
    ensures RawFrames(raw + [LF]) == Cut([raw], [])
  {
    hide FrameEndFrom;
    var none: Bytes := [];
    var wire := raw + [LF];
    assert wire[..|raw|] == raw && wire[|raw| + 1..] == none;
    CutStep(wire, |raw|);
    assert FrameEnd(none).None? by {
      NoFrameEnd(none, 0);
    }
    CutWhole(none);
    var after := RawFrames(none).raws;
    assert after == [] && [raw] + after == [raw];
  }

  lemma OneParsed(raw: Bytes)
    ensures Parsed([raw]) == match ParsedFrame(raw) case Some(frame) => [frame] case None => []
  {
    var none: seq<Bytes> := [raw][1..];
    assert none == [];
  }

  lemma RawReads(lines: seq<Line>, rest: Bytes)
    requires lines != [] && AllPlain(lines) && (rest == [] || rest == [CR])
    ensures ParsedFrame(Written(lines) + rest)
         == match Payload(lines) case Some(payload) => Some(SseFrame(NameOf(lines), payload)) case None => None
  {
    LinesOfWritten(lines);
    LinesApart(Written(lines), rest);
    OneLine(rest);
    FieldsRead(lines);
    hide Written, AllPlain, Lines, JoinLines, LinesShown;
    if rest == [CR] {
      LoneCr(LinesShown(lines));
    } else {
      assert Lines(rest) == [] && LinesShown(lines) + [] == LinesShown(lines);
    }
  }

  /** A last line of a carriage return alone is no field. */
  lemma LoneCr(lines: seq<Bytes>)
    ensures DataOf(lines + [[CR]]) == DataOf(lines) && EventOf(lines + [[CR]]) == EventOf(lines)
  {
    var all := lines + [[CR]];
    assert all[..|all| - 1] == lines && all[|all| - 1] == [CR];
    var cr: Bytes := [CR];
    assert cr[..0] == [] && TrimEndCr(cr) == [];
  }

  /** Without the empty line the frame is not complete; it is read all the same when the stream ends. */
  lemma LastFrameReads(lines: seq<Line>)
    requires lines != [] && AllPlain(lines)
    ensures var wire := Written(lines);
            && Frames(wire) == []
            && AllFrames(wire) == match Payload(lines)
                                  case Some(payload) => [SseFrame(NameOf(lines), payload)]
                                  case None => []
  {
    hide Written, AllPlain, Payload, NameOf, ParsedFrame, FrameEndFrom;
    var wire := Written(lines);
    NotComplete(lines);
    CutWhole(wire);
    var none: seq<Bytes> := [];
    assert Parsed(none) == [];
    LinesOfWritten(lines);
    FrameParsed(lines, false);
    assert wire + BeforeLf(false) == wire;
  }

  lemma NotComplete(lines: seq<Line>)
    requires AllPlain(lines)
    ensures FrameEnd(Written(lines)).None?
  {
    hide Written, AllPlain, FrameEndFrom;
    NoneBlank(lines);
    NoFrameEnd(Written(lines), 0);
  }
}

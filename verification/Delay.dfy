/** Reading an upstream's retry hint (src/adapter/outbound/mod.rs); floating point is idealised to the reals. */
module Delay {
  import opened Base

  predicate IsDigit(c: char) {
    '0' <= c <= '9'
  }

  function DigitValue(c: char): nat
    requires IsDigit(c)
  {
    (c - '0') as nat
  }

  predicate AllDigits(text: string) {
    forall c | c in text :: IsDigit(c)
  }

  function Natural(digits: string): nat
    requires AllDigits(digits)
  {
    if digits == "" then 0
    else
      assert forall c | c in digits[..|digits| - 1] :: c in digits;
      assert digits[|digits| - 1] in digits;
      10 * Natural(digits[..|digits| - 1]) + DigitValue(digits[|digits| - 1])
  }

  /** A fraction's digits as a value below one. */
  function Fraction(digits: string): real
    requires AllDigits(digits)
  {
    if digits == "" then 0.0
    else
      assert digits[0] in digits && forall c | c in digits[1..] :: c in digits;
      (DigitValue(digits[0]) as real + Fraction(digits[1..])) / 10.0
  }

  /** A number made of digits and at most one point, with at least one digit. */
  function ParseNumber(text: string): Option<real> {
    var k := IndexOf(text, '.');
    var whole, part := text[..k], if k < |text| then text[k + 1..] else "";
    if AllDigits(whole) && AllDigits(part) && (whole != "" || part != "")
    then Some(Natural(whole) as real + Fraction(part))
    else None
  }

  /** A signed 64-bit integer. */
  function ParseI64(text: string): Option<int> {
    var signed := text != "" && (text[0] == '-' || text[0] == '+');
    var digits := if signed then text[1..] else text;
    if digits == "" || !AllDigits(digits) then None
    else
      var n: int := if text[0] == '-' then -(Natural(digits) as int) else Natural(digits);
      if -0x8000_0000_0000_0000 <= n < 0x8000_0000_0000_0000 then Some(n) else None
  }

  function Seconds(unit: char): Option<real> {
    if unit == 's' || unit == 'S' then Some(1.0)
    else if unit == 'm' || unit == 'M' then Some(60.0)
    else if unit == 'h' || unit == 'H' then Some(3600.0)
    else None
  }

  function Round(x: real): int {
    (x + 0.5).Floor
  }

  /** The total with one more segment. */
  function Plus(total: real, number: real, seconds: real): real {
    total + number * seconds
  }

  /** The scan of a duration from `text` on. */
  function Scan(total: real, number: string, sawUnit: bool, text: string): Option<int>
    decreases |text|
  {
    if text == "" then
      if sawUnit && number == "" then Some(Round(total)) else None
    else if IsDigit(text[0]) || text[0] == '.' then Scan(total, number + [text[0]], sawUnit, text[1..])
    else if Seconds(text[0]).None? || ParseNumber(number).None? then None
    else Scan(Plus(total, ParseNumber(number).value, Seconds(text[0]).value), "", true, text[1..])
  }

  /** The scan, one character further. */
  function Scanned(total: real, number: string, sawUnit: bool, c: char, more: string): Option<int> {
    if IsDigit(c) || c == '.' then Scan(total, number + [c], sawUnit, more)
    else if Seconds(c).None? || ParseNumber(number).None? then None
    else Scan(Plus(total, ParseNumber(number).value, Seconds(c).value), "", true, more)
  }

  lemma ScanStep(total: real, number: string, sawUnit: bool, c: char, more: string)
    ensures Scan(total, number, sawUnit, [c] + more) == Scanned(total, number, sawUnit, c, more)
  {
    hide IsDigit, Seconds, ParseNumber;
    assert ([c] + more)[0] == c && ([c] + more)[1..] == more;
  }

  /** The result once the text is used up. */
  function Settle(total: real, number: string, sawUnit: bool): Option<int> {
    if sawUnit && number == "" then Some(Round(total)) else None
  }

  lemma ScanEnd(total: real, number: string, sawUnit: bool)
    ensures Scan(total, number, sawUnit, "") == Settle(total, number, sawUnit)
  {
  }

  method ScanDuration(text: string) returns (secs: Option<int>)
    ensures secs == Scan(0.0, "", false, text)
  {
    hide Scan, IsDigit, Seconds, ParseNumber, Round, Plus;
    var total, number, sawUnit := 0.0, "", false;
    assert text[0..] == text;
    for i := 0 to |text|
      invariant Scan(total, number, sawUnit, text[i..]) == Scan(0.0, "", false, text)
    {
      var ch := text[i];
      assert text[i..] == [ch] + text[i + 1..];
      ScanStep(total, number, sawUnit, ch, text[i + 1..]);
      if IsDigit(ch) || ch == '.' {
        number := number + [ch];
        continue;
      }
      var multiplier := Seconds(ch);
      if multiplier.None? {
        return None;
      }
      var n := ParseNumber(number);
      if n.None? {
        return None;
      }
      total := Plus(total, n.value, multiplier.value);
      number := "";
      sawUnit := true;
    }
    assert text[|text|..] == "";
    ScanEnd(total, number, sawUnit);
    return if sawUnit && number == "" then Some(Round(total)) else None;
  }

  function TrimStart(text: string): string {
    if text != "" && IsBlank(text[0]) then TrimStart(text[1..]) else text
  }

  function TrimEnd(text: string): string {
    if text != "" && IsBlank(text[|text| - 1]) then TrimEnd(text[..|text| - 1]) else text
  }

  /** A text without surrounding white space. */
  function Trim(text: string): string {
    TrimEnd(TrimStart(text))
  }

  /** The hint of a value without surrounding white space. */
  function HintOf(value: string): Option<int> {
    if value == "" then None
    else match ParseI64(value)
         case Some(n) => Some(if n < 0 then 0 else n)
         case None => Scan(0.0, "", false, value)
  }

  function DelayOf(value: string): Option<int> {
    HintOf(Trim(value))
  }

  method ParseDelaySecs(value: string) returns (secs: Option<int>)
    ensures secs == DelayOf(value)
  {
    hide Scan, ParseI64, Trim;
    var trimmed := Trim(value);
    if trimmed == "" {
      return None;
    }
    var plain := ParseI64(trimmed);
    if plain.Some? {
      return Some(if plain.value < 0 then 0 else plain.value);
    }
    secs := ScanDuration(trimmed);
  }

  // ---------------------------------------------------------------- printing and reading back

  lemma DigitReads(d: nat)
    requires d < 10
    ensures IsDigit(d as char + '0') && DigitValue(d as char + '0') == d
  {
  }

  lemma NaturalSnoc(front: string, d: char)
    requires AllDigits(front) && IsDigit(d)
    ensures AllDigits(front + [d]) && Natural(front + [d]) == 10 * Natural(front) + DigitValue(d)
  {
    assert (front + [d])[..|front + [d]| - 1] == front;
  }

  lemma {:induction false} DecimalReads(n: nat)
    ensures AllDigits(Decimal(n)) && Decimal(n) != "" && Natural(Decimal(n)) == n
  {
    DigitReads(n % 10);
    if n >= 10 {
      DecimalReads(n / 10);
    }
    NaturalSnoc(if n < 10 then "" else Decimal(n / 10), (n % 10) as char + '0');
  }

  // ---------------------------------------------------------------- fractions

  /** A number divided by ten, `k` times. */
  function Shifted(x: real, k: nat): real {
    if k == 0 then x else Shifted(x, k - 1) / 10.0
  }

  lemma {:induction false} ShiftedSum(x: real, y: real, k: nat)
    ensures Shifted(x + y, k) == Shifted(x, k) + Shifted(y, k)
  {
    if k > 0 {
      ShiftedSum(x, y, k - 1);
    }
  }

  lemma {:induction false} ShiftedOnce(x: real, k: nat)
    ensures Shifted(10.0 * x, k + 1) == Shifted(x, k)
  {
    if k > 0 {
      ShiftedOnce(x, k - 1);
    }
  }

  lemma {:induction false} FractionSnoc(front: string, d: char)
    requires AllDigits(front) && IsDigit(d)
    ensures AllDigits(front + [d])
    ensures Fraction(front + [d]) == Fraction(front) + Shifted(DigitValue(d) as real, |front| + 1)
    decreases |front|
  {
    var text := front + [d];
    if front == "" {
      assert text == [d] && text[1..] == "" && Fraction(text[1..]) == 0.0;
      assert Shifted(DigitValue(d) as real, 0) == DigitValue(d) as real;
    } else {
      assert front[0] in front && forall c | c in front[1..] :: c in front;
      assert text[0] == front[0] && text[1..] == front[1..] + [d];
      FractionSnoc(front[1..], d);
      FractionStep(front[0], front[1..] + [d]);
      FractionStep(front[0], front[1..]);
      assert [front[0]] + (front[1..] + [d]) == text && [front[0]] + front[1..] == front;
    }
  }

  lemma FractionStep(c: char, more: string)
    requires IsDigit(c) && AllDigits(more)
    ensures AllDigits([c] + more) && Fraction([c] + more) == (DigitValue(c) as real + Fraction(more)) / 10.0
  {
    assert ([c] + more)[1..] == more;
  }

  /** Digits after a point are worth their number, divided by ten as often as there are digits. */
  lemma {:induction false} FractionIs(digits: string)
    requires AllDigits(digits)
    ensures Fraction(digits) == Shifted(Natural(digits) as real, |digits|)
  {
    if digits != "" {
      var k := |digits| - 1;
      var front, d := digits[..k], digits[k];
      assert d in digits && forall c | c in front :: c in digits;
      assert digits == front + [d];
      FractionIs(front);
      FractionSnoc(front, d);
      NaturalSnoc(front, d);
      ShiftedOnce(Natural(front) as real, k);
      ShiftedSum(10.0 * Natural(front) as real, DigitValue(d) as real, k + 1);
    }
  }

  // ---------------------------------------------------------------- durations

  /** One number with its unit; the number has digits before a point, after it, or both. */
  datatype Segment = Segment(whole: string, part: Option<string>, unit: char)

  predicate IsSegment(s: Segment) {
    && AllDigits(s.whole) && s.unit in "sSmMhH"
    && match s.part
       case None => s.whole != ""
       case Some(digits) => AllDigits(digits) && (s.whole != "" || digits != "")
  }

  predicate IsDuration(segments: seq<Segment>) {
    segments != [] && forall s | s in segments :: IsSegment(s)
  }

  function Number(s: Segment): string {
    match s.part
    case None => s.whole
    case Some(digits) => s.whole + ['.'] + digits
  }

  function Print(segments: seq<Segment>): string {
    if segments == [] then "" else Number(segments[0]) + [segments[0].unit] + Print(segments[1..])
  }

  /** The number of a segment, as decimal notation has it. */
  function Amount(s: Segment): real
    requires IsSegment(s)
  {
    match s.part
    case None => Natural(s.whole) as real
    case Some(digits) => Natural(s.whole) as real + Shifted(Natural(digits) as real, |digits|)
  }

  /** A segment in seconds. */
  function Worth(s: Segment): real
    requires IsSegment(s)
  {
    if s.unit in "hH" then 3600.0 * Amount(s) else if s.unit in "mM" then 60.0 * Amount(s) else Amount(s)
  }

  function Total(segments: seq<Segment>): real
    requires forall s | s in segments :: IsSegment(s)
  {
    if segments == [] then 0.0 else Worth(segments[0]) + Total(segments[1..])
  }

  /** `n` is the whole number nearest to `x`, the greater one when there are two. */
  predicate Nearest(x: real, n: int) {
    n as real - 0.5 <= x < n as real + 0.5
  }

  lemma RoundsToNearest(x: real)
    ensures Nearest(x, Round(x))
  {
  }

  lemma {:induction false} ScanDigits(total: real, number: string, sawUnit: bool, digits: string, text: string)
    requires AllDigits(digits)
    ensures Scan(total, number, sawUnit, digits + text) == Scan(total, number + digits, sawUnit, text)
    decreases |digits|
  {
    if digits == "" {
      assert digits + text == text && number + digits == number;
    } else {
      assert digits[0] in digits && forall c | c in digits[1..] :: c in digits;
      assert (digits + text)[1..] == digits[1..] + text;
      ScanDigits(total, number + [digits[0]], sawUnit, digits[1..], text);
      Assoc(number, [digits[0]], digits[1..]);
      assert digits == [digits[0]] + digits[1..];
    }
  }

  lemma WholeNumber(digits: string)
    requires AllDigits(digits) && digits != ""
    ensures ParseNumber(digits) == Some(Natural(digits) as real)
  {
    var k := IndexOf(digits, '.');
    assert forall j | 0 <= j < |digits| :: digits[j] in digits && IsDigit(digits[j]);
    assert k == |digits| && digits[..|digits|] == digits;
  }

  lemma PointSplits(whole: string, digits: string)
    requires AllDigits(whole)
    ensures var text, k := whole + ['.'] + digits, |whole|;
            IndexOf(text, '.') == k && k < |text| && text[..k] == whole && text[k + 1..] == digits
  {
    var text, k := whole + ['.'] + digits, |whole|;
    assert text[k] == '.';
    forall j | 0 <= j < k
      ensures text[j] != '.'
    {
      assert text[j] == whole[j] && whole[j] in whole && IsDigit(whole[j]);
    }
    FirstIndex(text, '.', k);
  }

  lemma ReadParts(text: string, whole: string, digits: string)
    requires IndexOf(text, '.') < |text|
    requires text[..IndexOf(text, '.')] == whole && text[IndexOf(text, '.') + 1..] == digits
    requires AllDigits(whole) && AllDigits(digits) && (whole != [] || digits != [])
    ensures ParseNumber(text) == Some(Natural(whole) as real + Fraction(digits))
  {
    hide Natural, Fraction, IndexOf, AllDigits;
  }

  lemma PointNumber(whole: string, digits: string)
    requires AllDigits(whole) && AllDigits(digits) && (whole != [] || digits != [])
    ensures ParseNumber(whole + ['.'] + digits)
         == Some(Natural(whole) as real + Shifted(Natural(digits) as real, |digits|))
  {
    hide *;
    FractionIs(digits);
    PointSplits(whole, digits);
    ReadParts(whole + ['.'] + digits, whole, digits);
  }

  lemma NumberReads(s: Segment)
    requires IsSegment(s)
    ensures ParseNumber(Number(s)) == Some(Amount(s))
  {
    match s.part
    case None => WholeNumber(s.whole);
    case Some(digits) => PointNumber(s.whole, digits);
  }

  lemma {:induction false} ScanNumber(total: real, sawUnit: bool, s: Segment, more: string)
    requires IsSegment(s)
    ensures Scan(total, "", sawUnit, Number(s) + more) == Scan(total, Number(s), sawUnit, more)
  {
    hide Scan, AllDigits;
    assert "" + s.whole == s.whole;
    match s.part
    case None =>
      ScanDigits(total, "", sawUnit, s.whole, more);
    case Some(digits) =>
      var rest := digits + more;
      Assoc(s.whole, ['.'], digits);
      Assoc(s.whole, ['.'] + digits, more);
      Assoc(['.'], digits, more);
      ScanDigits(total, "", sawUnit, s.whole, ['.'] + rest);
      ScanStep(total, s.whole, sawUnit, '.', rest);
      ScanDigits(total, s.whole + ['.'], sawUnit, digits, more);
  }

  lemma UnitWorth(total: real, s: Segment)
    requires IsSegment(s)
    ensures Seconds(s.unit).Some?
    ensures Plus(total, Amount(s), Seconds(s.unit).value) == total + Worth(s)
    ensures !IsDigit(s.unit) && s.unit != '.' && !IsBlank(s.unit)
  {
    hide Amount;
    assert s.unit == 's' || s.unit == 'S' || s.unit == 'm' || s.unit == 'M' || s.unit == 'h' || s.unit == 'H';
    if s.unit == 's' || s.unit == 'S' {
      assert Worth(s) == Amount(s);
    } else if s.unit == 'm' || s.unit == 'M' {
      assert Worth(s) == 60.0 * Amount(s);
    } else {
      assert Worth(s) == 3600.0 * Amount(s);
    }
  }

  /** A whole segment adds its worth. */
  lemma ScanSegment(total: real, sawUnit: bool, s: Segment, more: string)
    requires IsSegment(s)
    ensures Scan(total, "", sawUnit, Number(s) + [s.unit] + more) == Scan(total + Worth(s), "", true, more)
  {
    hide Scan, ParseNumber, Seconds, IsDigit, Worth, Plus, IsBlank, Number, Amount;
    Assoc(Number(s), [s.unit], more);
    ScanNumber(total, sawUnit, s, [s.unit] + more);
    NumberReads(s);
    UnitWorth(total, s);
    ScanStep(total, Number(s), sawUnit, s.unit, more);
  }

  lemma {:induction false} ScanPrinted(total: real, sawUnit: bool, segments: seq<Segment>)
    requires forall s | s in segments :: IsSegment(s)
    ensures Scan(total, "", sawUnit, Print(segments))
         == if sawUnit || segments != [] then Some(Round(total + Total(segments))) else None
    decreases |segments|
  {
    hide ParseNumber, Seconds, IsDigit, Worth, Round, IsSegment, Number;
    if segments != [] {
      var s := segments[0];
      assert s in segments && forall x | x in segments[1..] :: x in segments;
      ScanSegment(total, sawUnit, s, Print(segments[1..]));
      ScanPrinted(total + Worth(s), true, segments[1..]);
    }
  }

  lemma {:induction false} TrimStartPast(before: string, text: string)
    requires AllBlank(before) && text != "" && !IsBlank(text[0])
    ensures TrimStart(before + text) == text
  {
    if before == "" {
      assert before + text == text;
    } else {
      assert before[0] in before && forall c | c in before[1..] :: c in before;
      assert (before + text)[1..] == before[1..] + text;
      TrimStartPast(before[1..], text);
    }
  }

  lemma {:induction false} TrimEndBefore(text: string, after: string)
    requires AllBlank(after) && text != "" && !IsBlank(text[|text| - 1])
    ensures TrimEnd(text + after) == text
  {
    if after == "" {
      assert text + after == text;
    } else {
      var k := |after| - 1;
      assert after[k] in after && forall c | c in after[..k] :: c in after;
      assert (text + after)[..|text + after| - 1] == text + after[..k];
      TrimEndBefore(text, after[..k]);
    }
  }

  /** White space around a text that neither begins nor ends with it is trimmed off. */
  lemma Padded(before: string, text: string, after: string)
    requires AllBlank(before) && AllBlank(after)
    requires text != "" && !IsBlank(text[0]) && !IsBlank(text[|text| - 1])
    ensures Trim(before + text + after) == text
  {
    hide TrimStart, TrimEnd, IsBlank, AllBlank;
    Assoc(before, text, after);
    TrimStartPast(before, text + after);
    TrimEndBefore(text, after);
  }

  /** A text with a character past its first that is no digit is no integer. */
  lemma NotInteger(text: string, k: nat)
    requires 0 < k < |text| && !IsDigit(text[k])
    ensures ParseI64(text).None?
  {
    assert text[k] in text && text[1..][k - 1] == text[k] && text[k] in text[1..];
  }

  /** A printed duration begins with a digit or a point and ends with a unit. */
  lemma {:induction false} PrintedEnds(segments: seq<Segment>)
    requires IsDuration(segments)
    ensures var text := Print(segments);
            |text| > 1 && !IsBlank(text[0]) && !IsDigit(text[|text| - 1]) && !IsBlank(text[|text| - 1])
  {
    var s, more := segments[0], Print(segments[1..]);
    assert s in segments && forall x | x in segments[1..] :: x in segments;
    NumberBegins(s);
    UnitWorth(0.0, s);
    hide IsSegment, IsBlank, IsDigit, Number;
    var text := Print(segments);
    assert text == Number(s) + [s.unit] + more;
    assert text[0] == Number(s)[0];
    if |segments| == 1 {
      assert segments[1..] == [] && more == "" && text[|text| - 1] == s.unit;
    } else {
      PrintedEnds(segments[1..]);
      assert text[|text| - 1] == more[|more| - 1];
    }
  }

  lemma NumberBegins(s: Segment)
    requires IsSegment(s)
    ensures Number(s) != "" && !IsBlank(Number(s)[0])
  {
    if s.whole != "" {
      assert s.whole[0] in s.whole && Number(s)[0] == s.whole[0];
      DigitNotBlank(s.whole[0]);
    } else {
      assert Number(s)[0] == '.';
    }
  }

  lemma DigitNotBlank(c: char)
    requires IsDigit(c)
    ensures !IsBlank(c)
  {
  }

  /**
   * A duration in any hours, minutes and seconds, whole or with decimals, in any order and however often, with any
   * white space around it, is read back in seconds, rounded to the nearest.
   */
  lemma DurationRoundTrip(before: string, segments: seq<Segment>, after: string)
    requires IsDuration(segments) && AllBlank(before) && AllBlank(after)
    ensures var hint := DelayOf(before + Print(segments) + after);
            hint.Some? && Nearest(Total(segments), hint.value)
  {
    hide Print, Scan, Trim, ParseI64, IsDigit, IsBlank, AllBlank, IsSegment, Total, Round;
    var text := Print(segments);
    PrintedEnds(segments);
    Padded(before, text, after);
    NotInteger(text, |text| - 1);
    ScanPrinted(0.0, false, segments);
    RoundsToNearest(Total(segments));
  }

  /** The segment of a number that can be read. */
  lemma NumberSplits(number: string, unit: char) returns (s: Segment)
    requires ParseNumber(number).Some? && Seconds(unit).Some?
    ensures IsSegment(s) && Number(s) == number && s.unit == unit
  {
    var k := IndexOf(number, '.');
    if k == |number| {
      assert number[..k] == number;
      s := Segment(number, None, unit);
    } else {
      s := Segment(number[..k], Some(number[k + 1..]), unit);
      assert number == number[..k] + ['.'] + number[k + 1..];
    }
  }

  /** What the scan accepts is a duration. */
  lemma {:induction false} ScanAccepts(total: real, number: string, sawUnit: bool, text: string)
    returns (segments: seq<Segment>)
    requires Scan(total, number, sawUnit, text).Some?
    ensures (forall s | s in segments :: IsSegment(s)) && Print(segments) == number + text
    ensures sawUnit || segments != []
    decreases |text|
  {
    hide IsDigit, Seconds, ParseNumber, Round, Plus, IsSegment, Number;
    if text == "" {
      segments := [];
    } else {
      var c, more := text[0], text[1..];
      assert text == [c] + more;
      ScanStep(total, number, sawUnit, c, more);
      if IsDigit(c) || c == '.' {
        segments := ScanAccepts(total, number + [c], sawUnit, more);
        Assoc(number, [c], more);
      } else {
        var s := NumberSplits(number, c);
        var rest := ScanAccepts(Plus(total, ParseNumber(number).value, Seconds(c).value), "", true, more);
        segments := [s] + rest;
        assert segments[1..] == rest && Print(rest) == more;
        Assoc(number, [c], more);
      }
    }
  }

  /** Nothing but a 64-bit number and a duration gives a hint. */
  lemma HintsOnly(value: string) returns (segments: seq<Segment>)
    requires DelayOf(value).Some?
    ensures ParseI64(Trim(value)).Some? || (IsDuration(segments) && Print(segments) == Trim(value))
  {
    hide Scan, ParseI64, IsSegment, Print, Trim;
    var text := Trim(value);
    segments := [];
    if ParseI64(text).None? {
      segments := ScanAccepts(0.0, "", false, text);
      assert "" + text == text;
    }
  }

  /**
   * Plain delta-seconds (section 10.2.3 of RFC 9110) are read as they are, within 64 bits and with any white space
   * around them.
   */
  lemma PlainSecondsRoundTrip(before: string, n: nat, after: string)
    requires n < 0x8000_0000_0000_0000
    requires AllBlank(before) && AllBlank(after)
    ensures DelayOf(before + Decimal(n) + after) == Some(n)
  {
    hide Trim, IsBlank, AllBlank, Decimal, Scan;
    var text := Decimal(n);
    DecimalReads(n);
    assert text[0] in text && text[|text| - 1] in text;
    DigitNotBlank(text[0]);
    DigitNotBlank(text[|text| - 1]);
    Padded(before, text, after);
  }
}

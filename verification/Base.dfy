/** Small value types shared by every part of the model. */
module Base {

  datatype Option<+T> = None | Some(value: T) {

    /** The value, or `fallback` when there is none. */
    function UnwrapOr(fallback: T): T {
      if Some? then value else fallback
    }

    /** This option, or `other` when it is empty: a value once present is never replaced. */
    function Or(other: Option<T>): Option<T> {
      if Some? then this else other
    }
  }

  newtype Byte = b: int | 0 <= b < 256

  type Bytes = seq<Byte>

  /** All parts laid end to end. */
  function Concat<T>(parts: seq<seq<T>>): seq<T> {
    if parts == [] then [] else parts[0] + Concat(parts[1..])
  }

  /** Position of the first `x` in `xs`, or its length. */
  function IndexOf<T(==)>(xs: seq<T>, x: T): (k: nat)
    ensures k <= |xs|
    ensures forall j | 0 <= j < k :: xs[j] != x
    ensures k < |xs| ==> xs[k] == x
  {
    if xs == [] || xs[0] == x then 0 else 1 + IndexOf(xs[1..], x)
  }

  lemma {:induction false} FirstIndex<T>(xs: seq<T>, x: T, k: nat)
    requires k < |xs| && xs[k] == x
    requires forall j | 0 <= j < k :: xs[j] != x
    ensures IndexOf(xs, x) == k
  {
    if k > 0 {
      FirstIndex(xs[1..], x, k - 1);
    }
  }

  /** A number in decimal digits. */
  function Decimal(n: nat): string {
    (if n < 10 then "" else Decimal(n / 10)) + [(n % 10) as char + '0']
  }

  /** Unicode white space. */
  predicate IsBlank(c: char) {
    var n := c as int;
    || 9 <= n <= 13 || n == 32 || n == 0x85 || n == 0xA0 || n == 0x1680
    || 0x2000 <= n <= 0x200A || n == 0x2028 || n == 0x2029 || n == 0x202F || n == 0x205F || n == 0x3000
  }

  predicate AllBlank(text: string) {
    forall c | c in text :: IsBlank(c)
  }

  /** Whether `needle` occurs in `text` as consecutive characters. */
  predicate Contains(text: string, needle: string) {
    needle <= text || (text != [] && Contains(text[1..], needle))
  }

  /** A text that contains another has all its characters. */
  lemma {:induction false} ContainsChars(text: string, needle: string)
    requires Contains(text, needle)
    ensures forall c | c in needle :: c in text
  {
    if !(needle <= text) {
      ContainsChars(text[1..], needle);
    }
  }

  /** No `x` of a text is followed by `y`, nor ends it. */
  predicate NoPair(text: string, x: char, y: char) {
    text == "" || ((text[0] == x ==> |text| > 1 && text[1] != y) && NoPair(text[1..], x, y))
  }

  lemma {:induction false} NoPairWithout(text: string, x: char, y: char)
    requires x !in text
    ensures NoPair(text, x, y)
  {
    if text != "" {
      NoPairWithout(text[1..], x, y);
    }
  }

  lemma {:induction false} NoPairAt(text: string, x: char, y: char)
    requires forall i | 0 <= i < |text| && text[i] == x :: i + 1 < |text| && text[i + 1] != y
    ensures NoPair(text, x, y)
  {
    if text != "" {
      NoPairAt(text[1..], x, y);
    }
  }

  /** A text in which the needle cannot even begin adds no occurrence when it is put in front. */
  lemma {:induction false} ContainsPast(front: string, text: string, needle: string)
    requires |needle| >= 2 && NoPair(front, needle[0], needle[1])
    ensures Contains(front + text, needle) <==> Contains(text, needle)
  {
    if front == "" {
      assert front + text == text;
    } else {
      assert (front + text)[1..] == front[1..] + text;
      ContainsPast(front[1..], text, needle);
      assert front[0] == needle[0] ==> |front| > 1 && (front + text)[1] == front[1];
    }
  }

  lemma Assoc<T>(a: seq<T>, b: seq<T>, c: seq<T>)
    ensures a + (b + c) == a + b + c
  {
  }

  lemma {:induction false} ConcatAppend<T>(front: seq<seq<T>>, back: seq<seq<T>>)
    ensures Concat(front + back) == Concat(front) + Concat(back)
  {
    if front == [] {
      assert front + back == back;
    } else {
      ConcatAppend(front[1..], back);
      assert (front + back)[1..] == front[1..] + back;
    }
  }

  /** The white space of Unicode, code point by code point. */
  lemma BlankIs(c: char)
    ensures IsBlank(c) <==> c as int in {0x09, 0x0A, 0x0B, 0x0C, 0x0D, 0x20, 0x85, 0xA0, 0x1680,
                                         0x2000, 0x2001, 0x2002, 0x2003, 0x2004, 0x2005, 0x2006, 0x2007, 0x2008,
                                         0x2009, 0x200A, 0x2028, 0x2029, 0x202F, 0x205F, 0x3000}
  {
  }
}

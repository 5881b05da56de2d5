/** The FNV-1a hash of the prompt-cache key, in wrapping 64-bit arithmetic (src/adapter/outbound/prompt_cache.rs). */
module Fnv {
  import opened Base

  const TWO_64: nat := 0x1_0000_0000_0000_0000
  const OFFSET: nat := 0xcbf2_9ce4_8422_2325
  const PRIME: nat := 0x0000_0100_0000_01b3

  /** The multiplicative inverse of the prime: PRIME * INVERSE == 1 + CARRY * TWO_64. */
  const INVERSE: nat := 0xce96_5057_aff6_957b
  const CARRY: nat := 887_285_111_055

  /** Bitwise exclusive or. */
  function Xor(a: nat, b: nat): nat
    decreases a + b
  {
    if a == 0 && b == 0 then 0
    else (if a % 2 != b % 2 then 1 else 0) + 2 * Xor(a / 2, b / 2)
  }

  function Step(hash: nat, byte: Byte): nat {
    Xor(hash, byte as nat) * PRIME % TWO_64
  }

  function HashFrom(hash: nat, bytes: Bytes): nat {
    if bytes == [] then hash else Step(HashFrom(hash, bytes[..|bytes| - 1]), bytes[|bytes| - 1])
  }

  /** The hash of a byte string. */
  method Hash(bytes: Bytes) returns (hash: nat)
    ensures hash == HashFrom(OFFSET, bytes)
  {
    hash := OFFSET;
    for i := 0 to |bytes|
      invariant hash == HashFrom(OFFSET, bytes[..i])
    {
      assert bytes[..i + 1][..i] == bytes[..i];
      hash := Xor(hash, bytes[i] as nat);
      hash := hash * PRIME % TWO_64;
    }
    assert bytes[..|bytes|] == bytes;
  }

  // ---------------------------------------------------------------- exclusive or

  lemma {:induction false} XorCancels(a: nat, b: nat)
    ensures Xor(Xor(a, b), b) == a
    decreases a + b
  {
    if a != 0 || b != 0 {
      XorCancels(a / 2, b / 2);
      var x := Xor(a, b);
      assert x % 2 == (if a % 2 != b % 2 then 1 else 0) && x / 2 == Xor(a / 2, b / 2);
    }
  }

  lemma {:induction false} XorCommutes(a: nat, b: nat)
    ensures Xor(a, b) == Xor(b, a)
    decreases a + b
  {
    if a != 0 || b != 0 {
      XorCommutes(a / 2, b / 2);
    }
  }

  function Pow2(n: nat): nat {
    if n == 0 then 1 else 2 * Pow2(n - 1)
  }

  lemma {:induction false} XorBelow(a: nat, b: nat, n: nat)
    requires a < Pow2(n) && b < Pow2(n)
    ensures Xor(a, b) < Pow2(n)
    decreases n
  {
    if n > 0 && (a != 0 || b != 0) {
      XorBelow(a / 2, b / 2, n - 1);
    }
  }

  lemma {:induction false} Pow2Doubles(n: nat, m: nat)
    ensures Pow2(n + m) == Pow2(n) * Pow2(m)
  {
    if m > 0 {
      Pow2Doubles(n, m - 1);
    }
  }

  lemma Pow2Is()
    ensures Pow2(64) == TWO_64
  {
    assert Pow2(4) == 16;
    Pow2Doubles(4, 4);
    Pow2Doubles(8, 8);
    Pow2Doubles(16, 16);
    Pow2Doubles(32, 32);
    assert Pow2(8) == 256;
    assert Pow2(16) == 0x1_0000;
    assert Pow2(32) == 0x1_0000_0000;
  }

  lemma XorWord(hash: nat, byte: Byte)
    requires hash < TWO_64
    ensures Xor(hash, byte as nat) < TWO_64
  {
    Pow2Is();
    XorBelow(hash, byte as nat, 64);
  }

  // ---------------------------------------------------------------- each step is injective

  /** Multiplying by the odd prime is injective modulo 2^64. */
  lemma TimesPrimeInjective(x: nat, y: nat)
    requires x < TWO_64 && y < TWO_64
    requires x * PRIME % TWO_64 == y * PRIME % TWO_64
    ensures x == y
  {
    var q1, q2 := x * PRIME / TWO_64, y * PRIME / TWO_64;
    assert x * PRIME - y * PRIME == (q1 - q2) * TWO_64;
    assert (x - y) * (1 + CARRY * TWO_64) == (q1 - q2) * TWO_64 * INVERSE;
    assert x - y == ((q1 - q2) * INVERSE - CARRY * (x - y)) * TWO_64;
  }

  /** A step keeps different hashes apart, and different bytes apart. */
  lemma StepInjective(g: nat, h: nat, a: Byte, b: Byte)
    requires g < TWO_64 && h < TWO_64 && Step(g, a) == Step(h, b)
    ensures a == b ==> g == h
    ensures g == h ==> a == b
  {
    XorWord(g, a);
    XorWord(h, b);
    TimesPrimeInjective(Xor(g, a as nat), Xor(h, b as nat));
    XorCancels(g, a as nat);
    XorCancels(h, b as nat);
    XorCommutes(g, a as nat);
    XorCommutes(h, b as nat);
    XorCancels(a as nat, g);
    XorCancels(b as nat, h);
  }

  lemma {:induction false} HashIsWord(hash: nat, bytes: Bytes)
    requires hash < TWO_64
    ensures HashFrom(hash, bytes) < TWO_64
  {
    if bytes != [] {
      HashIsWord(hash, bytes[..|bytes| - 1]);
    }
  }

  /** Two byte strings of equal length that differ in exactly one position hash apart. */
  lemma {:induction false} NearStringsHashApart(hash: nat, xs: Bytes, ys: Bytes, i: nat)
    requires hash < TWO_64
    requires |xs| == |ys| && i < |xs| && xs[i] != ys[i]
    requires forall j | 0 <= j < |xs| && j != i :: xs[j] == ys[j]
    ensures HashFrom(hash, xs) != HashFrom(hash, ys)
  {
    var k := |xs| - 1;
    var fx, fy := xs[..k], ys[..k];
    HashIsWord(hash, fx);
    HashIsWord(hash, fy);
    if i == k {
      assert fx == fy;
    } else {
      assert fx[i] != fy[i];
      NearStringsHashApart(hash, fx, fy, i);
    }
    if HashFrom(hash, xs) == HashFrom(hash, ys) {
      StepInjective(HashFrom(hash, fx), HashFrom(hash, fy), xs[k], ys[k]);
    }
  }

  // ---------------------------------------------------------------- hexadecimal

  function HexDigit(d: nat): char
    requires d < 16
  {
    if d < 10 then '0' + d as char else 'a' + (d - 10) as char
  }

  /** The last `width` hexadecimal digits of `n`. */
  function Hex(n: nat, width: nat): string {
    if width == 0 then "" else Hex(n / 16, width - 1) + [HexDigit(n % 16)]
  }

  lemma LastDigit(front: string, d: char, otherFront: string, e: char)
    requires front + [d] == otherFront + [e]
    ensures front == otherFront && d == e
  {
    var text := front + [d];
    assert text[..|text| - 1] == front && text[..|text| - 1] == otherFront;
    assert text[|text| - 1] == d && text[|text| - 1] == e;
  }

  lemma Sixteenth(n: nat, width: nat)
    requires width > 0 && n < Pow2(4 * width)
    ensures n / 16 < Pow2(4 * (width - 1))
  {
    Pow2Doubles(4 * (width - 1), 4);
    assert Pow2(4) == 16;
  }

  lemma {:induction false} HexInjective(x: nat, y: nat, width: nat)
    requires Hex(x, width) == Hex(y, width)
    requires x < Pow2(4 * width) && y < Pow2(4 * width)
    ensures x == y
  {
    if width > 0 {
      LastDigit(Hex(x / 16, width - 1), HexDigit(x % 16), Hex(y / 16, width - 1), HexDigit(y % 16));
      assert x % 16 == y % 16;
      Sixteenth(x, width);
      Sixteenth(y, width);
      HexInjective(x / 16, y / 16, width - 1);
    }
  }

  /** The value of lower-case hexadecimal digits. */
  function HexValue(digits: string): nat {
    if digits == "" then 0
    else 16 * HexValue(digits[..|digits| - 1]) + IndexOf("0123456789abcdef", digits[|digits| - 1])
  }

  lemma HexValueSnoc(front: string, digit: char)
    ensures HexValue(front + [digit]) == 16 * HexValue(front) + IndexOf("0123456789abcdef", digit)
  {
    hide IndexOf;
    assert (front + [digit])[..|front|] == front;
  }

  lemma DigitReads(d: nat)
    requires d < 16
    ensures IndexOf("0123456789abcdef", HexDigit(d)) == d
  {
    var all := "0123456789abcdef";
    assert all[d] == HexDigit(d);
    assert forall j | 0 <= j < d :: all[j] == HexDigit(j) && HexDigit(j) != HexDigit(d);
    FirstIndex(all, HexDigit(d), d);
  }

  /** A word is printed with all its leading zeros and read back as it is. */
  lemma {:induction false} HexReads(n: nat, width: nat)
    requires n < Pow2(4 * width)
    ensures |Hex(n, width)| == width && HexValue(Hex(n, width)) == n
  {
    if width > 0 {
      Sixteenth(n, width);
      HexReads(n / 16, width - 1);
      DigitReads(n % 16);
      HexValueSnoc(Hex(n / 16, width - 1), HexDigit(n % 16));
      hide HexValue, Pow2, HexDigit, IndexOf;
    }
  }

  // ---------------------------------------------------------------- the published algorithm

  /** Whether bit `i` of a number is set. */
  predicate Bit(n: nat, i: nat) {
    if i == 0 then n % 2 == 1 else Bit(n / 2, i - 1)
  }

  lemma {:induction false} XorBits(a: nat, b: nat, i: nat)
    ensures Bit(Xor(a, b), i) <==> (Bit(a, i) != Bit(b, i))
  {
    XorHalves(a, b);
    if i > 0 {
      XorBits(a / 2, b / 2, i - 1);
    }
  }

  lemma XorHalves(a: nat, b: nat)
    ensures Xor(a, b) / 2 == Xor(a / 2, b / 2) && Xor(a, b) % 2 == if a % 2 != b % 2 then 1 else 0
  {
  }

  lemma {:induction false} XorZero(a: nat)
    ensures Xor(a, 0) == a
  {
    if a > 0 {
      XorZero(a / 2);
    }
  }

  function Doubled(x: nat, times: nat): nat {
    if times == 0 then x else 2 * Doubled(x, times - 1)
  }

  lemma {:induction false} XorLow(high: nat, low: nat, b: nat, n: nat)
    requires low < Pow2(n) && b < Pow2(n)
    ensures Xor(Doubled(high, n) + low, b) == Doubled(high, n) + Xor(low, b)
    decreases n
  {
    if n == 0 {
      XorZero(high);
    } else {
      var m := Doubled(high, n - 1);
      XorLow(high, low / 2, b / 2, n - 1);
      XorHalves(2 * m + low, b);
      XorHalves(low, b);
      hide Xor;
      assert (2 * m + low) / 2 == m + low / 2 && (2 * m + low) % 2 == low % 2;
    }
  }

  lemma Doubled8(high: nat)
    ensures Doubled(high, 8) == 256 * high && Pow2(8) == 256
  {
    assert Doubled(high, 2) == 2 * Doubled(high, 1) == 4 * high;
    assert Doubled(high, 4) == 2 * Doubled(high, 3) == 4 * Doubled(high, 2);
    assert Doubled(high, 6) == 2 * Doubled(high, 5) == 4 * Doubled(high, 4);
    assert Doubled(high, 8) == 2 * Doubled(high, 7) == 4 * Doubled(high, 6);
    assert Pow2(8) == 256;
  }

  /** A byte changes the last eight bits alone. */
  lemma XorByte(high: nat, low: nat, byte: nat)
    requires low < 256 && byte < 256
    ensures Xor(256 * high + low, byte) == 256 * high + Xor(low, byte)
  {
    Doubled8(high);
    XorLow(high, low, byte, 8);
  }

  lemma SmallXor()
    ensures Xor(0x25, 0x61) == 0x44
  {
    assert Xor(0x2, 0x6) == 0x4;
    assert Xor(0x9, 0x18) == 0x11;
  }

  lemma LetterXor()
    ensures Xor(OFFSET, 0x61) == 0xcbf2_9ce4_8422_2344
  {
    SmallXor();
    XorByte(0xcb_f29c_e484_2223, 0x25, 0x61);
    hide Xor;
  }

  lemma LetterStep()
    ensures Step(OFFSET, 0x61) == 0xaf63_dc4c_8601_ec8c
  {
    hide Xor;
    LetterXor();
  }

  lemma HashOne(byte: Byte)
    ensures HashFrom(OFFSET, []) == OFFSET && HashFrom(OFFSET, [byte]) == Step(OFFSET, byte)
  {
    hide Step;
    var none: Bytes := [byte][..0];
    assert none == [];
  }

  /** The published 64-bit FNV-1a values of the empty text and of the letter a. */
  lemma PublishedValues()
    ensures HashFrom(OFFSET, []) == 0xcbf2_9ce4_8422_2325
    ensures HashFrom(OFFSET, [0x61]) == 0xaf63_dc4c_8601_ec8c
  {
    hide HashFrom, Step;
    LetterStep();
    HashOne(0x61);
  }
}

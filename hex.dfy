/**
  Base-16 text for non-negative integers.

  `ToBase16` is what JavaScript's `Number.prototype.toString(16)` yields for a
  non-negative integer: lowercase digits, most significant first, no leading
  zeros. `Pad` is the fixed-width form (the `w` lowest digits, zero-padded),
  and `Value` reads a digit string back as a number.
 */
module Hex {

  /** A lowercase hexadecimal digit, the only kind `toString(16)` emits. */
  predicate IsHexDigit(c: char) {
    '0' <= c <= '9' || 'a' <= c <= 'f'
  }

  predicate AllHexDigits(s: string) {
    forall i :: 0 <= i < |s| ==> IsHexDigit(s[i])
  }

  function Digit(d: nat): (c: char)
    requires d < 16
    ensures IsHexDigit(c)
  {
    if d < 10 then ('0' as int + d) as char else ('a' as int + d - 10) as char
  }

  /** The value of a hex digit; any other character reads as 0. */
  function DigitValue(c: char): (d: nat)
    ensures d < 16
  {
    if '0' <= c <= '9' then c as int - '0' as int
    else if 'a' <= c <= 'f' then c as int - 'a' as int + 10
    else 0
  }

  /** `Digit` and `DigitValue` are inverse bijections between [0,16) and the digits. */
  lemma DigitRoundTrip(d: nat, c: char)
    requires d < 16 && IsHexDigit(c)
    ensures DigitValue(Digit(d)) == d
    ensures Digit(DigitValue(c)) == c
  {
  }

  function Pow16(w: nat): (p: nat)
    ensures p >= 1
  {
    if w == 0 then 1 else 16 * Pow16(w - 1)
  }

  /** `c * Pow16(w)`, spelled out digit by digit so that the arithmetic stays linear. */
  function Shifted(c: nat, w: nat): (s: nat)
    ensures c <= s
  {
    if w == 0 then c else 16 * Shifted(c, w - 1)
  }

  /** The base-16 text of `n`, as `n.toString(16)` gives it. */
  function ToBase16(n: nat): (s: string)
    ensures 1 <= |s| && AllHexDigits(s)
    decreases n
  {
    if n < 16 then [Digit(n)] else ToBase16(n / 16) + [Digit(n % 16)]
  }

  /** The `w` lowest base-16 digits of `n`, most significant first, zero-padded. */
  function Pad(n: nat, w: nat): (s: string)
    ensures |s| == w && AllHexDigits(s)
  {
    if w == 0 then [] else Pad(n / 16, w - 1) + [Digit(n % 16)]
  }

  /** The number that a string of hex digits denotes. */
  function Value(s: string): (n: nat)
    ensures n < Pow16(|s|)
  {
    if s == [] then 0 else 16 * Value(s[..|s| - 1]) + DigitValue(s[|s| - 1])
  }

  lemma ValueSnoc(s: string, c: char)
    ensures Value(s + [c]) == 16 * Value(s) + DigitValue(c)
  {
    assert (s + [c])[..|s|] == s;
  }

  lemma DropDigitBound(m: nat, w: nat)
    requires 0 < w && m < Pow16(w)
    ensures m / 16 < Pow16(w - 1)
  {
    var p := Pow16(w - 1);
    assert Pow16(w) == 16 * p;
    assert m == 16 * (m / 16) + m % 16;
  }

  /** Appending one digit: the definition of `Pad` read for `n == 16 * q + d`. */
  lemma PadSnoc(n: nat, q: nat, d: nat, w: nat)
    requires n == 16 * q + d && d < 16
    ensures Pad(n, w + 1) == Pad(q, w) + [Digit(d)]
  {
    assert n / 16 == q && n % 16 == d;
  }

  /** Appending one digit: the definition of `ToBase16` read for `n == 16 * q + d`, `q >= 1`. */
  lemma ToBase16Snoc(n: nat, q: nat, d: nat)
    requires n == 16 * q + d && d < 16 && 1 <= q
    ensures ToBase16(n) == ToBase16(q) + [Digit(d)]
  {
    assert n / 16 == q && n % 16 == d;
  }

  /** Zero-padded renderings concatenate: the high part's digits, then the low part's. */
  lemma {:induction false} PadSplit(n: nat, hi: nat, lo: nat, v: nat, w: nat)
    requires n == Shifted(hi, w) + lo && lo < Pow16(w)
    ensures Pad(n, v + w) == Pad(hi, v) + Pad(lo, w)
  {
    if w > 0 {
      var lq, ld := lo / 16, lo % 16;
      var q := Shifted(hi, w - 1) + lq;
      DropDigitBound(lo, w);
      PadSplit(q, hi, lq, v, w - 1);
      PadSnoc(n, q, ld, v + w - 1);
      PadSnoc(lo, lq, ld, w - 1);
    }
  }

  /**
    Below a leading part `c >= 1`, `toString(16)` writes every lower digit,
    zeros included: this is why adding a high bit forces zero-padding.
   */
  lemma {:induction false} ToBase16Split(n: nat, c: nat, m: nat, w: nat)
    requires n == Shifted(c, w) + m && 1 <= c && m < Pow16(w)
    ensures ToBase16(n) == ToBase16(c) + Pad(m, w)
  {
    if w > 0 {
      var mq, md := m / 16, m % 16;
      var q := Shifted(c, w - 1) + mq;
      DropDigitBound(m, w);
      ToBase16Split(q, c, mq, w - 1);
      ToBase16Snoc(n, q, md);
      PadSnoc(m, mq, md, w - 1);
    }
  }

  /** Reading back a zero-padded rendering gives the number, when it fits in `w` digits. */
  lemma {:induction false} PadValue(n: nat, w: nat)
    requires n < Pow16(w)
    ensures Value(Pad(n, w)) == n
  {
    if w > 0 {
      var q, d := n / 16, n % 16;
      PadSnoc(n, q, d, w - 1);
      ValueSnoc(Pad(q, w - 1), Digit(d));
      DropDigitBound(n, w);
      PadValue(q, w - 1);
      DigitRoundTrip(d, '0');
    }
  }

  /** Rendering the value of a digit string at its own width gives the string back. */
  lemma {:induction false} ValuePad(s: string)
    requires AllHexDigits(s)
    ensures Pad(Value(s), |s|) == s
  {
    if s != [] {
      var init, last := s[..|s| - 1], s[|s| - 1];
      assert s == init + [last];
      ValuePad(init);
      DigitRoundTrip(0, last);
      PadSnoc(Value(s), Value(init), DigitValue(last), |s| - 1);
    }
  }

  /** A byte in two digits: the high nibble, then the low one. */
  lemma PadByte(n: nat)
    requires n < 256
    ensures Pad(n, 2) == [Digit(n / 16), Digit(n % 16)]
  {
    PadSnoc(n, n / 16, n % 16, 1);
    PadSnoc(n / 16, 0, n / 16, 0);
  }

  /** The byte values that appear in the default keys and in the examples. */
  lemma ByteLiterals()
    ensures Pad(0, 2) == "00" && Pad(0x80, 2) == "80" && Pad(0xff, 2) == "ff"
  {
    PadByte(0);
    PadByte(0x80);
    PadByte(0xff);
  }

  lemma AllHexDigitsConcat(s: string, t: string)
    requires AllHexDigits(s) && AllHexDigits(t)
    ensures AllHexDigits(s + t)
  {
    assert forall i :: 0 <= i < |s + t| ==> (s + t)[i] == if i < |s| then s[i] else t[i - |s|];
  }

  /** The powers of sixteen and the one rendering that the colour encoders use. */
  lemma Constants()
    ensures Pow16(2) == 0x100 && Pow16(4) == 0x1_0000 && Pow16(6) == 0x100_0000
    ensures Shifted(1, 4) == 0x1_0000 && Shifted(1, 6) == 0x100_0000
    ensures ToBase16(1) == "1"
  {
  }

  /** Two digits encode a byte; reading them back recovers it. */
  lemma ByteRoundTrip(x: nat)
    requires x < 256
    ensures Value(Pad(x, 2)) == x
  {
    Constants();
    PadValue(x, 2);
  }
}

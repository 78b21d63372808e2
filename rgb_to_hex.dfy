/**
  The opaque colour encoder of src/utils/rgbToHex.ts: three 8-bit channels
  become `#rrggbb`, six lowercase hex digits after a `#`.
 */
module RgbToHex {
  import opened Hex
  import opened Wrappers

  /** A channel value that fits in 8 bits. */
  predicate IsByte(x: int) {
    0 <= x < 256
  }

  /** An RGB triple, the value `rgbToHex` encodes. */
  datatype Rgb = Rgb(r: int, g: int, b: int)

  /**
    `(1 << 24) + (r << 16) + (g << 8) + b`. JavaScript shifts 32-bit integers,
    but for 8-bit channels no bit leaves the word, so each shift is a
    multiplication by a power of two.
   */
  function Packed(r: int, g: int, b: int): nat
    requires IsByte(r) && IsByte(g) && IsByte(b)
  {
    0x100_0000 + r * 0x1_0000 + g * 0x100 + b
  }

  /**
    The leading `1` bit makes `toString(16)` print exactly seven digits: a `1`
    and then two zero-padded digits per channel.
   */
  lemma PackedDigits(r: int, g: int, b: int)
    requires IsByte(r) && IsByte(g) && IsByte(b)
    ensures ToBase16(Packed(r, g, b)) == "1" + Pad(r, 2) + Pad(g, 2) + Pad(b, 2)
  {
    var rg := Shifted(r, 2) + g;
    var low := Shifted(rg, 2) + b;
    Constants();
    assert Packed(r, g, b) == Shifted(1, 6) + low by {
      assert Shifted(r, 2) == 0x100 * r by { assert Shifted(r, 1) == 16 * r; }
      assert Shifted(rg, 2) == 0x100 * rg by { assert Shifted(rg, 1) == 16 * rg; }
    }
    assert ToBase16(Packed(r, g, b)) == "1" + Pad(low, 6) by {
      ToBase16Split(Packed(r, g, b), 1, low, 6);
    }
    assert Pad(low, 6) == Pad(rg, 4) + Pad(b, 2) by {
      PadSplit(low, rg, b, 4, 2);
    }
    assert Pad(rg, 4) == Pad(r, 2) + Pad(g, 2) by {
      PadSplit(rg, r, g, 2, 2);
    }
  }

  /** `rgbToHex(r, g, b)`: `'#'` and the packed value in base 16 without its leading `1`. */
  function RgbToHex(r: int, g: int, b: int): (s: string)
    requires IsByte(r) && IsByte(g) && IsByte(b)
    ensures s == "#" + Pad(r, 2) + Pad(g, 2) + Pad(b, 2)
    ensures |s| == 7 && s[0] == '#' && AllHexDigits(s[1..])
  {
    PackedDigits(r, g, b);
    var digits := ToBase16(Packed(r, g, b))[1..];
    assert digits == Pad(r, 2) + Pad(g, 2) + Pad(b, 2);
    "#" + digits
  }

  /** Reads `#rrggbb` (lowercase digits only) back into its channels. */
  function ParseRgb(s: string): (c: Option<Rgb>)
    ensures c.Some? ==> IsByte(c.value.r) && IsByte(c.value.g) && IsByte(c.value.b)
  {
    if |s| == 7 && s[0] == '#' && AllHexDigits(s[1..]) then
      Some(Rgb(Value(s[1..3]), Value(s[3..5]), Value(s[5..7])))
    else
      None
  }

  /** Decoding the six digits gives the channels back. */
  lemma RgbToHexRoundTrip(r: int, g: int, b: int)
    requires IsByte(r) && IsByte(g) && IsByte(b)
    ensures ParseRgb(RgbToHex(r, g, b)) == Some(Rgb(r, g, b))
  {
    var s := RgbToHex(r, g, b);
    assert s[1..3] == Pad(r, 2) && s[3..5] == Pad(g, 2) && s[5..7] == Pad(b, 2);
    ByteRoundTrip(r);
    ByteRoundTrip(g);
    ByteRoundTrip(b);
  }

  /** Every string `ParseRgb` accepts is the encoding of what it returns. */
  lemma ParseRgbCanonical(s: string)
    requires ParseRgb(s).Some?
    ensures RgbToHex(ParseRgb(s).value.r, ParseRgb(s).value.g, ParseRgb(s).value.b) == s
  {
    var c := ParseRgb(s).value;
    assert Pad(c.r, 2) == s[1..3] by { assert AllHexDigits(s[1..3]); ValuePad(s[1..3]); }
    assert Pad(c.g, 2) == s[3..5] by { assert AllHexDigits(s[3..5]); ValuePad(s[3..5]); }
    assert Pad(c.b, 2) == s[5..7] by { assert AllHexDigits(s[5..7]); ValuePad(s[5..7]); }
    assert s == "#" + s[1..3] + s[3..5] + s[5..7];
  }

  /** Distinct colours get distinct strings. */
  lemma RgbToHexInjective(r: int, g: int, b: int, r': int, g': int, b': int)
    requires IsByte(r) && IsByte(g) && IsByte(b)
    requires IsByte(r') && IsByte(g') && IsByte(b')
    requires RgbToHex(r, g, b) == RgbToHex(r', g', b')
    ensures r == r' && g == g' && b == b'
  {
    RgbToHexRoundTrip(r, g, b);
    RgbToHexRoundTrip(r', g', b');
  }

  /** The two digits of a channel that is either empty or full. */
  function ExtremeDigits(x: int): string {
    if x == 0 then "00" else "ff"
  }

  /**
    Colours whose channels are each empty or full (black, white, the
    primaries) encode channel by channel as `00` or `ff`.
   */
  lemma ExtremeHex(r: int, g: int, b: int)
    requires (r == 0 || r == 255) && (g == 0 || g == 255) && (b == 0 || b == 255)
    ensures RgbToHex(r, g, b) == "#" + ExtremeDigits(r) + ExtremeDigits(g) + ExtremeDigits(b)
  {
    ByteLiterals();
    assert Pad(r, 2) == ExtremeDigits(r) && Pad(g, 2) == ExtremeDigits(g) && Pad(b, 2) == ExtremeDigits(b);
  }

  /** Black encodes as `#000000` and white as `#ffffff`: the two default ignore entries. */
  lemma BlackAndWhiteHex(x: int)
    requires x == 0 || x == 255
    ensures RgbToHex(x, x, x) == if x == 0 then "#000000" else "#ffffff"
  {
    ExtremeHex(x, x, x);
  }
}

/**
  The colour-counting core of src/getDominantColor.ts.

  - `RgbaToHex` is the hex key of one RGBA sample: `#rrggbb`, plus two alpha
    digits when the sample is not fully opaque.
  - `GetColors` scans a flat RGBA buffer four bytes at a time, counts the
    colours that are neither transparent nor ignored in a table keyed by that
    hex key, and returns the keys ranked by count, most frequent first.
  - `MergeOptions` and `ExtractColors` fill omitted options from the defaults
    and feed the ignore list to the scan. Decoding and rescaling the image are
    outside this model: the buffer they produce is an input here.
 */
module DominantColor {
  import opened Hex
  import opened Wrappers
  import RgbToHex

  // ---------------------------------------------------------------------------
  // The hex key of an RGBA sample
  // ---------------------------------------------------------------------------

  /** One RGBA sample, four bytes of the buffer. */
  datatype Rgba = Rgba(r: int, g: int, b: int, a: int)

  predicate ValidPixel(p: Rgba) {
    RgbToHex.IsByte(p.r) && RgbToHex.IsByte(p.g) && RgbToHex.IsByte(p.b) && RgbToHex.IsByte(p.a)
  }

  /** `(a + 0x10000).toString(16)` is a `1`, two zeros and the two digits of the alpha byte. */
  lemma AlphaDigits(a: int)
    requires RgbToHex.IsByte(a)
    ensures ToBase16(a + 0x1_0000) == "100" + Pad(a, 2)
  {
    Constants();
    ToBase16Split(a + 0x1_0000, 1, a, 4);
    PadSplit(a, 0, a, 2, 2);
    ByteLiterals();
  }

  /**
    The hex key of a sample: `#`, two zero-padded lowercase digits for each
    colour channel, then two for the alpha channel unless it is 255.
   */
  function Key(p: Rgba): string
    requires ValidPixel(p)
  {
    "#" + Pad(p.r, 2) + Pad(p.g, 2) + Pad(p.b, 2) + (if p.a == 255 then "" else Pad(p.a, 2))
  }

  /**
    `rgbaToHex(r, g, b, a)`: the `#rrggbb` form of the colour, followed by the
    last two base-16 digits of `a + 0x10000` unless `a` is 255.
   */
  function RgbaToHex(r: int, g: int, b: int, a: int): (s: string)
    requires RgbToHex.IsByte(r) && RgbToHex.IsByte(g) && RgbToHex.IsByte(b) && RgbToHex.IsByte(a)
    ensures s == Key(Rgba(r, g, b, a))
  {
    RgbToHex.PackedDigits(r, g, b);
    AlphaDigits(a);
    var hex := "#" + ToBase16(RgbToHex.Packed(r, g, b))[1..];
    var alphaText := ToBase16(a + 0x1_0000);
    var hexAlpha := if a == 255 then "" else alphaText[|alphaText| - 2..];
    assert hex == "#" + Pad(r, 2) + Pad(g, 2) + Pad(b, 2);
    assert alphaText[|alphaText| - 2..] == Pad(a, 2);
    hex + hexAlpha
  }

  /**
    Reads a key back: `#rrggbb` is an opaque colour, `#rrggbbaa` a colour with
    alpha `aa`; a suffix `ff` is refused because `RgbaToHex` never writes one.
   */
  function ParseRgba(s: string): (c: Option<Rgba>)
    ensures c.Some? ==> ValidPixel(c.value)
  {
    if (|s| == 7 || |s| == 9) && s[0] == '#' && AllHexDigits(s[1..]) then
      var alpha := if |s| == 7 then 255 else Value(s[7..9]);
      if |s| == 9 && alpha == 255 then None
      else Some(Rgba(Value(s[1..3]), Value(s[3..5]), Value(s[5..7]), alpha))
    else
      None
  }

  /** Where the pieces of `#` + three pairs + a tail sit in the string. */
  lemma KeySlices(x: string, y: string, z: string, tail: string)
    requires |x| == 2 && |y| == 2 && |z| == 2
    ensures var s := "#" + x + y + z + tail;
            |s| == 7 + |tail| && s[0] == '#' && s[1..] == x + y + z + tail &&
            s[1..3] == x && s[3..5] == y && s[5..7] == z && s[7..] == tail
  {
  }

  /** The three colour pairs and the optional alpha pair are all hex digits. */
  lemma KeyDigits(p: Rgba, tail: string)
    requires ValidPixel(p) && tail == (if p.a == 255 then "" else Pad(p.a, 2))
    ensures AllHexDigits(Pad(p.r, 2) + Pad(p.g, 2) + Pad(p.b, 2) + tail)
  {
    AllHexDigitsConcat(Pad(p.r, 2), Pad(p.g, 2));
    AllHexDigitsConcat(Pad(p.r, 2) + Pad(p.g, 2), Pad(p.b, 2));
    AllHexDigitsConcat(Pad(p.r, 2) + Pad(p.g, 2) + Pad(p.b, 2), tail);
  }

  /** `ParseRgba` reads the channels back out of their zero-padded digits. */
  lemma ParseRgbaDigits(p: Rgba, tail: string)
    requires ValidPixel(p) && tail == (if p.a == 255 then "" else Pad(p.a, 2))
    ensures ParseRgba("#" + Pad(p.r, 2) + Pad(p.g, 2) + Pad(p.b, 2) + tail) == Some(p)
  {
    var s := "#" + Pad(p.r, 2) + Pad(p.g, 2) + Pad(p.b, 2) + tail;
    KeySlices(Pad(p.r, 2), Pad(p.g, 2), Pad(p.b, 2), tail);
    KeyDigits(p, tail);
    ByteRoundTrip(p.r);
    ByteRoundTrip(p.g);
    ByteRoundTrip(p.b);
    if p.a != 255 {
      assert s[7..9] == Pad(p.a, 2);
      ByteRoundTrip(p.a);
    }
  }

  /** Parsing a key recovers the sample; a missing suffix stands for alpha 255. */
  lemma RgbaToHexRoundTrip(p: Rgba)
    requires ValidPixel(p)
    ensures ParseRgba(Key(p)) == Some(p)
  {
    ParseRgbaDigits(p, if p.a == 255 then "" else Pad(p.a, 2));
  }

  /**
    Seven characters for an opaque colour, nine otherwise: `#` and then
    lowercase hex digits only. This is the shape `ParseRgba` checks, so it
    follows from the round trip.
   */
  lemma RgbaToHexFormat(p: Rgba)
    requires ValidPixel(p)
    ensures |Key(p)| == (if p.a == 255 then 7 else 9)
    ensures Key(p)[0] == '#' && AllHexDigits(Key(p)[1..])
  {
    RgbaToHexRoundTrip(p);
  }

  /** Two hex digits of a string read back to themselves through `Value` and `Pad`. */
  lemma PairRoundTrip(s: string, i: nat)
    requires 1 <= i && i + 2 <= |s| && AllHexDigits(s[1..])
    ensures Pad(Value(s[i..i + 2]), 2) == s[i..i + 2]
  {
    var pair := s[i..i + 2];
    assert pair[0] == s[1..][i - 1] && pair[1] == s[1..][i];
    ValuePad(pair);
  }

  /** A string of seven or nine characters is its first character, three pairs and the rest. */
  lemma Pieces(s: string)
    requires |s| == 7 || |s| == 9
    ensures s == [s[0]] + s[1..3] + s[3..5] + s[5..7] + s[7..]
  {
  }

  /** A string made of `#` and the pairs of a sample's channels is that sample's key. */
  lemma KeyFromPairs(p: Rgba, s: string)
    requires ValidPixel(p) && |s| == (if p.a == 255 then 7 else 9) && s[0] == '#'
    requires Pad(p.r, 2) == s[1..3] && Pad(p.g, 2) == s[3..5] && Pad(p.b, 2) == s[5..7]
    requires s[7..] == if p.a == 255 then "" else Pad(p.a, 2)
    ensures Key(p) == s
  {
    Pieces(s);
  }

  /** The pairs of an accepted string are the renderings of the channels `ParseRgba` reads from them. */
  lemma ParsedPairs(s: string)
    requires ParseRgba(s).Some?
    ensures var p := ParseRgba(s).value;
            && |s| == (if p.a == 255 then 7 else 9) && s[0] == '#'
            && Pad(p.r, 2) == s[1..3] && Pad(p.g, 2) == s[3..5] && Pad(p.b, 2) == s[5..7]
            && s[7..] == if p.a == 255 then "" else Pad(p.a, 2)
  {
    PairRoundTrip(s, 1);
    PairRoundTrip(s, 3);
    PairRoundTrip(s, 5);
    if |s| == 9 {
      PairRoundTrip(s, 7);
      assert s[7..] == s[7..9];
    }
  }

  /** Every string `ParseRgba` accepts is the key of the sample it returns. */
  lemma ParseRgbaCanonical(s: string)
    requires ParseRgba(s).Some?
    ensures Key(ParseRgba(s).value) == s
  {
    ParsedPairs(s);
    KeyFromPairs(ParseRgba(s).value, s);
  }

  /** Distinct samples get distinct keys: the key identifies the colour and its alpha. */
  lemma RgbaToHexInjective(p: Rgba, q: Rgba)
    requires ValidPixel(p) && ValidPixel(q)
    requires Key(p) == Key(q)
    ensures p == q
  {
    RgbaToHexRoundTrip(p);
    RgbaToHexRoundTrip(q);
  }

  /** With alpha 255 the key is exactly what `rgbToHex` in src/utils/rgbToHex.ts gives. */
  lemma OpaqueKeyIsRgbToHex(r: int, g: int, b: int)
    requires RgbToHex.IsByte(r) && RgbToHex.IsByte(g) && RgbToHex.IsByte(b)
    ensures RgbaToHex(r, g, b, 255) == RgbToHex.RgbToHex(r, g, b)
  {
  }

  /**
    A translucent black keeps its alpha suffix (`#00000080` for alpha 0x80),
    so the default entry `#000000` does not match it.
   */
  lemma TranslucentBlackKey(p: Rgba)
    requires p.r == 0 && p.g == 0 && p.b == 0 && 0 <= p.a < 255
    ensures Key(p) == "#000000" + Pad(p.a, 2)
    ensures Key(p) !in DefaultOptions.ignore
    ensures p.a == 0x80 ==> Key(p) == "#00000080"
  {
    ByteLiterals();
    assert |Key(p)| == 9;
  }

  // ---------------------------------------------------------------------------
  // The pixel buffer
  // ---------------------------------------------------------------------------

  /** The RGBA buffer as the canvas hands it over: whole pixels, every entry a byte. */
  predicate ValidBuffer(data: seq<int>) {
    |data| % 4 == 0 && forall i :: 0 <= i < |data| ==> RgbToHex.IsByte(data[i])
  }

  /** The buffer read four bytes at a time, as the scan loop reads it. */
  function Pixels(data: seq<int>): (px: seq<Rgba>)
    requires ValidBuffer(data)
    ensures |px| == |data| / 4
    ensures forall k :: 0 <= k < |px| ==> ValidPixel(px[k])
  {
    seq(|data| / 4, k requires 0 <= k < |data| / 4 =>
      Rgba(data[4 * k], data[4 * k + 1], data[4 * k + 2], data[4 * k + 3]))
  }

  predicate AllValid(px: seq<Rgba>) {
    forall k :: 0 <= k < |px| ==> ValidPixel(px[k])
  }

  /** A sample that the scan counts: not fully transparent, and its key not in `ignore`. */
  predicate Counted(p: Rgba, ignore: seq<string>)
    requires ValidPixel(p)
  {
    p.a != 0 && Key(p) !in ignore
  }

  /** Reference count: how many counted samples of `px` have the key `color`. */
  function Occurrences(px: seq<Rgba>, ignore: seq<string>, color: string): nat
    requires AllValid(px)
  {
    if px == [] then 0
    else
      var last := px[|px| - 1];
      Occurrences(px[..|px| - 1], ignore, color) + (if Counted(last, ignore) && Key(last) == color then 1 else 0)
  }

  /** How many samples of `px` are counted at all. */
  function CountedPixels(px: seq<Rgba>, ignore: seq<string>): nat
    requires AllValid(px)
  {
    if px == [] then 0
    else CountedPixels(px[..|px| - 1], ignore) + (if Counted(px[|px| - 1], ignore) then 1 else 0)
  }

  // ---------------------------------------------------------------------------
  // The count table
  // ---------------------------------------------------------------------------

  /** One value of `countMap`: a colour and how often it was seen. */
  datatype ColorCount = ColorCount(color: string, count: int)

  /**
    `countMap`: the entries by hex key, and the keys in the order they were
    first inserted, which is the order `Object.values` lists them in (hex
    keys start with `#`, so none is an array index).
   */
  datatype CountMap = CountMap(entries: map<string, ColorCount>, order: seq<string>)

  /** What `countMap` keeps true: each key listed once, each entry named by its key and seen at least once. */
  ghost predicate WellFormed(m: CountMap) {
    && (forall i, j :: 0 <= i < j < |m.order| ==> m.order[i] != m.order[j])
    && (forall c :: c in m.entries <==> c in m.order)
    && (forall c :: c in m.entries ==> m.entries[c].color == c && m.entries[c].count >= 1)
  }

  /** The count the table holds for `color`, 0 when it has no entry. */
  function CountOf(m: CountMap, color: string): int {
    if color in m.entries then m.entries[color].count else 0
  }

  /** One more sighting of `color`: its count goes up by one, or it gets a new entry with count 1. */
  function Tally(m: CountMap, color: string): CountMap {
    if color in m.entries then
      CountMap(m.entries[color := m.entries[color].(count := m.entries[color].count + 1)], m.order)
    else
      CountMap(m.entries[color := ColorCount(color, 1)], m.order + [color])
  }

  /** One turn of the scan loop on the sample `p`. */
  function Visit(m: CountMap, p: Rgba, ignore: seq<string>): CountMap
    requires ValidPixel(p)
  {
    if p.a == 0 then m
    else
      var color := Key(p);
      if color in ignore then m else Tally(m, color)
  }

  /** The table after the scan loop has visited every sample of `px`, in order. */
  function Scan(px: seq<Rgba>, ignore: seq<string>): CountMap
    requires AllValid(px)
  {
    if px == [] then CountMap(map[], [])
    else Visit(Scan(px[..|px| - 1], ignore), px[|px| - 1], ignore)
  }

  /** A sighting keeps the table well formed and adds one to the count of its own colour only. */
  lemma TallyCounts(m: CountMap, color: string)
    requires WellFormed(m)
    ensures WellFormed(Tally(m, color))
    ensures forall c :: CountOf(Tally(m, color), c) == CountOf(m, c) + (if c == color then 1 else 0)
  {
    var m' := Tally(m, color);
    if color in m.entries {
      assert m'.order == m.order && m'.entries.Keys == m.entries.Keys;
    } else {
      assert color !in m.order;
      assert m'.order == m.order + [color];
      assert forall i :: 0 <= i < |m.order| ==> m'.order[i] == m.order[i];
    }
  }

  /** A visit keeps the table well formed and adds one to the count of a counted sample's key only. */
  lemma VisitCounts(m: CountMap, p: Rgba, ignore: seq<string>)
    requires WellFormed(m) && ValidPixel(p)
    ensures WellFormed(Visit(m, p, ignore))
    ensures forall c :: CountOf(Visit(m, p, ignore), c)
                        == CountOf(m, c) + (if Counted(p, ignore) && Key(p) == c then 1 else 0)
  {
    if Counted(p, ignore) {
      TallyCounts(m, Key(p));
    }
  }

  /**
    The table the scan builds is well formed, and it holds, for every key,
    exactly the number of counted samples with that key.
   */
  lemma {:induction false} ScanCounts(px: seq<Rgba>, ignore: seq<string>)
    requires AllValid(px)
    ensures WellFormed(Scan(px, ignore))
    ensures forall c :: CountOf(Scan(px, ignore), c) == Occurrences(px, ignore, c)
  {
    if px != [] {
      ScanCounts(px[..|px| - 1], ignore);
      VisitCounts(Scan(px[..|px| - 1], ignore), px[|px| - 1], ignore);
    }
  }

  /** Keys in the table are exactly the keys of counted samples. */
  lemma ScanKeys(px: seq<Rgba>, ignore: seq<string>, color: string)
    requires AllValid(px)
    ensures color in Scan(px, ignore).entries <==> Occurrences(px, ignore, color) > 0
    ensures color in Scan(px, ignore).entries ==> Scan(px, ignore).entries[color].count == Occurrences(px, ignore, color)
  {
    ScanCounts(px, ignore);
    assert CountOf(Scan(px, ignore), color) == Occurrences(px, ignore, color);
  }

  /** An ignored key is never counted, so it never gets a table entry. */
  lemma {:induction false} IgnoredNeverCounted(px: seq<Rgba>, ignore: seq<string>, color: string)
    requires AllValid(px) && color in ignore
    ensures Occurrences(px, ignore, color) == 0
    ensures color !in Scan(px, ignore).entries
  {
    if px != [] {
      IgnoredNeverCounted(px[..|px| - 1], ignore, color);
    }
    ScanKeys(px, ignore, color);
  }

  lemma AllValidConcat(a: seq<Rgba>, b: seq<Rgba>)
    requires AllValid(a) && AllValid(b)
    ensures AllValid(a + b)
  {
  }

  /** The scan of a non-empty list: the scan of all but the last sample, then a visit of the last. */
  lemma ScanSnoc(px: seq<Rgba>, p: Rgba, ignore: seq<string>)
    requires AllValid(px) && ValidPixel(p)
    ensures AllValid(px + [p])
    ensures Scan(px + [p], ignore) == Visit(Scan(px, ignore), p, ignore)
  {
    AllValidConcat(px, [p]);
    assert (px + [p])[..|px|] == px;
  }

  /**
    One more sample: the scan of the first `k + 1` samples visits sample `k`
    in the table `m` built from the first `k`.
   */
  lemma ScanNext(px: seq<Rgba>, k: nat, ignore: seq<string>, m: CountMap)
    requires AllValid(px) && k < |px| && m == Scan(px[..k], ignore)
    ensures Scan(px[..k + 1], ignore) == Visit(m, px[k], ignore)
  {
    assert px[..k + 1][..k] == px[..k];
  }

  /** A fully transparent sample changes nothing: the table is the one built without it. */
  lemma {:induction false} TransparentPixelIgnored(pre: seq<Rgba>, p: Rgba, post: seq<Rgba>, ignore: seq<string>)
    requires AllValid(pre) && ValidPixel(p) && AllValid(post) && p.a == 0
    ensures AllValid(pre + [p] + post) && AllValid(pre + post)
    ensures Scan(pre + [p] + post, ignore) == Scan(pre + post, ignore)
  {
    AllValidConcat(pre, [p]);
    AllValidConcat(pre + [p], post);
    AllValidConcat(pre, post);
    if post == [] {
      assert pre + [p] + post == pre + [p] && pre + post == pre;
      ScanSnoc(pre, p, ignore);
    } else {
      var init, last := post[..|post| - 1], post[|post| - 1];
      assert AllValid(init);
      TransparentPixelIgnored(pre, p, init, ignore);
      AllValidConcat(pre + [p], init);
      AllValidConcat(pre, init);
      assert pre + [p] + post == (pre + [p] + init) + [last];
      assert pre + post == (pre + init) + [last];
      ScanSnoc(pre + [p] + init, last, ignore);
      ScanSnoc(pre + init, last, ignore);
    }
  }

  // ---------------------------------------------------------------------------
  // Ranking: Object.values, sort by count descending, map to the hex key
  // ---------------------------------------------------------------------------

  /** `Object.values(countMap)`: the entries in insertion order. */
  function Values(m: CountMap): (es: seq<ColorCount>)
    requires WellFormed(m)
    ensures |es| == |m.order|
  {
    seq(|m.order|, i requires 0 <= i < |m.order| => m.entries[m.order[i]])
  }

  /** `.map((v) => v.color)`. */
  function ColorsOf(es: seq<ColorCount>): (cs: seq<string>)
    ensures |cs| == |es|
  {
    seq(|es|, i requires 0 <= i < |es| => es[i].color)
  }

  predicate SortedByCount(es: seq<ColorCount>) {
    forall i, j :: 0 <= i < j < |es| ==> es[i].count >= es[j].count
  }

  predicate DistinctColors(es: seq<ColorCount>) {
    forall i, j :: 0 <= i < j < |es| ==> es[i].color != es[j].color
  }

  /** Inserts `e` into a list sorted by descending count, ahead of the entries whose count it equals. */
  function Insert(e: ColorCount, es: seq<ColorCount>): (r: seq<ColorCount>)
    ensures multiset(r) == multiset(es) + multiset{e}
  {
    if es == [] || e.count >= es[0].count then [e] + es
    else
      assert es == [es[0]] + es[1..];
      [es[0]] + Insert(e, es[1..])
  }

  /** Whatever `Insert` returns is `e` or comes from `es`. */
  lemma InsertMembers(e: ColorCount, es: seq<ColorCount>, x: ColorCount)
    requires x in Insert(e, es)
    ensures x == e || x in es
  {
    assert x in multiset(Insert(e, es));
  }

  lemma {:induction false} InsertSorted(e: ColorCount, es: seq<ColorCount>)
    requires SortedByCount(es)
    ensures SortedByCount(Insert(e, es))
  {
    if es != [] && e.count < es[0].count {
      var rest := Insert(e, es[1..]);
      InsertSorted(e, es[1..]);
      forall j | 0 <= j < |rest|
        ensures es[0].count >= rest[j].count
      {
        InsertMembers(e, es[1..], rest[j]);
      }
    }
  }

  lemma {:induction false} InsertDistinct(e: ColorCount, es: seq<ColorCount>)
    requires DistinctColors(es)
    requires forall x :: x in es ==> x.color != e.color
    ensures DistinctColors(Insert(e, es))
  {
    if es != [] && e.count < es[0].count {
      var rest := Insert(e, es[1..]);
      InsertDistinct(e, es[1..]);
      forall j | 0 <= j < |rest|
        ensures es[0].color != rest[j].color
      {
        InsertMembers(e, es[1..], rest[j]);
      }
    }
  }

  /**
    `.sort((a, b) => b.count - a.count)`: a stable insertion sort by
    descending count. Only the permutation and the order by count are
    promised; how entries with equal counts end up is not.
   */
  function SortByCount(es: seq<ColorCount>): (r: seq<ColorCount>)
    ensures multiset(r) == multiset(es)
  {
    if es == [] then []
    else
      assert es == [es[0]] + es[1..];
      Insert(es[0], SortByCount(es[1..]))
  }

  /** The sort returns its input in descending order of count. */
  lemma {:induction false} SortByCountSorted(es: seq<ColorCount>)
    ensures SortedByCount(SortByCount(es))
  {
    if es != [] {
      SortByCountSorted(es[1..]);
      InsertSorted(es[0], SortByCount(es[1..]));
    }
  }

  /** The sort repeats no colour when its input repeats none. */
  lemma {:induction false} SortByCountDistinct(es: seq<ColorCount>)
    requires DistinctColors(es)
    ensures DistinctColors(SortByCount(es))
  {
    if es != [] {
      var rest := SortByCount(es[1..]);
      SortByCountDistinct(es[1..]);
      forall x | x in rest
        ensures x.color != es[0].color
      {
        assert x in multiset(rest);
        var i :| 1 <= i < |es| && es[i] == x;
      }
      InsertDistinct(es[0], rest);
    }
  }

  /** The hex keys of the table, most frequent first: the ranking step of `getColors`. */
  function Ranking(m: CountMap): seq<string>
    requires WellFormed(m)
  {
    ColorsOf(SortByCount(Values(m)))
  }

  /** An entry of the sorted values is the table's entry for its own colour. */
  lemma SortedEntry(m: CountMap, x: ColorCount)
    requires WellFormed(m) && x in SortByCount(Values(m))
    ensures x.color in m.entries && m.entries[x.color] == x
  {
    assert x in multiset(SortByCount(Values(m)));
    var k :| 0 <= k < |m.order| && Values(m)[k] == x;
  }

  /** Every key of the table has its entry among the sorted values. */
  lemma EntrySorted(m: CountMap, c: string)
    requires WellFormed(m) && c in m.entries
    ensures m.entries[c] in SortByCount(Values(m))
  {
    var k :| 0 <= k < |m.order| && m.order[k] == c;
    assert Values(m)[k] == m.entries[c];
    assert m.entries[c] in multiset(Values(m));
  }

  /**
    The ranking lists every key of the table once and nothing else, and
    never lists a key before one with a higher count.
   */
  lemma RankingSpec(m: CountMap)
    requires WellFormed(m)
    ensures forall c :: c in Ranking(m) <==> c in m.entries
    ensures forall i, j :: 0 <= i < j < |Ranking(m)| ==> Ranking(m)[i] != Ranking(m)[j]
    ensures forall i, j :: 0 <= i < j < |Ranking(m)| ==> CountOf(m, Ranking(m)[i]) >= CountOf(m, Ranking(m)[j])
  {
    var vs := Values(m);
    var sorted := SortByCount(vs);
    var r := Ranking(m);
    assert DistinctColors(vs) by {
      forall i, j | 0 <= i < j < |vs| ensures vs[i].color != vs[j].color {
        assert vs[i].color == m.order[i] && vs[j].color == m.order[j];
      }
    }
    SortByCountSorted(vs);
    SortByCountDistinct(vs);
    forall i | 0 <= i < |r|
      ensures r[i] in m.entries && CountOf(m, r[i]) == sorted[i].count
    {
      SortedEntry(m, sorted[i]);
    }
    forall c | c in m.entries
      ensures c in r
    {
      EntrySorted(m, c);
      var i :| 0 <= i < |sorted| && sorted[i] == m.entries[c];
      assert r[i] == c;
    }
  }

  /** Sum of the counts in a list of entries. */
  function SumCounts(es: seq<ColorCount>): int {
    if es == [] then 0 else SumCounts(es[..|es| - 1]) + es[|es| - 1].count
  }

  lemma {:induction false} SumCountsUpdate(es: seq<ColorCount>, k: nat, e: ColorCount)
    requires k < |es|
    ensures SumCounts(es[k := e]) == SumCounts(es) - es[k].count + e.count
  {
    var es' := es[k := e];
    assert es'[..|es'| - 1] == if k == |es| - 1 then es[..|es| - 1] else es[..|es| - 1][k := e];
    if k < |es| - 1 {
      SumCountsUpdate(es[..|es| - 1], k, e);
    }
  }

  /** One visit adds one to the total of the table exactly when it counts the sample. */
  lemma VisitTotal(m: CountMap, p: Rgba, ignore: seq<string>)
    requires WellFormed(m) && ValidPixel(p)
    ensures WellFormed(Visit(m, p, ignore))
    ensures SumCounts(Values(Visit(m, p, ignore))) == SumCounts(Values(m)) + (if Counted(p, ignore) then 1 else 0)
  {
    if Counted(p, ignore) {
      TallyTotal(m, Key(p));
    }
  }

  /** A sighting adds one to the total. */
  lemma TallyTotal(m: CountMap, color: string)
    requires WellFormed(m)
    ensures WellFormed(Tally(m, color)) && SumCounts(Values(Tally(m, color))) == SumCounts(Values(m)) + 1
  {
    if color in m.entries {
      IncrementTotal(m, color);
    } else {
      InsertTotal(m, color);
    }
  }

  /** Adding one to an existing entry adds one to the total. */
  lemma IncrementTotal(m: CountMap, color: string)
    requires WellFormed(m) && color in m.entries
    ensures WellFormed(Tally(m, color)) && SumCounts(Values(Tally(m, color))) == SumCounts(Values(m)) + 1
  {
    var m' := Tally(m, color);
    TallyCounts(m, color);
    var k :| 0 <= k < |m.order| && m.order[k] == color;
    assert Values(m') == Values(m)[k := m'.entries[color]];
    SumCountsUpdate(Values(m), k, m'.entries[color]);
  }

  /** A new entry with count one adds one to the total. */
  lemma InsertTotal(m: CountMap, color: string)
    requires WellFormed(m) && color !in m.entries
    ensures WellFormed(Tally(m, color)) && SumCounts(Values(Tally(m, color))) == SumCounts(Values(m)) + 1
  {
    var m' := Tally(m, color);
    TallyCounts(m, color);
    assert Values(m') == Values(m) + [ColorCount(color, 1)];
    assert Values(m')[..|Values(m')| - 1] == Values(m);
  }

  /**
    Conservation: the counts in the table add up to the number of samples
    that are neither transparent nor ignored.
   */
  lemma {:induction false} ScanTotal(px: seq<Rgba>, ignore: seq<string>)
    requires AllValid(px)
    ensures WellFormed(Scan(px, ignore))
    ensures SumCounts(Values(Scan(px, ignore))) == CountedPixels(px, ignore)
  {
    if px != [] {
      ScanTotal(px[..|px| - 1], ignore);
      VisitTotal(Scan(px[..|px| - 1], ignore), px[|px| - 1], ignore);
    }
  }

  /** When no sample is counted, no key occurs. */
  lemma {:induction false} NothingCounted(px: seq<Rgba>, ignore: seq<string>, color: string)
    requires AllValid(px)
    requires forall k :: 0 <= k < |px| ==> !Counted(px[k], ignore)
    ensures Occurrences(px, ignore, color) == 0
  {
    if px != [] {
      NothingCounted(px[..|px| - 1], ignore, color);
    }
  }

  // ---------------------------------------------------------------------------
  // getColors
  // ---------------------------------------------------------------------------

  /** What `getColors(data, ignore)` returns, as a function of its inputs. */
  function DominantColors(data: seq<int>, ignore: seq<string>): seq<string>
    requires ValidBuffer(data)
  {
    ScanCounts(Pixels(data), ignore);
    Ranking(Scan(Pixels(data), ignore))
  }

  /**
    What `getColors` promises: the counted keys, each once, most frequent
    first; no ignored key and no key of a transparent-only colour.
   */
  lemma DominantColorsSpec(data: seq<int>, ignore: seq<string>)
    requires ValidBuffer(data)
    ensures forall c :: c in DominantColors(data, ignore) <==> Occurrences(Pixels(data), ignore, c) > 0
    ensures forall c :: c in ignore ==> c !in DominantColors(data, ignore)
    ensures var r := DominantColors(data, ignore);
            forall i, j :: 0 <= i < j < |r| ==> r[i] != r[j]
    ensures var r := DominantColors(data, ignore);
            forall i, j :: 0 <= i < j < |r| ==>
              Occurrences(Pixels(data), ignore, r[i]) >= Occurrences(Pixels(data), ignore, r[j])
  {
    var px := Pixels(data);
    var m := Scan(px, ignore);
    ScanCounts(px, ignore);
    RankingSpec(m);
    forall c | c in ignore ensures c !in m.entries {
      IgnoredNeverCounted(px, ignore, c);
    }
  }

  /** A buffer with no countable sample (empty, all transparent or all ignored) ranks nothing. */
  lemma NothingCountedRanksNothing(data: seq<int>, ignore: seq<string>)
    requires ValidBuffer(data)
    requires forall k :: 0 <= k < |data| / 4 ==> !Counted(Pixels(data)[k], ignore)
    ensures DominantColors(data, ignore) == []
  {
    DominantColorsSpec(data, ignore);
    var r := DominantColors(data, ignore);
    if r != [] {
      NothingCounted(Pixels(data), ignore, r[0]);
      assert false;
    }
  }

  /** The buffer of a 2x2 image: two opaque red samples, an opaque blue one and a fully transparent one. */
  function TwoByTwo(): (data: seq<int>)
    ensures ValidBuffer(data) && |data| == 16
  {
    [255, 0, 0, 255, 255, 0, 0, 255, 0, 0, 255, 255, 0, 0, 0, 0]
  }

  lemma TwoByTwoPixels()
    ensures Pixels(TwoByTwo()) == [Rgba(255, 0, 0, 255), Rgba(255, 0, 0, 255), Rgba(0, 0, 255, 255), Rgba(0, 0, 0, 0)]
  {
    var px := Pixels(TwoByTwo());
    assert px[0] == Rgba(255, 0, 0, 255) && px[1] == Rgba(255, 0, 0, 255);
    assert px[2] == Rgba(0, 0, 255, 255) && px[3] == Rgba(0, 0, 0, 0);
  }

  /** A scan of four samples is four visits, starting from the empty table. */
  lemma ScanFour(p0: Rgba, p1: Rgba, p2: Rgba, p3: Rgba, ignore: seq<string>)
    requires ValidPixel(p0) && ValidPixel(p1) && ValidPixel(p2) && ValidPixel(p3)
    ensures AllValid([p0, p1, p2, p3])
    ensures Scan([p0, p1, p2, p3], ignore) ==
            Visit(Visit(Visit(Visit(CountMap(map[], []), p0, ignore), p1, ignore), p2, ignore), p3, ignore)
  {
    ScanSnoc([], p0, ignore);
    assert [] + [p0] == [p0];
    ScanSnoc([p0], p1, ignore);
    assert [p0] + [p1] == [p0, p1];
    ScanSnoc([p0, p1], p2, ignore);
    assert [p0, p1] + [p2] == [p0, p1, p2];
    ScanSnoc([p0, p1, p2], p3, ignore);
    assert [p0, p1, p2] + [p3] == [p0, p1, p2, p3];
  }

  /**
    Two samples of one colour, one of another and a transparent one: the
    first colour is entered first with count 2, the second with count 1.
   */
  lemma ScanTwoOneClear(x: Rgba, y: Rgba, z: Rgba, ignore: seq<string>)
    requires ValidPixel(x) && ValidPixel(y) && ValidPixel(z)
    requires Counted(x, ignore) && Counted(y, ignore) && Key(x) != Key(y) && z.a == 0
    ensures AllValid([x, x, y, z])
    ensures Scan([x, x, y, z], ignore) ==
            CountMap(map[Key(x) := ColorCount(Key(x), 2), Key(y) := ColorCount(Key(y), 1)], [Key(x), Key(y)])
  {
    ScanFour(x, x, y, z, ignore);
  }

  /** The same samples with the first colour ignored: only the second is entered. */
  lemma ScanIgnoredOneClear(x: Rgba, y: Rgba, z: Rgba, ignore: seq<string>)
    requires ValidPixel(x) && ValidPixel(y) && ValidPixel(z)
    requires x.a != 0 && Key(x) in ignore && Counted(y, ignore) && z.a == 0
    ensures AllValid([x, x, y, z])
    ensures Scan([x, x, y, z], ignore) == CountMap(map[Key(y) := ColorCount(Key(y), 1)], [Key(y)])
  {
    ScanFour(x, x, y, z, ignore);
  }

  /** A table of one key ranks that key alone. */
  lemma RankingOfOne(x: string, c: int)
    requires c >= 1
    ensures WellFormed(CountMap(map[x := ColorCount(x, c)], [x]))
    ensures Ranking(CountMap(map[x := ColorCount(x, c)], [x])) == [x]
  {
    assert Values(CountMap(map[x := ColorCount(x, c)], [x])) == [ColorCount(x, c)];
  }

  /** A table of two keys ranks the one with the larger (or equal) count first. */
  lemma RankingOfTwo(x: string, cx: int, y: string, cy: int)
    requires x != y && cx >= cy >= 1
    ensures WellFormed(CountMap(map[x := ColorCount(x, cx), y := ColorCount(y, cy)], [x, y]))
    ensures Ranking(CountMap(map[x := ColorCount(x, cx), y := ColorCount(y, cy)], [x, y])) == [x, y]
  {
    var m := CountMap(map[x := ColorCount(x, cx), y := ColorCount(y, cy)], [x, y]);
    var ex, ey := ColorCount(x, cx), ColorCount(y, cy);
    assert WellFormed(m);
    assert Values(m) == [ex, ey];
    SortTwo(ex, ey);
  }

  /** Two entries already in order stay in order. */
  lemma SortTwo(e: ColorCount, f: ColorCount)
    requires e.count >= f.count
    ensures SortByCount([e, f]) == [e, f]
  {
    assert [e, f][1..] == [f];
    assert SortByCount([f]) == [f];
  }

  lemma RedAndBlueKeys(red: Rgba, blue: Rgba)
    requires red == Rgba(255, 0, 0, 255) && blue == Rgba(0, 0, 255, 255)
    ensures Key(red) == "#ff0000" && Key(blue) == "#0000ff"
  {
    ByteLiterals();
  }

  /**
    A 2x2 image where red (twice) ranks before blue (once)
    and the transparent sample is not counted.
   */
  lemma TwoByTwoScenario()
    ensures DominantColors(TwoByTwo(), []) == ["#ff0000", "#0000ff"]
  {
    var red, blue, clear := Rgba(255, 0, 0, 255), Rgba(0, 0, 255, 255), Rgba(0, 0, 0, 0);
    TwoByTwoPixels();
    RedAndBlueKeys(red, blue);
    ScanTwoOneClear(red, blue, clear, []);
    RankingOfTwo("#ff0000", 2, "#0000ff", 1);
  }

  /** The same image with red ignored ranks blue alone. */
  lemma TwoByTwoIgnoringRed()
    ensures DominantColors(TwoByTwo(), ["#ff0000"]) == ["#0000ff"]
  {
    var red, blue, clear := Rgba(255, 0, 0, 255), Rgba(0, 0, 255, 255), Rgba(0, 0, 0, 0);
    TwoByTwoPixels();
    RedAndBlueKeys(red, blue);
    ScanIgnoredOneClear(red, blue, clear, ["#ff0000"]);
    RankingOfOne("#0000ff", 1);
  }

  /**
    The body of the scan loop for one sample: skip it when it is fully
    transparent or its key is ignored, otherwise add one to its entry,
    creating the entry on first sight.
   */
  method CountSample(table: CountMap, p: Rgba, ignore: seq<string>) returns (table': CountMap)
    requires ValidPixel(p)
    ensures table' == Visit(table, p, ignore)
  {
    table' := table;
    if p.a != 0 {
      var color := RgbaToHex(p.r, p.g, p.b, p.a);
      if color !in ignore {
        if color in table.entries {
          table' := CountMap(table.entries[color := table.entries[color].(count := table.entries[color].count + 1)], table.order);
        } else {
          table' := CountMap(table.entries[color := ColorCount(color, 1)], table.order + [color]);
        }
      }
    }
  }

  /**
    The loop of `getColors`: one pass over the buffer in steps of four,
    building `countMap` sample by sample.
   */
  method CountColors(data: seq<int>, ignore: seq<string>) returns (table: CountMap)
    requires ValidBuffer(data)
    ensures table == Scan(Pixels(data), ignore)
  {
    ghost var px := Pixels(data);
    assert 4 * |px| == |data|;
    table := CountMap(map[], []);
    var i := 0;
    ghost var k := 0;
    while i < |data|
      invariant 0 <= k <= |px| && i == 4 * k
      invariant table == Scan(px[..k], ignore)
    {
      ScanNext(px, k, ignore, table);
      table := CountSample(table, Rgba(data[i], data[i + 1], data[i + 2], data[i + 3]), ignore);
      i, k := i + 4, k + 1;
    }
    assert px[..k] == px;
  }

  /**
    `getColors(data, ignore)`: count the samples that are neither fully
    transparent nor ignored, then list the keys by descending count.
   */
  method GetColors(data: seq<int>, ignore: seq<string>) returns (colors: seq<string>)
    requires ValidBuffer(data)
    ensures colors == DominantColors(data, ignore)
  {
    var table := CountColors(data, ignore);
    ScanCounts(Pixels(data), ignore);
    colors := Ranking(table);
  }

  // ---------------------------------------------------------------------------
  // Options
  // ---------------------------------------------------------------------------

  /** `ExtractColorOptions`: the hex keys to leave out and the rescaling factor. */
  datatype ExtractColorOptions = ExtractColorOptions(ignore: seq<string>, scale: real)

  /** `Partial<ExtractColorOptions>`: each field may be omitted. */
  datatype PartialOptions = PartialOptions(ignore: Option<seq<string>>, scale: Option<real>)

  /** `defaultOptions`: ignore black and white, scale to 30%. */
  const DefaultOptions := ExtractColorOptions(["#000000", "#ffffff"], 0.3)

  /** Every field given. */
  function Complete(o: ExtractColorOptions): PartialOptions {
    PartialOptions(Some(o.ignore), Some(o.scale))
  }

  /** `Object.assign({}, defaultOptions, options)`: a given field wins, an omitted one keeps its default. */
  function MergeOptions(options: PartialOptions): (o: ExtractColorOptions)
    ensures options.ignore.Some? ==> o.ignore == options.ignore.value
    ensures options.ignore.None? ==> o.ignore == DefaultOptions.ignore
    ensures options.scale.Some? ==> o.scale == options.scale.value
    ensures options.scale.None? ==> o.scale == DefaultOptions.scale
  {
    ExtractColorOptions(options.ignore.GetOr(DefaultOptions.ignore), options.scale.GetOr(DefaultOptions.scale))
  }

  /** The options `extractColors` works with; an omitted argument stands for `defaultOptions`. */
  function ResolveOptions(options: Option<PartialOptions>): ExtractColorOptions {
    MergeOptions(options.GetOr(Complete(DefaultOptions)))
  }

  /** Omitting the argument, passing `{}` and passing the defaults all give the defaults. */
  lemma OmittedOptionsAreDefaults()
    ensures ResolveOptions(None) == DefaultOptions
    ensures ResolveOptions(Some(PartialOptions(None, None))) == DefaultOptions
    ensures ResolveOptions(Some(Complete(DefaultOptions))) == DefaultOptions
  {
  }

  /** A complete set of options passes through the merge unchanged, so merging is idempotent. */
  lemma MergeComplete(o: ExtractColorOptions)
    ensures MergeOptions(Complete(o)) == o
    ensures MergeOptions(Complete(MergeOptions(Complete(o)))) == MergeOptions(Complete(o))
  {
  }

  /** The condition under which `extractColors` warns about the scale: outside (0, 1]. */
  predicate ScaleWarning(scale: real) {
    scale > 1.0 || scale <= 0.0
  }

  /** The default scale draws no warning; 0, negative values and values above 1 do. */
  lemma ScaleWarningCases(scale: real)
    ensures !ScaleWarning(DefaultOptions.scale)
    ensures ScaleWarning(scale) <==> !(0.0 < scale <= 1.0)
  {
  }

  /**
    `extractColors(src, options)` once the image is decoded: `data` is the
    buffer `getImageData` returns for the resolved scale. `warned` is whether
    the scale warning is written to the console.
   */
  method ExtractColors(data: seq<int>, options: Option<PartialOptions>) returns (colors: seq<string>, warned: bool)
    requires ValidBuffer(data)
    ensures warned <==> ScaleWarning(ResolveOptions(options).scale)
    ensures colors == DominantColors(data, ResolveOptions(options).ignore)
  {
    var finalOptions := ResolveOptions(options);
    warned := finalOptions.scale > 1.0 || finalOptions.scale <= 0.0;
    colors := GetColors(data, finalOptions.ignore);
  }

  /** With the default options, an image of only black, white and transparent samples has no dominant colour. */
  lemma BlackAndWhiteRankNothing(data: seq<int>)
    requires ValidBuffer(data)
    requires forall k :: 0 <= k < |data| / 4 ==>
               var p := Pixels(data)[k];
               p.a == 0 || (p.a == 255 && p.r == p.g == p.b && (p.r == 0 || p.r == 255))
    ensures DominantColors(data, ResolveOptions(None).ignore) == []
  {
    forall k | 0 <= k < |data| / 4
      ensures !Counted(Pixels(data)[k], DefaultOptions.ignore)
    {
      var p := Pixels(data)[k];
      if p.a != 0 {
        OpaqueKeyIsRgbToHex(p.r, p.g, p.b);
        RgbToHex.BlackAndWhiteHex(p.r);
      }
    }
    NothingCountedRanksNothing(data, DefaultOptions.ignore);
  }
}

# get-dominant-color: a Dafny model of the colour-counting core

This project models the part of `get-dominant-color` that turns a decoded
RGBA pixel buffer into a list of dominant colours, and proves its properties.

- **The hex encoders.** `rgbaToHex` in `src/getDominantColor.ts` and
  `rgbToHex` in `src/utils/rgbToHex.ts` turn 8-bit channels into lowercase
  hex strings.
  - `Hex.ToBase16` models JavaScript's `Number.prototype.toString(16)`.
  - Both encoders are written out as the source computes them: the packed
    integer with its leading `1 << 24` bit, and `(a + 0x10000)` for the
    alpha. The model then proves what the text looks like.
  - `ParseRgb` and `ParseRgba` are decoders that exist only in the model.
    They state the round-trip and injectivity properties.
- **`getColors`.** One pass over the buffer in steps of four.
  - It skips fully transparent samples and samples whose hex key is in the
    ignore list.
  - It keeps the count table `countMap`. `CountMap` holds the entries by key
    plus the keys in insertion order, which is the order `Object.values`
    lists them in, because every key starts with `#`.
  - It then sorts the entries by descending count and returns the keys.
  - The loop is the method `CountColors`, with `CountSample` as its body. It
    is proved against the recursive specification `Scan`, which is built
    from one `Visit` per sample. `GetColors` is proved equal to
    `DominantColors`, and the properties of `DominantColors` are proved as
    lemmas.
- **Options.** `defaultOptions` and the `Object.assign` merge in
  `extractColors`, and the scale warning as a boolean.

The buffer is a `seq<int>` whose length is a multiple of four and whose
entries are bytes: what `getImageData` returns.

Where the specification and the code differ, the model follows the code:

- **Colour values.** The specification describes colours carrying hex, RGB
  and HSL forms, with HSL computed once per distinct colour. The code keeps
  and returns only hex strings.
- **Letter case.** The specification writes the hex form as `#RRGGBB`. The
  code emits lowercase digits, and ignore entries are matched by exact
  string equality.

## Model

| member | source | states |
|---|---|---|
| Hex.ToBase16Split | src/utils/rgbToHex.ts:3 | below a leading part `c >= 1`, `toString(16)` writes every lower digit, zeros included; this is why the `1 << 24` bit forces zero padding |
| Hex.PadValue | src/utils/rgbToHex.ts:3 | a zero-padded rendering of `n` reads back as `n` when `n` fits in the width |
| Hex.ValuePad | src/utils/rgbToHex.ts:3 | a string of hex digits is the zero-padded rendering of its own value |
| RgbToHex.PackedDigits | src/utils/rgbToHex.ts:3 | `((1<<24) + (r<<16) + (g<<8) + b).toString(16)` is `1` followed by the two zero-padded digits of r, g and b |
| RgbToHex.RgbToHex | src/utils/rgbToHex.ts:2-5 | the result is `#` and then the two-digit lowercase forms of r, g and b; it has length 7, starts with `#`, and every later character is a lowercase hex digit |
| RgbToHex.RgbToHexRoundTrip | src/utils/rgbToHex.ts:2-5 | decoding the six digits returns (r, g, b) |
| RgbToHex.ParseRgbCanonical | src/utils/rgbToHex.ts:2-5 | every string the decoder accepts is the encoding of the triple it returns |
| RgbToHex.RgbToHexInjective | src/utils/rgbToHex.ts:2-5 | distinct triples get distinct strings |
| RgbToHex.ExtremeHex | src/utils/rgbToHex.ts:3 | a channel of 0 encodes as `00` and a channel of 255 as `ff` |
| RgbToHex.BlackAndWhiteHex | src/utils/rgbToHex.ts:3 | (0,0,0) encodes as `#000000` and (255,255,255) as `#ffffff`, the two default ignore entries |
| DominantColor.AlphaDigits | src/getDominantColor.ts:36 | `(a + 0x10000).toString(16)` is `100` followed by the two zero-padded digits of `a`, so `slice(-2)` is the padded alpha |
| DominantColor.RgbaToHex | src/getDominantColor.ts:32-38 | the source expression equals `Key`: `#`, then the padded r, g and b, then the padded alpha exactly when `a != 255` |
| DominantColor.RgbaToHexRoundTrip | src/getDominantColor.ts:32-38 | parsing a key gives the sample back; a missing suffix means alpha 255 |
| DominantColor.RgbaToHexFormat | src/getDominantColor.ts:32-38 | a key has 7 characters when alpha is 255 and 9 otherwise; it starts with `#` and the rest are lowercase hex digits |
| DominantColor.ParseRgbaCanonical | src/getDominantColor.ts:32-38 | every string the decoder accepts is the key of the sample it returns |
| DominantColor.RgbaToHexInjective | src/getDominantColor.ts:32-38 | distinct samples in [0,255]^4 get distinct keys |
| DominantColor.OpaqueKeyIsRgbToHex | src/getDominantColor.ts:33-37 | `rgbaToHex(r, g, b, 255)` equals `rgbToHex(r, g, b)` |
| DominantColor.TranslucentBlackKey | src/getDominantColor.ts:72-76 | a translucent black keeps its alpha suffix (`#00000080` for alpha 0x80), so it is not in the default ignore list |
| DominantColor.TallyCounts | src/getDominantColor.ts:78-85 | creating or incrementing an entry keeps the table well formed and adds one to that key's count only |
| DominantColor.VisitCounts | src/getDominantColor.ts:63-86 | one turn of the loop adds one to the count of the sample's key when the sample is counted; every other count stays the same |
| DominantColor.ScanCounts | src/getDominantColor.ts:60-86 | the table is well formed (each key listed once, the entry's `color` equals its key, every count >= 1); each key's count is the number of counted samples with that key |
| DominantColor.ScanKeys | src/getDominantColor.ts:60-86 | a key is in the table exactly when some counted sample has it, and its entry holds that number |
| DominantColor.IgnoredNeverCounted | src/getDominantColor.ts:74-76 | an ignored key is never counted and never gets an entry |
| DominantColor.TransparentPixelIgnored | src/getDominantColor.ts:64-67 | removing a fully transparent sample from anywhere in the buffer leaves the table unchanged |
| DominantColor.TallyTotal | src/getDominantColor.ts:78-85 | each sighting adds exactly one to the sum of the counts |
| DominantColor.VisitTotal | src/getDominantColor.ts:63-86 | one turn of the loop adds one to the total exactly when it counts the sample |
| DominantColor.ScanTotal | src/getDominantColor.ts:60-86 | conservation: the counts sum to the number of samples that are neither transparent nor ignored |
| DominantColor.SortByCount | src/getDominantColor.ts:90 | the sort returns a permutation of the entries |
| DominantColor.SortByCountSorted | src/getDominantColor.ts:90 | the sort leaves the entries in non-increasing order of count |
| DominantColor.SortByCountDistinct | src/getDominantColor.ts:90 | the sort repeats no colour when its input repeats none |
| DominantColor.RankingSpec | src/getDominantColor.ts:89-91 | the ranking lists every key of the table exactly once and nothing else, in non-increasing order of count |
| DominantColor.DominantColorsSpec | src/getDominantColor.ts:59-92 | a key is in the result exactly when some counted sample has it; no ignored key appears; no key repeats; occurrence counts are non-increasing along the result |
| DominantColor.NothingCountedRanksNothing | src/getDominantColor.ts:59-92 | an empty, all-transparent or all-ignored buffer gives an empty result |
| DominantColor.TwoByTwoScenario | src/getDominantColor.ts:59-92 | a 2x2 image with red twice, blue once and one transparent sample gives `["#ff0000", "#0000ff"]` |
| DominantColor.TwoByTwoIgnoringRed | src/getDominantColor.ts:74-76 | the same image with `#ff0000` ignored gives `["#0000ff"]` |
| DominantColor.CountSample | src/getDominantColor.ts:64-85 | the loop body skips a transparent or ignored sample, and otherwise increments or creates its entry; the new table is one `Visit` of the old |
| DominantColor.CountColors | src/getDominantColor.ts:60-86 | the loop leaves `countMap` equal to the scan of all samples of the buffer |
| DominantColor.GetColors | src/getDominantColor.ts:59-92 | `getColors` returns `DominantColors(data, ignore)`, whose properties `DominantColorsSpec` states |
| DominantColor.MergeOptions | src/getDominantColor.ts:127 | a given field overrides the default; an omitted field takes the default |
| DominantColor.OmittedOptionsAreDefaults | src/getDominantColor.ts:94-98 | an omitted argument, `{}` and the defaults themselves all resolve to `ignore = ["#000000", "#ffffff"]` and `scale = 0.3` |
| DominantColor.MergeComplete | src/getDominantColor.ts:127 | complete options pass through the merge unchanged, so merging twice is merging once |
| DominantColor.ScaleWarningCases | src/getDominantColor.ts:130-134 | the warning fires exactly when the scale is outside (0, 1], and never for the default 0.3 |
| DominantColor.ExtractColors | src/getDominantColor.ts:123-138 | warns exactly when the resolved scale is outside (0, 1] and returns the ranking of the buffer under the resolved ignore list |
| DominantColor.BlackAndWhiteRankNothing | src/getDominantColor.ts:94-98 | with the default options, an image of only black, white and fully transparent samples has no dominant colour |

## Left out

- **Image decoding and rescaling.** `getImageData` and `getContext` (src/getDominantColor.ts:40-57) call the external `canvas` library, are asynchronous and compute `width * scale` in floating point. The buffer they return is an input here, and `src` does not appear.
- **The scale warning.** `console.warn` is modelled only as the boolean `warned`. The scale is a `real`, so floating-point comparison is not modelled.
- **`src/utils/rgbToHsl.ts` is not part of this model.** It is floating-point arithmetic with rounding, and the extraction path never calls it.
- **`src/index.ts` is not part of this model.** It is command-line I/O: directory listing, file reads, the output stream and the spinner.
- **The `undefined` guard at src/getDominantColor.ts:68-71.** It cannot fire on a buffer whose length is a multiple of four, which `ValidBuffer` requires, as a `Uint8ClampedArray` from the canvas always is.
- **Channel values outside [0,255].** The encoders require bytes. JavaScript's 32-bit shifts are modelled as multiplications, which agree with the shifts exactly on that range.
- DominantColor.SortByCountSorted: tie order among equal counts is not stated. It depends on key insertion order and sort stability. The model's insertion sort is stable, but only permutation and non-increasing counts are claimed.
- **Explicit `undefined` option fields.** An explicit `{ scale: undefined }` would override the default under `Object.assign`. Only present and absent fields are modelled.

/** RGBA rasters and colour keys shared by every part of the script.
    A raster is a flat sequence of channel values, four per pixel (red,
    green, blue, alpha), row by row, as in a canvas `ImageData.data`. */
module Pixels {
  import opened Wrappers
  import opened Text

  predicate IsByte(n: int) { 0 <= n < 256 }

  datatype Rgb = Rgb(r: int, g: int, b: int)

  predicate IsByteRgb(c: Rgb) { IsByte(c.r) && IsByte(c.g) && IsByte(c.b) }

  /** `#deface`, the colour upstream tools use to mean "transparent". */
  const Sentinel: Rgb := Rgb(0xDE, 0xFA, 0xCE)

  predicate IsRgba(s: seq<int>) {
    |s| % 4 == 0 && forall i | 0 <= i < |s| :: IsByte(s[i])
  }

  function ColorAt(s: seq<int>, p: nat): Rgb
    requires 4 * p + 3 < |s|
  {
    Rgb(s[4 * p], s[4 * p + 1], s[4 * p + 2])
  }

  function AlphaAt(s: seq<int>, p: nat): int
    requires 4 * p + 3 < |s|
  {
    s[4 * p + 3]
  }

  /** The four channels of one pixel. */
  function Px(c: Rgb, a: int): seq<int> { [c.r, c.g, c.b, a] }

  const Clear: seq<int> := [0, 0, 0, 0]

  /** A decoded image: its `src` (the data URL it was loaded from), its size
      and its pixels. */
  datatype Image = Image(src: string, width: nat, height: nat, data: seq<int>)

  predicate ValidImage(img: Image) {
    |img.data| == 4 * (img.width * img.height) && IsRgba(img.data)
  }

  /** The colour key `${r},${g},${b}` the script uses for colour maps. */
  function RgbKey(c: Rgb): string {
    Join([IntToDec(c.r), IntToDec(c.g), IntToDec(c.b)], ',')
  }

  /** Channel `i` of `key.split(',').map(n => parseInt(n, 10))`; `None` is
      `NaN`, or `undefined` when the key has fewer parts. */
  function KeyChannel(key: string, i: nat): Option<int> {
    var parts := Split(key, ',');
    if i < |parts| then ParseIntJs(parts[i]) else None
  }

  lemma RgbKeyParts(c: Rgb)
    ensures Split(RgbKey(c), ',') == [IntToDec(c.r), IntToDec(c.g), IntToDec(c.b)]
  {
    var parts := [IntToDec(c.r), IntToDec(c.g), IntToDec(c.b)];
    forall k | 0 <= k < 3 ensures ',' !in parts[k] {
    }
    Text.SplitJoin(parts, ',');
  }

  /** Parsing a key gives back its channels. */
  lemma RgbKeyRoundTrip(c: Rgb)
    ensures KeyChannel(RgbKey(c), 0) == Some(c.r)
    ensures KeyChannel(RgbKey(c), 1) == Some(c.g)
    ensures KeyChannel(RgbKey(c), 2) == Some(c.b)
    ensures |Split(RgbKey(c), ',')| == 3
  {
    var parts := Split(RgbKey(c), ',');
    RgbKeyParts(c);
    assert KeyChannel(RgbKey(c), 0) == ParseIntJs(IntToDec(c.r)) by {
      assert parts[0] == IntToDec(c.r);
    }
    assert KeyChannel(RgbKey(c), 1) == ParseIntJs(IntToDec(c.g)) by {
      assert parts[1] == IntToDec(c.g);
    }
    assert KeyChannel(RgbKey(c), 2) == ParseIntJs(IntToDec(c.b)) by {
      assert parts[2] == IntToDec(c.b);
    }
    Text.ParseIntJsDec(c.r);
    Text.ParseIntJsDec(c.g);
    Text.ParseIntJsDec(c.b);
  }

  /** Distinct colours have distinct keys, so a map keyed by `RgbKey` strings
      is a map keyed by colours. */
  lemma RgbKeyInjective(c1: Rgb, c2: Rgb)
    requires RgbKey(c1) == RgbKey(c2)
    ensures c1 == c2
  {
    RgbKeyRoundTrip(c1);
    RgbKeyRoundTrip(c2);
  }
}

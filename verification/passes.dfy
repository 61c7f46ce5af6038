/** The per-pixel passes of the tile renderer that rewrite a canvas buffer
    in place: the full-overlay pass and the dots pass. */
module Passes {
  import opened Wrappers
  import opened Pixels

  /** Storing into a `Uint8ClampedArray`: values clamp to 0..255. */
  function Clamp255(v: int): (r: int)
    ensures IsByte(r)
    ensures IsByte(v) ==> r == v
  {
    if v < 0 then 0 else if v > 255 then 255 else v
  }

  /** `Math.round(x)`: halves round up. */
  function Round(x: real): int {
    (x + 0.5).Floor
  }

  /** `Math.round(c * colorStrength + 255 * whiteStrength)`, stored clamped,
      with `whiteStrength = 1 - colorStrength`. */
  function Blend(c: int, s: real): (v: int)
    ensures IsByte(v)
    ensures IsByte(c) && s == 1.0 ==> v == c
    ensures IsByte(c) && 0.0 <= s <= 1.0 ==> c <= v
  {
    var x := c as real * s + 255.0 * (1.0 - s);
    if IsByte(c) && 0.0 <= s <= 1.0 then
      assert x == c as real + (255.0 - c as real) * (1.0 - s);
      ProductNonNegative(255.0 - c as real, 1.0 - s);
      Clamp255(Round(x))
    else Clamp255(Round(x))
  }

  lemma ProductNonNegative(x: real, y: real)
    requires x >= 0.0 && y >= 0.0
    ensures x * y >= 0.0
  {
  }

  function BlendRgb(c: Rgb, s: real): (d: Rgb)
    ensures IsByteRgb(d)
    ensures IsByteRgb(c) && s == 1.0 ==> d == c
  {
    Rgb(Blend(c.r, s), Blend(c.g, s), Blend(c.b, s))
  }

  /** `cf && cf["r,g,b"] === false`: the colour filter switches the colour off. */
  predicate Filtered(cf: Option<map<Rgb, bool>>, c: Rgb) {
    cf.Some? && c in cf.value && !cf.value[c]
  }

  /** Channel `k` of pixel `p` of `after` is channel `k` of `px`. */
  predicate PixelIs(after: seq<int>, p: nat, px: seq<int>)
    requires |px| == 4
  {
    4 * p + 3 < |after| &&
    after[4 * p] == px[0] && after[4 * p + 1] == px[1] && after[4 * p + 2] == px[2] && after[4 * p + 3] == px[3]
  }

  // ---------------------------------------------------------------------------
  // Full overlay ('behind' and 'above').

  /** What the full-overlay pass makes of one pixel. */
  function FullPixel(c: Rgb, a: int, cf: Option<map<Rgb, bool>>, s: real): (px: seq<int>)
    ensures |px| == 4
    ensures c == Sentinel ==> px == Px(c, a)
    ensures c != Sentinel && Filtered(cf, c) ==> px == Px(c, 0)
    ensures c != Sentinel && !Filtered(cf, c) && a > 0 ==> px[3] == 255 && IsByteRgb(ColorAt(px, 0))
    ensures c != Sentinel && !Filtered(cf, c) && a > 0 && s == 1.0 && IsByteRgb(c) ==> px == Px(c, 255)
    ensures !Filtered(cf, c) && a <= 0 ==> px == Px(c, a)
  {
    if c == Sentinel then Px(c, a)
    else if Filtered(cf, c) then Px(c, 0)
    else if a > 0 then Px(BlendRgb(c, s), 255)
    else Px(c, a)
  }

  ghost predicate FullDone(before: seq<int>, after: seq<int>, cf: Option<map<Rgb, bool>>, s: real, n: nat)
    requires 4 * n <= |before|
  {
    forall p | 0 <= p < n :: PixelIs(after, p, FullPixel(ColorAt(before, p), AlphaAt(before, p), cf, s))
  }

  /** `after` agrees with `prev` outside pixel `k`. */
  predicate SameOutside(prev: seq<int>, after: seq<int>, k: nat) {
    |prev| == |after| &&
    forall j | 0 <= j < |after| && (j < 4 * k || j >= 4 * k + 4) :: after[j] == prev[j]
  }

  lemma FullStep(before: seq<int>, prev: seq<int>, after: seq<int>, cf: Option<map<Rgb, bool>>, s: real, k: nat)
    requires 4 * k + 3 < |before| == |prev|
    requires FullDone(before, prev, cf, s, k)
    requires SameOutside(prev, after, k)
    requires PixelIs(after, k, FullPixel(ColorAt(before, k), AlphaAt(before, k), cf, s))
    ensures FullDone(before, after, cf, s, k + 1)
  {
    forall p | 0 <= p < k + 1
      ensures PixelIs(after, p, FullPixel(ColorAt(before, p), AlphaAt(before, p), cf, s))
    {
      if p < k {
        assert PixelIs(prev, p, FullPixel(ColorAt(before, p), AlphaAt(before, p), cf, s));
      }
    }
  }

  /** The loop over `imageData.data` of the full-overlay branch. */
  method FullOverlayPass(data: array<int>, cf: Option<map<Rgb, bool>>, s: real)
    requires data.Length % 4 == 0
    modifies data
    ensures FullDone(old(data[..]), data[..], cf, s, data.Length / 4)
  {
    ghost var before := data[..];
    var n := data.Length / 4;
    var k := 0;
    while k < n
      invariant 0 <= k <= n
      invariant FullDone(before, data[..], cf, s, k)
      invariant forall j | 4 * k <= j < data.Length :: data[j] == before[j]
    {
      var i := 4 * k;
      ghost var prev := data[..];
      var r, g, b, a := data[i], data[i + 1], data[i + 2], data[i + 3];
      if r == 0xDE && g == 0xFA && b == 0xCE {
        // #deface is left as it is
      } else if Filtered(cf, Rgb(r, g, b)) {
        data[i + 3] := 0;
      } else if a > 0 {
        data[i] := Blend(r, s);
        data[i + 1] := Blend(g, s);
        data[i + 2] := Blend(b, s);
        data[i + 3] := 255;
      }
      FullStep(before, prev, data[..], cf, s, k);
      k := k + 1;
    }
  }

  // ---------------------------------------------------------------------------
  // Dots (minify mode, 'dots' style).

  /** JavaScript's `a % m` for `m > 0`: the remainder takes the sign of `a`. */
  function JsRem(a: int, m: int): (r: int)
    requires m > 0
    ensures a >= 0 ==> r == a % m
    ensures -m < r < m
  {
    if a >= 0 then a % m else -((-a) % m)
  }

  /** What the dots pass makes of one pixel at canvas position (absX, absY):
      only the pixel at the centre of each `scale`-sized block stays. */
  function DotsPixel(c: Rgb, a: int, absX: int, absY: int, scale: int, cf: Option<map<Rgb, bool>>, s: real): (px: seq<int>)
    requires scale >= 1
    ensures |px| == 4
    ensures a == 0 ==> px == Px(c, a)
    ensures a != 0 && px[3] != 0 ==>
      !Filtered(cf, c) && JsRem(absX, scale) == scale / 2 && JsRem(absY, scale) == scale / 2 &&
      px[3] == 255 && (s == 1.0 && IsByteRgb(c) ==> px == Px(c, 255))
    ensures a != 0 && (Filtered(cf, c) || JsRem(absX, scale) != scale / 2 || JsRem(absY, scale) != scale / 2) ==>
      px == Clear
    ensures a != 0 && !Filtered(cf, c) && JsRem(absX, scale) == scale / 2 && JsRem(absY, scale) == scale / 2 ==>
      px == Px(BlendRgb(c, s), 255)
  {
    var center := scale / 2;
    if a == 0 then Px(c, a)
    else if Filtered(cf, c) then Clear
    else if JsRem(absX, scale) == center && JsRem(absY, scale) == center then Px(BlendRgb(c, s), 255)
    else Clear
  }

  ghost predicate DotsDone(before: seq<int>, after: seq<int>, x0: int, y0: int, width: int, scale: int,
                           cf: Option<map<Rgb, bool>>, s: real, n: nat)
    requires 4 * n <= |before| && width > 0 && scale >= 1
  {
    forall p | 0 <= p < n ::
      PixelIs(after, p, DotsPixel(ColorAt(before, p), AlphaAt(before, p), x0 + p % width, y0 + p / width, scale, cf, s))
  }

  lemma DotsStep(before: seq<int>, prev: seq<int>, after: seq<int>, x0: int, y0: int, width: int, scale: int,
                 cf: Option<map<Rgb, bool>>, s: real, k: nat)
    requires 4 * k + 3 < |before| == |prev| && width > 0 && scale >= 1
    requires DotsDone(before, prev, x0, y0, width, scale, cf, s, k)
    requires SameOutside(prev, after, k)
    requires PixelIs(after, k, DotsPixel(ColorAt(before, k), AlphaAt(before, k), x0 + k % width, y0 + k / width, scale, cf, s))
    ensures DotsDone(before, after, x0, y0, width, scale, cf, s, k + 1)
  {
    forall p | 0 <= p < k + 1
      ensures PixelIs(after, p, DotsPixel(ColorAt(before, p), AlphaAt(before, p), x0 + p % width, y0 + p / width, scale, cf, s))
    {
      if p < k {
        assert PixelIs(prev, p, DotsPixel(ColorAt(before, p), AlphaAt(before, p), x0 + p % width, y0 + p / width, scale, cf, s));
      }
    }
  }

  /** The loop over `imageData.data` of the dots branch; the buffer is the
      `width`-wide region whose top-left corner sits at (x0, y0). */
  method DotsPass(data: array<int>, x0: int, y0: int, width: int, scale: int, cf: Option<map<Rgb, bool>>, s: real)
    requires data.Length % 4 == 0 && width > 0 && scale >= 1
    modifies data
    ensures DotsDone(old(data[..]), data[..], x0, y0, width, scale, cf, s, data.Length / 4)
  {
    ghost var before := data[..];
    var center := scale / 2;
    var n := data.Length / 4;
    var k := 0;
    while k < n
      invariant 0 <= k <= n
      invariant DotsDone(before, data[..], x0, y0, width, scale, cf, s, k)
      invariant forall j | 4 * k <= j < data.Length :: data[j] == before[j]
    {
      var i := 4 * k;
      ghost var prev := data[..];
      var a := data[i + 3];
      if a != 0 {
        var r, g, b := data[i], data[i + 1], data[i + 2];
        if Filtered(cf, Rgb(r, g, b)) {
          data[i], data[i + 1], data[i + 2], data[i + 3] := 0, 0, 0, 0;
        } else {
          var px := k % width;
          var py := k / width;
          var absX := x0 + px;
          var absY := y0 + py;
          if JsRem(absX, scale) == center && JsRem(absY, scale) == center {
            data[i] := Blend(r, s);
            data[i + 1] := Blend(g, s);
            data[i + 2] := Blend(b, s);
            data[i + 3] := 255;
          } else {
            data[i], data[i + 1], data[i + 2], data[i + 3] := 0, 0, 0, 0;
          }
        }
      }
      DotsStep(before, prev, data[..], x0, y0, width, scale, cf, s, k);
      k := k + 1;
    }
  }
}

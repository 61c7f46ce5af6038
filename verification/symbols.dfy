/** The symbols style of minify mode: every sufficiently opaque overlay pixel
    is stamped, scaled up, as the bitmap glyph of its palette colour. The
    output is specified as the ordered sequence of pixel writes the nested
    loops perform, so overlapping glyphs resolve exactly as in the loops. */
module Symbols {
  import opened Wrappers
  import opened Pixels
  import opened Geometry
  import opened Quantizer
  import opened Passes

  /** Everything the loops read. `scale` is `MINIFY_SCALE_SYMBOL`, `tiles`
      is `SYMBOL_TILES`, the output canvas is `tileW` x `tileH`. */
  datatype SymbolCtx = SymbolCtx(
    palette: seq<Rgb>, tiles: seq<int>, symW: nat, symH: nat, scale: nat,
    tileW: nat, tileH: nat, perfect: bool, cf: Option<map<Rgb, bool>>,
    img: Image, drawX: int, drawY: int)

  predicate ValidCtx(ctx: SymbolCtx) {
    ValidPalette(ctx.palette) && ValidImage(ctx.img) && ctx.scale >= 1
  }

  /** `(scale - SYMBOL_W) >> 1` and the same for the height: an arithmetic
      shift, i.e. floor division by two. */
  function CenterX(ctx: SymbolCtx): int { (ctx.scale - ctx.symW) / 2 }
  function CenterY(ctx: SymbolCtx): int { (ctx.scale - ctx.symH) / 2 }

  function Pow2(k: nat): (p: nat)
    ensures p >= 1
  {
    if k == 0 then 1 else 2 * Pow2(k - 1)
  }

  /** `(symbol >>> k) & 1`: `>>>` first reduces `symbol` to 32 bits and the
      shift count to 0..31. */
  function Bit(symbol: int, k: nat): (bit: int)
    ensures bit == 0 || bit == 1
  {
    ((symbol % 0x1_0000_0000) / Pow2(k % 32)) % 2
  }

  lemma RowMajor(x: int, y: int, w: int, h: int)
    requires 0 <= x < w && 0 <= y < h
    ensures 0 <= y * w + x < w * h
  {
    assert y * w <= (h - 1) * w;
  }

  /** The overlay pixel under tile position (x, y). */
  function SourcePixel(ctx: SymbolCtx, x: int, y: int): (p: nat)
    requires ValidImage(ctx.img)
    requires ctx.drawX <= x < ctx.drawX + ctx.img.width && ctx.drawY <= y < ctx.drawY + ctx.img.height
    ensures 4 * p + 3 < |ctx.img.data|
  {
    RowMajor(x - ctx.drawX, y - ctx.drawY, ctx.img.width, ctx.img.height);
    (y - ctx.drawY) * ctx.img.width + (x - ctx.drawX)
  }

  /** The palette index of a colour: an exact lookup in `colorIndexMap` for
      palette-perfect images (`?? 0` when absent), the lookup table otherwise. */
  function ColorIndex(ctx: SymbolCtx, c: Rgb): (k: nat)
    requires ValidPalette(ctx.palette) && IsByteRgb(c)
    ensures k < |ctx.palette|
  {
    if ctx.perfect then
      var m := IndexMapOf(ctx.palette);
      if c in m then IndexMapOfSpec(ctx.palette, c); m[c] else 0
    else NearestIndex(ctx.palette, CellColor(c.r / 8, c.g / 8, c.b / 8))
  }

  /** One write into the output canvas, dropped when outside it. */
  function WritePx(buf: seq<int>, w: nat, h: nat, ox: int, oy: int, c: Rgb): (out: seq<int>)
    requires |buf| == 4 * (w * h)
    ensures |out| == |buf|
  {
    if 0 <= ox < w && 0 <= oy < h then
      RowMajor(ox, oy, w, h);
      var o := 4 * (oy * w + ox);
      buf[o := c.r][o + 1 := c.g][o + 2 := c.b][o + 3 := 255]
    else buf
  }

  /** A glyph stamp of `symbol` in colour `c` for the overlay pixel at tile
      position (x, y). */
  datatype Stamp = Stamp(x: int, y: int, symbol: int, c: Rgb)

  /** Bit (sy, sx) of the glyph. */
  function StampBit(buf: seq<int>, ctx: SymbolCtx, st: Stamp, sy: nat, sx: nat): (out: seq<int>)
    requires |buf| == 4 * (ctx.tileW * ctx.tileH)
    ensures |out| == |buf|
  {
    if Bit(st.symbol, sy * ctx.symW + sx) == 1 then
      WritePx(buf, ctx.tileW, ctx.tileH,
              st.x * ctx.scale + sx + CenterX(ctx), st.y * ctx.scale + sy + CenterY(ctx), st.c)
    else buf
  }

  /** Columns 0..n-1 of glyph row `sy`. */
  function StampRow(buf: seq<int>, ctx: SymbolCtx, st: Stamp, sy: nat, n: nat): (out: seq<int>)
    requires |buf| == 4 * (ctx.tileW * ctx.tileH)
    ensures |out| == |buf|
  {
    if n == 0 then buf else StampBit(StampRow(buf, ctx, st, sy, n - 1), ctx, st, sy, n - 1)
  }

  /** Glyph rows 0..m-1. */
  function StampRows(buf: seq<int>, ctx: SymbolCtx, st: Stamp, m: nat): (out: seq<int>)
    requires |buf| == 4 * (ctx.tileW * ctx.tileH)
    ensures |out| == |buf|
  {
    if m == 0 then buf else StampRow(StampRows(buf, ctx, st, m - 1), ctx, st, m - 1, ctx.symW)
  }

  /** Whether the pixel at tile position (x, y) is stamped: not for alpha
      <= 128, #deface, a filtered colour or an index without a glyph. */
  predicate Stamped(ctx: SymbolCtx, x: int, y: int)
    requires ValidCtx(ctx)
    requires ctx.drawX <= x < ctx.drawX + ctx.img.width && ctx.drawY <= y < ctx.drawY + ctx.img.height
  {
    var p := SourcePixel(ctx, x, y);
    var c := ColorAt(ctx.img.data, p);
    AlphaAt(ctx.img.data, p) > 128 && c != Sentinel && !Filtered(ctx.cf, c) &&
    ColorIndex(ctx, c) < |ctx.tiles|
  }

  function StampFor(ctx: SymbolCtx, x: int, y: int): (st: Stamp)
    requires ValidCtx(ctx)
    requires ctx.drawX <= x < ctx.drawX + ctx.img.width && ctx.drawY <= y < ctx.drawY + ctx.img.height
    requires Stamped(ctx, x, y)
    ensures st.c in ctx.palette
  {
    var k := ColorIndex(ctx, ColorAt(ctx.img.data, SourcePixel(ctx, x, y)));
    Stamp(x, y, ctx.tiles[k], ctx.palette[k])
  }

  /** The body of the inner loop for tile position (x, y). */
  function Cell(buf: seq<int>, ctx: SymbolCtx, x: int, y: int): (out: seq<int>)
    requires ValidCtx(ctx) && |buf| == 4 * (ctx.tileW * ctx.tileH)
    requires ctx.drawX <= x < ctx.drawX + ctx.img.width && ctx.drawY <= y < ctx.drawY + ctx.img.height
    ensures |out| == |buf|
  {
    if Stamped(ctx, x, y) then StampRows(buf, ctx, StampFor(ctx, x, y), ctx.symH) else buf
  }

  /** The region the loops visit: inside the overlay image's placement. */
  predicate InImage(ctx: SymbolCtx, r: Rect) {
    r.w >= 0 && r.h >= 0 &&
    ctx.drawX <= r.x && r.x + r.w <= ctx.drawX + ctx.img.width &&
    ctx.drawY <= r.y && r.y + r.h <= ctx.drawY + ctx.img.height
  }

  /** Row `y` of the region, columns r.x .. x-1. */
  function CellRow(buf: seq<int>, ctx: SymbolCtx, r: Rect, y: int, x: int): (out: seq<int>)
    requires ValidCtx(ctx) && |buf| == 4 * (ctx.tileW * ctx.tileH) && InImage(ctx, r)
    requires r.y <= y < r.y + r.h && r.x <= x <= r.x + r.w
    ensures |out| == |buf|
    decreases x - r.x
  {
    if x == r.x then buf else Cell(CellRow(buf, ctx, r, y, x - 1), ctx, x - 1, y)
  }

  /** Rows r.y .. y-1 of the region. */
  function CellRows(buf: seq<int>, ctx: SymbolCtx, r: Rect, y: int): (out: seq<int>)
    requires ValidCtx(ctx) && |buf| == 4 * (ctx.tileW * ctx.tileH) && InImage(ctx, r)
    requires r.y <= y <= r.y + r.h
    ensures |out| == |buf|
    decreases y - r.y
  {
    if y == r.y then buf else CellRow(CellRows(buf, ctx, r, y - 1), ctx, r, y - 1, r.x + r.w)
  }

  // ---------------------------------------------------------------------------
  // The loops.

  /** The bounds-checked write of one glyph pixel. */
  method PutPixel(out: array<int>, w: nat, h: nat, outX: int, outY: int, c: Rgb)
    requires out.Length == 4 * (w * h)
    modifies out
    ensures out[..] == WritePx(old(out[..]), w, h, outX, outY, c)
  {
    if 0 <= outX < w && 0 <= outY < h {
      RowMajor(outX, outY, w, h);
      var outIdx := (outY * w + outX) * 4;
      out[outIdx] := c.r;
      out[outIdx + 1] := c.g;
      out[outIdx + 2] := c.b;
      out[outIdx + 3] := 255;
    }
  }

  /** The `sx` loop for glyph row `sy`. */
  method StampGlyphRow(out: array<int>, ctx: SymbolCtx, st: Stamp, sy: nat)
    requires out.Length == 4 * (ctx.tileW * ctx.tileH)
    modifies out
    ensures out[..] == StampRow(old(out[..]), ctx, st, sy, ctx.symW)
  {
    ghost var rowStart := out[..];
    var centerX, centerY := CenterX(ctx), CenterY(ctx);
    var tileX, tileY := st.x * ctx.scale, st.y * ctx.scale;
    var sx := 0;
    while sx < ctx.symW
      invariant 0 <= sx <= ctx.symW
      invariant out[..] == StampRow(rowStart, ctx, st, sy, sx)
    {
      ghost var prev := out[..];
      var bitIdx := sy * ctx.symW + sx;
      var bit := Bit(st.symbol, bitIdx);
      if bit == 1 {
        var outX := tileX + sx + centerX;
        var outY := tileY + sy + centerY;
        PutPixel(out, ctx.tileW, ctx.tileH, outX, outY, st.c);
      }
      assert out[..] == StampBit(prev, ctx, st, sy, sx);
      sx := sx + 1;
    }
  }

  /** The `sy`/`sx` loops stamping one glyph. */
  method StampGlyph(out: array<int>, ctx: SymbolCtx, st: Stamp)
    requires out.Length == 4 * (ctx.tileW * ctx.tileH)
    modifies out
    ensures out[..] == StampRows(old(out[..]), ctx, st, ctx.symH)
  {
    ghost var start := out[..];
    var sy := 0;
    while sy < ctx.symH
      invariant 0 <= sy <= ctx.symH
      invariant out[..] == StampRows(start, ctx, st, sy)
    {
      StampGlyphRow(out, ctx, st, sy);
      sy := sy + 1;
    }
  }

  /** The body of the inner loop, for the image pixel under `(x, y)`. */
  method SymbolCell(out: array<int>, ctx: SymbolCtx, x: int, y: int)
    requires ValidCtx(ctx) && out.Length == 4 * (ctx.tileW * ctx.tileH)
    requires ctx.drawX <= x < ctx.drawX + ctx.img.width && ctx.drawY <= y < ctx.drawY + ctx.img.height
    modifies out
    ensures out[..] == Cell(old(out[..]), ctx, x, y)
  {
    var imgY := y - ctx.drawY;
    var imgX := x - ctx.drawX;
    RowMajor(imgX, imgY, ctx.img.width, ctx.img.height);
    var idx := (imgY * ctx.img.width + imgX) * 4;
    var c := Rgb(ctx.img.data[idx], ctx.img.data[idx + 1], ctx.img.data[idx + 2]);
    var a := ctx.img.data[idx + 3];
    assert c == ColorAt(ctx.img.data, SourcePixel(ctx, x, y));
    if a <= 128 || (c.r == 0xDE && c.g == 0xFA && c.b == 0xCE) {
      // transparent or #deface
    } else if Filtered(ctx.cf, c) {
    } else {
      var colorIndex := ColorIndex(ctx, c);
      if colorIndex < |ctx.tiles| {
        StampGlyph(out, ctx, Stamp(x, y, ctx.tiles[colorIndex], ctx.palette[colorIndex]));
      }
    }
  }

  /** One row of the region. */
  method SymbolRow(out: array<int>, ctx: SymbolCtx, r: Rect, y: int)
    requires ValidCtx(ctx) && InImage(ctx, r) && r.y <= y < r.y + r.h
    requires out.Length == 4 * (ctx.tileW * ctx.tileH)
    modifies out
    ensures out[..] == CellRow(old(out[..]), ctx, r, y, r.x + r.w)
  {
    ghost var rowStart := out[..];
    var x := r.x;
    while x < r.x + r.w
      invariant r.x <= x <= r.x + r.w
      invariant out[..] == CellRow(rowStart, ctx, r, y, x)
    {
      SymbolCell(out, ctx, x, y);
      x := x + 1;
    }
  }

  /** The `y`/`x` loops over the unscaled intersection `r`. */
  method SymbolsPass(out: array<int>, ctx: SymbolCtx, r: Rect)
    requires ValidCtx(ctx) && InImage(ctx, r)
    requires out.Length == 4 * (ctx.tileW * ctx.tileH)
    modifies out
    ensures out[..] == CellRows(old(out[..]), ctx, r, r.y + r.h)
  {
    ghost var start := out[..];
    var y := r.y;
    while y < r.y + r.h
      invariant r.y <= y <= r.y + r.h
      invariant out[..] == CellRows(start, ctx, r, y)
    {
      SymbolRow(out, ctx, r, y);
      y := y + 1;
    }
  }

  // ---------------------------------------------------------------------------
  // What the output holds.

  /** Every output pixel is either untouched transparent black or a palette
      colour at full opacity. */
  predicate OnlyPaletteInk(buf: seq<int>, palette: seq<Rgb>) {
    |buf| % 4 == 0 &&
    forall p | 0 <= p < |buf| / 4 ::
      (Px(ColorAt(buf, p), AlphaAt(buf, p)) == Clear) ||
      (AlphaAt(buf, p) == 255 && ColorAt(buf, p) in palette)
  }

  lemma WritePxInk(buf: seq<int>, w: nat, h: nat, ox: int, oy: int, c: Rgb, palette: seq<Rgb>)
    requires |buf| == 4 * (w * h) && OnlyPaletteInk(buf, palette) && c in palette
    ensures OnlyPaletteInk(WritePx(buf, w, h, ox, oy, c), palette)
  {
    if 0 <= ox < w && 0 <= oy < h {
      RowMajor(ox, oy, w, h);
      var q := oy * w + ox;
      var out := WritePx(buf, w, h, ox, oy, c);
      forall p | 0 <= p < |out| / 4
        ensures (Px(ColorAt(out, p), AlphaAt(out, p)) == Clear) || (AlphaAt(out, p) == 255 && ColorAt(out, p) in palette)
      {
        if p != q {
          assert ColorAt(out, p) == ColorAt(buf, p) && AlphaAt(out, p) == AlphaAt(buf, p);
        } else {
          assert ColorAt(out, p) == c && AlphaAt(out, p) == 255;
        }
      }
    }
  }

  lemma {:induction false} StampRowsInk(buf: seq<int>, ctx: SymbolCtx, st: Stamp, m: nat)
    requires |buf| == 4 * (ctx.tileW * ctx.tileH) && OnlyPaletteInk(buf, ctx.palette)
    requires st.c in ctx.palette && m <= ctx.symH
    ensures OnlyPaletteInk(StampRows(buf, ctx, st, m), ctx.palette)
  {
    if m > 0 {
      StampRowsInk(buf, ctx, st, m - 1);
      StampRowInk(StampRows(buf, ctx, st, m - 1), ctx, st, m - 1, ctx.symW);
    }
  }

  lemma {:induction false} StampRowInk(buf: seq<int>, ctx: SymbolCtx, st: Stamp, sy: nat, n: nat)
    requires |buf| == 4 * (ctx.tileW * ctx.tileH) && OnlyPaletteInk(buf, ctx.palette)
    requires st.c in ctx.palette
    ensures OnlyPaletteInk(StampRow(buf, ctx, st, sy, n), ctx.palette)
  {
    if n > 0 {
      StampRowInk(buf, ctx, st, sy, n - 1);
      var prev := StampRow(buf, ctx, st, sy, n - 1);
      if Bit(st.symbol, sy * ctx.symW + (n - 1)) == 1 {
        WritePxInk(prev, ctx.tileW, ctx.tileH,
                   st.x * ctx.scale + (n - 1) + CenterX(ctx), st.y * ctx.scale + sy + CenterY(ctx), st.c, ctx.palette);
      }
    }
  }

  lemma {:induction false} CellRowInk(buf: seq<int>, ctx: SymbolCtx, r: Rect, y: int, x: int)
    requires ValidCtx(ctx) && |buf| == 4 * (ctx.tileW * ctx.tileH) && InImage(ctx, r)
    requires r.y <= y < r.y + r.h && r.x <= x <= r.x + r.w
    requires OnlyPaletteInk(buf, ctx.palette)
    ensures OnlyPaletteInk(CellRow(buf, ctx, r, y, x), ctx.palette)
    decreases x - r.x
  {
    if x > r.x {
      CellRowInk(buf, ctx, r, y, x - 1);
      var prev := CellRow(buf, ctx, r, y, x - 1);
      if Stamped(ctx, x - 1, y) {
        StampRowsInk(prev, ctx, StampFor(ctx, x - 1, y), ctx.symH);
      }
    }
  }

  /** The symbols pass only ever writes palette colours at full opacity into
      a buffer that starts out transparent black. */
  lemma {:induction false} CellRowsInk(buf: seq<int>, ctx: SymbolCtx, r: Rect, y: int)
    requires ValidCtx(ctx) && |buf| == 4 * (ctx.tileW * ctx.tileH) && InImage(ctx, r)
    requires r.y <= y <= r.y + r.h
    requires OnlyPaletteInk(buf, ctx.palette)
    ensures OnlyPaletteInk(CellRows(buf, ctx, r, y), ctx.palette)
    decreases y - r.y
  {
    if y > r.y {
      CellRowsInk(buf, ctx, r, y - 1);
      CellRowInk(CellRows(buf, ctx, r, y - 1), ctx, r, y - 1, r.x + r.w);
    }
  }

  /** A cell that is not stamped leaves the canvas as it was. */
  lemma UnstampedCellWritesNothing(buf: seq<int>, ctx: SymbolCtx, x: int, y: int)
    requires ValidCtx(ctx) && |buf| == 4 * (ctx.tileW * ctx.tileH)
    requires ctx.drawX <= x < ctx.drawX + ctx.img.width && ctx.drawY <= y < ctx.drawY + ctx.img.height
    requires var p := SourcePixel(ctx, x, y);
      AlphaAt(ctx.img.data, p) <= 128 || ColorAt(ctx.img.data, p) == Sentinel ||
      Filtered(ctx.cf, ColorAt(ctx.img.data, p))
    ensures Cell(buf, ctx, x, y) == buf
  {
  }
}

/** The resize dialog. Its simple mode rescales an overlay to a typed width
    and height (with an optional aspect lock) and hardens the alpha channel;
    its advanced mode samples one pixel per cell of a grid laid over the
    image (a multiplier or block size, and an offset) to undo an upscale. */
module Resize {
  import opened Wrappers
  import opened Text
  import opened Pixels
  import opened Store
  import opened Cache
  import opened OverlayCaches
  import opened Hook
  import opened ColorFilter

  // ---------------------------------------------------------------------------
  // Number helpers.

  /** `Math.round`: the nearest integer, halves rounding up. */
  function Round(x: real): (n: int)
    ensures n as real - 0.5 <= x < n as real + 0.5
  {
    (x + 0.5).Floor
  }

  /** `Math.min(Math.max(v, lo), hi)`. */
  function ClampR(v: real, lo: real, hi: real): (r: real)
    ensures lo <= hi ==> lo <= r <= hi
    ensures lo <= v <= hi ==> r == v
  {
    var m := if v > lo then v else lo;
    if m < hi then m else hi
  }

  function MaxR(a: real, b: real): real {
    if a > b then a else b
  }

  function MaxI(a: int, b: int): int {
    if a > b then a else b
  }

  // ---------------------------------------------------------------------------
  // The sampling grid.

  /** The grid parameters: offset and gap (the block size) on each axis. */
  datatype Grid = Grid(offx: real, offy: real, gapX: real, gapY: real)

  predicate ValidGrid(g: Grid) {
    g.gapX >= 1.0 && g.gapY >= 1.0 && g.offx >= 0.0 && g.offy >= 0.0
  }

  /** One axis of `sampleDims()`: the number of whole cells of size `gap`
      between the offset and the edge, at least 0. */
  function Cells(orig: nat, off: real, gap: real): (n: nat)
    requires gap > 0.0
    ensures off + n as real * gap <= orig as real || n == 0
    ensures off <= orig as real ==> orig as real < off + (n + 1) as real * gap
  {
    var q := (orig as real - off) / gap;
    assert q * gap == orig as real - off;
    var f := q.Floor;
    CellsFit(f, q, gap);
    assert orig as real < off + (f + 1) as real * gap;
    if f > 0 then f else 0
  }

  lemma CellsFit(f: int, q: real, gap: real)
    requires gap > 0.0 && f as real <= q < f as real + 1.0
    ensures f as real * gap <= q * gap < (f + 1) as real * gap
  {
    assert (q - f as real) * gap >= 0.0;
    assert (f as real + 1.0 - q) * gap > 0.0;
  }

  datatype Dims = Dims(cols: nat, rows: nat)

  /** `sampleDims()`. */
  function SampleDims(origW: nat, origH: nat, g: Grid): Dims
    requires ValidGrid(g)
  {
    Dims(Cells(origW, g.offx, g.gapX), Cells(origH, g.offy, g.gapY))
  }

  /** The source column (or row) `reconstructViaGrid` samples for output
      column `r`, as written: the centre of cell `r`, clamped to the image and
      rounded with `Math.round`. */
  function AsWrittenSample(off: real, gap: real, r: nat, orig: nat): (s: int)
    ensures orig >= 1 ==> 0 <= s < orig
  {
    Round(ClampR(off + gap / 2.0 + r as real * gap, 0.0, orig as real - 1.0))
  }

  /** The pixel that contains the clamped centre of cell `r`: the sample the
      dialog means to take. */
  function CellSample(off: real, gap: real, r: nat, orig: nat): (s: int)
    ensures orig >= 1 ==> 0 <= s < orig
  {
    ClampR(off + gap / 2.0 + r as real * gap, 0.0, orig as real - 1.0).Floor
  }

  /** Which sampler the grid reads with: `AsWritten` is the script's
      `Math.round` of the cell centre, `Corrected` the pixel containing it. */
  datatype Sampler = AsWritten | Corrected

  /** The source column (or row) the sampler picks for cell `r`. */
  function Sample(sm: Sampler, off: real, gap: real, r: nat, orig: nat): (s: int)
    ensures orig >= 1 ==> 0 <= s < orig
  {
    if sm == AsWritten then AsWrittenSample(off, gap, r, orig) else CellSample(off, gap, r, orig)
  }

  /** With whole-pixel offsets and gaps, the sample lies inside its own
      cell. */
  lemma CellSampleInCell(off: nat, gap: nat, r: nat, orig: nat)
    requires gap >= 1 && off + (r + 1) * gap <= orig
    ensures off + r * gap <= CellSample(off as real, gap as real, r, orig) < off + (r + 1) * gap
  {
    var c := off as real + gap as real / 2.0 + r as real * gap as real;
    assert (r * gap) as real == r as real * gap as real;
    assert ((r + 1) * gap) as real == r as real * gap as real + gap as real;
    var x := ClampR(c, 0.0, orig as real - 1.0);
    assert (off + r * gap) as real <= x < (off + (r + 1) * gap) as real;
  }

  /** As written, the sample stays in its cell once the gap is at least 2. */
  lemma AsWrittenSampleInCell(off: nat, gap: nat, r: nat, orig: nat)
    requires gap >= 2 && off + (r + 1) * gap <= orig
    ensures off + r * gap <= AsWrittenSample(off as real, gap as real, r, orig) < off + (r + 1) * gap
  {
    var c := off as real + gap as real / 2.0 + r as real * gap as real;
    assert (r * gap) as real == r as real * gap as real;
    assert ((r + 1) * gap) as real == r as real * gap as real + gap as real;
    var x := ClampR(c, 0.0, orig as real - 1.0);
    assert (off + r * gap) as real <= x <= (off + (r + 1) * gap) as real - 1.0;
  }

  /** With a gap of 1 the rounded centre `r + 0.5` is pixel `r + 1`: the
      first output pixel of a two-pixel row samples the second source pixel,
      outside its cell. */
  lemma AsWrittenSampleLeavesCell()
    ensures AsWrittenSample(0.0, 1.0, 0, 2) == 1
    ensures CellSample(0.0, 1.0, 0, 2) == 0
  {
  }

  // ---------------------------------------------------------------------------
  // Alpha hardening.

  /** A pixel as the grid and the resize write it: `0,0,0,0` where it is
      transparent, else its colour at alpha 255. */
  function Hard(s: seq<int>, p: nat): (px: seq<int>)
    requires 4 * p + 3 < |s|
    ensures |px| == 4 && (px[3] == 0 || px[3] == 255)
    ensures px[3] == 0 <==> AlphaAt(s, p) == 0
  {
    if AlphaAt(s, p) == 0 then Clear else Px(ColorAt(s, p), 255)
  }

  /** The buffer after the hardening loop of `resizeOverlayImage`. */
  function Hardened(s: seq<int>): (t: seq<int>)
    requires |s| % 4 == 0
    ensures |t| == |s|
  {
    seq(|s|, j requires 0 <= j < |s| => Hard(s, j / 4)[j % 4])
  }

  lemma HardenedAt(s: seq<int>, p: nat, k: nat)
    requires |s| % 4 == 0 && 4 * p + 3 < |s| && k < 4
    ensures Hardened(s)[4 * p + k] == Hard(s, p)[k]
  {
    assert (4 * p + k) / 4 == p && (4 * p + k) % 4 == k;
  }

  /** A hardened pixel hardens to itself. */
  lemma HardAgain(s: seq<int>, p: nat)
    requires |s| % 4 == 0 && 4 * p + 3 < |s|
    ensures Hard(Hardened(s), p) == Hard(s, p)
  {
    var h := Hardened(s);
    HardenedAt(s, p, 0);
    HardenedAt(s, p, 1);
    HardenedAt(s, p, 2);
    HardenedAt(s, p, 3);
    assert AlphaAt(h, p) == Hard(s, p)[3];
    if AlphaAt(s, p) != 0 {
      assert ColorAt(h, p) == ColorAt(s, p);
    }
  }

  /** Hardening twice changes nothing more. */
  lemma HardenedIdempotent(s: seq<int>)
    requires |s| % 4 == 0
    ensures Hardened(Hardened(s)) == Hardened(s)
  {
    var h := Hardened(s);
    forall j | 0 <= j < |s|
      ensures Hardened(h)[j] == h[j]
    {
      var p, k := j / 4, j % 4;
      assert j == 4 * p + k;
      HardAgain(s, p);
      HardenedAt(h, p, k);
      HardenedAt(s, p, k);
    }
  }

  /** The first `n` pixels of `t` are hardened from `s`; the rest are as in
      `s`. */
  ghost predicate HardenedUpTo(t: seq<int>, s: seq<int>, n: nat) {
    |t| == |s| && 4 * n <= |s| &&
    (forall j | 0 <= j < 4 * n :: t[j] == Hard(s, j / 4)[j % 4]) &&
    (forall j | 4 * n <= j < |t| :: t[j] == s[j])
  }

  /** One pass of the hardening loop, on pixel `p`. */
  method HardenPixel(data: array<int>, p: nat)
    requires 4 * p + 3 < data.Length
    modifies data
    ensures forall j | 0 <= j < data.Length && !(4 * p <= j < 4 * p + 4) :: data[j] == old(data[j])
    ensures data[4 * p..4 * p + 4] == Hard(old(data[..]), p)
  {
    var i := 4 * p;
    if data[i + 3] == 0 {
      data[i], data[i + 1], data[i + 2], data[i + 3] := 0, 0, 0, 0;
    } else {
      data[i + 3] := 255;
    }
  }

  lemma HardenedUpToStep(t: seq<int>, t': seq<int>, s: seq<int>, p: nat)
    requires HardenedUpTo(t, s, p) && 4 * p + 4 <= |s| && |t'| == |t|
    requires forall j | 0 <= j < |t| && !(4 * p <= j < 4 * p + 4) :: t'[j] == t[j]
    requires t'[4 * p..4 * p + 4] == Hard(t, p)
    ensures HardenedUpTo(t', s, p + 1)
  {
    assert t[4 * p..4 * p + 4] == s[4 * p..4 * p + 4];
    assert Hard(t, p) == Hard(s, p);
    forall j | 4 * p <= j < 4 * p + 4
      ensures t'[j] == Hard(s, j / 4)[j % 4]
    {
      assert j / 4 == p && j % 4 == j - 4 * p;
      assert t'[4 * p..4 * p + 4][j - 4 * p] == t'[j];
    }
  }

  /** The hardening loop of `resizeOverlayImage`, in place. */
  method HardenAlpha(data: array<int>)
    requires data.Length % 4 == 0
    modifies data
    ensures data[..] == Hardened(old(data[..]))
  {
    ghost var s := data[..];
    var i := 0;
    while i < data.Length
      invariant 0 <= i <= data.Length && i % 4 == 0
      invariant HardenedUpTo(data[..], s, i / 4)
    {
      ghost var before := data[..];
      HardenPixel(data, i / 4);
      HardenedUpToStep(before, data[..], s, i / 4);
      i := i + 4;
    }
  }

  // ---------------------------------------------------------------------------
  // reconstructViaGrid.

  lemma IndexInImage(x: int, y: int, w: nat, h: nat)
    requires 0 <= x < w && 0 <= y < h
    ensures 0 <= y * w + x < w * h
  {
    assert y * w <= (h - 1) * w;
  }

  /** Output pixel `(rx, ry)`: the source pixel the sampler picks for cell
      `(rx, ry)`, hardened. */
  function GridPixel(img: Image, sm: Sampler, g: Grid, rx: nat, ry: nat): (px: seq<int>)
    requires ValidImage(img) && img.width >= 1 && img.height >= 1
    ensures |px| == 4 && (px[3] == 0 || px[3] == 255)
    ensures px[3] == 0 <==> px == Clear
  {
    var sx := Sample(sm, g.offx, g.gapX, rx, img.width);
    var sy := Sample(sm, g.offy, g.gapY, ry, img.height);
    IndexInImage(sx, sy, img.width, img.height);
    Hard(img.data, sy * img.width + sx)
  }

  /** A grid with at least one cell lies on an image at least one pixel
      wide and high. */
  lemma SomeCellsSomePixels(orig: nat, off: real, gap: real)
    requires off >= 0.0 && gap >= 1.0
    ensures Cells(orig, off, gap) > 0 ==> orig >= 1
  {
    var n := Cells(orig, off, gap);
    if n > 0 {
      assert n as real * gap >= 1.0 * gap;
    }
  }

  /** Pixel `j / 4` of the output, read row by row. */
  function GridData(img: Image, sm: Sampler, g: Grid, cols: nat, rows: nat): (data: seq<int>)
    requires ValidImage(img) && img.width >= 1 && img.height >= 1 && cols >= 1
    ensures |data| == 4 * (cols * rows)
  {
    seq(4 * (cols * rows), j requires 0 <= j < 4 * (cols * rows) => GridPixel(img, sm, g, (j / 4) % cols, (j / 4) / cols)[j % 4])
  }

  /** The canvas `reconstructViaGrid` returns: one pixel per cell. */
  function Reconstructed(img: Image, sm: Sampler, g: Grid): (r: Raster)
    requires ValidImage(img) && ValidGrid(g)
    requires SampleDims(img.width, img.height, g).cols > 0 && SampleDims(img.width, img.height, g).rows > 0
    ensures var d := SampleDims(img.width, img.height, g);
      r.width == d.cols && r.height == d.rows && |r.data| == 4 * (r.width * r.height)
  {
    var d := SampleDims(img.width, img.height, g);
    SomeCellsSomePixels(img.width, g.offx, g.gapX);
    SomeCellsSomePixels(img.height, g.offy, g.gapY);
    Raster(d.cols, d.rows, GridData(img, sm, g, d.cols, d.rows))
  }

  lemma MulLe(a: int, b: int, c: nat)
    requires a <= b
    ensures a * c <= b * c
  {
  }

  lemma DivModUnique(n: int, d: int, q: int, r: int)
    requires d > 0 && 0 <= r < d && n == q * d + r
    ensures n / d == q && n % d == r
  {
    var q', r' := n / d, n % d;
    assert n == q' * d + r';
    assert (q - q') * d == r' - r;
    if q > q' {
      MulLe(1, q - q', d);
    } else if q < q' {
      MulLe(1, q' - q, d);
    }
  }

  /** Output pixel `(rx, ry)` sits at index `ry * cols + rx`, row by row. */
  lemma PixelIndex(rx: nat, ry: nat, cols: nat, rows: nat)
    requires rx < cols && ry < rows
    ensures ry * cols + rx < cols * rows
    ensures (ry * cols + rx) / cols == ry && (ry * cols + rx) % cols == rx
  {
    MulLe(ry, rows - 1, cols);
    assert (rows - 1) * cols == rows * cols - cols;
    DivModUnique(ry * cols + rx, cols, ry, rx);
  }

  /** The first `n` output pixels are written. */
  ghost predicate Filled(s: seq<int>, img: Image, sm: Sampler, g: Grid, cols: nat, rows: nat, n: nat)
    requires ValidImage(img) && img.width >= 1 && img.height >= 1 && cols >= 1
  {
    |s| == 4 * (cols * rows) && 4 * n <= |s| &&
    forall j | 0 <= j < 4 * n :: s[j] == GridPixel(img, sm, g, (j / 4) % cols, (j / 4) / cols)[j % 4]
  }

  lemma FilledStep(s: seq<int>, s': seq<int>, img: Image, sm: Sampler, g: Grid, cols: nat, rows: nat, rx: nat, ry: nat, p: nat)
    requires ValidImage(img) && img.width >= 1 && img.height >= 1 && cols >= 1
    requires p / cols == ry && p % cols == rx
    requires Filled(s, img, sm, g, cols, rows, p) && |s'| == |s| && 4 * p + 4 <= |s|
    requires forall j | 0 <= j < 4 * p :: s'[j] == s[j]
    requires s'[4 * p..4 * p + 4] == GridPixel(img, sm, g, rx, ry)
    ensures Filled(s', img, sm, g, cols, rows, p + 1)
  {
    forall j | 4 * p <= j < 4 * p + 4
      ensures s'[j] == GridPixel(img, sm, g, (j / 4) % cols, (j / 4) / cols)[j % 4]
    {
      assert j / 4 == p && j % 4 == j - 4 * p;
      assert s'[4 * p..4 * p + 4][j - 4 * p] == s'[j];
    }
  }

  lemma FilledAll(s: seq<int>, img: Image, sm: Sampler, g: Grid, cols: nat, rows: nat)
    requires ValidImage(img) && img.width >= 1 && img.height >= 1 && cols >= 1
    requires Filled(s, img, sm, g, cols, rows, cols * rows)
    ensures s == GridData(img, sm, g, cols, rows)
  {
  }

  /** The output is laid out row by row: pixel `(rx, ry)` is the four
      channels at index `ry * cols + rx`. */
  lemma GridDataAt(img: Image, sm: Sampler, g: Grid, cols: nat, rows: nat, rx: nat, ry: nat)
    requires ValidImage(img) && img.width >= 1 && img.height >= 1 && rx < cols && ry < rows
    ensures var p := ry * cols + rx;
      4 * p + 4 <= |GridData(img, sm, g, cols, rows)| &&
      GridData(img, sm, g, cols, rows)[4 * p..4 * p + 4] == GridPixel(img, sm, g, rx, ry)
  {
    PixelIndex(rx, ry, cols, rows);
    var p := ry * cols + rx;
    var data := GridData(img, sm, g, cols, rows);
    forall k | 0 <= k < 4
      ensures data[4 * p..4 * p + 4][k] == GridPixel(img, sm, g, rx, ry)[k]
    {
      assert (4 * p + k) / 4 == p && (4 * p + k) % 4 == k;
    }
  }

  /** One pass of the inner loop: output pixel `(rx, ry)`, at index `p`. */
  method WriteGridPixel(odata: array<int>, img: Image, sm: Sampler, g: Grid, rx: nat, ry: nat, p: nat)
    requires ValidImage(img) && img.width >= 1 && img.height >= 1
    requires 4 * p + 4 <= odata.Length
    modifies odata
    ensures forall j | 0 <= j < odata.Length && !(4 * p <= j < 4 * p + 4) :: odata[j] == old(odata[j])
    ensures odata[4 * p..4 * p + 4] == GridPixel(img, sm, g, rx, ry)
  {
    var w := img.width;
    var sx := Sample(sm, g.offx, g.gapX, rx, w);
    var sy := Sample(sm, g.offy, g.gapY, ry, img.height);
    IndexInImage(sx, sy, w, img.height);
    var idx := sy * w + sx;
    var si := idx * 4;
    var r, gr, b, a := img.data[si], img.data[si + 1], img.data[si + 2], img.data[si + 3];
    var oi := p * 4;
    if a == 0 {
      odata[oi], odata[oi + 1], odata[oi + 2], odata[oi + 3] := 0, 0, 0, 0;
    } else {
      odata[oi], odata[oi + 1], odata[oi + 2], odata[oi + 3] := r, gr, b, 255;
    }
    assert GridPixel(img, sm, g, rx, ry) == Hard(img.data, idx);
  }

  /** The inner loop of `reconstructViaGrid`: output row `ry`. */
  method FillRow(odata: array<int>, img: Image, sm: Sampler, g: Grid, cols: nat, rows: nat, ry: nat)
    requires ValidImage(img) && img.width >= 1 && img.height >= 1 && cols >= 1 && ry < rows
    requires Filled(odata[..], img, sm, g, cols, rows, ry * cols)
    modifies odata
    ensures Filled(odata[..], img, sm, g, cols, rows, ry * cols + cols)
  {
    var rx := 0;
    while rx < cols
      invariant 0 <= rx <= cols
      invariant Filled(odata[..], img, sm, g, cols, rows, ry * cols + rx)
    {
      var p := ry * cols + rx;
      PixelIndex(rx, ry, cols, rows);
      ghost var before := odata[..];
      WriteGridPixel(odata, img, sm, g, rx, ry, p);
      FilledStep(before, odata[..], img, sm, g, cols, rows, rx, ry, p);
      rx := rx + 1;
    }
  }

  /** `reconstructViaGrid`: `None` where it throws for want of samples,
      else one hardened sample per cell. */
  method ReconstructViaGrid(img: Image, sm: Sampler, g: Grid) returns (r: Option<Raster>)
    requires ValidImage(img) && ValidGrid(g)
    ensures var d := SampleDims(img.width, img.height, g);
      r.None? <==> d.cols == 0 || d.rows == 0
    ensures r.Some? ==> r.value == Reconstructed(img, sm, g)
  {
    var d := SampleDims(img.width, img.height, g);
    var cols, rows := d.cols, d.rows;
    if cols <= 0 || rows <= 0 {
      return None;
    }
    SomeCellsSomePixels(img.width, g.offx, g.gapX);
    SomeCellsSomePixels(img.height, g.offy, g.gapY);
    var n := cols * rows;
    var odata := new int[4 * n];
    var ry := 0;
    while ry < rows
      invariant 0 <= ry <= rows
      invariant Filled(odata[..], img, sm, g, cols, rows, ry * cols)
    {
      FillRow(odata, img, sm, g, cols, rows, ry);
      assert ry * cols + cols == (ry + 1) * cols;
      ry := ry + 1;
    }
    assert ry * cols == n;
    FilledAll(odata[..], img, sm, g, cols, rows);
    r := Some(Raster(cols, rows, odata[..]));
  }

  /** With whole-pixel offsets and gaps, each sampler picks a pixel of the
      cell: the corrected one always, the one as written once the gap is at
      least 2. */
  lemma SampleInCell(sm: Sampler, off: nat, gap: nat, r: nat, orig: nat)
    requires gap >= 1 && (sm == Corrected || gap >= 2) && off + (r + 1) * gap <= orig
    ensures off + r * gap <= Sample(sm, off as real, gap as real, r, orig) < off + (r + 1) * gap
  {
    if sm == AsWritten {
      AsWrittenSampleInCell(off, gap, r, orig);
    } else {
      CellSampleInCell(off, gap, r, orig);
    }
  }

  /** With whole-pixel offsets and gaps, every output pixel is a hardened
      source pixel from inside its own cell: always with the corrected
      sampler, and with the one as written once both gaps are at least 2. */
  lemma ReconstructedFromCells(img: Image, sm: Sampler, offx: nat, offy: nat, gapX: nat, gapY: nat, rx: nat, ry: nat)
    requires ValidImage(img) && gapX >= 1 && gapY >= 1 && (sm == Corrected || (gapX >= 2 && gapY >= 2))
    requires offx + (rx + 1) * gapX <= img.width && offy + (ry + 1) * gapY <= img.height
    ensures var sx := Sample(sm, offx as real, gapX as real, rx, img.width);
      var sy := Sample(sm, offy as real, gapY as real, ry, img.height);
      offx + rx * gapX <= sx < offx + (rx + 1) * gapX && offy + ry * gapY <= sy < offy + (ry + 1) * gapY &&
      0 <= sy * img.width + sx < img.width * img.height &&
      GridPixel(img, sm, Grid(offx as real, offy as real, gapX as real, gapY as real), rx, ry) ==
        Hard(img.data, sy * img.width + sx)
  {
    SampleInCell(sm, offx, gapX, rx, img.width);
    SampleInCell(sm, offy, gapY, ry, img.height);
    var sx := Sample(sm, offx as real, gapX as real, rx, img.width);
    var sy := Sample(sm, offy as real, gapY as real, ry, img.height);
    IndexInImage(sx, sy, img.width, img.height);
  }

  /** At offset 0 with gap 1, cell `r` samples pixel `r`. */
  lemma UnitSample(r: nat, n: nat)
    requires r < n
    ensures CellSample(0.0, 1.0, r, n) == r
  {
  }

  /** Pixel `p` of a gap-1 grid at offset 0 is source pixel `p`, hardened. */
  lemma UnitGridPixel(img: Image, p: nat)
    requires ValidImage(img) && img.width >= 1 && img.height >= 1 && p < img.width * img.height
    ensures GridPixel(img, Corrected, Grid(0.0, 0.0, 1.0, 1.0), p % img.width, p / img.width) == Hard(img.data, p)
  {
    var w, h := img.width, img.height;
    var rx, ry := p % w, p / w;
    assert p == ry * w + rx;
    if ry >= h {
      MulLe(h, ry, w);
    }
    UnitSample(rx, w);
    UnitSample(ry, h);
  }

  /** With the corrected sampler, a grid of gap 1 at offset 0 gives back the
      image itself, hardened. */
  lemma UnitGridIsHardening(img: Image)
    requires ValidImage(img) && img.width >= 1 && img.height >= 1
    ensures var g := Grid(0.0, 0.0, 1.0, 1.0);
      SampleDims(img.width, img.height, g) == Dims(img.width, img.height) &&
      Reconstructed(img, Corrected, g).data == Hardened(img.data)
  {
    var g := Grid(0.0, 0.0, 1.0, 1.0);
    var w, h := img.width, img.height;
    assert SampleDims(w, h, g) == Dims(w, h);
    var out := GridData(img, Corrected, g, w, h);
    assert Reconstructed(img, Corrected, g).data == out;
    forall j | 0 <= j < |img.data|
      ensures out[j] == Hardened(img.data)[j]
    {
      var p := j / 4;
      UnitGridPixel(img, p);
      HardenedAt(img.data, p, j % 4);
    }
  }

  /** As written, cell `r` of a gap-1 grid at offset 0 samples pixel
      `r + 1`, except the last, which the clamp holds at `r`. */
  lemma UnitSampleAsWritten(r: nat, n: nat)
    requires r < n
    ensures AsWrittenSample(0.0, 1.0, r, n) == if r + 1 < n then r + 1 else r
  {
    var c := 0.0 + 1.0 / 2.0 + r as real * 1.0;
    assert c == r as real + 0.5;
    if r + 1 < n {
      assert ClampR(c, 0.0, n as real - 1.0) == c;
    } else {
      assert ClampR(c, 0.0, n as real - 1.0) == r as real;
    }
  }

  /** As written, the gap-1 grid at offset 0 gives the image shifted one
      pixel up and left, with its last row and column repeated: output
      pixel `(rx, ry)` is source pixel `(rx + 1, ry + 1)`, each clamped. */
  lemma UnitGridAsWrittenShifts(img: Image, rx: nat, ry: nat)
    requires ValidImage(img) && rx < img.width && ry < img.height
    ensures var sx := if rx + 1 < img.width then rx + 1 else rx;
      var sy := if ry + 1 < img.height then ry + 1 else ry;
      0 <= sy * img.width + sx < img.width * img.height &&
      GridPixel(img, AsWritten, Grid(0.0, 0.0, 1.0, 1.0), rx, ry) == Hard(img.data, sy * img.width + sx)
  {
    UnitSampleAsWritten(rx, img.width);
    UnitSampleAsWritten(ry, img.height);
    var sx := if rx + 1 < img.width then rx + 1 else rx;
    var sy := if ry + 1 < img.height then ry + 1 else ry;
    IndexInImage(sx, sy, img.width, img.height);
  }

  lemma HardenedIsRgba(s: seq<int>)
    requires IsRgba(s)
    ensures IsRgba(Hardened(s))
  {
    forall j | 0 <= j < |s|
      ensures IsByte(Hardened(s)[j])
    {
      var p, k := j / 4, j % 4;
      assert j == 4 * p + k;
      HardenedAt(s, p, k);
      HardBytes(s, p);
    }
  }

  lemma HardBytes(s: seq<int>, p: nat)
    requires IsRgba(s) && 4 * p + 3 < |s|
    ensures forall k | 0 <= k < 4 :: IsByte(Hard(s, p)[k])
  {
    assert IsByte(s[4 * p]) && IsByte(s[4 * p + 1]) && IsByte(s[4 * p + 2]);
  }

  lemma GridPixelBytes(img: Image, sm: Sampler, g: Grid, rx: nat, ry: nat)
    requires ValidImage(img) && img.width >= 1 && img.height >= 1
    ensures forall k | 0 <= k < 4 :: IsByte(GridPixel(img, sm, g, rx, ry)[k])
  {
    var sx := Sample(sm, g.offx, g.gapX, rx, img.width);
    var sy := Sample(sm, g.offy, g.gapY, ry, img.height);
    IndexInImage(sx, sy, img.width, img.height);
    HardBytes(img.data, sy * img.width + sx);
  }

  lemma GridDataIsRgba(img: Image, sm: Sampler, g: Grid, cols: nat, rows: nat)
    requires ValidImage(img) && img.width >= 1 && img.height >= 1 && cols >= 1
    ensures IsRgba(GridData(img, sm, g, cols, rows))
  {
    var data := GridData(img, sm, g, cols, rows);
    forall j | 0 <= j < |data|
      ensures IsByte(data[j])
    {
      GridPixelBytes(img, sm, g, (j / 4) % cols, (j / 4) / cols);
    }
  }

  lemma ReconstructedIsRgba(img: Image, sm: Sampler, g: Grid)
    requires ValidImage(img) && ValidGrid(g)
    requires SampleDims(img.width, img.height, g).cols > 0 && SampleDims(img.width, img.height, g).rows > 0
    ensures IsRgba(Reconstructed(img, sm, g).data)
  {
    SomeCellsSomePixels(img.width, g.offx, g.gapX);
    SomeCellsSomePixels(img.height, g.offy, g.gapY);
    var d := SampleDims(img.width, img.height, g);
    GridDataIsRgba(img, sm, g, d.cols, d.rows);
  }

  // ---------------------------------------------------------------------------
  // Field handlers.

  /** The offset handler on an axis of length `orig`: clamped to
      `[0, orig - 0.0001]`. */
  function OffClamped(val: real, orig: nat): (off: real)
    ensures 0.0 <= off
    ensures orig >= 1 ==> off < orig as real
    ensures 0.0 <= val <= orig as real - 0.0001 ==> off == val
  {
    ClampR(val, 0.0, MaxR(0.0, orig as real - 0.0001))
  }

  /** The offset-X handler as written: whatever the width, the offset is
      clamped as an offset on the vertical axis, below the image height. */
  function OffXAsWritten(val: real, origW: nat, origH: nat): (off: real)
    ensures off == OffClamped(val, origH)
    ensures origH >= 1 ==> 0.0 <= off < origH as real
  {
    ClampR(val, 0.0, MaxR(0.0, origH as real - 0.0001))
  }

  /** On a wide, short image the written handler moves an offset that lies
      inside the width; on a narrow, tall one it keeps an offset beyond the
      width, leaving no samples. */
  lemma OffXAsWrittenWrongAxis()
    ensures OffXAsWritten(50.0, 100, 10) == 9.9999 && OffClamped(50.0, 100) == 50.0
    ensures OffXAsWritten(50.0, 10, 100) == 50.0 && Cells(10, 50.0, 1.0) == 0
  {
  }

  /** `parseInt(field.value || '0', 10)`. */
  function FieldInt(text: string): Option<int> {
    ParseIntJs(if text == "" then "0" else text)
  }

  /** The aspect lock: `Math.max(1, Math.round(v * to / from))`. */
  function Locked(v: int, from: nat, to: nat): (r: int)
    requires from >= 1
    ensures r >= 1
  {
    MaxI(1, Round(v as real * to as real / from as real))
  }

  lemma ScaleLe(a: real, b: real, c: real)
    requires a <= b && c > 0.0
    ensures a * c <= b * c
  {
  }

  lemma ScaleLt(a: real, b: real, c: real)
    requires a < b && c > 0.0
    ensures a * c < b * c
  {
  }

  lemma CastMul(a: int, b: int)
    ensures (a * b) as real == a as real * b as real
  {
  }

  /** `n - 1/2 <= x < n + 1/2`, scaled by `f > 0`. */
  lemma HalfBand(n: real, x: real, f: real, p: real)
    requires f > 0.0 && n - 0.5 <= x < n + 0.5 && x * f == p
    ensures n * f - 0.5 * f <= p < n * f + 0.5 * f
  {
    HalfBelow(n, x, f, p);
    HalfAbove(n, x, f, p);
  }

  lemma HalfBelow(n: real, x: real, f: real, p: real)
    requires f > 0.0 && n - 0.5 <= x && x * f == p
    ensures n * f - 0.5 * f <= p
  {
    ScaleLe(n - 0.5, x, f);
  }

  lemma HalfAbove(n: real, x: real, f: real, p: real)
    requires f > 0.0 && x < n + 0.5 && x * f == p
    ensures p < n * f + 0.5 * f
  {
    ScaleLt(x, n + 0.5, f);
  }

  /** `Math.round(p / f)` is the integer `n` with `n * f` within half of
      `f` of `p`, halves rounding up. */
  lemma {:induction false} RoundQuotient(p: int, f: int)
    requires f >= 1
    ensures var n := Round(p as real / f as real);
      2 * (n * f - p) <= f && 2 * (p - n * f) < f
  {
    var x := p as real / f as real;
    var n := Round(x);
    HalfBand(n as real, x, f as real, p as real);
    CastMul(n, f);
  }

  /** The locked value is the nearest whole number to `v * to / from`
      whenever that is above 1. */
  lemma {:induction false} LockedNearest(v: int, from: nat, to: nat)
    requires from >= 1
    ensures var r := Locked(v, from, to);
      r == 1 || (2 * (r * from - v * to) <= from && 2 * (v * to - r * from) < from)
  {
    CastMul(v, to);
    assert v as real * to as real / from as real == (v * to) as real / from as real;
    RoundQuotient(v * to, from);
  }

  /** A square image keeps the typed value. */
  lemma {:induction false} LockedSquare(v: int, n: nat)
    requires n >= 1 && v >= 1
    ensures Locked(v, n, n) == v
  {
    var x := v as real * n as real / n as real;
    assert x == v as real;
    assert Round(x) == v;
  }

  /** `String(n)` written into a field. */
  function DecField(n: int): string {
    IntToDec(n)
  }

  /** A number written into a field reads back as itself. */
  lemma DecFieldReadsBack(n: int)
    ensures FieldInt(DecField(n)) == Some(n)
  {
    ParseIntJsDec(n);
  }

  /** A side scaled by `scale`: `Math.max(1, Math.round(orig * scale))`. */
  function Scaled(orig: nat, scale: real): (n: int)
    ensures n >= 1
    ensures orig as real * scale >= 0.5 ==> n as real - 0.5 <= orig as real * scale < n as real + 0.5
  {
    MaxI(1, Round(orig as real * scale))
  }

  /** The simple-mode target size the apply button accepts: both fields
      parse to positive numbers below the limit. */
  function SimpleTarget(w: string, h: string, maxDim: int): (t: Option<(nat, nat)>)
    ensures t.Some? ==> 1 <= t.value.0 < maxDim && 1 <= t.value.1 < maxDim
  {
    var W := FieldInt(w);
    var H := FieldInt(h);
    if W.None? || H.None? || W.value <= 0 || H.value <= 0 then None
    else if W.value >= maxDim || H.value >= maxDim then None
    else Some((W.value, H.value))
  }

  /** Whether `syncAdvancedMeta` enables the apply button in simple mode. */
  predicate SimpleButtonEnabled(w: string, h: string, maxDim: int) {
    var W := FieldInt(w);
    var H := FieldInt(h);
    W.Some? && H.Some? && W.value > 0 && H.value > 0 && W.value < maxDim && H.value < maxDim
  }

  /** Whether `syncSimpleNote` leaves it enabled: not `!ok || limit`, where
      a `NaN` never compares as too large. */
  predicate SimpleNoteEnabled(w: string, h: string, maxDim: int) {
    var W := FieldInt(w);
    var H := FieldInt(h);
    var ok := W.Some? && H.Some? && W.value > 0 && H.value > 0;
    var limit := (W.Some? && W.value >= maxDim) || (H.Some? && H.value >= maxDim);
    !(!ok || limit)
  }

  /** The apply handler refuses exactly the sizes for which both button
      rules disable the button. */
  lemma SimpleGuardsAgree(w: string, h: string, maxDim: int)
    ensures SimpleTarget(w, h, maxDim).Some? <==> SimpleButtonEnabled(w, h, maxDim)
    ensures SimpleButtonEnabled(w, h, maxDim) <==> SimpleNoteEnabled(w, h, maxDim)
  {
  }

  // ---------------------------------------------------------------------------
  // resizeOverlayImage.

  /** The overlay after a resize or a grid apply: the new local image, with
      fresh colour statistics (none for an empty data URL). */
  function WithImage(ov: OverlayItem, dataUrl: string, data: seq<int>): OverlayItem
    requires |data| % 4 == 0
  {
    var o := ov.(imageBase64 := Some(dataUrl), imageUrl := None, isLocal := true);
    if dataUrl == "" then o.(colorStats := None, colorFilter := None)
    else
      var stats := StatsOf(data);
      o.(colorStats := Some(stats), colorFilter := Some(AllShown(stats)))
  }

  /** Writes `data` (already `width` by `height`) into overlay `k` as the data
      URL `dataUrl`, then empties the caches and brings the hook in line. */
  method StoreImage(cfg: Config, caches: Caches, hook: FetchHook, k: nat,
                    width: nat, height: nat, data: seq<int>, dataUrl: string)
    requires caches.Valid() && k < |cfg.overlays|
    requires |data| == 4 * (width * height) && IsRgba(data)
    modifies cfg, hook, caches, caches.overlayCache, caches.imageDecodeCache, caches.paletteDetectionCache,
             caches.baseMinifyCache
    ensures cfg.overlays == old(cfg.overlays)[k := WithImage(old(cfg.overlays)[k], dataUrl, data)]
    ensures cfg.activeOverlayId == old(cfg.activeOverlayId) && cfg.overlayMode == old(cfg.overlayMode)
    ensures cfg.autoCapturePixelUrl == old(cfg.autoCapturePixelUrl)
    ensures caches.Valid() && caches.Cleared()
    ensures hook.installed == OverlaysNeedingHook(cfg)
  {
    var ov := cfg.overlays[k].(imageBase64 := Some(dataUrl), imageUrl := None, isLocal := true);
    var updated := UpdateOverlayColorStats(ov, Some(Image(dataUrl, width, height, data)));
    cfg.overlays := cfg.overlays[k := updated.value];
    caches.ClearOverlayCache();
    hook.EnsureHook(cfg);
  }

  /** `resizeOverlayImage(ov, targetW, targetH)`, `drawn` standing for the
      canvas after the image is drawn at the target size: the alpha channel
      is hardened and the result becomes the overlay's image. */
  method ResizeOverlayImage(cfg: Config, caches: Caches, hook: FetchHook, k: nat,
                            targetW: nat, targetH: nat, drawn: seq<int>, dataUrl: string)
    requires caches.Valid() && k < |cfg.overlays|
    requires |drawn| == 4 * (targetW * targetH) && IsRgba(drawn)
    modifies cfg, hook, caches, caches.overlayCache, caches.imageDecodeCache, caches.paletteDetectionCache,
             caches.baseMinifyCache
    ensures cfg.overlays == old(cfg.overlays)[k := WithImage(old(cfg.overlays)[k], dataUrl, Hardened(drawn))]
    ensures cfg.activeOverlayId == old(cfg.activeOverlayId) && cfg.overlayMode == old(cfg.overlayMode)
    ensures cfg.autoCapturePixelUrl == old(cfg.autoCapturePixelUrl)
    ensures caches.Valid() && caches.Cleared()
    ensures hook.installed == OverlaysNeedingHook(cfg)
  {
    var data := new int[|drawn|](i requires 0 <= i < |drawn| => drawn[i]);
    assert data[..] == drawn;
    HardenAlpha(data);
    HardenedIsRgba(drawn);
    StoreImage(cfg, caches, hook, k, targetW, targetH, data[..], dataUrl);
  }

  // ---------------------------------------------------------------------------
  // The dialog's state.

  datatype RsMode = Simple | Advanced

  /** A loaded image is well formed, non-empty and `origW` by `origH`. */
  predicate LoadedImage(img: Option<Image>, origW: nat, origH: nat) {
    img.Some? ==>
      ValidImage(img.value) && origW == img.value.width && origH == img.value.height &&
      origW >= 1 && origH >= 1
  }

  // ---------------------------------------------------------------------------
  // The simple tab's fields.

  /** The aspect-lock checkbox and the width and height inputs. */
  datatype SizeFields = SizeFields(lock: bool, w: string, h: string)

  /** Whether typing `v` into one side recomputes the other. */
  predicate Follows(lock: bool, v: Option<int>, origW: nat, origH: nat) {
    lock && origW > 0 && origH > 0 && v.Some? && v.value > 0
  }

  /** The width input's handler: with the lock on and a positive width, the
      height becomes the width scaled by the image's aspect ratio. */
  function WidthTyped(f: SizeFields, text: string, origW: nat, origH: nat): (r: SizeFields)
    ensures r.w == text && r.lock == f.lock
    ensures var W := FieldInt(text);
      if Follows(f.lock, W, origW, origH) then FieldInt(r.h) == Some(Locked(W.value, origW, origH))
      else r.h == f.h
  {
    var W := FieldInt(text);
    if Follows(f.lock, W, origW, origH) then
      DecFieldReadsBack(Locked(W.value, origW, origH));
      f.(w := text, h := DecField(Locked(W.value, origW, origH)))
    else f.(w := text)
  }

  /** The height input's handler, the other way round. */
  function HeightTyped(f: SizeFields, text: string, origW: nat, origH: nat): (r: SizeFields)
    ensures r.h == text && r.lock == f.lock
    ensures var H := FieldInt(text);
      if Follows(f.lock, H, origW, origH) then FieldInt(r.w) == Some(Locked(H.value, origH, origW))
      else r.w == f.w
  {
    var H := FieldInt(text);
    if Follows(f.lock, H, origW, origH) then
      DecFieldReadsBack(Locked(H.value, origH, origW));
      f.(h := text, w := DecField(Locked(H.value, origH, origW)))
    else f.(h := text)
  }

  /** On a square image the locked side repeats the typed one. */
  lemma SquareFollows(f: SizeFields, text: string, n: nat)
    requires Follows(f.lock, FieldInt(text), n, n)
    ensures FieldInt(WidthTyped(f, text, n, n).h) == FieldInt(text)
    ensures FieldInt(HeightTyped(f, text, n, n).w) == FieldInt(text)
  {
    LockedSquare(FieldInt(text).value, n);
  }

  /** `applyScaleToFields(scale)`: the width becomes the scaled width, the
      height the locked or the scaled height. */
  function ScaledFields(f: SizeFields, origW: nat, origH: nat, scale: real): (r: SizeFields)
    requires f.lock ==> origW >= 1
    ensures r.lock == f.lock
    ensures var W := Scaled(origW, scale);
      FieldInt(r.w) == Some(W) &&
      FieldInt(r.h) == Some(if f.lock then Locked(W, origW, origH) else Scaled(origH, scale))
  {
    var W := Scaled(origW, scale);
    var H := if f.lock then Locked(W, origW, origH) else Scaled(origH, scale);
    DecFieldReadsBack(W);
    DecFieldReadsBack(H);
    f.(w := DecField(W), h := DecField(H))
  }

  // ---------------------------------------------------------------------------
  // The advanced tab's fields.

  /** The multiplier, the block sizes (gaps), the offsets and the bind box. */
  datatype GridForm = GridForm(mult: real, gapX: real, gapY: real, offx: real, offy: real, bind: bool)

  function GridOf(f: GridForm): Grid {
    Grid(f.offx, f.offy, f.gapX, f.gapY)
  }

  /** The bounds every handler keeps: the multiplier and the gaps at least 1,
      the offsets at least 0. */
  predicate ValidForm(f: GridForm) {
    f.mult >= 1.0 && ValidGrid(GridOf(f))
  }

  /** With the bind box on, both block sizes equal the multiplier. */
  predicate BoundForm(f: GridForm) {
    f.bind ==> f.gapX == f.mult && f.gapY == f.mult
  }

  /** The dialog's grid defaults: multiplier and gaps 4, offsets 0, bound. */
  const DefaultForm := GridForm(4.0, 4.0, 4.0, 0.0, 0.0, true)

  /** The multiplier slider and input: clamped to `[1, 128]`; bound gaps follow. */
  function MultChanged(f: GridForm, v: real): (r: GridForm)
    ensures r.mult == ClampR(v, 1.0, 128.0) && 1.0 <= r.mult <= 128.0
    ensures r.bind == f.bind && r.offx == f.offx && r.offy == f.offy
    ensures f.bind ==> r.gapX == r.mult && r.gapY == r.mult
    ensures !f.bind ==> r.gapX == f.gapX && r.gapY == f.gapY
  {
    var c := ClampR(v, 1.0, 128.0);
    if f.bind then f.(mult := c, gapX := c, gapY := c) else f.(mult := c)
  }

  /** The bind box: binding copies the multiplier into both gaps. */
  function BindChanged(f: GridForm, checked: bool): (r: GridForm)
    ensures r.bind == checked && r.mult == f.mult && r.offx == f.offx && r.offy == f.offy
    ensures checked ==> r.gapX == f.mult && r.gapY == f.mult
    ensures !checked ==> r.gapX == f.gapX && r.gapY == f.gapY
  {
    if checked then f.(bind := true, gapX := f.mult, gapY := f.mult) else f.(bind := false)
  }

  /** The block-width input: clamped to `[1, 4096]`; when bound the
      multiplier and the block height follow. */
  function BlockWChanged(f: GridForm, v: real): (r: GridForm)
    ensures r.gapX == ClampR(v, 1.0, 4096.0) && 1.0 <= r.gapX <= 4096.0
    ensures r.bind == f.bind && r.offx == f.offx && r.offy == f.offy
    ensures f.bind ==> r.mult == r.gapX && r.gapY == r.gapX
    ensures !f.bind ==> r.mult == f.mult && r.gapY == f.gapY
  {
    var c := ClampR(v, 1.0, 4096.0);
    if f.bind then f.(gapX := c, mult := c, gapY := c) else f.(gapX := c)
  }

  /** The block-height input, the other way round. */
  function BlockHChanged(f: GridForm, v: real): (r: GridForm)
    ensures r.gapY == ClampR(v, 1.0, 4096.0) && 1.0 <= r.gapY <= 4096.0
    ensures r.bind == f.bind && r.offx == f.offx && r.offy == f.offy
    ensures f.bind ==> r.mult == r.gapY && r.gapX == r.gapY
    ensures !f.bind ==> r.mult == f.mult && r.gapX == f.gapX
  {
    var c := ClampR(v, 1.0, 4096.0);
    if f.bind then f.(gapY := c, mult := c, gapX := c) else f.(gapY := c)
  }

  /** The offset-X input as written: only the X offset changes, clamped by
      the image height. */
  function OffXChangedAsWritten(f: GridForm, v: real, origW: nat, origH: nat): (r: GridForm)
    ensures r == f.(offx := OffClamped(v, origH))
  {
    f.(offx := OffXAsWritten(v, origW, origH))
  }

  /** The offset-X input (corrected: clamped to the image width). */
  function OffXChanged(f: GridForm, v: real, origW: nat): (r: GridForm)
    ensures r == f.(offx := OffClamped(v, origW))
    ensures origW >= 1 ==> r.offx < origW as real
  {
    f.(offx := OffClamped(v, origW))
  }

  /** The offset-Y input, clamped to the image height. */
  function OffYChanged(f: GridForm, v: real, origH: nat): (r: GridForm)
    ensures r == f.(offy := OffClamped(v, origH))
    ensures origH >= 1 ==> r.offy < origH as real
  {
    f.(offy := OffClamped(v, origH))
  }

  /** Every grid handler keeps the bounds, and keeps bound sizes bound. */
  lemma {:induction false} GridHandlersKeepForm(f: GridForm, v: real, checked: bool, orig: nat, other: nat)
    requires ValidForm(f) && BoundForm(f)
    ensures ValidForm(MultChanged(f, v)) && BoundForm(MultChanged(f, v))
    ensures ValidForm(BindChanged(f, checked)) && BoundForm(BindChanged(f, checked))
    ensures ValidForm(BlockWChanged(f, v)) && BoundForm(BlockWChanged(f, v))
    ensures ValidForm(BlockHChanged(f, v)) && BoundForm(BlockHChanged(f, v))
    ensures ValidForm(OffXChanged(f, v, orig)) && BoundForm(OffXChanged(f, v, orig))
    ensures ValidForm(OffXChangedAsWritten(f, v, other, orig)) && BoundForm(OffXChangedAsWritten(f, v, other, orig))
    ensures ValidForm(OffYChanged(f, v, orig)) && BoundForm(OffYChanged(f, v, orig))
  {
  }

  // ---------------------------------------------------------------------------
  // The calculated result.

  /** `calcCanvas`, `calcCols`, `calcRows` and `calcReady`. */
  datatype CalcResult = CalcResult(canvas: Option<Raster>, cols: nat, rows: nat, ready: bool)

  const NoResult := CalcResult(None, 0, 0, false)

  /** A calculated canvas is a well-formed RGBA raster, and a ready result
      has one. */
  predicate ValidResult(r: CalcResult) {
    (r.canvas.Some? ==>
       |r.canvas.value.data| == 4 * (r.canvas.value.width * r.canvas.value.height) &&
       IsRgba(r.canvas.value.data)) &&
    (r.ready ==> r.canvas.Some?)
  }

  /** `markCalcStale()`: in advanced mode a calculated result no longer
      counts; the canvas itself stays. */
  function Staled(r: CalcResult, mode: RsMode): (s: CalcResult)
    ensures s.canvas == r.canvas && s.cols == r.cols && s.rows == r.rows
    ensures s.ready <==> r.ready && mode.Simple?
  {
    if mode == Advanced then r.(ready := false) else r
  }

  // ---------------------------------------------------------------------------
  // The dialog.

  /** The `rs` record, less its DOM elements, zoom, pan and dot radius.
      `ov` is the index of the overlay being resized. */
  class RSState {
    var ov: Option<nat>
    var img: Option<Image>
    var origW: nat
    var origH: nat
    var mode: RsMode
    var size: SizeFields
    var grid: GridForm
    var result: CalcResult

    ghost predicate Valid()
      reads this
    {
      ValidForm(grid) && BoundForm(grid) && LoadedImage(img, origW, origH) && ValidResult(result)
    }

    /** `buildRSModal`: the initial `rs` record (empty size inputs, both
        boxes checked). */
    constructor ()
      ensures Valid()
      ensures ov == None && img == None && origW == 0 && origH == 0 && mode == Simple
      ensures size == SizeFields(true, "", "") && grid == DefaultForm && result == NoResult
    {
      ov, img, origW, origH, mode := None, None, 0, 0, Simple;
      size, grid, result := SizeFields(true, "", ""), DefaultForm, NoResult;
    }

    /** `openRSModal(overlay)`: records the overlay; the rest happens once
        its image has loaded. */
    method Open(k: nat)
      requires Valid()
      modifies this
      ensures Valid() && ov == Some(k)
      ensures img == old(img) && origW == old(origW) && origH == old(origH) && mode == old(mode)
      ensures size == old(size) && grid == old(grid) && result == old(result)
    {
      ov := Some(k);
    }

    /** The image's `onload` in `openRSModal`: the size inputs show the
        image's size with the lock on, the grid and the result return to
        their defaults, and the simple tab is shown. */
    method ImageLoaded(im: Image)
      requires Valid()
      requires ValidImage(im) && im.width >= 1 && im.height >= 1
      modifies this
      ensures Valid() && ov == old(ov)
      ensures img == Some(im) && origW == im.width && origH == im.height && mode == Simple
      ensures size == SizeFields(true, DecField(origW), DecField(origH))
      ensures grid == DefaultForm && result == NoResult
    {
      img, origW, origH, mode := Some(im), im.width, im.height, Simple;
      size := SizeFields(true, DecField(im.width), DecField(im.height));
      grid, result := DefaultForm, NoResult;
    }

    /** `closeRSModal()`. */
    method Close()
      requires Valid()
      modifies this
      ensures Valid() && ov == None && img == None
      ensures origW == old(origW) && origH == old(origH) && mode == old(mode)
      ensures size == old(size) && grid == old(grid) && result == old(result)
    {
      ov, img := None, None;
    }

    /** A tab click. */
    method SetMode(m: RsMode)
      requires Valid()
      modifies this
      ensures Valid() && mode == m
      ensures ov == old(ov) && img == old(img) && origW == old(origW) && origH == old(origH)
      ensures size == old(size) && grid == old(grid) && result == old(result)
    {
      mode := m;
    }

    /** A click on the aspect-lock checkbox: the next width or height typed
        follows the lock as it now stands. */
    method LockChange(checked: bool)
      requires Valid()
      modifies this
      ensures Valid() && size == old(size).(lock := checked)
      ensures size.w == old(size.w) && size.h == old(size.h)
      ensures ov == old(ov) && img == old(img) && origW == old(origW) && origH == old(origH) && mode == old(mode)
      ensures grid == old(grid) && result == old(result)
    {
      size := size.(lock := checked);
    }

    /** The width input. */
    method WidthInput(text: string)
      requires Valid()
      modifies this
      ensures Valid() && size == WidthTyped(old(size), text, origW, origH)
      ensures ov == old(ov) && img == old(img) && origW == old(origW) && origH == old(origH) && mode == old(mode)
      ensures grid == old(grid) && result == old(result)
    {
      size := WidthTyped(size, text, origW, origH);
    }

    /** The height input. */
    method HeightInput(text: string)
      requires Valid()
      modifies this
      ensures Valid() && size == HeightTyped(old(size), text, origW, origH)
      ensures ov == old(ov) && img == old(img) && origW == old(origW) && origH == old(origH) && mode == old(mode)
      ensures grid == old(grid) && result == old(result)
    {
      size := HeightTyped(size, text, origW, origH);
    }

    /** A scale button (fixed factor) or the custom scale's button, whose
        `parseFloat` is `scale` (`None` for `NaN`): a missing or
        non-positive factor changes nothing. */
    method ScaleButton(scale: Option<real>)
      requires Valid() && (size.lock ==> origW >= 1)
      modifies this
      ensures ov == old(ov) && img == old(img) && origW == old(origW) && origH == old(origH) && mode == old(mode)
      ensures Valid()
      ensures scale.None? || scale.value <= 0.0 ==> size == old(size)
      ensures scale.Some? && scale.value > 0.0 ==> size == ScaledFields(old(size), origW, origH, scale.value)
      ensures grid == old(grid) && result == old(result)
    {
      if scale.None? || scale.value <= 0.0 {
        return;
      }
      size := ScaledFields(size, origW, origH, scale.value);
    }

    /** `markCalcStale()`. */
    method MarkCalcStale()
      requires Valid()
      modifies this
      ensures Valid() && result == Staled(old(result), mode)
      ensures ov == old(ov) && img == old(img) && origW == old(origW) && origH == old(origH) && mode == old(mode)
      ensures size == old(size) && grid == old(grid)
    {
      result := Staled(result, mode);
    }

    /** A grid input with its `input` value parsed (`None` for `NaN`, which
        the handlers ignore): the form changes by `next` and the result
        goes stale. */
    method GridInput(next: GridForm)
      requires Valid() && ValidForm(next) && BoundForm(next)
      modifies this
      ensures Valid() && grid == next && result == Staled(old(result), mode)
      ensures ov == old(ov) && img == old(img) && origW == old(origW) && origH == old(origH) && mode == old(mode)
      ensures size == old(size)
    {
      grid := next;
      MarkCalcStale();
    }

    /** The multiplier inputs. */
    method MultChange(v: Option<real>)
      requires Valid()
      modifies this
      ensures Valid()
      ensures v.None? ==> grid == old(grid) && result == old(result)
      ensures v.Some? ==> grid == MultChanged(old(grid), v.value) && result == Staled(old(result), mode)
      ensures ov == old(ov) && img == old(img) && origW == old(origW) && origH == old(origH) && mode == old(mode)
      ensures size == old(size)
    {
      if v.Some? {
        GridHandlersKeepForm(grid, v.value, false, 0, 0);
        GridInput(MultChanged(grid, v.value));
      }
    }

    /** The bind box. */
    method BindChange(checked: bool)
      requires Valid()
      modifies this
      ensures Valid() && grid == BindChanged(old(grid), checked) && result == Staled(old(result), mode)
      ensures ov == old(ov) && img == old(img) && origW == old(origW) && origH == old(origH) && mode == old(mode)
      ensures size == old(size)
    {
      GridHandlersKeepForm(grid, 0.0, checked, 0, 0);
      GridInput(BindChanged(grid, checked));
    }

    /** The block-width input. */
    method BlockWInput(v: Option<real>)
      requires Valid()
      modifies this
      ensures Valid()
      ensures v.None? ==> grid == old(grid) && result == old(result)
      ensures v.Some? ==> grid == BlockWChanged(old(grid), v.value) && result == Staled(old(result), mode)
      ensures ov == old(ov) && img == old(img) && origW == old(origW) && origH == old(origH) && mode == old(mode)
      ensures size == old(size)
    {
      if v.Some? {
        GridHandlersKeepForm(grid, v.value, false, 0, 0);
        GridInput(BlockWChanged(grid, v.value));
      }
    }

    /** The block-height input. */
    method BlockHInput(v: Option<real>)
      requires Valid()
      modifies this
      ensures Valid()
      ensures v.None? ==> grid == old(grid) && result == old(result)
      ensures v.Some? ==> grid == BlockHChanged(old(grid), v.value) && result == Staled(old(result), mode)
      ensures ov == old(ov) && img == old(img) && origW == old(origW) && origH == old(origH) && mode == old(mode)
      ensures size == old(size)
    {
      if v.Some? {
        GridHandlersKeepForm(grid, v.value, false, 0, 0);
        GridInput(BlockHChanged(grid, v.value));
      }
    }

    /** The offset-X input, as written: clamped by the image height. */
    method OffXInput(v: Option<real>)
      requires Valid()
      modifies this
      ensures Valid()
      ensures v.None? ==> grid == old(grid) && result == old(result)
      ensures v.Some? ==> grid == OffXChangedAsWritten(old(grid), v.value, origW, origH) && result == Staled(old(result), mode)
      ensures ov == old(ov) && img == old(img) && origW == old(origW) && origH == old(origH) && mode == old(mode)
      ensures size == old(size)
    {
      if v.Some? {
        GridHandlersKeepForm(grid, v.value, false, origH, origW);
        GridInput(OffXChangedAsWritten(grid, v.value, origW, origH));
      }
    }

    /** The offset-Y input. */
    method OffYInput(v: Option<real>)
      requires Valid()
      modifies this
      ensures Valid()
      ensures v.None? ==> grid == old(grid) && result == old(result)
      ensures v.Some? ==> grid == OffYChanged(old(grid), v.value, origH) && result == Staled(old(result), mode)
      ensures ov == old(ov) && img == old(img) && origW == old(origW) && origH == old(origH) && mode == old(mode)
      ensures size == old(size)
    {
      if v.Some? {
        GridHandlersKeepForm(grid, v.value, false, origH, origW);
        GridInput(OffYChanged(grid, v.value, origH));
      }
    }

    /** Whether Calculate produces a result: advanced mode, an image, and
        at least one but fewer than `maxDim` samples each way. */
    predicate CanCalculate(maxDim: int)
      reads this
    {
      mode == Advanced && img.Some? && ValidForm(grid) &&
      var d := SampleDims(origW, origH, GridOf(grid));
      0 < d.cols < maxDim && 0 < d.rows < maxDim
    }

    /** The Calculate button. */
    method Calculate(maxDim: int)
      requires Valid()
      modifies this
      ensures Valid()
      ensures ov == old(ov) && img == old(img) && origW == old(origW) && origH == old(origH) && mode == old(mode)
      ensures size == old(size) && grid == old(grid)
      ensures !old(CanCalculate(maxDim)) ==> result == old(result)
      ensures old(CanCalculate(maxDim)) ==>
                var d := SampleDims(origW, origH, GridOf(grid));
                result == CalcResult(Some(Reconstructed(img.value, AsWritten, GridOf(grid))), d.cols, d.rows, true)
    {
      if mode != Advanced || img.None? {
        return;
      }
      var d := SampleDims(origW, origH, GridOf(grid));
      if d.cols <= 0 || d.rows <= 0 {
        return;
      }
      if d.cols >= maxDim || d.rows >= maxDim {
        return;
      }
      var r := ReconstructViaGrid(img.value, AsWritten, GridOf(grid));
      ReconstructedIsRgba(img.value, AsWritten, GridOf(grid));
      result := CalcResult(r, d.cols, d.rows, true);
    }

    /** The Apply button. In simple mode `drawn` is the image redrawn at the
        typed size (`None` when loading it fails); in advanced mode the
        calculated canvas is stored. `dataUrl` is the PNG data URL of what
        is stored. The dialog closes after a successful apply. */
    method Apply(cfg: Config, caches: Caches, hook: FetchHook, maxDim: int, drawn: Option<seq<int>>, dataUrl: string)
      requires Valid() && caches.Valid()
      requires ov.Some? ==> ov.value < |cfg.overlays|
      requires drawn.Some? && SimpleTarget(size.w, size.h, maxDim).Some? ==>
        var t := SimpleTarget(size.w, size.h, maxDim).value;
        |drawn.value| == 4 * (t.0 * t.1) && IsRgba(drawn.value)
      modifies this, cfg, hook, caches, caches.overlayCache, caches.imageDecodeCache, caches.paletteDetectionCache,
               caches.baseMinifyCache
      ensures Valid()
      ensures var simple := old(mode) == Simple && SimpleTarget(old(size).w, old(size).h, maxDim).Some? && drawn.Some?;
        var advanced := old(mode) == Advanced && old(result).ready;
        if old(ov).Some? && (simple || advanced) then
          var k := old(ov).value;
          var data := if simple then Hardened(drawn.value) else old(result).canvas.value.data;
          cfg.overlays == old(cfg.overlays)[k := WithImage(old(cfg.overlays)[k], dataUrl, data)] &&
          caches.Valid() && caches.Cleared() && hook.installed == OverlaysNeedingHook(cfg) &&
          ov == None && img == None
        else
          unchanged(this, cfg, hook, caches) && caches.Snapshot() == old(caches.Snapshot())
    {
      if ov.None? {
        return;
      }
      var k := ov.value;
      if mode == Simple {
        var t := SimpleTarget(size.w, size.h, maxDim);
        if t.None? || drawn.None? {
          return;
        }
        ResizeOverlayImage(cfg, caches, hook, k, t.value.0, t.value.1, drawn.value, dataUrl);
      } else {
        if !result.ready {
          return;
        }
        var c := result.canvas.value;
        StoreImage(cfg, caches, hook, k, c.width, c.height, c.data, dataUrl);
      }
      Close();
    }
  }
}

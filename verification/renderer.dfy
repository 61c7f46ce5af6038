/** `buildOverlayDataForChunkUnified`: the fragment of one overlay that falls
    on one map tile, in the three display styles, behind its guard ladder
    and its memo caches. Canvas operations become functions on rasters:
    `drawImage` + `getImageData` is `Region`. */
module Renderer {
  import opened Wrappers
  import opened Pixels
  import opened Geometry
  import opened Quantizer
  import opened Cache
  import opened Store
  import opened PixelUrl
  import opened Passes
  import opened Symbols
  import opened OverlayCaches

  /** The constants of the palette and geometry tables: `ALL_COLORS`,
      `SYMBOL_TILES`, `SYMBOL_W`/`SYMBOL_H`, `TILE_SIZE`, `MAX_OVERLAY_DIM`,
      `MINIFY_SCALE` and `MINIFY_SCALE_SYMBOL`. */
  datatype Env = Env(
    palette: seq<Rgb>, symbolTiles: seq<int>, symbolW: nat, symbolH: nat,
    tileSize: nat, maxOverlayDim: int, minifyScale: nat, minifyScaleSymbol: nat)

  predicate ValidEnv(env: Env) {
    ValidPalette(env.palette) && env.minifyScale >= 1 && env.minifyScaleSymbol >= 1
  }

  // ---------------------------------------------------------------------------
  // Signatures and positions.

  /** `s.slice(0, n)`. */
  function Prefix(s: string, n: nat): (t: string)
    ensures |t| <= n && t <= s
  {
    if |s| <= n then s else s[..n]
  }

  /** `overlaySignature(ov, isPalettePerfect)`. */
  function OverlaySignature(ov: OverlayItem, perfect: Option<bool>): (sig: Signature)
    ensures sig.imgKey.None? <==> !Truthy(ov.imageBase64)
    ensures sig.flag == U <==> perfect.None?
  {
    Signature(
      if Truthy(ov.imageBase64) then Some((Prefix(ov.imageBase64.value, 64), |ov.imageBase64.value|)) else None,
      if Truthy(ov.pixelUrl) then ov.pixelUrl.value else "null",
      ov.offsetX, ov.offsetY, ov.opacity,
      match perfect case None => U case Some(b) => if b then P else I)
  }

  /** The signature sees the image only through its first 64 characters and
      its length: two images that agree there share every cache entry. */
  lemma SignatureSeesImagePrefixOnly(ov: OverlayItem, b1: string, b2: string, perfect: Option<bool>)
    requires b1 != "" && b2 != "" && |b1| == |b2| && Prefix(b1, 64) == Prefix(b2, 64)
    ensures OverlaySignature(ov.(imageBase64 := Some(b1)), perfect) ==
            OverlaySignature(ov.(imageBase64 := Some(b2)), perfect)
  {
  }

  /** `(anchorChunk * TILE_SIZE + pos + offset) - targetChunk * TILE_SIZE`. */
  function DrawOrigin(anchorChunk: int, pos: int, offset: int, targetChunk: int, tileSize: nat): (d: int)
    ensures anchorChunk == targetChunk ==> d == pos + offset
    ensures d == (anchorChunk - targetChunk) * tileSize + pos + offset
  {
    (anchorChunk * tileSize + pos + offset) - (targetChunk * tileSize)
  }

  // ---------------------------------------------------------------------------
  // Canvas reads.

  lemma DivBelow(a: int, m: int, n: int)
    requires m >= 1 && 0 <= a < n * m
    ensures 0 <= a / m < n
  {
  }

  /** The pixel a canvas shows at (x, y) after `drawImage(img, dx, dy, w*scale,
      h*scale)` without smoothing on a blank canvas: nearest-neighbour for an
      integer scale, transparent black outside the image. */
  function CanvasPx(img: Image, dx: int, dy: int, scale: nat, x: int, y: int): (px: seq<int>)
    requires ValidImage(img) && scale >= 1
    ensures |px| == 4
  {
    var sx, sy := x - dx, y - dy;
    if 0 <= sx < img.width * scale && 0 <= sy < img.height * scale then
      DivBelow(sx, scale, img.width);
      DivBelow(sy, scale, img.height);
      RowMajor(sx / scale, sy / scale, img.width, img.height);
      var p := (sy / scale) * img.width + sx / scale;
      img.data[4 * p .. 4 * p + 4]
    else Clear
  }

  /** `getImageData(r.x, r.y, r.w, r.h)` of that canvas: the rectangle, row
      by row. */
  function Region(img: Image, dx: int, dy: int, scale: nat, r: Rect): (data: seq<int>)
    requires ValidImage(img) && scale >= 1 && r.w >= 0 && r.h >= 0
    ensures |data| == 4 * (r.w * r.h)
  {
    if r.w == 0 then []
    else
      seq(4 * (r.w * r.h), i requires 0 <= i < 4 * (r.w * r.h) =>
        CanvasPx(img, dx, dy, scale, r.x + (i / 4) % r.w, r.y + (i / 4) / r.w)[i % 4])
  }

  /** A canvas of `w` x `h` pixels read as an image. */
  function CanvasImage(w: nat, h: nat, data: seq<int>): Image {
    Image("", w, h, data)
  }

  // ---------------------------------------------------------------------------
  // Palette-perfect detection.

  /** Every pixel that is neither transparent nor #deface has a colour of the
      palette (an exact key in `colorIndexMap`). */
  predicate PalettePerfect(data: seq<int>, palette: seq<Rgb>)
    requires |data| % 4 == 0
  {
    forall p | 0 <= p < |data| / 4 ::
      AlphaAt(data, p) == 0 || ColorAt(data, p) == Sentinel || ColorAt(data, p) in IndexMapOf(palette)
  }

  /** `colorIndexMap` holds exactly the palette's colours. */
  lemma PalettePerfectMeansInPalette(data: seq<int>, palette: seq<Rgb>)
    requires |data| % 4 == 0
    ensures PalettePerfect(data, palette) <==>
      forall p | 0 <= p < |data| / 4 ::
        AlphaAt(data, p) == 0 || ColorAt(data, p) == Sentinel || ColorAt(data, p) in palette
  {
    forall c: Rgb { IndexMapOfSpec(palette, c); }
  }

  /** `isPalettePerfectImage(img)`, memoised by `img.src`. */
  method IsPalettePerfectImage(caches: Caches, img: Image, palette: seq<Rgb>) returns (perfect: bool)
    requires caches.Valid() && ValidImage(img)
    modifies caches.paletteDetectionCache
    ensures caches.Valid()
    ensures var cached := Lookup(old(caches.paletteDetectionCache.entries), img.src);
      if cached.Some? then
        perfect == cached.value &&
        caches.paletteDetectionCache.entries == AfterGet(old(caches.paletteDetectionCache.entries), img.src)
      else
        perfect == PalettePerfect(img.data, palette) &&
        caches.paletteDetectionCache.entries == AfterSet(old(caches.paletteDetectionCache.entries),
          caches.paletteDetectionCache.max, img.src, perfect)
  {
    var cached := caches.paletteDetectionCache.Get(img.src);
    if cached.Some? {
      return cached.value;
    }
    var colorIndexMap := IndexMapOf(palette);
    var data := img.data;
    var k := 0;
    while k < |data| / 4
      invariant 0 <= k <= |data| / 4
      invariant forall p | 0 <= p < k ::
        AlphaAt(data, p) == 0 || ColorAt(data, p) == Sentinel || ColorAt(data, p) in colorIndexMap
    {
      var i := 4 * k;
      var r, g, b, a := data[i], data[i + 1], data[i + 2], data[i + 3];
      if a == 0 {
      } else if r == 0xDE && g == 0xFA && b == 0xCE {
      } else if Rgb(r, g, b) !in colorIndexMap {
        assert ColorAt(data, k) == Rgb(r, g, b);
        caches.paletteDetectionCache.Set(img.src, false);
        return false;
      }
      k := k + 1;
    }
    caches.paletteDetectionCache.Set(img.src, true);
    return true;
  }

  // ---------------------------------------------------------------------------
  // Image decoding.

  datatype Decoded = NoImage | Loaded(img: Image) | LoadFailed

  /** `decodeOverlayImage(imageBase64)`; `loaded` is what `loadImage` yields
      for it (`None` when it rejects). */
  method DecodeOverlayImage(caches: Caches, imageBase64: Option<string>, loaded: Option<Image>) returns (d: Decoded)
    requires caches.Valid()
    requires loaded.Some? ==> ValidImage(loaded.value)
    modifies caches.imageDecodeCache
    ensures caches.Valid()
    ensures d.Loaded? ==> ValidImage(d.img)
    ensures !Truthy(imageBase64) ==>
      d == NoImage && caches.imageDecodeCache.entries == old(caches.imageDecodeCache.entries)
    ensures Truthy(imageBase64) ==>
      var cached := Lookup(old(caches.imageDecodeCache.entries), imageBase64.value);
      if cached.Some? then
        d == Loaded(cached.value) &&
        caches.imageDecodeCache.entries == AfterGet(old(caches.imageDecodeCache.entries), imageBase64.value)
      else if loaded.None? then
        d == LoadFailed && caches.imageDecodeCache.entries == old(caches.imageDecodeCache.entries)
      else
        d == Loaded(loaded.value) &&
        caches.imageDecodeCache.entries == AfterSet(old(caches.imageDecodeCache.entries),
          caches.imageDecodeCache.max, imageBase64.value, loaded.value)
  {
    if !Truthy(imageBase64) {
      return NoImage;
    }
    var key := imageBase64.value;
    ghost var before := caches.imageDecodeCache.entries;
    var cached := caches.imageDecodeCache.Get(key);
    if cached.Some? {
      assert (key, cached.value) in before;
      AfterGetValues(before, key);
      return Loaded(cached.value);
    }
    if loaded.None? {
      return LoadFailed;
    }
    AfterSetValues(caches.imageDecodeCache.entries, caches.imageDecodeCache.max, key, loaded.value);
    caches.imageDecodeCache.Set(key, loaded.value);
    return Loaded(loaded.value);
  }

  lemma AfterGetValues<K, V>(entries: seq<(K, V)>, key: K)
    ensures forall e | e in AfterGet(entries, key) :: e in entries
  {
  }

  lemma AfterSetValues<K, V>(entries: seq<(K, V)>, max: int, key: K, val: V)
    ensures forall e | e in AfterSet(entries, max, key, val) :: e in entries || e == (key, val)
  {
    var e := Remove(entries, key) + [(key, val)];
    if |e| > max {
      forall x | x in e[1..] ensures x in e { }
    }
  }

  // ---------------------------------------------------------------------------
  // The three branches after a cache miss.

  method ToArray(s: seq<int>) returns (a: array<int>)
    ensures fresh(a) && a[..] == s
  {
    a := new int[|s|](i requires 0 <= i < |s| => s[i]);
  }

  /** The fragment of the 'full' branch for the intersection `isect`: its
      pixels, read from the image, after the full-overlay pass. */
  ghost predicate FullSpec(frag: Fragment, img: Image, drawX: int, drawY: int, cf: Option<map<Rgb, bool>>, s: real,
                           isect: Rect)
    requires ValidImage(img) && isect.w >= 0 && isect.h >= 0
  {
    frag.dx == isect.x && frag.dy == isect.y && !frag.scaled && frag.scale == None &&
    frag.image.width == isect.w && frag.image.height == isect.h &&
    |frag.image.data| == 4 * (isect.w * isect.h) &&
    FullDone(Region(img, drawX, drawY, 1, isect), frag.image.data, cf, s, isect.w * isect.h)
  }

  method FullFragment(img: Image, drawX: int, drawY: int, cf: Option<map<Rgb, bool>>, s: real, isect: Rect)
    returns (frag: Fragment)
    requires ValidImage(img) && isect.w >= 0 && isect.h >= 0
    ensures FullSpec(frag, img, drawX, drawY, cf, s, isect)
  {
    var data := ToArray(Region(img, drawX, drawY, 1, isect));
    FullOverlayPass(data, cf, s);
    frag := Fragment(Raster(isect.w, isect.h, data[..]), isect.x, isect.y, false, None);
  }

  /** The 'behind'/'above' branch: the part of the image over the tile,
      through the full-overlay pass, memoised under `key`. */
  method RenderFull(caches: Caches, key: CacheKey, img: Image, drawX: int, drawY: int,
                    cf: Option<map<Rgb, bool>>, s: real, tileSize: nat) returns (frag: Option<Fragment>)
    requires caches.Valid() && ValidImage(img)
    modifies caches.overlayCache
    ensures caches.Valid()
    ensures caches.overlayCache.entries ==
      AfterSet(old(caches.overlayCache.entries), caches.overlayCache.max, key, frag)
    ensures var isect := RectIntersect(Rect(0, 0, tileSize, tileSize), Rect(drawX, drawY, img.width, img.height));
      if IsEmpty(isect) then frag == None
      else frag.Some? && FullSpec(frag.value, img, drawX, drawY, cf, s, isect)
  {
    var isect := RectIntersect(Rect(0, 0, tileSize, tileSize), Rect(drawX, drawY, img.width, img.height));
    if isect.w == 0 || isect.h == 0 {
      caches.overlayCache.Set(key, None);
      return None;
    }
    var f := FullFragment(img, drawX, drawY, cf, s, isect);
    frag := Some(f);
    caches.overlayCache.Set(key, frag);
  }

  /** The 'dots' branch: the image scaled up by `MINIFY_SCALE`, through the
      dots pass; the blend strength is 1 in minify mode. */
  method RenderDots(caches: Caches, key: CacheKey, img: Image, drawX: int, drawY: int,
                    cf: Option<map<Rgb, bool>>, env: Env) returns (frag: Option<Fragment>)
    requires caches.Valid() && ValidImage(img) && ValidEnv(env)
    modifies caches.overlayCache
    ensures caches.Valid()
    ensures caches.overlayCache.entries ==
      AfterSet(old(caches.overlayCache.entries), caches.overlayCache.max, key, frag)
    ensures var scale := env.minifyScale;
      var tile := env.tileSize * scale;
      var isect := RectIntersect(Rect(0, 0, tile, tile),
                                 Rect(drawX * scale, drawY * scale, img.width * scale, img.height * scale));
      if IsEmpty(isect) then frag == None
      else
        frag.Some? && frag.value.dx == isect.x && frag.value.dy == isect.y &&
        frag.value.scaled && frag.value.scale == Some(scale) &&
        frag.value.image.width == isect.w && frag.value.image.height == isect.h &&
        |frag.value.image.data| == 4 * (isect.w * isect.h) &&
        DotsDone(Region(img, drawX * scale, drawY * scale, scale, isect), frag.value.image.data,
                 isect.x, isect.y, isect.w, scale, cf, 1.0, isect.w * isect.h)
  {
    var scale := env.minifyScale;
    var tileW := env.tileSize * scale;
    var tileH := env.tileSize * scale;
    var drawXScaled := drawX * scale;
    var drawYScaled := drawY * scale;
    var isect := RectIntersect(Rect(0, 0, tileW, tileH),
                               Rect(drawXScaled, drawYScaled, img.width * scale, img.height * scale));
    if isect.w == 0 || isect.h == 0 {
      caches.overlayCache.Set(key, None);
      return None;
    }
    var data := ToArray(Region(img, drawXScaled, drawYScaled, scale, isect));
    DotsPass(data, isect.x, isect.y, isect.w, scale, cf, 1.0);
    frag := Some(Fragment(Raster(isect.w, isect.h, data[..]), isect.x, isect.y, true, Some(scale)));
    caches.overlayCache.Set(key, frag);
  }

  function Zeros(n: nat): (z: seq<int>)
    ensures |z| == n && forall i | 0 <= i < n :: z[i] == 0
  {
    seq(n, _ => 0)
  }

  /** The symbols pass's context for an overlay drawn at (drawX, drawY). */
  function SymbolContext(env: Env, img: Image, drawX: int, drawY: int, perfect: bool,
                         cf: Option<map<Rgb, bool>>): SymbolCtx
  {
    var scale := env.minifyScaleSymbol;
    SymbolCtx(env.palette, env.symbolTiles, env.symbolW, env.symbolH, scale,
              env.tileSize * scale, env.tileSize * scale, perfect, cf, img, drawX, drawY)
  }

  lemma InkIsRgba(buf: seq<int>, palette: seq<Rgb>)
    requires ValidPalette(palette) && OnlyPaletteInk(buf, palette)
    ensures IsRgba(buf)
  {
    forall i | 0 <= i < |buf| ensures IsByte(buf[i]) {
      var p := i / 4;
      assert 4 * p + 3 < |buf|;
      if AlphaAt(buf, p) != 255 {
        assert Px(ColorAt(buf, p), AlphaAt(buf, p)) == Clear;
      } else if Px(ColorAt(buf, p), AlphaAt(buf, p)) != Clear {
        var c := ColorAt(buf, p);
        var k :| 0 <= k < |palette| && palette[k] == c;
        assert IsByteRgb(palette[k]);
      }
      assert i == 4 * p || i == 4 * p + 1 || i == 4 * p + 2 || i == 4 * p + 3;
    }
  }

  lemma BlankIsInk(n: nat, palette: seq<Rgb>)
    ensures OnlyPaletteInk(Zeros(4 * n), palette)
  {
    var blank := Zeros(4 * n);
    forall p | 0 <= p < |blank| / 4 ensures Px(ColorAt(blank, p), AlphaAt(blank, p)) == Clear { }
  }

  /** The output canvas of the symbols branch after the loops. */
  method SymbolsCanvas(env: Env, img: Image, drawX: int, drawY: int, perfect: bool,
                       cf: Option<map<Rgb, bool>>, u: Rect) returns (canvas: seq<int>)
    requires ValidImage(img) && ValidEnv(env)
    requires InImage(SymbolContext(env, img, drawX, drawY, perfect, cf), u)
    ensures var tile := env.tileSize * env.minifyScaleSymbol;
      canvas == CellRows(Zeros(4 * (tile * tile)), SymbolContext(env, img, drawX, drawY, perfect, cf), u, u.y + u.h)
    ensures OnlyPaletteInk(canvas, env.palette) && IsRgba(canvas)
  {
    var tile := env.tileSize * env.minifyScaleSymbol;
    var ctx := SymbolContext(env, img, drawX, drawY, perfect, cf);
    var outData := ToArray(Zeros(4 * (tile * tile)));
    BlankIsInk(tile * tile, env.palette);
    SymbolsPass(outData, ctx, u);
    CellRowsInk(Zeros(4 * (tile * tile)), ctx, u, u.y + u.h);
    canvas := outData[..];
    InkIsRgba(canvas, env.palette);
  }

  /** What the 'symbols' branch yields for the intersection `u` (in tile
      pixels): glyphs of palette colours only stamped on a blank canvas
      `MINIFY_SCALE_SYMBOL` times the tile size, and the scaled
      intersection of that canvas, placed at the scaled corner. */
  ghost predicate SymbolsSpec(frag: Fragment, env: Env, img: Image, drawX: int, drawY: int, perfect: bool,
                              cf: Option<map<Rgb, bool>>, u: Rect)
    requires ValidImage(img) && ValidEnv(env)
  {
    var scale := env.minifyScaleSymbol;
    var tile := env.tileSize * scale;
    var ctx := SymbolContext(env, img, drawX, drawY, perfect, cf);
    var isect := Rect(u.x * scale, u.y * scale, u.w * scale, u.h * scale);
    InImage(ctx, u) &&
    var canvas := CellRows(Zeros(4 * (tile * tile)), ctx, u, u.y + u.h);
    OnlyPaletteInk(canvas, env.palette) && IsRgba(canvas) &&
    frag.dx == isect.x && frag.dy == isect.y && frag.scaled && frag.scale == Some(scale) &&
    frag.image.width == isect.w && frag.image.height == isect.h &&
    frag.image.data == Region(CanvasImage(tile, tile, canvas), 0, 0, 1, isect)
  }

  /** The fragment of the 'symbols' branch for a non-empty intersection `u`:
      the scaled intersection read back from the stamped canvas. */
  method SymbolsFragment(env: Env, img: Image, drawX: int, drawY: int, perfect: bool,
                         cf: Option<map<Rgb, bool>>, u: Rect) returns (frag: Fragment)
    requires ValidImage(img) && ValidEnv(env)
    requires u == RectIntersect(Rect(0, 0, env.tileSize, env.tileSize), Rect(drawX, drawY, img.width, img.height))
    requires !IsEmpty(u)
    ensures SymbolsSpec(frag, env, img, drawX, drawY, perfect, cf, u)
  {
    var scale := env.minifyScaleSymbol;
    var tile := env.tileSize * scale;
    RectIntersectInside(Rect(0, 0, env.tileSize, env.tileSize), Rect(drawX, drawY, img.width, img.height));
    var isect := Rect(u.x * scale, u.y * scale, u.w * scale, u.h * scale);
    var canvas := SymbolsCanvas(env, img, drawX, drawY, perfect, cf, u);
    assert ValidImage(CanvasImage(tile, tile, canvas));
    var finalImageData := Region(CanvasImage(tile, tile, canvas), 0, 0, 1, isect);
    frag := Fragment(Raster(isect.w, isect.h, finalImageData), isect.x, isect.y, true, Some(scale));
  }

  /** The 'symbols' branch: glyphs stamped on a blank canvas `MINIFY_SCALE_SYMBOL`
      times the tile size, then the scaled intersection read back. */
  method RenderSymbols(caches: Caches, key: CacheKey, img: Image, drawX: int, drawY: int,
                       cf: Option<map<Rgb, bool>>, perfect: bool, env: Env) returns (frag: Option<Fragment>)
    requires caches.Valid() && ValidImage(img) && ValidEnv(env)
    modifies caches.overlayCache
    ensures caches.Valid()
    ensures caches.overlayCache.entries ==
      AfterSet(old(caches.overlayCache.entries), caches.overlayCache.max, key, frag)
    ensures var u := RectIntersect(Rect(0, 0, env.tileSize, env.tileSize), Rect(drawX, drawY, img.width, img.height));
      if IsEmpty(u) then frag == None
      else frag.Some? && SymbolsSpec(frag.value, env, img, drawX, drawY, perfect, cf, u)
  {
    var isectUnscaled := RectIntersect(Rect(0, 0, env.tileSize, env.tileSize), Rect(drawX, drawY, img.width, img.height));
    if isectUnscaled.w == 0 || isectUnscaled.h == 0 {
      caches.overlayCache.Set(key, None);
      return None;
    }
    var f := SymbolsFragment(env, img, drawX, drawY, perfect, cf, isectUnscaled);
    frag := Some(f);
    caches.overlayCache.Set(key, frag);
  }

  // ---------------------------------------------------------------------------
  // The guard ladder.

  datatype Outcome = Rendered(fragment: Option<Fragment>) | Threw

  /** The first three guards: enabled, with an image, with an anchor. */
  predicate Renderable(ov: OverlayItem) {
    ov.enabled && Truthy(ov.imageBase64) && Truthy(ov.pixelUrl)
  }

  /** The image the decode step yields for a cache state. */
  function ImageFor(decodeEntries: seq<(string, Image)>, imageBase64: string, loaded: Option<Image>): Option<Image> {
    var cached := Lookup(decodeEntries, imageBase64);
    if cached.Some? then cached else loaded
  }

  predicate TooLarge(img: Image, env: Env) {
    img.width >= env.maxOverlayDim || img.height >= env.maxOverlayDim
  }

  /** How the first half of the ladder ends: refused (null), the image
      failed to load (a throw), or admitted with its image and anchor. */
  datatype Admission = Refused | LoadError | Admitted(img: Image, base: Coords)

  /** The guards up to and including the anchor's tile numbers. */
  method Admit(caches: Caches, env: Env, ov: OverlayItem, loaded: Option<Image>) returns (a: Admission)
    requires caches.Valid()
    requires loaded.Some? ==> ValidImage(loaded.value)
    modifies caches, caches.imageDecodeCache
    ensures caches.Valid()
    ensures caches.overlayCache.entries == old(caches.overlayCache.entries)
    ensures caches.paletteDetectionCache.entries == old(caches.paletteDetectionCache.entries)
    ensures caches.baseMinifyCache.entries == old(caches.baseMinifyCache.entries)
    ensures !Renderable(ov) || ov.id in old(caches.tooLargeOverlays) ==>
      a == Refused && caches.Snapshot() == old(caches.Snapshot())
    ensures caches.tooLargeOverlays == old(caches.tooLargeOverlays) ||
            (caches.tooLargeOverlays == old(caches.tooLargeOverlays) + {ov.id} && a == Refused)
    ensures ov.id in caches.tooLargeOverlays ==> a == Refused
    ensures Renderable(ov) && ov.id !in old(caches.tooLargeOverlays) ==>
      var img := ImageFor(old(caches.imageDecodeCache.entries), ov.imageBase64.value, loaded);
      var base := ExtractPixelCoords(ov.pixelUrl.value);
      (img.None? <==> a == LoadError) &&
      (img.Some? && TooLarge(img.value, env) ==>
        a == Refused && caches.tooLargeOverlays == old(caches.tooLargeOverlays) + {ov.id}) &&
      (img.Some? && !TooLarge(img.value, env) && (base.chunk1.None? || base.chunk2.None?) ==> a == Refused) &&
      (a.Admitted? ==> a.img == img.value && a.base == base)
    ensures a.Admitted? ==>
      Renderable(ov) && ValidImage(a.img) && !TooLarge(a.img, env) &&
      a.base.chunk1.Some? && a.base.chunk2.Some?
  {
    if !ov.enabled || !Truthy(ov.imageBase64) || !Truthy(ov.pixelUrl) {
      return Refused;
    }
    if ov.id in caches.tooLargeOverlays {
      return Refused;
    }
    a := AdmitImage(caches, env, ov, loaded);
  }

  /** `Admit` past its first guards: decode, the size limit, the anchor. */
  method AdmitImage(caches: Caches, env: Env, ov: OverlayItem, loaded: Option<Image>) returns (a: Admission)
    requires caches.Valid() && Renderable(ov) && ov.id !in caches.tooLargeOverlays
    requires loaded.Some? ==> ValidImage(loaded.value)
    modifies caches, caches.imageDecodeCache
    ensures caches.Valid()
    ensures caches.overlayCache.entries == old(caches.overlayCache.entries)
    ensures caches.paletteDetectionCache.entries == old(caches.paletteDetectionCache.entries)
    ensures caches.baseMinifyCache.entries == old(caches.baseMinifyCache.entries)
    ensures caches.tooLargeOverlays == old(caches.tooLargeOverlays) ||
            (caches.tooLargeOverlays == old(caches.tooLargeOverlays) + {ov.id} && a == Refused)
    ensures var img := ImageFor(old(caches.imageDecodeCache.entries), ov.imageBase64.value, loaded);
      var base := ExtractPixelCoords(ov.pixelUrl.value);
      (img.None? <==> a == LoadError) &&
      (img.Some? && TooLarge(img.value, env) ==>
        a == Refused && caches.tooLargeOverlays == old(caches.tooLargeOverlays) + {ov.id}) &&
      (img.Some? && !TooLarge(img.value, env) && (base.chunk1.None? || base.chunk2.None?) ==> a == Refused) &&
      (a.Admitted? ==> a.img == img.value && a.base == base)
    ensures a.Admitted? ==>
      ValidImage(a.img) && !TooLarge(a.img, env) && a.base.chunk1.Some? && a.base.chunk2.Some?
  {
    var decoded := DecodeOverlayImage(caches, ov.imageBase64, loaded);
    if !decoded.Loaded? {
      return LoadError;
    }
    a := AdmitLoaded(caches, env, ov, decoded.img);
  }

  /** `Admit` once the image is decoded: the size limit, then the anchor. */
  method AdmitLoaded(caches: Caches, env: Env, ov: OverlayItem, img: Image) returns (a: Admission)
    requires caches.Valid() && ValidImage(img) && ov.pixelUrl.Some?
    modifies caches
    ensures caches.Valid()
    ensures caches.tooLargeOverlays ==
      if TooLarge(img, env) then old(caches.tooLargeOverlays) + {ov.id} else old(caches.tooLargeOverlays)
    ensures var base := ExtractPixelCoords(ov.pixelUrl.value);
      a == if TooLarge(img, env) || base.chunk1.None? || base.chunk2.None? then Refused else Admitted(img, base)
  {
    if img.width >= env.maxOverlayDim || img.height >= env.maxOverlayDim {
      caches.MarkTooLarge(ov.id);
      return Refused;
    }
    var base := ExtractPixelCoords(ov.pixelUrl.value);
    if base.chunk1.None? || base.chunk2.None? {
      return Refused;
    }
    return Admitted(img, base);
  }

  /** The memo `key` for overlay `ov` on the tile (`c1`, `c2`) in `mode`
      holds `frag` in the cache `now`, and a value the cache `before` held
      under it was returned as it was. */
  ghost predicate Memoised(key: CacheKey, ov: OverlayItem, mode: Mode, c1: int, c2: int, frag: Option<Fragment>,
                           now: seq<(CacheKey, Option<Fragment>)>, before: seq<(CacheKey, Option<Fragment>)>)
  {
    key.id == ov.id && key.mode == mode && key.chunk1 == c1 && key.chunk2 == c2 &&
    key.sig == OverlaySignature(ov, Some(key.sig.flag == P)) &&
    Lookup(now, key) == Some(frag) &&
    (Lookup(before, key).Some? ==> Some(frag) == Lookup(before, key))
  }

  /** From the palette-perfect check to the memoised fragment. */
  method RenderAdmitted(caches: Caches, env: Env, style: MinifyStyle, ov: OverlayItem, img: Image, base: Coords,
                        targetChunk1: int, targetChunk2: int, mode: Mode)
    returns (r: Outcome, ghost memoKey: Option<CacheKey>)
    requires caches.Valid() && ValidEnv(env) && ValidImage(img) && mode != Original
    requires base.chunk1.Some? && base.chunk2.Some?
    modifies caches.overlayCache, caches.paletteDetectionCache
    ensures caches.Valid()
    ensures r == Threw <==> memoKey.None?
    ensures r == Threw ==>
      (base.posX.None? || base.posY.None?) && caches.overlayCache.entries == old(caches.overlayCache.entries)
    ensures memoKey.Some? ==>
      r.Rendered? && memoKey.value.sig.flag != U &&
      Memoised(memoKey.value, ov, mode, targetChunk1, targetChunk2, r.fragment,
               caches.overlayCache.entries, old(caches.overlayCache.entries))
  {
    var isPalettePerfect := IsPalettePerfectImage(caches, img, env.palette);
    var sig := OverlaySignature(ov, Some(isPalettePerfect));
    var cacheKey := CacheKey(ov.id, sig, targetChunk1, targetChunk2, mode);
    var stored;
    r, stored := RenderMemo(caches, env, style, ov, img, base, cacheKey, isPalettePerfect);
    memoKey := if stored then Some(cacheKey) else None;
  }

  /** The `overlayCache` lookup under `key`, and a miss rendered and
      stored. */
  method RenderMemo(caches: Caches, env: Env, style: MinifyStyle, ov: OverlayItem, img: Image, base: Coords,
                    key: CacheKey, isPalettePerfect: bool)
    returns (r: Outcome, stored: bool)
    requires caches.Valid() && ValidEnv(env) && ValidImage(img) && key.mode != Original
    requires base.chunk1.Some? && base.chunk2.Some?
    modifies caches.overlayCache
    ensures caches.Valid()
    ensures r == Threw <==> !stored
    ensures r == Threw ==>
      (base.posX.None? || base.posY.None?) && caches.overlayCache.entries == old(caches.overlayCache.entries)
    ensures stored ==>
      r.Rendered? && Lookup(caches.overlayCache.entries, key) == Some(r.fragment) &&
      (Lookup(old(caches.overlayCache.entries), key).Some? ==>
        Some(r.fragment) == Lookup(old(caches.overlayCache.entries), key))
  {
    ghost var beforeGet := caches.overlayCache.entries;
    var cached := caches.overlayCache.Get(key);
    if cached.Some? {
      GetPromotes(beforeGet, key);
      return Rendered(cached.value), true;
    }
    ghost var beforeMiss := caches.overlayCache.entries;
    r := RenderMiss(caches, env, style, ov, img, base, key, isPalettePerfect);
    if r == Threw {
      return r, false;
    }
    SetStores(beforeMiss, caches.overlayCache.max, key, r.fragment);
    stored := true;
  }

  /** One side of the intersection the branch of `mode` and `style` tests,
      on the axis where the anchor's pixel coordinate is `pos` and the image
      extends `len` pixels: the tile and the image scaled by `MINIFY_SCALE`
      in the dots branch, unscaled otherwise. `None` where `pos` is NaN,
      which makes the side NaN as well. */
  function AxisExtent(env: Env, style: MinifyStyle, mode: Mode, anchorChunk: int, pos: Option<int>,
                      offset: int, targetChunk: int, len: nat): (e: Option<int>)
    ensures e.None? <==> pos.None?
    ensures e.Some? ==> e.value >= 0
  {
    if pos.None? then None
    else
      var d := DrawOrigin(anchorChunk, pos.value, offset, targetChunk, env.tileSize);
      if mode == Minify && style != Symbols then
        var scale := env.minifyScale;
        Some(Overlap(0, env.tileSize * scale, d * scale, len * scale))
      else Some(Overlap(0, env.tileSize, d, len))
  }

  /** With both coordinates finite, the two extents are the width and the
      height of the intersection the branch tests, so the branch memoises
      null exactly when one of them is 0. */
  lemma AxisExtentsAreIntersection(env: Env, style: MinifyStyle, mode: Mode, ov: OverlayItem, img: Image,
                                   base: Coords, key: CacheKey)
    requires base.chunk1.Some? && base.chunk2.Some? && base.posX.Some? && base.posY.Some?
    ensures var ex := AxisExtent(env, style, mode, base.chunk1.value, base.posX, ov.offsetX, key.chunk1, img.width);
      var ey := AxisExtent(env, style, mode, base.chunk2.value, base.posY, ov.offsetY, key.chunk2, img.height);
      var dx := DrawOrigin(base.chunk1.value, base.posX.value, ov.offsetX, key.chunk1, env.tileSize);
      var dy := DrawOrigin(base.chunk2.value, base.posY.value, ov.offsetY, key.chunk2, env.tileSize);
      var s := env.minifyScale;
      var isect := if mode == Minify && style != Symbols
        then RectIntersect(Rect(0, 0, env.tileSize * s, env.tileSize * s), Rect(dx * s, dy * s, img.width * s, img.height * s))
        else RectIntersect(Rect(0, 0, env.tileSize, env.tileSize), Rect(dx, dy, img.width, img.height));
      ex == Some(isect.w) && ey == Some(isect.h) && (IsEmpty(isect) <==> ex == Some(0) || ey == Some(0))
  {
  }

  /** A cache miss: place the image on the target tile, draw the branch the
      mode and style select, and memoise the result under `key`. A NaN
      pixel coordinate makes that axis of the intersection NaN; the branch's
      emptiness test still sees the other axis, so a finite axis that misses
      the tile memoises null, and otherwise `getImageData` throws. */
  method RenderMiss(caches: Caches, env: Env, style: MinifyStyle, ov: OverlayItem, img: Image, base: Coords,
                    key: CacheKey, isPalettePerfect: bool)
    returns (r: Outcome)
    requires caches.Valid() && ValidEnv(env) && ValidImage(img) && key.mode != Original
    requires base.chunk1.Some? && base.chunk2.Some?
    modifies caches.overlayCache
    ensures caches.Valid()
    ensures var ex := AxisExtent(env, style, key.mode, base.chunk1.value, base.posX, ov.offsetX, key.chunk1, img.width);
      var ey := AxisExtent(env, style, key.mode, base.chunk2.value, base.posY, ov.offsetY, key.chunk2, img.height);
      (r == Threw <==> (ex.None? || ey.None?) && ex != Some(0) && ey != Some(0)) &&
      (r.Rendered? && (ex.None? || ey.None?) ==> r.fragment == None)
    ensures r == Threw ==> base.posX.None? || base.posY.None?
    ensures r == Threw ==> caches.overlayCache.entries == old(caches.overlayCache.entries)
    ensures r.Rendered? ==>
      caches.overlayCache.entries == AfterSet(old(caches.overlayCache.entries), caches.overlayCache.max, key, r.fragment)
  {
    var ex := AxisExtent(env, style, key.mode, base.chunk1.value, base.posX, ov.offsetX, key.chunk1, img.width);
    var ey := AxisExtent(env, style, key.mode, base.chunk2.value, base.posY, ov.offsetY, key.chunk2, img.height);
    if ex.None? || ey.None? {
      if ex == Some(0) || ey == Some(0) {
        // `NaN === 0` is false, but the finite axis is 0: null is memoised
        caches.overlayCache.Set(key, None);
        return Rendered(None);
      }
      // a NaN extent reaches getImageData, which throws IndexSizeError
      return Threw;
    }
    var drawX := DrawOrigin(base.chunk1.value, base.posX.value, ov.offsetX, key.chunk1, env.tileSize);
    var drawY := DrawOrigin(base.chunk2.value, base.posY.value, ov.offsetY, key.chunk2, env.tileSize);
    var colorStrength := if key.mode == Minify then 1.0 else ov.opacity;
    var frag: Option<Fragment>;
    if key.mode != Minify {
      frag := RenderFull(caches, key, img, drawX, drawY, ov.colorFilter, colorStrength, env.tileSize);
    } else if style == Symbols {
      frag := RenderSymbols(caches, key, img, drawX, drawY, ov.colorFilter, isPalettePerfect, env);
    } else {
      frag := RenderDots(caches, key, img, drawX, drawY, ov.colorFilter, env);
    }
    return Rendered(frag);
  }

  /** `buildOverlayDataForChunkUnified(ov, targetChunk1, targetChunk2, mode)`.
      `loaded` is what `loadImage` yields for the overlay's data URL; `Threw`
      is a rejected promise. `memoKey` is the key the result is memoised
      under, when it is. */
  method BuildOverlayDataForChunkUnified(caches: Caches, env: Env, style: MinifyStyle, ov: OverlayItem,
                                         targetChunk1: int, targetChunk2: int, mode: Mode,
                                         loaded: Option<Image>)
    returns (r: Outcome, ghost memoKey: Option<CacheKey>)
    requires caches.Valid() && ValidEnv(env) && mode != Original
    requires loaded.Some? ==> ValidImage(loaded.value)
    modifies caches, caches.overlayCache, caches.imageDecodeCache, caches.paletteDetectionCache
    ensures caches.Valid()
    // disabled, without image or without anchor, or already refused: null, nothing touched
    ensures !Renderable(ov) || ov.id in old(caches.tooLargeOverlays) ==>
      r == Rendered(None) && caches.Snapshot() == old(caches.Snapshot())
    // the refused set only grows, by this overlay, and a refused overlay never renders
    ensures caches.tooLargeOverlays == old(caches.tooLargeOverlays) ||
            caches.tooLargeOverlays == old(caches.tooLargeOverlays) + {ov.id}
    ensures ov.id in caches.tooLargeOverlays ==> r == Rendered(None)
    // a too-large image is refused for good
    ensures Renderable(ov) && ov.id !in old(caches.tooLargeOverlays) ==>
      var img := ImageFor(old(caches.imageDecodeCache.entries), ov.imageBase64.value, loaded);
      img.Some? && TooLarge(img.value, env) ==>
        r == Rendered(None) && caches.tooLargeOverlays == old(caches.tooLargeOverlays) + {ov.id}
    // an anchor whose tile numbers do not parse renders nothing and stores nothing
    ensures Renderable(ov) && ov.id !in old(caches.tooLargeOverlays) ==>
      var img := ImageFor(old(caches.imageDecodeCache.entries), ov.imageBase64.value, loaded);
      var base := ExtractPixelCoords(ov.pixelUrl.value);
      img.Some? && !TooLarge(img.value, env) && (base.chunk1.None? || base.chunk2.None?) ==>
        r == Rendered(None) && caches.overlayCache.entries == old(caches.overlayCache.entries)
    // it throws only when the image does not load or the pixel position is NaN
    ensures r == Threw ==>
      Renderable(ov) &&
      (ImageFor(old(caches.imageDecodeCache.entries), ov.imageBase64.value, loaded).None? ||
       ExtractPixelCoords(ov.pixelUrl.value).posX.None? || ExtractPixelCoords(ov.pixelUrl.value).posY.None?)
    // a stored value (null included) is returned as it is; a computed one is stored
    ensures memoKey.Some? ==>
      r.Rendered? && Renderable(ov) &&
      Memoised(memoKey.value, ov, mode, targetChunk1, targetChunk2, r.fragment,
               caches.overlayCache.entries, old(caches.overlayCache.entries))
    ensures r.Rendered? && r.fragment.Some? ==> memoKey.Some?
  {
    var a := Admit(caches, env, ov, loaded);
    match a
    case Refused => return Rendered(None), None;
    case LoadError => return Threw, None;
    case Admitted(img, base) =>
      r, memoKey := RenderAdmitted(caches, env, style, ov, img, base, targetChunk1, targetChunk2, mode);
  }
}

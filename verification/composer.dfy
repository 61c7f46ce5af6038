/** `composeTileUnified`: how the fragments of one tile are laid over the
    original tile image. Pixel compositing is left to the canvas; the model
    records the drawing steps in the order they are issued. */
module Composer {
  import opened Wrappers
  import opened Pixels
  import opened Geometry
  import opened Cache
  import opened Store
  import opened OverlayCaches
  import opened Symbols
  import opened Renderer

  /** One drawing step on the output canvas. */
  datatype Layer =
    | OriginalTile                                   // drawImage(originalImage, 0, 0)
    | BaseLayer(base: Raster)                        // putImageData(scaledBaseImageData, 0, 0)
    | FragmentLayer(image: Raster, dx: int, dy: int) // drawImage(temp, ovd.dx, ovd.dy)

  /** What the composer resolves to: the original blob untouched, a canvas
      of the given size drawn layer by layer, or the `RangeError` that
      `DataView.getUint32` raises on a blob shorter than four bytes. */
  datatype Composed =
    | PassThrough
    | Canvas(width: nat, height: nat, layers: seq<Layer>)
    | RangeError

  // ---------------------------------------------------------------------------
  // The base-tile cache key.

  /** `view.getUint32(i, true)`: four bytes, least significant first. */
  function LeU32(blob: seq<bv8>, i: nat): (v: bv32)
    requires i + 4 <= |blob|
  {
    (blob[i] as bv32) | ((blob[i + 1] as bv32) << 8) | ((blob[i + 2] as bv32) << 16) | ((blob[i + 3] as bv32) << 24)
  }

  /** The four bytes can be read back from the word, lowest first, so the
      word is a faithful little-endian reading of them. */
  lemma LeU32Bytes(blob: seq<bv8>, i: nat)
    requires i + 4 <= |blob|
    ensures var v := LeU32(blob, i);
      (v & 0xFF) as bv8 == blob[i] && ((v >> 8) & 0xFF) as bv8 == blob[i + 1] &&
      ((v >> 16) & 0xFF) as bv8 == blob[i + 2] && (v >> 24) as bv8 == blob[i + 3]
  {
  }

  /** The first word XOR the last word of the blob. */
  function BaseHash(blob: seq<bv8>): bv32
    requires |blob| >= 4
  {
    LeU32(blob, 0) ^ LeU32(blob, |blob| - 4)
  }

  /** A blob whose first and last four bytes agree (one of exactly four
      bytes, for one) hashes to 0. */
  lemma BaseHashOfMatchingEnds(blob: seq<bv8>)
    requires |blob| >= 4 && blob[..4] == blob[|blob| - 4..]
    ensures BaseHash(blob) == 0
  {
    var n := |blob|;
    SameSlices(blob[..4], blob[n - 4..], blob, blob);
    SameWords(blob);
    XorSelf(LeU32(blob, 0));
  }

  lemma SameWords(blob: seq<bv8>)
    requires |blob| >= 4
    requires blob[0] == blob[|blob| - 4] && blob[1] == blob[|blob| - 3]
    requires blob[2] == blob[|blob| - 2] && blob[3] == blob[|blob| - 1]
    ensures LeU32(blob, 0) == LeU32(blob, |blob| - 4)
  {
  }

  lemma XorSelf(a: bv32)
    ensures a ^ a == 0
  {
  }

  /** Equal four-byte slices agree byte by byte. */
  lemma SameSlices(s1: seq<bv8>, s2: seq<bv8>, b1: seq<bv8>, b2: seq<bv8>)
    requires |b1| >= 4 && |b2| >= 4
    requires s1 == b1[..4] && s2 == b2[|b2| - 4..] && s1 == s2
    ensures b1[0] == b2[|b2| - 4] && b1[1] == b2[|b2| - 3] && b1[2] == b2[|b2| - 2] && b1[3] == b2[|b2| - 1]
  {
    assert s1[0] == s2[0] && s1[1] == s2[1] && s1[2] == s2[2] && s1[3] == s2[3];
  }

  /** The upscaling factor of the minify style in force. */
  function MinifyScaleFor(env: Env, style: MinifyStyle): (scale: nat)
    requires ValidEnv(env)
    ensures scale >= 1
    ensures style == Symbols ==> scale == env.minifyScaleSymbol
    ensures style != Symbols ==> scale == env.minifyScale
  {
    if style == Symbols then env.minifyScaleSymbol else env.minifyScale
  }

  /** `base:${size}:${hash}:${w}x${h}:${scale}:${minifyStyle}`. */
  function BaseKeyOf(blob: seq<bv8>, original: Image, scale: nat, style: MinifyStyle): (k: BaseKey)
    requires |blob| >= 4
    ensures k.size == |blob| && k.width == original.width && k.height == original.height
    ensures k.scale == scale && k.style == style
  {
    BaseKey(|blob|, BaseHash(blob), original.width, original.height, scale, style)
  }

  /** The key sees the blob only through its size and its first and last
      four bytes: two tiles that agree there share a cached base. */
  lemma BaseKeySeesEndsOnly(b1: seq<bv8>, b2: seq<bv8>, original: Image, scale: nat, style: MinifyStyle)
    requires |b1| == |b2| >= 4
    requires b1[..4] == b2[..4] && b1[|b1| - 4..] == b2[|b2| - 4..]
    ensures BaseKeyOf(b1, original, scale, style) == BaseKeyOf(b2, original, scale, style)
  {
    var n := |b1|;
    forall k | 0 <= k < 4 ensures b1[k] == b2[k] {
      assert b1[k] == b1[..4][k] && b2[k] == b2[..4][k];
    }
    forall k | n - 4 <= k < n ensures b1[k] == b2[k] {
      assert b1[k] == b1[n - 4..][k - (n - 4)] && b2[k] == b2[n - 4..][k - (n - 4)];
    }
  }

  /** The original tile drawn at `scale` times its size without smoothing. */
  function ScaledBase(original: Image, scale: nat): (base: Raster)
    requires ValidImage(original) && scale >= 1
    ensures base.width == original.width * scale && base.height == original.height * scale
    ensures |base.data| == 4 * (base.width * base.height)
  {
    var w, h := original.width * scale, original.height * scale;
    Raster(w, h, Region(original, 0, 0, scale, Rect(0, 0, w, h)))
  }

  /** Each pixel of the scaled base repeats the original pixel it covers. */
  lemma ScaledBasePixel(original: Image, scale: nat, x: nat, y: nat, k: nat)
    requires ValidImage(original) && scale >= 1 && k < 4
    requires x < original.width * scale && y < original.height * scale
    ensures var base := ScaledBase(original, scale);
      0 <= 4 * (y * base.width + x) + k < |base.data| &&
      0 <= 4 * ((y / scale) * original.width + x / scale) + k < |original.data| &&
      base.data[4 * (y * base.width + x) + k] ==
      original.data[4 * ((y / scale) * original.width + x / scale) + k]
  {
    var w, h := original.width * scale, original.height * scale;
    RowMajor(x, y, w, h);
    DivBelow(x, scale, original.width);
    DivBelow(y, scale, original.height);
    RowMajor(x / scale, y / scale, original.width, original.height);
    var i := 4 * (y * w + x) + k;
    assert i / 4 == y * w + x && i % 4 == k;
    RowColumn(x, y, w);
  }

  /** Row and column of a row-major pixel index. */
  lemma RowColumn(x: int, y: int, w: int)
    requires 0 <= x < w && 0 <= y
    ensures (y * w + x) / w == y && (y * w + x) % w == x
  {
    var a := y * w + x;
    var q, r := a / w, a % w;
    assert a == q * w + r && 0 <= r < w;
    assert (q - y) * w == x - r;
    if q > y {
      MulAtLeast(q - y, w);
    } else if q < y {
      MulAtLeast(y - q, w);
    }
  }

  lemma MulAtLeast(d: int, w: int)
    requires d >= 1 && w >= 0
    ensures d * w >= w
  {
    assert d * w == w + (d - 1) * w;
  }

  // ---------------------------------------------------------------------------
  // The layer list.

  /** The fragments that are drawn, in order: nulls are skipped and, when
      `skipEmpty` (the minify loop), so are fragments with no width or no
      height. */
  function Drawn(datas: seq<Option<Fragment>>, skipEmpty: bool): (layers: seq<Layer>)
    ensures |layers| <= |datas|
  {
    if datas == [] then []
    else
      var rest := Drawn(datas[..|datas| - 1], skipEmpty);
      var last := datas[|datas| - 1];
      if last.None? || (skipEmpty && (last.value.image.width == 0 || last.value.image.height == 0)) then rest
      else rest + [FragmentLayer(last.value.image, last.value.dx, last.value.dy)]
  }

  /** Skipping commutes with concatenation: the fragments keep their order. */
  lemma {:induction false} DrawnAppend(a: seq<Option<Fragment>>, b: seq<Option<Fragment>>, skipEmpty: bool)
    ensures Drawn(a + b, skipEmpty) == Drawn(a, skipEmpty) + Drawn(b, skipEmpty)
    decreases |b|
  {
    if b == [] {
      assert a + b == a;
    } else {
      var b' := b[..|b| - 1];
      assert (a + b)[..|a + b| - 1] == a + b';
      assert (a + b)[|a + b| - 1] == b[|b| - 1];
      DrawnAppend(a, b', skipEmpty);
    }
  }

  /** Every drawn layer is a present fragment, and every present fragment
      (non-empty, in the minify loop) is drawn. */
  lemma {:induction false} DrawnSpec(datas: seq<Option<Fragment>>, skipEmpty: bool)
    ensures forall l | l in Drawn(datas, skipEmpty) ::
      exists i | 0 <= i < |datas| :: datas[i].Some? && l == FragmentLayer(datas[i].value.image, datas[i].value.dx, datas[i].value.dy)
    ensures forall i | 0 <= i < |datas| && datas[i].Some? &&
        !(skipEmpty && (datas[i].value.image.width == 0 || datas[i].value.image.height == 0)) ::
      FragmentLayer(datas[i].value.image, datas[i].value.dx, datas[i].value.dy) in Drawn(datas, skipEmpty)
    decreases |datas|
  {
    if datas != [] {
      var init := datas[..|datas| - 1];
      DrawnSpec(init, skipEmpty);
      forall l | l in Drawn(datas, skipEmpty)
        ensures exists i | 0 <= i < |datas| :: datas[i].Some? && l == FragmentLayer(datas[i].value.image, datas[i].value.dx, datas[i].value.dy)
      {
        if l in Drawn(init, skipEmpty) {
          var i :| 0 <= i < |init| && init[i].Some? && l == FragmentLayer(init[i].value.image, init[i].value.dx, init[i].value.dy);
          assert datas[i] == init[i];
        } else {
          assert datas[|datas| - 1].Some?;
        }
      }
      forall i | 0 <= i < |datas| && datas[i].Some? &&
          !(skipEmpty && (datas[i].value.image.width == 0 || datas[i].value.image.height == 0))
        ensures FragmentLayer(datas[i].value.image, datas[i].value.dx, datas[i].value.dy) in Drawn(datas, skipEmpty)
      {
        if i < |init| {
          assert datas[i] == init[i];
        }
      }
    }
  }

  /** A list of nulls only draws no fragment at all. */
  lemma {:induction false} DrawnOfNulls(datas: seq<Option<Fragment>>, skipEmpty: bool)
    requires forall i | 0 <= i < |datas| :: datas[i].None?
    ensures Drawn(datas, skipEmpty) == []
    decreases |datas|
  {
    if datas != [] {
      DrawnOfNulls(datas[..|datas| - 1], skipEmpty);
    }
  }

  /** The `for (const ovd of overlayDatas)` loop: one draw per fragment kept. */
  method DrawEach(datas: seq<Option<Fragment>>, skipEmpty: bool) returns (layers: seq<Layer>)
    ensures layers == Drawn(datas, skipEmpty)
  {
    layers := [];
    var i := 0;
    while i < |datas|
      invariant 0 <= i <= |datas|
      invariant layers == Drawn(datas[..i], skipEmpty)
    {
      assert datas[..i + 1][..i] == datas[..i];
      var ovd := datas[i];
      if ovd.Some? && !(skipEmpty && (ovd.value.image.width == 0 || ovd.value.image.height == 0)) {
        layers := layers + [FragmentLayer(ovd.value.image, ovd.value.dx, ovd.value.dy)];
      }
      i := i + 1;
    }
    assert datas[..i] == datas;
  }

  // ---------------------------------------------------------------------------
  // The composer.

  /** The base the minify branch draws on: the cached one for this key, or
      a fresh upscale of the original. */
  function BaseFor(entries: seq<(BaseKey, Raster)>, key: BaseKey, original: Image, scale: nat): Raster
    requires ValidImage(original) && scale >= 1
  {
    Lookup(entries, key).GetOr(ScaledBase(original, scale))
  }

  /** The 'minify' branch: the scaled base, from the cache or freshly
      upscaled and then cached, under every fragment of some size. */
  method ComposeMinify(caches: Caches, env: Env, style: MinifyStyle, blob: seq<bv8>, original: Image,
                       overlayDatas: seq<Option<Fragment>>) returns (c: Composed)
    requires caches.Valid() && ValidEnv(env) && ValidImage(original)
    modifies caches.baseMinifyCache
    ensures caches.Valid()
    ensures |blob| < 4 ==>
      c == RangeError && caches.baseMinifyCache.entries == old(caches.baseMinifyCache.entries)
    ensures |blob| >= 4 ==>
      var scale := MinifyScaleFor(env, style);
      var key := BaseKeyOf(blob, original, scale, style);
      var base := BaseFor(old(caches.baseMinifyCache.entries), key, original, scale);
      c == Canvas(original.width * scale, original.height * scale, [BaseLayer(base)] + Drawn(overlayDatas, true)) &&
      Lookup(caches.baseMinifyCache.entries, key) == Some(base)
  {
    var scale := MinifyScaleFor(env, style);
    if |blob| < 4 {
      return RangeError;
    }
    var key := BaseKeyOf(blob, original, scale, style);
    ghost var before := caches.baseMinifyCache.entries;
    var cached := caches.baseMinifyCache.Get(key);
    assert caches.Valid();
    var base: Raster;
    if cached.Some? {
      GetPromotes(before, key);
      base := cached.value;
    } else {
      base := ScaledBase(original, scale);
      SetStores(caches.baseMinifyCache.entries, caches.baseMinifyCache.max, key, base);
      caches.baseMinifyCache.Set(key, base);
      assert caches.Valid();
    }
    assert Lookup(caches.baseMinifyCache.entries, key) == Some(base);
    assert base == BaseFor(old(caches.baseMinifyCache.entries), key, original, scale);
    var fragments := DrawEach(overlayDatas, true);
    return Canvas(original.width * scale, original.height * scale, [BaseLayer(base)] + fragments);
  }

  /** `composeTileUnified(originalBlob, overlayDatas, mode)`; `blob` is the
      tile's bytes and `original` what `blobToImage` decodes from them. */
  method ComposeTileUnified(caches: Caches, env: Env, style: MinifyStyle, blob: seq<bv8>, original: Image,
                            overlayDatas: seq<Option<Fragment>>, mode: Mode) returns (c: Composed)
    requires caches.Valid() && ValidEnv(env) && ValidImage(original)
    modifies caches.baseMinifyCache
    ensures caches.Valid()
    ensures overlayDatas == [] ==> c == PassThrough
    ensures overlayDatas == [] || mode != Minify || |blob| < 4 ==>
      caches.baseMinifyCache.entries == old(caches.baseMinifyCache.entries)
    // 'behind': the fragments first, the original over them
    ensures overlayDatas != [] && mode == Behind ==>
      c == Canvas(original.width, original.height, Drawn(overlayDatas, false) + [OriginalTile])
    // 'above': the original first, the fragments over it
    ensures overlayDatas != [] && mode != Minify && mode != Behind ==>
      c == Canvas(original.width, original.height, [OriginalTile] + Drawn(overlayDatas, false))
    ensures overlayDatas != [] && mode == Minify && |blob| < 4 ==> c == RangeError
    // 'minify': the (cached) scaled base, then every fragment of some size
    ensures overlayDatas != [] && mode == Minify && |blob| >= 4 ==>
      var scale := MinifyScaleFor(env, style);
      var key := BaseKeyOf(blob, original, scale, style);
      var base := BaseFor(old(caches.baseMinifyCache.entries), key, original, scale);
      c == Canvas(original.width * scale, original.height * scale, [BaseLayer(base)] + Drawn(overlayDatas, true)) &&
      Lookup(caches.baseMinifyCache.entries, key) == Some(base)
  {
    if overlayDatas == [] {
      return PassThrough;
    }
    if mode == Minify {
      c := ComposeMinify(caches, env, style, blob, original, overlayDatas);
      return;
    }
    var fragments := DrawEach(overlayDatas, false);
    if mode == Behind {
      c := Canvas(original.width, original.height, fragments + [OriginalTile]);
    } else {
      c := Canvas(original.width, original.height, [OriginalTile] + fragments);
    }
  }

  /** 'behind' and 'above' draw the same layers, the original last in one
      and first in the other. */
  lemma BehindAboveSameLayers(datas: seq<Option<Fragment>>)
    ensures multiset(Drawn(datas, false) + [OriginalTile]) == multiset([OriginalTile] + Drawn(datas, false))
    ensures (Drawn(datas, false) + [OriginalTile])[|Drawn(datas, false)|] == OriginalTile
    ensures OriginalTile !in Drawn(datas, false)
  {
    DrawnSpec(datas, false);
  }
}

/** The fetch hook: whether it is installed, the anchor it captures from
    pixel requests, and the tile requests it answers with composed images.
    The URL matchers and the network are parameters: `tileMatch` is what
    `matchTileUrl` yields for the request, `pixelMatch` the normalised URL
    `matchPixelUrl` yields, and the response is given as a value. */
module Hook {
  import opened Wrappers
  import opened Text
  import opened Pixels
  import opened Cache
  import opened Store
  import opened OverlayCaches
  import opened Renderer
  import opened PixelUrl
  import opened Composer

  // ---------------------------------------------------------------------------
  // When the hook is needed.

  /** `overlays.some(o => o.enabled && o.imageBase64)`. */
  function SomeEnabledImage(overlays: seq<OverlayItem>): (b: bool)
    ensures b <==> exists k | 0 <= k < |overlays| :: overlays[k].enabled && Truthy(overlays[k].imageBase64)
  {
    if overlays == [] then false
    else (overlays[0].enabled && Truthy(overlays[0].imageBase64)) || SomeEnabledImage(overlays[1..])
  }

  /** `overlaysNeedingHook()`. */
  function OverlaysNeedingHook(cfg: Config): bool
    reads cfg
  {
    var placing := cfg.autoCapturePixelUrl && Truthy(cfg.activeOverlayId);
    cfg.overlayMode != Original && (SomeEnabledImage(cfg.overlays) || placing) && |cfg.overlays| > 0
  }

  /** No overlay, or the 'original' mode, never needs the hook; an enabled
      overlay with an image in a rewriting mode always does. */
  lemma NeedingHookCases(cfg: Config, k: nat)
    ensures cfg.overlays == [] || cfg.overlayMode == Original ==> !OverlaysNeedingHook(cfg)
    ensures (k < |cfg.overlays| && cfg.overlays[k].enabled && Truthy(cfg.overlays[k].imageBase64) &&
             cfg.overlayMode != Original) ==> OverlaysNeedingHook(cfg)
  {
  }

  /** The module-level `hookInstalled` flag (the patched `fetch` itself is
      platform plumbing). */
  class FetchHook {
    var installed: bool

    constructor ()
      ensures !installed
    {
      installed := false;
    }

    /** `attachHook()`: a no-op when already installed. */
    method AttachHook()
      modifies this
      ensures installed
      ensures old(installed) ==> unchanged(this)
    {
      if installed {
        return;
      }
      installed := true;
    }

    /** `detachHook()`: a no-op when not installed. */
    method DetachHook()
      modifies this
      ensures !installed
      ensures !old(installed) ==> unchanged(this)
    {
      if !installed {
        return;
      }
      installed := false;
    }

    /** `ensureHook()`: afterwards the hook is installed exactly when it is
        needed, and an already correct state is left alone. */
    method EnsureHook(cfg: Config)
      modifies this
      ensures installed == OverlaysNeedingHook(cfg)
      ensures old(installed) == OverlaysNeedingHook(cfg) ==> unchanged(this)
    {
      if OverlaysNeedingHook(cfg) {
        AttachHook();
      } else {
        DetachHook();
      }
    }
  }

  // ---------------------------------------------------------------------------
  // Anchor capture.

  /** The overlay the anchor is captured for, when the request is a pixel
      request, capture is on, the active overlay exists, and its anchor
      differs from the normalised URL. */
  function CaptureTarget(overlays: seq<OverlayItem>, activeId: Option<string>, autoCapture: bool,
                         pixelMatch: Option<string>): (k: Option<nat>)
    ensures k.Some? ==>
      k.value < |overlays| && autoCapture && Truthy(activeId) && pixelMatch.Some? &&
      FindById(overlays, activeId) == Some(overlays[k.value]) &&
      overlays[k.value].pixelUrl != Some(pixelMatch.value)
    ensures k.None? && autoCapture && Truthy(activeId) && pixelMatch.Some? ==>
      FindById(overlays, activeId).None? || FindById(overlays, activeId).value.pixelUrl == Some(pixelMatch.value)
  {
    if autoCapture && Truthy(activeId) && pixelMatch.Some? then
      var k := IndexById(overlays, activeId.value);
      if k.Some? && overlays[k.value].pixelUrl != Some(pixelMatch.value) then k else None
    else None
  }

  /** The first index holding `id`. */
  function IndexById(overlays: seq<OverlayItem>, id: string): (k: Option<nat>)
    ensures k.Some? ==>
      k.value < |overlays| && overlays[k.value].id == id &&
      forall j | 0 <= j < k.value :: overlays[j].id != id
    ensures k.None? <==> forall j | 0 <= j < |overlays| :: overlays[j].id != id
    ensures FindById(overlays, Some(id)) == if k.Some? then Some(overlays[k.value]) else None
  {
    if overlays == [] then None
    else if overlays[0].id == id then Some(0)
    else
      var k := IndexById(overlays[1..], id);
      if k.Some? then Some(k.value + 1) else None
  }

  /** The anchor-capture step of the hooked `fetch`: the active overlay
      takes the normalised URL with zero offsets, capture turns off, and the
      hook is re-evaluated; in every other case nothing changes. */
  method CaptureAnchor(hook: FetchHook, cfg: Config, pixelMatch: Option<string>)
    modifies hook, cfg
    ensures var k := CaptureTarget(old(cfg.overlays), old(cfg.activeOverlayId), old(cfg.autoCapturePixelUrl), pixelMatch);
      if k.Some? then
        var ov := old(cfg.overlays)[k.value];
        cfg.overlays == old(cfg.overlays)[k.value := ov.(pixelUrl := pixelMatch, offsetX := 0, offsetY := 0)] &&
        !cfg.autoCapturePixelUrl && hook.installed == OverlaysNeedingHook(cfg) &&
        cfg.activeOverlayId == old(cfg.activeOverlayId) && cfg.overlayMode == old(cfg.overlayMode) &&
        cfg.minifyStyle == old(cfg.minifyStyle) && cfg.ccFreeKeys == old(cfg.ccFreeKeys) &&
        cfg.ccPaidKeys == old(cfg.ccPaidKeys) && cfg.ccZoom == old(cfg.ccZoom) && cfg.ccRealtime == old(cfg.ccRealtime)
      else
        unchanged(cfg) && unchanged(hook)
  {
    var k := CaptureTarget(cfg.overlays, cfg.activeOverlayId, cfg.autoCapturePixelUrl, pixelMatch);
    if k.Some? {
      var ov := cfg.overlays[k.value];
      cfg.overlays := cfg.overlays[k.value := ov.(pixelUrl := pixelMatch, offsetX := 0, offsetY := 0)];
      cfg.autoCapturePixelUrl := false;
      hook.EnsureHook(cfg);
    }
  }

  /** After a capture the overlay is anchored at the captured URL, and a
      second identical request captures nothing. */
  lemma CaptureIsIdempotent(overlays: seq<OverlayItem>, activeId: Option<string>, pixelMatch: Option<string>)
    requires CaptureTarget(overlays, activeId, true, pixelMatch).Some?
    ensures var k := CaptureTarget(overlays, activeId, true, pixelMatch).value;
      var after := overlays[k := overlays[k].(pixelUrl := pixelMatch, offsetX := 0, offsetY := 0)];
      CaptureTarget(after, activeId, false, pixelMatch).None? &&
      CaptureTarget(after, activeId, true, pixelMatch).None?
  {
    var k := CaptureTarget(overlays, activeId, true, pixelMatch).value;
    var after := overlays[k := overlays[k].(pixelUrl := pixelMatch, offsetX := 0, offsetY := 0)];
    var j := IndexById(after, activeId.value);
    assert after[k].id == activeId.value;
    assert j == Some(k) by {
      forall i | 0 <= i < k ensures after[i].id != activeId.value {
        assert after[i] == overlays[i];
      }
    }
  }

  // ---------------------------------------------------------------------------
  // Tile requests.

  /** The overlays a tile is rendered for, in configuration order. */
  function Enabled(overlays: seq<OverlayItem>): (r: seq<OverlayItem>)
    ensures |r| <= |overlays|
  {
    if overlays == [] then []
    else
      var init := Enabled(overlays[..|overlays| - 1]);
      if Renderable(overlays[|overlays| - 1]) then init + [overlays[|overlays| - 1]] else init
  }

  /** `filter` keeps exactly the renderable overlays, and in their order. */
  lemma {:induction false} EnabledSpec(overlays: seq<OverlayItem>, more: seq<OverlayItem>)
    ensures forall o :: o in Enabled(overlays) <==> o in overlays && Renderable(o)
    ensures Enabled(overlays + more) == Enabled(overlays) + Enabled(more)
    decreases |overlays| + |more|
  {
    if more != [] {
      var m := more[..|more| - 1];
      assert (overlays + more)[..|overlays + more| - 1] == overlays + m;
      EnabledSpec(overlays, m);
    } else {
      assert overlays + more == overlays;
      if overlays != [] {
        var init := overlays[..|overlays| - 1];
        EnabledSpec(init, []);
        assert overlays == init + [overlays[|overlays| - 1]];
      }
    }
  }

  /** `overlayDatas.filter(Boolean)`. */
  function NonNull(datas: seq<Option<Fragment>>): (r: seq<Option<Fragment>>)
    ensures |r| <= |datas|
    ensures forall i | 0 <= i < |r| :: r[i].Some?
  {
    if datas == [] then []
    else
      var init := NonNull(datas[..|datas| - 1]);
      if datas[|datas| - 1].Some? then init + [datas[|datas| - 1]] else init
  }

  /** Dropping the nulls first draws the same layers the composer draws
      when it skips them itself, and leaves nothing exactly when every
      fragment was null. */
  lemma {:induction false} NonNullDrawsTheSame(datas: seq<Option<Fragment>>, skipEmpty: bool)
    ensures Drawn(NonNull(datas), skipEmpty) == Drawn(datas, skipEmpty)
    ensures NonNull(datas) == [] <==> forall i | 0 <= i < |datas| :: datas[i].None?
    decreases |datas|
  {
    if datas != [] {
      var init := datas[..|datas| - 1];
      NonNullDrawsTheSame(init, skipEmpty);
      var last := datas[|datas| - 1];
      if last.Some? {
        var n := NonNull(init) + [last];
        assert n[..|n| - 1] == NonNull(init);
      } else {
        assert forall i | 0 <= i < |init| :: init[i] == datas[i];
      }
    }
  }

  /** The tile response as `originalFetch` delivers it: `ok`, the
      Content-Type header ('' when absent), the body bytes, and the image
      `blobToImage` decodes from them. */
  datatype TileResponse = TileResponse(ok: bool, contentType: string, blob: seq<bv8>, original: Image)

  /** What the hooked `fetch` resolves to: a second, untouched native fetch
      (not a tile, or an error was caught), the response itself, or a new
      PNG response around the composed tile. */
  datatype FetchResult = Refetched | Unmodified | Rewritten(body: Composed)

  const MaxTileBytes: nat := 15 * 1024 * 1024

  /** The guards the response must pass before anything is rendered. */
  predicate WorthRendering(cfg: Config, response: TileResponse)
    reads cfg
  {
    response.ok && Includes(ToLower(response.contentType), "image") &&
    Enabled(cfg.overlays) != [] && |response.blob| <= MaxTileBytes
  }

  /** What `loadImage` yields for an overlay's data URL. */
  function LoadOf(loads: map<string, Image>, ov: OverlayItem): Option<Image>
    requires Truthy(ov.imageBase64)
  {
    if ov.imageBase64.value in loads then Some(loads[ov.imageBase64.value]) else None
  }

  /** The `for (const ov of enabledOverlays)` loop: one fragment per
      overlay, in order, unless rendering one of them throws. */
  method RenderEach(caches: Caches, env: Env, style: MinifyStyle, overlays: seq<OverlayItem>,
                    chunk1: int, chunk2: int, mode: Mode, loads: map<string, Image>)
    returns (threw: bool, frags: seq<Option<Fragment>>, ghost keys: seq<Option<CacheKey>>)
    requires caches.Valid() && ValidEnv(env) && mode != Original
    requires forall s | s in loads :: ValidImage(loads[s])
    modifies caches, caches.overlayCache, caches.imageDecodeCache, caches.paletteDetectionCache
    ensures caches.Valid()
    ensures !threw ==> |frags| == |keys| == |overlays|
    ensures |frags| == |keys| <= |overlays|
    // it stops at the first overlay whose image does not load or whose pixel position is NaN
    ensures threw <==> |frags| < |overlays|
    ensures threw ==>
      var ov := overlays[|frags|];
      Renderable(ov) &&
      (LoadOf(loads, ov).None? ||
       ExtractPixelCoords(ov.pixelUrl.value).posX.None? || ExtractPixelCoords(ov.pixelUrl.value).posY.None?)
    ensures forall i | 0 <= i < |frags| && frags[i].Some? ::
      keys[i].Some? && keys[i].value.id == overlays[i].id &&
      keys[i].value.chunk1 == chunk1 && keys[i].value.chunk2 == chunk2 && keys[i].value.mode == mode
  {
    frags, keys := [], [];
    var i := 0;
    while i < |overlays|
      invariant 0 <= i <= |overlays|
      invariant caches.Valid()
      invariant |frags| == |keys| == i
      invariant forall j | 0 <= j < i && frags[j].Some? ::
        keys[j].Some? && keys[j].value.id == overlays[j].id &&
        keys[j].value.chunk1 == chunk1 && keys[j].value.chunk2 == chunk2 && keys[j].value.mode == mode
    {
      var ov := overlays[i];
      var loaded := if Truthy(ov.imageBase64) then LoadOf(loads, ov) else None;
      var out, memoKey := BuildOverlayDataForChunkUnified(caches, env, style, ov, chunk1, chunk2, mode, loaded);
      if out == Threw {
        return true, frags, keys;
      }
      frags, keys := frags + [out.fragment], keys + [memoKey];
      i := i + 1;
    }
    threw := false;
  }

  /** The tile branch of the hooked `fetch`. `frags` are the fragments the
      renderer produced, overlay by overlay, and `keys` the cache keys they
      are memoised under. Past the guards, the tile is fetched again
      untouched exactly when the `try` block throws: an overlay failed to
      render (fewer fragments than enabled overlays), or the composer's
      minify branch hit a blob too short to key (`RangeError`). */
  method HandleTile(cfg: Config, caches: Caches, env: Env, tileMatch: Option<(int, int)>,
                    response: TileResponse, loads: map<string, Image>)
    returns (r: FetchResult, ghost frags: seq<Option<Fragment>>, ghost keys: seq<Option<CacheKey>>)
    requires caches.Valid() && ValidEnv(env) && ValidImage(response.original)
    requires forall s | s in loads :: ValidImage(loads[s])
    modifies caches, caches.overlayCache, caches.imageDecodeCache, caches.paletteDetectionCache,
             caches.baseMinifyCache
    ensures caches.Valid()
    // not a tile, or not a rewriting mode: passed straight to the network
    ensures tileMatch.None? || cfg.overlayMode == Original ==>
      r == Refetched && caches.Snapshot() == old(caches.Snapshot())
    // a failed, non-image, overlay-less or oversized response is returned as it came
    ensures tileMatch.Some? && cfg.overlayMode != Original ==>
      (r == Unmodified <==> !WorthRendering(cfg, response))
    ensures !WorthRendering(cfg, response) ==> caches.Snapshot() == old(caches.Snapshot())
    // past the guards: refetched when the try block throws, rewritten otherwise
    ensures tileMatch.Some? && cfg.overlayMode != Original && WorthRendering(cfg, response) ==>
      (r == Refetched <==>
        |frags| < |Enabled(cfg.overlays)| ||
        (NonNull(frags) != [] && cfg.overlayMode == Minify && |response.blob| < 4)) &&
      (r != Refetched ==> r.Rewritten?)
    ensures tileMatch.Some? && cfg.overlayMode != Original && WorthRendering(cfg, response) &&
            |frags| < |Enabled(cfg.overlays)| ==>
      var ov := Enabled(cfg.overlays)[|frags|];
      Renderable(ov) &&
      (LoadOf(loads, ov).None? ||
       ExtractPixelCoords(ov.pixelUrl.value).posX.None? || ExtractPixelCoords(ov.pixelUrl.value).posY.None?)
    // a rewritten tile had one fragment per enabled overlay, memoised for
    // that overlay and tile; the composer saw the non-null ones in order
    ensures r.Rewritten? ==>
      var mode := cfg.overlayMode;
      var datas := NonNull(frags);
      WorthRendering(cfg, response) && tileMatch.Some? && mode != Original &&
      |frags| == |keys| == |Enabled(cfg.overlays)| &&
      (forall i | 0 <= i < |frags| && frags[i].Some? ::
        keys[i].Some? && keys[i].value.id == Enabled(cfg.overlays)[i].id &&
        keys[i].value.chunk1 == tileMatch.value.0 && keys[i].value.chunk2 == tileMatch.value.1 &&
        keys[i].value.mode == mode) &&
      (datas == [] ==> r.body == PassThrough) &&
      (datas != [] && mode == Behind ==>
        r.body == Canvas(response.original.width, response.original.height, Drawn(frags, false) + [OriginalTile])) &&
      (datas != [] && mode == Above ==>
        r.body == Canvas(response.original.width, response.original.height, [OriginalTile] + Drawn(frags, false))) &&
      (datas != [] && mode == Minify ==>
        r.body.Canvas? && |r.body.layers| >= 1 && r.body.layers[0].BaseLayer? &&
        r.body.layers[1..] == Drawn(frags, true))
  {
    frags, keys := [], [];
    if tileMatch.None? || cfg.overlayMode == Original {
      return Refetched, frags, keys;
    }
    if !response.ok {
      return Unmodified, frags, keys;
    }
    if !Includes(ToLower(response.contentType), "image") {
      return Unmodified, frags, keys;
    }
    var enabledOverlays := Enabled(cfg.overlays);
    if |enabledOverlays| == 0 {
      return Unmodified, frags, keys;
    }
    if |response.blob| > MaxTileBytes {
      return Unmodified, frags, keys;
    }
    var mode := cfg.overlayMode;
    var threw, overlayDatas;
    threw, overlayDatas, keys := RenderEach(caches, env, cfg.minifyStyle, enabledOverlays,
                                            tileMatch.value.0, tileMatch.value.1, mode, loads);
    frags := overlayDatas;
    if threw {
      // the catch block fetches the tile again, untouched
      return Refetched, frags, keys;
    }
    var datas := NonNull(overlayDatas);
    var body := ComposeTileUnified(caches, env, cfg.minifyStyle, response.blob, response.original, datas, mode);
    if body == RangeError {
      return Refetched, frags, keys;
    }
    NonNullDrawsTheSame(overlayDatas, false);
    NonNullDrawsTheSame(overlayDatas, true);
    r := Rewritten(body);
  }

  /** The hooked `fetch`: anchor capture, then the tile branch, which sees
      the configuration as the capture left it. */
  method HookedFetch(hook: FetchHook, cfg: Config, caches: Caches, env: Env, pixelMatch: Option<string>,
                     tileMatch: Option<(int, int)>, response: TileResponse, loads: map<string, Image>)
    returns (r: FetchResult, ghost frags: seq<Option<Fragment>>)
    requires caches.Valid() && ValidEnv(env) && ValidImage(response.original)
    requires forall s | s in loads :: ValidImage(loads[s])
    modifies hook, cfg, caches, caches.overlayCache, caches.imageDecodeCache, caches.paletteDetectionCache,
             caches.baseMinifyCache
    ensures caches.Valid()
    // the capture: the active overlay takes the pixel URL, or nothing changes
    ensures var k := CaptureTarget(old(cfg.overlays), old(cfg.activeOverlayId), old(cfg.autoCapturePixelUrl), pixelMatch);
      cfg.overlays ==
        (if k.Some? then old(cfg.overlays)[k.value := old(cfg.overlays)[k.value].(pixelUrl := pixelMatch, offsetX := 0, offsetY := 0)]
         else old(cfg.overlays)) &&
      cfg.autoCapturePixelUrl == (old(cfg.autoCapturePixelUrl) && k.None?) &&
      cfg.overlayMode == old(cfg.overlayMode) && cfg.minifyStyle == old(cfg.minifyStyle)
    // the tile branch, on the captured configuration
    ensures tileMatch.None? || cfg.overlayMode == Original ==> r == Refetched
    ensures tileMatch.Some? && cfg.overlayMode != Original ==> (r == Unmodified <==> !WorthRendering(cfg, response))
    ensures tileMatch.Some? && cfg.overlayMode != Original && WorthRendering(cfg, response) ==>
      (r == Refetched <==>
        |frags| < |Enabled(cfg.overlays)| ||
        (NonNull(frags) != [] && cfg.overlayMode == Minify && |response.blob| < 4)) &&
      (r != Refetched ==> r.Rewritten?)
    ensures r.Rewritten? ==>
      |frags| == |Enabled(cfg.overlays)| &&
      (NonNull(frags) == [] ==> r.body == PassThrough)
  {
    CaptureAnchor(hook, cfg, pixelMatch);
    ghost var keys;
    r, frags, keys := HandleTile(cfg, caches, env, tileMatch, response, loads);
  }
}

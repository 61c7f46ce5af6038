# Wplace Overlay Pro, modelled in Dafny

Wplace Overlay Pro is a userscript for the wplace.live collaborative pixel
canvas. It pins reference images ("overlays") to a pixel anchor on the map
and draws them into the map tiles the page downloads. It does this by
replacing `fetch`: every tile PNG the page requests is decoded, the enabled
overlays that fall on that tile are rendered into fragments, and the
fragments are composed with the original tile, behind it, above it, or
enlarged as coloured dots or palette symbols ("minify"). This project models
the logic of the script's core in Dafny and proves what it promises:

- the palette quantiser (`Quantizer`): the exact nearest-colour search, the
  exact-match index map and the 32x32x32 lookup table;
- the per-tile renderer (`Renderer`, `Passes`, `Symbols`, `Geometry`): the
  guard ladder with its memo caches and too-large set, the draw-position
  arithmetic, the palette-perfect scan, and the full-overlay, dots and
  symbols pixel loops over canvas buffers;
- the composer (`Composer`): the empty-fragment short cut, the draw order of
  the three modes, and the base-tile cache key;
- the pixel-anchor URL (`PixelUrl`): building it and decoding it;
- the LRU caches (`Cache`, `OverlayCaches`);
- the fetch hook (`Hook`): the install flag, anchor capture, and which
  overlays a tile request renders;
- the configuration (`Store`): defaults, the sanitising after loading, and
  the active-overlay lookup;
- the colour statistics (`ColorFilter`) and `uniqueName` (`Util`);
- the overlay panel's handlers (`Panel`): add, delete, rename, nudge, the
  mode tabs, import and export, and the colour-filter checkboxes;
- the colour-match dialog (`ColorMatch`): the weighted nearest colour, the
  `processImage` loop and its colour counts, the palette selections, and
  applying the result;
- the resize dialog (`Resize`): the aspect lock and scale buttons, the grid
  handlers, `sampleDims`, `reconstructViaGrid`, the alpha hardening of
  `resizeOverlayImage`, and the calculate and apply guards.

JavaScript strings are `seq<char>`, and numbers are exact `int` values, without the 2^53 limit of doubles (or `real` where
the script keeps fractions, such as opacity and grid offsets). `NaN`,
`null` and `undefined` are `None`. Colour keys `"r,g,b"` are `Rgb` values;
`Pixels.RgbKeyInjective` proves this loses nothing. Objects the script
mutates in place are classes: the configuration (`Store.Config`), each
cache (`Cache.LRUCache`), the cache set (`OverlayCaches.Caches`), the hook
flag (`Hook.FetchHook`), and the two dialogs' state records
(`ColorMatch.CCState`, `Resize.RSState`). The loops that rewrite pixel
buffers are methods over arrays, proved against functions that specify
their output. The palette tables, the tile size, the minify scales and
`MAX_OVERLAY_DIM` live in files that are not part of this model. They
enter as parameters with stated preconditions.

Where a finding below shows the script doing something other than it
evidently intends, the state classes run the code as written:
`Resize.RSState.Calculate` samples with `Math.round` (`Resize.AsWritten`),
`Resize.RSState.OffXInput` clamps the X offset by the image height
(`Resize.OffXChangedAsWritten`), and `ColorMatch.CCState.Apply` loses the
palette-perfect mark (`ColorMatch.StoreProcessed`). The corrected
definitions (`Resize.Corrected`, `Resize.OffXChanged`,
`ColorMatch.StoreProcessedMarked`) stand beside them with the intended
property proved.

## Model

| member | source | states |
|---|---|---|
| Text.NatToDecValue | src/core/overlay.ts:97 | the decimal text of a natural number reads back as that number, digit by digit |
| Text.ParseIntJs | src/core/overlay.ts:65-68 | `parseInt(s, 10)` gives NaN (None) exactly when, after leading whitespace and an optional sign, no digit follows |
| Text.ParseIntJsDec | src/core/overlay.ts:65-68 | `parseInt` of the decimal rendering of any integer returns that integer |
| Text.DigitPrefixAll | src/core/overlay.ts:65-68 | on a string of digits, `parseInt` consumes the whole string |
| Text.IndexOf | src/core/overlay.ts:62 | the first occurrence of a separator: it is there, and nowhere before |
| Text.IndexOfPrefix | src/core/overlay.ts:62 | in `a + d + b` with `d` not in `a`, the first `d` sits at index `|a|` |
| Text.SplitJoin | src/core/overlay.ts:62 | `split` undoes `join` whenever no part holds the separator |
| Text.ToLower | src/core/util.ts:6 | `toLowerCase` keeps the length and lowers each character |
| Text.Trim | src/ui/panel.ts:314 | `trim` returns no longer a string, with no whitespace left at either end; that it is exactly the input less its surrounding white space is `Text.TrimStrips` |
| Text.TrimStrips | src/ui/panel.ts:314 | `trim` removes exactly the white space at both ends: the result is a slice of the input with only white space before and after it |
| Text.NatToHex | src/core/colorFilter.ts:6 | `n.toString(16)` has one digit below 16 and two digits below 256 |
| Text.PadStart | src/core/colorFilter.ts:6 | `padStart(n, c)` reaches length `n` (or keeps a longer string) and ends with the original string |
| Pixels.RgbKeyParts | src/core/overlay.ts:126 | the key `"r,g,b"` splits at the commas into the three decimal channels |
| Pixels.RgbKeyRoundTrip | src/core/colorFilter.ts:5 | parsing the three parts of the key `"r,g,b"` gives back `r`, `g` and `b` |
| Pixels.RgbKeyInjective | src/core/overlay.ts:12 | two colours with the same key `"r,g,b"` are the same colour, so a colour map keyed by strings is a map keyed by colours |
| Geometry.RectIntersect | src/core/overlay.ts:100-105 | width and height are never negative; the corner is the larger of the two corners; each side is the overlap of the two rectangles on that axis alone |
| Geometry.RectIntersectPoints | src/core/overlay.ts:100-105 | a point lies in the intersection iff it lies in both rectangles |
| Geometry.RectIntersectSymmetric | src/core/overlay.ts:100-105 | swapping the two rectangles gives the same result |
| Geometry.RectIntersectInside | src/core/overlay.ts:100-105 | a non-empty intersection lies inside both rectangles |
| Quantizer.SqDist | src/core/overlay.ts:46-50 | the squared distance is zero exactly for equal colours (the square root is left out because it only feeds a strict `<`) |
| Quantizer.NearestIn | src/core/overlay.ts:41-57 | the index returned is in range, has minimal distance, and every earlier index is strictly farther |
| Quantizer.FindClosestColorIndex | src/core/overlay.ts:41-57 | the loop with `minDistance`/`index` returns the first index of minimal squared distance |
| Quantizer.NearestIndexIsFirstMinimum | src/core/overlay.ts:41-57 | any index that is a minimum with no earlier tie is the one the search returns (uniqueness of the answer) |
| Quantizer.NearestIndexOfPaletteColor | src/core/overlay.ts:41-57 | an exact palette colour maps to its first index in the palette |
| Quantizer.IndexMapOfSpec | src/core/overlay.ts:10-12 | `colorIndexMap` holds exactly the palette colours, each mapped to the LAST index holding it (later `set` calls overwrite) |
| Quantizer.BuildColorIndexMap | src/core/overlay.ts:10-12 | the `forEach` over the palette builds that map |
| Quantizer.IndexMapAgreesWithSearch | src/core/overlay.ts:10-12 | on a palette without duplicates the map agrees with the nearest-colour search for every palette colour |
| Quantizer.LutCell | src/core/overlay.ts:32-37 | the cell `(r>>3)*1024 + (g>>3)*32 + (b>>3)` is below 32768 for byte channels |
| Quantizer.BuildColorLUT | src/core/overlay.ts:18-30 | every cell `(r, g, b)` holds the nearest-colour index of `((r<<3)|7, (g<<3)|7, (b<<3)|7)` |
| Quantizer.CellStep | src/core/overlay.ts:26 | one cell write extends the filled prefix of the table by one cell |
| Quantizer.LutAnswer | src/core/overlay.ts:32-37 | a lookup answers the nearest index of the cell's representative colour, always a valid palette index |
| Quantizer.LutExactOnRepresentatives | src/core/overlay.ts:14-37 | the table agrees with the exact search when all three channels end in the bits 111 |
| Quantizer.LutMissesPaletteColor | src/core/overlay.ts:14-37 | for other colours it need not: with palette [(0,0,0), (8,8,8)] black searches to 0 but its cell holds 1 |
| Passes.Clamp255 | src/core/overlay.ts:218-221 | the `Uint8ClampedArray` store keeps bytes unchanged and clamps everything else into 0..255 |
| Passes.Blend | src/core/overlay.ts:218-220 | the opacity blend always yields a byte, is the identity at full strength, and never darkens a byte for strengths in [0, 1] |
| Passes.BlendRgb | src/core/overlay.ts:218-220 | the blend applied to all three channels, identity at strength 1 |
| Passes.FullPixel | src/core/overlay.ts:210-223 | the sentinel 0xDE,0xFA,0xCE is left untouched; a filtered colour gets alpha 0; any other visible pixel gets alpha 255 and the blended colour (its own at strength 1); alpha-0 pixels are not touched |
| Passes.FullStep | src/core/overlay.ts:210-223 | one iteration extends the processed prefix by one pixel |
| Passes.FullOverlayPass | src/core/overlay.ts:209-223 | after the loop every pixel of the buffer is `FullPixel` of its old value |
| Passes.JsRem | src/core/overlay.ts:366 | JavaScript `%` agrees with the mathematical remainder on non-negative operands and stays within `(-m, m)` |
| Passes.DotsPixel | src/core/overlay.ts:354-374 | alpha-0 pixels are untouched; a filtered colour, or a pixel off the cell centre `floor(scale/2)` on either absolute axis, becomes transparent black; an unfiltered visible pixel at the centre becomes its colour blended with white by the strength (`BlendRgb`) at alpha 255, which is its own colour at strength 1 |
| Passes.DotsStep | src/core/overlay.ts:354-374 | one iteration extends the processed prefix by one pixel |
| Passes.DotsPass | src/core/overlay.ts:350-374 | after the loop every pixel is `DotsPixel` of its old value at its absolute position `isect.x + i mod w`, `isect.y + i div w` |
| Symbols.Bit | src/core/overlay.ts:305-306 | `(symbol >>> bit_idx) & 1` is a single bit, with `>>>` reducing the word to 32 bits and the shift count to 0..31 |
| Symbols.SourcePixel | src/core/overlay.ts:268-275 | for a tile position inside the image's placement, the source index `(imgY*wImg + imgX)*4` stays inside the image buffer |
| Symbols.ColorIndex | src/core/overlay.ts:281-290 | the colour index (exact map lookup with `?? 0` for palette-perfect images, the lookup table otherwise) is always a palette index |
| Symbols.StampFor | src/core/overlay.ts:292-301 | the ink of a glyph is the palette colour of its index |
| Symbols.PutPixel | src/core/overlay.ts:308-316 | one glyph pixel is written as palette colour with alpha 255 only inside `tileW` x `tileH`; outside, nothing changes |
| Symbols.StampGlyphRow | src/core/overlay.ts:304-318 | the `sx` loop performs, in order, the writes of glyph row `sy` |
| Symbols.StampGlyph | src/core/overlay.ts:303-319 | the `sy` loop performs, in order, the writes of every glyph row |
| Symbols.SymbolCell | src/core/overlay.ts:270-320 | one inner-loop iteration equals the specified cell update: a glyph stamp when the pixel qualifies, nothing otherwise |
| Symbols.SymbolRow | src/core/overlay.ts:269-321 | the `x` loop performs the cells of row `y` left to right |
| Symbols.SymbolsPass | src/core/overlay.ts:257-322 | the whole nested loop over the unscaled intersection yields exactly the ordered sequence of cell updates |
| Symbols.WritePxInk | src/core/overlay.ts:310-316 | a write keeps the invariant that every output pixel is transparent black or a palette colour at alpha 255 |
| Symbols.StampRowInk | src/core/overlay.ts:304-318 | a glyph row keeps that invariant |
| Symbols.StampRowsInk | src/core/overlay.ts:303-319 | a whole glyph keeps that invariant |
| Symbols.CellRowInk | src/core/overlay.ts:269-321 | a row of cells keeps that invariant |
| Symbols.CellRowsInk | src/core/overlay.ts:251-322 | starting from the fresh transparent canvas, the symbols output holds only palette colours at alpha 255 or transparent black |
| Symbols.UnstampedCellWritesNothing | src/core/overlay.ts:278-279 | nothing is written for alpha <= 128, the sentinel 0xDE,0xFA,0xCE or a filtered colour |
| PixelUrl.ParseUrl | src/core/overlay.ts:61 | a URL that parses has a non-empty host and a non-empty path (`/` when absent) |
| PixelUrl.ExtractPixelCoords | src/core/overlay.ts:59-73 | a string that is not an absolute http(s) URL gives chunk and position 0, 0, 0, 0 (the `catch` branch) |
| PixelUrl.ParseHttps | src/core/overlay.ts:61 | `https://host/path?query` parses into exactly that host, path and query when the parts hold no delimiters |
| PixelUrl.ParseOwnUrl | src/core/overlay.ts:96-98 | the URL `getPixelUrl` builds parses back into its host, path and query |
| PixelUrl.SplitPath | src/core/overlay.ts:62 | `/s0/pixel/c1/c2` splits at '/' into `["", "s0", "pixel", c1, c2]`, so parts 3 and 4 are the chunks |
| PixelUrl.QueryValues | src/core/overlay.ts:63-68 | `URLSearchParams` of `?x=dx&y=dy` yields `dx` for `x` and `dy` for `y` |
| PixelUrl.PixelUrlRoundTrip | src/core/overlay.ts:59-98 | `extractPixelCoords(getPixelUrl(c1, c2, x, y))` returns exactly `c1, c2, x, y` for all integers |
| Composer.LeU32Bytes | src/core/overlay.ts:396 | `getUint32(i, true)` reads four bytes least significant first: each byte can be read back from the word |
| Composer.BaseHashOfMatchingEnds | src/core/overlay.ts:394-396 | a blob whose first and last four bytes agree hashes to 0 (so such blobs of equal size and dimensions share a base-cache key) |
| Composer.MinifyScaleFor | src/core/overlay.ts:391 | the minify scale is `MINIFY_SCALE_SYMBOL` for the symbols style and `MINIFY_SCALE` otherwise, never below 1 |
| Composer.BaseKeyOf | src/core/overlay.ts:398 | the base-cache key records the blob size, the tile's width and height, the scale and the style |
| Composer.BaseKeySeesEndsOnly | src/core/overlay.ts:394-398 | two blobs of equal size whose first and last four bytes agree get the same key, whatever lies between |
| Composer.ScaledBase | src/core/overlay.ts:402-406 | the upscaled base is `w*scale` by `h*scale` with a full RGBA buffer |
| Composer.ScaledBasePixel | src/core/overlay.ts:404-406 | each base pixel (x, y) repeats the original pixel (x div scale, y div scale), channel by channel (nearest-neighbour upscale without smoothing) |
| Composer.Drawn | src/core/overlay.ts:414-438 | the fragments drawn are never more than those given |
| Composer.DrawnAppend | src/core/overlay.ts:432-438 | skipping nulls commutes with concatenation, so the fragments keep their order |
| Composer.DrawnSpec | src/core/overlay.ts:414-438 | every drawn layer is a present fragment, and every present fragment (of non-zero size, in minify mode) is drawn |
| Composer.DrawnOfNulls | src/core/overlay.ts:415-433 | a list of nulls draws nothing |
| Composer.DrawEach | src/core/overlay.ts:432-438 | the `for (const ovd of overlayDatas)` loop issues exactly the draws of `Drawn` |
| Composer.ComposeMinify | src/core/overlay.ts:390-425 | the minify branch draws the cached or freshly scaled base, then every non-empty fragment, on a canvas `scale` times the tile; afterwards the base is cached under its key; a blob under four bytes is the `RangeError` of `getUint32` |
| Composer.ComposeTileUnified | src/core/overlay.ts:382-452 | an empty fragment list returns the original blob; 'behind' draws the fragments and then the original; 'above' draws the original and then the fragments; 'minify' as above; only the minify branch touches the base cache |
| Composer.BehindAboveSameLayers | src/core/overlay.ts:431-451 | 'behind' and 'above' draw the same layers; 'behind' draws the original last, and the original is not among the fragment layers |
| Store.FindById | src/core/store.ts:78-80 | `getActiveOverlay` (through `find`) returns an overlay iff some overlay carries the active id, and then the FIRST one carrying it; null without an active id |
| Store.SanitizeFreeKeys | src/core/store.ts:61 | after loading, `ccFreeKeys` is the stored array when it is a non-empty array, and the (non-empty) defaults otherwise |
| Store.SanitizePaidKeys | src/core/store.ts:62 | after loading, `ccPaidKeys` is the stored array whenever it is an array, even an empty one, and the defaults otherwise |
| Store.SanitizeZoom | src/core/store.ts:63 | after loading, `ccZoom` is the stored number when finite and positive, else 1.0; it is always positive |
| Store.SanitizeRealtime | src/core/store.ts:64 | after loading, `ccRealtime` is the stored boolean, or false when it is not a boolean |
| Store.SanitizeIdempotent | src/core/store.ts:61-64 | sanitising again what one load produced changes nothing |
| Store.Config.constructor | src/core/store.ts:36-52 | the defaults: no overlays, no active id, mode 'behind', autocapture off, the default key lists, zoom 1.0, realtime off |
| Store.Config.LoadConfig | src/core/store.ts:56-68 | the typed fields take the values read; the four colour-match fields are sanitised as above; nothing else changes |
| Cache.Keys | src/core/cache.ts:3 | the key sequence of the map in insertion order, one key per entry |
| Cache.Lookup | src/core/cache.ts:6-7 | `map.get`: absent exactly for keys not in the map, and otherwise a value stored with the key |
| Cache.Remove | src/core/cache.ts:8-12 | `map.delete(key)` leaves the key absent, keeps only existing entries, and changes nothing for an absent key |
| Cache.RemoveSpec | src/core/cache.ts:8-12 | `delete` keeps the keys distinct, removes exactly one entry for a present key, and keeps every other key's value |
| Cache.LRUCache.constructor | src/core/cache.ts:4 | a new cache with the given `max` is empty |
| Cache.LRUCache.Get | src/core/cache.ts:5-10 | `get` returns the stored value or undefined, and the new map is the `AfterGet` re-insertion; the invariant (distinct keys, size bound) holds |
| Cache.LRUCache.Set | src/core/cache.ts:11-18 | `set` yields the `AfterSet` map (delete, re-insert, evict the first key when over `max`) and keeps the invariant |
| Cache.LRUCache.Has | src/core/cache.ts:19 | `has` is true iff the key is stored; as a function it cannot change the recency order |
| Cache.LRUCache.Clear | src/core/cache.ts:20 | `clear` empties the map and keeps `max` |
| Cache.GetKeepsInvariant | src/core/cache.ts:5-10 | `get` keeps keys distinct and the size within the bound |
| Cache.SetKeepsInvariant | src/core/cache.ts:11-18 | `set` keeps keys distinct and the size within the bound (at most `max` once `max >= 1`) |
| Cache.GetPromotes | src/core/cache.ts:5-10 | `get` on an absent key changes nothing; on a present key it keeps the size, moves that entry to the most-recent end, keeps every other entry in order and every key's value |
| Cache.SetStores | src/core/cache.ts:11-18 | after `set` the key maps to the new value at the most-recent end, and every other key still present keeps its value |
| Cache.SetAppends | src/core/cache.ts:12-13 | delete-then-insert leaves distinct keys with only the key's value changed |
| Cache.DropOldest | src/core/cache.ts:14-17 | dropping the oldest entry keeps the newest one and the values of all remaining keys |
| Cache.SetEvictsOldest | src/core/cache.ts:11-18 | `set` on a present key never evicts and keeps the size; on a new key below `max` it appends; on a new key at `max` it evicts exactly the oldest entry |
| OverlayCaches.Caches.constructor | src/core/cache.ts:23-27 | the four caches start empty with bounds 500, 64, 200 and 100, and `tooLargeOverlays` starts empty |
| OverlayCaches.Caches.ClearOverlayCache | src/core/cache.ts:29-35 | `clearOverlayCache` empties all four caches and `tooLargeOverlays`, keeping every bound |
| OverlayCaches.Caches.MarkTooLarge | src/core/overlay.ts:177 | `tooLargeOverlays.add(id)` adds exactly that id |
| ColorFilter.NatToHexValue | src/core/colorFilter.ts:6 | `n.toString(16)` consists of lower-case hex digits that read back as `n` |
| ColorFilter.LeadingZero | src/core/colorFilter.ts:6 | padding with a leading '0' does not change the value read |
| ColorFilter.ToHex2 | src/core/colorFilter.ts:6 | `toHex` always yields at least two characters |
| ColorFilter.ToHex2OfByte | src/core/colorFilter.ts:6 | for a byte, `toHex` yields exactly two lower-case hex digits worth that byte |
| ColorFilter.RgbKeyToHex | src/core/colorFilter.ts:4-8 | `rgbKeyToHex` succeeds exactly for keys with at least three comma-separated parts, and then starts with '#' and has at least seven characters |
| ColorFilter.RgbKeyToHexIs | src/core/colorFilter.ts:4-8 | on the key of a colour, the label is '#' and the three padded channel hex strings |
| ColorFilter.RgbKeyToHexOfColor | src/core/colorFilter.ts:4-8 | the label of a byte colour is exactly seven characters, '#' then three hex pairs that read back as r, g and b |
| ColorFilter.HistogramCount | src/core/colorFilter.ts:22-30 | each colour is counted once per visible non-sentinel pixel of that colour |
| ColorFilter.HistogramSize | src/core/colorFilter.ts:22-30 | the counts add up to the number of visible non-sentinel pixels |
| ColorFilter.HistogramKeys | src/core/colorFilter.ts:22-30 | a colour is counted iff some visible non-sentinel pixel has it |
| ColorFilter.CountMap | src/core/colorFilter.ts:29 | the `stats` dictionary holds exactly the colours seen, each with its multiplicity, so every count is at least 1 |
| ColorFilter.CountMapAdd | src/core/colorFilter.ts:29 | `stats[key] = (stats[key]||0)+1` is adding one occurrence |
| ColorFilter.StatsOfSpec | src/core/colorFilter.ts:22-31 | every stats key is the colour of a counted pixel and counts exactly those pixels (so at least 1), every counted colour is a key, and the counts sum to the number of counted pixels |
| ColorFilter.AllShown | src/core/colorFilter.ts:32-34 | the default filter has exactly the keys of the stats, all true |
| ColorFilter.CountStep | src/core/colorFilter.ts:22-30 | one loop iteration increments the pixel's colour when it is visible and not the sentinel, and skips it otherwise |
| ColorFilter.CountPixel | src/core/colorFilter.ts:23-29 | one iteration of the stats loop extends the counts by one pixel |
| ColorFilter.CountColors | src/core/colorFilter.ts:21-30 | the loop `for (let i=0; i<data.length; i+=4)` produces exactly the statistics of the image |
| ColorFilter.DefaultFilter | src/core/colorFilter.ts:32-34 | the `for (const k of Object.keys(stats))` loop produces the all-true filter |
| ColorFilter.UpdateOverlayColorStats | src/core/colorFilter.ts:10-35 | without an image both fields become undefined; with an image that loads they become its statistics and the all-true filter; nothing else in the record changes |
| Util.Taken | src/core/util.ts:6 | the set of lower-cased existing names: every existing name's lower case is in it, and nothing else |
| Util.UniqueName | src/core/util.ts:5-11 | `uniqueName` returns `base` when no existing name equals it ignoring case, else `base (i)` for the least `i >= 1` whose lower case is free; the result never equals an existing name ignoring case |
| Util.NumberedLowerInjective | src/core/util.ts:9 | distinct counters give distinct lower-cased candidates `base (i)` |
| Util.CandidatesTaken | src/core/util.ts:9 | when candidates 1..i-1 are all taken there are at least i-1 names, so the counting loop runs at most one more time than there are existing names |
| Util.CountCandidates | src/core/util.ts:9 | the candidates 1..i-1 are i-1 distinct strings |
| Hook.SomeEnabledImage | src/core/hook.ts:20 | `overlays.some(o => o.enabled && o.imageBase64)` holds iff some overlay is enabled with a non-empty image |
| Hook.NeedingHookCases | src/core/hook.ts:19-24 | with no overlays or in mode 'original' the hook is never needed; an enabled overlay with an image in a rewriting mode always needs it |
| Hook.FetchHook.constructor | src/core/hook.ts:7 | the hook starts uninstalled |
| Hook.FetchHook.AttachHook | src/core/hook.ts:28-109 | afterwards the hook is installed; when it already was, nothing changes |
| Hook.FetchHook.DetachHook | src/core/hook.ts:111-116 | afterwards the hook is not installed; when it already was not, nothing changes |
| Hook.FetchHook.EnsureHook | src/core/hook.ts:26 | afterwards `hookInstalled` equals `overlaysNeedingHook()`; when it already did, nothing changes |
| Hook.IndexById | src/core/hook.ts:39 | the position of the first overlay with the id, absent iff no overlay has it, and agreeing with `find` |
| Hook.CaptureTarget | src/core/hook.ts:36-42 | an overlay is captured only with autocapture on, an active id, a pixel URL match, an active overlay found by `find` and a differing `pixelUrl`; when all but the last hold, the URL is already stored (or the overlay is missing) |
| Hook.CaptureAnchor | src/core/hook.ts:36-62 | a differing normalised URL becomes the active overlay's `pixelUrl` with offsets reset to 0, autocapture turns off, the hook is re-evaluated, and no other overlay or setting changes; otherwise nothing changes at all |
| Hook.CaptureIsIdempotent | src/core/hook.ts:36-62 | after one capture, the same pixel request captures nothing more, whether or not autocapture were still on |
| Hook.Enabled | src/core/hook.ts:78 | the enabled overlays are a sub-list of the overlays |
| Hook.EnabledSpec | src/core/hook.ts:78 | an overlay is rendered iff it is enabled with an image and a `pixelUrl`, and the filter keeps config order (it distributes over concatenation) |
| Hook.NonNull | src/core/hook.ts:90 | `overlayDatas.filter(Boolean)` keeps only fragments and is no longer than its input |
| Hook.NonNullDrawsTheSame | src/core/hook.ts:90 | dropping the nulls first draws the same layers in the same order, and leaves nothing exactly when every fragment was null |
| Hook.RenderEach | src/core/hook.ts:85-88 | the push loop renders one fragment per enabled overlay, in order, each memoised under its overlay's id, the tile and the mode; it ends early exactly when an overlay throws, and that overlay is renderable and its image failed to load or its pixel position is NaN |
| Hook.HandleTile | src/core/hook.ts:64-103 | a non-tile request or mode 'original' passes straight through with no cache touched; a failed, non-image, overlay-less or over-15-MiB response is returned unmodified; past those guards the tile is refetched exactly when an overlay fails to render (fewer fragments than enabled overlays, the failing one named) or the minify composer hits a blob under 4 bytes (`RangeError`), and is rewritten otherwise; a rewritten tile composes the non-null fragments in the layer order of its mode |
| Hook.HookedFetch | src/core/hook.ts:32-104 | anchor capture first: the active overlay takes the pixel URL with zero offsets and capture turns off, or nothing changes; then the tile branch on the captured configuration, with its pass-through, unmodified, refetched and rewritten cases as `HandleTile` states them |
| Renderer.Prefix | src/core/overlay.ts:154 | `slice(0, n)` is a prefix of at most `n` characters |
| Renderer.OverlaySignature | src/core/overlay.ts:147-157 | the image part is 'none' exactly for an empty or missing image, and the flag is 'U' exactly when palette-perfection is unknown |
| Renderer.SignatureSeesImagePrefixOnly | src/core/overlay.ts:154 | two images of equal length that agree on their first 64 characters give the same signature, so they share every memo entry |
| Renderer.DrawOrigin | src/core/overlay.ts:185-186 | the draw position is `(anchorChunk - targetChunk) * TILE_SIZE + pos + offset`, just `pos + offset` on the anchor's own tile |
| Renderer.CanvasPx | src/core/overlay.ts:204 | a canvas pixel after the unsmoothed `drawImage`: one RGBA pixel, nearest-neighbour for an integer scale, transparent black off the image |
| Renderer.Region | src/core/overlay.ts:206 | `getImageData` of a `w` x `h` rectangle has `4*w*h` bytes |
| Renderer.PalettePerfectMeansInPalette | src/core/overlay.ts:118-131 | an image is palette-perfect iff every pixel that is neither transparent nor the sentinel has a palette colour |
| Renderer.IsPalettePerfectImage | src/core/overlay.ts:107-135 | a cached answer for the same `src` is returned without scanning (and promoted); otherwise the scan's answer is returned and stored under `src` |
| Renderer.DecodeOverlayImage | src/core/overlay.ts:137-145 | no image gives null with no cache touched; a cached image is returned and promoted; a load failure throws with no cache touched; a fresh load is returned and stored |
| Renderer.AfterGetValues | src/core/cache.ts:5-10 | `get` introduces no entry |
| Renderer.AfterSetValues | src/core/cache.ts:11-18 | `set` introduces no entry except the one stored |
| Renderer.FullFragment | src/core/overlay.ts:202-225 | the 'full' fragment sits at the intersection's corner, unscaled, and its pixels are the overlay's pixels inside the intersection after the full-overlay pass |
| Renderer.RenderFull | src/core/overlay.ts:198-227 | an empty intersection yields null, any other the 'full' fragment; the result is stored under the memo key either way |
| Renderer.RenderDots | src/core/overlay.ts:330-377 | an empty scaled intersection yields null; otherwise the fragment at the scaled intersection, scaled by `MINIFY_SCALE`, holds the upscaled overlay pixels after the dots pass at strength 1; the result is stored under the memo key |
| Renderer.Zeros | src/core/overlay.ts:253 | `createImageData` starts all zero |
| Renderer.InkIsRgba | src/core/overlay.ts:310-316 | a canvas holding only palette ink and transparent black is a valid RGBA buffer |
| Renderer.BlankIsInk | src/core/overlay.ts:253 | the blank canvas satisfies the palette-ink invariant |
| Renderer.SymbolsCanvas | src/core/overlay.ts:245-323 | the stamped canvas is the ordered cell updates applied to the blank canvas, and holds only palette colours at alpha 255 or transparent black |
| Renderer.SymbolsFragment | src/core/overlay.ts:238-327 | the 'symbols' fragment is the scaled intersection read back from the stamped canvas, placed at the scaled corner with scale `MINIFY_SCALE_SYMBOL` |
| Renderer.RenderSymbols | src/core/overlay.ts:229-329 | an empty unscaled intersection yields null; otherwise the 'symbols' fragment; the result is stored under the memo key |
| Renderer.Admit | src/core/overlay.ts:169-183 | a disabled overlay, one without image or anchor, or one already refused yields null and touches nothing; a failed load throws; an image with width or height `>= MAX_OVERLAY_DIM` adds the id to the refused set and yields null; a non-numeric tile in the anchor yields null; only the decode cache and the refused set change |
| Renderer.AdmitImage | src/core/overlay.ts:172-183 | for an overlay past the first guards: the image from the decode cache or the load, then the size and anchor guards as above |
| Renderer.AdmitLoaded | src/core/overlay.ts:175-183 | the refused set grows by the id exactly when the image is too large; the image is admitted iff it is not too large and both tile numbers parse |
| Renderer.RenderAdmitted | src/core/overlay.ts:188-193 | after the palette-perfect check (flag P or I, never U) the result is memoised under `ov:id|sig|tile|mode`, and a value already stored under that key, `null` included, is returned as it is; a throw leaves the memo cache alone |
| Renderer.RenderMemo | src/core/overlay.ts:191-193 | a hit returns the stored value; a miss renders and stores; either way the key then maps to the result |
| Renderer.RenderMiss | src/core/overlay.ts:185-230 | each side of the tested intersection is computed per axis (`AxisExtent`); with a NaN coordinate, a finite axis of extent 0 still fails the emptiness test and null is memoised, and otherwise `getImageData` throws (the only throw); with both finite the branch of the mode and style is drawn; a result is stored under the key |
| Renderer.AxisExtentsAreIntersection | src/core/overlay.ts:198-200 | with both coordinates finite, the per-axis extents are the width and height of the intersection the branch tests, so that branch memoises null exactly when one of them is 0 |
| Renderer.BuildOverlayDataForChunkUnified | src/core/overlay.ts:159-380 | the whole guard ladder: null for non-renderable or refused overlays with nothing touched; the refused set only grows, by this id, and a refused overlay never renders; a too-large image is refused for good; a throw only for a failed load or a NaN position (a NaN position whose other axis misses the tile memoises null instead); every fragment returned is memoised and a stored value is returned as it is |
| Panel.Names | src/ui/panel.ts:213 | `config.overlays.map(o => o.name)`: one name per overlay, in order |
| Panel.ActiveIndex | src/core/store.ts:78-80 | the position of the active overlay, agreeing with `getActiveOverlay` |
| Panel.AddBlankOverlay | src/ui/panel.ts:212-220 | one overlay is appended: the given id, a name unique against the existing ones from base 'Overlay', enabled, no image, no anchor, offsets 0, opacity 0.7; it becomes active; caches are cleared and the hook re-evaluated; no setting changes |
| Panel.BlankBecomesActive | src/ui/panel.ts:212-216 | with a fresh id, the appended overlay is what `getActiveOverlay` then returns, at the end of the list, without image or anchor |
| Panel.Without | src/ui/panel.ts:203 | `splice(idx, 1)` removes exactly one entry and keeps the others in order |
| Panel.ActiveAfterDelete | src/ui/panel.ts:204 | deleting the active overlay makes the first remaining id active (null when none is left or its id is empty); deleting another leaves the active id alone |
| Panel.DeleteOverlay | src/ui/panel.ts:198-207 | an unconfirmed deletion or an unknown id changes nothing; otherwise the first overlay with the id is removed, the active id is updated as above, caches are cleared and the hook re-evaluated; no setting changes |
| Panel.RemoveOverlay | src/ui/panel.ts:201-204 | the `splice` and the active-id update on their own |
| Panel.DeleteUndoesAdd | src/ui/panel.ts:201-215 | deleting an overlay just appended with a fresh id restores the list |
| Panel.SetEnabled | src/ui/panel.ts:194-196 | the checkbox changes only that overlay's `enabled`, clears the caches and re-evaluates the hook |
| Panel.SetActive | src/ui/panel.ts:193-197 | the radio button or the name sets the active id and nothing else |
| Panel.SetActiveFinds | src/ui/panel.ts:193-197 | afterwards `getActiveOverlay` returns that overlay when no earlier overlay shares its id |
| Panel.Desired | src/ui/panel.ts:314 | the desired name is the trimmed input, or 'Overlay' when that is empty; never empty |
| Panel.RenameAvoidsClashes | src/ui/panel.ts:315-318 | after a rename no other overlay carries the new name, ignoring case |
| Panel.Rename | src/ui/panel.ts:312-320 | without an active overlay nothing changes; otherwise only its name changes, to the desired name, or to `uniqueName(desired, names)` when another overlay already has it ignoring case |
| Panel.Shifted | src/ui/panel.ts:348 | only the overlay at the position changes, and only its offsets, by exactly (dx, dy) |
| Panel.Nudge | src/ui/panel.ts:346-350 | without an active overlay nothing changes; otherwise the active overlay's offsets move by (dx, dy), nothing else in the list or settings changes, and the caches are cleared |
| Panel.NudgeBack | src/ui/panel.ts:346-354 | after a nudge the same overlay is still active, and the opposite nudge restores the list |
| Panel.ShiftKeepsIndex | src/ui/panel.ts:348 | a nudge keeps every id at its position |
| Panel.ShiftBack | src/ui/panel.ts:348 | shifting by (dx, dy) and then by (-dx, -dy) is the identity |
| Panel.SameIdsSameIndex | src/ui/panel.ts:201 | lists with the same ids in the same order find every id at the same position |
| Panel.TabOf | src/ui/panel.ts:494-503 | the tab highlighted for a mode is active under it |
| Panel.TabsAgree | src/ui/panel.ts:494-503 | exactly one tab is highlighted in each mode (the full-overlay tab for both 'above' and 'behind'), and a tab's click highlights that tab |
| Panel.SelectTab | src/ui/panel.ts:287-299 | the full-overlay tab sets 'behind', the others their own mode; the overlays, active id, autocapture and style are kept, and the hook is re-evaluated |
| Panel.SelectLayering | src/ui/panel.ts:530-537 | the 'Behind' and 'Above' buttons set their mode, under which the full-overlay tab stays highlighted, and re-evaluate the hook |
| Panel.Imported | src/ui/panel.ts:248-257 | an imported overlay is enabled, not local, keeps the entry's image and pixel URL, and defaults non-finite offsets to 0 and opacity to 0.7 |
| Panel.AppendKeeps | src/ui/panel.ts:247-261 | appending the record of one more entry keeps every earlier account of which entry each appended overlay came from |
| Panel.ImportOne | src/ui/panel.ts:248-260 | an entry is appended iff it has an image URL that fetches and decodes; it is appended with the defaulted fields, its colour statistics and a name unique against the overlays before it; otherwise the list is unchanged |
| Panel.ImportEach | src/ui/panel.ts:247-261 | imported plus failed is the number of entries; the overlays appended, in entry order, are exactly those of the succeeding entries; the existing overlays are kept |
| Panel.ImportOverlays | src/ui/panel.ts:243-267 | invalid JSON changes nothing; a single object counts as a one-entry list; after at least one success the last appended overlay becomes active, caches are cleared and the hook re-evaluated; with none, the active id, hook and caches are left alone |
| Panel.ExportActive | src/ui/panel.ts:269-273 | export needs an active overlay; it is refused for a local overlay or one without `imageUrl`, exactly when the export button is disabled; the payload has version 1 and the overlay's image URL |
| Panel.ExportThenImport | src/ui/panel.ts:248-273 | importing an exported payload gives back the image URL, anchor, offsets and opacity, under the original name (or 'Imported Overlay' when it had none), again exportable |
| Panel.CheckedIsShown | src/ui/panel.ts:588 | a colour's checkbox is checked exactly when the renderer does not filter the colour out |
| Panel.WithChecked | src/ui/panel.ts:591-592 | ticking or unticking a box sets that colour's state and leaves every other colour's state as it was |
| Panel.SetColorChecked | src/ui/panel.ts:590-596 | the checkbox updates only that overlay's filter, clears the caches and re-evaluates the hook |
| ColorMatch.ToInt32 | src/ui/ccModal.ts:243-245 | the 32-bit conversion before `>> 8` lands in the signed 32-bit range and is the identity inside it |
| ColorMatch.Dist | src/ui/ccModal.ts:238-246 | a distance is known (not NaN) only for an entry whose green and blue are numbers, and it is never negative |
| ColorMatch.TermExact | src/ui/ccModal.ts:243-245 | for byte channels the shifted red and blue terms equal `w*d*d/512` exactly (no 32-bit wrap), are non-negative, and are zero iff the channel difference is zero |
| ColorMatch.DistOfBytes | src/ui/ccModal.ts:238-246 | for byte colours the squared distance is the weighted sum `(1024+r1+r2)rd²/512 + 4gd² + (1534-r1-r2)bd²/512`, zero exactly when the entry is the colour |
| ColorMatch.Scan | src/ui/ccModal.ts:236-248 | the entry the loop holds is one it has seen, with a known distance |
| ColorMatch.ScanIsFirstNearest | src/ui/ccModal.ts:236-249 | the loop keeps the first entry at the least known distance (strict `<`), and none exactly when every distance is NaN |
| ColorMatch.NearestOfPaletteColor | src/ui/ccModal.ts:235-250 | a colour that is itself in a byte palette is matched to itself |
| ColorMatch.WeightedNearest | src/ui/ccModal.ts:235-250 | the loop returns the first nearest entry, or black when no distance is known |
| ColorMatch.KeyEntry | src/ui/ccModal.ts:255 | a key yields an entry exactly when its red part parses as a finite number |
| ColorMatch.KeyEntryOfColor | src/ui/ccModal.ts:255 | a key made from a colour parses back to that colour |
| ColorMatch.PaletteOfKeys | src/ui/ccModal.ts:255-256 | keys made from colours give exactly those colours, in order |
| ColorMatch.PushEntries | src/ui/ccModal.ts:255 | the `forEach` loop pushes one entry per key whose red part parses, in key order |
| ColorMatch.GetActivePalette | src/ui/ccModal.ts:252-258 | the palette is the parsed free selection followed by the parsed paid selection |
| ColorMatch.ClampRgb | src/ui/ccModal.ts:274 | a write into a `Uint8ClampedArray` yields a byte, and leaves a byte unchanged |
| ColorMatch.UsedSize | src/ui/ccModal.ts:275-276 | the counts add up to the number of visible (non-zero alpha) pixels |
| ColorMatch.UsedKeys | src/ui/ccModal.ts:275-276 | a colour is counted exactly when some visible pixel was mapped to it |
| ColorMatch.ProcessedAt | src/ui/ccModal.ts:270-274 | channel `k` of pixel `p` of the result is channel `k` of that pixel's output |
| ColorMatch.ProcessedPixel | src/ui/ccModal.ts:272-274 | a transparent pixel becomes transparent black; a visible one becomes opaque, in its own colour with an empty palette and in its nearest palette colour otherwise |
| ColorMatch.NearestIsByte | src/ui/ccModal.ts:273-274 | the nearest colour of a non-empty byte palette is a byte colour, so the clamped write keeps it |
| ColorMatch.ChooseColor | src/ui/ccModal.ts:273 | the colour chosen is the nearest palette colour, or the pixel's own colour when the palette is empty |
| ColorMatch.WriteOutPixel | src/ui/ccModal.ts:272-274 | writing one pixel's four channels extends the processed prefix by one pixel |
| ColorMatch.CountStep | src/ui/ccModal.ts:275-276 | `counts[key] = (counts[key] \|\| 0) + 1` for a visible pixel, and nothing for a transparent one, keeps the counts those of the pixels so far |
| ColorMatch.OutPixelShape | src/ui/ccModal.ts:272-274 | a pixel with alpha 0 is written 0,0,0,0; any other as its clamped chosen colour with alpha 255 |
| ColorMatch.ChoiceAt | src/ui/ccModal.ts:273 | the choice for a pixel is made from that pixel's colour |
| ColorMatch.ProcessPixel | src/ui/ccModal.ts:271-276 | one iteration writes pixel `p` and adds its colour to the counts when visible |
| ColorMatch.ProcessPixels | src/ui/ccModal.ts:264-277 | the loop writes every pixel as specified and returns the counts of the colours of all visible pixels |
| ColorMatch.PaidKeys | src/ui/ccModal.ts:378 | one key per paid colour |
| ColorMatch.Dedup | src/ui/ccModal.ts:136-137 | `new Set(keys)` holds exactly the keys, without duplicates |
| ColorMatch.DedupOfNoDup | src/ui/ccModal.ts:136-137 | keys without duplicates are kept as they are, in order |
| ColorMatch.Added | src/ui/ccModal.ts:328 | `Set.add` adds exactly the key and keeps the set duplicate-free |
| ColorMatch.Removed | src/ui/ccModal.ts:328 | `Set.delete` removes exactly the key, and changes nothing when it is absent |
| ColorMatch.Toggled | src/ui/ccModal.ts:328 | a cell click flips the key's membership and no other key's |
| ColorMatch.ToggledTwice | src/ui/ccModal.ts:328 | two clicks on the same cell give back the same keys (the same sequence when the key was absent) |
| ColorMatch.AddAll | src/ui/ccModal.ts:384 | adding every key keeps the earlier keys first, in order, and the result holds exactly the old and the new keys |
| ColorMatch.SetAllActive | src/ui/ccModal.ts:381-391 | 'select all' adds every key; 'unselect all' clears the selection |
| ColorMatch.ToggleAllFlips | src/ui/ccModal.ts:356-358 | after 'select all' every key is active; after 'unselect all' of a non-empty table they are not |
| ColorMatch.StoreProcessed | src/ui/ccModal.ts:178-184 | as written: the overlay takes the data URL as a local image, and the palette-perfect mark set on line 182 is gone after `clearOverlayCache()` |
| ColorMatch.StoreProcessedMarked | src/ui/ccModal.ts:178-184 | corrected: the caches are dropped before the mark is set; the overlay takes the image, every other cache is empty, and the palette-perfect cache holds exactly that image marked true when the palette was non-empty, and nothing otherwise |
| ColorMatch.NearestInPalette | src/ui/ccModal.ts:235-250 | from a non-empty byte palette the nearest colour is the colour of one of its entries |
| ColorMatch.ProcessedInPalette | src/ui/ccModal.ts:270-275 | processed against a non-empty byte palette, every visible pixel is opaque in the colour of a palette entry, which is what the palette-perfect mark claims |
| ColorMatch.ProcessWith | src/ui/ccModal.ts:260-285 | the processed image has the source's size and the pixels and counts the pixel loop specifies for the active palette |
| ColorMatch.CCState.constructor | src/ui/ccModal.ts:135-143 | the selections are the stored keys as sets, realtime is the stored flag, nothing is open, stale or computed |
| ColorMatch.CCState.ProcessImage | src/ui/ccModal.ts:260-285 | without a source image nothing changes; otherwise the result and counts match the current selections |
| ColorMatch.CCState.RecalcNow | src/ui/ccModal.ts:397-402 | the result is up to date and no longer stale |
| ColorMatch.CCState.Open | src/ui/ccModal.ts:194-225 | the overlay is recorded and realtime reloaded; once the image decodes it is the source and the result is up to date and not stale; until then nothing else changes |
| ColorMatch.CCState.Close | src/ui/ccModal.ts:227-233 | only the open overlay is forgotten |
| ColorMatch.CCState.Refresh | src/ui/ccModal.ts:361 | in realtime the result is recomputed; otherwise it is kept and marked stale |
| ColorMatch.CCState.ClickFreeCell | src/ui/ccModal.ts:327-333 | the key's membership flips, the stored free keys follow, and the result is recomputed (realtime) or marked stale |
| ColorMatch.CCState.ClickPaidCell | src/ui/ccModal.ts:346-352 | the same for a paid colour |
| ColorMatch.CCState.ToggleAllFree | src/ui/ccModal.ts:356-363 | all free keys are selected unless all already were, in which case none is; stored keys follow; recompute or mark stale |
| ColorMatch.CCState.ToggleAllPaid | src/ui/ccModal.ts:364-371 | the same for the paid colours, where an empty paid table never counts as all selected |
| ColorMatch.CCState.ToggleRealtime | src/ui/ccModal.ts:162-168 | realtime flips and is stored; turning it on while stale recomputes at once |
| ColorMatch.CCState.Apply | src/ui/ccModal.ts:172-189 | as written: without an open overlay or a result, or with a result not under the size limit both ways, nothing changes; otherwise the overlay takes the image, every cache is empty and the new image has no palette-perfect mark, the hook is re-evaluated and the dialog closes |
| Resize.Round | src/ui/rsModal.ts:929-930 | `Math.round`: the integer within half a unit, halves rounding up |
| Resize.ClampR | src/ui/rsModal.ts:926 | `clamp(v, min, max)` lands in `[min, max]` when that is non-empty, and keeps a value already inside |
| Resize.Cells | src/ui/rsModal.ts:334-338 | the number of whole cells of one axis: they fit between the offset and the edge, and one more would not |
| Resize.AsWrittenSample | src/ui/rsModal.ts:929-930 | as written: the rounded clamped cell centre is a column (row) of the image |
| Resize.CellSample | src/ui/rsModal.ts:929-930 | corrected: the pixel containing the clamped cell centre is a column (row) of the image |
| Resize.Sample | src/ui/rsModal.ts:929-930 | either sampler picks a column (row) of the image; `AsWritten` is `Math.round` as written, `Corrected` the pixel containing the centre |
| Resize.CellSampleInCell | src/ui/rsModal.ts:923-930 | for integer offsets and gaps, the corrected sample lies inside its own cell |
| Resize.AsWrittenSampleInCell | src/ui/rsModal.ts:923-930 | the sample as written stays in its cell when the gap is at least 2 |
| Resize.AsWrittenSampleLeavesCell | src/ui/rsModal.ts:929-930 | with gap 1 and offset 0 the sample as written for cell 0 is pixel 1, the neighbouring cell; the corrected one is pixel 0 |
| Resize.SampleInCell | src/ui/rsModal.ts:923-930 | for integer offsets and gaps the sample lies in its own cell: always with the corrected sampler, with the one as written once the gap is at least 2 |
| Resize.Hard | src/ui/rsModal.ts:959-961 | a pixel with alpha 0 becomes transparent black; any other keeps its colour with alpha 255 |
| Resize.HardenedAt | src/ui/rsModal.ts:959-962 | channel `k` of pixel `p` of the hardened data is that of the hardened pixel |
| Resize.HardenedIdempotent | src/ui/rsModal.ts:959-962 | hardening twice is hardening once |
| Resize.HardenPixel | src/ui/rsModal.ts:960-961 | one iteration rewrites exactly pixel `p`, as its hardened form |
| Resize.HardenAlpha | src/ui/rsModal.ts:959-962 | the loop leaves the buffer holding the hardened data |
| Resize.HardenedIsRgba | src/ui/rsModal.ts:959-962 | hardened RGBA bytes are RGBA bytes |
| Resize.GridPixel | src/ui/rsModal.ts:929-943 | the output pixel of one cell is the sampled source pixel hardened: alpha 0 or 255, and transparent black exactly when alpha is 0 |
| Resize.GridData | src/ui/rsModal.ts:927-945 | the output has `cols * rows` pixels |
| Resize.GridDataAt | src/ui/rsModal.ts:927-945 | the output is row-major: pixel `(rx, ry)` is the four channels at index `ry * cols + rx`, and it is the cell's sampled pixel hardened |
| Resize.Reconstructed | src/ui/rsModal.ts:914-947 | the output canvas is `cols` by `rows` as `sampleDims` counts them, with four channels per cell |
| Resize.WriteGridPixel | src/ui/rsModal.ts:938-943 | one inner iteration writes exactly output pixel `p`, the hardened source pixel the sampler picks, and nothing else |
| Resize.FillRow | src/ui/rsModal.ts:928-944 | the inner loop fills one more row of the output, each pixel from its cell's sample |
| Resize.ReconstructViaGrid | src/ui/rsModal.ts:907-948 | no result (the thrown error) exactly when there are no columns or no rows; otherwise the output is the sampled, hardened grid of the sampler given |
| Resize.ReconstructedFromCells | src/ui/rsModal.ts:923-943 | for integer offsets and gaps and a cell inside the image, the output pixel is the hardened source pixel of a sample inside that cell: always with the corrected sampler, and with the one as written once both gaps are at least 2 |
| Resize.UnitGridIsHardening | src/ui/rsModal.ts:907-948 | corrected: with offset 0 and gap 1 the output has the image's size and is the image hardened |
| Resize.UnitSampleAsWritten | src/ui/rsModal.ts:929-930 | as written, cell `r` of a gap-1 grid at offset 0 samples pixel `r + 1`, except the last, held at `r` by the clamp |
| Resize.UnitGridAsWrittenShifts | src/ui/rsModal.ts:927-943 | as written, the gap-1 grid at offset 0 gives the image shifted one pixel up and left, with its last row and column repeated, hardened |
| Resize.ReconstructedIsRgba | src/ui/rsModal.ts:907-948 | the output is RGBA bytes, with either sampler |
| Resize.OffClamped | src/ui/rsModal.ts:651 | an offset is clamped to `[0, orig - 0.0001]`: non-negative, below the axis length, unchanged when already inside |
| Resize.OffXAsWritten | src/ui/rsModal.ts:639-642 | as written the X offset is clamped as an offset on the vertical axis: the clamp by the image height, whatever the width |
| Resize.OffXAsWrittenWrongAxis | src/ui/rsModal.ts:642 | as written the X offset is clamped by the height: 50 becomes 9.9999 on a 100 by 10 image, and on a 10 by 100 image it stays 50, leaving no columns |
| Resize.Locked | src/ui/rsModal.ts:555-566 | the other side under the aspect lock is at least 1 |
| Resize.LockedNearest | src/ui/rsModal.ts:555 | it is 1 or the nearest integer to `v * to / from`, halves rounding up |
| Resize.RoundQuotient | src/ui/rsModal.ts:555 | `Math.round(p / f)` for `f >= 1` is the integer `n` with `n * f` within half of `f` of `p`, halves rounding up |
| Resize.LockedSquare | src/ui/rsModal.ts:555 | a square image locks a side to the same value |
| Resize.DecFieldReadsBack | src/ui/rsModal.ts:840-841 | a number written into a field parses back as itself |
| Resize.Scaled | src/ui/rsModal.ts:796-797 | `Math.max(1, Math.round(orig * scale))`: at least 1, and the nearest integer to `orig * scale` when that is at least 0.5 |
| Resize.SimpleTarget | src/ui/rsModal.ts:755-758 | the apply handler accepts sizes that parse to integers from 1 up to below the limit |
| Resize.SimpleGuardsAgree | src/ui/rsModal.ts:782-794 | the apply handler accepts exactly the sizes for which `syncAdvancedMeta` and `syncSimpleNote` enable the button |
| Resize.StoreImage | src/ui/rsModal.ts:764-771 | the overlay takes the data URL as a local image with fresh colour statistics; every cache is empty and the hook re-evaluated; active overlay, mode and autocapture unchanged |
| Resize.ResizeOverlayImage | src/ui/rsModal.ts:950-972 | the overlay takes the redrawn image hardened, with its statistics; caches are emptied and the hook re-evaluated |
| Resize.WidthTyped | src/ui/rsModal.ts:550-556 | the width field takes the text; with the lock on and a positive width the height follows the aspect ratio, otherwise it is kept |
| Resize.HeightTyped | src/ui/rsModal.ts:561-567 | the same from height to width |
| Resize.SquareFollows | src/ui/rsModal.ts:550-567 | on a square image the locked side follows the typed one exactly |
| Resize.ScaledFields | src/ui/rsModal.ts:795-801 | a scale writes the scaled width, and the locked or the scaled height |
| Resize.MultChanged | src/ui/rsModal.ts:595-601 | the multiplier is clamped to `[1, 128]`; with bind on both gaps take it, otherwise they are kept; offsets and bind unchanged |
| Resize.BindChanged | src/ui/rsModal.ts:613-614 | ticking bind sets both gaps to the multiplier; unticking keeps them |
| Resize.BlockWChanged | src/ui/rsModal.ts:619-623 | the block width is clamped to `[1, 4096]`; with bind on the multiplier and block height follow it |
| Resize.BlockHChanged | src/ui/rsModal.ts:629-633 | the same for the block height |
| Resize.OffXChangedAsWritten | src/ui/rsModal.ts:639-642 | as written: only the X offset changes, clamped below the image height |
| Resize.OffXChanged | src/ui/rsModal.ts:639-642 | corrected: only the X offset changes, clamped below the image width |
| Resize.OffYChanged | src/ui/rsModal.ts:648-651 | only the Y offset changes, clamped below the image height |
| Resize.GridHandlersKeepForm | src/ui/rsModal.ts:595-656 | every grid handler, the X offset as written included, keeps the multiplier and gaps at least 1 and the offsets non-negative, and with bind on keeps both gaps equal to the multiplier |
| Resize.Staled | src/ui/rsModal.ts:586-593 | in advanced mode the calculated result is no longer ready; in simple mode nothing changes; the canvas stays |
| Resize.RSState.constructor | src/ui/rsModal.ts:300-323 | no overlay or image, size 0 by 0, simple mode, the default grid (4, 4, 0, 0, bound), no result |
| Resize.RSState.Open | src/ui/rsModal.ts:830-832 | only the overlay is recorded until the image loads |
| Resize.RSState.ImageLoaded | src/ui/rsModal.ts:835-868 | the image and its size are taken, the size fields show it with the lock on, the grid is reset, the result dropped, and the mode set to simple |
| Resize.RSState.Close | src/ui/rsModal.ts:897-905 | the overlay and image are forgotten; nothing else changes |
| Resize.RSState.SetMode | src/ui/rsModal.ts:520-521 | only the mode changes |
| Resize.RSState.LockChange | src/ui/rsModal.ts:142 | the aspect-lock checkbox changes only the lock flag; the typed sizes and all other state are kept |
| Resize.RSState.WidthInput | src/ui/rsModal.ts:550-560 | only the size fields change, as typing the width specifies |
| Resize.RSState.HeightInput | src/ui/rsModal.ts:561-571 | only the size fields change, as typing the height specifies |
| Resize.RSState.ScaleButton | src/ui/rsModal.ts:574-584 | a missing or non-positive scale changes nothing; otherwise only the size fields change, to the scaled ones |
| Resize.RSState.MarkCalcStale | src/ui/rsModal.ts:586-593 | only the result changes, as staling specifies |
| Resize.RSState.GridInput | src/ui/rsModal.ts:602-605 | the grid takes the new form and the result is staled; nothing else changes |
| Resize.RSState.MultChange | src/ui/rsModal.ts:595-606 | a non-number changes nothing; otherwise the grid changes as the multiplier handler specifies and the result is staled |
| Resize.RSState.BindChange | src/ui/rsModal.ts:613-618 | the grid changes as the bind handler specifies and the result is staled |
| Resize.RSState.BlockWInput | src/ui/rsModal.ts:619-628 | a non-number changes nothing; otherwise the block width handler, and the result is staled |
| Resize.RSState.BlockHInput | src/ui/rsModal.ts:629-638 | the same for the block height |
| Resize.RSState.OffXInput | src/ui/rsModal.ts:639-647 | a non-number changes nothing; otherwise the X offset handler as written (clamped by the image height), and the result is staled |
| Resize.RSState.OffYInput | src/ui/rsModal.ts:648-656 | a non-number changes nothing; otherwise the Y offset handler, and the result is staled |
| Resize.RSState.Calculate | src/ui/rsModal.ts:730-749 | outside advanced mode, without an image, with no samples or with too many, the result is kept; otherwise it is the grid reconstructed with the sampler as written, its column and row counts, and ready |
| Resize.RSState.Apply | src/ui/rsModal.ts:751-780 | with an overlay open: in simple mode with an accepted size the overlay takes the redrawn image hardened; in advanced mode with a ready result it takes the calculated canvas; caches are emptied, the hook re-evaluated and the dialog closed; otherwise nothing changes |

## Left out

- Canvas, codecs and image loading (`drawImage`, `getImageData`, `putImageData`, `loadImage`, `blobToImage`, `canvasToBlob`, `toDataURL`, the `Image` element). Decoded images are given as RGBA values, and an encoded image as its data-URL string. A PNG written and read back is taken to give back the same pixels, so the colour statistics after an apply are computed from the pixels written.
- Source-over compositing in `composeTileUnified`. The composer is modelled as the sequence of drawing steps it issues, in order; the blended pixels are not computed.
- The scaled `drawImage` of `resizeOverlayImage` and of the minify base tile. Its output is a parameter; only what the script does with it is modelled.
- Floating point. Opacity and the opacity blend use exact reals with `Math.round`, not IEEE doubles. Grid offsets and gaps are reals, but the in-cell sampling lemmas cover integer offsets and gaps only. `Math.sqrt` in both nearest-colour searches only feeds a strict `<`, so squared distances are compared.
- The zoom, pan and dot-radius controls and the preview drawing of both dialogs. The dot radius is not read by anything modelled.
- The panel's opacity slider, the minify-style radio buttons, the autocapture toggle, the collapse toggles, the theme toggle, the image drop zone, `setOverlayImageFromURL`/`setOverlayImageFromFile` and the download button. These are single field writes or image loading.
- Toasts, DOM rendering, `emitOverlayChanged`, `saveConfig` and the `gmGet` calls. Saving is asynchronous storage with no effect on the modelled state.
- `uid()` (time and randomness). The new id is a parameter.
- Asynchrony. Each handler runs to completion in the order the script awaits its steps; interleavings of two handlers are not modelled.
- The fetch replacement itself: `Response` and `Headers` construction, and patching `window.fetch`/`page.fetch`. `matchTileUrl` and `matchPixelUrl` are parameters of the hook, and the network's response is a value.
- JavaScript object identity. An overlay is a value inside `Config.overlays`, addressed by its position. Two references to one overlay object, and an overlay replaced while a dialog holds it, are not modelled.
- Cache keys as strings. The renderer's and composer's cache keys are datatypes, so two different keys can never collide the way two concatenated strings could.
- Strings: only ASCII is modelled for `toLowerCase`, `trim` and the whitespace `parseInt` skips. URLs are absolute `http:`/`https:` URLs without percent-decoding.
- `Store.Config.LoadConfig`: `minifyStyle` has no declared default and stays unset (`Unset`) until chosen; every reader treats it as 'dots'.
- `Panel.ImportOverlays`: offsets in imported JSON are integers or absent; a fractional offset is not modelled.
- `Panel.ImportOverlays`: entries are records with an optional string name. A `null` entry, or one whose `name` is truthy but not a string, throws a `TypeError` in `uniqueName` at src/ui/panel.ts:248, outside the per-item `try`. The script then stops with the earlier entries already pushed and nothing activated, cleared or re-hooked. The model does not capture that abort.
- `Text.ParseIntJs`: returns the exact integer. JavaScript's `parseInt` yields a double: `Infinity` past about 309 digits, and a rounded value past 2^53.
- `Text.ParseIntJsDec`: holds for the exact integers above; past 2^53 the script's round trip through a string can change the value.
- `PixelUrl.PixelUrlRoundTrip`: holds for exact integers; tile and pixel numbers past 2^53 do not survive the script's doubles.
- `Util.UniqueName`: existing names are strings; the `|| ''` for a missing name is applied by the callers.
- `Resize.RSState.ScaleButton`: requires a loaded image (`origW >= 1`) when the aspect lock is on. The script, clicked before any image loads, divides by zero and writes `NaN` into the height field.
- `Resize.RSState.Apply`: when updating the colour statistics fails after the new image was written, the script leaves the overlay half-updated. The model writes the image and its statistics together.
- The palette and symbol tables, `TILE_SIZE`, `MAX_OVERLAY_DIM` and the minify scales are not part of this model; they are parameters with stated preconditions.
- `src/core/canvas.ts`, `src/core/gm.ts`, `src/core/navigation.ts`, `src/app.ts`, `src/ui/coordDisplay.ts` and `import/blueprint.ts` are not part of this model.

## Findings

| source | as written | input that shows it | evidently intended | confidence | as-written member | corrected member |
|---|---|---|---|---|---|---|
| src/ui/rsModal.ts:642 | the X-offset handler clamps the offset to `origH - 0.0001`, the image height | a 100 by 10 image, offset X typed as 50: it becomes 9.9999; on a 10 by 100 image 50 is kept and leaves no columns | clamp to `origW - 0.0001`, as the Y handler does with `origH` | not executed | Resize.OffXAsWrittenWrongAxis | Resize.OffXChanged |
| src/ui/rsModal.ts:929-930 | the sample is `Math.round` of the clamped cell centre | gap 1, offset 0, image width 2: cell 0's centre 0.5 rounds to pixel 1, the next cell | the pixel that contains the cell centre, so every sample lies in its own cell | not executed | Resize.AsWrittenSampleLeavesCell | Resize.CellSampleInCell |
| src/ui/ccModal.ts:182-184 | the applied image is marked palette-perfect, and `clearOverlayCache()` then empties the cache holding the mark | any apply: afterwards the palette-detection cache has no entry for the new data URL | clear the caches first, so the mark survives and the renderer skips its palette scan; set it only when the palette was non-empty, the one case in which every visible pixel is a palette colour (`ColorMatch.ProcessedInPalette`) | not executed | ColorMatch.StoreProcessed | ColorMatch.StoreProcessedMarked |

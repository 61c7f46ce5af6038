/** The four module-level caches of the overlay renderer and the set of
    overlays refused as too large, with the values they hold. */
module OverlayCaches {
  import opened Wrappers
  import opened Pixels
  import opened Store
  import opened Cache

  /** The pixels of an `ImageData`: width, height and RGBA channels. */
  datatype Raster = Raster(width: nat, height: nat, data: seq<int>)

  /** What the renderer hands the composer: an image, where to draw it, and
      whether it is at minify scale. */
  datatype Fragment = Fragment(image: Raster, dx: int, dy: int, scaled: bool, scale: Option<nat>)

  /** The perfect-palette flag of a signature: 'P', 'I', or 'U' when unknown. */
  datatype PerfectFlag = P | I | U

  /** `overlaySignature(ov, isPalettePerfect)`, field by field: the image key
      is the first 64 characters of the data URL and its length ('none' when
      absent), the anchor is the pixel URL or 'null'. */
  datatype Signature = Signature(
    imgKey: Option<(string, nat)>, pixelUrl: string,
    offsetX: int, offsetY: int, opacity: real, flag: PerfectFlag)

  /** `ov:${id}|sig:${sig}|tile:${c1},${c2}|mode:${mode}`. */
  datatype CacheKey = CacheKey(id: string, sig: Signature, chunk1: int, chunk2: int, mode: Mode)

  /** `base:${size}:${hash}:${w}x${h}:${scale}:${minifyStyle}`. */
  datatype BaseKey = BaseKey(size: nat, hash: bv32, width: nat, height: nat, scale: nat, style: MinifyStyle)

  class Caches {
    const overlayCache: LRUCache<CacheKey, Option<Fragment>>
    const imageDecodeCache: LRUCache<string, Image>
    const paletteDetectionCache: LRUCache<string, bool>
    const baseMinifyCache: LRUCache<BaseKey, Raster>
    var tooLargeOverlays: set<string>

    ghost predicate Valid()
      reads this, overlayCache, imageDecodeCache, paletteDetectionCache, baseMinifyCache
    {
      overlayCache.Valid() && imageDecodeCache.Valid() &&
      paletteDetectionCache.Valid() && baseMinifyCache.Valid() &&
      overlayCache.max >= 1 && imageDecodeCache.max >= 1 &&
      paletteDetectionCache.max >= 1 && baseMinifyCache.max >= 1 &&
      (forall e | e in imageDecodeCache.entries :: ValidImage(e.1))
    }

    /** The whole mutable state, for "nothing changed" statements. */
    ghost function Snapshot(): (seq<(CacheKey, Option<Fragment>)>, seq<(string, Image)>, seq<(string, bool)>,
                                seq<(BaseKey, Raster)>, set<string>)
      reads this, overlayCache, imageDecodeCache, paletteDetectionCache, baseMinifyCache
    {
      (overlayCache.entries, imageDecodeCache.entries, paletteDetectionCache.entries,
       baseMinifyCache.entries, tooLargeOverlays)
    }

    /** Every cache and the too-large set are empty. */
    ghost predicate Cleared()
      reads this, overlayCache, imageDecodeCache, paletteDetectionCache, baseMinifyCache
    {
      overlayCache.entries == [] && imageDecodeCache.entries == [] &&
      paletteDetectionCache.entries == [] && baseMinifyCache.entries == [] &&
      tooLargeOverlays == {}
    }

    /** The caches as the module creates them: capacities 500, 64, 200, 100. */
    constructor ()
      ensures Valid() && fresh(overlayCache) && fresh(imageDecodeCache)
      ensures fresh(paletteDetectionCache) && fresh(baseMinifyCache)
      ensures overlayCache.max == 500 && imageDecodeCache.max == 64
      ensures paletteDetectionCache.max == 200 && baseMinifyCache.max == 100
      ensures overlayCache.entries == [] && imageDecodeCache.entries == []
      ensures paletteDetectionCache.entries == [] && baseMinifyCache.entries == []
      ensures tooLargeOverlays == {}
    {
      overlayCache := new LRUCache(500);
      imageDecodeCache := new LRUCache(64);
      paletteDetectionCache := new LRUCache(200);
      baseMinifyCache := new LRUCache(100);
      tooLargeOverlays := {};
    }

    /** `clearOverlayCache()`: every cache and the too-large set end up empty,
        capacities unchanged. */
    method ClearOverlayCache()
      requires Valid()
      modifies this, overlayCache, imageDecodeCache, paletteDetectionCache, baseMinifyCache
      ensures Valid()
      ensures overlayCache.entries == [] && imageDecodeCache.entries == []
      ensures paletteDetectionCache.entries == [] && baseMinifyCache.entries == []
      ensures tooLargeOverlays == {}
      ensures overlayCache.max == old(overlayCache.max) && imageDecodeCache.max == old(imageDecodeCache.max)
      ensures paletteDetectionCache.max == old(paletteDetectionCache.max)
      ensures baseMinifyCache.max == old(baseMinifyCache.max)
    {
      overlayCache.Clear();
      imageDecodeCache.Clear();
      paletteDetectionCache.Clear();
      baseMinifyCache.Clear();
      tooLargeOverlays := {};
    }

    /** Records an overlay whose image exceeds the size limit. */
    method MarkTooLarge(id: string)
      requires Valid()
      modifies this
      ensures Valid() && tooLargeOverlays == old(tooLargeOverlays) + {id}
    {
      tooLargeOverlays := tooLargeOverlays + {id};
    }
  }
}

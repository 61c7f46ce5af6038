/** The persisted configuration: overlay records, the active overlay, the
    display mode and the colour-match settings, with the sanitising applied
    after loading and the active-overlay lookup. */
module Store {
  import opened Wrappers
  import opened Pixels

  datatype Mode = Behind | Above | Minify | Original

  /** `config.minifyStyle` is not among the declared defaults, so it starts
      out `undefined` (`Unset`), which every reader treats like 'dots'. */
  datatype MinifyStyle = Unset | Dots | Symbols

  /** One overlay record. `None` stands for `null` or `undefined`; colour
      keys `"r,g,b"` are held as `Rgb` values (`Pixels.RgbKeyInjective`). */
  datatype OverlayItem = OverlayItem(
    id: string,
    name: string,
    enabled: bool,
    imageUrl: Option<string>,
    imageBase64: Option<string>,
    isLocal: bool,
    pixelUrl: Option<string>,
    offsetX: int,
    offsetY: int,
    opacity: real,
    colorStats: Option<map<Rgb, nat>>,
    colorFilter: Option<map<Rgb, bool>>)

  /** JavaScript truthiness of a string-or-null field. */
  predicate Truthy(s: Option<string>) {
    s.Some? && s.value != ""
  }

  /** `overlays.find(o => o.id === id) || null`. */
  function FindById(overlays: seq<OverlayItem>, id: Option<string>): (r: Option<OverlayItem>)
    ensures r.Some? <==> id.Some? && exists k | 0 <= k < |overlays| :: overlays[k].id == id.value
    ensures r.Some? ==> exists k | 0 <= k < |overlays| ::
      overlays[k] == r.value && r.value.id == id.value &&
      forall j | 0 <= j < k :: overlays[j].id != id.value
  {
    if id.None? || overlays == [] then None
    else if overlays[0].id == id.value then Some(overlays[0])
    else FindById(overlays[1..], id)
  }

  /** A stored value as `gmGet` hands it back: anything JSON can hold. Only
      the shapes the sanitising distinguishes are kept apart. */
  datatype JsValue =
    | JArray(items: seq<string>)
    | JNumber(n: real)      // a finite number
    | JNonFinite            // NaN or an infinity
    | JBool(b: bool)
    | JOther                // null, undefined, a string, an object

  /** `ccFreeKeys` after loading: a non-empty array survives, anything else
      becomes the defaults. */
  function SanitizeFreeKeys(v: JsValue, defaults: seq<string>): (keys: seq<string>)
    ensures |defaults| > 0 ==> |keys| > 0
    ensures keys == defaults || (v == JArray(keys) && |keys| > 0)
    ensures v.JArray? && |v.items| > 0 ==> keys == v.items
  {
    if v.JArray? && |v.items| > 0 then v.items else defaults
  }

  /** `ccPaidKeys` after loading: any array survives, even an empty one. */
  function SanitizePaidKeys(v: JsValue, defaults: seq<string>): (keys: seq<string>)
    ensures keys == defaults || v == JArray(keys)
    ensures v.JArray? ==> keys == v.items
  {
    if v.JArray? then v.items else defaults
  }

  /** `ccZoom` after loading: finite and positive, else 1.0. */
  function SanitizeZoom(v: JsValue): (z: real)
    ensures z > 0.0
    ensures z == 1.0 || v == JNumber(z)
    ensures v.JNumber? && v.n > 0.0 ==> z == v.n
  {
    if v.JNumber? && v.n > 0.0 then v.n else 1.0
  }

  /** `ccRealtime` after loading: a boolean, else false. */
  function SanitizeRealtime(v: JsValue): (b: bool)
    ensures v.JBool? ==> b == v.b
    ensures !v.JBool? ==> !b
  {
    if v.JBool? then v.b else false
  }

  /** Sanitising is idempotent: values that survived one load survive the next
      one unchanged. */
  lemma SanitizeIdempotent(free: JsValue, paid: JsValue, zoom: JsValue, realtime: JsValue,
                           defaultFree: seq<string>, defaultPaid: seq<string>)
    requires |defaultFree| > 0
    ensures var f := SanitizeFreeKeys(free, defaultFree);
      SanitizeFreeKeys(JArray(f), defaultFree) == f
    ensures var p := SanitizePaidKeys(paid, defaultPaid);
      SanitizePaidKeys(JArray(p), defaultPaid) == p
    ensures var z := SanitizeZoom(zoom); SanitizeZoom(JNumber(z)) == z
    ensures var b := SanitizeRealtime(realtime); SanitizeRealtime(JBool(b)) == b
  {
  }

  /** The live `config` object (panel position, theme and collapse flags are
      not modelled). */
  class Config {
    var overlays: seq<OverlayItem>
    var activeOverlayId: Option<string>
    var overlayMode: Mode
    var autoCapturePixelUrl: bool
    var minifyStyle: MinifyStyle
    var ccFreeKeys: seq<string>
    var ccPaidKeys: seq<string>
    var ccZoom: real
    var ccRealtime: bool

    /** The declared defaults; `DEFAULT_FREE_KEYS`/`DEFAULT_PAID_KEYS` come in
        as parameters. */
    constructor (defaultFree: seq<string>, defaultPaid: seq<string>)
      ensures overlays == [] && activeOverlayId == None && overlayMode == Behind
      ensures !autoCapturePixelUrl && minifyStyle == Unset
      ensures ccFreeKeys == defaultFree && ccPaidKeys == defaultPaid
      ensures ccZoom == 1.0 && !ccRealtime
    {
      overlays := [];
      activeOverlayId := None;
      overlayMode := Behind;
      autoCapturePixelUrl := false;
      minifyStyle := Unset;
      ccFreeKeys := defaultFree;
      ccPaidKeys := defaultPaid;
      ccZoom := 1.0;
      ccRealtime := false;
    }

    /** `loadConfig()` once every `gmGet` has answered (with the stored value,
        or the current one when nothing is stored): the typed fields are taken
        as read, the colour-match fields are sanitised. */
    method LoadConfig(overlays': seq<OverlayItem>, activeOverlayId': Option<string>, mode': Mode,
                      autoCapture': bool, free: JsValue, paid: JsValue, zoom: JsValue,
                      realtime: JsValue, defaultFree: seq<string>, defaultPaid: seq<string>)
      modifies this
      ensures overlays == overlays' && activeOverlayId == activeOverlayId'
      ensures overlayMode == mode' && autoCapturePixelUrl == autoCapture'
      ensures minifyStyle == old(minifyStyle)
      ensures ccFreeKeys == SanitizeFreeKeys(free, defaultFree)
      ensures ccPaidKeys == SanitizePaidKeys(paid, defaultPaid)
      ensures ccZoom == SanitizeZoom(zoom) && ccRealtime == SanitizeRealtime(realtime)
    {
      overlays := overlays';
      activeOverlayId := activeOverlayId';
      overlayMode := mode';
      autoCapturePixelUrl := autoCapture';
      ccFreeKeys := SanitizeFreeKeys(free, defaultFree);
      ccPaidKeys := SanitizePaidKeys(paid, defaultPaid);
      ccZoom := SanitizeZoom(zoom);
      ccRealtime := SanitizeRealtime(realtime);
    }

    /** `getActiveOverlay()`. */
    function GetActiveOverlay(): Option<OverlayItem>
      reads this
    {
      FindById(overlays, activeOverlayId)
    }
  }
}

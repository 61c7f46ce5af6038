/** The overlay panel's edits of the configuration: adding, deleting,
    renaming, nudging and toggling overlays, the mode tabs, importing and
    exporting overlay JSON, and the colour-filter checkboxes. Each handler
    ends with the `clearOverlayCache()` and `ensureHook()` calls it makes;
    saving, toasts, dialogs and redrawing the panel are not modelled. */
module Panel {
  import opened Wrappers
  import opened Text
  import opened Pixels
  import opened Store
  import opened Util
  import opened OverlayCaches
  import opened Hook
  import opened ColorFilter
  import opened Passes

  // ---------------------------------------------------------------------------
  // Shared views of the configuration.

  /** `config.overlays.map(o => o.name || '')`. */
  function Names(overlays: seq<OverlayItem>): (names: seq<string>)
    ensures |names| == |overlays|
    ensures forall k | 0 <= k < |overlays| :: names[k] == overlays[k].name
  {
    seq(|overlays|, k requires 0 <= k < |overlays| => overlays[k].name)
  }

  /** The settings no overlay edit touches. */
  function Settings(cfg: Config): (Mode, bool, MinifyStyle, seq<string>, seq<string>, real, bool)
    reads cfg
  {
    (cfg.overlayMode, cfg.autoCapturePixelUrl, cfg.minifyStyle, cfg.ccFreeKeys, cfg.ccPaidKeys,
     cfg.ccZoom, cfg.ccRealtime)
  }

  /** Where `getActiveOverlay()` finds its overlay. */
  function ActiveIndex(overlays: seq<OverlayItem>, active: Option<string>): (k: Option<nat>)
    ensures k.Some? ==> k.value < |overlays| && active == Some(overlays[k.value].id)
    ensures FindById(overlays, active) == if k.Some? then Some(overlays[k.value]) else None
  {
    if active.None? then None else IndexById(overlays, active.value)
  }

  // ---------------------------------------------------------------------------
  // addBlankOverlay.

  /** The record `addBlankOverlay` pushes. */
  function BlankOverlay(id: string, name: string): OverlayItem {
    OverlayItem(id, name, true, None, None, false, None, 0, 0, 0.7, None, None)
  }

  /** `addBlankOverlay()`; `id` is the value `uid()` produced. */
  method AddBlankOverlay(cfg: Config, caches: Caches, hook: FetchHook, id: string) returns (ov: OverlayItem)
    requires caches.Valid()
    modifies cfg, hook, caches, caches.overlayCache, caches.imageDecodeCache, caches.paletteDetectionCache,
             caches.baseMinifyCache
    ensures cfg.overlays == old(cfg.overlays) + [ov]
    ensures ov == BlankOverlay(id, ov.name)
    ensures IsUniqueNameFor(ov.name, "Overlay", Names(old(cfg.overlays)))
    ensures cfg.activeOverlayId == Some(id)
    ensures Settings(cfg) == old(Settings(cfg))
    ensures caches.Valid() && caches.Cleared()
    ensures hook.installed == OverlaysNeedingHook(cfg)
  {
    var name := UniqueName("Overlay", Names(cfg.overlays));
    ov := BlankOverlay(id, name);
    cfg.overlays := cfg.overlays + [ov];
    cfg.activeOverlayId := Some(id);
    caches.ClearOverlayCache();
    hook.EnsureHook(cfg);
  }

  /** A blank overlay with an id not used before is the active overlay, is
      the only overlay with that id, and has no image, so it can never be
      rendered. */
  lemma {:induction false} BlankBecomesActive(overlays: seq<OverlayItem>, id: string, name: string)
    requires forall k | 0 <= k < |overlays| :: overlays[k].id != id
    ensures var after := overlays + [BlankOverlay(id, name)];
      FindById(after, Some(id)) == Some(BlankOverlay(id, name)) &&
      ActiveIndex(after, Some(id)) == Some(|overlays|) &&
      !Truthy(after[|overlays|].imageBase64) && after[|overlays|].pixelUrl.None?
  {
    var after := overlays + [BlankOverlay(id, name)];
    assert after[|overlays|].id == id;
    assert forall j | 0 <= j < |overlays| :: after[j].id != id;
    var k := IndexById(after, id);
    assert k.Some?;
    assert k.value == |overlays|;
  }

  // ---------------------------------------------------------------------------
  // The overlay list's row handlers.

  /** `config.overlays.splice(k, 1)`. */
  function Without(overlays: seq<OverlayItem>, k: nat): (rest: seq<OverlayItem>)
    requires k < |overlays|
    ensures |rest| == |overlays| - 1
    ensures forall j | 0 <= j < k :: rest[j] == overlays[j]
    ensures forall j | k <= j < |rest| :: rest[j] == overlays[j + 1]
    ensures multiset(rest) + multiset{overlays[k]} == multiset(overlays)
  {
    assert overlays == overlays[..k] + [overlays[k]] + overlays[k + 1..];
    overlays[..k] + overlays[k + 1..]
  }

  /** The active id once the overlay `deleted` is gone: unchanged unless it
      was the deleted one, else the first remaining id, or null when there is
      none (or it is the empty string). */
  function ActiveAfterDelete(rest: seq<OverlayItem>, active: Option<string>, deleted: string): (a: Option<string>)
    ensures active != Some(deleted) ==> a == active
    ensures active == Some(deleted) ==> (a.Some? <==> |rest| > 0 && rest[0].id != "")
    ensures a.Some? && active == Some(deleted) ==> a.value == rest[0].id
  {
    if active == Some(deleted) then
      if |rest| > 0 && Truthy(Some(rest[0].id)) then Some(rest[0].id) else None
    else active
  }

  /** The trash button of the row of overlay `id`; `confirmed` is the
      answer to the confirmation dialog. */
  method DeleteOverlay(cfg: Config, caches: Caches, hook: FetchHook, id: string, confirmed: bool)
    requires caches.Valid()
    modifies cfg, hook, caches, caches.overlayCache, caches.imageDecodeCache, caches.paletteDetectionCache,
             caches.baseMinifyCache
    ensures caches.Valid()
    ensures Settings(cfg) == old(Settings(cfg))
    ensures !confirmed || IndexById(old(cfg.overlays), id).None? ==>
      unchanged(cfg) && unchanged(hook) && caches.Snapshot() == old(caches.Snapshot())
    ensures confirmed && IndexById(old(cfg.overlays), id).Some? ==>
      var k := IndexById(old(cfg.overlays), id).value;
      cfg.overlays == Without(old(cfg.overlays), k) &&
      cfg.activeOverlayId == ActiveAfterDelete(cfg.overlays, old(cfg.activeOverlayId), id) &&
      caches.Cleared() && hook.installed == OverlaysNeedingHook(cfg)
  {
    if !confirmed {
      return;
    }
    var idx := IndexById(cfg.overlays, id);
    if idx.Some? {
      RemoveOverlay(cfg, idx.value, id);
      caches.ClearOverlayCache();
      hook.EnsureHook(cfg);
    }
  }

  /** The splice and the new active id of `DeleteOverlay`. */
  method RemoveOverlay(cfg: Config, k: nat, id: string)
    requires k < |cfg.overlays|
    modifies cfg
    ensures cfg.overlays == Without(old(cfg.overlays), k)
    ensures cfg.activeOverlayId == ActiveAfterDelete(cfg.overlays, old(cfg.activeOverlayId), id)
    ensures Settings(cfg) == old(Settings(cfg))
  {
    cfg.overlays := Without(cfg.overlays, k);
    if cfg.activeOverlayId == Some(id) {
      cfg.activeOverlayId := if |cfg.overlays| > 0 && Truthy(Some(cfg.overlays[0].id)) then Some(cfg.overlays[0].id)
                             else None;
    }
  }

  /** Deleting an overlay that was just added, under an id not used before,
      gives back the list as it was. */
  lemma {:induction false} DeleteUndoesAdd(overlays: seq<OverlayItem>, ov: OverlayItem)
    requires forall k | 0 <= k < |overlays| :: overlays[k].id != ov.id
    ensures IndexById(overlays + [ov], ov.id) == Some(|overlays|)
    ensures Without(overlays + [ov], |overlays|) == overlays
  {
    var after := overlays + [ov];
    assert forall j | 0 <= j < |overlays| :: after[j].id != ov.id;
    assert after[|overlays|].id == ov.id;
    assert after[..|overlays|] == overlays;
  }

  /** The enabled checkbox of the row at position `k`. */
  method SetEnabled(cfg: Config, caches: Caches, hook: FetchHook, k: nat, on: bool)
    requires caches.Valid() && k < |cfg.overlays|
    modifies cfg, hook, caches, caches.overlayCache, caches.imageDecodeCache, caches.paletteDetectionCache,
             caches.baseMinifyCache
    ensures cfg.overlays == old(cfg.overlays)[k := old(cfg.overlays)[k].(enabled := on)]
    ensures cfg.activeOverlayId == old(cfg.activeOverlayId) && Settings(cfg) == old(Settings(cfg))
    ensures caches.Valid() && caches.Cleared()
    ensures hook.installed == OverlaysNeedingHook(cfg)
  {
    cfg.overlays := cfg.overlays[k := cfg.overlays[k].(enabled := on)];
    caches.ClearOverlayCache();
    hook.EnsureHook(cfg);
  }

  /** The radio button and the name of a row make that overlay active. */
  method SetActive(cfg: Config, id: string)
    modifies cfg
    ensures cfg.activeOverlayId == Some(id)
    ensures cfg.overlays == old(cfg.overlays) && Settings(cfg) == old(Settings(cfg))
  {
    cfg.activeOverlayId := Some(id);
  }

  /** Choosing the overlay at `k` makes `getActiveOverlay()` return it unless
      an earlier overlay shares its id. */
  lemma {:induction false} SetActiveFinds(overlays: seq<OverlayItem>, k: nat)
    requires k < |overlays|
    requires forall j | 0 <= j < k :: overlays[j].id != overlays[k].id
    ensures FindById(overlays, Some(overlays[k].id)) == Some(overlays[k])
  {
    var i := IndexById(overlays, overlays[k].id);
  }

  // ---------------------------------------------------------------------------
  // Rename.

  /** `(value || '').trim() || 'Overlay'`. */
  function Desired(input: string): (d: string)
    ensures d != []
    ensures d == Trim(input) || (Trim(input) == [] && d == "Overlay")
  {
    var t := Trim(input);
    if t == [] then "Overlay" else t
  }

  /** Another overlay (by id) already has the name `desired`, ignoring case. */
  predicate Clashes(overlays: seq<OverlayItem>, id: string, desired: string) {
    exists j | 0 <= j < |overlays| :: overlays[j].id != id && ToLower(overlays[j].name) == ToLower(desired)
  }

  /** The name the handler settles on for the overlay `id`. */
  ghost predicate RenamedTo(name: string, desired: string, id: string, overlays: seq<OverlayItem>) {
    if Clashes(overlays, id, desired) then IsUniqueNameFor(name, desired, Names(overlays))
    else name == desired
  }

  /** After a rename no other overlay carries the new name, ignoring case. */
  lemma {:induction false} RenameAvoidsClashes(name: string, desired: string, id: string, overlays: seq<OverlayItem>)
    requires RenamedTo(name, desired, id, overlays)
    ensures forall j | 0 <= j < |overlays| && overlays[j].id != id :: ToLower(overlays[j].name) != ToLower(name)
  {
    var names := Names(overlays);
    if Clashes(overlays, id, desired) {
      assert ToLower(name) !in Taken(names) by {
        if ToLower(desired) !in Taken(names) {
          assert name == desired;
        } else {
          var i: nat :| i >= 1 && name == Numbered(desired, i) && ToLower(Numbered(desired, i)) !in Taken(names);
        }
      }
      forall j | 0 <= j < |overlays| && overlays[j].id != id
        ensures ToLower(overlays[j].name) != ToLower(name)
      {
        assert names[j] in names;
      }
    }
  }

  /** The name field's change handler, for the active overlay. */
  method Rename(cfg: Config, input: string)
    modifies cfg
    ensures cfg.activeOverlayId == old(cfg.activeOverlayId) && Settings(cfg) == old(Settings(cfg))
    ensures var k := ActiveIndex(old(cfg.overlays), old(cfg.activeOverlayId));
      if k.None? then cfg.overlays == old(cfg.overlays)
      else
        |cfg.overlays| == |old(cfg.overlays)| &&
        cfg.overlays == old(cfg.overlays)[k.value := old(cfg.overlays)[k.value].(name := cfg.overlays[k.value].name)] &&
        RenamedTo(cfg.overlays[k.value].name, Desired(input), old(cfg.overlays)[k.value].id, old(cfg.overlays))
  {
    var k := ActiveIndex(cfg.overlays, cfg.activeOverlayId);
    if k.None? {
      return;
    }
    var ov := cfg.overlays[k.value];
    var desired := Desired(input);
    var name;
    if Clashes(cfg.overlays, ov.id, desired) {
      name := UniqueName(desired, Names(cfg.overlays));
    } else {
      name := desired;
    }
    cfg.overlays := cfg.overlays[k.value := ov.(name := name)];
  }

  // ---------------------------------------------------------------------------
  // Nudge.

  /** The overlay at `k` moved by (`dx`, `dy`). */
  function Shifted(overlays: seq<OverlayItem>, k: nat, dx: int, dy: int): (r: seq<OverlayItem>)
    requires k < |overlays|
    ensures |r| == |overlays|
    ensures forall j | 0 <= j < |r| && j != k :: r[j] == overlays[j]
    ensures r[k].offsetX == overlays[k].offsetX + dx && r[k].offsetY == overlays[k].offsetY + dy
    ensures r[k].(offsetX := overlays[k].offsetX, offsetY := overlays[k].offsetY) == overlays[k]
  {
    overlays[k := overlays[k].(offsetX := overlays[k].offsetX + dx, offsetY := overlays[k].offsetY + dy)]
  }

  /** `nudge(dx, dy)`: only the active overlay's offsets move. */
  method Nudge(cfg: Config, caches: Caches, dx: int, dy: int)
    requires caches.Valid()
    modifies cfg, caches, caches.overlayCache, caches.imageDecodeCache, caches.paletteDetectionCache,
             caches.baseMinifyCache
    ensures caches.Valid()
    ensures cfg.activeOverlayId == old(cfg.activeOverlayId) && Settings(cfg) == old(Settings(cfg))
    ensures var k := ActiveIndex(old(cfg.overlays), old(cfg.activeOverlayId));
      if k.None? then cfg.overlays == old(cfg.overlays) && caches.Snapshot() == old(caches.Snapshot())
      else cfg.overlays == Shifted(old(cfg.overlays), k.value, dx, dy) && caches.Cleared()
  {
    var k := ActiveIndex(cfg.overlays, cfg.activeOverlayId);
    if k.None? {
      return;
    }
    var ov := cfg.overlays[k.value];
    cfg.overlays := cfg.overlays[k.value := ov.(offsetX := ov.offsetX + dx, offsetY := ov.offsetY + dy)];
    caches.ClearOverlayCache();
  }

  /** Nudging back undoes a nudge, and the same overlay stays active. */
  lemma {:induction false} NudgeBack(overlays: seq<OverlayItem>, active: Option<string>, dx: int, dy: int)
    requires ActiveIndex(overlays, active).Some?
    ensures var k := ActiveIndex(overlays, active).value;
      ActiveIndex(Shifted(overlays, k, dx, dy), active) == Some(k) &&
      Shifted(Shifted(overlays, k, dx, dy), k, -dx, -dy) == overlays
  {
    var k := ActiveIndex(overlays, active).value;
    ShiftKeepsIndex(overlays, k, dx, dy, active.value);
    ShiftBack(overlays, k, dx, dy);
  }

  lemma ShiftKeepsIndex(overlays: seq<OverlayItem>, k: nat, dx: int, dy: int, id: string)
    requires k < |overlays|
    ensures IndexById(Shifted(overlays, k, dx, dy), id) == IndexById(overlays, id)
  {
    var moved := Shifted(overlays, k, dx, dy);
    assert forall j | 0 <= j < |overlays| :: overlays[j].id == moved[j].id;
    SameIdsSameIndex(overlays, moved, id);
  }

  lemma ShiftBack(overlays: seq<OverlayItem>, k: nat, dx: int, dy: int)
    requires k < |overlays|
    ensures Shifted(Shifted(overlays, k, dx, dy), k, -dx, -dy) == overlays
  {
    var back := Shifted(Shifted(overlays, k, dx, dy), k, -dx, -dy);
    assert back[k] == overlays[k];
    assert forall j | 0 <= j < |back| :: back[j] == overlays[j];
  }

  /** Lists with the same ids, position by position, find an id at the same
      place. */
  lemma {:induction false} SameIdsSameIndex(a: seq<OverlayItem>, b: seq<OverlayItem>, id: string)
    requires |a| == |b| && forall j | 0 <= j < |a| :: a[j].id == b[j].id
    ensures IndexById(a, id) == IndexById(b, id)
  {
    if a != [] && a[0].id != id {
      SameIdsSameIndex(a[1..], b[1..], id);
    }
  }

  // ---------------------------------------------------------------------------
  // The mode tabs.

  /** The three tabs, by their `data-mode`: the full-overlay tab is 'above'. */
  datatype Tab = FullTab | MinifyTab | OriginalTab

  /** The mode a tab's click sets: the full-overlay tab chooses 'behind'. */
  function TabMode(t: Tab): Mode {
    match t
    case FullTab => Behind
    case MinifyTab => Minify
    case OriginalTab => Original
  }

  /** The tab's `data-mode` attribute. */
  function DataMode(t: Tab): Mode {
    match t
    case FullTab => Above
    case MinifyTab => Minify
    case OriginalTab => Original
  }

  /** Whether `updateUI` highlights tab `t` under `mode`. */
  predicate TabActive(t: Tab, mode: Mode) {
    if t == FullTab && (mode == Above || mode == Behind) then true
    else DataMode(t) == mode
  }

  /** The tab that shows as active for a mode. */
  function TabOf(mode: Mode): (t: Tab)
    ensures TabActive(t, mode)
  {
    match mode
    case Behind => FullTab
    case Above => FullTab
    case Minify => MinifyTab
    case Original => OriginalTab
  }

  /** Exactly one tab is highlighted in every mode, and a tab's click
      highlights that tab. */
  lemma TabsAgree(t: Tab, mode: Mode)
    ensures TabActive(t, mode) <==> t == TabOf(mode)
    ensures TabActive(t, TabMode(t)) && TabOf(TabMode(t)) == t
  {
  }

  /** A tab's click handler. */
  method SelectTab(cfg: Config, hook: FetchHook, t: Tab)
    modifies cfg, hook
    ensures cfg.overlayMode == TabMode(t) && TabActive(t, cfg.overlayMode)
    ensures cfg.overlays == old(cfg.overlays) && cfg.activeOverlayId == old(cfg.activeOverlayId)
    ensures cfg.autoCapturePixelUrl == old(cfg.autoCapturePixelUrl) && cfg.minifyStyle == old(cfg.minifyStyle)
    ensures hook.installed == OverlaysNeedingHook(cfg)
  {
    cfg.overlayMode := TabMode(t);
    hook.EnsureHook(cfg);
  }

  /** The 'Behind' and 'Above' buttons of the full-overlay settings. */
  method SelectLayering(cfg: Config, hook: FetchHook, above: bool)
    modifies cfg, hook
    ensures cfg.overlayMode == (if above then Above else Behind) && TabActive(FullTab, cfg.overlayMode)
    ensures cfg.overlays == old(cfg.overlays) && cfg.activeOverlayId == old(cfg.activeOverlayId)
    ensures cfg.autoCapturePixelUrl == old(cfg.autoCapturePixelUrl) && cfg.minifyStyle == old(cfg.minifyStyle)
    ensures hook.installed == OverlaysNeedingHook(cfg)
  {
    cfg.overlayMode := if above then Above else Behind;
    hook.EnsureHook(cfg);
  }

  // ---------------------------------------------------------------------------
  // Import and export.

  /** One parsed import entry; `None` in a number field is a value that is
      not a finite number (absent, NaN, a string, ...). */
  datatype ImportItem = ImportItem(
    name: Option<string>, imageUrl: Option<string>, pixelUrl: Option<string>,
    offsetX: Option<int>, offsetY: Option<int>, opacity: Option<real>)

  /** The outcome of `JSON.parse` on the pasted text. */
  datatype ParsedJson = InvalidJson | Single(item: ImportItem) | Many(items: seq<ImportItem>)

  /** `Array.isArray(obj) ? obj : [obj]`. */
  function ImportItems(p: ParsedJson): seq<ImportItem> {
    match p
    case InvalidJson => []
    case Single(item) => [item]
    case Many(items) => items
  }

  /** `item.name || 'Imported Overlay'`. */
  function BaseName(item: ImportItem): string {
    if Truthy(item.name) then item.name.value else "Imported Overlay"
  }

  /** `Number.isFinite(v) ? v : d`. */
  function FiniteOr<T>(v: Option<T>, d: T): T {
    if v.Some? then v.value else d
  }

  /** The record built for an entry with an image URL, before its colour
      statistics. */
  function Imported(item: ImportItem, id: string, name: string, base64: string): (ov: OverlayItem)
    requires item.imageUrl.Some?
    ensures ov.enabled && !ov.isLocal && ov.imageUrl == item.imageUrl && ov.imageBase64 == Some(base64)
    ensures ov.pixelUrl == item.pixelUrl
    ensures ov.offsetX == (if item.offsetX.Some? then item.offsetX.value else 0)
    ensures ov.offsetY == (if item.offsetY.Some? then item.offsetY.value else 0)
    ensures ov.opacity == (if item.opacity.Some? then item.opacity.value else 0.7)
  {
    OverlayItem(id, name, true, item.imageUrl, Some(base64), false, item.pixelUrl,
                FiniteOr(item.offsetX, 0), FiniteOr(item.offsetY, 0), FiniteOr(item.opacity, 0.7), None, None)
  }

  /** An entry is imported when it has an image URL, the URL could be
      fetched (`fetched` maps it to its data URL) and the data URL decodes
      (`loads` maps it to its pixels). */
  predicate Succeeds(item: ImportItem, fetched: map<string, string>, loads: map<string, Image>) {
    Truthy(item.imageUrl) && item.imageUrl.value in fetched &&
    (Truthy(Some(fetched[item.imageUrl.value])) ==> fetched[item.imageUrl.value] in loads)
  }

  /** `ov` is what the import appends for `item`: the defaulted record with
      the colour statistics of its image. */
  ghost predicate ImportedAs(ov: OverlayItem, item: ImportItem, id: string,
                             fetched: map<string, string>, loads: map<string, Image>)
  {
    Succeeds(item, fetched, loads) &&
    var base64 := fetched[item.imageUrl.value];
    var plain := Imported(item, id, ov.name, base64);
    if Truthy(Some(base64)) then
      ValidImage(loads[base64]) &&
      var stats := StatsOf(loads[base64].data);
      ov == plain.(colorStats := Some(stats), colorFilter := Some(AllShown(stats)))
    else ov == plain.(colorStats := None, colorFilter := None)
  }

  predicate Increasing(s: seq<nat>) {
    forall a, b | 0 <= a < b < |s| :: s[a] < s[b]
  }

  /** The `j`-th overlay appended after the first `n0` came from entry
      `src[j]`: it is that entry's record, under a name unique among the
      overlays before it. */
  ghost predicate AppendedFrom(overlays: seq<OverlayItem>, n0: nat, j: nat, src: seq<nat>, items: seq<ImportItem>,
                               ids: seq<string>, fetched: map<string, string>, loads: map<string, Image>)
  {
    j < |src| && n0 + j < |overlays| && src[j] < |items| && src[j] < |ids| &&
    ImportedAs(overlays[n0 + j], items[src[j]], ids[src[j]], fetched, loads) &&
    IsUniqueNameFor(overlays[n0 + j].name, BaseName(items[src[j]]), Names(overlays[..n0 + j]))
  }

  /** Every overlay appended after the first `n0` is accounted for by `src`. */
  ghost predicate AllAppendedFrom(overlays: seq<OverlayItem>, n0: nat, src: seq<nat>, items: seq<ImportItem>,
                                  ids: seq<string>, fetched: map<string, string>, loads: map<string, Image>)
  {
    |overlays| == n0 + |src| &&
    forall j | 0 <= j < |src| :: AppendedFrom(overlays, n0, j, src, items, ids, fetched, loads)
  }

  /** Appending the record of entry `i` keeps the earlier accounts. */
  lemma {:induction false} AppendKeeps(overlays: seq<OverlayItem>, n0: nat, src: seq<nat>, items: seq<ImportItem>,
                                       ids: seq<string>, fetched: map<string, string>, loads: map<string, Image>,
                                       i: nat, ov: OverlayItem)
    requires AllAppendedFrom(overlays, n0, src, items, ids, fetched, loads)
    requires i < |items| && i < |ids|
    requires ImportedAs(ov, items[i], ids[i], fetched, loads)
    requires IsUniqueNameFor(ov.name, BaseName(items[i]), Names(overlays))
    ensures AllAppendedFrom(overlays + [ov], n0, src + [i], items, ids, fetched, loads)
  {
    var after, src' := overlays + [ov], src + [i];
    forall j | 0 <= j < |src'|
      ensures AppendedFrom(after, n0, j, src', items, ids, fetched, loads)
    {
      assert after[..n0 + j] == overlays[..n0 + j];
      if j < |src| {
        assert AppendedFrom(overlays, n0, j, src, items, ids, fetched, loads);
        assert src'[j] == src[j] && after[n0 + j] == overlays[n0 + j];
      } else {
        assert after[..n0 + j] == overlays;
      }
    }
  }

  /** One pass of the import loop, for entry `i`: it is appended exactly
      when it succeeds. */
  method ImportOne(cfg: Config, ghost n0: nat, ghost src: seq<nat>, items: seq<ImportItem>, ids: seq<string>,
                   fetched: map<string, string>, loads: map<string, Image>, i: nat)
    returns (ok: bool)
    requires i < |items| == |ids|
    requires forall b | b in loads :: ValidImage(loads[b])
    requires AllAppendedFrom(cfg.overlays, n0, src, items, ids, fetched, loads)
    modifies cfg
    ensures ok <==> Succeeds(items[i], fetched, loads)
    ensures ok ==> |cfg.overlays| == |old(cfg.overlays)| + 1 &&
                   cfg.overlays == old(cfg.overlays) + [cfg.overlays[|cfg.overlays| - 1]] &&
                   AllAppendedFrom(cfg.overlays, n0, src + [i], items, ids, fetched, loads)
    ensures !ok ==> cfg.overlays == old(cfg.overlays)
    ensures cfg.activeOverlayId == old(cfg.activeOverlayId) && Settings(cfg) == old(Settings(cfg))
  {
    var item := items[i];
    var name := UniqueName(BaseName(item), Names(cfg.overlays));
    if !Truthy(item.imageUrl) || item.imageUrl.value !in fetched {
      return false;
    }
    var base64 := fetched[item.imageUrl.value];
    var loaded := if base64 in loads then Some(loads[base64]) else None;
    var withStats := UpdateOverlayColorStats(Imported(item, ids[i], name, base64), loaded);
    if withStats.None? {
      return false;
    }
    AppendKeeps(cfg.overlays, n0, src, items, ids, fetched, loads, i, withStats.value);
    cfg.overlays := cfg.overlays + [withStats.value];
    ok := true;
  }

  /** The loop of `importOverlayFromJSON` over the entries; `ids` are the
      values `uid()` produces, one per entry. `src` tells which entry each
      appended overlay came from. */
  method ImportEach(cfg: Config, items: seq<ImportItem>, ids: seq<string>,
                    fetched: map<string, string>, loads: map<string, Image>)
    returns (imported: nat, failed: nat, ghost src: seq<nat>)
    requires |ids| == |items|
    requires forall b | b in loads :: ValidImage(loads[b])
    modifies cfg
    ensures imported + failed == |items| && imported == |src|
    ensures Increasing(src) && forall j | 0 <= j < |src| :: src[j] < |items|
    ensures forall i | 0 <= i < |items| :: i in src <==> Succeeds(items[i], fetched, loads)
    ensures |cfg.overlays| == |old(cfg.overlays)| + imported
    ensures cfg.overlays[..|old(cfg.overlays)|] == old(cfg.overlays)
    ensures AllAppendedFrom(cfg.overlays, |old(cfg.overlays)|, src, items, ids, fetched, loads)
    ensures cfg.activeOverlayId == old(cfg.activeOverlayId) && Settings(cfg) == old(Settings(cfg))
  {
    ghost var before := cfg.overlays;
    imported, failed, src := 0, 0, [];
    var i := 0;
    while i < |items|
      invariant 0 <= i <= |items|
      invariant imported + failed == i && imported == |src|
      invariant Increasing(src) && forall j | 0 <= j < |src| :: src[j] < i
      invariant forall i' | 0 <= i' < i :: i' in src <==> Succeeds(items[i'], fetched, loads)
      invariant |cfg.overlays| >= |before| && cfg.overlays[..|before|] == before
      invariant AllAppendedFrom(cfg.overlays, |before|, src, items, ids, fetched, loads)
      invariant cfg.activeOverlayId == old(cfg.activeOverlayId) && Settings(cfg) == old(Settings(cfg))
    {
      var ok := ImportOne(cfg, |before|, src, items, ids, fetched, loads, i);
      if ok {
        imported := imported + 1;
        src := src + [i];
      } else {
        failed := failed + 1;
      }
      i := i + 1;
    }
  }

  /** `importOverlayFromJSON(text)`: when at least one entry was imported,
      the last appended overlay becomes active, the caches are cleared and
      the hook is brought up to date; otherwise nothing else changes. */
  method ImportOverlays(cfg: Config, caches: Caches, hook: FetchHook, parsed: ParsedJson, ids: seq<string>,
                        fetched: map<string, string>, loads: map<string, Image>)
    returns (imported: nat, failed: nat, ghost src: seq<nat>)
    requires caches.Valid()
    requires |ids| == |ImportItems(parsed)|
    requires forall b | b in loads :: ValidImage(loads[b])
    modifies cfg, hook, caches, caches.overlayCache, caches.imageDecodeCache, caches.paletteDetectionCache,
             caches.baseMinifyCache
    ensures caches.Valid()
    ensures parsed == InvalidJson ==> imported == 0 && failed == 0 && unchanged(cfg)
    ensures var items := ImportItems(parsed);
      imported + failed == |items| && imported == |src| &&
      Increasing(src) && (forall j | 0 <= j < |src| :: src[j] < |items|) &&
      (forall i | 0 <= i < |items| :: i in src <==> Succeeds(items[i], fetched, loads)) &&
      |cfg.overlays| == |old(cfg.overlays)| + imported &&
      cfg.overlays[..|old(cfg.overlays)|] == old(cfg.overlays) &&
      AllAppendedFrom(cfg.overlays, |old(cfg.overlays)|, src, items, ids, fetched, loads)
    ensures Settings(cfg) == old(Settings(cfg))
    ensures imported > 0 ==>
      cfg.activeOverlayId == Some(cfg.overlays[|cfg.overlays| - 1].id) &&
      caches.Cleared() && hook.installed == OverlaysNeedingHook(cfg)
    ensures imported == 0 ==>
      cfg.activeOverlayId == old(cfg.activeOverlayId) && unchanged(hook) &&
      caches.Snapshot() == old(caches.Snapshot())
  {
    if parsed == InvalidJson {
      return 0, 0, [];
    }
    imported, failed, src := ImportEach(cfg, ImportItems(parsed), ids, fetched, loads);
    if imported > 0 {
      cfg.activeOverlayId := Some(cfg.overlays[|cfg.overlays| - 1].id);
      caches.ClearOverlayCache();
      hook.EnsureHook(cfg);
    }
  }

  /** The JSON `exportActiveOverlayToClipboard` copies. */
  datatype Payload = Payload(
    version: int, name: string, imageUrl: string, pixelUrl: Option<string>,
    offsetX: int, offsetY: int, opacity: real)

  datatype ExportResult = NoActive | LocalOnly | Exported(payload: Payload)

  /** `!!(ov && ov.imageUrl && !ov.isLocal)`: the export button's state. */
  predicate CanExport(ov: Option<OverlayItem>) {
    ov.Some? && Truthy(ov.value.imageUrl) && !ov.value.isLocal
  }

  /** `exportActiveOverlayToClipboard()`, up to the clipboard. */
  function ExportActive(active: Option<OverlayItem>): (r: ExportResult)
    ensures r == NoActive <==> active.None?
    ensures r.Exported? <==> CanExport(active)
    ensures r.Exported? ==> r.payload.version == 1 && Some(r.payload.imageUrl) == active.value.imageUrl
  {
    if active.None? then NoActive
    else
      var ov := active.value;
      if ov.isLocal || !Truthy(ov.imageUrl) then LocalOnly
      else Exported(Payload(1, ov.name, ov.imageUrl.value, ov.pixelUrl, ov.offsetX, ov.offsetY, ov.opacity))
  }

  /** The payload read back by `JSON.parse`: every field of it is present and
      finite. */
  function ItemOf(p: Payload): ImportItem {
    ImportItem(Some(p.name), Some(p.imageUrl), p.pixelUrl, Some(p.offsetX), Some(p.offsetY), Some(p.opacity))
  }

  /** Exporting an overlay and importing the JSON gives an overlay with the
      same image URL, anchor, offsets and opacity, named after the original
      (or 'Imported Overlay' when it had no name). */
  lemma ExportThenImport(ov: OverlayItem, id: string, name: string, base64: string)
    requires CanExport(Some(ov))
    ensures var item := ItemOf(ExportActive(Some(ov)).payload);
      Truthy(item.imageUrl) &&
      BaseName(item) == (if ov.name != "" then ov.name else "Imported Overlay") &&
      var back := Imported(item, id, name, base64);
      back.imageUrl == ov.imageUrl && back.pixelUrl == ov.pixelUrl &&
      back.offsetX == ov.offsetX && back.offsetY == ov.offsetY && back.opacity == ov.opacity &&
      back.enabled && !back.isLocal && CanExport(Some(back))
  {
  }

  // ---------------------------------------------------------------------------
  // The colour-filter checkboxes.

  /** `filter[key] !== false` with `filter = ov.colorFilter || {}`. */
  predicate Checked(cf: Option<map<Rgb, bool>>, c: Rgb) {
    var filter := if cf.Some? then cf.value else map[];
    !(c in filter && filter[c] == false)
  }

  /** A box is checked exactly when the renderer shows the colour. */
  lemma CheckedIsShown(cf: Option<map<Rgb, bool>>, c: Rgb)
    ensures Checked(cf, c) <==> !Filtered(cf, c)
  {
  }

  /** The colour filter after `ov.colorFilter[key] = checked`. */
  function WithChecked(cf: Option<map<Rgb, bool>>, c: Rgb, checked: bool): (r: Option<map<Rgb, bool>>)
    ensures r.Some?
    ensures Checked(r, c) == checked
    ensures forall d | d != c :: Checked(r, d) == Checked(cf, d)
  {
    var filter := if cf.Some? then cf.value else map[];
    Some(filter[c := checked])
  }

  /** A checkbox's change handler, for the overlay at `k`. */
  method SetColorChecked(cfg: Config, caches: Caches, hook: FetchHook, k: nat, c: Rgb, checked: bool)
    requires caches.Valid() && k < |cfg.overlays|
    modifies cfg, hook, caches, caches.overlayCache, caches.imageDecodeCache, caches.paletteDetectionCache,
             caches.baseMinifyCache
    ensures cfg.overlays ==
      old(cfg.overlays)[k := old(cfg.overlays)[k].(colorFilter := WithChecked(old(cfg.overlays)[k].colorFilter, c, checked))]
    ensures cfg.activeOverlayId == old(cfg.activeOverlayId) && Settings(cfg) == old(Settings(cfg))
    ensures caches.Valid() && caches.Cleared()
    ensures hook.installed == OverlaysNeedingHook(cfg)
  {
    var ov := cfg.overlays[k];
    var filter := if ov.colorFilter.Some? then ov.colorFilter.value else map[];
    cfg.overlays := cfg.overlays[k := ov.(colorFilter := Some(filter[c := checked]))];
    caches.ClearOverlayCache();
    hook.EnsureHook(cfg);
  }
}

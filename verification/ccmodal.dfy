/** The colour-match dialog: it maps every visible pixel of an overlay to the
    nearest colour of the selected palette under a weighted RGB distance,
    counts the colours it used, and can write the result back into the
    overlay. Its state is the selection of free and paid palette keys, the
    realtime flag, the staleness flag and the last result. */
module ColorMatch {
  import opened Wrappers
  import opened Text
  import opened Pixels
  import opened Store
  import opened Cache
  import opened OverlayCaches
  import opened Hook
  import opened ColorFilter
  import opened Passes

  // ---------------------------------------------------------------------------
  // The weighted distance of `weightedNearest`.

  /** One palette entry of `getActivePalette`: the red channel parsed to a
      number; green and blue may be `NaN` or `undefined` (`None`). */
  datatype Entry = Entry(r: int, g: Option<int>, b: Option<int>)

  /** The ECMAScript ToInt32 conversion of an integer. */
  function ToInt32(v: int): (r: int)
    ensures -0x8000_0000 <= r < 0x8000_0000
    ensures -0x8000_0000 <= v < 0x8000_0000 ==> r == v
  {
    var m := v % 0x1_0000_0000;
    if m >= 0x8000_0000 then m - 0x1_0000_0000 else m
  }

  /** `n / 2` truncated toward zero, as ToInt32 truncates a half-integer. */
  function TruncHalf(n: int): int {
    if n >= 0 then n / 2 else -((-n) / 2)
  }

  /** `v >> 8` on a number that is `n / 2`: ToInt32, then an arithmetic
      shift, which floors. */
  function ShiftHalf(n: int): int {
    ToInt32(TruncHalf(n)) / 256
  }

  /** `x + y + z` of `weightedNearest` for a known entry, where
      `x = (512 + rmean) * rdiff * rdiff >> 8` with `rmean = (pr + r) / 2`,
      `y = 4 * gdiff * gdiff` and `z = (767 - rmean) * bdiff * bdiff >> 8`. */
  function WeightedSum(pr: int, pg: int, pb: int, c: Rgb): int {
    var rd, gd, bd := pr - c.r, pg - c.g, pb - c.b;
    ShiftHalf((1024 + pr + c.r) * rd * rd) + 4 * gd * gd + ShiftHalf((1534 - pr - c.r) * bd * bd)
  }

  /** `Math.sqrt(x + y + z)` as far as the comparison `dist < bestDist`
      sees it: `None` is `NaN` (an unknown channel, or a negative sum),
      which never compares below anything. */
  function Dist(e: Entry, c: Rgb): (d: Option<int>)
    ensures d.Some? ==> d.value >= 0 && e.g.Some? && e.b.Some?
  {
    if e.g.None? || e.b.None? then None
    else
      var s := WeightedSum(e.r, e.g.value, e.b.value, c);
      if s < 0 then None else Some(s)
  }

  function EntryColor(e: Entry): Rgb
    requires e.g.Some? && e.b.Some?
  {
    Rgb(e.r, e.g.value, e.b.value)
  }

  predicate IsByteEntry(e: Entry) {
    IsByte(e.r) && e.g.Some? && IsByte(e.g.value) && e.b.Some? && IsByte(e.b.value)
  }

  lemma MulBound(a: int, b: int, x: int, y: int)
    requires 0 <= a <= x && 0 <= b <= y
    ensures 0 <= a * b <= x * y
  {
    assert a * b <= x * b;
    assert x * b <= x * y;
  }

  lemma SquareBound(d: int)
    requires -255 <= d <= 255
    ensures 0 <= d * d <= 65025
  {
    if d >= 0 {
      MulBound(d, d, 255, 255);
    } else {
      MulBound(-d, -d, 255, 255);
    }
  }

  /** For byte channels a weighted term is exactly `floor(w * d * d / 512)`,
      never negative, and zero exactly when the difference is zero. */
  lemma {:induction false} TermExact(w: int, d: int)
    requires 1024 <= w <= 1534 && -255 <= d <= 255
    ensures ShiftHalf(w * d * d) == w * d * d / 512 >= 0
    ensures ShiftHalf(w * d * d) == 0 <==> d == 0
  {
    SquareBound(d);
    var s := d * d;
    assert w * d * d == w * s;
    MulBound(w, s, 1534, 65025);
    var n := w * s;
    assert TruncHalf(n) == n / 2;
    assert ToInt32(n / 2) == n / 2;
    assert n / 2 / 256 == n / 512;
    if d != 0 {
      assert s >= 1;
      MulBound(1024, 1, w, s);
      assert n >= 1024;
    }
  }

  /** For byte colours the three terms are the integers
      `floor((1024 + pr + r) * rd² / 512)`, `4 * gd²` and
      `floor((1534 - pr - r) * bd² / 512)`, all non-negative, and the
      distance is zero exactly when the colours are equal. */
  lemma {:induction false} DistOfBytes(e: Entry, c: Rgb)
    requires IsByteEntry(e) && IsByteRgb(c)
    ensures Dist(e, c).Some?
    ensures var rd, gd, bd := e.r - c.r, e.g.value - c.g, e.b.value - c.b;
      Dist(e, c).value ==
        (1024 + e.r + c.r) * rd * rd / 512 + 4 * gd * gd + (1534 - e.r - c.r) * bd * bd / 512
    ensures Dist(e, c).value == 0 <==> EntryColor(e) == c
  {
    var rd, gd, bd := e.r - c.r, e.g.value - c.g, e.b.value - c.b;
    TermExact(1024 + e.r + c.r, rd);
    TermExact(1534 - e.r - c.r, bd);
    SquareZero(gd);
    assert WeightedSum(e.r, e.g.value, e.b.value, c) ==
      ShiftHalf((1024 + e.r + c.r) * rd * rd) + 4 * gd * gd + ShiftHalf((1534 - e.r - c.r) * bd * bd);
  }

  lemma SquareZero(d: int)
    ensures 4 * d * d >= 0 && (4 * d * d == 0 <==> d == 0)
  {
    if d > 0 {
      MulBound(1, 1, d, d);
    } else if d < 0 {
      MulBound(1, 1, -d, -d);
      assert d * d == (-d) * (-d);
    }
  }

  // ---------------------------------------------------------------------------
  // The nearest entry.

  /** The entry the loop of `weightedNearest` holds after the first `n`
      entries: a later entry replaces it only when strictly closer. */
  function Scan(c: Rgb, palette: seq<Entry>, n: nat): (k: Option<nat>)
    requires n <= |palette|
    ensures k.Some? ==> k.value < n && Dist(palette[k.value], c).Some?
  {
    if n == 0 then None
    else
      var k := Scan(c, palette, n - 1);
      var d := Dist(palette[n - 1], c);
      if d.Some? && (k.None? || d.value < Dist(palette[k.value], c).value) then Some(n - 1) else k
  }

  /** `k` is the first entry among the first `n` at the least known
      distance, or `None` when no distance is known. */
  ghost predicate FirstNearest(c: Rgb, palette: seq<Entry>, n: nat, k: Option<nat>)
    requires n <= |palette|
  {
    (k.None? <==> forall j | 0 <= j < n :: Dist(palette[j], c).None?) &&
    (k.Some? ==>
      k.value < n && Dist(palette[k.value], c).Some? &&
      (forall j | 0 <= j < n && Dist(palette[j], c).Some? :: Dist(palette[k.value], c).value <= Dist(palette[j], c).value) &&
      (forall j | 0 <= j < k.value && Dist(palette[j], c).Some? :: Dist(palette[k.value], c).value < Dist(palette[j], c).value))
  }

  /** The scan finds the first nearest entry. */
  lemma {:induction false} ScanIsFirstNearest(c: Rgb, palette: seq<Entry>, n: nat)
    requires n <= |palette|
    ensures FirstNearest(c, palette, n, Scan(c, palette, n))
  {
    if n > 0 {
      ScanIsFirstNearest(c, palette, n - 1);
    }
  }

  /** `weightedNearest(r, g, b, palette)`: `best || [0, 0, 0]`. */
  function Nearest(c: Rgb, palette: seq<Entry>): Rgb {
    var k := Scan(c, palette, |palette|);
    if k.None? then Rgb(0, 0, 0) else EntryColor(palette[k.value])
  }

  /** A byte colour found in a byte palette maps to itself: only equal
      colours are at distance zero. */
  lemma {:induction false} NearestOfPaletteColor(c: Rgb, palette: seq<Entry>, j: nat)
    requires IsByteRgb(c) && forall i | 0 <= i < |palette| :: IsByteEntry(palette[i])
    requires j < |palette| && IsByteEntry(palette[j]) && EntryColor(palette[j]) == c
    ensures Nearest(c, palette) == c
  {
    ScanIsFirstNearest(c, palette, |palette|);
    DistOfBytes(palette[j], c);
    var k := Scan(c, palette, |palette|);
    assert k.Some?;
    DistOfBytes(palette[k.value], c);
  }

  /** The loop of `weightedNearest`; `bestDist` is `None` for `Infinity`. */
  method WeightedNearest(c: Rgb, palette: seq<Entry>) returns (r: Rgb)
    ensures r == Nearest(c, palette)
  {
    var best: Option<Rgb> := None;
    var bestDist: Option<int> := None;
    var i := 0;
    while i < |palette|
      invariant 0 <= i <= |palette|
      invariant var k := Scan(c, palette, i);
        best == (if k.None? then None else Some(EntryColor(palette[k.value]))) &&
        bestDist == (if k.None? then None else Dist(palette[k.value], c))
    {
      var dist := Dist(palette[i], c);
      if dist.Some? && (bestDist.None? || dist.value < bestDist.value) {
        bestDist := dist;
        best := Some(EntryColor(palette[i]));
      }
      i := i + 1;
    }
    r := if best.Some? then best.value else Rgb(0, 0, 0);
  }

  // ---------------------------------------------------------------------------
  // The active palette.

  /** The entry `getActivePalette` pushes for one key, or `None` when the
      key's first component does not parse. */
  function KeyEntry(key: string): (e: Option<Entry>)
    ensures e.Some? <==> KeyChannel(key, 0).Some?
  {
    var r := KeyChannel(key, 0);
    if r.None? then None else Some(Entry(r.value, KeyChannel(key, 1), KeyChannel(key, 2)))
  }

  /** The entries of the first `n` keys, in order, skipping the ones that
      do not parse. */
  function Known(keys: seq<string>, n: nat): (p: seq<Entry>)
    requires n <= |keys|
    ensures |p| <= n
  {
    if n == 0 then []
    else
      var e := KeyEntry(keys[n - 1]);
      Known(keys, n - 1) + if e.Some? then [e.value] else []
  }

  /** The known entries among the first `n`, in order. */
  function Present(opts: seq<Option<Entry>>, n: nat): (p: seq<Entry>)
    requires n <= |opts|
    ensures |p| <= n
  {
    if n == 0 then []
    else Present(opts, n - 1) + if opts[n - 1].Some? then [opts[n - 1].value] else []
  }

  /** When every entry is known, nothing is skipped. */
  lemma {:induction false} PresentAll(opts: seq<Option<Entry>>, n: nat)
    requires n <= |opts| && forall i | 0 <= i < n :: opts[i].Some?
    ensures Present(opts, n) == seq(n, i requires 0 <= i < n => opts[i].value)
  {
    if n > 0 {
      PresentAll(opts, n - 1);
    }
  }

  /** `Known` is `Present` of the keys' entries. */
  lemma {:induction false} KnownIsPresent(keys: seq<string>, opts: seq<Option<Entry>>, n: nat)
    requires n <= |keys| == |opts|
    requires forall i {:trigger opts[i]} | 0 <= i < |keys| :: opts[i] == KeyEntry(keys[i])
    ensures Known(keys, n) == Present(opts, n)
  {
    if n > 0 {
      KnownIsPresent(keys, opts, n - 1);
    }
  }

  lemma KeyEntryOfColor(c: Rgb)
    ensures KeyEntry(RgbKey(c)) == Some(ByteEntry(c))
  {
    RgbKeyRoundTrip(c);
  }

  /** The entries of the keys. */
  function PaletteOf(keys: seq<string>): (p: seq<Entry>)
    ensures |p| <= |keys|
  {
    Known(keys, |keys|)
  }

  function ByteEntry(c: Rgb): Entry {
    Entry(c.r, Some(c.g), Some(c.b))
  }

  /** Keys written as `${r},${g},${b}` read back as the colours they name. */
  lemma PaletteOfKeys(cs: seq<Rgb>)
    ensures PaletteOf(seq(|cs|, i requires 0 <= i < |cs| => RgbKey(cs[i]))) ==
            seq(|cs|, i requires 0 <= i < |cs| => ByteEntry(cs[i]))
  {
    var keys := seq(|cs|, i requires 0 <= i < |cs| => RgbKey(cs[i]));
    var opts := seq(|cs|, i requires 0 <= i < |cs| => KeyEntry(keys[i]));
    forall i | 0 <= i < |cs|
      ensures opts[i] == Some(ByteEntry(cs[i]))
    {
      KeyEntryOfColor(cs[i]);
    }
    KnownIsPresent(keys, opts, |keys|);
    PresentAll(opts, |opts|);
  }

  /** One `forEach` of `getActivePalette`: the entries it pushes for
      `keys`. */
  method PushEntries(keys: seq<string>) returns (r: seq<Entry>)
    ensures r == PaletteOf(keys)
  {
    r := [];
    for i := 0 to |keys|
      invariant r == Known(keys, i)
    {
      var e := KeyEntry(keys[i]);
      if e.Some? {
        r := r + [e.value];
      }
    }
  }

  /** `getActivePalette()`: the free selections first, then the paid ones,
      pushed onto one array. */
  method GetActivePalette(free: seq<string>, paid: seq<string>) returns (arr: seq<Entry>)
    ensures arr == PaletteOf(free) + PaletteOf(paid)
  {
    var fromFree := PushEntries(free);
    var fromPaid := PushEntries(paid);
    arr := fromFree + fromPaid;
  }

  // ---------------------------------------------------------------------------
  // processImage.

  /** The colour a visible pixel takes: the nearest palette colour, or its
      own when the palette is empty. */
  function Chosen(c: Rgb, palette: seq<Entry>): Rgb {
    if |palette| > 0 then Nearest(c, palette) else c
  }

  /** The colour each pixel of `src` would take. */
  function Choices(src: seq<int>, palette: seq<Entry>): (ch: seq<Rgb>)
    requires |src| % 4 == 0
    ensures |ch| == |src| / 4
  {
    seq(|src| / 4, p requires 0 <= p < |src| / 4 => Chosen(ColorAt(src, p), palette))
  }

  function ClampRgb(c: Rgb): (r: Rgb)
    ensures IsByteRgb(r)
    ensures IsByteRgb(c) ==> r == c
  {
    Rgb(Clamp255(c.r), Clamp255(c.g), Clamp255(c.b))
  }

  /** Output pixel `p` given the colour `ch[p]` it takes: `0,0,0,0` where
      the source is transparent, else that colour (as the clamped array
      stores it) at alpha 255. */
  function OutPixel(src: seq<int>, ch: seq<Rgb>, p: nat): (px: seq<int>)
    requires 4 * p + 3 < |src| && p < |ch|
    ensures |px| == 4
  {
    if AlphaAt(src, p) == 0 then Clear else Px(ClampRgb(ch[p]), 255)
  }

  /** The `out` array `processImage` builds. */
  function Processed(src: seq<int>, ch: seq<Rgb>): (out: seq<int>)
    requires |src| % 4 == 0 && |ch| == |src| / 4
    ensures |out| == |src|
  {
    seq(|src|, j requires 0 <= j < |src| => OutPixel(src, ch, j / 4)[j % 4])
  }

  /** The colours taken by the visible pixels among the first `n`, with
      multiplicity: what `counts` counts. */
  function Used(src: seq<int>, ch: seq<Rgb>, n: nat): multiset<Rgb>
    requires 4 * n <= |src| && n <= |ch|
  {
    if n == 0 then multiset{}
    else Used(src, ch, n - 1) + if AlphaAt(src, n - 1) != 0 then multiset{ch[n - 1]} else multiset{}
  }

  function VisiblePixels(src: seq<int>, n: nat): set<nat>
    requires 4 * n <= |src|
  {
    set p: nat | p < n && AlphaAt(src, p) != 0
  }

  /** The counts add up to the number of visible pixels. */
  lemma {:induction false} UsedSize(src: seq<int>, ch: seq<Rgb>, n: nat)
    requires 4 * n <= |src| && n <= |ch|
    ensures |Used(src, ch, n)| == |VisiblePixels(src, n)|
  {
    if n > 0 {
      var q := n - 1;
      UsedSize(src, ch, q);
      VisibleStep(src, q);
    }
  }

  lemma VisibleStep(src: seq<int>, q: nat)
    requires 4 * q + 4 <= |src|
    ensures q !in VisiblePixels(src, q)
    ensures VisiblePixels(src, q + 1) == VisiblePixels(src, q) + if AlphaAt(src, q) != 0 then {q} else {}
  {
  }

  /** A colour is counted exactly when some visible pixel takes it. */
  lemma {:induction false} UsedKeys(src: seq<int>, ch: seq<Rgb>, n: nat, c: Rgb)
    requires 4 * n <= |src| && n <= |ch|
    ensures c in Used(src, ch, n) <==> exists p: nat | p < n :: AlphaAt(src, p) != 0 && ch[p] == c
  {
    if n > 0 {
      var q := n - 1;
      UsedKeys(src, ch, q, c);
      if c in Used(src, ch, n) && c !in Used(src, ch, q) {
        assert AlphaAt(src, q) != 0 && ch[q] == c;
      }
    }
  }

  /** Byte `k` of pixel `p` of the output is byte `k` of its `OutPixel`. */
  lemma ProcessedAt(src: seq<int>, ch: seq<Rgb>, p: nat, k: nat)
    requires |src| % 4 == 0 && |ch| == |src| / 4 && 4 * p + 3 < |src| && k < 4
    ensures p < |ch| && Processed(src, ch)[4 * p + k] == OutPixel(src, ch, p)[k]
  {
    DivMod4(4 * p + k, p);
  }

  /** A transparent pixel is cleared; with an empty palette a visible pixel
      keeps its colour; with a byte palette it takes its nearest palette
      colour, exactly the colour counted for it. */
  lemma ProcessedPixel(src: seq<int>, palette: seq<Entry>, p: nat)
    requires IsRgba(src) && 4 * p + 3 < |src|
    ensures AlphaAt(src, p) == 0 ==> OutPixel(src, Choices(src, palette), p) == Clear
    ensures AlphaAt(src, p) != 0 && palette == [] ==>
      OutPixel(src, Choices(src, palette), p) == Px(ColorAt(src, p), 255)
    ensures AlphaAt(src, p) != 0 && palette != [] && (forall i | 0 <= i < |palette| :: IsByteEntry(palette[i])) ==>
      OutPixel(src, Choices(src, palette), p) == Px(Nearest(ColorAt(src, p), palette), 255)
  {
    var ch := Choices(src, palette);
    assert p < |src| / 4;
    assert ch[p] == Chosen(ColorAt(src, p), palette);
    if AlphaAt(src, p) != 0 && |palette| > 0 && (forall i | 0 <= i < |palette| :: IsByteEntry(palette[i])) {
      NearestIsByte(ColorAt(src, p), palette);
    }
  }

  /** From a byte palette the nearest colour is a byte colour. */
  lemma NearestIsByte(c: Rgb, palette: seq<Entry>)
    requires forall i | 0 <= i < |palette| :: IsByteEntry(palette[i])
    ensures |palette| > 0 ==> IsByteRgb(Nearest(c, palette))
  {
    if |palette| > 0 {
      var k := Scan(c, palette, |palette|);
      if k.Some? {
        assert IsByteEntry(palette[k.value]);
      }
    }
  }

  lemma DivMod4(j: int, p: int)
    requires 4 * p <= j < 4 * p + 4
    ensures j / 4 == p && j % 4 == j - 4 * p
  {
  }

  /** The colour `processImage` picks for a visible pixel. */
  method ChooseColor(c: Rgb, palette: seq<Entry>) returns (n: Rgb)
    ensures n == Chosen(c, palette)
  {
    n := c;
    if |palette| > 0 {
      n := WeightedNearest(c, palette);
    }
  }

  /** The first `n` pixels of `s` are those of the output. */
  ghost predicate Written(s: seq<int>, src: seq<int>, ch: seq<Rgb>, n: nat)
    requires |src| % 4 == 0 && |ch| == |src| / 4
  {
    |s| == |src| && 4 * n <= |src| &&
    forall j | 0 <= j < 4 * n :: s[j] == OutPixel(src, ch, j / 4)[j % 4]
  }

  lemma WrittenAll(s: seq<int>, src: seq<int>, ch: seq<Rgb>)
    requires |src| % 4 == 0 && |ch| == |src| / 4
    requires Written(s, src, ch, |src| / 4)
    ensures s == Processed(src, ch)
  {
  }

  /** Writing pixel `p` extends what is written by one pixel. */
  lemma WrittenStep(s: seq<int>, s': seq<int>, src: seq<int>, ch: seq<Rgb>, p: nat)
    requires |src| % 4 == 0 && |ch| == |src| / 4 && 4 * p + 4 <= |src|
    requires Written(s, src, ch, p) && |s'| == |s|
    requires forall j | 0 <= j < 4 * p :: s'[j] == s[j]
    requires forall k | 0 <= k < 4 :: s'[4 * p + k] == OutPixel(src, ch, p)[k]
    ensures Written(s', src, ch, p + 1)
  {
    forall j | 4 * p <= j < 4 * p + 4
      ensures s'[j] == OutPixel(src, ch, j / 4)[j % 4]
    {
      DivMod4(j, p);
      assert s'[4 * p + (j - 4 * p)] == OutPixel(src, ch, p)[j - 4 * p];
    }
  }

  /** Stores pixel `p` of the output into `buf`. */
  method WriteOutPixel(buf: array<int>, src: seq<int>, ghost ch: seq<Rgb>, p: nat, px: seq<int>)
    requires buf.Length == |src| && |src| % 4 == 0 && |ch| == |src| / 4 && 4 * p + 4 <= |src|
    requires px == OutPixel(src, ch, p) && Written(buf[..], src, ch, p)
    modifies buf
    ensures Written(buf[..], src, ch, p + 1)
  {
    ghost var before := buf[..];
    var i := 4 * p;
    buf[i], buf[i + 1], buf[i + 2], buf[i + 3] := px[0], px[1], px[2], px[3];
    WrittenStep(before, buf[..], src, ch, p);
  }

  /** Counting the colour of a visible pixel `p`. */
  lemma CountStep(src: seq<int>, ch: seq<Rgb>, p: nat, counts: map<Rgb, nat>)
    requires 4 * p + 4 <= |src| && p < |ch| && counts == CountMap(Used(src, ch, p))
    ensures AlphaAt(src, p) != 0 ==>
      counts[ch[p] := (if ch[p] in counts then counts[ch[p]] else 0) + 1] == CountMap(Used(src, ch, p + 1))
    ensures AlphaAt(src, p) == 0 ==> counts == CountMap(Used(src, ch, p + 1))
  {
    CountMapAdd(Used(src, ch, p), ch[p]);
  }

  lemma OutPixelShape(src: seq<int>, ch: seq<Rgb>, p: nat)
    requires 4 * p + 3 < |src| && p < |ch|
    ensures src[4 * p + 3] == 0 ==> OutPixel(src, ch, p) == Clear
    ensures src[4 * p + 3] != 0 ==>
      OutPixel(src, ch, p) == [Clamp255(ch[p].r), Clamp255(ch[p].g), Clamp255(ch[p].b), 255]
  {
  }

  lemma ChoiceAt(src: seq<int>, palette: seq<Entry>, p: nat)
    requires |src| % 4 == 0 && 4 * p + 4 <= |src|
    ensures p < |src| / 4 && Choices(src, palette)[p] == Chosen(ColorAt(src, p), palette)
  {
  }

  /** One pass of the `processImage` loop, for pixel `p`. */
  method ProcessPixel(buf: array<int>, src: seq<int>, palette: seq<Entry>, ghost ch: seq<Rgb>, p: nat,
                      counts: map<Rgb, nat>)
    returns (counts': map<Rgb, nat>)
    requires buf.Length == |src| && |src| % 4 == 0 && 4 * p + 4 <= |src|
    requires ch == Choices(src, palette) && Written(buf[..], src, ch, p)
    requires counts == CountMap(Used(src, ch, p))
    modifies buf
    ensures Written(buf[..], src, ch, p + 1)
    ensures counts' == CountMap(Used(src, ch, p + 1))
  {
    var i := 4 * p;
    CountStep(src, ch, p, counts);
    if src[i + 3] == 0 {
      OutPixelShape(src, ch, p);
      WriteOutPixel(buf, src, ch, p, Clear);
      counts' := counts;
      return;
    }
    var n := ChooseColor(Rgb(src[i], src[i + 1], src[i + 2]), palette);
    ChoiceAt(src, palette, p);
    OutPixelShape(src, ch, p);
    var px := [Clamp255(n.r), Clamp255(n.g), Clamp255(n.b), 255];
    WriteOutPixel(buf, src, ch, p, px);
    counts' := counts[n := (if n in counts then counts[n] else 0) + 1];
  }

  /** The pixel loop of `processImage`: the output array and the colour
      counts. */
  method ProcessPixels(src: seq<int>, palette: seq<Entry>) returns (out: seq<int>, counts: map<Rgb, nat>)
    requires |src| % 4 == 0
    ensures out == Processed(src, Choices(src, palette))
    ensures counts == CountMap(Used(src, Choices(src, palette), |src| / 4))
  {
    ghost var ch := Choices(src, palette);
    var buf := new int[|src|];
    counts := map[];
    var p, n := 0, |src| / 4;
    assert CountMap(Used(src, ch, 0)) == map[];
    while p < n
      invariant p <= n == |src| / 4 && 4 * n == |src|
      invariant Written(buf[..], src, ch, p)
      invariant counts == CountMap(Used(src, ch, p))
    {
      counts := ProcessPixel(buf, src, palette, ch, p, counts);
      p := p + 1;
    }
    out := buf[..];
    WrittenAll(out, src, ch);
  }

  // ---------------------------------------------------------------------------
  // The selections: JavaScript `Set`s of keys, held as sequences without
  // duplicates in insertion order.

  /** The palette tables the dialog reads: `DEFAULT_FREE_KEYS`, the colours
      of `WPLACE_PAID` and `MAX_OVERLAY_DIM`. */
  datatype Tables = Tables(freeKeys: seq<string>, paid: seq<Rgb>, maxOverlayDim: int)

  /** `WPLACE_PAID.map(([r,g,b]) => `${r},${g},${b}`)`. */
  function PaidKeys(t: Tables): (keys: seq<string>)
    ensures |keys| == |t.paid|
  {
    seq(|t.paid|, i requires 0 <= i < |t.paid| => RgbKey(t.paid[i]))
  }

  predicate NoDup(s: seq<string>) {
    forall i, j | 0 <= i < j < |s| :: s[i] != s[j]
  }

  /** `new Set(keys)`: the first occurrence of each key, in order. */
  function Dedup(keys: seq<string>): (s: seq<string>)
    ensures NoDup(s)
    ensures forall k :: k in s <==> k in keys
    ensures |s| <= |keys|
  {
    if keys == [] then []
    else
      var init := Dedup(keys[..|keys| - 1]);
      var k := keys[|keys| - 1];
      if k in keys[..|keys| - 1] then init else init + [k]
  }

  /** A set written out with `Array.from` reads back as itself. */
  lemma {:induction false} DedupOfNoDup(keys: seq<string>)
    requires NoDup(keys)
    ensures Dedup(keys) == keys
  {
    if keys != [] {
      var init := keys[..|keys| - 1];
      DedupOfNoDup(init);
      assert keys[|keys| - 1] !in init;
      assert init + [keys[|keys| - 1]] == keys;
    }
  }

  /** `set.add(k)`: a key already present keeps its place. */
  function Added(sel: seq<string>, k: string): (s: seq<string>)
    requires NoDup(sel)
    ensures NoDup(s)
    ensures forall x :: x in s <==> x in sel || x == k
  {
    if k in sel then sel else sel + [k]
  }

  /** `set.delete(k)`: every other key keeps its order. */
  function Removed(sel: seq<string>, k: string): (s: seq<string>)
    requires NoDup(sel)
    ensures NoDup(s)
    ensures forall x :: x in s <==> x in sel && x != k
    ensures k !in sel ==> s == sel
  {
    if sel == [] then []
    else
      var init := sel[..|sel| - 1];
      var last := sel[|sel| - 1];
      assert forall i | 0 <= i < |init| :: init[i] != last;
      var rest := Removed(init, k);
      if last == k then rest
      else
        assert sel == init + [last];
        assert last !in rest;
        assert forall i | 0 <= i < |rest| :: rest[i] != last;
        rest + [last]
  }

  /** A cell click: `has(key) ? delete(key) : add(key)`. */
  function Toggled(sel: seq<string>, k: string): (s: seq<string>)
    requires NoDup(sel)
    ensures NoDup(s)
    ensures k in s <==> k !in sel
    ensures forall x | x != k :: x in s <==> x in sel
  {
    if k in sel then Removed(sel, k) else Added(sel, k)
  }

  /** Clicking a cell twice restores the selection's contents, and restores
      it exactly when the key was not selected before. */
  lemma ToggledTwice(sel: seq<string>, k: string)
    requires NoDup(sel)
    ensures forall x :: x in Toggled(Toggled(sel, k), k) <==> x in sel
    ensures k !in sel ==> Toggled(Toggled(sel, k), k) == sel
  {
    if k !in sel {
      var once := sel + [k];
      assert once[..|once| - 1] == sel;
    }
  }

  /** `keys.forEach(k => set.add(k))`. */
  function AddAll(sel: seq<string>, keys: seq<string>): (s: seq<string>)
    requires NoDup(sel)
    ensures NoDup(s)
    ensures forall x :: x in s <==> x in sel || x in keys
    ensures |sel| <= |s| && s[..|sel|] == sel
  {
    if keys == [] then sel
    else
      var init := AddAll(sel, keys[..|keys| - 1]);
      var k := keys[|keys| - 1];
      assert forall x :: x in keys <==> x in keys[..|keys| - 1] || x == k;
      Added(init, k)
  }

  /** `keys.every(k => set.has(k))`. */
  predicate IsAllActive(sel: seq<string>, keys: seq<string>) {
    forall i | 0 <= i < |keys| :: keys[i] in sel
  }

  /** `isAllPaidActive`: as `IsAllActive`, but false for an empty table. */
  predicate IsAllPaidActive(sel: seq<string>, t: Tables) {
    IsAllActive(sel, PaidKeys(t)) && |PaidKeys(t)| > 0
  }

  /** `setAllActive`: add every key, or clear the set. */
  method SetAllActive(sel: seq<string>, keys: seq<string>, active: bool) returns (s: seq<string>)
    requires NoDup(sel)
    ensures s == if active then AddAll(sel, keys) else []
  {
    if !active {
      return [];
    }
    s := sel;
    var i := 0;
    while i < |keys|
      invariant 0 <= i <= |keys|
      invariant NoDup(s) && s == AddAll(sel, keys[..i])
    {
      assert keys[..i + 1][..i] == keys[..i];
      s := Added(s, keys[i]);
      i := i + 1;
    }
    assert keys[..i] == keys;
  }

  /** The master button flips its own state: after "Select All" every key is
      selected, after "Unselect All" none is (for a non-empty table). */
  lemma ToggleAllFlips(sel: seq<string>, keys: seq<string>)
    requires NoDup(sel)
    ensures IsAllActive(AddAll(sel, keys), keys)
    ensures |keys| > 0 ==> !IsAllActive([], keys)
  {
    if |keys| > 0 {
      assert keys[0] !in [];
    }
  }

  // ---------------------------------------------------------------------------
  // The dialog's state.

  /** What `processImage` produces from an image and the selections: the
      processed pixels, of the image's size. */
  ghost function ProcessedOf(img: Image, free: seq<string>, paid: seq<string>): Raster
    requires ValidImage(img)
  {
    var palette := PaletteOf(free) + PaletteOf(paid);
    Raster(img.width, img.height, Processed(img.data, Choices(img.data, palette)))
  }

  /** The colour counts `processImage` records. */
  ghost function CountsOf(img: Image, free: seq<string>, paid: seq<string>): map<Rgb, nat>
    requires ValidImage(img)
  {
    var palette := PaletteOf(free) + PaletteOf(paid);
    CountMap(Used(img.data, Choices(img.data, palette), |img.data| / 4))
  }

  /** The writes of `applyCC` once the processed image is encoded as
      `dataUrl`, as written: the overlay at `k` takes it as a local image,
      the image is marked palette-perfect, and then every cache is dropped,
      the mark included. */
  method StoreProcessed(cfg: Config, caches: Caches, hook: FetchHook, k: nat, dataUrl: string)
    requires caches.Valid() && k < |cfg.overlays|
    modifies cfg, hook, caches, caches.overlayCache, caches.imageDecodeCache,
             caches.paletteDetectionCache, caches.baseMinifyCache
    ensures caches.Valid()
    ensures cfg.overlays == old(cfg.overlays)[k := old(cfg.overlays)[k].(imageBase64 := Some(dataUrl),
                                                                         imageUrl := None, isLocal := true)]
    ensures caches.Cleared() && Lookup(caches.paletteDetectionCache.entries, dataUrl) == None
    ensures hook.installed == OverlaysNeedingHook(cfg)
    ensures cfg.activeOverlayId == old(cfg.activeOverlayId) && cfg.overlayMode == old(cfg.overlayMode)
  {
    var ov := cfg.overlays[k];
    cfg.overlays := cfg.overlays[k := ov.(imageBase64 := Some(dataUrl), imageUrl := None, isLocal := true)];
    caches.paletteDetectionCache.Set(dataUrl, true);
    caches.ClearOverlayCache();
    hook.EnsureHook(cfg);
  }

  /** The writes `applyCC` evidently intends: the caches are dropped first,
      so that the palette-perfect mark of the new image survives them. The
      mark is set only when the image was processed against a non-empty
      palette, the only case in which every visible pixel took a palette
      colour (`ProcessedInPalette`). */
  method StoreProcessedMarked(cfg: Config, caches: Caches, hook: FetchHook, k: nat, dataUrl: string,
                              palette: seq<Entry>)
    requires caches.Valid() && k < |cfg.overlays|
    modifies cfg, hook, caches, caches.overlayCache, caches.imageDecodeCache,
             caches.paletteDetectionCache, caches.baseMinifyCache
    ensures caches.Valid()
    ensures cfg.overlays == old(cfg.overlays)[k := old(cfg.overlays)[k].(imageBase64 := Some(dataUrl),
                                                                         imageUrl := None, isLocal := true)]
    ensures caches.overlayCache.entries == [] && caches.imageDecodeCache.entries == []
    ensures caches.baseMinifyCache.entries == [] && caches.tooLargeOverlays == {}
    ensures caches.paletteDetectionCache.entries == if palette != [] then [(dataUrl, true)] else []
    ensures Lookup(caches.paletteDetectionCache.entries, dataUrl) == if palette != [] then Some(true) else None
    ensures hook.installed == OverlaysNeedingHook(cfg)
    ensures cfg.activeOverlayId == old(cfg.activeOverlayId) && cfg.overlayMode == old(cfg.overlayMode)
  {
    var ov := cfg.overlays[k];
    cfg.overlays := cfg.overlays[k := ov.(imageBase64 := Some(dataUrl), imageUrl := None, isLocal := true)];
    caches.ClearOverlayCache();
    if palette != [] {
      caches.paletteDetectionCache.Set(dataUrl, true);
    }
    hook.EnsureHook(cfg);
  }

  /** From a non-empty byte palette the nearest colour is the colour of one
      of its entries. */
  lemma NearestInPalette(c: Rgb, palette: seq<Entry>)
    requires IsByteRgb(c) && |palette| > 0 && forall i | 0 <= i < |palette| :: IsByteEntry(palette[i])
    ensures exists j | 0 <= j < |palette| && IsByteEntry(palette[j]) :: Nearest(c, palette) == EntryColor(palette[j])
  {
    ScanIsFirstNearest(c, palette, |palette|);
    DistOfBytes(palette[0], c);
    var k := Scan(c, palette, |palette|);
    assert k.Some?;
    assert Nearest(c, palette) == EntryColor(palette[k.value]);
  }

  /** Processed against a non-empty byte palette, every visible pixel is
      opaque and has the colour of a palette entry, which is what the
      palette-perfect mark claims; against an empty palette it keeps its
      own colour. */
  lemma ProcessedInPalette(src: seq<int>, palette: seq<Entry>, p: nat)
    requires IsRgba(src) && 4 * p + 3 < |src| && AlphaAt(src, p) != 0
    requires |palette| > 0 && forall i | 0 <= i < |palette| :: IsByteEntry(palette[i])
    ensures exists j | 0 <= j < |palette| && IsByteEntry(palette[j]) ::
      OutPixel(src, Choices(src, palette), p) == Px(EntryColor(palette[j]), 255)
  {
    ProcessedPixel(src, palette, p);
    assert IsByteRgb(ColorAt(src, p)) by {
      assert IsByte(src[4 * p]) && IsByte(src[4 * p + 1]) && IsByte(src[4 * p + 2]);
    }
    NearestInPalette(ColorAt(src, p), palette);
  }

  /** The work of `processImage` for a source image and the selections. */
  method ProcessWith(img: Image, free: seq<string>, paid: seq<string>) returns (raster: Raster, counts: map<Rgb, nat>)
    requires ValidImage(img)
    ensures raster == ProcessedOf(img, free, paid) && counts == CountsOf(img, free, paid)
  {
    var palette := GetActivePalette(free, paid);
    var out;
    out, counts := ProcessPixels(img.data, palette);
    raster := Raster(img.width, img.height, out);
  }

  /** The `cc` record, less its DOM elements and zoom. `overlay` is the
      index of the overlay being edited; `source` the decoded source image;
      `processed` the processed canvas. */
  class CCState {
    var selectedFree: seq<string>
    var selectedPaid: seq<string>
    var realtime: bool
    var isStale: bool
    var overlay: Option<nat>
    var source: Option<Image>
    var processed: Option<Raster>
    var lastColorCounts: map<Rgb, nat>

    ghost predicate Valid()
      reads this
    {
      NoDup(selectedFree) && NoDup(selectedPaid) &&
      (source.Some? ==> ValidImage(source.value)) &&
      (processed.Some? ==>
         source.Some? &&
         processed.value.width == source.value.width && processed.value.height == source.value.height)
    }

    /** The result on show matches the current selections. */
    ghost predicate UpToDate()
      reads this
      requires Valid()
    {
      source.Some? ==>
        processed == Some(ProcessedOf(source.value, selectedFree, selectedPaid)) &&
        lastColorCounts == CountsOf(source.value, selectedFree, selectedPaid)
    }

    /** `buildCCModal`: the selections come from the stored keys. */
    constructor (cfg: Config)
      ensures Valid() && UpToDate()
      ensures selectedFree == Dedup(cfg.ccFreeKeys) && selectedPaid == Dedup(cfg.ccPaidKeys)
      ensures realtime == cfg.ccRealtime && !isStale
      ensures overlay == None && source == None && processed == None && lastColorCounts == map[]
    {
      selectedFree := Dedup(cfg.ccFreeKeys);
      selectedPaid := Dedup(cfg.ccPaidKeys);
      realtime := cfg.ccRealtime;
      isStale := false;
      overlay := None;
      source := None;
      processed := None;
      lastColorCounts := map[];
    }

    /** `processImage()`: a no-op without a source image; otherwise the
        processed image and the counts for the current selections. */
    method ProcessImage()
      requires Valid()
      modifies this
      ensures Valid()
      ensures old(source).None? ==> unchanged(this)
      ensures old(source).Some? ==> UpToDate()
      ensures selectedFree == old(selectedFree) && selectedPaid == old(selectedPaid)
      ensures realtime == old(realtime) && isStale == old(isStale)
      ensures overlay == old(overlay) && source == old(source)
    {
      if source.None? {
        return;
      }
      var raster, counts := ProcessWith(source.value, selectedFree, selectedPaid);
      processed := Some(raster);
      lastColorCounts := counts;
    }

    /** `recalcNow()`: process, and the result is no longer stale. */
    method RecalcNow()
      requires Valid()
      modifies this
      ensures Valid() && UpToDate() && !isStale
      ensures selectedFree == old(selectedFree) && selectedPaid == old(selectedPaid)
      ensures realtime == old(realtime) && overlay == old(overlay) && source == old(source)
    {
      ProcessImage();
      isStale := false;
    }

    /** `openCCModal(overlay)` with the outcome of loading its
        `imageBase64`: the realtime flag is reloaded; a decoded image
        becomes the source and is processed at once. */
    method Open(cfg: Config, k: nat, decoded: Option<Image>)
      requires Valid()
      requires decoded.Some? ==> ValidImage(decoded.value)
      modifies this
      ensures Valid()
      ensures overlay == Some(k) && realtime == cfg.ccRealtime
      ensures selectedFree == old(selectedFree) && selectedPaid == old(selectedPaid)
      ensures decoded.Some? ==> source == decoded && UpToDate() && !isStale
      ensures decoded.None? ==>
                source == old(source) && processed == old(processed) &&
                lastColorCounts == old(lastColorCounts) && isStale == old(isStale)
    {
      overlay := Some(k);
      realtime := cfg.ccRealtime;
      if decoded.Some? {
        source := decoded;
        processed := None;
        ProcessImage();
        isStale := false;
      }
    }

    /** `closeCCModal()`. */
    method Close()
      modifies this
      ensures overlay == None
      ensures selectedFree == old(selectedFree) && selectedPaid == old(selectedPaid)
      ensures realtime == old(realtime) && isStale == old(isStale) && source == old(source)
      ensures processed == old(processed) && lastColorCounts == old(lastColorCounts)
    {
      overlay := None;
    }

    /** After a selection change: process again in realtime mode, else mark
        the result stale. Either way a result that is not stale is up to
        date. */
    method Refresh(recalc: bool)
      requires Valid()
      modifies this
      ensures Valid()
      ensures selectedFree == old(selectedFree) && selectedPaid == old(selectedPaid)
      ensures realtime == old(realtime) && overlay == old(overlay) && source == old(source)
      ensures realtime ==> UpToDate() && isStale == (old(isStale) && !recalc)
      ensures !realtime ==> isStale && processed == old(processed) && lastColorCounts == old(lastColorCounts)
    {
      if realtime {
        if recalc {
          RecalcNow();
        } else {
          ProcessImage();
        }
      } else {
        isStale := true;
      }
    }

    /** A click on a free cell: toggle the key, store the selection, then
        process (realtime) or mark stale. */
    method ClickFreeCell(cfg: Config, key: string)
      requires Valid()
      modifies this, cfg
      ensures Valid()
      ensures selectedFree == Toggled(old(selectedFree), key) && selectedPaid == old(selectedPaid)
      ensures cfg.ccFreeKeys == selectedFree
      ensures cfg.overlays == old(cfg.overlays) && cfg.ccPaidKeys == old(cfg.ccPaidKeys)
      ensures cfg.ccRealtime == old(cfg.ccRealtime)
      ensures realtime == old(realtime) && overlay == old(overlay) && source == old(source)
      ensures realtime ==> UpToDate() && isStale == old(isStale)
      ensures !realtime ==> isStale && processed == old(processed)
    {
      selectedFree := Toggled(selectedFree, key);
      cfg.ccFreeKeys := selectedFree;
      Refresh(false);
    }

    /** A click on a paid cell. */
    method ClickPaidCell(cfg: Config, key: string)
      requires Valid()
      modifies this, cfg
      ensures Valid()
      ensures selectedPaid == Toggled(old(selectedPaid), key) && selectedFree == old(selectedFree)
      ensures cfg.ccPaidKeys == selectedPaid
      ensures cfg.overlays == old(cfg.overlays) && cfg.ccFreeKeys == old(cfg.ccFreeKeys)
      ensures cfg.ccRealtime == old(cfg.ccRealtime)
      ensures realtime == old(realtime) && overlay == old(overlay) && source == old(source)
      ensures realtime ==> UpToDate() && isStale == old(isStale)
      ensures !realtime ==> isStale && processed == old(processed)
    {
      selectedPaid := Toggled(selectedPaid, key);
      cfg.ccPaidKeys := selectedPaid;
      Refresh(false);
    }

    /** The free master button: select every default free key, or clear the
        selection when they are all selected. */
    method ToggleAllFree(cfg: Config, t: Tables)
      requires Valid()
      modifies this, cfg
      ensures Valid()
      ensures selectedFree ==
        if IsAllActive(old(selectedFree), t.freeKeys) then [] else AddAll(old(selectedFree), t.freeKeys)
      ensures selectedPaid == old(selectedPaid) && cfg.ccFreeKeys == selectedFree
      ensures cfg.overlays == old(cfg.overlays) && cfg.ccPaidKeys == old(cfg.ccPaidKeys)
      ensures realtime == old(realtime) && overlay == old(overlay) && source == old(source)
      ensures realtime ==> UpToDate() && !isStale
      ensures !realtime ==> isStale && processed == old(processed)
    {
      var allActive := IsAllActive(selectedFree, t.freeKeys);
      selectedFree := SetAllActive(selectedFree, t.freeKeys, !allActive);
      cfg.ccFreeKeys := selectedFree;
      Refresh(true);
    }

    /** The paid master button, over the keys of the paid table. */
    method ToggleAllPaid(cfg: Config, t: Tables)
      requires Valid()
      modifies this, cfg
      ensures Valid()
      ensures selectedPaid ==
        if IsAllPaidActive(old(selectedPaid), t) then [] else AddAll(old(selectedPaid), PaidKeys(t))
      ensures selectedFree == old(selectedFree) && cfg.ccPaidKeys == selectedPaid
      ensures cfg.overlays == old(cfg.overlays) && cfg.ccFreeKeys == old(cfg.ccFreeKeys)
      ensures realtime == old(realtime) && overlay == old(overlay) && source == old(source)
      ensures realtime ==> UpToDate() && !isStale
      ensures !realtime ==> isStale && processed == old(processed)
    {
      var allActive := IsAllPaidActive(selectedPaid, t);
      selectedPaid := SetAllActive(selectedPaid, PaidKeys(t), !allActive);
      cfg.ccPaidKeys := selectedPaid;
      Refresh(true);
    }

    /** The realtime button: flip and store the flag; switching it on
        recalculates a stale result. */
    method ToggleRealtime(cfg: Config)
      requires Valid()
      modifies this, cfg
      ensures Valid()
      ensures realtime == !old(realtime) && cfg.ccRealtime == realtime
      ensures cfg.overlays == old(cfg.overlays) && cfg.ccFreeKeys == old(cfg.ccFreeKeys)
      ensures cfg.ccPaidKeys == old(cfg.ccPaidKeys)
      ensures selectedFree == old(selectedFree) && selectedPaid == old(selectedPaid)
      ensures overlay == old(overlay) && source == old(source)
      ensures realtime && old(isStale) ==> UpToDate() && !isStale
      ensures !(realtime && old(isStale)) ==>
        isStale == old(isStale) && processed == old(processed) && lastColorCounts == old(lastColorCounts)
    {
      realtime := !realtime;
      cfg.ccRealtime := realtime;
      if realtime && isStale {
        RecalcNow();
      }
    }

    /** Whether the apply button writes the result: an overlay is open, a
        processed image exists, and it is smaller than the limit both ways. */
    predicate CanApply(t: Tables)
      reads this
    {
      overlay.Some? && processed.Some? &&
      processed.value.width < t.maxOverlayDim && processed.value.height < t.maxOverlayDim
    }

    /** The apply button, `dataUrl` standing for the processed canvas's PNG
        data URL: the overlay now shows that local image, every cache is
        emptied (the palette-perfect mark of the new image included, as
        `StoreProcessed` writes it), the hook is brought in line and the
        dialog closes. Otherwise nothing changes. */
    method Apply(cfg: Config, caches: Caches, hook: FetchHook, t: Tables, dataUrl: string)
      requires Valid() && caches.Valid()
      requires overlay.Some? ==> overlay.value < |cfg.overlays|
      modifies this, cfg, hook, caches, caches.overlayCache, caches.imageDecodeCache,
               caches.paletteDetectionCache, caches.baseMinifyCache
      ensures Valid() && caches.Valid()
      ensures old(CanApply(t)) ==>
        var k := old(overlay).value;
        cfg.overlays == old(cfg.overlays)[k := old(cfg.overlays)[k].(imageBase64 := Some(dataUrl),
                                                                     imageUrl := None, isLocal := true)] &&
        caches.Cleared() && Lookup(caches.paletteDetectionCache.entries, dataUrl) == None &&
        hook.installed == OverlaysNeedingHook(cfg) && overlay == None
      ensures !old(CanApply(t)) ==>
        unchanged(this, cfg, hook, caches) && caches.Snapshot() == old(caches.Snapshot())
      ensures cfg.activeOverlayId == old(cfg.activeOverlayId) && cfg.overlayMode == old(cfg.overlayMode)
      ensures selectedFree == old(selectedFree) && selectedPaid == old(selectedPaid)
      ensures source == old(source) && processed == old(processed)
    {
      if overlay.None? || processed.None? {
        return;
      }
      if processed.value.width >= t.maxOverlayDim || processed.value.height >= t.maxOverlayDim {
        return;
      }
      StoreProcessed(cfg, caches, hook, overlay.value, dataUrl);
      Close();
    }
  }
}

/** The colour statistics of an overlay: the hex label of a colour key and
    the histogram `updateOverlayColorStats` stores with its default filter. */
module ColorFilter {
  import opened Wrappers
  import opened Text
  import opened Pixels
  import opened Store

  // ---------------------------------------------------------------------------
  // Hex labels.

  predicate IsHexDigit(c: char) {
    '0' <= c <= '9' || 'a' <= c <= 'f'
  }

  function HexDigitValue(c: char): (d: nat)
    requires IsHexDigit(c)
    ensures d < 16
  {
    if c <= '9' then c as int - '0' as int else c as int - 'a' as int + 10
  }

  /** The value of a lower-case hexadecimal numeral. */
  function HexValue(s: string): nat
    requires forall i | 0 <= i < |s| :: IsHexDigit(s[i])
  {
    if s == [] then 0 else 16 * HexValue(s[..|s| - 1]) + HexDigitValue(s[|s| - 1])
  }

  /** `toString(16)` reads back as the number it was made from. */
  lemma {:induction false} NatToHexValue(n: nat)
    ensures forall i | 0 <= i < |NatToHex(n)| :: IsHexDigit(NatToHex(n)[i])
    ensures HexValue(NatToHex(n)) == n
    decreases n
  {
    if n >= 16 {
      NatToHexValue(n / 16);
      var s := NatToHex(n);
      assert s[..|s| - 1] == NatToHex(n / 16);
      assert HexDigitValue(HexChar(n % 16)) == n % 16;
    } else {
      assert HexDigitValue(HexChar(n)) == n;
    }
  }

  /** A leading zero does not change the value. */
  lemma {:induction false} LeadingZero(s: string)
    requires forall i | 0 <= i < |s| :: IsHexDigit(s[i])
    ensures HexValue("0" + s) == HexValue(s)
    decreases |s|
  {
    if s != [] {
      var t := "0" + s;
      assert t[..|t| - 1] == "0" + s[..|s| - 1];
      LeadingZero(s[..|s| - 1]);
    }
  }

  /** `n.toString(16)` for any number: a sign for negatives, 'NaN' for `NaN`. */
  function JsHex(n: Option<int>): string {
    match n
    case None => "NaN"
    case Some(v) => if v < 0 then "-" + NatToHex(-v) else NatToHex(v)
  }

  /** `toHex(n)`: `n.toString(16).padStart(2, '0')`. */
  function ToHex2(n: Option<int>): (h: string)
    ensures |h| >= 2
  {
    PadStart(JsHex(n), 2, '0')
  }

  /** Two lower-case hex digits worth `n`. */
  predicate HexPair(s: string, n: int) {
    |s| == 2 && IsHexDigit(s[0]) && IsHexDigit(s[1]) && 16 * HexDigitValue(s[0]) + HexDigitValue(s[1]) == n
  }

  lemma PadOneDigit(h: string, n: int)
    requires |h| == 1 && IsHexDigit(h[0]) && HexValue(h) == n
    ensures HexPair(PadStart(h, 2, '0'), n)
  {
    var t := PadStart(h, 2, '0');
    assert t == ['0'] + h;
    assert h[..0] == [];
  }

  lemma PadTwoDigits(h: string, n: int)
    requires |h| == 2 && IsHexDigit(h[0]) && IsHexDigit(h[1]) && HexValue(h) == n
    ensures HexPair(PadStart(h, 2, '0'), n)
  {
    assert PadStart(h, 2, '0') == h;
    assert h[..1] == [h[0]];
    assert h[..1][..0] == [];
    assert HexValue(h[..1]) == HexDigitValue(h[0]);
  }

  /** A channel byte becomes exactly two lower-case hex digits worth it. */
  lemma ToHex2OfByte(n: int)
    requires IsByte(n)
    ensures HexPair(ToHex2(Some(n)), n)
  {
    var h := NatToHex(n);
    NatToHexValue(n);
    assert ToHex2(Some(n)) == PadStart(h, 2, '0');
    if n < 16 {
      assert IsHexDigit(h[0]);
      PadOneDigit(h, n);
    } else {
      assert IsHexDigit(h[0]) && IsHexDigit(h[1]);
      PadTwoDigits(h, n);
    }
  }


  /** `rgbKeyToHex(key)`. `None` is the `TypeError` of a key with fewer than
      three parts (`toString` of `undefined`). */
  function RgbKeyToHex(key: string): (hex: Option<string>)
    ensures hex.Some? <==> |Split(key, ',')| >= 3
    ensures hex.Some? ==> |hex.value| >= 7 && hex.value[0] == '#'
  {
    if |Split(key, ',')| < 3 then None
    else Some("#" + ToHex2(KeyChannel(key, 0)) + ToHex2(KeyChannel(key, 1)) + ToHex2(KeyChannel(key, 2)))
  }

  /** The key of a colour labels it `#rrggbb`: seven characters whose three
      hex pairs read back as its channels. */
  lemma RgbKeyToHexOfColor(c: Rgb)
    requires IsByteRgb(c)
    ensures var hex := RgbKeyToHex(RgbKey(c));
      hex.Some? && |hex.value| == 7 && hex.value[0] == '#' &&
      HexPair(hex.value[1..3], c.r) && HexPair(hex.value[3..5], c.g) && HexPair(hex.value[5..7], c.b)
  {
    RgbKeyToHexIs(c);
    ToHex2OfByte(c.r);
    ToHex2OfByte(c.g);
    ToHex2OfByte(c.b);
    LabelParts(ToHex2(Some(c.r)), ToHex2(Some(c.g)), ToHex2(Some(c.b)));
  }

  lemma RgbKeyToHexIs(c: Rgb)
    ensures RgbKeyToHex(RgbKey(c)) == Some("#" + ToHex2(Some(c.r)) + ToHex2(Some(c.g)) + ToHex2(Some(c.b)))
  {
    RgbKeyRoundTrip(c);
  }

  lemma LabelParts(hr: string, hg: string, hb: string)
    requires |hr| == 2 && |hg| == 2 && |hb| == 2
    ensures var hex := "#" + hr + hg + hb;
      |hex| == 7 && hex[0] == '#' && hex[1..3] == hr && hex[3..5] == hg && hex[5..7] == hb
  {
  }

  // ---------------------------------------------------------------------------
  // The histogram.

  /** A pixel the statistics count: visible and not `#deface`. */
  predicate Counted(data: seq<int>, p: nat)
    requires 4 * p + 3 < |data|
  {
    AlphaAt(data, p) != 0 && ColorAt(data, p) != Sentinel
  }

  /** The colours of the counted pixels among the first `n`, with
      multiplicity. */
  function Histogram(data: seq<int>, n: nat): multiset<Rgb>
    requires 4 * n <= |data|
  {
    if n == 0 then multiset{}
    else Histogram(data, n - 1) + if Counted(data, n - 1) then multiset{ColorAt(data, n - 1)} else multiset{}
  }

  /** The pixels of colour `c` that are counted. */
  function PixelsOf(data: seq<int>, n: nat, c: Rgb): set<nat>
    requires 4 * n <= |data|
  {
    set p: nat | p < n && Counted(data, p) && ColorAt(data, p) == c
  }

  /** All counted pixels. */
  function CountedPixels(data: seq<int>, n: nat): set<nat>
    requires 4 * n <= |data|
  {
    set p: nat | p < n && Counted(data, p)
  }

  /** Each colour is counted once per counted pixel of that colour. */
  lemma {:induction false} HistogramCount(data: seq<int>, n: nat, c: Rgb)
    requires 4 * n <= |data|
    ensures Histogram(data, n)[c] == |PixelsOf(data, n, c)|
  {
    if n > 0 {
      HistogramCount(data, n - 1, c);
      var q := n - 1;
      if Counted(data, q) && ColorAt(data, q) == c {
        assert PixelsOf(data, n, c) == PixelsOf(data, q, c) + {q};
      } else {
        assert PixelsOf(data, n, c) == PixelsOf(data, q, c);
      }
    }
  }

  /** The counts add up to the number of counted pixels. */
  lemma {:induction false} HistogramSize(data: seq<int>, n: nat)
    requires 4 * n <= |data|
    ensures |Histogram(data, n)| == |CountedPixels(data, n)|
  {
    if n > 0 {
      HistogramSize(data, n - 1);
      var q := n - 1;
      if Counted(data, q) {
        assert CountedPixels(data, n) == CountedPixels(data, q) + {q};
      } else {
        assert CountedPixels(data, n) == CountedPixels(data, q);
      }
    }
  }

  /** A colour is in the histogram exactly when some counted pixel has it. */
  lemma {:induction false} HistogramKeys(data: seq<int>, n: nat, c: Rgb)
    requires 4 * n <= |data|
    ensures c in Histogram(data, n) <==> exists p: nat | p < n :: Counted(data, p) && ColorAt(data, p) == c
  {
    if n > 0 {
      HistogramKeys(data, n - 1, c);
      var q := n - 1;
      if c in Histogram(data, n) && c !in Histogram(data, q) {
        assert Counted(data, q) && ColorAt(data, q) == c;
      }
    }
  }

  /** A multiset as the dictionary of positive counts it is. */
  function CountMap(m: multiset<Rgb>): (stats: map<Rgb, nat>)
    ensures forall c :: c in stats <==> c in m
    ensures forall c | c in stats :: stats[c] == m[c] >= 1
  {
    map c | c in m :: m[c]
  }

  /** `stats[key] = (stats[key] || 0) + 1` on the dictionary of a multiset. */
  lemma CountMapAdd(m: multiset<Rgb>, c: Rgb)
    ensures CountMap(m + multiset{c}) ==
      CountMap(m)[c := (if c in CountMap(m) then CountMap(m)[c] else 0) + 1]
  {
  }

  /** The statistics of an image's pixels. */
  function StatsOf(data: seq<int>): map<Rgb, nat>
    requires |data| % 4 == 0
  {
    CountMap(Histogram(data, |data| / 4))
  }

  /** Every key of the statistics is the colour of a counted pixel and
      counts exactly those pixels (so at least one); the counts add up to
      the number of counted pixels. */
  lemma StatsOfSpec(data: seq<int>, c: Rgb)
    requires |data| % 4 == 0
    ensures c in StatsOf(data) <==> exists p: nat | p < |data| / 4 :: Counted(data, p) && ColorAt(data, p) == c
    ensures c in StatsOf(data) ==> StatsOf(data)[c] == |PixelsOf(data, |data| / 4, c)| >= 1
    ensures |Histogram(data, |data| / 4)| == |CountedPixels(data, |data| / 4)|
  {
    HistogramCount(data, |data| / 4, c);
    HistogramSize(data, |data| / 4);
    HistogramKeys(data, |data| / 4, c);
  }

  /** The default filter: every colour of the statistics shown. */
  function AllShown(stats: map<Rgb, nat>): (filter: map<Rgb, bool>)
    ensures filter.Keys == stats.Keys
    ensures forall c | c in filter :: filter[c]
  {
    map c | c in stats :: true
  }

  /** One more pixel: counted, it adds one to its colour; else nothing. */
  lemma CountStep(data: seq<int>, p: nat)
    requires 4 * p + 4 <= |data|
    ensures var stats := CountMap(Histogram(data, p));
      var c := Rgb(data[4 * p], data[4 * p + 1], data[4 * p + 2]);
      CountMap(Histogram(data, p + 1)) ==
        if data[4 * p + 3] != 0 && c != Sentinel then stats[c := (if c in stats then stats[c] else 0) + 1]
        else stats
  {
    var h := Histogram(data, p);
    assert ColorAt(data, p) == Rgb(data[4 * p], data[4 * p + 1], data[4 * p + 2]);
    if Counted(data, p) {
      CountMapAdd(h, ColorAt(data, p));
    }
  }

  /** One iteration of the counting loop: pixel `p` starts at byte `4 * p`. */
  method CountPixel(data: seq<int>, p: nat, stats: map<Rgb, nat>) returns (next: map<Rgb, nat>)
    requires 4 * p + 4 <= |data|
    requires stats == CountMap(Histogram(data, p))
    ensures next == CountMap(Histogram(data, p + 1))
  {
    CountStep(data, p);
    var i := 4 * p;
    next := stats;
    var a := data[i + 3];
    if a != 0 {
      var r, g, b := data[i], data[i + 1], data[i + 2];
      if !(r == 0xDE && g == 0xFA && b == 0xCE) {
        var key := Rgb(r, g, b);
        next := stats[key := (if key in stats then stats[key] else 0) + 1];
      }
    }
  }

  /** The `for (let i = 0; i < data.length; i += 4)` loop. */
  method CountColors(data: seq<int>) returns (stats: map<Rgb, nat>)
    requires |data| % 4 == 0
    ensures stats == StatsOf(data)
  {
    stats := map[];
    var p := 0;
    assert CountMap(Histogram(data, 0)) == map[];
    while 4 * p < |data|
      invariant 0 <= p <= |data| / 4
      invariant stats == CountMap(Histogram(data, p))
    {
      stats := CountPixel(data, p, stats);
      p := p + 1;
    }
  }

  /** `for (const k of Object.keys(stats)) filter[k] = true`. */
  method DefaultFilter(stats: map<Rgb, nat>) returns (filter: map<Rgb, bool>)
    ensures filter == AllShown(stats)
  {
    filter := map[];
    var keys := stats.Keys;
    while keys != {}
      invariant keys <= stats.Keys
      invariant filter.Keys == stats.Keys - keys
      invariant forall c | c in filter :: filter[c]
      decreases keys
    {
      var k :| k in keys;
      filter := filter[k := true];
      keys := keys - {k};
    }
  }

  /** `updateOverlayColorStats(ov)`; `loaded` is what `loadImage` yields for
      the overlay's data URL, and `None` as a result is its rejection. */
  method UpdateOverlayColorStats(ov: OverlayItem, loaded: Option<Image>) returns (r: Option<OverlayItem>)
    requires loaded.Some? ==> ValidImage(loaded.value)
    ensures !Truthy(ov.imageBase64) ==> r == Some(ov.(colorStats := None, colorFilter := None))
    ensures Truthy(ov.imageBase64) && loaded.None? ==> r.None?
    ensures Truthy(ov.imageBase64) && loaded.Some? ==>
      var stats := StatsOf(loaded.value.data);
      r == Some(ov.(colorStats := Some(stats), colorFilter := Some(AllShown(stats))))
  {
    if !Truthy(ov.imageBase64) {
      return Some(ov.(colorStats := None, colorFilter := None));
    }
    if loaded.None? {
      return None;
    }
    var stats := CountColors(loaded.value.data);
    var filter := DefaultFilter(stats);
    return Some(ov.(colorStats := Some(stats), colorFilter := Some(filter)));
  }
}

/** The palette quantiser of the overlay renderer: the exact nearest-colour
    search, the exact-match index map and the 32x32x32 lookup table.
    `Math.sqrt` only feeds a strict `<`, so squared distances are compared. */
module Quantizer {
  import opened Wrappers
  import opened Pixels

  function SqDist(a: Rgb, b: Rgb): (d: nat)
    ensures d == 0 <==> a == b
  {
    var dr, dg, db := a.r - b.r, a.g - b.g, a.b - b.b;
    assert dr * dr >= 0 && dg * dg >= 0 && db * db >= 0;
    dr * dr + dg * dg + db * db
  }

  /** The palette table the renderer works with (free colours followed by paid
      colours): non-empty, fewer than 256 entries so an index fits a byte. */
  predicate ValidPalette(palette: seq<Rgb>) {
    0 < |palette| < 256 && forall k | 0 <= k < |palette| :: IsByteRgb(palette[k])
  }

  /** What the scan over the first `n` entries ends with: the first entry at
      the smallest distance. */
  function NearestIn(palette: seq<Rgb>, c: Rgb, n: nat): (i: nat)
    requires 0 < n <= |palette|
    ensures i < n
    ensures forall j | 0 <= j < n :: SqDist(palette[i], c) <= SqDist(palette[j], c)
    ensures forall j | 0 <= j < i :: SqDist(palette[j], c) > SqDist(palette[i], c)
  {
    if n == 1 then 0
    else
      var k := NearestIn(palette, c, n - 1);
      if SqDist(palette[n - 1], c) < SqDist(palette[k], c) then n - 1 else k
  }

  function NearestIndex(palette: seq<Rgb>, c: Rgb): nat
    requires |palette| > 0
  {
    NearestIn(palette, c, |palette|)
  }

  /** `findClosestColorIndex(r, g, b)`. */
  method FindClosestColorIndex(palette: seq<Rgb>, r: int, g: int, b: int) returns (index: nat)
    requires |palette| > 0
    ensures index == NearestIndex(palette, Rgb(r, g, b))
  {
    var c := Rgb(r, g, b);
    var minDistance: Option<nat> := None;  // Infinity
    index := 0;
    var i := 0;
    while i < |palette|
      invariant 0 <= i <= |palette|
      invariant i == 0 ==> minDistance.None? && index == 0
      invariant i > 0 ==> index == NearestIn(palette, c, i) && minDistance == Some(SqDist(palette[index], c))
    {
      var distance := SqDist(palette[i], c);
      if minDistance.None? || distance < minDistance.value {
        minDistance := Some(distance);
        index := i;
      }
      i := i + 1;
    }
  }

  /** The search returns the lowest index among the entries nearest to `c`. */
  lemma NearestIndexIsFirstMinimum(palette: seq<Rgb>, c: Rgb, i: nat)
    requires |palette| > 0
    requires i < |palette|
    requires forall j | 0 <= j < |palette| :: SqDist(palette[i], c) <= SqDist(palette[j], c)
    requires forall j | 0 <= j < i :: SqDist(palette[j], c) > SqDist(palette[i], c)
    ensures NearestIndex(palette, c) == i
  {
    var k := NearestIndex(palette, c);
    assert SqDist(palette[k], c) <= SqDist(palette[i], c);
  }

  /** A palette colour maps to the index of its first occurrence. */
  lemma NearestIndexOfPaletteColor(palette: seq<Rgb>, k: nat)
    requires k < |palette|
    requires palette[k] !in palette[..k]
    ensures NearestIndex(palette, palette[k]) == k
  {
    var c := palette[k];
    forall j | 0 <= j < k ensures SqDist(palette[j], c) > SqDist(palette[k], c) {
      assert palette[j] == palette[..k][j];
    }
    NearestIndexIsFirstMinimum(palette, c, k);
  }

  // ---------------------------------------------------------------------------
  // colorIndexMap: colour key -> index, filled by `forEach`, so a repeated
  // colour keeps its LAST index.

  function IndexMapOf(palette: seq<Rgb>): map<Rgb, nat> {
    if palette == [] then map[]
    else IndexMapOf(palette[..|palette| - 1])[palette[|palette| - 1] := |palette| - 1]
  }

  /** The map holds exactly the palette colours, each at its last index. */
  lemma {:induction false} IndexMapOfSpec(palette: seq<Rgb>, c: Rgb)
    ensures c in IndexMapOf(palette) <==> c in palette
    ensures c in IndexMapOf(palette) ==>
      var v := IndexMapOf(palette)[c];
      v < |palette| && palette[v] == c && c !in palette[v + 1..]
  {
    if palette != [] {
      var p := palette[..|palette| - 1];
      IndexMapOfSpec(p, c);
      assert palette == p + [palette[|palette| - 1]];
      if c in IndexMapOf(p) && c != palette[|palette| - 1] {
        var v := IndexMapOf(p)[c];
        assert palette[v + 1..] == p[v + 1..] + [palette[|palette| - 1]];
      }
    }
  }

  /** Module initialisation: `ALL_COLORS.forEach((c, i) => colorIndexMap.set(key(c), i))`. */
  method BuildColorIndexMap(palette: seq<Rgb>) returns (m: map<Rgb, nat>)
    ensures m == IndexMapOf(palette)
  {
    m := map[];
    var i := 0;
    while i < |palette|
      invariant 0 <= i <= |palette|
      invariant m == IndexMapOf(palette[..i])
    {
      assert palette[..i + 1][..i] == palette[..i];
      m := m[palette[i] := i];
      i := i + 1;
    }
    assert palette[..|palette|] == palette;
  }

  /** With pairwise distinct palette entries the exact-match map and the
      nearest-colour search agree on every palette colour. */
  lemma IndexMapAgreesWithSearch(palette: seq<Rgb>, c: Rgb)
    requires forall i, j | 0 <= i < j < |palette| :: palette[i] != palette[j]
    requires c in palette
    ensures c in IndexMapOf(palette) && IndexMapOf(palette)[c] == NearestIndex(palette, c)
  {
    IndexMapOfSpec(palette, c);
    var v := IndexMapOf(palette)[c];
    assert palette[v] !in palette[..v];
    NearestIndexOfPaletteColor(palette, v);
  }

  // ---------------------------------------------------------------------------
  // The lookup table: LUT_SIZE = 32 cells per channel, LUT_SHIFT = 3.

  const LutSize: nat := 32
  const LutCells: nat := 32 * 32 * 32

  /** `(r >> 3) * 1024 + (g >> 3) * 32 + (b >> 3)`. */
  function LutCell(r: int, g: int, b: int): (cell: nat)
    requires IsByte(r) && IsByte(g) && IsByte(b)
    ensures cell < LutCells
  {
    (r / 8) * 1024 + (g / 8) * 32 + b / 8
  }

  /** The representative colour of a cell: `(i << 3) | 7` per channel. */
  function CellColor(r: nat, g: nat, b: nat): Rgb {
    Rgb(r * 8 + 7, g * 8 + 7, b * 8 + 7)
  }

  ghost predicate LutFilled(lut: seq<int>, palette: seq<Rgb>, n: nat)
    requires |palette| > 0 && |lut| == LutCells && n <= LutCells
  {
    forall r, g, b | 0 <= r < 32 && 0 <= g < 32 && 0 <= b < 32 && r * 1024 + g * 32 + b < n ::
      lut[r * 1024 + g * 32 + b] == NearestIndex(palette, CellColor(r, g, b))
  }

  /** `buildColorLUT()`: the table holds, per cell, the exact search result
      for the cell's representative colour. */
  method BuildColorLUT(palette: seq<Rgb>) returns (lut: array<int>)
    requires ValidPalette(palette)
    ensures lut.Length == LutCells
    ensures forall r, g, b | 0 <= r < 32 && 0 <= g < 32 && 0 <= b < 32 ::
      lut[r * 1024 + g * 32 + b] == NearestIndex(palette, CellColor(r, g, b))
  {
    lut := new int[LutCells];
    var r := 0;
    while r < LutSize
      invariant 0 <= r <= 32
      invariant LutFilled(lut[..], palette, r * 1024)
    {
      var g := 0;
      while g < LutSize
        invariant 0 <= g <= 32
        invariant LutFilled(lut[..], palette, r * 1024 + g * 32)
      {
        var b := 0;
        while b < LutSize
          invariant 0 <= b <= 32
          invariant LutFilled(lut[..], palette, r * 1024 + g * 32 + b)
        {
          var realR := r * 8 + 7;
          var realG := g * 8 + 7;
          var realB := b * 8 + 7;
          var index := FindClosestColorIndex(palette, realR, realG, realB);
          ghost var before := lut[..];
          lut[r * LutSize * LutSize + g * LutSize + b] := index % 256;
          CellStep(before, lut[..], palette, r, g, b);
          b := b + 1;
        }
        g := g + 1;
      }
      r := r + 1;
    }
  }

  lemma CellStep(before: seq<int>, after: seq<int>, palette: seq<Rgb>, r: nat, g: nat, b: nat)
    requires ValidPalette(palette)
    requires r < 32 && g < 32 && b < 32
    requires |before| == |after| == LutCells
    requires LutFilled(before, palette, r * 1024 + g * 32 + b)
    requires after == before[r * 1024 + g * 32 + b := NearestIndex(palette, CellColor(r, g, b)) % 256]
    ensures LutFilled(after, palette, r * 1024 + g * 32 + b + 1)
  {
    var n := r * 1024 + g * 32 + b;
    forall r', g', b' | 0 <= r' < 32 && 0 <= g' < 32 && 0 <= b' < 32 && r' * 1024 + g' * 32 + b' < n + 1
      ensures after[r' * 1024 + g' * 32 + b'] == NearestIndex(palette, CellColor(r', g', b'))
    {
      if r' * 1024 + g' * 32 + b' == n {
        CellUnique(r, g, b, r', g', b');
      }
    }
  }

  lemma CellUnique(r: nat, g: nat, b: nat, r': nat, g': nat, b': nat)
    requires r < 32 && g < 32 && b < 32 && r' < 32 && g' < 32 && b' < 32
    requires r * 1024 + g * 32 + b == r' * 1024 + g' * 32 + b'
    ensures r == r' && g == g' && b == b'
  {
  }

  /** `findColorIndexLUT(r, g, b)`. */
  function FindColorIndexLUT(lut: array<int>, r: int, g: int, b: int): int
    reads lut
    requires lut.Length == LutCells
    requires IsByte(r) && IsByte(g) && IsByte(b)
  {
    lut[LutCell(r, g, b)]
  }

  /** A table built by `BuildColorLUT` answers with the exact search for the
      colour whose low three bits are all set (`c | 7` per channel). */
  lemma LutAnswer(lut: array<int>, palette: seq<Rgb>, r: int, g: int, b: int)
    requires ValidPalette(palette)
    requires lut.Length == LutCells
    requires forall r, g, b | 0 <= r < 32 && 0 <= g < 32 && 0 <= b < 32 ::
      lut[r * 1024 + g * 32 + b] == NearestIndex(palette, CellColor(r, g, b))
    requires IsByte(r) && IsByte(g) && IsByte(b)
    ensures FindColorIndexLUT(lut, r, g, b) == NearestIndex(palette, Rgb(r / 8 * 8 + 7, g / 8 * 8 + 7, b / 8 * 8 + 7))
    ensures 0 <= FindColorIndexLUT(lut, r, g, b) < |palette|
  {
    var cr, cg, cb := r / 8, g / 8, b / 8;
    assert lut[cr * 1024 + cg * 32 + cb] == NearestIndex(palette, CellColor(cr, cg, cb));
  }

  /** The table agrees with the exact search whenever every channel's low three
      bits are 111. */
  lemma LutExactOnRepresentatives(lut: array<int>, palette: seq<Rgb>, r: int, g: int, b: int)
    requires ValidPalette(palette)
    requires lut.Length == LutCells
    requires forall r, g, b | 0 <= r < 32 && 0 <= g < 32 && 0 <= b < 32 ::
      lut[r * 1024 + g * 32 + b] == NearestIndex(palette, CellColor(r, g, b))
    requires IsByte(r) && IsByte(g) && IsByte(b)
    requires r % 8 == 7 && g % 8 == 7 && b % 8 == 7
    ensures FindColorIndexLUT(lut, r, g, b) == NearestIndex(palette, Rgb(r, g, b))
  {
    LutAnswer(lut, palette, r, g, b);
  }

  /** The table is not exact in general, not even on palette colours: with
      palette [black, (8,8,8)], black falls in the cell whose representative
      (7,7,7) is nearer to (8,8,8). */
  lemma LutMissesPaletteColor()
    ensures NearestIndex([Rgb(0, 0, 0), Rgb(8, 8, 8)], Rgb(0, 0, 0)) == 0
    ensures NearestIndex([Rgb(0, 0, 0), Rgb(8, 8, 8)], CellColor(0, 0, 0)) == 1
  {
    NearestIndexOfPaletteColor([Rgb(0, 0, 0), Rgb(8, 8, 8)], 0);
  }
}

/** The pixel-anchor URL `https://backend.wplace.live/s0/pixel/{c1}/{c2}?x={x}&y={y}`
    and its decoding back into tile and pixel coordinates. */
module PixelUrl {
  import opened Wrappers
  import opened Text

  /** The parts of an absolute URL the script reads. */
  datatype Url = Url(host: string, pathname: string, search: string)

  /** The index of the first character of `s` in `ds`, or `|s|`. */
  function FindAny(s: string, ds: set<char>): (i: nat)
    ensures i <= |s| && (i < |s| ==> s[i] in ds)
    ensures forall k | 0 <= k < i :: s[k] !in ds
  {
    if s == [] || s[0] in ds then 0 else 1 + FindAny(s[1..], ds)
  }

  lemma {:induction false} FindAnyAfter(a: string, b: string, ds: set<char>)
    requires forall k | 0 <= k < |a| :: a[k] !in ds
    requires b == [] || b[0] in ds
    ensures FindAny(a + b, ds) == |a|
  {
    if a != [] {
      assert (a + b)[1..] == a[1..] + b;
      FindAnyAfter(a[1..], b, ds);
    }
  }

  predicate HasPrefix(s: string, p: string) {
    |p| <= |s| && s[..|p|] == p
  }

  /** `new URL(s)` for absolute `http:`/`https:` URLs; `None` is the
      `TypeError` it throws. The host runs up to the first '/', '?' or '#',
      the path up to '?' or '#', the query (with its '?') up to '#'. */
  function ParseUrl(s: string): (u: Option<Url>)
    ensures u.Some? ==> u.value.host != [] && u.value.pathname != []
  {
    var rest :=
      if HasPrefix(s, "https://") then Some(s[8..])
      else if HasPrefix(s, "http://") then Some(s[7..])
      else None;
    if rest.None? then None
    else
      var r := rest.value;
      var e := FindAny(r, {'/', '?', '#'});
      var host := r[..e];
      var afterHost := r[e..];
      var beforeHash := afterHost[..FindAny(afterHost, {'#'})];
      var q := FindAny(beforeHash, {'?'});
      var path := beforeHash[..q];
      var query := beforeHash[q..];
      if host == [] then None
      else Some(Url(host, if path == [] then "/" else path, if query == "?" then "" else query))
  }

  /** `new URLSearchParams(search).get(name)`: the value of the first pair
      named `name` (`None` is `null`). */
  function SearchGet(search: string, name: string): Option<string> {
    var body := if search != [] && search[0] == '?' then search[1..] else search;
    PairsGet(Split(body, '&'), name)
  }

  function PairsGet(pairs: seq<string>, name: string): Option<string> {
    if pairs == [] then None
    else
      var p := pairs[0];
      var n := if '=' in p then p[..IndexOf(p, '=')] else p;
      var v := if '=' in p then p[IndexOf(p, '=') + 1..] else "";
      if p != [] && n == name then Some(v) else PairsGet(pairs[1..], name)
  }

  /** The four numbers `extractPixelCoords` returns; `None` is `NaN`. */
  datatype Coords = Coords(chunk1: Option<int>, chunk2: Option<int>, posX: Option<int>, posY: Option<int>)

  /** `parseInt(sp.get(name) || '0', 10)`. */
  function QueryNumber(search: string, name: string): Option<int> {
    var v := SearchGet(search, name);
    ParseIntJs(if v.None? || v.value == "" then "0" else v.value)
  }

  /** `extractPixelCoords(pixelUrl)`: chunks from the 4th and 5th path
      segments, pixel position from the `x`/`y` query parameters; a URL that
      does not parse gives all zeros. */
  function ExtractPixelCoords(pixelUrl: string): (c: Coords)
    ensures ParseUrl(pixelUrl).None? ==> c == Coords(Some(0), Some(0), Some(0), Some(0))
  {
    match ParseUrl(pixelUrl)
    case None => Coords(Some(0), Some(0), Some(0), Some(0))
    case Some(u) =>
      var parts := Split(u.pathname, '/');
      Coords(if |parts| > 3 then ParseIntJs(parts[3]) else None,
             if |parts| > 4 then ParseIntJs(parts[4]) else None,
             QueryNumber(u.search, "x"),
             QueryNumber(u.search, "y"))
  }

  const Host: string := "backend.wplace.live"

  /** `/s0/pixel/${chunk1}/${chunk2}`. */
  function PixelPath(chunk1: int, chunk2: int): string {
    "/s0/pixel/" + IntToDec(chunk1) + "/" + IntToDec(chunk2)
  }

  /** `?x=${posX}&y=${posY}`. */
  function PixelQuery(posX: int, posY: int): string {
    "?x=" + IntToDec(posX) + "&y=" + IntToDec(posY)
  }

  /** `getPixelUrl(details)` for integer coordinates. */
  function GetPixelUrl(chunk1: int, chunk2: int, posX: int, posY: int): string {
    "https://" + Host + PixelPath(chunk1, chunk2) + PixelQuery(posX, posY)
  }

  // ---------------------------------------------------------------------------
  // The round trip.

  predicate NoneOf(s: string, ds: set<char>) {
    forall k | 0 <= k < |s| :: s[k] !in ds
  }

  lemma DecimalIsPlain(n: int)
    ensures NoneOf(IntToDec(n), {'/', '?', '#', '&', '=', ','})
  {
    var s := IntToDec(n);
    if n < 0 {
      assert s == "-" + NatToDec(-n);
      forall k | 0 <= k < |s| ensures s[k] !in {'/', '?', '#', '&', '=', ','} {
        if k > 0 { assert s[k] == NatToDec(-n)[k - 1]; }
      }
    }
  }

  lemma NoneOfConcat(a: string, b: string, ds: set<char>)
    requires NoneOf(a, ds) && NoneOf(b, ds)
    ensures NoneOf(a + b, ds)
  {
    forall k | 0 <= k < |a + b| ensures (a + b)[k] !in ds {
      if k >= |a| { assert (a + b)[k] == b[k - |a|]; }
    }
  }

  /** How `ParseUrl` splits an https URL whose host, path and query are
      already free of the characters that end them. */
  lemma ParseHttps(host: string, path: string, query: string)
    requires host != [] && NoneOf(host, {'/', '?', '#'})
    requires path != [] && path[0] == '/' && NoneOf(path, {'?', '#'})
    requires query != [] && query[0] == '?' && query != "?" && NoneOf(query, {'#'})
    ensures ParseUrl("https://" + host + path + query) == Some(Url(host, path, query))
  {
    var s := "https://" + host + path + query;
    assert s[..8] == "https://";
    var r := s[8..];
    assert r == host + (path + query);
    FindAnyAfter(host, path + query, {'/', '?', '#'});
    assert r[..|host|] == host;
    var afterHost := r[|host|..];
    assert afterHost == path + query;
    NoneOfConcat(path, query, {'#'});
    FindAnyAfter(path + query, [], {'#'});
    assert afterHost + [] == afterHost;
    assert afterHost[..|afterHost|] == afterHost;
    FindAnyAfter(path, query, {'?'});
    assert afterHost[..|path|] == path;
    assert afterHost[|path|..] == query;
  }

  lemma PathIsPlain(chunk1: int, chunk2: int)
    ensures NoneOf(PixelPath(chunk1, chunk2), {'?', '#'})
  {
    var ds := {'?', '#'};
    DecimalIsPlain(chunk1); DecimalIsPlain(chunk2);
    assert NoneOf("/s0/pixel/", ds);
    assert NoneOf("/", ds);
    NoneOfConcat("/s0/pixel/", IntToDec(chunk1), ds);
    NoneOfConcat("/s0/pixel/" + IntToDec(chunk1), "/", ds);
    NoneOfConcat("/s0/pixel/" + IntToDec(chunk1) + "/", IntToDec(chunk2), ds);
  }

  lemma QueryIsPlain(posX: int, posY: int)
    ensures NoneOf(PixelQuery(posX, posY), {'#'})
  {
    var ds := {'#'};
    DecimalIsPlain(posX); DecimalIsPlain(posY);
    assert NoneOf("?x=", ds);
    assert NoneOf("&y=", ds);
    NoneOfConcat("?x=", IntToDec(posX), ds);
    NoneOfConcat("?x=" + IntToDec(posX), "&y=", ds);
    NoneOfConcat("?x=" + IntToDec(posX) + "&y=", IntToDec(posY), ds);
  }

  lemma ParseOwnUrl(chunk1: int, chunk2: int, posX: int, posY: int)
    ensures ParseUrl(GetPixelUrl(chunk1, chunk2, posX, posY)) ==
      Some(Url(Host, PixelPath(chunk1, chunk2), PixelQuery(posX, posY)))
  {
    assert NoneOf(Host, {'/', '?', '#'});
    PathIsPlain(chunk1, chunk2);
    QueryIsPlain(posX, posY);
    ParseHttps(Host, PixelPath(chunk1, chunk2), PixelQuery(posX, posY));
  }

  lemma {:induction false} SplitPath(d1: string, d2: string)
    requires '/' !in d1 && '/' !in d2
    ensures Split("/s0/pixel/" + d1 + "/" + d2, '/') == ["", "s0", "pixel", d1, d2]
  {
    var parts := ["", "s0", "pixel", d1, d2];
    assert Join(parts, '/') == "/s0/pixel/" + d1 + "/" + d2 by {
      assert Join(parts[4..], '/') == d2;
      assert Join(parts[3..], '/') == d1 + "/" + d2;
      assert Join(parts[2..], '/') == "pixel/" + d1 + "/" + d2;
      assert Join(parts[1..], '/') == "s0/pixel/" + d1 + "/" + d2;
    }
    SplitJoin(parts, '/');
  }

  /** The name and value of the pair `name=value`. */
  lemma PairParts(name: string, value: string)
    requires '=' !in name
    ensures var p := name + "=" + value;
      '=' in p && p[..IndexOf(p, '=')] == name && p[IndexOf(p, '=') + 1..] == value
  {
    IndexOfPrefix(name, '=', value);
    var p := name + "=" + value;
    assert p == name + ['='] + value;
  }

  lemma QuerySplit(dx: string, dy: string)
    requires NoneOf(dx, {'&'}) && NoneOf(dy, {'&'})
    ensures Split(("?x=" + dx + "&y=" + dy)[1..], '&') == ["x=" + dx, "y=" + dy]
  {
    var px, py := "x=" + dx, "y=" + dy;
    assert ("?x=" + dx + "&y=" + dy)[1..] == Join([px, py], '&');
    NoneOfConcat("x=", dx, {'&'});
    NoneOfConcat("y=", dy, {'&'});
    SplitJoin([px, py], '&');
  }

  lemma QueryValues(dx: string, dy: string)
    requires NoneOf(dx, {'&', '='}) && NoneOf(dy, {'&', '='})
    ensures SearchGet("?x=" + dx + "&y=" + dy, "x") == Some(dx)
    ensures SearchGet("?x=" + dx + "&y=" + dy, "y") == Some(dy)
  {
    var px, py := "x=" + dx, "y=" + dy;
    QuerySplit(dx, dy);
    PairParts("x", dx);
    PairParts("y", dy);
    assert PairsGet([px, py], "x") == Some(dx);
    assert [px, py][1..] == [py];
    assert PairsGet([py], "y") == Some(dy);
  }

  /** `extractPixelCoords` recovers every coordinate `getPixelUrl` wrote. */
  lemma PixelUrlRoundTrip(chunk1: int, chunk2: int, posX: int, posY: int)
    ensures ExtractPixelCoords(GetPixelUrl(chunk1, chunk2, posX, posY)) ==
      Coords(Some(chunk1), Some(chunk2), Some(posX), Some(posY))
  {
    var d1, d2, dx, dy := IntToDec(chunk1), IntToDec(chunk2), IntToDec(posX), IntToDec(posY);
    DecimalIsPlain(chunk1); DecimalIsPlain(chunk2); DecimalIsPlain(posX); DecimalIsPlain(posY);
    ParseOwnUrl(chunk1, chunk2, posX, posY);
    SplitPath(d1, d2);
    QueryValues(dx, dy);
    ParseIntJsDec(chunk1); ParseIntJsDec(chunk2); ParseIntJsDec(posX); ParseIntJsDec(posY);
  }
}

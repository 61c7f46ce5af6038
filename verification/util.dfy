/** `uniqueName`: a display name that no existing name equals, ignoring case. */
module Util {
  import opened Text

  /** `${base} (${i})`. */
  function Numbered(base: string, i: nat): string {
    base + " (" + NatToDec(i) + ")"
  }

  /** The lower-cased names already taken. */
  function Taken(existing: seq<string>): (names: set<string>)
    ensures forall n | n in existing :: ToLower(n) in names
    ensures forall t | t in names :: exists n | n in existing :: t == ToLower(n)
  {
    set n | n in existing :: ToLower(n)
  }

  /** The name `uniqueName` settles on, stated without its loop: `base` when
      free, else `base (i)` for the least free `i >= 1`. */
  ghost predicate IsUniqueNameFor(r: string, base: string, existing: seq<string>) {
    var names := Taken(existing);
    if ToLower(base) !in names then r == base
    else
      exists i: nat | i >= 1 ::
        r == Numbered(base, i) &&
        ToLower(Numbered(base, i)) !in names &&
        forall j: nat | 1 <= j < i :: ToLower(Numbered(base, j)) in names
  }

  method UniqueName(base: string, existing: seq<string>) returns (r: string)
    ensures IsUniqueNameFor(r, base, existing)
    ensures ToLower(r) !in Taken(existing)
  {
    var names := Taken(existing);
    if ToLower(base) !in names {
      return base;
    }
    var i := 1;
    while ToLower(Numbered(base, i)) in names
      invariant i >= 1
      invariant forall j: nat | 1 <= j < i :: ToLower(Numbered(base, j)) in names
      invariant i - 1 <= |names|
      decreases |names| + 1 - i
    {
      CandidatesTaken(base, names, i + 1);
      i := i + 1;
    }
    r := Numbered(base, i);
  }

  /** The lower-cased candidates are pairwise distinct. */
  lemma NumberedLowerInjective(base: string, i: nat, j: nat)
    requires ToLower(Numbered(base, i)) == ToLower(Numbered(base, j))
    ensures i == j
  {
    var a, b := ToLower(Numbered(base, i)), ToLower(Numbered(base, j));
    var di, dj := NatToDec(i), NatToDec(j);
    var n := |base| + 2;
    assert |di| == |dj| by {
      assert |a| == n + |di| + 1 && |b| == n + |dj| + 1;
    }
    assert di == dj by {
      forall k | 0 <= k < |di| ensures di[k] == dj[k] {
        assert a[n + k] == ToLowerChar(di[k]) && b[n + k] == ToLowerChar(dj[k]);
      }
    }
    NatToDecValue(i);
    NatToDecValue(j);
  }

  /** When candidates 1..i-1 are all taken, there are at least i-1 names. */
  lemma CandidatesTaken(base: string, names: set<string>, i: nat)
    requires i >= 1
    requires forall j: nat | 1 <= j < i :: ToLower(Numbered(base, j)) in names
    ensures i - 1 <= |names|
  {
    var cands := set j: nat | 1 <= j < i :: ToLower(Numbered(base, j));
    CountCandidates(base, i);
    SubsetCard(cands, names);
  }

  lemma {:induction false} SubsetCard<T>(a: set<T>, b: set<T>)
    requires a <= b
    ensures |a| <= |b|
  {
    if a != {} {
      var x :| x in a;
      SubsetCard(a - {x}, b - {x});
    }
  }

  lemma {:induction false} CountCandidates(base: string, i: nat)
    requires i >= 1
    ensures |set j: nat | 1 <= j < i :: ToLower(Numbered(base, j))| == i - 1
  {
    if i > 1 {
      CountCandidates(base, i - 1);
      var prev := set j: nat | 1 <= j < i - 1 :: ToLower(Numbered(base, j));
      var cur := set j: nat | 1 <= j < i :: ToLower(Numbered(base, j));
      var last := ToLower(Numbered(base, i - 1));
      assert cur == prev + {last};
      if last in prev {
        var j: nat :| 1 <= j < i - 1 && ToLower(Numbered(base, j)) == last;
        NumberedLowerInjective(base, j, i - 1);
      }
    } else {
      var s := set j: nat | 1 <= j < i :: ToLower(Numbered(base, j));
      assert s == {};
    }
  }
}

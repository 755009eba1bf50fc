/** Cyclic prefixes of a block and the doubling argument of the fallback sorter. */
module PrefixOrder {
  import opened Bytes
  import opened Lexicographic
  import opened Rotations

  /** The first h bytes of the endless repetition of b from index i. */
  function Prefix(b: seq<Byte>, i: int, h: nat): (p: seq<Byte>)
    requires 0 <= i < |b|
    ensures |p| == h
    decreases h
  {
    if h == 0 then [] else [b[i]] + Prefix(b, Next(i, |b|), h - 1)
  }

  /** i moved on by k, cyclically; the sorter keeps k within the block. */
  function Advance(i: int, k: int, n: int): (j: int)
    requires 0 <= i < n && 0 <= k <= n
    ensures 0 <= j < n
  {
    if i + k < n then i + k else i + k - n
  }

  lemma {:induction false} PrefixSplit(b: seq<Byte>, i: int, k: nat, h: nat)
    requires 0 <= i < |b| && k <= |b|
    ensures Prefix(b, i, k + h) == Prefix(b, i, k) + Prefix(b, Advance(i, k, |b|), h)
    decreases k
  {
    if k == 0 {
      assert Prefix(b, i, 0) == [];
    } else {
      var j := Next(i, |b|);
      PrefixSplit(b, j, k - 1, h);
      assert Advance(j, k - 1, |b|) == Advance(i, k, |b|);
      assert [b[i]] + (Prefix(b, j, k - 1) + Prefix(b, Advance(i, k, |b|), h)) ==
             [b[i]] + Prefix(b, j, k - 1) + Prefix(b, Advance(i, k, |b|), h);
    }
  }

  lemma {:induction false} PrefixAt(b: seq<Byte>, i: int, h: nat, k: int)
    requires 0 <= i < |b| && 0 <= k < h <= |b|
    ensures Prefix(b, i, h)[k] == b[Advance(i, k, |b|)]
    decreases h
  {
    if k > 0 {
      PrefixAt(b, Next(i, |b|), h - 1, k - 1);
    }
  }

  lemma {:induction false} PrefixIsRotation(b: seq<Byte>, i: int)
    requires 0 <= i < |b|
    ensures Prefix(b, i, |b|) == Rotation(b, i)
  {
    forall k | 0 <= k < |b| ensures Prefix(b, i, |b|)[k] == Rotation(b, i)[k] {
      PrefixAt(b, i, |b|, k);
    }
  }

  lemma {:induction false} LexConcat(a: seq<int>, c: seq<int>, a1: seq<int>, c1: seq<int>)
    requires |a| == |a1| && |c| == |c1|
    ensures LexLe(a + c, a1 + c1) <==> if a == a1 then LexLe(c, c1) else LexLe(a, a1)
    decreases |a|
  {
    if a == [] {
      assert a + c == c && a1 + c1 == c1;
    } else {
      assert (a + c)[1..] == a[1..] + c && (a1 + c1)[1..] == a1[1..] + c1;
      LexConcat(a[1..], c, a1[1..], c1);
      assert a == [a[0]] + a[1..] && a1 == [a1[0]] + a1[1..];
    }
  }

  /** Order by the first h bytes. */
  ghost predicate Before(b: seq<Byte>, i: int, j: int, h: nat)
    requires 0 <= i < |b| && 0 <= j < |b|
  {
    LexLe(Prefix(b, i, h), Prefix(b, j, h))
  }

  ghost predicate SamePrefix(b: seq<Byte>, i: int, j: int, h: nat)
    requires 0 <= i < |b| && 0 <= j < |b|
  {
    Prefix(b, i, h) == Prefix(b, j, h)
  }

  /** Comparing twice as far: first h bytes, then h more from h places on. */
  lemma {:induction false} Doubling(b: seq<Byte>, i: int, j: int, h: nat)
    requires 0 <= i < |b| && 0 <= j < |b| && h <= |b|
    ensures Before(b, i, j, 2 * h) <==>
      if SamePrefix(b, i, j, h) then Before(b, Advance(i, h, |b|), Advance(j, h, |b|), h) else Before(b, i, j, h)
    ensures SamePrefix(b, i, j, 2 * h) <==>
      SamePrefix(b, i, j, h) && SamePrefix(b, Advance(i, h, |b|), Advance(j, h, |b|), h)
  {
    hide Prefix, LexLe;
    PrefixSplit(b, i, h, h);
    PrefixSplit(b, j, h, h);
    var a, c := Prefix(b, i, h), Prefix(b, Advance(i, h, |b|), h);
    var a1, c1 := Prefix(b, j, h), Prefix(b, Advance(j, h, |b|), h);
    LexConcat(a, c, a1, c1);
    assert h + h == 2 * h;
    if a + c == a1 + c1 { assert (a + c)[..h] == a && (a1 + c1)[..h] == a1 && (a + c)[h..] == c
        && (a1 + c1)[h..] == c1; }
  }

  lemma {:induction false} BeforeBothWays(b: seq<Byte>, i: int, j: int, h: nat)
    requires 0 <= i < |b| && 0 <= j < |b|
    ensures Before(b, i, j, h) && Before(b, j, i, h) <==> SamePrefix(b, i, j, h)
    ensures Before(b, i, j, h) || Before(b, j, i, h)
  {
    hide Prefix, LexLe;
    if Before(b, i, j, h) && Before(b, j, i, h) { LexAntisym(Prefix(b, i, h), Prefix(b, j, h)); }
    LexRefl(Prefix(b, i, h));
    LexTotal(Prefix(b, i, h), Prefix(b, j, h));
  }

  lemma {:induction false} BeforeTrans(b: seq<Byte>, i: int, j: int, k: int, h: nat)
    requires 0 <= i < |b| && 0 <= j < |b| && 0 <= k < |b| && Before(b, i, j, h) && Before(b, j, k, h)
    ensures Before(b, i, k, h)
    ensures SamePrefix(b, i, k, h) ==> SamePrefix(b, i, j, h) && SamePrefix(b, j, k, h)
  {
    hide Prefix, LexLe;
    LexTrans(Prefix(b, i, h), Prefix(b, j, h), Prefix(b, k, h));
    BeforeBothWays(b, i, j, h);
    BeforeBothWays(b, j, k, h);
  }

  /** A long enough order, or a strict one, is the order of the rotations. */
  lemma {:induction false} BeforeIsRotationOrder(b: seq<Byte>, i: int, j: int, h: nat)
    requires 0 <= i < |b| && 0 <= j < |b| && Before(b, i, j, h)
    requires h >= |b| || !SamePrefix(b, i, j, h)
    ensures LexLe(Rotation(b, i), Rotation(b, j))
  {
    hide Prefix, LexLe, Rotation;
    var n := |b|;
    PrefixIsRotation(b, i);
    PrefixIsRotation(b, j);
    if h >= n {
      LongPrefix(b, i, h);
      LongPrefix(b, j, h);
      LexTake(Prefix(b, i, h), Prefix(b, j, h), n);
    } else {
      PrefixSplit(b, i, h, n - h);
      PrefixSplit(b, j, h, n - h);
      LexConcat(Prefix(b, i, h), Prefix(b, Advance(i, h, n), n - h), Prefix(b, j, h),
          Prefix(b, Advance(j, h, n), n - h));
    }
  }

  lemma {:induction false} LongPrefix(b: seq<Byte>, i: int, h: nat)
    requires 0 <= i < |b| <= h
    ensures Prefix(b, i, h)[..|b|] == Prefix(b, i, |b|)
  {
    hide Prefix;
    PrefixSplit(b, i, |b|, h - |b|);
  }
}

/** Orders given by integer ranks, and one doubling round of fallbackSort as a statement about
    them: u ranks rotations by h bytes, e by the h bytes after those, and together by 2h. */
module RankDoubling {
  import opened Bytes
  import opened Permutations
  import opened Rotations
  import opened Lexicographic
  import opened PrefixOrder
  import opened SegmentSort
  import Bits

  /** u orders the indices of b as their first h bytes do. */
  ghost predicate Ranks(b: seq<Byte>, u: seq<int>, h: nat) {
    |u| == |b| && forall x, y :: 0 <= x < |b| && 0 <= y < |b| ==> (u[x] <= u[y] <==> Before(b, x, y, h))
  }

  /** Bytes themselves rank by one byte. */
  lemma {:induction false} RanksFirst(b: seq<Byte>)
    ensures Ranks(b, b, 1)
  {
    hide LexLe, Prefix;
    forall x, y | 0 <= x < |b| && 0 <= y < |b| ensures b[x] <= b[y] <==> Before(b, x, y, 1) {
      OneByte(b, x);
      OneByte(b, y);
      SingleByteOrder(b[x], b[y]);
    }
  }

  lemma OneByte(b: seq<Byte>, x: int)
    requires 0 <= x < |b|
    ensures Prefix(b, x, 1) == [b[x]]
  {
    assert Prefix(b, Next(x, |b|), 0) == [];
  }

  lemma SingleByteOrder(c: int, d: int)
    ensures LexLe([c], [d]) <==> c <= d
  {
    assert [c][1..] == [] && [d][1..] == [];
  }

  lemma {:induction false} RanksSame(b: seq<Byte>, u: seq<int>, h: nat, x: int, y: int)
    requires Ranks(b, u, h) && 0 <= x < |b| && 0 <= y < |b|
    ensures u[x] == u[y] <==> SamePrefix(b, x, y, h)
  {
    hide LexLe, Prefix;
    BeforeBothWays(b, x, y, h);
  }

  /** e orders indices as u orders the indices h further on. */
  ghost predicate Shifted(u: seq<int>, e: seq<int>, h: nat) {
    && |e| == |u| && h <= |u|
    && (forall x :: 0 <= x < |e| ==> 0 <= e[x] < |u|)
    && forall x, y :: 0 <= x < |u| && 0 <= y < |u| ==>
         (e[x] <= e[y] <==> u[Advance(x, h, |u|)] <= u[Advance(y, h, |u|)])
  }

  ghost function Combined(u: seq<int>, e: seq<int>): (v: seq<int>)
    requires |u| == |e|
    ensures |v| == |u| && forall x :: 0 <= x < |u| ==> v[x] == u[x] * |u| + e[x]
  {
    seq(|u|, x requires 0 <= x < |u| => u[x] * |u| + e[x])
  }

  lemma MixedRadix(a: int, c: int, a1: int, c1: int, n: nat)
    requires 0 <= c < n && 0 <= c1 < n
    ensures a * n + c <= a1 * n + c1 <==> a < a1 || (a == a1 && c <= c1)
  {
    Bits.Distribute(a1, a, n);
    Bits.Multiple(a1 - a, n);
  }

  /** The order by v refines the order by u, e deciding where u does not. */
  ghost predicate Refines(u: seq<int>, e: seq<int>, v: seq<int>) {
    && |u| == |e| == |v|
    && forall x, y :: 0 <= x < |u| && 0 <= y < |u| ==> (v[x] <= v[y] <==> u[x] < u[y] || (u[x] == u[y] && e[x] <= e[y]))
  }

  lemma CombinedRefines(u: seq<int>, e: seq<int>)
    requires |u| == |e| && forall x :: 0 <= x < |e| ==> 0 <= e[x] < |u|
    ensures Refines(u, e, Combined(u, e))
  {
    var v := Combined(u, e);
    forall x, y | 0 <= x < |u| && 0 <= y < |u|
      ensures v[x] <= v[y] <==> u[x] < u[y] || (u[x] == u[y] && e[x] <= e[y])
    {
      MixedRadix(u[x], e[x], u[y], e[y], |u|);
    }
  }

  /** Doubling: ranks by h bytes, and by the next h, combine to ranks by 2h bytes. */
  lemma {:induction false} RanksDouble(b: seq<Byte>, u: seq<int>, e: seq<int>, v: seq<int>, h: nat)
    requires Ranks(b, u, h) && Shifted(u, e, h) && Refines(u, e, v)
    ensures Ranks(b, v, 2 * h)
  {
    hide LexLe, Prefix, Before, SamePrefix;
    forall x, y | 0 <= x < |b| && 0 <= y < |b| ensures v[x] <= v[y] <==> Before(b, x, y, 2 * h) {
      RanksDoubleAt(b, u, e, v, h, x, y);
    }
  }

  lemma {:induction false} RanksDoubleAt(b: seq<Byte>, u: seq<int>, e: seq<int>, v: seq<int>, h: nat, x: int, y: int)
    requires Ranks(b, u, h) && Shifted(u, e, h) && Refines(u, e, v) && 0 <= x < |b| && 0 <= y < |b|
    ensures v[x] <= v[y] <==> Before(b, x, y, 2 * h)
  {
    hide LexLe, Prefix, Before, SamePrefix;
    Doubling(b, x, y, h);
    RanksSame(b, u, h, x, y);
    var x1, y1 := Advance(x, h, |b|), Advance(y, h, |b|);
    assert u[x] <= u[y] <==> Before(b, x, y, h);
    assert u[x1] <= u[y1] <==> Before(b, x1, y1, h);
    assert e[x] <= e[y] <==> u[x1] <= u[y1];
  }

  // ---- bucket headers ----

  /** bits[i] is set exactly where the rank changes. */
  ghost predicate HeadAt(f: seq<int>, u: seq<int>, i: int)
    requires Names(f, u) && 0 <= i < |f|
  {
    i == 0 || Class(f, u, i - 1) != Class(f, u, i)
  }

  ghost predicate Heads(f: seq<int>, u: seq<int>, bits: seq<bool>) {
    Names(f, u) && |f| <= |bits| && forall i :: 0 <= i < |f| ==> (bits[i] <==> HeadAt(f, u, i))
  }

  /** The header at or before row i. */
  function Start(bits: seq<bool>, i: nat): (j: nat)
    requires i < |bits|
    ensures j <= i
  {
    if i == 0 || bits[i] then i else Start(bits, i - 1)
  }

  /** Among sorted rows, two share a header exactly when they share a rank. */
  lemma {:induction false} StartOrder(f: seq<int>, u: seq<int>, bits: seq<bool>, i: nat, j: nat)
    requires Heads(f, u, bits) && SortedSegment(f, u, 0, |f| - 1) && i <= j < |f|
    ensures Start(bits, i) <= Start(bits, j)
    ensures Start(bits, i) == Start(bits, j) <==> Class(f, u, i) == Class(f, u, j)
    decreases j
  {
    if i < j {
      StartOrder(f, u, bits, i, j - 1);
      assert bits[j] <==> HeadAt(f, u, j);
      assert Class(f, u, i) <= Class(f, u, j - 1) <= Class(f, u, j);
    }
  }

  function Retreat(i: int, h: int, n: int): (k: int)
    requires 0 <= i < n && 0 <= h <= n
    ensures 0 <= k < n && Advance(k, h, n) == (if h == n then k else i)
    ensures h == n ==> k == i
  {
    if i - h < 0 then i - h + n else i - h
  }

  /** What the class pass leaves in eclass. */
  ghost predicate Classified(f: seq<int>, e: seq<int>, bits: seq<bool>, h: nat, upto: int)
    requires IsPermutation(f, |f|) && h <= |f| && 0 <= upto <= |f| <= |bits|
  {
    |e| == |f| && forall m :: 0 <= m < upto ==> e[Retreat(f[m], h, |f|)] == Start(bits, m)
  }

  lemma {:induction false} ClassifiedStep(f: seq<int>, e: seq<int>, bits: seq<bool>, h: nat, i: int)
    requires IsPermutation(f, |f|) && h <= |f| && 0 <= i < |f| <= |bits| && Classified(f, e, bits, h, i)
    ensures Classified(f, e[Retreat(f[i], h, |f|) := Start(bits, i)], bits, h, i + 1)
  {
    hide Start;
    forall m | 0 <= m < i ensures Retreat(f[m], h, |f|) != Retreat(f[i], h, |f|) {
      assert f[m] != f[i];
    }
  }

  lemma {:induction false} ClassifiedAt(f: seq<int>, e: seq<int>, bits: seq<bool>, h: nat, x: int) returns (m: int)
    requires IsPermutation(f, |f|) && h <= |f| <= |bits| && Classified(f, e, bits, h, |f|) && 0 <= x < |f|
    ensures 0 <= m < |f| && f[m] == Advance(x, h, |f|) && e[x] == Start(bits, m)
  {
    hide Start, Distinct;
    Pigeonhole(f, |f|);
    m := IndexOf(f, Advance(x, h, |f|));
    assert Retreat(f[m], h, |f|) == x;
  }

  lemma {:induction false} ClassesShifted(f: seq<int>, u: seq<int>, e: seq<int>, bits: seq<bool>, h: nat)
    requires IsPermutation(f, |f|) && h <= |f| == |u| <= |bits| && Classified(f, e, bits, h, |f|)
    requires Heads(f, u, bits) && SortedSegment(f, u, 0, |f| - 1)
    ensures Shifted(u, e, h)
  {
    hide Start, Distinct, Heads, SortedSegment, Advance;
    forall x | 0 <= x < |e| ensures 0 <= e[x] < |u| { var m := ClassifiedAt(f, e, bits, h, x); }
    forall x, y | 0 <= x < |u| && 0 <= y < |u|
      ensures e[x] <= e[y] <==> u[Advance(x, h, |u|)] <= u[Advance(y, h, |u|)]
    {
      ShiftedAt(f, u, e, bits, h, x, y);
    }
  }

  lemma {:induction false} ShiftedAt(f: seq<int>, u: seq<int>, e: seq<int>, bits: seq<bool>, h: nat, x: int, y: int)
    requires IsPermutation(f, |f|) && h <= |f| == |u| <= |bits| && Classified(f, e, bits, h, |f|)
    requires Heads(f, u, bits) && SortedSegment(f, u, 0, |f| - 1) && 0 <= x < |u| && 0 <= y < |u|
    ensures |e| == |u| && (e[x] <= e[y] <==> u[Advance(x, h, |u|)] <= u[Advance(y, h, |u|)])
  {
    hide Start, Distinct, Heads, SortedSegment, Advance;
    var i := ClassifiedAt(f, e, bits, h, x);
    var j := ClassifiedAt(f, e, bits, h, y);
    if i <= j { StartOrder(f, u, bits, i, j); RowsOrdered(f, u, i, j); }
    else { StartOrder(f, u, bits, j, i); RowsOrdered(f, u, j, i); }
  }

  lemma RowsOrdered(f: seq<int>, u: seq<int>, i: int, j: int)
    requires Names(f, u) && SortedSegment(f, u, 0, |f| - 1) && 0 <= i <= j < |f|
    ensures Class(f, u, i) <= Class(f, u, j)
  {
  }
}

/** The quicksort around SegmentSort: moving equal classes to the middle, and the
    explicit stack of segments still to be sorted. */
module ClassSort {
  import opened SegmentSort

  // ---- fvswap ----

  ghost function BlockSwapped(s: seq<int>, p1: int, p2: int, n: int): (t: seq<int>)
    requires 0 <= p1 && 0 <= n && p1 + n <= p2 && p2 + n <= |s|
    ensures |t| == |s|
    ensures forall k :: 0 <= k < |s| ==>
      t[k] == s[if p1 <= k < p1 + n then k - p1 + p2 else if p2 <= k < p2 + n then k - p2 + p1 else k]
  {
    s[..p1] + s[p2..p2 + n] + s[p1 + n..p2] + s[p1..p1 + n] + s[p2 + n..]
  }

  /** t is s with the n elements from p1 and from p2 exchanged. */
  ghost predicate BlocksExchanged(s: seq<int>, t: seq<int>, p1: int, p2: int, n: int) {
    0 <= p1 && 0 <= n && p1 + n <= p2 && p2 + n <= |s| && t == BlockSwapped(s, p1, p2, n)
  }

  lemma ExchangeStart(s: seq<int>, p1: int, p2: int)
    requires 0 <= p1 <= p2 <= |s|
    ensures BlocksExchanged(s, s, p1, p2, 0)
  {
  }

  lemma ExchangeStep(s: seq<int>, t: seq<int>, p1: int, p2: int, j: int, n: int)
    requires BlocksExchanged(s, t, p1, p2, j) && j < n && p1 + n <= p2 && p2 + n <= |s|
    ensures |t| == |s| && BlocksExchanged(s, Swapped(t, p1 + j, p2 + j), p1, p2, j + 1)
  {
    var t1, u := Swapped(t, p1 + j, p2 + j), BlockSwapped(s, p1, p2, j + 1);
    forall k | 0 <= k < |s| ensures t1[k] == u[k] {
    }
  }

  method SwapBlocks(fmap: array<int>, p1: int, p2: int, n: int, ghost lo: int, ghost hi: int)
    requires 0 <= lo <= p1 && 0 <= n && p1 + n <= p2 && p2 + n <= hi + 1 <= fmap.Length
    modifies fmap
    ensures BlocksExchanged(old(fmap[..]), fmap[..], p1, p2, n)
    ensures Rearranged(old(fmap[..]), fmap[..], lo, hi)
  {
    hide *;
    ghost var s := fmap[..];
    var yyp1, yyp2, yyn := p1, p2, n;
    ExchangeStart(s, p1, p2);
    SameRearranged(s, lo, hi);
    ghost var j := 0;
    while yyn > 0
      invariant 0 <= j <= n && yyn == n - j && yyp1 == p1 + j && yyp2 == p2 + j
      invariant BlocksExchanged(s, fmap[..], p1, p2, j) && Rearranged(s, fmap[..], lo, hi)
      decreases yyn
    {
      ghost var t := fmap[..];
      ExchangeStep(s, t, p1, p2, j, n);
      Swap(fmap, yyp1, yyp2, lo, hi);
      RearrangedTrans(s, t, fmap[..], lo, hi);
      yyp1, yyp2, yyn, j := yyp1 + 1, yyp2 + 1, yyn - 1, j + 1;
    }
  }

  /** Smaller classes in lo..n, the pivot's in between, larger ones in m..hi. */
  ghost predicate Partitioned(s: seq<int>, e: seq<int>, lo: int, hi: int, n: int, m: int) {
    && Names(s, e) && 0 <= lo <= n + 1 < m <= hi + 1 <= |s|
    && exists med :: AllLess(s, e, lo, n, med) && AllEqual(s, e, n + 1, m - 1, med) && AllGreater(s, e, m, hi, med)
  }

  lemma LowMiddle(s: seq<int>, e: seq<int>, lo: int, ltLo: int, unLo: int, k1: int, med: int)
    requires Names(s, e) && 0 <= lo <= ltLo <= unLo <= |s|
    requires AllEqual(s, e, lo, ltLo - 1, med) && AllLess(s, e, ltLo, unLo - 1, med)
    requires k1 == Min(ltLo - lo, unLo - ltLo)
    ensures var t := BlockSwapped(s, lo, unLo - k1, k1); var n := lo + unLo - ltLo - 1;
      Names(t, e) && AllLess(t, e, lo, n, med) && AllEqual(t, e, n + 1, unLo - 1, med)
  {
    var t := BlockSwapped(s, lo, unLo - k1, k1);
    var n := lo + unLo - ltLo - 1;
    assert Names(t, e);
    forall k | lo <= k <= n ensures Class(t, e, k) < med {
      var k0 := if k < lo + k1 then k - lo + unLo - k1 else k;
      assert Class(s, e, k0) < med;
    }
    forall k | n + 1 <= k <= unLo - 1 ensures Class(t, e, k) == med {
      var k0 := if unLo - k1 <= k then k - (unLo - k1) + lo else k;
      assert Class(s, e, k0) == med;
    }
  }

  lemma HighMiddle(s: seq<int>, e: seq<int>, hi: int, unLo: int, gtHi: int, k1: int, med: int)
    requires Names(s, e) && 0 <= unLo <= gtHi + 1 && gtHi <= hi < |s|
    requires AllGreater(s, e, unLo, gtHi, med) && AllEqual(s, e, gtHi + 1, hi, med)
    requires k1 == Min(hi - gtHi, gtHi - (unLo - 1))
    ensures var t := BlockSwapped(s, unLo, hi - k1 + 1, k1); var m := hi - (gtHi - (unLo - 1)) + 1;
      Names(t, e) && AllEqual(t, e, unLo, m - 1, med) && AllGreater(t, e, m, hi, med)
  {
    var t := BlockSwapped(s, unLo, hi - k1 + 1, k1);
    var m := hi - (gtHi - (unLo - 1)) + 1;
    assert Names(t, e);
    forall k | unLo <= k <= m - 1 ensures Class(t, e, k) == med {
      var k0 := if k < unLo + k1 then k - unLo + hi - k1 + 1 else k;
      assert Class(s, e, k0) == med;
    }
    forall k | m <= k <= hi ensures Class(t, e, k) > med {
      var k0 := if hi - k1 + 1 <= k then k - (hi - k1 + 1) + unLo else k;
      assert Class(s, e, k0) > med;
    }
  }

  lemma Middle(s: seq<int>, t: seq<int>, u: seq<int>, e: seq<int>, lo: int, hi: int, ltLo: int, unLo: int, gtHi: int,
      k1: int, k2: int, med: int)
    requires Splitting(s, e, lo, hi, ltLo, unLo, unLo - 1, gtHi, med) && ltLo <= gtHi
    requires k1 == Min(ltLo - lo, unLo - ltLo)
    requires k2 == Min(hi - gtHi, gtHi - (unLo - 1))
    requires BlocksExchanged(s, t, lo, unLo - k1, k1) && BlocksExchanged(t, u, unLo, hi - k2 + 1, k2)
    requires lo < ltLo || gtHi < hi
    ensures Partitioned(u, e, lo, hi, lo + unLo - ltLo - 1, hi - (gtHi - (unLo - 1)) + 1)
  {
    LowMiddle(s, e, lo, ltLo, unLo, k1, med);
    assert AllGreater(t, e, unLo, gtHi, med)
        && AllEqual(t, e, gtHi + 1, hi, med) by { UpperKept(s, t, e, lo, hi, unLo, gtHi, k1, med); }
    HighMiddle(t, e, hi, unLo, gtHi, k2, med);
    var n, m := lo + unLo - ltLo - 1, hi - (gtHi - (unLo - 1)) + 1;
    LowerKept(t, u, e, lo, hi, unLo, n, k2, med);
    assert AllLess(u, e, lo, n, med) && AllEqual(u, e, n + 1, m - 1, med) && AllGreater(u, e, m, hi, med);
  }

  lemma UpperKept(s: seq<int>, t: seq<int>, e: seq<int>, lo: int, hi: int, unLo: int, gtHi: int, k1: int, med: int)
    requires Names(s, e) && Names(t, e) && 0 <= lo && 0 <= k1 && lo + k1 <= unLo - k1 && unLo <= |s| && hi < |s|
    requires t == BlockSwapped(s, lo, unLo - k1, k1) && 0 <= unLo <= gtHi + 1 && gtHi <= hi
    requires AllGreater(s, e, unLo, gtHi, med) && AllEqual(s, e, gtHi + 1, hi, med)
    ensures AllGreater(t, e, unLo, gtHi, med) && AllEqual(t, e, gtHi + 1, hi, med)
  {
    forall k | unLo <= k <= hi ensures Class(t, e, k) == Class(s, e, k) { }
  }

  lemma LowerKept(t: seq<int>, u: seq<int>, e: seq<int>, lo: int, hi: int, unLo: int, n: int, k2: int, med: int)
    requires Names(t, e) && Names(u, e) && 0 <= lo && 0 <= k2 && unLo + k2 <= hi - k2 + 1 && hi < |t| && 0 <= unLo
    requires u == BlockSwapped(t, unLo, hi - k2 + 1, k2) && lo <= n + 1 <= unLo
    requires AllLess(t, e, lo, n, med) && AllEqual(t, e, n + 1, unLo - 1, med)
    ensures AllLess(u, e, lo, n, med) && AllEqual(u, e, n + 1, unLo - 1, med)
  {
    forall k | lo <= k < unLo ensures Class(u, e, k) == Class(t, e, k) { }
  }

  /** Splits lo..hi around one of its classes; `whole` when there is only one class. */
  method Partition(fmap: array<int>, key: array<int>, d: int, ghost e: seq<int>, lo: int, hi: int, med: int)
    returns (whole: bool, n: int, m: int)
    requires fmap != key && Keyed(key[..], d, e) && 0 <= lo <= hi < fmap.Length && Names(fmap[..], e)
    requires exists k :: lo <= k <= hi && Class(fmap[..], e, k) == med
    modifies fmap
    ensures Rearranged(old(fmap[..]), fmap[..], lo, hi) && Names(fmap[..], e)
    ensures whole ==> AllEqual(fmap[..], e, lo, hi, med) && SortedSegment(fmap[..], e, lo, hi)
    ensures !whole ==> Partitioned(fmap[..], e, lo, hi, n, m)
  {
    hide Rearranged, Splitting, BlockSwapped, Partitioned, Names, Keyed;
    ghost var f0 := fmap[..];
    var ltLo, unLo, unHi, gtHi := Split(fmap, key, d, e, lo, hi, med);
    ghost var s := fmap[..];
    RearrangedNames(f0, s, e, lo, hi);
    PivotPresent(f0, s, e, lo, hi, ltLo, unLo, gtHi, med);
    n, m := 0, 0;
    whole := gtHi < ltLo;
    if whole { return; }
    n, m := Gather(fmap, lo, hi, ltLo, unLo, unHi, gtHi, e, med);
    RearrangedTrans(f0, s, fmap[..], lo, hi);
    RearrangedNames(f0, fmap[..], e, lo, hi);
  }

  /** fmin */
  function Min(a: int, b: int): (m: int)
    ensures m <= a && m <= b && (m == a || m == b)
  {
    if a < b then a else b
  }

  /** Moves the equal classes from both ends to the middle. */
  method Gather(fmap: array<int>, lo: int, hi: int, ltLo: int, unLo: int, unHi: int, gtHi: int, ghost e: seq<int>,
      ghost med: int)
    returns (n: int, m: int)
    requires Splitting(fmap[..], e, lo, hi, ltLo, unLo, unHi, gtHi, med) && unHi == unLo - 1
    requires 0 <= lo <= ltLo <= unLo <= gtHi + 1 && ltLo <= gtHi <= hi < fmap.Length && (lo < ltLo || gtHi < hi)
    modifies fmap
    ensures Rearranged(old(fmap[..]), fmap[..], lo, hi) && Partitioned(fmap[..], e, lo, hi, n, m)
  {
    hide *;
    ghost var s := fmap[..];
    var k1 := Min(ltLo - lo, unLo - ltLo);
    SwapBlocks(fmap, lo, unLo - k1, k1, lo, hi);
    ghost var t := fmap[..];
    var k2 := Min(hi - gtHi, gtHi - unHi);
    SwapBlocks(fmap, unLo, hi - k2 + 1, k2, lo, hi);
    ghost var u := fmap[..];
    Middle(s, t, u, e, lo, hi, ltLo, unLo, gtHi, k1, k2, med);
    RearrangedTrans(s, t, u, lo, hi);
    n := lo + unLo - ltLo - 1;
    m := hi - (gtHi - unHi) + 1;
  }

  lemma PivotPresent(f0: seq<int>, s: seq<int>, e: seq<int>, lo: int, hi: int, ltLo: int, unLo: int, gtHi: int,
      med: int)
    requires Names(f0, e) && Rearranged(f0, s, lo, hi) && 0 <= lo <= hi < |s|
    requires exists k :: lo <= k <= hi && Class(f0, e, k) == med
    requires Splitting(s, e, lo, hi, ltLo, unLo, unLo - 1, gtHi, med)
    ensures lo <= ltLo <= unLo <= gtHi + 1 && gtHi <= hi && (lo < ltLo || gtHi < hi)
    ensures gtHi < ltLo ==> AllEqual(s, e, lo, hi, med) && SortedSegment(s, e, lo, hi)
  {
    var k :| lo <= k <= hi && Class(f0, e, k) == med;
    SameRearrangedBack(f0, s, lo, hi);
    var j := RearrangedSource(s, f0, lo, hi, k);
    assert Class(s, e, j) == med;
  }

  lemma SameRearrangedBack(s: seq<int>, t: seq<int>, lo: int, hi: int)
    requires Rearranged(s, t, lo, hi)
    ensures Rearranged(t, s, lo, hi)
  {
  }

  // ---- the stack ----

  datatype Segment = Segment(lo: int, hi: int)

  ghost predicate Inside(g: Segment, p: int) { g.lo <= p <= g.hi }

  /** Segments lie in loSt..hiSt and share no position. */
  ghost predicate Apart(st: seq<Segment>, loSt: int, hiSt: int) {
    && (forall i :: 0 <= i < |st| ==> loSt <= st[i].lo <= st[i].hi + 1 && st[i].hi <= hiSt)
    && (forall i, j, p :: 0 <= i < j < |st| && Inside(st[i], p) ==> !Inside(st[j], p))
  }

  /** Positions out of order are inside one pending segment. */
  ghost predicate Pending(st: seq<Segment>, s: seq<int>, e: seq<int>, loSt: int, hiSt: int)
    requires Names(s, e) && 0 <= loSt && hiSt < |s|
  {
    forall p, q :: loSt <= p < q <= hiSt ==> Ordered(st, s, e, p, q)
  }

  ghost predicate Ordered(st: seq<Segment>, s: seq<int>, e: seq<int>, p: int, q: int)
    requires Names(s, e) && 0 <= p < |s| && 0 <= q < |s|
  {
    Class(s, e, p) <= Class(s, e, q) || exists i :: 0 <= i < |st| && Inside(st[i], p) && Inside(st[i], q)
  }

  /** Sorting the popped segment settles it. */
  lemma SegmentDone(st: seq<Segment>, g: Segment, s: seq<int>, t: seq<int>, e: seq<int>, loSt: int, hiSt: int)
    requires Names(s, e) && Names(t, e) && 0 <= loSt && hiSt < |s| && Rearranged(s, t, g.lo, g.hi)
    requires Apart(st + [g], loSt, hiSt) && Pending(st + [g], s, e, loSt, hiSt)
    requires 0 <= g.lo && g.hi < |t| && SortedSegment(t, e, g.lo, g.hi)
    ensures Apart(st, loSt, hiSt) && Pending(st, t, e, loSt, hiSt)
  {
    ApartPop(st, g, loSt, hiSt);
    forall p, q | loSt <= p < q <= hiSt ensures Ordered(st, t, e, p, q) {
      if !(Inside(g, p) && Inside(g, q)) { OutsideOrdered(st, g, s, t, e, loSt, hiSt, p, q); }
    }
  }

  lemma ApartPop(st: seq<Segment>, g: Segment, loSt: int, hiSt: int)
    requires Apart(st + [g], loSt, hiSt)
    ensures Apart(st, loSt, hiSt) && loSt <= g.lo <= g.hi + 1 && g.hi <= hiSt
    ensures forall i, p :: 0 <= i < |st| && Inside(st[i], p) ==> !Inside(g, p)
  {
    var u := st + [g];
    assert u[|st|] == g;
    forall i | 0 <= i < |st| ensures st[i] == u[i] { }
    forall i, p | 0 <= i < |st| && Inside(st[i], p) ensures !Inside(g, p) { assert Inside(u[i], p) && i < |st|; }
    forall i, j, p | 0 <= i < j < |st| && Inside(st[i], p) ensures !Inside(st[j], p) { assert Inside(u[i], p); }
  }

  /** Rearranging one segment keeps every pair that is not inside it in order. */
  lemma OutsideOrdered(st: seq<Segment>, g: Segment, s: seq<int>, t: seq<int>, e: seq<int>, loSt: int, hiSt: int,
      p: int, q: int)
    requires Names(s, e) && Names(t, e) && 0 <= loSt && hiSt < |s| && Rearranged(s, t, g.lo, g.hi)
    requires Apart(st + [g], loSt, hiSt) && Pending(st + [g], s, e, loSt, hiSt)
    requires loSt <= p < q <= hiSt && !(Inside(g, p) && Inside(g, q))
    ensures Ordered(st, t, e, p, q)
  {
    ApartPop(st, g, loSt, hiSt);
    var p0, q0 := p, q;
    if Inside(g, p) { p0 := RearrangedSource(s, t, g.lo, g.hi, p); }
    if Inside(g, q) { q0 := RearrangedSource(s, t, g.lo, g.hi, q); }
    assert Class(t, e, p) == Class(s, e, p0) && Class(t, e, q) == Class(s, e, q0);
    assert p0 < q0;
    assert Ordered(st + [g], s, e, p0, q0);
    if Class(s, e, p0) > Class(s, e, q0) {
      var i :| 0 <= i < |st + [g]| && Inside((st + [g])[i], p0) && Inside((st + [g])[i], q0);
      assert i < |st| && (st + [g])[i] == st[i];
      assert !Inside(g, p0) && !Inside(g, q0);
      assert Inside(st[i], p) && Inside(st[i], q);
    }
  }

  /** Partitioning the popped segment leaves its two outer parts pending. */
  lemma SegmentSplit(st: seq<Segment>, g: Segment, a: Segment, b: Segment, s: seq<int>, t: seq<int>, e: seq<int>,
      loSt: int, hiSt: int, n: int, m: int)
    requires Names(s, e) && Names(t, e) && 0 <= loSt && hiSt < |s| && Rearranged(s, t, g.lo, g.hi)
    requires Apart(st + [g], loSt, hiSt) && Pending(st + [g], s, e, loSt, hiSt)
    requires Partitioned(t, e, g.lo, g.hi, n, m)
    requires (a == Segment(g.lo, n) && b == Segment(m, g.hi)) || (a == Segment(m, g.hi) && b == Segment(g.lo, n))
    ensures Apart(st + [a] + [b], loSt, hiSt) && Pending(st + [a] + [b], t, e, loSt, hiSt)
  {
    var u := st + [a] + [b];
    ApartSplit(st, g, a, b, loSt, hiSt, n, m);
    forall p, q | loSt <= p < q <= hiSt ensures Ordered(u, t, e, p, q) {
      if Inside(g, p) && Inside(g, q) {
        if p <= n && q <= n { InsideOne(st, a, b, p, q, if a.lo == g.lo && a.hi == n then a else b); }
        else if m <= p && m <= q { InsideOne(st, a, b, p, q, if b.lo == m && b.hi == g.hi then b else a); }
      } else {
        OutsideOrdered(st, g, s, t, e, loSt, hiSt, p, q);
        if Class(t, e, p) > Class(t, e, q) {
          var i :| 0 <= i < |st| && Inside(st[i], p) && Inside(st[i], q);
          assert u[i] == st[i];
        }
      }
    }
  }

  lemma InsideOne(st: seq<Segment>, a: Segment, b: Segment, p: int, q: int, c: Segment)
    requires (c == a || c == b) && Inside(c, p) && Inside(c, q)
    ensures var u := st + [a] + [b]; exists i :: 0 <= i < |u| && Inside(u[i], p) && Inside(u[i], q)
  {
    var u := st + [a] + [b];
    assert u[|st|] == a && u[|st| + 1] == b;
  }

  lemma ApartSplit(st: seq<Segment>, g: Segment, a: Segment, b: Segment, loSt: int, hiSt: int, n: int, m: int)
    requires Apart(st + [g], loSt, hiSt) && g.lo <= n + 1 < m <= g.hi + 1
    requires (a == Segment(g.lo, n) && b == Segment(m, g.hi)) || (a == Segment(m, g.hi) && b == Segment(g.lo, n))
    ensures Apart(st + [a] + [b], loSt, hiSt)
  {
    ApartPop(st, g, loSt, hiSt);
    var u := st + [a] + [b];
    forall i, j, p | 0 <= i < j < |u| && Inside(u[i], p) ensures !Inside(u[j], p) {
      if j >= |st| {
        if i < |st| { assert u[i] == st[i]; if Inside(u[j], p) { assert Inside(g, p); } }
      } else {
        assert u[i] == st[i] && u[j] == st[j];
      }
    }
  }

  // ---- sizes on the stack ----

  function Size(g: Segment): int { g.hi - g.lo + 1 }

  /** total halved i times. */
  function HalvedBy(total: nat, i: nat): nat {
    if i == 0 then total else HalvedBy(total, i - 1) / 2
  }

  /** The smaller part always goes on top, so sizes halve from one entry to the next. */
  ghost predicate Halving(st: seq<Segment>, total: nat) {
    forall i :: 0 <= i < |st| ==> Size(st[i]) <= HalvedBy(total, i)
  }

  lemma {:induction false} HalvedMonotone(small: nat, large: nat, i: nat)
    requires small <= large
    ensures HalvedBy(small, i) <= HalvedBy(large, i)
  {
    if i > 0 { HalvedMonotone(small, large, i - 1); }
  }

  lemma {:induction false} HalvedDecreases(total: nat, i: nat, j: nat)
    requires i <= j
    ensures HalvedBy(total, j) <= HalvedBy(total, i)
    decreases j
  {
    if i < j { HalvedDecreases(total, i, j - 1); }
  }

  lemma HalvedLimit()
    ensures HalvedBy(900_000, 17) == 6
  {
    assert HalvedBy(900_000, 2) == 225_000;
    assert HalvedBy(900_000, 4) == 56_250;
    assert HalvedBy(900_000, 6) == 14_062;
    assert HalvedBy(900_000, 8) == 3_515;
    assert HalvedBy(900_000, 10) == 878;
    assert HalvedBy(900_000, 12) == 219;
    assert HalvedBy(900_000, 14) == 54;
    assert HalvedBy(900_000, 16) == 13;
  }

  /** Only small i can hold a segment worth partitioning. */
  lemma {:induction false} DepthOfLarge(total: nat, i: nat)
    requires total <= 900_000 && HalvedBy(total, i) > 10
    ensures i <= 16
  {
    hide HalvedBy;
    HalvedMonotone(total, 900_000, i);
    HalvedLimit();
    if i > 16 { HalvedDecreases(900_000, 17, i); }
  }

  /** Work left: each segment counts twice its size and one. */
  function Load(st: seq<Segment>): int {
    if st == [] then 0 else Load(st[..|st| - 1]) + 2 * Size(st[|st| - 1]) + 1
  }

  lemma {:induction false} LoadSnoc(st: seq<Segment>, g: Segment)
    ensures Load(st + [g]) == Load(st) + 2 * Size(g) + 1
  {
    assert (st + [g])[..|st|] == st;
  }

  lemma {:induction false} LoadPositive(st: seq<Segment>)
    requires forall i :: 0 <= i < |st| ==> Size(st[i]) >= 0
    ensures Load(st) >= 0
  {
    if st != [] { LoadPositive(st[..|st| - 1]); }
  }

  ghost predicate OnStack(st: seq<Segment>, stackLo: seq<int>, stackHi: seq<int>, sp: int) {
    && sp == |st| <= 18 && |stackLo| == |stackHi| == 100
    && forall i :: 0 <= i < sp ==> stackLo[i] == st[i].lo && stackHi[i] == st[i].hi
  }

  /** Everything known between two turns of the main loop. */
  ghost predicate Working(st: seq<Segment>, f0: seq<int>, s: seq<int>, e: seq<int>, loSt: int, hiSt: int) {
    && 0 <= loSt <= hiSt + 1 && hiSt < |s| <= 900_000 && Names(s, e) && Rearranged(f0, s, loSt, hiSt)
    && Apart(st, loSt, hiSt) && Pending(st, s, e, loSt, hiSt) && Halving(st, hiSt - loSt + 1)
  }

  lemma WorkingPop(st: seq<Segment>, g: Segment, f0: seq<int>, s: seq<int>, e: seq<int>, loSt: int, hiSt: int)
    requires Working(st + [g], f0, s, e, loSt, hiSt)
    ensures 0 <= loSt <= g.lo <= g.hi + 1 && g.hi <= hiSt < |s| && Names(s, e)
    ensures Size(g) <= HalvedBy(hiSt - loSt + 1, |st|)
    ensures 0 <= Load(st) && 0 <= Load(st + [g])
  {
    hide Pending, Rearranged, HalvedBy, Load;
    ApartPop(st, g, loSt, hiSt);
    assert (st + [g])[|st|] == g;
    LoadPositive(st);
    LoadSnoc(st, g);
  }

  lemma WorkingDone(st: seq<Segment>, g: Segment, f0: seq<int>, s: seq<int>, t: seq<int>, e: seq<int>, loSt: int,
      hiSt: int)
    requires Working(st + [g], f0, s, e, loSt, hiSt) && 0 <= g.lo && g.hi < |t|
    requires Rearranged(s, t, g.lo, g.hi) && Names(t, e) && SortedSegment(t, e, g.lo, g.hi)
    ensures Working(st, f0, t, e, loSt, hiSt)
    ensures Load(st) < Load(st + [g])
  {
    hide Pending, Rearranged, HalvedBy, Load, Names, SortedSegment;
    WorkingPop(st, g, f0, s, e, loSt, hiSt);
    RearrangedLength(s, t, g.lo, g.hi);
    SegmentDone(st, g, s, t, e, loSt, hiSt);
    RearrangedWider(s, t, g.lo, g.hi, loSt, hiSt);
    RearrangedTrans(f0, s, t, loSt, hiSt);
    LoadSnoc(st, g);
    forall i | 0 <= i < |st| ensures Size(st[i]) <= HalvedBy(hiSt - loSt + 1, i) { assert (st + [g])[i] == st[i]; }
  }

  lemma RearrangedLength(s: seq<int>, t: seq<int>, lo: int, hi: int)
    requires Rearranged(s, t, lo, hi)
    ensures |s| == |t|
  {
  }

  lemma WorkingSplit(st: seq<Segment>, g: Segment, a: Segment, b: Segment, f0: seq<int>, s: seq<int>, t: seq<int>,
      e: seq<int>, loSt: int, hiSt: int, n: int, m: int)
    requires Working(st + [g], f0, s, e, loSt, hiSt) && Rearranged(s, t, g.lo, g.hi) && Names(t, e)
    requires Partitioned(t, e, g.lo, g.hi, n, m) && Size(a) >= Size(b)
    requires (a == Segment(g.lo, n) && b == Segment(m, g.hi)) || (a == Segment(m, g.hi) && b == Segment(g.lo, n))
    ensures Working(st + [a] + [b], f0, t, e, loSt, hiSt)
    ensures Load(st + [a] + [b]) < Load(st + [g])
  {
    hide Pending, Rearranged, HalvedBy, Load, Names, Apart, Partitioned, Halving, Size, Ordered, Inside;
    WorkingPop(st, g, f0, s, e, loSt, hiSt);
    PartSizes(t, e, g, a, b, n, m);
    RearrangedLength(s, t, g.lo, g.hi);
    SegmentSplit(st, g, a, b, s, t, e, loSt, hiSt, n, m);
    RearrangedWider(s, t, g.lo, g.hi, loSt, hiSt);
    RearrangedTrans(f0, s, t, loSt, hiSt);
    LoadSplit(st, g, a, b);
    HalvingSplit(st, g, a, b, hiSt - loSt + 1);
  }

  lemma {:induction false} LoadSplit(st: seq<Segment>, g: Segment, a: Segment, b: Segment)
    requires Size(a) + Size(b) < Size(g)
    ensures Load(st + [a] + [b]) < Load(st + [g])
  {
    hide Load;
    LoadSnoc(st, g);
    LoadSnoc(st, a);
    LoadSnoc(st + [a], b);
  }

  lemma {:induction false} HalvingSplit(st: seq<Segment>, g: Segment, a: Segment, b: Segment, total: nat)
    requires Halving(st + [g], total) && Size(a) >= Size(b) >= 0 && Size(a) + Size(b) < Size(g)
    ensures Halving(st + [a] + [b], total)
  {
    var u := st + [a] + [b];
    assert (st + [g])[|st|] == g;
    forall i | 0 <= i < |u| ensures Size(u[i]) <= HalvedBy(total, i) {
      if i < |st| { assert (st + [g])[i] == st[i]; } else if i == |st| { assert u[i] == a; } else { assert u[i] == b; }
    }
  }

  lemma PartSizes(t: seq<int>, e: seq<int>, g: Segment, a: Segment, b: Segment, n: int, m: int)
    requires Partitioned(t, e, g.lo, g.hi, n, m)
    requires (a == Segment(g.lo, n) && b == Segment(m, g.hi)) || (a == Segment(m, g.hi) && b == Segment(g.lo, n))
    ensures 0 <= Size(a) && 0 <= Size(b) && Size(a) + Size(b) < Size(g) && g.lo <= n + 1 && m <= g.hi + 1
  {
  }

  /** One turn of the main loop: pops a segment, sorts it or pushes its parts. */
  method Turn(fmap: array<int>, eclass: array<int>, stackLo: array<int>, stackHi: array<int>, sp0: int, r0: int,
      ghost st0: seq<Segment>, ghost f0: seq<int>, ghost loSt: int, ghost hiSt: int)
    returns (sp: int, r: int, ghost st: seq<Segment>)
    requires fmap != eclass && stackLo != stackHi && stackLo != fmap && stackLo != eclass && stackHi != fmap
        && stackHi != eclass
    requires 0 < sp0 && OnStack(st0, stackLo[..], stackHi[..], sp0)
        && Working(st0, f0, fmap[..], eclass[..], loSt, hiSt)
    modifies fmap, stackLo, stackHi
    ensures OnStack(st, stackLo[..], stackHi[..], sp) && Working(st, f0, fmap[..], eclass[..], loSt, hiSt)
    ensures Load(st) < Load(st0)
  {
    hide Working, Load, Rearranged, Names, Partitioned, SortedSegment;
    ghost var e := eclass[..];
    r := r0;
    sp := sp0 - 1;
    var lo, hi := stackLo[sp], stackHi[sp];
    ghost var g := Segment(lo, hi);
    st := st0[..sp];
    assert st0 == st + [g];
    ghost var s := fmap[..];
    WorkingPop(st, g, f0, s, e, loSt, hiSt);
    if hi - lo < 10 {
      SimpleSort(fmap, eclass, lo, hi);
      WorkingDone(st, g, f0, s, fmap[..], e, loSt, hiSt);
      return;
    }
    r := (r * 7621 + 1) % 32768;
    var med := ChoosePivot(fmap, eclass, lo, hi, r);
    var whole, n, m := Partition(fmap, eclass, 0, e, lo, hi, med);
    if whole {
      WorkingDone(st, g, f0, s, fmap[..], e, loSt, hiSt);
      return;
    }
    WorkingSize(st0, f0, s, e, loSt, hiSt);
    DepthOfLarge(hiSt - loSt + 1, sp);
    if n - lo > hi - m {
      WorkingSplit(st, g, Segment(lo, n), Segment(m, hi), f0, s, fmap[..], e, loSt, hiSt, n, m);
      sp, st := PushTwo(stackLo, stackHi, sp, lo, n, m, hi, st);
    } else {
      WorkingSplit(st, g, Segment(m, hi), Segment(lo, n), f0, s, fmap[..], e, loSt, hiSt, n, m);
      sp, st := PushTwo(stackLo, stackHi, sp, m, hi, lo, n, st);
    }
  }

  lemma WorkingSize(st: seq<Segment>, f0: seq<int>, s: seq<int>, e: seq<int>, loSt: int, hiSt: int)
    requires Working(st, f0, s, e, loSt, hiSt)
    ensures 0 <= hiSt - loSt + 1 <= 900_000
  {
  }

  method PushTwo(stackLo: array<int>, stackHi: array<int>, sp0: int, lo1: int, hi1: int, lo2: int, hi2: int,
      ghost st0: seq<Segment>)
    returns (sp: int, ghost st: seq<Segment>)
    requires stackLo != stackHi && OnStack(st0, stackLo[..], stackHi[..], sp0) && sp0 <= 16
    modifies stackLo, stackHi
    ensures st == st0 + [Segment(lo1, hi1)] + [Segment(lo2, hi2)] && OnStack(st, stackLo[..], stackHi[..], sp)
  {
    stackLo[sp0], stackHi[sp0] := lo1, hi1;
    stackLo[sp0 + 1], stackHi[sp0 + 1] := lo2, hi2;
    sp, st := sp0 + 2, st0 + [Segment(lo1, hi1)] + [Segment(lo2, hi2)];
  }

  /** fallbackQSort3; assertion 1004 on the stack depth holds. */
  method QSort3(fmap: array<int>, eclass: array<int>, loSt: int, hiSt: int)
    requires fmap != eclass && 0 <= loSt <= hiSt < fmap.Length <= 900_000 && Names(fmap[..], eclass[..])
    modifies fmap
    ensures Rearranged(old(fmap[..]), fmap[..], loSt, hiSt) && Names(fmap[..], eclass[..])
    ensures SortedSegment(fmap[..], eclass[..], loSt, hiSt)
  {
    hide Working, Load, Rearranged, Names, SortedSegment;
    ghost var f0, e := fmap[..], eclass[..];
    var stackLo, stackHi := new int[100], new int[100];
    var r, sp := 0, 0;
    stackLo[sp], stackHi[sp] := loSt, hiSt;
    sp := sp + 1;
    ghost var st := [Segment(loSt, hiSt)];
    StackStart(f0, e, loSt, hiSt);
    while sp > 0
      invariant OnStack(st, stackLo[..], stackHi[..], sp)
      invariant Working(st, f0, fmap[..], e, loSt, hiSt)
      decreases Load(st)
    {
      assert sp < 100 - 1;
      LoadBound(st, f0, fmap[..], e, loSt, hiSt);
      sp, r, st := Turn(fmap, eclass, stackLo, stackHi, sp, r, st, f0, loSt, hiSt);
    }
    StackEmpty(st, f0, fmap[..], e, loSt, hiSt);
  }

  lemma LoadBound(st: seq<Segment>, f0: seq<int>, s: seq<int>, e: seq<int>, loSt: int, hiSt: int)
    requires Working(st, f0, s, e, loSt, hiSt)
    ensures 0 <= Load(st)
  {
    LoadPositive(st);
  }

  /** The class of the first, middle or last element, by a pseudo-random choice. */
  method ChoosePivot(fmap: array<int>, eclass: array<int>, lo: int, hi: int, r: int) returns (med: int)
    requires 0 <= lo <= hi < fmap.Length && Names(fmap[..], eclass[..])
    ensures exists k :: lo <= k <= hi && Class(fmap[..], eclass[..], k) == med
  {
    var r3 := r % 3;
    var k := if r3 == 0 then lo else if r3 == 1 then (lo + hi) / 2 else hi;
    med := eclass[fmap[k]];
    assert Class(fmap[..], eclass[..], k) == med;
  }

  lemma StackStart(f0: seq<int>, e: seq<int>, loSt: int, hiSt: int)
    requires 0 <= loSt <= hiSt < |f0| <= 900_000 && Names(f0, e)
    ensures Working([Segment(loSt, hiSt)], f0, f0, e, loSt, hiSt)
  {
    var st := [Segment(loSt, hiSt)];
    forall p, q | loSt <= p < q <= hiSt ensures Ordered(st, f0, e, p, q) {
      assert Inside(st[0], p) && Inside(st[0], q);
    }
  }

  lemma StackEmpty(st: seq<Segment>, f0: seq<int>, s: seq<int>, e: seq<int>, loSt: int, hiSt: int)
    requires st == [] && Working(st, f0, s, e, loSt, hiSt)
    ensures Rearranged(f0, s, loSt, hiSt) && Names(s, e) && 0 <= loSt && hiSt < |s| && SortedSegment(s, e, loSt, hiSt)
  {
    forall p, q | loSt <= p < q <= hiSt ensures Class(s, e, p) <= Class(s, e, q) {
      assert Ordered(st, s, e, p, q);
    }
  }
}

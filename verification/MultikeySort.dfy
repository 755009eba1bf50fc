/** mainQSort3: three-way quicksort on the byte at depth d, with its explicit stack. */
module MultikeySort {
  import opened Bytes
  import opened Permutations
  import opened PrefixOrder
  import opened RotationOrder
  import opened SegmentSort
  import opened ClassSort
  import opened MainCompare
  import opened ShellSort
  import Bits

  const SMALL_THRESH: int := 20
  const DEPTH_THRESH: int := 14

  /** mmed3: the middle one of three values. */
  function Med3(a0: int, b0: int, c0: int): (m: int)
    ensures m == a0 || m == b0 || m == c0
    ensures (a0 <= m && b0 <= m) || (b0 <= m && c0 <= m) || (a0 <= m && c0 <= m)
    ensures (m <= a0 && m <= b0) || (m <= b0 && m <= c0) || (m <= a0 && m <= c0)
  {
    var a, b := if a0 > b0 then b0 else a0, if a0 > b0 then a0 else b0;
    if b > c0 then (if a > c0 then a else c0) else b
  }

  /** The byte d places on, for every rotation. */
  ghost function DeepBytes(b: seq<Byte>, d: int): (e: seq<int>)
    requires 0 <= d <= MAX_DEPTH < |b|
    ensures |e| == |b| && forall x :: 0 <= x < |b| ==> e[x] == b[Fold(x + d, |b|)]
  {
    seq(|b|, x requires 0 <= x < |b| => b[Fold(x + d, |b|)])
  }

  lemma DeepKeyed(b: seq<Byte>, block: seq<int>, d: int)
    requires Wrapped(block, |b|) && block[..|b|] == b && 0 <= d <= MAX_DEPTH
    ensures Keyed(block, d, DeepBytes(b, d))
  {
    forall x | 0 <= x < |b| ensures block[x + d] == DeepBytes(b, d)[x] {
      WrappedAt(block, |b|, x + d);
      assert block[Fold(x + d, |b|)] == block[..|b|][Fold(x + d, |b|)];
    }
  }

  /** Rows sharing d bytes are ordered by the byte at depth d. */
  lemma {:induction false} DeeperByteDecides(b: seq<Byte>, u: seq<int>, x: int, y: int, d: int)
    requires Ranked(b, u) && 0 <= d <= MAX_DEPTH < |b| && 0 <= x < |b| && 0 <= y < |b| && SamePrefix(b, x, y, d)
    ensures |u| == |b| && (DeepBytes(b, d)[x] < DeepBytes(b, d)[y] ==> u[x] <= u[y])
  {
    hide SamePrefix, Ranked;
    RankedSize(b, u);
    DeepLevel(b, u, x, y, d);
    if DeepBytes(b, d)[x] < DeepBytes(b, d)[y] { LevelDiffer(b, u, x, y, d, x + d, y + d); }
  }

  /** Rows sharing d bytes and the next one share d + 1. */
  lemma {:induction false} ShareOneMore(b: seq<Byte>, s: seq<int>, lo: int, hi: int, d: int, lo1: int, hi1: int,
      med: int)
    requires InRange(s, |b|) && 0 <= d <= MAX_DEPTH < |b| && 0 <= lo <= lo1 && hi1 <= hi < |s|
    requires Shares(b, s, lo, hi, d) && AllEqual(s, DeepBytes(b, d), lo1, hi1, med)
    ensures Shares(b, s, lo1, hi1, d + 1)
  {
    hide Prefix;
    forall p, q | lo1 <= p <= hi1 && lo1 <= q <= hi1 ensures SamePrefix(b, s[p], s[q], d + 1) {
      assert SamePrefix(b, s[p], s[q], d);
      PrefixSnoc(b, s[p], d);
      PrefixSnoc(b, s[q], d);
      WalkIsFold(s[p], d, |b|);
      WalkIsFold(s[q], d, |b|);
      assert Class(s, DeepBytes(b, d), p) == Class(s, DeepBytes(b, d), q);
    }
  }

  lemma {:induction false} WalkIsFold(x: int, d: nat, n: int)
    requires 0 <= x < n && d < n
    ensures Walk(x, d, n) == Fold(x + d, n)
  {
    if d > 0 { WalkIsFold(x, d - 1, n); }
  }

  lemma SharesNarrower(b: seq<Byte>, s: seq<int>, lo: int, hi: int, d: nat, lo1: int, hi1: int)
    requires InRange(s, |b|) && Shares(b, s, lo, hi, d) && lo <= lo1 && hi1 <= hi
    ensures Shares(b, s, lo1, hi1, d)
  {
    hide SamePrefix;
  }

  /** Rows outside a rearranged stretch share what they shared. */
  lemma SharesElsewhere(b: seq<Byte>, s: seq<int>, t: seq<int>, lo: int, hi: int, g: Segment, d: nat)
    requires InRange(s, |b|) && InRange(t, |b|) && Rearranged(s, t, lo, hi) && Shares(b, s, g.lo, g.hi, d)
    requires forall p :: Inside(g, p) ==> !(lo <= p <= hi)
    ensures Shares(b, t, g.lo, g.hi, d)
  {
    hide SamePrefix;
    forall p, q | g.lo <= p <= g.hi && g.lo <= q <= g.hi && 0 <= p < |t| && 0 <= q < |t|
        ensures SamePrefix(b, t[p], t[q], d) {
      assert Inside(g, p) && Inside(g, q);
      assert t[p] == s[p] && t[q] == s[q];
    }
  }

  // ---- three parts ----

  /** The parts around the pivot's bytes are in rotation order among themselves. */
  lemma {:induction false} PartsOrdered(b: seq<Byte>, u: seq<int>, t: seq<int>, lo: int, hi: int, d: int, n: int,
      m: int, p: int, q: int)
    requires Ranked(b, u) && InRange(t, |b|) && 0 <= d <= MAX_DEPTH < |b| && Shares(b, t, lo, hi, d)
    requires Partitioned(t, DeepBytes(b, d), lo, hi, n, m) && lo <= p < q <= hi
    requires (p <= n < q) || (p < m <= q)
    ensures |u| == |b| && Names(t, u) && q < |t| && Class(t, u, p) <= Class(t, u, q)
  {
    hide SamePrefix, Ranked;
    RankedSize(b, u);
    var e := DeepBytes(b, d);
    assert SamePrefix(b, t[p], t[q], d);
    DeeperByteDecides(b, u, t[p], t[q], d);
    var med :| AllLess(t, e, lo, n, med) && AllEqual(t, e, n + 1, m - 1, med) && AllGreater(t, e, m, hi, med);
    assert Class(t, e, p) < Class(t, e, q);
  }

  lemma ApartThree(st: seq<Segment>, g: Segment, x: Segment, y: Segment, z: Segment, loSt: int, hiSt: int)
    requires Apart(st + [g], loSt, hiSt)
    requires g.lo <= x.lo <= x.hi + 1 && x.hi <= g.hi && g.lo <= y.lo <= y.hi + 1 && y.hi <= g.hi
        && g.lo <= z.lo <= z.hi + 1 && z.hi <= g.hi
    requires forall p :: Inside(x, p) ==> !Inside(y, p) && !Inside(z, p)
    requires forall p :: Inside(y, p) ==> !Inside(z, p)
    ensures Apart(st + [x] + [y] + [z], loSt, hiSt)
  {
    ApartPop(st, g, loSt, hiSt);
    var w := st + [x] + [y] + [z];
    forall i, j, p | 0 <= i < j < |w| && Inside(w[i], p) ensures !Inside(w[j], p) {
      if i < |st| {
        assert w[i] == st[i];
        if j < |st| { assert w[j] == st[j]; } else { assert Inside(w[j], p) ==> Inside(g, p); }
      }
    }
  }

  /** x, y, z are a, b, c in some order. */
  ghost predicate SomeOrder<T(!new)>(x: T, y: T, z: T, a: T, b: T, c: T) {
    || (x == a && y == b && z == c) || (x == a && y == c && z == b) || (x == b && y == a && z == c)
    || (x == b && y == c && z == a) || (x == c && y == a && z == b) || (x == c && y == b && z == a)
  }

  /** A pair inside one of the three parts is inside a pending segment. */
  lemma InsideThree(st: seq<Segment>, x: Segment, y: Segment, z: Segment, c: Segment, p: int, q: int)
    requires (c == x || c == y || c == z) && Inside(c, p) && Inside(c, q)
    ensures var w := st + [x] + [y] + [z]; exists i :: 0 <= i < |w| && Inside(w[i], p) && Inside(w[i], q)
  {
    var w := st + [x] + [y] + [z];
    assert w[|st|] == x && w[|st| + 1] == y && w[|st| + 2] == z;
  }

  /** Splitting the popped segment in three leaves only its parts pending. */
  lemma {:induction false} SplitThree(b: seq<Byte>, u: seq<int>, st: seq<Segment>, g: Segment, d: int, x: Segment,
      y: Segment, z: Segment, s: seq<int>, t: seq<int>, loSt: int, hiSt: int, n: int, m: int)
    requires Ranked(b, u) && |u| == |b| && Names(s, u) && Names(t, u) && 0 <= loSt && hiSt < |s|
        && Rearranged(s, t, g.lo, g.hi)
    requires Apart(st + [g], loSt, hiSt) && Pending(st + [g], s, u, loSt, hiSt)
    requires 0 <= d <= MAX_DEPTH < |b| && Shares(b, t, g.lo, g.hi, d)
        && Partitioned(t, DeepBytes(b, d), g.lo, g.hi, n, m)
    requires SomeOrder(x, y, z, Segment(g.lo, n), Segment(m, g.hi), Segment(n + 1, m - 1))
    ensures Pending(st + [x] + [y] + [z], t, u, loSt, hiSt)
  {
    hide Ranked, Shares, Apart, Partitioned, Ordered;
    var w := st + [x] + [y] + [z];
    PartitionedBounds(t, DeepBytes(b, d), g.lo, g.hi, n, m);
    forall p, q | loSt <= p < q <= hiSt ensures Ordered(w, t, u, p, q) {
      if Inside(g, p) && Inside(g, q) {
        if (p <= n < q) || (p < m <= q) {
          PartsOrdered(b, u, t, g.lo, g.hi, d, n, m, p, q);
          AlreadyOrdered(w, t, u, p, q);
        } else {
          var c := if q <= n then Segment(g.lo, n) else if m <= p then Segment(m, g.hi) else Segment(n + 1, m - 1);
          InsideThree(st, x, y, z, c, p, q);
          PendingPair(w, t, u, p, q);
        }
      } else {
        OutsideOrdered(st, g, s, t, u, loSt, hiSt, p, q);
        OrderedWider(st, w, t, u, p, q);
      }
    }
  }

  lemma PartitionedBounds(s: seq<int>, e: seq<int>, lo: int, hi: int, n: int, m: int)
    requires Partitioned(s, e, lo, hi, n, m)
    ensures 0 <= lo <= n + 1 < m <= hi + 1 <= |s|
  {
  }

  lemma AlreadyOrdered(w: seq<Segment>, t: seq<int>, u: seq<int>, p: int, q: int)
    requires Names(t, u) && 0 <= p < |t| && 0 <= q < |t| && Class(t, u, p) <= Class(t, u, q)
    ensures Ordered(w, t, u, p, q)
  {
  }

  lemma PendingPair(w: seq<Segment>, t: seq<int>, u: seq<int>, p: int, q: int)
    requires Names(t, u) && 0 <= p < |t| && 0 <= q < |t|
        && exists i :: 0 <= i < |w| && Inside(w[i], p) && Inside(w[i], q)
    ensures Ordered(w, t, u, p, q)
  {
  }

  lemma OrderedWider(st: seq<Segment>, w: seq<Segment>, t: seq<int>, u: seq<int>, p: int, q: int)
    requires Names(t, u) && 0 <= p < |t| && 0 <= q < |t| && Ordered(st, t, u, p, q) && st <= w
    ensures Ordered(w, t, u, p, q)
  {
    if Class(t, u, p) > Class(t, u, q) {
      var i :| 0 <= i < |st| && Inside(st[i], p) && Inside(st[i], q);
      assert w[i] == st[i];
    }
  }

  // ---- the stack ----

  /** How often the sizes are divided on the way up the stack: two entries take a third. */
  function Divisor(i: nat): (w: nat)
    ensures w >= 1
  {
    if i == 0 then 1 else if i == 1 then 2 else 3 * Divisor(i - 2)
  }

  lemma {:induction false} DivisorDoubles(i: nat)
    ensures Divisor(i) <= Divisor(i + 1) <= 2 * Divisor(i)
  {
    if i >= 2 { DivisorDoubles(i - 2); }
  }

  lemma {:induction false} DivisorMonotone(i: nat, j: nat)
    requires i <= j
    ensures Divisor(i) <= Divisor(j)
    decreases j - i
  {
    if i < j { DivisorDoubles(i); DivisorMonotone(i + 1, j); }
  }

  lemma DivisorTwenty()
    ensures Divisor(20) == 59_049
  {
    assert Divisor(4) == 9;
    assert Divisor(8) == 81;
    assert Divisor(12) == 729;
    assert Divisor(16) == 6561;
  }

  /** Only low entries can be large enough to be split. */
  lemma {:induction false} LargeIsLow(size: int, i: nat, total: int)
    requires size * Divisor(i) <= total <= 900_000 && size >= 21
    ensures i < 20
  {
    hide Divisor;
    if i >= 20 {
      DivisorTwenty();
      DivisorMonotone(20, i);
      Bits.Distribute(size, 21, Divisor(i));
      if size > 21 { Bits.Multiple(size - 21, Divisor(i)); }
    }
  }

  lemma SizeFits(size: int, part: int, w: int, v: int, total: int)
    requires size * w <= total && 0 <= part && w >= 1
    requires (part <= size && v <= w) || (2 * part <= size && v <= 2 * w) || (3 * part <= size && v <= 3 * w)
    requires v >= 1
    ensures part * v <= total
  {
    if part <= size && v <= w {
      Product(part, v, size, w);
    } else if 2 * part <= size && v <= 2 * w {
      Product(part, v, part, 2 * w);
      assert part * (2 * w) == (2 * part) * w;
      Product(2 * part, w, size, w);
    } else {
      Product(part, v, part, 3 * w);
      assert part * (3 * w) == (3 * part) * w;
      Product(3 * part, w, size, w);
    }
  }

  lemma Product(a: int, c: int, a1: int, c1: int)
    requires 0 <= a <= a1 && 0 <= c <= c1
    ensures a * c <= a1 * c1
  {
    assert (a1 - a) * c >= 0;
    assert a1 * (c1 - c) >= 0;
    Bits.Distribute(a1, a, c);
    Bits.Distribute(c1, c, a1);
  }

  /** Work left in one segment at one depth. */
  function Cost(g: Segment, d: int): int { 1 + 3 * (Size(g) * (17 - d)) }

  function TotalCost(st: seq<Segment>, ds: seq<int>): int
    requires |st| == |ds|
  {
    if st == [] then 0 else TotalCost(st[..|st| - 1], ds[..|st| - 1]) + Cost(st[|st| - 1], ds[|st| - 1])
  }

  lemma {:induction false} TotalCostSnoc(st: seq<Segment>, ds: seq<int>, g: Segment, d: int)
    requires |st| == |ds|
    ensures TotalCost(st + [g], ds + [d]) == TotalCost(st, ds) + Cost(g, d)
  {
    assert (st + [g])[..|st|] == st && (ds + [d])[..|ds|] == ds;
  }

  /** One level deeper, or split with a non-empty middle one level deeper: less work. */
  lemma {:induction false} CostFalls(g: Segment, d: int, a: Segment, c: Segment, m: Segment)
    requires 0 <= d <= 14 && Size(a) >= 0 && Size(c) >= 0 && Size(m) >= 1 && Size(a) + Size(c) + Size(m) == Size(g)
    ensures Cost(a, d) + Cost(c, d) + Cost(m, d + 1) < Cost(g, d)
    ensures Cost(g, d + 1) < Cost(g, d)
  {
    var k := 17 - d;
    Bits.Distribute(Size(a) + Size(c), Size(m), k);
    Bits.Distribute(Size(a), Size(c), k);
    Bits.Distribute(k, 1, Size(m));
    Bits.Distribute(k, 1, Size(g));
  }

  lemma {:induction false} CostPositive(g: Segment, d: int)
    requires 0 <= d <= 15 && Size(g) >= 0
    ensures Cost(g, d) >= 1
  {
    Product(0, 0, Size(g), 17 - d);
  }

  lemma {:induction false} TotalCostNatural(st: seq<Segment>, ds: seq<int>)
    requires |st| == |ds| && forall i :: 0 <= i < |st| ==> Size(st[i]) >= 0 && 0 <= ds[i] <= 15
    ensures TotalCost(st, ds) >= 0
  {
    if st != [] {
      TotalCostNatural(st[..|st| - 1], ds[..|st| - 1]);
      CostPositive(st[|st| - 1], ds[|st| - 1]);
    }
  }

  /** Everything known between two turns of the main loop. */
  ghost predicate Sorting(st: seq<Segment>, ds: seq<int>, f0: seq<int>, s: seq<int>, b: seq<Byte>, u: seq<int>,
      loSt: int, hiSt: int) {
    && Ranked(b, u) && |u| == |b| && MAX_DEPTH < |b| && |s| == |b| <= 900_000 && InRange(s, |b|)
    && 0 <= loSt <= hiSt < |s| && Rearranged(f0, s, loSt, hiSt)
    && Apart(st, loSt, hiSt) && Pending(st, s, u, loSt, hiSt) && |ds| == |st|
    && (forall i :: 0 <= i < |st| ==> 0 <= ds[i] <= 15 && Shares(b, s, st[i].lo, st[i].hi, ds[i]))
    && (forall i :: 0 <= i < |st| ==> 0 <= Size(st[i]) && Size(st[i]) * Divisor(i) <= hiSt - loSt + 1)
  }

  lemma {:induction false} SortingPop(st: seq<Segment>, ds: seq<int>, g: Segment, d: int, f0: seq<int>, s: seq<int>,
      b: seq<Byte>, u: seq<int>, loSt: int, hiSt: int)
    requires |st| == |ds| && Sorting(st + [g], ds + [d], f0, s, b, u, loSt, hiSt)
    ensures Ranked(b, u) && |u| == |b| && MAX_DEPTH < |b| && |s| == |b| <= 900_000 && InRange(s, |b|)
    ensures 0 <= loSt <= g.lo <= g.hi + 1 && g.hi <= hiSt < |s| && 0 <= d <= 15 && Shares(b, s, g.lo, g.hi, d)
    ensures 0 <= Size(g) && Size(g) * Divisor(|st|) <= hiSt - loSt + 1 <= 900_000
    ensures TotalCost(st, ds) >= 0 && TotalCost(st + [g], ds + [d]) == TotalCost(st, ds) + Cost(g, d) && Cost(g, d) >= 1
  {
    hide Ranked, Pending, Rearranged, Divisor, TotalCost, Cost, Shares, Distinct;
    ApartPop(st, g, loSt, hiSt);
    var w, ws := st + [g], ds + [d];
    assert w[|st|] == g && ws[|st|] == d;
    forall i | 0 <= i < |st| ensures Size(st[i]) >= 0 && 0 <= ds[i] <= 15 { assert w[i] == st[i] && ws[i] == ds[i]; }
    TotalCostNatural(st, ds);
    TotalCostSnoc(st, ds, g, d);
    CostPositive(g, d);
  }

  /** Rearranging the popped segment leaves what is known of the others. */
  lemma {:induction false} OthersKept(st: seq<Segment>, ds: seq<int>, g: Segment, d: nat, f0: seq<int>, s: seq<int>,
      t: seq<int>, b: seq<Byte>, u: seq<int>, loSt: int, hiSt: int)
    requires |st| == |ds| && Sorting(st + [g], ds + [d], f0, s, b, u, loSt, hiSt) && Rearranged(s, t, g.lo, g.hi)
    ensures InRange(t, |b|) && |t| == |s| && Rearranged(f0, t, loSt, hiSt) && Shares(b, t, g.lo, g.hi, d)
    ensures forall i :: 0 <= i < |st| ==> 0 <= ds[i] <= 15 && Shares(b, t, st[i].lo, st[i].hi, ds[i])
    ensures forall i :: 0 <= i < |st| ==> 0 <= Size(st[i]) && Size(st[i]) * Divisor(i) <= hiSt - loSt + 1
  {
    hide Ranked, Pending, Rearranged, Divisor, Shares, Distinct;
    SortingPop(st, ds, g, d, f0, s, b, u, loSt, hiSt);
    ApartPop(st, g, loSt, hiSt);
    RearrangedNames(s, t, u, g.lo, g.hi);
    RearrangedLength(s, t, g.lo, g.hi);
    RearrangedWider(s, t, g.lo, g.hi, loSt, hiSt);
    RearrangedTrans(f0, s, t, loSt, hiSt);
    SharesRearranged(b, s, t, g.lo, g.hi, d);
    var w, ws := st + [g], ds + [d];
    forall i | 0 <= i < |st|
      ensures 0 <= ds[i] <= 15 && Shares(b, t, st[i].lo, st[i].hi, ds[i])
      ensures 0 <= Size(st[i]) && Size(st[i]) * Divisor(i) <= hiSt - loSt + 1
    {
      assert w[i] == st[i] && ws[i] == ds[i];
      SharesElsewhere(b, s, t, g.lo, g.hi, st[i], ds[i]);
    }
  }

  lemma {:induction false} SortingDone(st: seq<Segment>, ds: seq<int>, g: Segment, d: int, f0: seq<int>, s: seq<int>,
      t: seq<int>, b: seq<Byte>, u: seq<int>, loSt: int, hiSt: int)
    requires |st| == |ds| && Sorting(st + [g], ds + [d], f0, s, b, u, loSt, hiSt) && Rearranged(s, t, g.lo, g.hi)
    requires Names(t, u) && 0 <= g.lo && g.hi < |t| && SortedSegment(t, u, g.lo, g.hi)
    ensures Sorting(st, ds, f0, t, b, u, loSt, hiSt) && TotalCost(st, ds) < TotalCost(st + [g], ds + [d])
  {
    hide Ranked, Pending, Rearranged, Divisor, Shares, Distinct, TotalCost, Cost, SortedSegment, Apart;
    SortingPop(st, ds, g, d, f0, s, b, u, loSt, hiSt);
    OthersKept(st, ds, g, d, f0, s, t, b, u, loSt, hiSt);
    SegmentDone(st, g, s, t, u, loSt, hiSt);
  }

  /** A segment of one byte value goes back a level deeper. */
  lemma {:induction false} SortingDeeper(st: seq<Segment>, ds: seq<int>, g: Segment, d: int, f0: seq<int>, s: seq<int>,
      t: seq<int>, b: seq<Byte>, u: seq<int>, loSt: int, hiSt: int, med: int)
    requires |st| == |ds| && Sorting(st + [g], ds + [d], f0, s, b, u, loSt, hiSt) && Rearranged(s, t, g.lo, g.hi)
        && d <= 14
    requires InRange(t, |b|) && MAX_DEPTH < |b| && 0 <= g.lo <= g.hi < |t| && 0 <= d
        && AllEqual(t, DeepBytes(b, d), g.lo, g.hi, med)
    ensures Sorting(st + [g], ds + [d + 1], f0, t, b, u, loSt, hiSt)
    ensures TotalCost(st + [g], ds + [d + 1]) < TotalCost(st + [g], ds + [d])
  {
    hide Ranked, Pending, Rearranged, Divisor, Shares, Distinct, TotalCost, Cost, Apart, AllEqual;
    SortingPop(st, ds, g, d, f0, s, b, u, loSt, hiSt);
    OthersKept(st, ds, g, d, f0, s, t, b, u, loSt, hiSt);
    ShareOneMore(b, t, g.lo, g.hi, d, g.lo, g.hi, med);
    PendingKept(st, g, s, t, u, loSt, hiSt);
    TotalCostSnoc(st, ds, g, d + 1);
    CostFalls(g, d, Segment(0, -1), Segment(0, -1), g);
    var w, ws := st + [g], ds + [d + 1];
    forall i | 0 <= i < |w| ensures 0 <= ws[i] <= 15 && Shares(b, t, w[i].lo, w[i].hi, ws[i]) {
      if i < |st| { assert w[i] == st[i] && ws[i] == ds[i]; } else { assert w[i] == g && ws[i] == d + 1; }
    }
  }

  lemma {:induction false} PendingKept(st: seq<Segment>, g: Segment, s: seq<int>, t: seq<int>, u: seq<int>, loSt: int,
      hiSt: int)
    requires Names(s, u) && Names(t, u) && 0 <= loSt && hiSt < |s| && Rearranged(s, t, g.lo, g.hi)
    requires Apart(st + [g], loSt, hiSt) && Pending(st + [g], s, u, loSt, hiSt)
    ensures hiSt < |t| && Pending(st + [g], t, u, loSt, hiSt)
  {
    hide Ordered, Apart;
    var w := st + [g];
    forall p, q | loSt <= p < q <= hiSt ensures Ordered(w, t, u, p, q) {
      if Inside(g, p) && Inside(g, q) {
        assert w[|st|] == g;
        PendingPair(w, t, u, p, q);
      } else {
        OutsideOrdered(st, g, s, t, u, loSt, hiSt, p, q);
        OrderedWider(st, w, t, u, p, q);
      }
    }
  }

  datatype Part = Part(seg: Segment, d: int)

  /** The three parts and their depths, in some order, the largest first. */
  ghost predicate PartsOf(x: Part, y: Part, z: Part, g: Segment, d: int, n: int, m: int) {
    && SomeOrder(x, y, z, Part(Segment(g.lo, n), d), Part(Segment(m, g.hi), d), Part(Segment(n + 1, m - 1), d + 1))
    && Size(x.seg) >= Size(y.seg) >= Size(z.seg)
  }

  lemma PartsFacts(x: Part, y: Part, z: Part, g: Segment, d: int, n: int, m: int)
    requires PartsOf(x, y, z, g, d, n, m) && 0 <= g.lo <= n + 1 < m <= g.hi + 1
    ensures SomeOrder(x.seg, y.seg, z.seg, Segment(g.lo, n), Segment(m, g.hi), Segment(n + 1, m - 1))
    ensures Size(x.seg) >= Size(y.seg) >= Size(z.seg) >= 0 && 2 * Size(y.seg) <= Size(g) && 3 * Size(z.seg) <= Size(g)
        && Size(x.seg) <= Size(g)
    ensures g.lo <= x.seg.lo <= x.seg.hi + 1 && x.seg.hi <= g.hi && g.lo <= y.seg.lo <= y.seg.hi + 1 && y.seg.hi <= g.hi
    ensures g.lo <= z.seg.lo <= z.seg.hi + 1 && z.seg.hi <= g.hi
    ensures forall p :: Inside(x.seg, p) ==> !Inside(y.seg, p) && !Inside(z.seg, p)
    ensures forall p :: Inside(y.seg, p) ==> !Inside(z.seg, p)
    ensures d <= x.d <= d + 1 && d <= y.d <= d + 1 && d <= z.d <= d + 1
  {
  }

  lemma {:induction false} PartCosts(x: Part, y: Part, z: Part, g: Segment, d: int, n: int, m: int)
    requires PartsOf(x, y, z, g, d, n, m) && 0 <= g.lo <= n + 1 < m <= g.hi + 1 && 0 <= d <= 14
    ensures Cost(x.seg, x.d) + Cost(y.seg, y.d) + Cost(z.seg, z.d) < Cost(g, d)
  {
    hide Cost;
    CostFalls(g, d, Segment(g.lo, n), Segment(m, g.hi), Segment(n + 1, m - 1));
  }

  lemma {:induction false} PartShares(b: seq<Byte>, t: seq<int>, x: Part, y: Part, z: Part, g: Segment, d: int, n: int,
      m: int)
    requires InRange(t, |b|) && 0 <= d <= MAX_DEPTH < |b| && Shares(b, t, g.lo, g.hi, d) && 0 <= g.lo && g.hi < |t|
    requires Partitioned(t, DeepBytes(b, d), g.lo, g.hi, n, m) && PartsOf(x, y, z, g, d, n, m)
    ensures x.d >= 0 && y.d >= 0 && z.d >= 0
    ensures Shares(b, t, x.seg.lo, x.seg.hi, x.d) && Shares(b, t, y.seg.lo, y.seg.hi, y.d)
        && Shares(b, t, z.seg.lo, z.seg.hi, z.d)
  {
    hide Shares;
    var e := DeepBytes(b, d);
    SharesNarrower(b, t, g.lo, g.hi, d, g.lo, n);
    SharesNarrower(b, t, g.lo, g.hi, d, m, g.hi);
    var med :| AllLess(t, e, g.lo, n, med) && AllEqual(t, e, n + 1, m - 1, med) && AllGreater(t, e, m, g.hi, med);
    ShareOneMore(b, t, g.lo, g.hi, d, n + 1, m - 1, med);
  }

  lemma {:induction false} SortingSplit(st: seq<Segment>, ds: seq<int>, g: Segment, d: int, x: Part, y: Part, z: Part,
      f0: seq<int>, s: seq<int>, t: seq<int>, b: seq<Byte>, u: seq<int>, loSt: int, hiSt: int, n: int, m: int)
    requires |st| == |ds| && Sorting(st + [g], ds + [d], f0, s, b, u, loSt, hiSt) && Rearranged(s, t, g.lo, g.hi)
    requires 0 <= d <= 14 && MAX_DEPTH < |b| && Partitioned(t, DeepBytes(b, d), g.lo, g.hi, n, m)
        && PartsOf(x, y, z, g, d, n, m)
    ensures Sorting(st + [x.seg] + [y.seg] + [z.seg], ds + [x.d] + [y.d] + [z.d], f0, t, b, u, loSt, hiSt)
    ensures TotalCost(st + [x.seg] + [y.seg] + [z.seg], ds + [x.d] + [y.d] + [z.d]) < TotalCost(st + [g], ds + [d])
  {
    hide Ranked, Pending, Rearranged, Divisor, Shares, Distinct, TotalCost, Cost, Apart, Partitioned, PartsOf,
        SomeOrder, Inside, DeepBytes, Size;
    SortingPop(st, ds, g, d, f0, s, b, u, loSt, hiSt);
    OthersKept(st, ds, g, d, f0, s, t, b, u, loSt, hiSt);
    PartitionedBounds(t, DeepBytes(b, d), g.lo, g.hi, n, m);
    PartsFacts(x, y, z, g, d, n, m);
    PartShares(b, t, x, y, z, g, d, n, m);
    PartCosts(x, y, z, g, d, n, m);
    ApartThree(st, g, x.seg, y.seg, z.seg, loSt, hiSt);
    SplitThree(b, u, st, g, d, x.seg, y.seg, z.seg, s, t, loSt, hiSt, n, m);
    TotalCostSnoc(st, ds, x.seg, x.d);
    TotalCostSnoc(st + [x.seg], ds + [x.d], y.seg, y.d);
    TotalCostSnoc(st + [x.seg] + [y.seg], ds + [x.d] + [y.d], z.seg, z.d);
    PartSizes3(st, ds, g, x, y, z, t, b, hiSt - loSt + 1);
  }

  lemma {:induction false} PartSizes3(st: seq<Segment>, ds: seq<int>, g: Segment, x: Part, y: Part, z: Part,
      t: seq<int>, b: seq<Byte>, total: int)
    requires |st| == |ds| && InRange(t, |b|) && 0 <= x.d <= 15 && 0 <= y.d <= 15 && 0 <= z.d <= 15
    requires Size(g) * Divisor(|st|) <= total && Size(x.seg) >= Size(y.seg) >= Size(z.seg) >= 0
    requires Size(x.seg) <= Size(g) && 2 * Size(y.seg) <= Size(g) && 3 * Size(z.seg) <= Size(g)
    requires forall i :: 0 <= i < |st| ==> 0 <= ds[i] <= 15 && Shares(b, t, st[i].lo, st[i].hi, ds[i])
    requires forall i :: 0 <= i < |st| ==> 0 <= Size(st[i]) && Size(st[i]) * Divisor(i) <= total
    requires Shares(b, t, x.seg.lo, x.seg.hi, x.d) && Shares(b, t, y.seg.lo, y.seg.hi, y.d)
        && Shares(b, t, z.seg.lo, z.seg.hi, z.d)
    ensures var w, ws := st + [x.seg] + [y.seg] + [z.seg], ds + [x.d] + [y.d] + [z.d];
      && (forall i :: 0 <= i < |w| ==> 0 <= ws[i] <= 15 && Shares(b, t, w[i].lo, w[i].hi, ws[i]))
      && (forall i :: 0 <= i < |w| ==> 0 <= Size(w[i]) && Size(w[i]) * Divisor(i) <= total)
  {
    hide Shares, Divisor;
    var i0 := |st|;
    DivisorDoubles(i0);
    DivisorSteps(i0);
    SizeFits(Size(g), Size(x.seg), Divisor(i0), Divisor(i0), total);
    SizeFits(Size(g), Size(y.seg), Divisor(i0), Divisor(i0 + 1), total);
    SizeFits(Size(g), Size(z.seg), Divisor(i0), Divisor(i0 + 2), total);
    var w, ws := st + [x.seg] + [y.seg] + [z.seg], ds + [x.d] + [y.d] + [z.d];
    assert w[i0] == x.seg && w[i0 + 1] == y.seg && w[i0 + 2] == z.seg;
    assert ws[i0] == x.d && ws[i0 + 1] == y.d && ws[i0 + 2] == z.d;
    forall i | 0 <= i < |w|
      ensures 0 <= ws[i] <= 15 && Shares(b, t, w[i].lo, w[i].hi, ws[i]) && 0 <= Size(w[i])
          && Size(w[i]) * Divisor(i) <= total
    {
      if i < i0 { assert w[i] == st[i] && ws[i] == ds[i]; }
    }
  }

  lemma DivisorSteps(i: nat)
    ensures Divisor(i + 2) == 3 * Divisor(i)
  {
  }

  ghost predicate OnStacks(st: seq<Segment>, ds: seq<int>, stackLo: seq<int>, stackHi: seq<int>, stackD: seq<int>,
      sp: int) {
    && sp == |st| == |ds| <= 23 && |stackLo| == |stackHi| == |stackD| == 100
    && forall i :: 0 <= i < sp ==> stackLo[i] == st[i].lo && stackHi[i] == st[i].hi && stackD[i] == ds[i]
  }

  /** mnextswap, where the second part is the larger one. */
  function LargerFirst(x: Part, y: Part): (r: (Part, Part))
    ensures Size(r.0.seg) >= Size(r.1.seg) && ((r.0 == x && r.1 == y) || (r.0 == y && r.1 == x))
  {
    if x.seg.hi - x.seg.lo < y.seg.hi - y.seg.lo then (y, x) else (x, y)
  }

  /** The three conditional exchanges leave the parts by falling size. */
  method SortParts(lo: int, hi: int, n: int, m: int, d: int) returns (x: Part, y: Part, z: Part)
    ensures PartsOf(x, y, z, Segment(lo, hi), d, n, m)
  {
    hide Size;
    x, y, z := Part(Segment(lo, n), d), Part(Segment(m, hi), d), Part(Segment(n + 1, m - 1), d + 1);
    var r := LargerFirst(x, y);
    x, y := r.0, r.1;
    r := LargerFirst(y, z);
    y, z := r.0, r.1;
    r := LargerFirst(x, y);
    x, y := r.0, r.1;
  }

  /** Any byte of the segment at depth d: the pivot is the median of three of them. */
  method ChooseMedian(ptr: array<int>, block: array<int>, lo: int, hi: int, d: int, ghost b: seq<Byte>)
    returns (med: int)
    requires 0 <= lo <= hi < ptr.Length && InRange(ptr[..], |b|) && 0 <= d <= MAX_DEPTH < |b|
    requires Keyed(block[..], d, DeepBytes(b, d))
    ensures exists k :: lo <= k <= hi && Class(ptr[..], DeepBytes(b, d), k) == med
  {
    hide Keyed, DeepBytes;
    ghost var e := DeepBytes(b, d);
    var mid := (lo + hi) / 2;
    KeyedAt(block[..], d, e, ptr[lo]);
    KeyedAt(block[..], d, e, ptr[hi]);
    KeyedAt(block[..], d, e, ptr[mid]);
    var c0, c1, c2 := block[ptr[lo] + d], block[ptr[hi] + d], block[ptr[mid] + d];
    med := Med3(c0, c1, c2);
    assert c0 == Class(ptr[..], e, lo) && c1 == Class(ptr[..], e, hi) && c2 == Class(ptr[..], e, mid);
  }

  /** One turn of the main loop. */
  method SortTurn(ptr: array<int>, block: array<int>, quadrant: array<int>, nblock: int, stackLo: array<int>,
      stackHi: array<int>, stackD: array<int>, sp0: int, budget0: int, ghost st0: seq<Segment>, ghost ds0: seq<int>,
      ghost f0: seq<int>, ghost b: seq<Byte>, ghost u: seq<int>, ghost loSt: int, ghost hiSt: int)
    returns (sp: int, budget: int, ghost st: seq<Segment>, ghost ds: seq<int>)
    requires ptr != block && ptr != quadrant && nblock == |b| && ptr.Length == nblock
        && Comparing(b, u, block[..], quadrant[..])
    requires stackLo != stackHi && stackLo != stackD && stackHi != stackD
    requires stackLo != ptr && stackLo != block && stackLo != quadrant && stackHi != ptr && stackHi != block
        && stackHi != quadrant
    requires stackD != ptr && stackD != block && stackD != quadrant
    requires 0 < sp0 && OnStacks(st0, ds0, stackLo[..], stackHi[..], stackD[..], sp0)
        && Sorting(st0, ds0, f0, ptr[..], b, u, loSt, hiSt)
    modifies ptr, stackLo, stackHi, stackD
    ensures budget <= budget0 && Rearranged(f0, ptr[..], loSt, hiSt)
    ensures budget >= 0 ==>
      OnStacks(st, ds, stackLo[..], stackHi[..], stackD[..], sp) && Sorting(st, ds, f0, ptr[..], b, u, loSt, hiSt)
    ensures budget >= 0 ==> TotalCost(st, ds) < TotalCost(st0, ds0)
  {
    hide Sorting, Comparing, Rearranged, TotalCost, Cost, Shares, SortedSegment, Keyed, Partitioned, AllEqual, PartsOf,
        DeepBytes, Divisor, Ranked;
    budget := budget0;
    sp := sp0 - 1;
    var lo, hi, d := stackLo[sp], stackHi[sp], stackD[sp];
    ghost var g := Segment(lo, hi);
    st, ds := st0[..sp], ds0[..sp];
    assert st0 == st + [g] && ds0 == ds + [d];
    ghost var s := ptr[..];
    SortingPop(st, ds, g, d, f0, s, b, u, loSt, hiSt);
    SortingRearranged(st0, ds0, f0, s, b, u, loSt, hiSt);
    if hi - lo < SMALL_THRESH || d > DEPTH_THRESH {
      budget := ShellSort.MainSimpleSort(ptr, block, quadrant, nblock, lo, hi, d, budget, b, u);
      RearrangedWider(s, ptr[..], lo, hi, loSt, hiSt);
      RearrangedTrans(f0, s, ptr[..], loSt, hiSt);
      if budget < 0 { return; }
      SortingDone(st, ds, g, d, f0, s, ptr[..], b, u, loSt, hiSt);
      return;
    }
    LargeIsLow(Size(g), sp, hiSt - loSt + 1);
    ComparingKeyed(b, u, block[..], quadrant[..], d);
    var med := ChooseMedian(ptr, block, lo, hi, d, b);
    var whole, n, m := Partition(ptr, block, d, DeepBytes(b, d), lo, hi, med);
    RearrangedWider(s, ptr[..], lo, hi, loSt, hiSt);
    RearrangedTrans(f0, s, ptr[..], loSt, hiSt);
    if whole {
      SortingDeeper(st, ds, g, d, f0, s, ptr[..], b, u, loSt, hiSt, med);
      sp, st, ds := Push(stackLo, stackHi, stackD, sp, lo, hi, d + 1, st, ds);
      return;
    }
    var x, y, z := SortParts(lo, hi, n, m, d);
    SortingSplit(st, ds, g, d, x, y, z, f0, s, ptr[..], b, u, loSt, hiSt, n, m);
    sp, st, ds := Push(stackLo, stackHi, stackD, sp, x.seg.lo, x.seg.hi, x.d, st, ds);
    sp, st, ds := Push(stackLo, stackHi, stackD, sp, y.seg.lo, y.seg.hi, y.d, st, ds);
    sp, st, ds := Push(stackLo, stackHi, stackD, sp, z.seg.lo, z.seg.hi, z.d, st, ds);
  }

  lemma SortingRearranged(st: seq<Segment>, ds: seq<int>, f0: seq<int>, s: seq<int>, b: seq<Byte>, u: seq<int>,
      loSt: int, hiSt: int)
    requires Sorting(st, ds, f0, s, b, u, loSt, hiSt)
    ensures Rearranged(f0, s, loSt, hiSt)
  {
    hide Ranked, Apart, Pending, Rearranged, Shares, Divisor;
  }

  lemma ComparingKeyed(b: seq<Byte>, u: seq<int>, block: seq<int>, quadrant: seq<int>, d: int)
    requires Comparing(b, u, block, quadrant) && 0 <= d <= MAX_DEPTH < |b|
    ensures Keyed(block, d, DeepBytes(b, d))
  {
    hide Ranked, QuadrantOk;
    DeepKeyed(b, block, d);
  }

  /** mpush */
  method Push(stackLo: array<int>, stackHi: array<int>, stackD: array<int>, sp0: int, lo: int, hi: int, d: int,
      ghost st0: seq<Segment>, ghost ds0: seq<int>)
    returns (sp: int, ghost st: seq<Segment>, ghost ds: seq<int>)
    requires stackLo != stackHi && stackLo != stackD && stackHi != stackD
    requires 0 <= sp0 < 23 && OnStacks(st0, ds0, stackLo[..], stackHi[..], stackD[..], sp0)
    modifies stackLo, stackHi, stackD
    ensures sp == sp0 + 1 && st == st0 + [Segment(lo, hi)] && ds == ds0 + [d]
    ensures OnStacks(st, ds, stackLo[..], stackHi[..], stackD[..], sp)
  {
    stackLo[sp0], stackHi[sp0], stackD[sp0] := lo, hi, d;
    sp, st, ds := sp0 + 1, st0 + [Segment(lo, hi)], ds0 + [d];
  }

  /** mainQSort3: within the budget, rows lo..hi that share d bytes end in rotation order;
      assertion 1001 on the stack depth holds. */
  method QSort3(ptr: array<int>, block: array<int>, quadrant: array<int>, nblock: int, loSt: int, hiSt: int, dSt: int,
      budget0: int, ghost b: seq<Byte>, ghost u: seq<int>)
    returns (budget: int)
    requires ptr != block && ptr != quadrant && nblock == |b| <= 900_000 && ptr.Length == nblock
        && Comparing(b, u, block[..], quadrant[..])
    requires InRange(ptr[..], nblock) && 0 <= loSt <= hiSt < nblock && 0 <= dSt <= 15
        && Shares(b, ptr[..], loSt, hiSt, dSt)
    modifies ptr
    ensures budget <= budget0 && Rearranged(old(ptr[..]), ptr[..], loSt, hiSt)
    ensures budget >= 0 ==> Names(ptr[..], u) && SortedSegment(ptr[..], u, loSt, hiSt)
  {
    hide Sorting, Comparing, Rearranged, TotalCost, Shares, SortedSegment, Ranked;
    ghost var f0 := ptr[..];
    var stackLo, stackHi, stackD := new int[100], new int[100], new int[100];
    var sp := 0;
    ghost var st: seq<Segment>, ds: seq<int> := [], [];
    sp, st, ds := Push(stackLo, stackHi, stackD, sp, loSt, hiSt, dSt, st, ds);
    assert [] + [Segment(loSt, hiSt)] == [Segment(loSt, hiSt)] && [] + [dSt] == [dSt];
    ComparingSizes(b, u, block[..], quadrant[..]);
    SortingStart(f0, b, u, loSt, hiSt, dSt);
    budget := budget0;
    while sp > 0
      invariant OnStacks(st, ds, stackLo[..], stackHi[..], stackD[..], sp) && budget <= budget0
      invariant Sorting(st, ds, f0, ptr[..], b, u, loSt, hiSt)
      decreases TotalCost(st, ds)
    {
      assert sp < 100 - 2;
      SortingCost(st, ds, f0, ptr[..], b, u, loSt, hiSt);
      sp, budget, st, ds := SortTurn(ptr, block, quadrant, nblock, stackLo, stackHi, stackD, sp, budget, st, ds, f0, b,
          u, loSt, hiSt);
      if budget < 0 { return; }
    }
    SortingEnd(st, ds, f0, ptr[..], b, u, loSt, hiSt);
  }

  lemma {:induction false} SortingCost(st: seq<Segment>, ds: seq<int>, f0: seq<int>, s: seq<int>, b: seq<Byte>,
      u: seq<int>, loSt: int, hiSt: int)
    requires Sorting(st, ds, f0, s, b, u, loSt, hiSt)
    ensures |st| == |ds| && TotalCost(st, ds) >= 0
  {
    hide Ranked, Apart, Pending, Rearranged, Shares, Divisor, TotalCost;
    TotalCostNatural(st, ds);
  }

  lemma {:induction false} SortingStart(f0: seq<int>, b: seq<Byte>, u: seq<int>, loSt: int, hiSt: int, d: int)
    requires Ranked(b, u) && |u| == |b| && MAX_DEPTH < |b| && |f0| == |b| <= 900_000 && InRange(f0, |b|)
    requires 0 <= loSt <= hiSt < |f0| && 0 <= d <= 15 && Shares(b, f0, loSt, hiSt, d)
    ensures Sorting([Segment(loSt, hiSt)], [d], f0, f0, b, u, loSt, hiSt)
  {
    hide Ranked, Shares, Rearranged;
    SameRearranged(f0, loSt, hiSt);
    var st := [Segment(loSt, hiSt)];
    forall p, q | loSt <= p < q <= hiSt ensures Ordered(st, f0, u, p, q) {
      assert Inside(st[0], p) && Inside(st[0], q);
    }
    assert Divisor(0) == 1;
  }

  lemma {:induction false} SortingEnd(st: seq<Segment>, ds: seq<int>, f0: seq<int>, s: seq<int>, b: seq<Byte>,
      u: seq<int>, loSt: int, hiSt: int)
    requires st == [] && Sorting(st, ds, f0, s, b, u, loSt, hiSt)
    ensures Rearranged(f0, s, loSt, hiSt) && Names(s, u) && 0 <= loSt && hiSt < |s| && SortedSegment(s, u, loSt, hiSt)
  {
    hide Ranked, Rearranged;
    forall p, q | loSt <= p < q <= hiSt ensures Class(s, u, p) <= Class(s, u, q) {
      assert Ordered(st, s, u, p, q);
    }
  }
}

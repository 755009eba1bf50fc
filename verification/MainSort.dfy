/** mainSort: radix sort by two bytes, quicksort of the small buckets that have to be sorted,
    induced order for the others, and cached ranks for later comparisons. */
module MainSort {
  import opened Bytes
  import opened Permutations
  import opened Lexicographic
  import opened Rotations
  import opened PrefixOrder
  import opened RotationOrder
  import opened SegmentSort
  import ClassSort
  import opened FallbackRounds
  import opened MainCompare
  import opened ShellSort
  import opened MultikeySort
  import opened InducedOrder
  import opened SmallBuckets
  import opened InducedResult
  import opened TwoByteRadix
  import opened RunningOrder

  lemma {:induction false} RankedIsCoherent(b: seq<Byte>, u: seq<int>)
    requires Ranked(b, u) && |u| == |b| && forall x :: 0 <= x < |u| ==> 0 <= u[x] <= |b|
    ensures Coherent(b, u) && IsBytes(b)
  {
    hide Ranked;
    forall x, y | 0 <= x < |b| && 0 <= y < |b| && b[x] < b[y] ensures u[x] < u[y] { FirstByteDecides(b, u, x, y); }
    forall x, y | 0 <= x < |b| && 0 <= y < |b| && b[x] == b[y]
      ensures u[x] <= u[y] <==> u[Next(x, |b|)] <= u[Next(y, |b|)]
    {
      NextDecides(b, u, x, y);
    }
  }

  // ---- sorted stretches ----

  /** A smaller bucket number means an earlier rotation. */
  lemma KeyDecides(b: seq<int>, u: seq<int>, x: int, y: int)
    requires Coherent(b, u) && IsBytes(b) && 0 <= x < |b| && 0 <= y < |b| && Key(b, x) < Key(b, y)
    ensures |u| == |b| && u[x] < u[y]
  {
    hide Coherent;
    CoherentSize(b, u);
    KeyBytes(b, x, b[y], b[Next(y, |b|)]);
    ByByte(b, u, x, y);
    if b[x] == b[y] {
      ByByte(b, u, Next(x, |b|), Next(y, |b|));
      ByNext(b, u, x, y);
    }
  }

  ghost predicate BucketSorted(p: seq<int>, u: seq<int>, start: seq<int>, sb: int)
    requires |start| == 65537 && 0 <= sb < 65536
  {
    RowsSorted(p, u, start[sb], start[sb + 1])
  }

  /** Consecutive sorted buckets form a sorted stretch. */
  lemma {:induction false} BucketsJoin(b: seq<int>, u: seq<int>, start: seq<int>, p: seq<int>, i: int, j: int)
    requires Coherent(b, u) && Grouped(b, start, p) && 0 <= i <= j <= 65536 && |start| == 65537
    requires forall sb :: i <= sb < j ==> BucketSorted(p, u, start, sb)
    ensures RowsSorted(p, u, start[i], start[j])
  {
    hide Coherent, Grouped, Distinct, Key, BucketSorted;
    CoherentSize(b, u);
    GroupedParts(b, start, p);
    forall k, m | 0 <= start[i] <= k < m < start[j] <= |p| ensures u[p[k]] <= u[p[m]] {
      JoinPair(b, u, start, p, i, j, k, m);
    }
  }

  lemma {:induction false} JoinPair(b: seq<int>, u: seq<int>, start: seq<int>, p: seq<int>, i: int, j: int, k: int,
      m: int)
    requires Coherent(b, u) && Grouped(b, start, p) && 0 <= i < j <= 65536 && |start| == 65537
    requires forall sb :: i <= sb < j ==> BucketSorted(p, u, start, sb)
    requires 0 <= start[i] <= k < m < start[j] <= |p|
    ensures |u| == |b| && 0 <= p[k] < |b| && 0 <= p[m] < |b| && u[p[k]] <= u[p[m]]
  {
    hide Coherent, Distinct, Key;
    CoherentSize(b, u);
    KeyAt(b, start, p, k, i, j);
    KeyAt(b, start, p, m, i, j);
    var x, y := Key(b, p[k]), Key(b, p[m]);
    assert InSmall(b, start, p[k], k) && InSmall(b, start, p[m], m);
    StartsMonotone(start, |b|, if y < x then y + 1 else x, x);
    if x < y {
      KeyDecides(b, u, p[k], p[m]);
    } else {
      assert x == y;
      assert BucketSorted(p, u, start, x);
    }
  }

  /** Rows of a small bucket share two bytes. */
  lemma {:induction false} BucketShares(b: seq<Byte>, start: seq<int>, p: seq<int>, sb: int)
    requires Grouped(b, start, p) && 0 <= sb < 65536 && |start| == 65537
    ensures InRange(p, |b|) && Shares(b, p, start[sb], start[sb + 1] - 1, 2)
  {
    hide Grouped, Prefix, Key;
    GroupedParts(b, start, p);
    forall k, m | start[sb] <= k <= start[sb + 1] - 1 && start[sb] <= m <= start[sb + 1] - 1 && 0 <= k < |p|
        && 0 <= m < |p|
      ensures SamePrefix(b, p[k], p[m], 2)
    {
      KeyAt(b, start, p, k, sb, sb + 1);
      KeyAt(b, start, p, m, sb, sb + 1);
      KeyBytes(b, p[k], b[p[m]], b[Next(p[m], |b|)]);
      KeyBytes(b, p[m], b[p[m]], b[Next(p[m], |b|)]);
      TwoBytes(b, p[k]);
      TwoBytes(b, p[m]);
    }
  }

  lemma TwoBytes(b: seq<Byte>, x: int)
    requires 0 <= x < |b|
    ensures Prefix(b, x, 2) == [b[x], b[Next(x, |b|)]]
  {
    assert Prefix(b, Next(Next(x, |b|), |b|), 0) == [];
    assert Prefix(b, Next(x, |b|), 1) == [b[Next(x, |b|)]];
  }

  /** Rearranging rows within one small bucket keeps the grouping. */
  lemma {:induction false} GroupedRearranged(b: seq<int>, start: seq<int>, p: seq<int>, t: seq<int>, sb: int)
    requires Grouped(b, start, p) && 0 <= sb < 65536 && |start| == 65537
        && Rearranged(p, t, start[sb], start[sb + 1] - 1)
    ensures Grouped(b, start, t)
  {
    hide Key, Distinct;
    RearrangedIsPermutation(p, t, start[sb], start[sb + 1] - 1);
    forall k | 0 <= k < |t| ensures InSmall(b, start, t[k], k) {
      if start[sb] <= k < start[sb + 1] {
        var k0 := RearrangedSource(p, t, start[sb], start[sb + 1] - 1, k);
        KeyAt(b, start, p, k0, sb, sb + 1);
      } else {
        assert InSmall(b, start, p[k], k);
      }
    }
  }

  /** Buckets whose rows did not move stay sorted. */
  lemma SortedStays(p: seq<int>, t: seq<int>, u: seq<int>, i: int, j: int)
    requires RowsSorted(p, u, i, j) && InRange(t, |u|) && |t| == |p| && forall k :: i <= k < j && 0 <= k < |p| ==>
      t[k] == p[k]
    ensures RowsSorted(t, u, i, j)
  {
  }

  // ---- the state of the main loop ----

  /** sorted stands for the SETMASK bits of ftab. */
  ghost predicate State(b: seq<Byte>, u: seq<int>, start: seq<int>, p: seq<int>, sorted: seq<bool>) {
    && Coherent(b, u) && Ranked(b, u) && |start| == 65537 && |sorted| == 65536 && Grouped(b, start, p)
    && forall sb :: 0 <= sb < 65536 && sorted[sb] ==> BucketSorted(p, u, start, sb)
  }

  lemma StateParts(b: seq<Byte>, u: seq<int>, start: seq<int>, p: seq<int>, sorted: seq<bool>)
    requires State(b, u, start, p, sorted)
    ensures Coherent(b, u) && Ranked(b, u) && |u| == |b| && |start| == 65537 && |sorted| == 65536
        && Grouped(b, start, p) && |p| == |b|
    ensures InRange(p, |b|) && forall sb :: 0 <= sb < 65536 && sorted[sb] ==> BucketSorted(p, u, start, sb)
  {
    hide Ranked;
    CoherentSize(b, u);
  }

  /** Sorting one small bucket. */
  lemma {:induction false} StateSortOne(b: seq<Byte>, u: seq<int>, start: seq<int>, p: seq<int>, sorted: seq<bool>,
      t: seq<int>, sb: int)
    requires State(b, u, start, p, sorted) && 0 <= sb < 65536
    requires Rearranged(p, t, start[sb], start[sb + 1] - 1) && BucketSorted(t, u, start, sb)
    ensures State(b, u, start, t, sorted[sb := true])
  {
    hide Coherent, Ranked, Grouped, Rearranged;
    StateParts(b, u, start, p, sorted);
    GroupedRearranged(b, start, p, t, sb);
    ClassSort.RearrangedLength(p, t, start[sb], start[sb + 1] - 1);
    GroupedParts(b, start, t);
    forall v | 0 <= v < 65536 && sorted[sb := true][v] ensures BucketSorted(t, u, start, v) {
      if v != sb {
        BucketsDisjoint(b, start, p, sb, v);
        RearrangedElsewhere(p, t, start[sb], start[sb + 1] - 1, start[v], start[v + 1]);
        SortedStays(p, t, u, start[v], start[v + 1]);
      }
    }
  }

  lemma RearrangedElsewhere(p: seq<int>, t: seq<int>, lo: int, hi: int, i: int, j: int)
    requires Rearranged(p, t, lo, hi) && (j <= lo || hi < i)
    ensures |p| == |t| && forall k :: i <= k < j && 0 <= k < |p| ==> t[k] == p[k]
  {
  }

  lemma BucketsDisjoint(b: seq<int>, start: seq<int>, p: seq<int>, sb: int, v: int)
    requires Grouped(b, start, p) && 0 <= sb < 65536 && 0 <= v < 65536 && sb != v
    ensures |start| == 65537 && (start[v + 1] <= start[sb] || start[sb + 1] <= start[v])
  {
    hide InSmall, Distinct;
  }

  lemma StateMarkOne(b: seq<Byte>, u: seq<int>, start: seq<int>, p: seq<int>, sorted: seq<bool>, sb: int)
    requires State(b, u, start, p, sorted) && 0 <= sb < 65536 && BucketSorted(p, u, start, sb)
    ensures State(b, u, start, p, sorted[sb := true])
  {
    hide Coherent, Ranked, Grouped, BucketSorted;
  }

  /** Every small bucket of a finished big bucket is sorted. */
  ghost predicate DoneSorted(done: seq<bool>, sorted: seq<bool>) {
    |done| == 256 && |sorted| == 65536 && forall v :: 0 <= v < 65536 && done[v / 256] ==> sorted[v]
  }

  /** What step 2 does to the state: all buckets [t, ss] are sorted now. */
  lemma {:induction false} StateInduced(b: seq<Byte>, u: seq<int>, start: seq<int>, p: seq<int>, sorted: seq<bool>,
      t: seq<int>, done: seq<bool>, ss: int, sorted1: seq<bool>)
    requires State(b, u, start, p, sorted) && |done| == 256 && 0 <= ss < 256 && Grouped(b, start, t) && |start| == 65537
    requires forall c :: 0 <= c < 256 && !done[c] ==> RowsSorted(t, u, start[256 * c + ss], start[256 * c + ss + 1])
    requires DoneSorted(done, sorted)
    requires forall q :: 0 <= q < |b| && Aside(start, done, ss, q) ==> q < |t| && q < |p| && t[q] == p[q]
    requires |sorted1| == 65536 && forall sb :: 0 <= sb < 65536 ==> sorted1[sb] == (sorted[sb] || sb % 256 == ss)
    ensures State(b, u, start, t, sorted1)
  {
    hide Coherent, Ranked, Grouped, Aside;
    StateParts(b, u, start, p, sorted);
    GroupedParts(b, start, t);
    forall v | 0 <= v < 65536 && sorted1[v] ensures BucketSorted(t, u, start, v) {
      var c := v / 256;
      assert v == 256 * c + v % 256;
      if v % 256 == ss && !done[c] {
        assert RowsSorted(t, u, start[256 * c + ss], start[256 * c + ss + 1]);
      } else {
        assert done[v / 256] ==> sorted[v];
        forall k | start[v] <= k < start[v + 1] && 0 <= k < |p|
            ensures t[k] == p[k] { BucketAside(b, start, p, done, ss, v, k); }
        SortedStays(p, t, u, start[v], start[v + 1]);
      }
    }
  }

  lemma {:induction false} BucketAside(b: seq<int>, start: seq<int>, p: seq<int>, done: seq<bool>, ss: int, v: int,
      k: int)
    requires Grouped(b, start, p) && |start| == 65537 && |done| == 256 && 0 <= ss < 256 && 0 <= v < 65536
    requires !(v % 256 == ss && !done[v / 256]) && start[v] <= k < start[v + 1]
    ensures Aside(start, done, ss, k)
  {
    hide Grouped;
    forall t | 0 <= t < 256 && !done[t] ensures !(start[256 * t + ss] <= k < start[256 * t + ss + 1]) {
      var sb := 256 * t + ss;
      assert sb / 256 == t && sb % 256 == ss;
      BucketsDisjoint(b, start, p, sb, v);
    }
  }

  // ---- step 1 ----

  lemma RowsOfSegment(p: seq<int>, u: seq<int>, lo: int, hi: int)
    requires Names(p, u) && 0 <= lo && hi < |p| && SortedSegment(p, u, lo, hi)
    ensures RowsSorted(p, u, lo, hi + 1)
  {
    forall k, m | lo <= k < m < hi + 1 ensures u[p[k]] <= u[p[m]] { assert Class(p, u, k) <= Class(p, u, m); }
  }

  lemma ShortBucket(p: seq<int>, u: seq<int>, i: int, j: int)
    requires InRange(p, |u|) && j <= i + 1
    ensures RowsSorted(p, u, i, j)
  {
  }

  /** Sorts one small bucket by quicksort, if it has more than one row. */
  method SortSmall(ptr: array<int>, block: array<int>, quadrant: array<int>, ftab: array<int>, sorted: array<bool>,
      nblock: int, sb: int, budget0: int, ghost b: seq<Byte>, ghost u: seq<int>)
    returns (budget: int)
    requires ptr != block && ptr != quadrant && ptr != ftab && block != ftab && quadrant != ftab
    requires nblock == |b| <= 900_000 && ptr.Length == nblock && ftab.Length == 65537 && sorted.Length == 65536
        && 0 <= sb < 65536
    requires Comparing(b, u, block[..], quadrant[..]) && State(b, u, ftab[..], ptr[..], sorted[..])
    modifies ptr, sorted
    ensures budget <= budget0
    ensures budget >= 0 ==> State(b, u, ftab[..], ptr[..], sorted[..]) && sorted[..] == old(sorted[..])[sb := true]
  {
    hide State, Comparing, Shares, SortedSegment, Rearranged, BucketSorted, RowsSorted, Grouped, Coherent, Ranked;
    budget := budget0;
    ghost var start, p, flags := ftab[..], ptr[..], sorted[..];
    StateParts(b, u, start, p, flags);
    if !sorted[sb] {
      var lo, hi := ftab[sb], ftab[sb + 1] - 1;
      if hi > lo {
        GroupedStarts(b, start, p, sb);
        BucketShares(b, start, p, sb);
        budget := QSort3(ptr, block, quadrant, nblock, lo, hi, 2, budget, b, u);
        if budget < 0 { return; }
        SegmentIsBucket(ptr[..], u, start, sb);
        StateSortOne(b, u, start, p, flags, ptr[..], sb);
      } else {
        ShortIsBucket(p, u, start, sb);
        StateMarkOne(b, u, start, p, flags, sb);
      }
    } else {
      assert flags[sb := true] == flags;
    }
    sorted[sb] := true;
    assert sorted[..] == flags[sb := true];
  }

  lemma SegmentIsBucket(p: seq<int>, u: seq<int>, start: seq<int>, sb: int)
    requires |start| == 65537 && 0 <= sb < 65536 && Names(p, u) && 0 <= start[sb] && start[sb + 1] <= |p|
    requires SortedSegment(p, u, start[sb], start[sb + 1] - 1)
    ensures BucketSorted(p, u, start, sb)
  {
    RowsOfSegment(p, u, start[sb], start[sb + 1] - 1);
  }

  lemma ShortIsBucket(p: seq<int>, u: seq<int>, start: seq<int>, sb: int)
    requires |start| == 65537 && 0 <= sb < 65536 && InRange(p, |u|) && start[sb + 1] <= start[sb] + 1
    ensures BucketSorted(p, u, start, sb)
  {
    ShortBucket(p, u, start[sb], start[sb + 1]);
  }

  /** Step 1: the small buckets [ss, j], j != ss, that are not sorted yet. */
  method SortBigBucket(ptr: array<int>, block: array<int>, quadrant: array<int>, ftab: array<int>, sorted: array<bool>,
      nblock: int, ss: int, budget0: int, ghost b: seq<Byte>, ghost u: seq<int>)
    returns (budget: int)
    requires ptr != block && ptr != quadrant && ptr != ftab && block != ftab && quadrant != ftab
    requires nblock == |b| <= 900_000 && ptr.Length == nblock && ftab.Length == 65537 && sorted.Length == 65536
        && 0 <= ss < 256
    requires Comparing(b, u, block[..], quadrant[..]) && State(b, u, ftab[..], ptr[..], sorted[..])
    modifies ptr, sorted
    ensures budget <= budget0
    ensures budget >= 0 ==> State(b, u, ftab[..], ptr[..], sorted[..])
    ensures budget >= 0 ==>
      forall v :: 0 <= v < 65536 && (old(sorted[v]) || (v / 256 == ss && v % 256 != ss)) ==> sorted[v]
  {
    hide State, Comparing;
    budget := budget0;
    for j := 0 to 256
      invariant budget <= budget0 && State(b, u, ftab[..], ptr[..], sorted[..])
      invariant forall v :: 0 <= v < 65536 && (old(sorted[v]) || (v / 256 == ss && v % 256 != ss && v % 256 < j)) ==>
        sorted[v]
    {
      if j != ss {
        ghost var before := sorted[..];
        budget := SortSmall(ptr, block, quadrant, ftab, sorted, nblock, 256 * ss + j, budget, b, u);
        if budget < 0 { return; }
        Flagged(before, sorted[..], ss, j);
      }
    }
  }

  lemma Flagged(before: seq<bool>, after: seq<bool>, ss: int, j: int)
    requires |before| == 65536 && 0 <= ss < 256 && 0 <= j < 256 && after == before[256 * ss + j := true]
    ensures forall v :: 0 <= v < 65536 && (before[v] || (v / 256 == ss && v % 256 == j)) ==> after[v]
  {
  }

  // ---- step 3 ----

  /** x >> s */
  function Shr(x: nat, s: nat): (r: nat) { if s == 0 then x else Shr(x, s - 1) / 2 }

  lemma {:induction false} ShrMonotone(x: nat, y: nat, s: nat)
    requires x <= y
    ensures Shr(x, s) <= Shr(y, s)
  {
    if s > 0 { ShrMonotone(x, y, s - 1); }
  }

  /** The cached ranks of class ss after its rows from position k of the bucket on. */
  ghost predicate Updated(b: seq<Byte>, p: seq<int>, q0: seq<int>, q: seq<int>, from: int, size: int, k: int,
      shifts: nat) {
    && |q| == |q0| && Wrapped(q, |b|) && InRange(p, |b|) && 0 <= from && 0 <= size && from + size <= |p|
    && (forall m :: 0 <= k <= m < size ==> q[p[from + m]] == Shr(m, shifts))
    && (forall x :: 0 <= x < |b| && (forall m :: from <= m < from + size ==> p[m] != x) ==> q[x] == q0[x])
  }

  lemma {:induction false} UpdateStep(b: seq<Byte>, p: seq<int>, q0: seq<int>, q: seq<int>, from: int, size: int,
      k: int, shifts: nat, q1: seq<int>)
    requires Updated(b, p, q0, q, from, size, k + 1, shifts) && 0 <= k < size && Distinct(p)
    requires var x, v := p[from + k], Shr(k, shifts);
      0 <= x < |b| && |b| + N_OVERSHOOT <= |q| && q1 == if x < N_OVERSHOOT then q[x := v][x + |b| := v] else q[x := v]
    ensures Updated(b, p, q0, q1, from, size, k, shifts)
  {
    hide Shr;
    var x := p[from + k];
    forall m | k <= m < size ensures q1[p[from + m]] == Shr(m, shifts) {
      if m > k { assert p[from + k] != p[from + m]; }
    }
  }

  /** Ranks cached from positions in a sorted big bucket agree with the order. */
  lemma {:induction false} UpdatedOk(b: seq<Byte>, u: seq<int>, start: seq<int>, p: seq<int>, q0: seq<int>, q: seq<int>,
      ss: int, shifts: nat)
    requires |start| == 65537 && 0 <= ss < 256 && Grouped(b, start, p) && QuadrantOk(b, u, q0) && |b| <= |q|
    requires Updated(b, p, q0, q, start[256 * ss], start[256 * ss + 256] - start[256 * ss], 0, shifts)
    requires RowsSorted(p, u, start[256 * ss], start[256 * ss + 256])
    ensures QuadrantOk(b, u, q)
  {
    hide Grouped, Shr, Distinct;
    var from, to := start[256 * ss], start[256 * ss + 256];
    GroupedParts(b, start, p);
    forall x, y | 0 <= x < |b| && 0 <= y < |b| && b[x] == b[y] && q[x] < q[y] ensures u[x] <= u[y] {
      if b[x] == ss {
        KeyBytes(b, x, ss, 0);
        KeyBytes(b, x, ss + 1, 0);
        KeyBytes(b, y, ss, 0);
        KeyBytes(b, y, ss + 1, 0);
        var i := PlaceOfKey(b, start, p, x, 256 * ss, 256 * ss + 256);
        var j := PlaceOfKey(b, start, p, y, 256 * ss, 256 * ss + 256);
        assert q[p[from + (i - from)]] == Shr(i - from, shifts) && q[p[from + (j - from)]] == Shr(j - from, shifts);
        if j <= i { ShrMonotone(j - from, i - from, shifts); }
      } else {
        OtherClass(b, start, p, ss, x);
        OtherClass(b, start, p, ss, y);
      }
    }
  }

  lemma {:induction false} OtherClass(b: seq<Byte>, start: seq<int>, p: seq<int>, ss: int, x: int)
    requires |start| == 65537 && 0 <= ss < 256 && Grouped(b, start, p) && 0 <= x < |b| && b[x] != ss
    ensures forall m :: start[256 * ss] <= m < start[256 * ss + 256] ==> 0 <= m < |p| && p[m] != x
  {
    hide Grouped;
    GroupedParts(b, start, p);
    BigBounds(b, start, p, ss);
    forall m | start[256 * ss] <= m < start[256 * ss + 256] ensures 0 <= m < |p| && p[m] != x {
      KeyAt(b, start, p, m, 256 * ss, 256 * ss + 256);
      KeyBytes(b, p[m], ss, 0);
      KeyBytes(b, p[m], ss + 1, 0);
    }
  }

  method UpdateQuadrants(ptr: array<int>, block: array<int>, quadrant: array<int>, ftab: array<int>, nblock: int,
      ss: int, ghost b: seq<Byte>, ghost u: seq<int>)
    requires quadrant != ptr && quadrant != ftab && quadrant != block && nblock == |b| <= 900_000
        && ptr.Length == nblock && ftab.Length == 65537 && 0 <= ss < 256
    requires Comparing(b, u, block[..], quadrant[..]) && Grouped(b, ftab[..], ptr[..])
    requires RowsSorted(ptr[..], u, ftab[256 * ss], ftab[256 * ss + 256])
    modifies quadrant
    ensures Comparing(b, u, block[..], quadrant[..])
  {
    hide Grouped, Updated, Wrapped, QuadrantOk, Ranked, Distinct, Comparing, RowsSorted, Shr;
    ghost var start, p, q0 := ftab[..], ptr[..], quadrant[..];
    ComparingSizes(b, u, block[..], q0);
    GroupedParts(b, start, p);
    BigBounds(b, start, p, ss);
    var bbStart := ftab[256 * ss];
    var bbSize := ftab[256 * ss + 256] - bbStart;
    var shifts := 0;
    ShrZero(bbSize);
    while Shr(bbSize, shifts) > 65534
      modifies {}
      invariant 0 <= shifts
      decreases Shr(bbSize, shifts)
    {
      ShrNext(bbSize, shifts);
      shifts := shifts + 1;
    }
    UpdateStart(b, u, block[..], q0, p, bbStart, bbSize, shifts);
    assert quadrant[..] == q0;
    var j := bbSize - 1;
    while j >= 0
      invariant -1 <= j < bbSize && Updated(b, p, q0, quadrant[..], bbStart, bbSize, j + 1, shifts)
          && quadrant.Length == |q0|
    {
      var a2update := ptr[bbStart + j];
      ghost var q := quadrant[..];
      assert 0 <= p[bbStart + j] < |b|;
      var qVal := Shr(j, shifts);
      ShrMonotone(j, bbSize, shifts);
      assert qVal <= 65535;
      quadrant[a2update] := qVal;
      if a2update < N_OVERSHOOT { quadrant[a2update + nblock] := qVal; }
      assert quadrant[..] == if a2update < N_OVERSHOOT then q[a2update := qVal][a2update + |b| := qVal]
          else q[a2update := qVal];
      UpdateStep(b, p, q0, q, bbStart, bbSize, j, shifts, quadrant[..]);
      j := j - 1;
    }
    UpdatedOk(b, u, start, p, q0, quadrant[..], ss, shifts);
    UpdateDone(b, u, block[..], q0, quadrant[..], p, bbStart, bbSize, shifts);
  }

  lemma BigBounds(b: seq<int>, start: seq<int>, p: seq<int>, ss: int)
    requires Grouped(b, start, p) && 0 <= ss < 256 && |start| == 65537
    ensures 0 <= start[256 * ss] <= start[256 * ss + 256] <= |p| == |b|
  {
    hide InSmall, Distinct;
    StartsMonotone(start, |b|, 256 * ss, 256 * ss + 256);
  }

  lemma ShrZero(x: nat)
    ensures Shr(x, 0) == x
  {
  }

  lemma ShrNext(x: nat, s: nat)
    ensures Shr(x, s + 1) == Shr(x, s) / 2
  {
  }

  lemma UpdateStart(b: seq<Byte>, u: seq<int>, block: seq<int>, q: seq<int>, p: seq<int>, from: int, size: int,
      shifts: nat)
    requires Comparing(b, u, block, q) && InRange(p, |b|) && 0 <= from && 0 <= size && from + size <= |p|
    ensures Updated(b, p, q, q, from, size, size, shifts) && QuadrantOk(b, u, q)
  {
    hide Ranked, QuadrantOk;
  }

  lemma UpdateDone(b: seq<Byte>, u: seq<int>, block: seq<int>, q0: seq<int>, q: seq<int>, p: seq<int>, from: int,
      size: int, shifts: nat)
    requires Comparing(b, u, block, q0) && Updated(b, p, q0, q, from, size, 0, shifts) && QuadrantOk(b, u, q)
    ensures Comparing(b, u, block, q)
  {
    hide Ranked, QuadrantOk;
  }

  // ---- the whole sort ----

  /** The bytes past the block, for comparisons that run over its end. */
  method Overshoot(block: array<int>, quadrant: array<int>, nblock: int)
    requires block != quadrant && N_OVERSHOOT < nblock && nblock + N_OVERSHOOT <= block.Length
        && nblock + N_OVERSHOOT <= quadrant.Length
    requires forall x :: 0 <= x < nblock ==> quadrant[x] == 0
    modifies block, quadrant
    ensures block[..nblock] == old(block[..nblock]) && Wrapped(block[..], nblock) && Wrapped(quadrant[..], nblock)
    ensures forall x :: 0 <= x < nblock ==> quadrant[x] == 0
  {
    ghost var b0 := block[..];
    for i := 0 to N_OVERSHOOT
      invariant forall x :: 0 <= x < nblock ==> block[x] == b0[x] && quadrant[x] == 0
      invariant forall q :: nblock <= q < nblock + i ==> block[q] == b0[q - nblock] && quadrant[q] == 0
    {
      block[nblock + i] := block[i];
      quadrant[nblock + i] := 0;
    }
  }

  /** Radix sort and overshoot: everything the main loop starts from. */
  method Prepare(ptr: array<int>, block: array<int>, quadrant: array<int>, nblock: int, ghost b: seq<Byte>,
      ghost u: seq<int>)
    returns (ftab: array<int>)
    requires ptr != block && ptr != quadrant && block != quadrant && nblock == |b| && N_OVERSHOOT < nblock
        && ptr.Length == nblock
    requires nblock + N_OVERSHOOT <= block.Length && nblock + N_OVERSHOOT <= quadrant.Length && block[..nblock] == b
    requires Ranked(b, u) && Coherent(b, u)
    modifies ptr, block, quadrant
    ensures fresh(ftab) && ftab.Length == 65537 && block[..nblock] == b
    ensures Comparing(b, u, block[..], quadrant[..]) && Grouped(b, ftab[..], ptr[..])
  {
    hide Ranked, Coherent, Grouped, Wrapped, QuadrantOk, Keys;
    BlockBytes(b);
    ftab := new int[65537];
    CountPairs(block, quadrant, ftab, nblock, b);
    KeysBounded(b);
    SumUp(ftab, Keys(b));
    Overshoot(block, quadrant, nblock);
    PlacePairs(block, ftab, ptr, nblock, b);
    ComparingStart(b, u, block[..], quadrant[..]);
  }

  lemma BlockBytes(b: seq<Byte>)
    ensures IsBytes(b)
  {
  }

  lemma ComparingStart(b: seq<Byte>, u: seq<int>, block: seq<int>, quadrant: seq<int>)
    requires Ranked(b, u) && Wrapped(block, |b|) && Wrapped(quadrant, |b|) && |b| <= |block| && block[..|b|] == b
    requires forall x :: 0 <= x < |b| && x < |quadrant| ==> quadrant[x] == 0
    ensures Comparing(b, u, block, quadrant)
  {
    hide Ranked;
    RankedSize(b, u);
  }

  /** Sets the mask of every small bucket [j, ss]. */
  method MarkInduced(sorted: array<bool>, ss: int)
    requires sorted.Length == 65536 && 0 <= ss < 256
    modifies sorted
    ensures forall v :: 0 <= v < 65536 ==> sorted[v] == (old(sorted[v]) || v % 256 == ss)
  {
    for j := 0 to 256
      invariant forall v :: 0 <= v < 65536 ==> sorted[v] == (old(sorted[v]) || (v % 256 == ss && v / 256 < j))
    {
      sorted[256 * j + ss] := true;
    }
  }

  /** Steps 1 to 3 for one big bucket. */
  method SortBig(ptr: array<int>, block: array<int>, quadrant: array<int>, ftab: array<int>, sorted: array<bool>,
      bigDone: array<bool>, nblock: int, ss: int, last: bool, budget0: int, ghost b: seq<Byte>, ghost u: seq<int>)
    returns (budget: int)
    requires ptr != block && ptr != quadrant && ptr != ftab && block != ftab && quadrant != ftab && block != quadrant
        && sorted != bigDone
    requires nblock == |b| <= 900_000 && ptr.Length == nblock && ftab.Length == 65537 && sorted.Length == 65536
        && bigDone.Length == 256
    requires 0 <= ss < 256 && !bigDone[ss] && Comparing(b, u, block[..], quadrant[..])
    requires State(b, u, ftab[..], ptr[..], sorted[..]) && DoneSorted(bigDone[..], sorted[..])
    modifies ptr, quadrant, sorted, bigDone
    ensures budget <= budget0
    ensures budget >= 0 ==> Comparing(b, u, block[..], quadrant[..]) && State(b, u, ftab[..], ptr[..], sorted[..])
    ensures budget >= 0 ==> DoneSorted(bigDone[..], sorted[..]) && bigDone[..] == old(bigDone[..])[ss := true]
  {
    hide State, Comparing, Grouped, Coherent, Ranked, RowsSorted, BucketSorted;
    ghost var done := bigDone[..];
    budget := SortBigBucket(ptr, block, quadrant, ftab, sorted, nblock, ss, budget0, b, u);
    if budget < 0 { return; }
    ghost var p, flags := ptr[..], sorted[..];
    StateParts(b, u, ftab[..], p, flags);
    ComparingBlock(b, u, block[..], quadrant[..]);
    BucketsJoin(b, u, ftab[..], p, 256 * ss, 256 * ss + ss);
    BucketsJoin(b, u, ftab[..], p, 256 * ss + ss + 1, 256 * ss + 256);
    assert block[..nblock] == b;
    Induce(ptr, block, bigDone, ftab, nblock, ss, u);
    assert forall q :: 0 <= q < nblock && Aside(ftab[..], done, ss, q) ==> ptr[..][q] == p[q];
    MarkInduced(sorted, ss);
    StateInduced(b, u, ftab[..], p, flags, ptr[..], done, ss, sorted[..]);
    bigDone[ss] := true;
    StateParts(b, u, ftab[..], ptr[..], sorted[..]);
    BucketsJoin(b, u, ftab[..], ptr[..], 256 * ss, 256 * ss + 256);
    if !last { UpdateQuadrants(ptr, block, quadrant, ftab, nblock, ss, b, u); }
  }

  lemma ComparingBlock(b: seq<Byte>, u: seq<int>, block: seq<int>, quadrant: seq<int>)
    requires Comparing(b, u, block, quadrant)
    ensures N_OVERSHOOT < |b| <= |block| && block[..|b|] == b
  {
    hide Ranked, QuadrantOk;
  }

  /** mainSort: unless the budget runs out, ptr lists the rotations in order; the block is
      never changed. */
  method MainSort(ptr: array<int>, block: array<int>, quadrant: array<int>, nblock: int, budget0: int,
      ghost b: seq<Byte>) returns (budget: int)
    requires ptr != block && ptr != quadrant && block != quadrant && nblock == |b| <= 900_000 && N_OVERSHOOT < nblock
        && ptr.Length == nblock
    requires nblock + N_OVERSHOOT <= block.Length && nblock + N_OVERSHOOT <= quadrant.Length
    requires nblock <= block.Length && block[..nblock] == b && 0 <= budget0
    modifies ptr, block, quadrant
    ensures block[..nblock] == b
    ensures budget >= 0 ==> SortedRotations(b, ptr[..])
  {
    hide *;
    ghost var u := RotationRanks(b);
    RankedIsCoherent(b, u);
    var ftab := Prepare(ptr, block, quadrant, nblock, b, u);
    ghost var blockAll := block[..];
    assert blockAll[..nblock] == block[..nblock];
    var runningOrder := MakeRunningOrder(ftab);
    ghost var order := runningOrder[..];
    var bigDone, sorted := new bool[256](_ => false), new bool[65536](_ => false);
    StateStart(b, u, ftab[..], ptr[..], sorted[..], bigDone[..], order);
    budget := budget0;
    for i := 0 to 256
      modifies ptr, quadrant, sorted, bigDone
      invariant budget >= 0 && Comparing(b, u, block[..], quadrant[..])
      invariant State(b, u, ftab[..], ptr[..], sorted[..]) && DoneSorted(bigDone[..], sorted[..])
      invariant Taken(order, bigDone[..], i) && block[..] == blockAll
    {
      var ss := runningOrder[i];
      NextTaken(order, bigDone[..], i);
      ghost var done := bigDone[..];
      budget := SortBig(ptr, block, quadrant, ftab, sorted, bigDone, nblock, ss, i == 255, budget, b, u);
      assert block[..] == blockAll && block[..nblock] == blockAll[..nblock];
      if budget < 0 { return; }
      TakenStep(order, done, i);
    }
    assert block[..nblock] == blockAll[..nblock];
    AllSorted(b, u, ftab[..], ptr[..], sorted[..], bigDone[..], order);
  }

  /** The finished big buckets are the first i of the running order. */
  ghost predicate Taken(order: seq<int>, done: seq<bool>, i: int) {
    && 0 <= i <= 256 && |done| == 256 && IsPermutation(order, 256)
    && forall c :: 0 <= c < 256 ==> (done[c] <==> c in order[..i])
  }

  lemma NextTaken(order: seq<int>, done: seq<bool>, i: int)
    requires Taken(order, done, i) && i < 256
    ensures |order| == 256 && 0 <= order[i] < 256 && |done| == 256 && !done[order[i]]
  {
  }

  lemma TakenStep(order: seq<int>, done: seq<bool>, i: int)
    requires Taken(order, done, i) && i < 256
    ensures 0 <= order[i] < 256 && Taken(order, done[order[i] := true], i + 1)
  {
    assert order[..i + 1] == order[..i] + [order[i]];
  }

  lemma StateStart(b: seq<Byte>, u: seq<int>, start: seq<int>, p: seq<int>, sorted: seq<bool>, done: seq<bool>,
      order: seq<int>)
    requires Coherent(b, u) && Ranked(b, u) && |start| == 65537 && Grouped(b, start, p)
    requires |sorted| == 65536 && (forall v :: 0 <= v < 65536 ==> !sorted[v]) && |done| == 256
        && (forall c :: 0 <= c < 256 ==> !done[c])
    requires IsPermutation(order, 256)
    ensures State(b, u, start, p, sorted) && DoneSorted(done, sorted) && Taken(order, done, 0)
  {
    hide Coherent, Ranked, Grouped;
  }

  /** With every big bucket finished, the rows are the sorted rotations. */
  lemma {:induction false} AllSorted(b: seq<Byte>, u: seq<int>, start: seq<int>, p: seq<int>, sorted: seq<bool>,
      done: seq<bool>, order: seq<int>)
    requires State(b, u, start, p, sorted) && DoneSorted(done, sorted) && Taken(order, done, 256)
    ensures SortedRotations(b, p)
  {
    hide Coherent, Ranked, Grouped, BucketSorted, Distinct;
    StateParts(b, u, start, p, sorted);
    Pigeonhole(order, 256);
    assert order[..256] == order;
    forall sb | 0 <= sb < 65536 ensures BucketSorted(p, u, start, sb) {
      assert done[sb / 256];
      assert sorted[sb];
    }
    BucketsJoin(b, u, start, p, 0, 65536);
    GroupedParts(b, start, p);
    StartsAll(b, start, p);
    RankedRows(b, u, p);
  }

  lemma StartsAll(b: seq<int>, start: seq<int>, p: seq<int>)
    requires Grouped(b, start, p)
    ensures |start| == 65537 && start[0] == 0 && start[65536] == |b|
  {
    hide InSmall, Distinct;
  }

  lemma {:induction false} RankedRows(b: seq<Byte>, u: seq<int>, p: seq<int>)
    requires Ranked(b, u) && IsPermutation(p, |b|) && RowsSorted(p, u, 0, |b|)
    ensures SortedRotations(b, p)
  {
    hide LexLe, Rotation, Distinct;
    var rows := Rows(b, p);
    forall i, j | 0 <= i < j < |rows| ensures LexLe(rows[i], rows[j]) { assert u[p[i]] <= u[p[j]]; }
  }
}

/** fallbackSort: prefix doubling over buckets marked by header bits. */
module FallbackRounds {
  import opened Bytes
  import opened Permutations
  import opened Rotations
  import opened Lexicographic
  import opened PrefixOrder
  import opened Counting
  import opened SegmentSort
  import opened ClassSort
  import opened RankDoubling
  import opened RadixStart
  import opened BucketBits

  /** Rows before `done` are settled by v and the others still by u, row by row in the bits. */
  ghost predicate Mixed(f: seq<int>, u: seq<int>, v: seq<int>, bits: seq<bool>, done: int) {
    && IsPermutation(f, |f|) && |u| == |v| == |f| <= |bits| && 0 <= done <= |f|
    && SortedSegment(f, u, 0, |f| - 1) && SortedSegment(f, v, 0, done - 1)
    && (forall i :: 0 <= i < |f| ==> (bits[i] <==> HeadAt(f, if i < done then v else u, i)))
    && (done == |f| || HeadAt(f, u, done))
  }

  lemma MixedStart(f: seq<int>, u: seq<int>, v: seq<int>, bits: seq<bool>)
    requires IsPermutation(f, |f|) && |u| == |v| == |f| && SortedSegment(f, u, 0, |f| - 1) && Heads(f, u, bits)
    ensures Mixed(f, u, v, bits, 0)
  {
  }

  lemma MixedEnd(f: seq<int>, u: seq<int>, v: seq<int>, bits: seq<bool>)
    requires Mixed(f, u, v, bits, |f|)
    ensures IsPermutation(f, |f|) && Names(f, v) && SortedSegment(f, v, 0, |f| - 1) && Heads(f, v, bits)
  {
  }

  /** Rows that are buckets of their own need no further work. */
  lemma SkipSingles(f: seq<int>, u: seq<int>, e: seq<int>, v: seq<int>, bits: seq<bool>, done: int, l: int)
    requires Mixed(f, u, v, bits, done) && Refines(u, e, v) && done <= l <= |f|
    requires AllSet(bits, done, l) && (l < |f| ==> bits[l])
    ensures Mixed(f, u, v, bits, l)
  {
    hide Distinct;
    forall p, q | 0 <= p < q <= l - 1 ensures Class(f, v, p) <= Class(f, v, q) {
      if q >= done { SingleRow(f, u, e, v, bits, done, p, q); }
    }
    forall i | done <= i < l ensures bits[i] <==> HeadAt(f, v, i) {
      if i > 0 { SingleRow(f, u, e, v, bits, done, i - 1, i); }
    }
  }

  lemma SingleRow(f: seq<int>, u: seq<int>, e: seq<int>, v: seq<int>, bits: seq<bool>, done: int, p: int, q: int)
    requires Mixed(f, u, v, bits, done) && Refines(u, e, v) && 0 <= p < q < |f| && done <= q && bits[q]
    ensures Class(f, v, p) < Class(f, v, q)
  {
    hide Distinct;
    assert HeadAt(f, u, q);
    RowsOrdered(f, u, p, q - 1);
    RowsOrdered(f, u, q - 1, q);
    assert u[f[p]] < u[f[q]];
    assert !(v[f[q]] <= v[f[p]]);
  }

  // ---- one bucket ----

  /** The rows of a bucket share their rank. */
  lemma BucketRank(f: seq<int>, u: seq<int>, v: seq<int>, bits: seq<bool>, l: int, r: int, i: int)
    requires Mixed(f, u, v, bits, l) && l <= i <= r < |f| && AllClear(bits, l + 1, r + 1)
    ensures Class(f, u, i) == Class(f, u, l)
    decreases i
  {
    hide Distinct, SortedSegment;
    if i > l {
      BucketRank(f, u, v, bits, l, r, i - 1);
      assert !bits[i];
      assert !HeadAt(f, u, i);
    }
  }

  /** Sorting a bucket moves rows of one rank only. */
  lemma SameRanks(f: seq<int>, f1: seq<int>, u: seq<int>, v: seq<int>, bits: seq<bool>, l: int, r: int)
    requires Mixed(f, u, v, bits, l) && l < r < |f| && AllClear(bits, l + 1, r + 1)
    requires Rearranged(f, f1, l, r) && Names(f1, u)
    ensures forall i :: 0 <= i < |f| ==> Class(f1, u, i) == Class(f, u, i)
  {
    hide Distinct, SortedSegment, Mixed;
    MixedNames(f, u, v, bits, l);
    forall i | 0 <= i < |f| ensures Class(f1, u, i) == Class(f, u, i) {
      if l <= i <= r {
        var j := RearrangedSource(f, f1, l, r, i);
        BucketRank(f, u, v, bits, l, r, i);
        BucketRank(f, u, v, bits, l, r, j);
      }
    }
  }

  lemma MixedNames(f: seq<int>, u: seq<int>, v: seq<int>, bits: seq<bool>, done: int)
    requires Mixed(f, u, v, bits, done)
    ensures IsPermutation(f, |f|) && |u| == |v| == |f| <= |bits| && Names(f, u) && Names(f, v) && 0 <= done <= |f|
  {
  }

  /** A row that starts a new class within the bucket from l. */
  ghost predicate Change(f: seq<int>, e: seq<int>, l: int, i: int)
    requires Names(f, e) && 0 <= l <= i < |f|
  {
    i == l || Class(f, e, i - 1) != Class(f, e, i)
  }

  /** The header bits after a bucket is scanned. */
  ghost predicate Marked(f: seq<int>, e: seq<int>, bits0: seq<bool>, bits: seq<bool>, l: int, upto: int)
    requires Names(f, e) && 0 <= l <= upto <= |f| <= |bits0|
  {
    && |bits| == |bits0|
    && forall i :: 0 <= i < |bits| ==>
         bits[i] == (bits0[i] || (l <= i < upto && Change(f, e, l, i)))
  }

  lemma {:induction false} BucketSorted(f: seq<int>, f1: seq<int>, u: seq<int>, e: seq<int>, v: seq<int>,
      bits: seq<bool>, bits1: seq<bool>, l: int, r: int)
    requires Mixed(f, u, v, bits, l) && Refines(u, e, v) && l < r < |f| && AllClear(bits, l + 1, r + 1)
    requires |bits1| == |bits| && (r + 1 < |f| ==> bits[r + 1])
    requires Rearranged(f, f1, l, r) && Names(f1, e) && SortedSegment(f1, e, l, r)
        && Marked(f1, e, bits, bits1, l, r + 1)
    ensures Mixed(f1, u, v, bits1, r + 1)
  {
    hide Distinct, SortedSegment, Rearranged, Marked;
    MixedNames(f, u, v, bits, l);
    RearrangedIsPermutation(f, f1, l, r);
    SameRanks(f, f1, u, v, bits, l, r);
    SortedAgain(f, f1, u, v, bits, l, r);
    SortedFurther(f, f1, u, e, v, bits, l, r);
    forall i | 0 <= i < |f1| ensures bits1[i] <==> HeadAt(f1, if i < r + 1 then v else u, i) {
      HeadAgain(f, f1, u, e, v, bits, bits1, l, r, i);
    }
    if r + 1 < |f| {
      assert HeadAt(f, u, r + 1);
      assert Class(f1, u, r) == Class(f, u, r) && Class(f1, u, r + 1) == Class(f, u, r + 1);
    }
  }

  lemma SortedAgain(f: seq<int>, f1: seq<int>, u: seq<int>, v: seq<int>, bits: seq<bool>, l: int, r: int)
    requires Mixed(f, u, v, bits, l) && Rearranged(f, f1, l, r) && Names(f1, u)
    requires forall i :: 0 <= i < |f| ==> Class(f1, u, i) == Class(f, u, i)
    ensures SortedSegment(f1, u, 0, |f1| - 1)
  {
    hide Distinct;
    forall p, q | 0 <= p < q <= |f1| - 1 ensures Class(f1, u, p) <= Class(f1, u, q) {
      assert Class(f, u, p) <= Class(f, u, q);
    }
  }

  lemma RearrangedIsPermutation(f: seq<int>, f1: seq<int>, l: int, r: int)
    requires Rearranged(f, f1, l, r) && IsPermutation(f, |f|)
    ensures IsPermutation(f1, |f|)
  {
    RearrangedNames(f, f1, f, l, r);
    DistinctCounts(f);
    forall i, j | 0 <= i < j < |f1| ensures f1[i] != f1[j] {
      if f1[i] == f1[j] { TwiceCounted(f1, i, j); }
    }
  }

  lemma {:induction false} DistinctCounts(f: seq<int>)
    requires Distinct(f)
    ensures forall x :: multiset(f)[x] <= 1
  {
    if f != [] {
      var g := f[..|f| - 1];
      DistinctCounts(g);
      assert f == g + [f[|f| - 1]];
      assert f[|f| - 1] !in g;
      assert f[|f| - 1] !in multiset(g);
    }
  }

  lemma TwiceCounted(f: seq<int>, i: int, j: int)
    requires 0 <= i < j < |f| && f[i] == f[j]
    ensures multiset(f)[f[i]] >= 2
  {
    assert f == f[..j] + f[j..];
    assert f[i] == f[..j][i] && f[j] == f[j..][0];
    assert f[i] in multiset(f[..j]) && f[j] in multiset(f[j..]);
  }

  /** Below a bucket the ranks are strictly smaller. */
  lemma BelowBucket(f: seq<int>, u: seq<int>, v: seq<int>, bits: seq<bool>, l: int, p: int, q: int)
    requires Mixed(f, u, v, bits, l) && 0 <= p < l <= q < |f|
    ensures Class(f, u, p) < Class(f, u, q)
  {
    hide Distinct;
    RowsOrdered(f, u, p, l - 1);
    RowsOrdered(f, u, l - 1, l);
    RowsOrdered(f, u, l, q);
    assert HeadAt(f, u, l);
  }

  lemma SortedFurther(f: seq<int>, f1: seq<int>, u: seq<int>, e: seq<int>, v: seq<int>, bits: seq<bool>, l: int, r: int)
    requires Mixed(f, u, v, bits, l) && Refines(u, e, v) && l < r < |f| && AllClear(bits, l + 1, r + 1)
    requires Rearranged(f, f1, l, r) && Names(f1, u) && SortedSegment(f1, e, l, r)
    requires forall i :: 0 <= i < |f| ==> Class(f1, u, i) == Class(f, u, i)
    ensures Names(f1, v) && SortedSegment(f1, v, 0, r)
  {
    hide Mixed;
    MixedNames(f, u, v, bits, l);
    forall p, q | 0 <= p < q <= r ensures Class(f1, v, p) <= Class(f1, v, q) {
      if q < l {
        assert f1[p] == f[p] && f1[q] == f[q];
        SettledRows(f, u, v, bits, l, p, q);
      } else if p < l {
        BelowBucket(f, u, v, bits, l, p, q);
        assert Class(f1, u, p) < Class(f1, u, q);
      } else {
        BucketRank(f, u, v, bits, l, r, p);
        BucketRank(f, u, v, bits, l, r, q);
        assert Class(f1, e, p) <= Class(f1, e, q);
      }
    }
  }

  lemma SettledRows(f: seq<int>, u: seq<int>, v: seq<int>, bits: seq<bool>, done: int, p: int, q: int)
    requires Mixed(f, u, v, bits, done) && 0 <= p < q < done
    ensures Class(f, v, p) <= Class(f, v, q)
    ensures bits[q] <==> HeadAt(f, v, q)
  {
  }

  lemma HeadAgain(f: seq<int>, f1: seq<int>, u: seq<int>, e: seq<int>, v: seq<int>, bits: seq<bool>, bits1: seq<bool>,
      l: int, r: int, i: int)
    requires Mixed(f, u, v, bits, l) && Refines(u, e, v) && l < r < |f| && AllClear(bits, l + 1, r + 1) && 0 <= i < |f|
    requires Rearranged(f, f1, l, r) && Names(f1, u) && Names(f1, e) && Marked(f1, e, bits, bits1, l, r + 1)
    requires forall k :: 0 <= k < |f| ==> Class(f1, u, k) == Class(f, u, k)
    ensures bits1[i] <==> HeadAt(f1, if i < r + 1 then v else u, i)
  {
    hide Distinct, SortedSegment;
    if i < l {
      assert f1[i] == f[i] && (i > 0 ==> f1[i - 1] == f[i - 1]);
    } else if i > r {
      assert Class(f1, u, i) == Class(f, u, i) && Class(f1, u, i - 1) == Class(f, u, i - 1);
      assert bits[i] <==> HeadAt(f, u, i);
    } else if i == l {
      if l > 0 { BelowBucket(f, u, v, bits, l, l - 1, l); assert Class(f1, u, l - 1) < Class(f1, u, l); }
    } else {
      BucketRank(f, u, v, bits, l, r, i);
      BucketRank(f, u, v, bits, l, r, i - 1);
      assert !bits[i];
    }
  }

  /** Sets a header wherever the class changes within the bucket. */
  method MarkBucket(fmap: array<int>, eclass: array<int>, bits: array<bool>, l: int, r: int)
    requires fmap != eclass && 0 <= l <= r < fmap.Length <= bits.Length && Names(fmap[..], eclass[..])
    requires forall x :: 0 <= x < eclass.Length ==> eclass[x] >= 0
    modifies bits
    ensures Marked(fmap[..], eclass[..], old(bits[..]), bits[..], l, r + 1)
  {
    ghost var bits0, f, e := bits[..], fmap[..], eclass[..];
    var cc := -1;
    var i := l;
    while i <= r
      invariant l <= i <= r + 1 && Marked(f, e, bits0, bits[..], l, i)
      invariant cc == if i == l then -1 else Class(f, e, i - 1)
    {
      assert 0 <= f[i] < |e|;
      var cc1 := eclass[fmap[i]];
      if cc != cc1 {
        bits[i] := true;
        cc := cc1;
      }
      i := i + 1;
    }
  }

  // ---- one round ----

  lemma MarkedBounds(f: seq<int>, e: seq<int>, bits0: seq<bool>, bits: seq<bool>, l: int, upto: int, nblock: nat)
    requires Names(f, e) && 0 <= l <= upto <= |f| <= |bits0| && Marked(f, e, bits0, bits, l, upto)
    requires Sentinels(bits0, nblock) && |f| == nblock
    ensures Sentinels(bits, nblock)
    ensures forall k :: upto <= k < |bits| ==> bits[k] == bits0[k]
  {
  }

  /** Sorts every bucket of more than one row by the next H bytes. */
  method Refine(fmap: array<int>, eclass: array<int>, bits: array<bool>, nblock: int, ghost u: seq<int>,
      ghost v: seq<int>)
    returns (nNotDone: int)
    requires fmap != eclass && 0 < nblock == fmap.Length == eclass.Length <= 900_000
    requires Mixed(fmap[..], u, v, bits[..], 0) && Refines(u, eclass[..], v) && Sentinels(bits[..], nblock)
    requires forall x :: 0 <= x < nblock ==> eclass[x] >= 0
    modifies fmap, bits
    ensures Mixed(fmap[..], u, v, bits[..], nblock) && Sentinels(bits[..], nblock)
    ensures nNotDone == 0 ==> AllSet(bits[..], 0, nblock)
  {
    hide Mixed, Refines, Rearranged, Names, Marked, SortedSegment, HeadAt, Class;
    ghost var e := eclass[..];
    nNotDone := 0;
    var r := -1;
    HeadSet(fmap[..], u, v, bits[..], 0);
    while true
      invariant -1 <= r < nblock && Mixed(fmap[..], u, v, bits[..], r + 1) && Sentinels(bits[..], nblock) && bits[r + 1]
      invariant nNotDone >= 0 && (nNotDone == 0 ==> r == -1)
      decreases nblock - r
    {
      ghost var f, bits0, done := fmap[..], bits[..], r + 1;
      var found, l, r1 := NextBucket(bits, nblock, r);
      if !found {
        SkipSingles(f, u, e, v, bits0, done, nblock);
        break;
      }
      SkipSingles(f, u, e, v, bits0, done, l);
      MixedNames(f, u, v, bits0, l);
      NamesSame(f, u, e);
      r := r1;
      nNotDone := nNotDone + (r - l + 1);
      QSort3(fmap, eclass, l, r);
      MarkBucket(fmap, eclass, bits, l, r);
      BucketSorted(f, fmap[..], u, e, v, bits0, bits[..], l, r);
      MarkedBounds(fmap[..], e, bits0, bits[..], l, r + 1, nblock);
    }
  }

  lemma NamesSame(f: seq<int>, u: seq<int>, e: seq<int>)
    requires Names(f, u) && |u| == |e|
    ensures Names(f, e)
  {
  }

  lemma HeadSet(f: seq<int>, u: seq<int>, v: seq<int>, bits: seq<bool>, done: int)
    requires Mixed(f, u, v, bits, done) && done < |f|
    ensures bits[done]
  {
  }

  /** Gives every rotation the header row of the rotation H further on. */
  method AssignClasses(fmap: array<int>, eclass: array<int>, bits: array<bool>, nblock: int, h: int)
    requires fmap != eclass && nblock == fmap.Length == eclass.Length <= bits.Length && 0 < h <= nblock
    requires IsPermutation(fmap[..], nblock)
    modifies eclass
    ensures Classified(fmap[..], eclass[..], bits[..], h, nblock)
  {
    hide Classified, Distinct;
    ghost var f, bt := fmap[..], bits[..];
    ClassifiedStart(f, eclass[..], bt, h);
    var j := 0;
    var i := 0;
    while i < nblock
      invariant 0 <= i <= nblock && Classified(f, eclass[..], bt, h, i)
      invariant j == if i == 0 then 0 else Start(bt, i - 1)
    {
      ClassifiedStep(f, eclass[..], bt, h, i);
      if bits[i] { j := i; }
      assert 0 <= f[i] < nblock;
      var k := fmap[i] - h;
      if k < 0 { k := k + nblock; }
      ghost var e := eclass[..];
      eclass[k] := j;
      assert eclass[..] == e[k := j];
      i := i + 1;
    }
  }

  lemma ClassifiedStart(f: seq<int>, e: seq<int>, bits: seq<bool>, h: nat)
    requires IsPermutation(f, |f|) && h <= |f| == |e| <= |bits|
    ensures Classified(f, e, bits, h, 0)
  {
  }

  // ---- the whole sort ----

  /** At depth h: rows sorted by h bytes, headers where those bytes change, for some ranks u. */
  ghost predicate AtDepth(b: seq<Byte>, f: seq<int>, bits: seq<bool>, u: seq<int>, h: nat) {
    IsPermutation(f, |b|) && Ranks(b, u, h) && SortedSegment(f, u, 0, |f| - 1) && Heads(f, u, bits)
        && Sentinels(bits, |b|)
  }

  /** What depth h means in bytes: order by the first h bytes, headers exactly where they change. */
  lemma {:induction false} DepthMeaning(b: seq<Byte>, f: seq<int>, bits: seq<bool>, u: seq<int>, h: nat, i: int, j: int)
    requires AtDepth(b, f, bits, u, h) && 0 <= i < j < |f|
    ensures Before(b, f[i], f[j], h)
    ensures bits[j] <==> !SamePrefix(b, f[j - 1], f[j], h)
  {
    hide Before, SamePrefix, Distinct, Sentinels;
    RanksSame(b, u, h, f[j - 1], f[j]);
    assert Class(f, u, i) <= Class(f, u, j);
    assert bits[j] <==> HeadAt(f, u, j);
  }

  /** One turn of the doubling loop. */
  method Double(fmap: array<int>, eclass: array<int>, bits: array<bool>, nblock: int, h: int, ghost b: seq<Byte>,
      ghost u: seq<int>)
    returns (nNotDone: int, ghost v: seq<int>)
    requires fmap != eclass && 0 < nblock == fmap.Length == eclass.Length == |b| <= 900_000 && 0 < h <= nblock
    requires AtDepth(b, fmap[..], bits[..], u, h)
    modifies fmap, eclass, bits
    ensures AtDepth(b, fmap[..], bits[..], v, 2 * h)
    ensures nNotDone == 0 ==> AllSet(bits[..], 0, nblock)
  {
    hide Ranks, SortedSegment, Heads, Shifted, Refines, Mixed, Classified, Distinct, Names;
    DepthParts(b, fmap[..], bits[..], u, h);
    AssignClasses(fmap, eclass, bits, nblock, h);
    ghost var e := eclass[..];
    ClassesShifted(fmap[..], u, e, bits[..], h);
    ShiftedRange(u, e, h);
    v := Combined(u, e);
    CombinedRefines(u, e);
    RanksDouble(b, u, e, v, h);
    MixedStart(fmap[..], u, v, bits[..]);
    nNotDone := Refine(fmap, eclass, bits, nblock, u, v);
    MixedEnd(fmap[..], u, v, bits[..]);
  }

  lemma DepthParts(b: seq<Byte>, f: seq<int>, bits: seq<bool>, u: seq<int>, h: nat)
    requires AtDepth(b, f, bits, u, h)
    ensures |u| == |f| == |b| <= |bits| && Names(f, u)
  {
  }

  lemma ShiftedRange(u: seq<int>, e: seq<int>, h: nat)
    requires Shifted(u, e, h)
    ensures |e| == |u| && forall x :: 0 <= x < |e| ==> 0 <= e[x] < |u|
  {
  }

  method SetStarts(ghost b: seq<Byte>, ftab: array<int>, bits: array<bool>)
    requires ftab.Length == 257 && forall c :: 0 <= c < 256 ==> ftab[c] == CountBelow(b, c)
    requires |b| < bits.Length && forall k :: 0 <= k < |b| ==> !bits[k]
    modifies bits
    ensures Headed(b, bits[..], 256)
  {
    hide CountBelow;
    var i := 0;
    while i < 256
      invariant 0 <= i <= 256 && Headed(b, bits[..], i)
    {
      ghost var bt := bits[..];
      assert ftab[i] == CountBelow(b, i);
      bits[ftab[i]] := true;
      HeadedStep(b, bt, bits[..], i);
      i := i + 1;
    }
  }

  /** The radix sort establishes depth 1. */
  method Begin(block: array<Byte>, fmap: array<int>, bits: array<bool>, nblock: int) returns (ftabCopy: array<int>)
    requires 0 < nblock <= block.Length && fmap.Length == nblock && bits.Length == BitsLength(nblock)
    requires block as object != fmap
    modifies fmap, bits
    ensures fresh(ftabCopy) && ftabCopy.Length == 256 && Counted(block[..nblock], ftabCopy[..])
    ensures AtDepth(block[..nblock], fmap[..], bits[..], block[..nblock], 1)
  {
    hide Counted, Bucketed, CountBelow, Ranks, SortedSegment, Heads, Distinct, AtDepth;
    ghost var b := block[..nblock];
    var ftab;
    ftab, ftabCopy := CountBytes(block, nblock);
    Accumulate(b, ftab);
    Place(block, ftab, fmap, nblock);
    ClearWords(bits, nblock);
    SetStarts(b, ftab, bits);
    ghost var bt := bits[..];
    SetSentinels(bits, nblock);
    HeadedSame(b, bt, bits[..]);
    BucketedDepth(b, fmap[..], bits[..]);
  }

  ghost predicate StartsBelow(b: seq<Byte>, c: int, k: int) {
    exists d :: 0 <= d < c && CountBelow(b, d) == k
  }

  /** Headers at the starts of the first c buckets. */
  ghost predicate Headed(b: seq<Byte>, bits: seq<bool>, c: int) {
    |b| <= |bits| && forall k :: 0 <= k < |b| ==> (bits[k] <==> StartsBelow(b, c, k))
  }

  lemma StartsBelowNext(b: seq<Byte>, c: int, k: int)
    requires 0 <= c
    ensures StartsBelow(b, c + 1, k) <==> StartsBelow(b, c, k) || CountBelow(b, c) == k
  {
    hide CountBelow;
    if StartsBelow(b, c + 1, k) {
      var d :| 0 <= d < c + 1 && CountBelow(b, d) == k;
      if d < c { assert StartsBelow(b, c, k); }
    }
    if StartsBelow(b, c, k) {
      var d :| 0 <= d < c && CountBelow(b, d) == k;
      assert StartsBelow(b, c + 1, k);
    }
  }

  lemma HeadedStep(b: seq<Byte>, bits: seq<bool>, bits1: seq<bool>, c: int)
    requires Headed(b, bits, c) && 0 <= c && |b| < |bits| && bits1 == bits[CountBelow(b, c) := true]
    ensures Headed(b, bits1, c + 1)
  {
    hide CountBelow, StartsBelow;
    forall k | 0 <= k < |b| ensures bits1[k] <==> StartsBelow(b, c + 1, k) {
      StartsBelowNext(b, c, k);
      assert bits[k] <==> StartsBelow(b, c, k);
    }
  }

  lemma HeadedSame(b: seq<Byte>, bits: seq<bool>, bits1: seq<bool>)
    requires Headed(b, bits, 256) && |bits1| == |bits| && forall k :: 0 <= k < |b| ==> bits1[k] == bits[k]
    ensures Headed(b, bits1, 256)
  {
    hide CountBelow;
  }

  lemma {:induction false} BucketedDepth(b: seq<Byte>, f: seq<int>, bits: seq<bool>)
    requires Bucketed(b, f) && Headed(b, bits, 256) && Sentinels(bits, |b|)
    ensures AtDepth(b, f, bits, b, 1)
  {
    hide CountBelow, Ranks, Distinct, InBucket;
    RanksFirst(b);
    forall p, q | 0 <= p < q <= |f| - 1 ensures Class(f, b, p) <= Class(f, b, q) { BucketedOrder(b, f, p, q); }
    forall i | 0 <= i < |f| ensures bits[i] <==> HeadAt(f, b, i) { HeadedAt(b, f, bits, i); }
  }

  lemma {:induction false} HeadedAt(b: seq<Byte>, f: seq<int>, bits: seq<bool>, i: int)
    requires Bucketed(b, f) && Headed(b, bits, 256) && 0 <= i < |f|
    ensures bits[i] <==> HeadAt(f, b, i)
  {
    hide CountBelow, Distinct, InBucket;
    BelowEnds(b);
    if i == 0 {
      assert CountBelow(b, 0) == 0;
    } else {
      BucketedOrder(b, f, i - 1, i);
      if HeadAt(f, b, i) { assert CountBelow(b, b[f[i]]) == i; }
      if bits[i] {
        var d :| 0 <= d < 256 && CountBelow(b, d) == i;
        BucketStart(b, f, i, d);
      }
    }
  }

  /** Far enough, or with a header on every row, the order is that of the rotations. */
  lemma {:induction false} Settled(b: seq<Byte>, f: seq<int>, bits: seq<bool>, u: seq<int>, h: nat)
    requires AtDepth(b, f, bits, u, h) && (h > |b| || AllSet(bits, 0, |b|))
    ensures SortedRotations(b, f)
  {
    hide Before, SamePrefix, Distinct, Sentinels, AtDepth, LexLe;
    DepthPermutation(b, f, bits, u, h);
    var rows := Rows(b, f);
    forall i, j | 0 <= i < j < |rows| ensures LexLe(rows[i], rows[j]) {
      SettledRowPair(b, f, bits, u, h, i, j);
      BeforeIsRotationOrder(b, f[i], f[j], h);
    }
  }

  lemma DepthPermutation(b: seq<Byte>, f: seq<int>, bits: seq<bool>, u: seq<int>, h: nat)
    requires AtDepth(b, f, bits, u, h)
    ensures IsPermutation(f, |b|) && |bits| >= |b|
  {
  }

  lemma {:induction false} SettledRowPair(b: seq<Byte>, f: seq<int>, bits: seq<bool>, u: seq<int>, h: nat, i: int,
      j: int)
    requires AtDepth(b, f, bits, u, h) && (h > |b| || AllSet(bits, 0, |b|)) && 0 <= i < j < |f|
    ensures Before(b, f[i], f[j], h) && (h >= |b| || !SamePrefix(b, f[i], f[j], h))
  {
    hide Prefix, LexLe, Distinct, Sentinels, AtDepth;
    DepthPermutation(b, f, bits, u, h);
    DepthMeaning(b, f, bits, u, h, i, j);
    if h <= |b| {
      if i < j - 1 {
        DepthMeaning(b, f, bits, u, h, i, j - 1);
        DepthMeaning(b, f, bits, u, h, j - 1, j);
        BeforeTrans(b, f[i], f[j - 1], f[j], h);
      }
      assert bits[j];
    }
  }
}

/** fallbackSimpleSort and fallbackQSort3: sorting a segment of `fmap` by the class of the
    rotations it names. */
module SegmentSort {
  import opened Permutations

  /** t is s with positions lo..hi rearranged. */
  ghost predicate Rearranged(s: seq<int>, t: seq<int>, lo: int, hi: int) {
    && |s| == |t| && multiset(s) == multiset(t)
    && forall i :: 0 <= i < |s| && !(lo <= i <= hi) ==> s[i] == t[i]
  }

  /** Every entry of s names an element of the class table. */
  ghost predicate Names(s: seq<int>, e: seq<int>) { InRange(s, |e|) }

  function Class(s: seq<int>, e: seq<int>, i: int): int
    requires Names(s, e) && 0 <= i < |s|
  {
    e[s[i]]
  }

  ghost predicate SortedSegment(s: seq<int>, e: seq<int>, lo: int, hi: int)
    requires Names(s, e) && 0 <= lo && hi < |s|
  {
    forall p, q :: lo <= p < q <= hi ==> Class(s, e, p) <= Class(s, e, q)
  }

  lemma RearrangedTrans(s: seq<int>, t: seq<int>, u: seq<int>, lo: int, hi: int)
    requires Rearranged(s, t, lo, hi) && Rearranged(t, u, lo, hi)
    ensures Rearranged(s, u, lo, hi)
  {
  }

  /** The segment keeps its elements. */
  lemma RearrangedSegment(s: seq<int>, t: seq<int>, lo: int, hi: int)
    requires Rearranged(s, t, lo, hi) && 0 <= lo <= hi + 1 <= |s|
    ensures multiset(s[lo..hi + 1]) == multiset(t[lo..hi + 1])
  {
    ThreeParts(s, lo, hi);
    ThreeParts(t, lo, hi);
    assert s[..lo] == t[..lo] && s[hi + 1..] == t[hi + 1..];
    CancelRest(multiset(s[lo..hi + 1]), multiset(t[lo..hi + 1]), multiset(s[..lo]) + multiset(s[hi + 1..]));
  }

  lemma CancelRest(a: multiset<int>, b: multiset<int>, rest: multiset<int>)
    requires a + rest == b + rest
    ensures a == b
  {
    forall x ensures a[x] == b[x] { assert (a + rest)[x] == (b + rest)[x]; }
  }

  lemma ThreeParts(s: seq<int>, lo: int, hi: int)
    requires 0 <= lo <= hi + 1 <= |s|
    ensures multiset(s) == multiset(s[lo..hi + 1]) + (multiset(s[..lo]) + multiset(s[hi + 1..]))
  {
    assert s == s[..lo] + s[lo..hi + 1] + s[hi + 1..];
  }

  lemma RearrangedSource(s: seq<int>, t: seq<int>, lo: int, hi: int, i: int) returns (j: int)
    requires Rearranged(s, t, lo, hi) && 0 <= lo <= i <= hi < |s|
    ensures lo <= j <= hi && t[i] == s[j]
  {
    RearrangedSegment(s, t, lo, hi);
    assert t[i] == t[lo..hi + 1][i - lo];
    assert t[i] in multiset(t[lo..hi + 1]);
    assert t[i] in s[lo..hi + 1];
    var k :| 0 <= k < hi + 1 - lo && s[lo..hi + 1][k] == t[i];
    j := lo + k;
  }

  lemma RearrangedNames(s: seq<int>, t: seq<int>, e: seq<int>, lo: int, hi: int)
    requires Rearranged(s, t, lo, hi) && Names(s, e)
    ensures Names(t, e)
  {
    forall i | 0 <= i < |t| ensures 0 <= t[i] < |e| {
      assert t[i] in multiset(t);
      assert t[i] in s;
    }
  }

  ghost function Swapped(s: seq<int>, i: int, j: int): (t: seq<int>)
    requires 0 <= i < |s| && 0 <= j < |s|
    ensures |t| == |s|
    ensures forall k :: 0 <= k < |s| ==> t[k] == s[if k == i then j else if k == j then i else k]
  {
    s[i := s[j]][j := s[i]]
  }

  lemma SwapRearranges(s: seq<int>, i: int, j: int, lo: int, hi: int)
    requires 0 <= lo <= i <= hi < |s| && lo <= j <= hi
    ensures Rearranged(s, Swapped(s, i, j), lo, hi)
  {
  }

  lemma RearrangedWider(s: seq<int>, t: seq<int>, lo: int, hi: int, lo1: int, hi1: int)
    requires Rearranged(s, t, lo, hi) && lo1 <= lo && hi <= hi1
    ensures Rearranged(s, t, lo1, hi1)
  {
  }

  method Swap(fmap: array<int>, i: int, j: int, ghost lo: int, ghost hi: int)
    requires 0 <= lo <= i <= hi < fmap.Length && lo <= j <= hi
    modifies fmap
    ensures fmap[..] == Swapped(old(fmap[..]), i, j)
    ensures Rearranged(old(fmap[..]), fmap[..], lo, hi)
  {
    ghost var s := fmap[..];
    fmap[i], fmap[j] := fmap[j], fmap[i];
    SwapRearranges(s, i, j, lo, hi);
    assert fmap[..] == Swapped(s, i, j);
  }

  // ---- an array with a hole ----

  /** The array is s but at position j, where s has the element that is being moved. */
  ghost predicate ButAt(a: seq<int>, s: seq<int>, j: int) {
    |a| == |s| && 0 <= j < |s| && forall k :: 0 <= k < |s| && k != j ==> a[k] == s[k]
  }

  lemma ButAtStart(s: seq<int>, j: int)
    requires 0 <= j < |s|
    ensures ButAt(s, s, j)
  {
  }

  lemma ButAtRead(a: seq<int>, s: seq<int>, j: int, k: int)
    requires ButAt(a, s, j) && 0 <= k < |s| && k != j
    ensures |a| == |s| && a[k] == s[k]
  {
  }

  /** The hole moves to k. */
  lemma ButAtMoves(a: seq<int>, s: seq<int>, j: int, k: int)
    requires ButAt(a, s, j) && 0 <= k < |s| && k != j
    ensures |a| == |s| && ButAt(a[j := a[k]], Swapped(s, j, k), k) && Swapped(s, j, k)[k] == s[j]
  {
  }

  lemma ButAtEnds(a: seq<int>, s: seq<int>, j: int)
    requires ButAt(a, s, j)
    ensures |a| == |s| && a[j := s[j]] == s
  {
  }

  // ---- insertion from the right ----

  /** Order within i..hi except for the element at the hole. */
  ghost predicate SortedBut(s: seq<int>, e: seq<int>, i: int, hi: int, hole: int)
    requires Names(s, e) && 0 <= i <= hole <= hi < |s|
  {
    && (forall p, q :: i <= p < q <= hi && p != hole && q != hole ==> Class(s, e, p) <= Class(s, e, q))
    && (forall p :: i <= p < hole ==> Class(s, e, p) <= Class(s, e, hole))
  }

  lemma HoleMoves(s: seq<int>, e: seq<int>, i: int, hi: int, hole: int)
    requires Names(s, e) && 0 <= i <= hole < hi < |s| && SortedBut(s, e, i, hi, hole)
    requires Class(s, e, hole) > Class(s, e, hole + 1)
    ensures Names(Swapped(s, hole, hole + 1), e) && SortedBut(Swapped(s, hole, hole + 1), e, i, hi, hole + 1)
  {
    var t := Swapped(s, hole, hole + 1);
    assert Names(t, e);
    forall p, q | i <= p < q <= hi && p != hole + 1 && q != hole + 1 ensures Class(t, e, p) <= Class(t, e, q) {
      var p0, q0 := if p == hole then hole + 1 else p, if q == hole then hole + 1 else q;
      assert Class(s, e, p0) <= Class(s, e, q0);
    }
    forall p | i <= p < hole + 1 ensures Class(t, e, p) <= Class(t, e, hole + 1) {
      if p < hole { assert Class(s, e, p) <= Class(s, e, hole); }
    }
  }

  lemma HoleSettles(s: seq<int>, e: seq<int>, i: int, hi: int, hole: int)
    requires Names(s, e) && 0 <= i <= hole <= hi < |s| && SortedBut(s, e, i, hi, hole)
    requires hole < hi ==> Class(s, e, hole) <= Class(s, e, hole + 1)
    ensures SortedSegment(s, e, i, hi)
  {
  }

  /** One pass of either insertion loop, with stride 1 or 4. */
  method InsertRight(fmap: array<int>, eclass: array<int>, i: int, hi: int, step: int)
    requires fmap != eclass && 0 <= i <= hi < fmap.Length && 1 <= step && Names(fmap[..], eclass[..])
    modifies fmap
    ensures Rearranged(old(fmap[..]), fmap[..], i, hi) && Names(fmap[..], eclass[..])
    ensures step == 1 && old(SortedSegment(fmap[..], eclass[..], i + 1, hi)) ==>
      SortedSegment(fmap[..], eclass[..], i, hi)
  {
    hide Rearranged, Names, ButAt, Swapped, SortedSegment, SortedBut;
    ghost var e, f0 := eclass[..], fmap[..];
    ghost var s := f0;
    ghost var sorted := step == 1 && SortedSegment(f0, e, i + 1, hi);
    NamesAt(s, e, i);
    var tmp := fmap[i];
    var ec_tmp := eclass[tmp];
    var j := i + step;
    SameRearranged(s, i, hi);
    ButAtStart(s, i);
    if sorted { HoleIsFirst(s, e, i, hi); }
    if j <= hi { NamesAt(s, e, j); }
    while j <= hi && ec_tmp > eclass[fmap[j]]
      invariant i <= j - step <= hi && |s| == fmap.Length && s[j - step] == tmp
      invariant ButAt(fmap[..], s, j - step)
      invariant j <= hi ==> 0 <= fmap[j] < eclass.Length && fmap[j] == s[j]
      invariant Rearranged(f0, s, i, hi) && Names(s, e)
      invariant sorted ==> SortedBut(s, e, i, hi, j - step)
      decreases hi - j
    {
      ghost var a := fmap[..];
      ButAtMoves(a, s, j - step, j);
      HoleStep(f0, s, e, i, hi, j - step, j, sorted);
      s := Swapped(s, j - step, j);
      fmap[j - step] := fmap[j];
      assert fmap[..] == a[j - step := a[j]];
      j := j + step;
      if j <= hi {
        NamesAt(s, e, j);
        ButAtRead(fmap[..], s, j - step, j);
      }
    }
    ButAtEnds(fmap[..], s, j - step);
    ghost var a := fmap[..];
    fmap[j - step] := tmp;
    assert fmap[..] == a[j - step := tmp];
    if sorted { HoleSettles(s, e, i, hi, j - step); }
  }

  lemma HoleIsFirst(s: seq<int>, e: seq<int>, i: int, hi: int)
    requires Names(s, e) && 0 <= i <= hi < |s| && SortedSegment(s, e, i + 1, hi)
    ensures SortedBut(s, e, i, hi, i)
  {
  }

  lemma NamesAt(s: seq<int>, e: seq<int>, i: int)
    requires Names(s, e) && 0 <= i < |s|
    ensures 0 <= s[i] < |e|
  {
  }

  lemma SameRearranged(s: seq<int>, lo: int, hi: int)
    ensures Rearranged(s, s, lo, hi)
  {
  }

  lemma HoleStep(f0: seq<int>, s: seq<int>, e: seq<int>, i: int, hi: int, hole: int, j: int, sorted: bool)
    requires 0 <= i <= hole < j <= hi < |s| && Rearranged(f0, s, i, hi) && Names(s, e)
    requires sorted ==> j == hole + 1 && SortedBut(s, e, i, hi, hole) && Class(s, e, hole) > Class(s, e, j)
    ensures Rearranged(f0, Swapped(s, hole, j), i, hi) && Names(Swapped(s, hole, j), e)
    ensures sorted ==> SortedBut(Swapped(s, hole, j), e, i, hi, j)
  {
    SwapRearranges(s, hole, j, i, hi);
    RearrangedNames(s, Swapped(s, hole, j), e, i, hi);
    RearrangedTrans(f0, s, Swapped(s, hole, j), i, hi);
    if sorted { HoleMoves(s, e, i, hi, hole); }
  }

  /** fallbackSimpleSort: a stride-4 pass, then plain insertion. */
  method SimpleSort(fmap: array<int>, eclass: array<int>, lo: int, hi: int)
    requires fmap != eclass && 0 <= lo && hi < fmap.Length && Names(fmap[..], eclass[..])
    modifies fmap
    ensures Rearranged(old(fmap[..]), fmap[..], lo, hi) && Names(fmap[..], eclass[..])
    ensures SortedSegment(fmap[..], eclass[..], lo, hi)
  {
    hide Rearranged, Names;
    ghost var f0 := fmap[..];
    SameRearranged(f0, lo, hi);
    if lo == hi { return; }
    var i;
    if hi - lo > 3 {
      i := hi - 4;
      while i >= lo
        invariant lo - 1 <= i && Rearranged(f0, fmap[..], lo, hi) && Names(fmap[..], eclass[..])
      {
        ghost var s := fmap[..];
        InsertRight(fmap, eclass, i, hi, 4);
        RearrangedWider(s, fmap[..], i, hi, lo, hi);
        RearrangedTrans(f0, s, fmap[..], lo, hi);
        i := i - 1;
      }
    }
    i := hi - 1;
    while i >= lo
      invariant Rearranged(f0, fmap[..], lo, hi) && Names(fmap[..], eclass[..])
      invariant hi < lo || (lo - 1 <= i && SortedSegment(fmap[..], eclass[..], i + 1, hi))
    {
      ghost var s := fmap[..];
      InsertRight(fmap, eclass, i, hi, 1);
      RearrangedWider(s, fmap[..], i, hi, lo, hi);
      RearrangedTrans(f0, s, fmap[..], lo, hi);
      i := i - 1;
    }
  }

  // ---- three-way partitioning ----

  /** All classes in p..q are related to the pivot as the sign says. */
  ghost predicate AllLess(s: seq<int>, e: seq<int>, p: int, q: int, med: int)
    requires Names(s, e) && 0 <= p && q < |s|
  {
    forall k :: p <= k <= q ==> Class(s, e, k) < med
  }

  ghost predicate AllEqual(s: seq<int>, e: seq<int>, p: int, q: int, med: int)
    requires Names(s, e) && 0 <= p && q < |s|
  {
    forall k :: p <= k <= q ==> Class(s, e, k) == med
  }

  ghost predicate AllGreater(s: seq<int>, e: seq<int>, p: int, q: int, med: int)
    requires Names(s, e) && 0 <= p && q < |s|
  {
    forall k :: p <= k <= q ==> Class(s, e, k) > med
  }

  /** Equal classes gather at both ends, smaller and larger ones next to them. */
  ghost predicate Splitting(s: seq<int>, e: seq<int>, lo: int, hi: int, ltLo: int, unLo: int, unHi: int, gtHi: int,
      med: int) {
    && Names(s, e) && 0 <= lo <= ltLo <= unLo <= hi + 1 && hi < |s| && lo - 1 <= unHi <= gtHi <= hi && unLo <= unHi + 1
    && AllEqual(s, e, lo, ltLo - 1, med) && AllLess(s, e, ltLo, unLo - 1, med)
    && AllGreater(s, e, unHi + 1, gtHi, med) && AllEqual(s, e, gtHi + 1, hi, med)
  }

  lemma EqualLow(s: seq<int>, e: seq<int>, lo: int, hi: int, ltLo: int, unLo: int, unHi: int, gtHi: int, med: int)
    requires Splitting(s, e, lo, hi, ltLo, unLo, unHi, gtHi, med) && unLo <= unHi && Class(s, e, unLo) == med
    ensures Splitting(Swapped(s, unLo, ltLo), e, lo, hi, ltLo + 1, unLo + 1, unHi, gtHi, med)
  {
    var t := Swapped(s, unLo, ltLo);
    assert Names(t, e);
    forall k | ltLo + 1 <= k <= unLo ensures Class(t, e, k) < med {
      assert Class(s, e, if k == unLo then ltLo else k) < med || ltLo == unLo;
    }
    forall k | lo <= k <= ltLo ensures Class(t, e, k) == med {
      if k < ltLo { assert Class(s, e, k) == med; }
    }
    forall k | unHi + 1 <= k <= gtHi ensures Class(t, e, k) > med { assert Class(s, e, k) > med; }
    forall k | gtHi + 1 <= k <= hi ensures Class(t, e, k) == med { assert Class(s, e, k) == med; }
  }

  lemma EqualHigh(s: seq<int>, e: seq<int>, lo: int, hi: int, ltLo: int, unLo: int, unHi: int, gtHi: int, med: int)
    requires Splitting(s, e, lo, hi, ltLo, unLo, unHi, gtHi, med) && unLo <= unHi && Class(s, e, unHi) == med
    ensures Splitting(Swapped(s, unHi, gtHi), e, lo, hi, ltLo, unLo, unHi - 1, gtHi - 1, med)
  {
    var t := Swapped(s, unHi, gtHi);
    assert Names(t, e);
    forall k | unHi <= k <= gtHi - 1 ensures Class(t, e, k) > med {
      assert Class(s, e, if k == unHi then gtHi else k) > med || unHi == gtHi;
    }
    forall k | gtHi <= k <= hi ensures Class(t, e, k) == med {
      if k > gtHi { assert Class(s, e, k) == med; }
    }
    forall k | ltLo <= k <= unLo - 1 ensures Class(t, e, k) < med { assert Class(s, e, k) < med; }
    forall k | lo <= k <= ltLo - 1 ensures Class(t, e, k) == med { assert Class(s, e, k) == med; }
  }

  lemma ExchangeEnds(s: seq<int>, e: seq<int>, lo: int, hi: int, ltLo: int, unLo: int, unHi: int, gtHi: int, med: int)
    requires Splitting(s, e, lo, hi, ltLo, unLo, unHi, gtHi, med) && unLo < unHi
    requires Class(s, e, unLo) > med && Class(s, e, unHi) < med
    ensures Splitting(Swapped(s, unLo, unHi), e, lo, hi, ltLo, unLo + 1, unHi - 1, gtHi, med)
  {
    var t := Swapped(s, unLo, unHi);
    assert Names(t, e);
    forall k | lo <= k <= ltLo - 1 ensures Class(t, e, k) == med { assert Class(s, e, k) == med; }
    forall k | ltLo <= k <= unLo ensures Class(t, e, k) < med { if k < unLo { assert Class(s, e, k) < med; } }
    forall k | unHi <= k <= gtHi ensures Class(t, e, k) > med { if k > unHi { assert Class(s, e, k) > med; } }
    forall k | gtHi + 1 <= k <= hi ensures Class(t, e, k) == med { assert Class(s, e, k) == med; }
  }

  lemma LessLow(s: seq<int>, e: seq<int>, lo: int, hi: int, ltLo: int, unLo: int, unHi: int, gtHi: int, med: int)
    requires Splitting(s, e, lo, hi, ltLo, unLo, unHi, gtHi, med) && unLo <= unHi
    ensures 0 <= unLo && unHi < |s| && Names(s, e)
    ensures Class(s, e, unLo) < med ==> Splitting(s, e, lo, hi, ltLo, unLo + 1, unHi, gtHi, med)
    ensures Class(s, e, unHi) > med ==> Splitting(s, e, lo, hi, ltLo, unLo, unHi - 1, gtHi, med)
  {
  }

  /** key, read d places on, is the class table e. */
  ghost predicate Keyed(key: seq<int>, d: int, e: seq<int>) {
    0 <= d && |e| + d <= |key| && forall x :: 0 <= x < |e| ==> key[x + d] == e[x]
  }

  lemma KeyedAt(key: seq<int>, d: int, e: seq<int>, x: int)
    requires Keyed(key, d, e) && 0 <= x < |e|
    ensures 0 <= x + d < |key| && key[x + d] == e[x]
  {
  }

  /** The first inner loop: moves unLo up to an element above the pivot. */
  method ScanUp(fmap: array<int>, key: array<int>, d: int, ghost e: seq<int>, ghost lo: int, ghost hi: int, ltLo0: int,
      unLo0: int, unHi: int, ghost gtHi: int, med: int)
    returns (ltLo: int, unLo: int)
    requires fmap != key && Keyed(key[..], d, e) && Splitting(fmap[..], e, lo, hi, ltLo0, unLo0, unHi, gtHi, med)
    modifies fmap
    ensures Splitting(fmap[..], e, lo, hi, ltLo, unLo, unHi, gtHi, med)
    ensures Rearranged(old(fmap[..]), fmap[..], lo, hi)
    ensures unLo0 <= unLo && (unLo <= unHi ==> Class(fmap[..], e, unLo) > med)
  {
    hide Splitting, Rearranged, Names, Swapped, Keyed;
    ghost var f0 := fmap[..];
    ltLo, unLo := ltLo0, unLo0;
    SameRearranged(f0, lo, hi);
    while true
      invariant Splitting(fmap[..], e, lo, hi, ltLo, unLo, unHi, gtHi, med) && Rearranged(f0, fmap[..], lo, hi)
      invariant unLo0 <= unLo
      decreases unHi - unLo
    {
      if unLo > unHi { break; }
      ghost var s := fmap[..];
      LessLow(s, e, lo, hi, ltLo, unLo, unHi, gtHi, med);
      SplitBounds(s, e, lo, hi, ltLo, unLo, unHi, gtHi, med);
      KeyedAt(key[..], d, e, fmap[unLo]);
      var n := key[fmap[unLo] + d] - med;
      if n == 0 {
        EqualLow(s, e, lo, hi, ltLo, unLo, unHi, gtHi, med);
        Swap(fmap, unLo, ltLo, lo, hi);
        RearrangedTrans(f0, s, fmap[..], lo, hi);
        ltLo, unLo := ltLo + 1, unLo + 1;
        continue;
      }
      if n > 0 { break; }
      unLo := unLo + 1;
    }
  }

  lemma SplitBounds(s: seq<int>, e: seq<int>, lo: int, hi: int, ltLo: int, unLo: int, unHi: int, gtHi: int, med: int)
    requires Splitting(s, e, lo, hi, ltLo, unLo, unHi, gtHi, med) && unLo <= unHi
    ensures Names(s, e) && 0 <= lo <= ltLo <= unLo <= unHi <= gtHi <= hi < |s|
    ensures 0 <= s[unLo] < |e| && 0 <= s[unHi] < |e|
  {
  }

  lemma ElsewhereSame(s: seq<int>, e: seq<int>, i: int, j: int, k: int)
    requires Names(s, e) && 0 <= i < |s| && 0 <= j < |s| && 0 <= k < |s| && k != i && k != j
    ensures Names(Swapped(s, i, j), e) && Class(Swapped(s, i, j), e, k) == Class(s, e, k)
  {
  }

  method ScanDown(fmap: array<int>, key: array<int>, d: int, ghost e: seq<int>, ghost lo: int, ghost hi: int,
      ghost ltLo: int, unLo: int, unHi0: int, gtHi0: int, med: int)
    returns (unHi: int, gtHi: int)
    requires fmap != key && Keyed(key[..], d, e) && Splitting(fmap[..], e, lo, hi, ltLo, unLo, unHi0, gtHi0, med)
    requires unLo <= unHi0 ==> Class(fmap[..], e, unLo) > med
    modifies fmap
    ensures Splitting(fmap[..], e, lo, hi, ltLo, unLo, unHi, gtHi, med)
    ensures Rearranged(old(fmap[..]), fmap[..], lo, hi)
    ensures unHi <= unHi0
    ensures unLo <= unHi ==> unLo < unHi && Class(fmap[..], e, unHi) < med && Class(fmap[..], e, unLo) > med
  {
    hide Splitting, Rearranged, Names, Keyed, Swapped;
    ghost var f0 := fmap[..];
    unHi, gtHi := unHi0, gtHi0;
    SameRearranged(f0, lo, hi);
    if unLo <= unHi { SplitBounds(f0, e, lo, hi, ltLo, unLo, unHi, gtHi, med); }
    while true
      invariant Splitting(fmap[..], e, lo, hi, ltLo, unLo, unHi, gtHi, med) && Rearranged(f0, fmap[..], lo, hi)
      invariant unHi <= unHi0
      invariant unLo <= unHi ==> Names(fmap[..], e) && 0 <= unLo < fmap.Length && Class(fmap[..], e, unLo) > med
      decreases unHi - unLo
    {
      if unLo > unHi { break; }
      ghost var s := fmap[..];
      LessLow(s, e, lo, hi, ltLo, unLo, unHi, gtHi, med);
      SplitBounds(s, e, lo, hi, ltLo, unLo, unHi, gtHi, med);
      KeyedAt(key[..], d, e, fmap[unHi]);
      var n := key[fmap[unHi] + d] - med;
      if n == 0 {
        EqualHigh(s, e, lo, hi, ltLo, unLo, unHi, gtHi, med);
        Swap(fmap, unHi, gtHi, lo, hi);
        RearrangedTrans(f0, s, fmap[..], lo, hi);
        RearrangedNames(s, fmap[..], e, lo, hi);
        if unLo < unHi { ElsewhereSame(s, e, unHi, gtHi, unLo); }
        unHi, gtHi := unHi - 1, gtHi - 1;
        continue;
      }
      if n < 0 { break; }
      unHi := unHi - 1;
    }
  }

  /** The whole scanning phase. */
  method Split(fmap: array<int>, key: array<int>, d: int, ghost e: seq<int>, lo: int, hi: int, med: int)
    returns (ltLo: int, unLo: int, unHi: int, gtHi: int)
    requires fmap != key && Keyed(key[..], d, e) && 0 <= lo <= hi < fmap.Length && Names(fmap[..], e)
    modifies fmap
    ensures Splitting(fmap[..], e, lo, hi, ltLo, unLo, unHi, gtHi, med) && unHi == unLo - 1
    ensures Rearranged(old(fmap[..]), fmap[..], lo, hi)
  {
    ghost var f0 := fmap[..];
    ltLo, unLo, unHi, gtHi := lo, lo, hi, hi;
    assert Splitting(f0, e, lo, hi, ltLo, unLo, unHi, gtHi, med);
    hide Splitting, Rearranged, Names, Swapped, Keyed;
    SameRearranged(f0, lo, hi);
    while true
      invariant Splitting(fmap[..], e, lo, hi, ltLo, unLo, unHi, gtHi, med) && Rearranged(f0, fmap[..], lo, hi)
      decreases unHi - unLo + 2
    {
      ghost var s0 := fmap[..];
      ltLo, unLo := ScanUp(fmap, key, d, e, lo, hi, ltLo, unLo, unHi, gtHi, med);
      ghost var s1 := fmap[..];
      RearrangedTrans(f0, s0, s1, lo, hi);
      unHi, gtHi := ScanDown(fmap, key, d, e, lo, hi, ltLo, unLo, unHi, gtHi, med);
      ghost var s2 := fmap[..];
      RearrangedTrans(f0, s1, s2, lo, hi);
      if unLo > unHi { break; }
      SplitBounds(s2, e, lo, hi, ltLo, unLo, unHi, gtHi, med);
      ExchangeEnds(s2, e, lo, hi, ltLo, unLo, unHi, gtHi, med);
      Swap(fmap, unLo, unHi, lo, hi);
      RearrangedTrans(f0, s2, fmap[..], lo, hi);
      unLo, unHi := unLo + 1, unHi - 1;
    }
    SplitMet(fmap[..], e, lo, hi, ltLo, unLo, unHi, gtHi, med);
  }

  lemma SplitMet(s: seq<int>, e: seq<int>, lo: int, hi: int, ltLo: int, unLo: int, unHi: int, gtHi: int, med: int)
    requires Splitting(s, e, lo, hi, ltLo, unLo, unHi, gtHi, med) && unLo > unHi
    ensures unHi == unLo - 1
  {
  }
}

/** mainSimpleSort: a shell sort of rows that share their first d bytes, within a budget. */
module ShellSort {
  import opened Bytes
  import opened Permutations
  import opened PrefixOrder
  import opened RotationOrder
  import opened SegmentSort
  import opened MainCompare

  /** Rows lo..hi agree in their first d bytes. */
  ghost predicate Shares(b: seq<Byte>, s: seq<int>, lo: int, hi: int, d: nat)
    requires InRange(s, |b|)
  {
    forall p, q :: lo <= p <= hi && lo <= q <= hi && 0 <= p < |s| && 0 <= q < |s| ==> SamePrefix(b, s[p], s[q], d)
  }

  lemma {:induction false} SharesRearranged(b: seq<Byte>, s: seq<int>, t: seq<int>, lo: int, hi: int, d: nat)
    requires InRange(s, |b|) && InRange(t, |b|) && Rearranged(s, t, lo, hi) && 0 <= lo && hi < |s|
        && Shares(b, s, lo, hi, d)
    ensures Shares(b, t, lo, hi, d)
  {
    hide SamePrefix, Prefix;
    forall p, q | lo <= p <= hi && lo <= q <= hi ensures SamePrefix(b, t[p], t[q], d) {
      var p0 := RearrangedSource(s, t, lo, hi, p);
      var q0 := RearrangedSource(s, t, lo, hi, q);
      assert SamePrefix(b, s[p0], s[q0], d);
    }
  }

  /** Rows that share d bytes compare as they do d places on. */
  lemma {:induction false} DeepLevel(b: seq<Byte>, u: seq<int>, x: int, y: int, d: nat)
    requires Ranked(b, u) && 0 <= x < |b| && 0 <= y < |b| && d < |b| && SamePrefix(b, x, y, d)
    ensures Level(b, u, x, y, d, x + d, y + d)
    decreases d
  {
    hide Prefix, Ranked;
    RankedSize(b, u);
    if d == 0 {
      LevelStart(b, u, x, y);
    } else {
      PrefixSnoc(b, x, d - 1);
      PrefixSnoc(b, y, d - 1);
      var p, q := Prefix(b, x, d), Prefix(b, y, d);
      assert p[..d - 1] == Prefix(b, x, d - 1) && q[..d - 1] == Prefix(b, y, d - 1);
      assert p[d - 1] == b[Walk(x, d - 1, |b|)] && q[d - 1] == b[Walk(y, d - 1, |b|)];
      DeepLevel(b, u, x, y, d - 1);
      LevelEqual(b, u, x, y, d - 1, x + d - 1, y + d - 1);
    }
  }

  /** One comparison of two rows from depth d. */
  method RowGtU(x: int, y: int, d: int, block: array<int>, quadrant: array<int>, nblock: int, budget0: int,
      ghost b: seq<Byte>, ghost u: seq<int>)
    returns (gt: bool, budget: int)
    requires nblock == |b| && Comparing(b, u, block[..], quadrant[..]) && 0 <= d <= MAX_DEPTH
    requires 0 <= x < nblock && 0 <= y < nblock && SamePrefix(b, x, y, d)
    ensures |u| == |b| && (gt ==> u[y] <= u[x]) && (!gt ==> u[x] <= u[y]) && budget <= budget0
  {
    hide Ranked, Comparing, Prefix, Walk, SamePrefix;
    ComparingSizes(b, u, block[..], quadrant[..]);
    DeepLevel(b, u, x, y, d);
    gt, budget := GtU(x + d, y + d, block, quadrant, nblock, budget0, b, u);
  }

  // ---- insertion from the left ----

  /** Rows lo..hi in order but for the hole, which is not after anything to its right. */
  ghost predicate SortedButHole(s: seq<int>, e: seq<int>, lo: int, hi: int, hole: int)
    requires Names(s, e) && 0 <= lo <= hole <= hi < |s|
  {
    && (forall p, q :: lo <= p < q <= hi && p != hole && q != hole ==> Class(s, e, p) <= Class(s, e, q))
    && (forall q :: hole < q <= hi ==> Class(s, e, hole) <= Class(s, e, q))
  }

  lemma HoleStart(s: seq<int>, e: seq<int>, lo: int, i: int)
    requires Names(s, e) && 0 <= lo <= i < |s| && SortedSegment(s, e, lo, i - 1)
    ensures SortedButHole(s, e, lo, i, i)
  {
  }

  lemma HoleLeft(s: seq<int>, e: seq<int>, lo: int, hi: int, hole: int)
    requires Names(s, e) && 0 <= lo < hole <= hi < |s| && SortedButHole(s, e, lo, hi, hole)
    requires Class(s, e, hole) <= Class(s, e, hole - 1)
    ensures Names(Swapped(s, hole, hole - 1), e) && SortedButHole(Swapped(s, hole, hole - 1), e, lo, hi, hole - 1)
  {
    var t := Swapped(s, hole, hole - 1);
    assert Names(t, e);
    forall p, q | lo <= p < q <= hi && p != hole - 1 && q != hole - 1 ensures Class(t, e, p) <= Class(t, e, q) {
      var p0, q0 := if p == hole then hole - 1 else p, if q == hole then hole - 1 else q;
      assert Class(s, e, p0) <= Class(s, e, q0);
    }
    forall q | hole - 1 < q <= hi ensures Class(t, e, hole - 1) <= Class(t, e, q) {
      if q > hole { assert Class(s, e, hole) <= Class(s, e, q); }
    }
  }

  lemma HoleEnds(s: seq<int>, e: seq<int>, lo: int, hi: int, hole: int)
    requires Names(s, e) && 0 <= lo <= hole <= hi < |s| && SortedButHole(s, e, lo, hi, hole)
    requires lo < hole ==> Class(s, e, hole - 1) <= Class(s, e, hole)
    ensures SortedSegment(s, e, lo, hi)
  {
    forall p, q | lo <= p < q <= hi ensures Class(s, e, p) <= Class(s, e, q) {
      if q == hole && p < hole - 1 { assert Class(s, e, p) <= Class(s, e, hole - 1); }
    }
  }

  /** What the insertions keep: the rows of lo..hi, whatever their order. */
  ghost predicate Keeping(b: seq<Byte>, u: seq<int>, f0: seq<int>, s: seq<int>, lo: int, hi: int, d: nat) {
    && |u| == |b| && InRange(s, |b|) && Rearranged(f0, s, lo, hi) && 0 <= lo <= hi < |s| && Shares(b, s, lo, hi, d)
  }

  lemma {:induction false} KeepSwap(b: seq<Byte>, u: seq<int>, f0: seq<int>, s: seq<int>, lo: int, hi: int, d: nat,
      i: int, j: int)
    requires Keeping(b, u, f0, s, lo, hi, d) && lo <= i <= hi && lo <= j <= hi
    ensures Keeping(b, u, f0, Swapped(s, i, j), lo, hi, d)
  {
    hide SamePrefix, Rearranged, Shares;
    var t := Swapped(s, i, j);
    SwapRearranges(s, i, j, lo, hi);
    RearrangedNames(s, t, u, lo, hi);
    SharesRearranged(b, s, t, lo, hi, d);
    RearrangedTrans(f0, s, t, lo, hi);
  }

  lemma KeepingParts(b: seq<Byte>, u: seq<int>, f0: seq<int>, s: seq<int>, lo: int, hi: int, d: nat, p: int, q: int)
    requires Keeping(b, u, f0, s, lo, hi, d) && lo <= p <= hi && lo <= q <= hi
    ensures |u| == |b| && Names(s, u) && hi < |s| && 0 <= s[p] < |b| && 0 <= s[q] < |b| && SamePrefix(b, s[p], s[q], d)
  {
    hide SamePrefix, Rearranged;
  }

  /** Row i is moved left in steps of h to its place. */
  method Insert(ptr: array<int>, block: array<int>, quadrant: array<int>, nblock: int, lo: int, hi: int, d: int, i: int,
      h: int, budget0: int, ghost b: seq<Byte>, ghost u: seq<int>, ghost f0: seq<int>)
    returns (budget: int)
    requires ptr != block && ptr != quadrant && nblock == |b| && Comparing(b, u, block[..], quadrant[..])
        && 0 <= d <= MAX_DEPTH
    requires Keeping(b, u, f0, ptr[..], lo, hi, d) && 1 <= h && 0 <= lo && lo + h <= i <= hi < ptr.Length
    modifies ptr
    ensures Keeping(b, u, f0, ptr[..], lo, hi, d) && Names(ptr[..], u) && old(Names(ptr[..], u)) && budget <= budget0
    ensures h == 1 && old(SortedSegment(ptr[..], u, lo, i - 1)) ==> SortedSegment(ptr[..], u, lo, i)
  {
    hide Keeping, Comparing, Ranked, SamePrefix, Rearranged, Names, ButAt, Swapped, SortedSegment, SortedButHole;
    ghost var s := ptr[..];
    budget := budget0;
    KeepingParts(b, u, f0, s, lo, hi, d, i, i);
    ghost var sorted := h == 1 && SortedSegment(s, u, lo, i - 1);
    if sorted { HoleStart(s, u, lo, i); }
    ButAtStart(s, i);
    var v := ptr[i];
    var j := i;
    while true
      invariant lo + h <= j <= i && |s| == ptr.Length && s[j] == v && budget <= budget0 && ButAt(ptr[..], s, j)
      invariant Keeping(b, u, f0, s, lo, hi, d) && Names(s, u) && i < |s|
      invariant sorted ==> SortedButHole(s, u, lo, i, j)
      decreases j
    {
      KeepingParts(b, u, f0, s, lo, hi, d, j - h, j);
      ButAtRead(ptr[..], s, j, j - h);
      var gt;
      gt, budget := RowGtU(ptr[j - h], v, d, block, quadrant, nblock, budget, b, u);
      if !gt {
        if sorted { HoleEnds(s, u, lo, i, j); }
        break;
      }
      ghost var t, a := Swapped(s, j, j - h), ptr[..];
      KeepSwap(b, u, f0, s, lo, hi, d, j, j - h);
      ButAtMoves(a, s, j, j - h);
      if sorted { HoleLeft(s, u, lo, i, j); }
      KeepingParts(b, u, f0, t, lo, hi, d, j, j);
      s := t;
      ptr[j] := ptr[j - h];
      assert ptr[..] == a[j := a[j - h]];
      j := j - h;
      if j <= lo + h - 1 {
        if sorted { HoleEnds(s, u, lo, i, j); }
        break;
      }
    }
    ButAtEnds(ptr[..], s, j);
    ghost var a := ptr[..];
    ptr[j] := v;
    assert ptr[..] == a[j := v];
  }

  const INCS: seq<int> := [1, 4, 13, 40, 121, 364, 1093, 3280, 9841, 29524, 88573, 265720, 797161, 2391484]

  lemma IncsPositive(hp: int)
    requires 0 <= hp < 14
    ensures |INCS| == 14 && 1 <= INCS[hp] && INCS[0] == 1 && INCS[13] == 2391484
  {
  }

  /** All insertions for one increment; the budget is looked at after every third one. */
  method OnePass(ptr: array<int>, block: array<int>, quadrant: array<int>, nblock: int, lo: int, hi: int, d: int,
      h: int, budget0: int, ghost b: seq<Byte>, ghost u: seq<int>, ghost f0: seq<int>)
    returns (budget: int, stop: bool)
    requires ptr != block && ptr != quadrant && nblock == |b| && Comparing(b, u, block[..], quadrant[..])
        && 0 <= d <= MAX_DEPTH
    requires Keeping(b, u, f0, ptr[..], lo, hi, d) && 1 <= h && 0 <= lo <= hi < ptr.Length
    modifies ptr
    ensures Keeping(b, u, f0, ptr[..], lo, hi, d) && Names(ptr[..], u) && budget <= budget0 && (stop ==> budget < 0)
    ensures h == 1 && !stop ==> SortedSegment(ptr[..], u, lo, hi)
  {
    hide Keeping, Comparing, Names, Rearranged;
    budget := budget0;
    KeepingParts(b, u, f0, ptr[..], lo, hi, d, lo, lo);
    var i := lo + h;
    while true
      invariant lo + h <= i && Keeping(b, u, f0, ptr[..], lo, hi, d) && Names(ptr[..], u) && budget <= budget0
      invariant h == 1 ==> i <= hi + 1 && SortedSegment(ptr[..], u, lo, i - 1)
      decreases hi + 1 - i
    {
      ghost var i0 := i;
      var copies := 0;
      while copies < 3 && i <= hi
        invariant 0 <= copies <= 3 && lo + h <= i && Keeping(b, u, f0, ptr[..], lo, hi, d) && Names(ptr[..], u)
            && budget <= budget0
        invariant h == 1 ==> i <= hi + 1 && SortedSegment(ptr[..], u, lo, i - 1)
        invariant i == i0 + copies && (copies > 0 ==> i <= hi + 1)
        decreases hi - i
      {
        budget := Insert(ptr, block, quadrant, nblock, lo, hi, d, i, h, budget, b, u, f0);
        i, copies := i + 1, copies + 1;
      }
      if copies < 3 { return budget, false; }
      if budget < 0 { return budget, true; }
    }
  }

  /** mainSimpleSort */
  method MainSimpleSort(ptr: array<int>, block: array<int>, quadrant: array<int>, nblock: int, lo: int, hi: int, d: int,
      budget0: int, ghost b: seq<Byte>, ghost u: seq<int>)
    returns (budget: int)
    requires ptr != block && ptr != quadrant && nblock == |b| <= 900_000 && Comparing(b, u, block[..], quadrant[..])
        && 0 <= d <= MAX_DEPTH
    requires |u| == |b| && ptr.Length == nblock && InRange(ptr[..], nblock) && 0 <= lo && hi < nblock
    requires Shares(b, ptr[..], lo, hi, d)
    modifies ptr
    ensures Rearranged(old(ptr[..]), ptr[..], lo, hi) && Names(ptr[..], u) && budget <= budget0
    ensures budget >= 0 ==> SortedSegment(ptr[..], u, lo, hi)
  {
    hide Keeping, Comparing, Rearranged, Shares, SortedSegment;
    ghost var f0 := ptr[..];
    budget := budget0;
    SameRearranged(f0, lo, hi);
    var bigN := hi - lo + 1;
    if bigN < 2 {
      ShortSorted(f0, u, lo, hi);
      return;
    }
    KeepingStart(b, u, f0, lo, hi, d);
    var hp := 0;
    IncsPositive(0);
    while INCS[hp] < bigN
      invariant 0 <= hp < 14
      decreases 14 - hp
    {
      hp := hp + 1;
    }
    hp := hp - 1;
    while hp >= 0
      invariant -1 <= hp < 14 && Keeping(b, u, f0, ptr[..], lo, hi, d) && Names(ptr[..], u) && budget <= budget0
      invariant hp == -1 ==> SortedSegment(ptr[..], u, lo, hi)
    {
      IncsPositive(hp);
      var stop;
      budget, stop := OnePass(ptr, block, quadrant, nblock, lo, hi, d, INCS[hp], budget, b, u, f0);
      KeepingRearranged(b, u, f0, ptr[..], lo, hi, d);
      if stop { return; }
      hp := hp - 1;
    }
    KeepingRearranged(b, u, f0, ptr[..], lo, hi, d);
  }

  lemma ShortSorted(s: seq<int>, e: seq<int>, lo: int, hi: int)
    requires Names(s, e) && 0 <= lo && hi < |s| && hi <= lo
    ensures SortedSegment(s, e, lo, hi)
  {
  }

  lemma KeepingStart(b: seq<Byte>, u: seq<int>, s: seq<int>, lo: int, hi: int, d: nat)
    requires |u| == |b| && InRange(s, |b|) && 0 <= lo <= hi < |s| && Shares(b, s, lo, hi, d)
    ensures Keeping(b, u, s, s, lo, hi, d)
  {
    hide Shares;
    SameRearranged(s, lo, hi);
  }

  lemma KeepingRearranged(b: seq<Byte>, u: seq<int>, f0: seq<int>, s: seq<int>, lo: int, hi: int, d: nat)
    requires Keeping(b, u, f0, s, lo, hi, d)
    ensures Rearranged(f0, s, lo, hi)
  {
  }
}

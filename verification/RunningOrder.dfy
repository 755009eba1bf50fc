/** The order in which mainSort takes the big buckets: a shell sort by their sizes. */
module RunningOrder {
  import opened Permutations
  import opened SegmentSort
  import opened ShellSort
  import opened FallbackRounds

  /** Sizes of the 256 big buckets. */
  ghost function BigFreqs(start: seq<int>): (e: seq<int>)
    requires |start| == 65537
    ensures |e| == 256 && forall c :: 0 <= c < 256 ==> e[c] == start[256 * c + 256] - start[256 * c]
  {
    seq(256, c requires 0 <= c < 256 => start[256 * c + 256] - start[256 * c])
  }

  method BigFreq(ftab: array<int>, c: int) returns (f: int)
    requires ftab.Length == 65537 && 0 <= c < 256
    ensures f == BigFreqs(ftab[..])[c]
  {
    f := ftab[256 * c + 256] - ftab[256 * c];
  }

  ghost predicate Arranged(f0: seq<int>, s: seq<int>, e: seq<int>) {
    Rearranged(f0, s, 0, 255) && Names(s, e) && |s| == |e| == 256
  }

  lemma ArrangedSwap(f0: seq<int>, s: seq<int>, e: seq<int>, i: int, j: int)
    requires Arranged(f0, s, e) && 0 <= i < 256 && 0 <= j < 256
    ensures Arranged(f0, Swapped(s, i, j), e)
  {
    hide Rearranged;
    SwapRearranges(s, i, j, 0, 255);
    RearrangedNames(s, Swapped(s, i, j), e, 0, 255);
    RearrangedTrans(f0, s, Swapped(s, i, j), 0, 255);
  }

  /** Entry i is moved left in steps of h past the larger buckets. */
  method InsertBucket(runningOrder: array<int>, ftab: array<int>, h: int, i: int, ghost f0: seq<int>)
    requires runningOrder != ftab && ftab.Length == 65537 && 1 <= h <= i < 256
    requires Arranged(f0, runningOrder[..], BigFreqs(ftab[..]))
    modifies runningOrder
    ensures Arranged(f0, runningOrder[..], BigFreqs(ftab[..])) && old(Names(runningOrder[..], BigFreqs(ftab[..])))
    ensures h == 1 && old(SortedSegment(runningOrder[..], BigFreqs(ftab[..]), 0, i - 1)) ==>
      SortedSegment(runningOrder[..], BigFreqs(ftab[..]), 0, i)
  {
    hide Rearranged;
    ghost var s, e := runningOrder[..], BigFreqs(ftab[..]);
    ghost var sorted := h == 1 && SortedSegment(s, e, 0, i - 1);
    if sorted { HoleStart(s, e, 0, i); }
    var vv := runningOrder[i];
    var fv := BigFreq(ftab, vv);
    var j := i;
    while true
      invariant h <= j <= i && |s| == 256 && s[j] == vv && Arranged(f0, s, e) && fv == e[vv]
      invariant forall k :: 0 <= k < 256 && k != j ==> runningOrder[k] == s[k]
      invariant sorted ==> SortedButHole(s, e, 0, i, j)
      decreases j
    {
      var f := BigFreq(ftab, runningOrder[j - h]);
      if !(f > fv) {
        if sorted { HoleEnds(s, e, 0, i, j); }
        break;
      }
      ghost var t := Swapped(s, j, j - h);
      ArrangedSwap(f0, s, e, j, j - h);
      if sorted { HoleLeft(s, e, 0, i, j); }
      s := t;
      runningOrder[j] := runningOrder[j - h];
      j := j - h;
      if j <= h - 1 {
        if sorted { HoleEnds(s, e, 0, i, j); }
        break;
      }
    }
    runningOrder[j] := vv;
    assert runningOrder[..] == s;
  }

  /** Every big bucket once, from smallest to largest. */
  method MakeRunningOrder(ftab: array<int>) returns (runningOrder: array<int>)
    requires ftab.Length == 65537
    ensures fresh(runningOrder) && runningOrder.Length == 256 && IsPermutation(runningOrder[..], 256)
    ensures SortedSegment(runningOrder[..], BigFreqs(ftab[..]), 0, 255)
  {
    hide Rearranged, Arranged, SortedSegment, Names, Distinct;
    runningOrder := new int[256];
    for i := 0 to 256
      invariant forall k :: 0 <= k < i ==> runningOrder[k] == k
    {
      runningOrder[i] := i;
    }
    ghost var f0, e := runningOrder[..], BigFreqs(ftab[..]);
    IdentityArranged(f0, e);
    var h := 1;
    while true
      invariant h in {1, 4, 13, 40, 121}
      decreases 256 - h
    {
      h := 3 * h + 1;
      if h > 256 { break; }
    }
    ArrangedParts(f0, f0, e);
    while true
      invariant h in {4, 13, 40, 121, 364} && Arranged(f0, runningOrder[..], e) && Names(runningOrder[..], e)
      decreases h
    {
      h := h / 3;
      SingleSorted(runningOrder[..], e);
      for i := h to 256
        modifies runningOrder
        invariant h <= 256 ==> Arranged(f0, runningOrder[..], e) && Names(runningOrder[..], e)
        invariant h == 1 ==> SortedSegment(runningOrder[..], e, 0, i - 1)
      {
        InsertBucket(runningOrder, ftab, h, i, f0);
        ArrangedParts(f0, runningOrder[..], e);
      }
      if h == 1 { break; }
    }
    ArrangedPermutes(f0, runningOrder[..], e);
  }

  lemma IdentityArranged(f0: seq<int>, e: seq<int>)
    requires |f0| == |e| == 256 && forall k :: 0 <= k < 256 ==> f0[k] == k
    ensures Arranged(f0, f0, e) && IsPermutation(f0, 256)
  {
    SameRearranged(f0, 0, 255);
  }

  lemma ArrangedParts(f0: seq<int>, s: seq<int>, e: seq<int>)
    requires Arranged(f0, s, e)
    ensures Names(s, e) && |s| == |e| == 256
  {
    hide Rearranged;
  }

  lemma SingleSorted(s: seq<int>, e: seq<int>)
    requires Names(s, e) && |s| == 256
    ensures SortedSegment(s, e, 0, 0)
  {
  }

  lemma ArrangedPermutes(f0: seq<int>, s: seq<int>, e: seq<int>)
    requires Arranged(f0, s, e) && IsPermutation(f0, 256)
    ensures IsPermutation(s, 256)
  {
    hide Rearranged;
    RearrangedIsPermutation(f0, s, 0, 255);
  }
}

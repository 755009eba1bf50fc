/** Step 2 of mainSort: the two scanning loops, assertion 1007, and what they achieve. */
module InducedResult {
  import opened Permutations
  import opened Rotations
  import opened InducedOrder
  import opened SmallBuckets
  import opened InducedScan
  import opened InducedSort
  import opened InducedRight

  /** Rows i..j-1 of p stand in rotation order. */
  ghost predicate RowsSorted(p: seq<int>, u: seq<int>, i: int, j: int) {
    InRange(p, |u|) && forall k, m :: 0 <= i <= k < m < j <= |p| ==> u[p[k]] <= u[p[m]]
  }

  /** Both scans are over. */
  ghost predicate ScansOver(z: Scene, p: seq<int>, cs: seq<int>, ce: seq<int>, l: seq<int>, r: seq<int>) {
    |ce| == 256 && 0 <= z.ss < 256 && RightState(z, p, cs, ce, l, r, ce[z.ss])
  }

  /** What is known of the right part then, as LeftOver says it of the left one. */
  ghost predicate RightOver(z: Scene, p: seq<int>, ce: seq<int>, r: seq<int>) {
    && Shape(z) && |ce| == 256 && |p| == |z.p0| && High(z, z.ss) <= Last(z)
    && RightList(z.b, z.u, r, z.ss, Last(z) - High(z, z.ss)) && AllFilledRight(z, p, ce, r)
    && r[..|r| - (Last(z) - High(z, z.ss))] == Preds(z.b, r, z.ss)
  }

  ghost predicate Outcome(z: Scene, p: seq<int>, cs: seq<int>, ce: seq<int>, l: seq<int>, r: seq<int>) {
    && LeftOver(z, p, cs, l) && RightOver(z, p, ce, r)
    && Listing(z, l + r) && (l == [] && r == [] ==> p == z.p0)
  }

  lemma {:induction false} ScansOutcome(z: Scene, p: seq<int>, cs: seq<int>, ce: seq<int>, l: seq<int>, r: seq<int>)
    requires ScansOver(z, p, cs, ce, l, r)
    ensures Outcome(z, p, cs, ce, l, r)
  {
    hide ValidScene, Preds, LeftList, AllFilledLeft, RestKept, RightList, AllFilledRight, RightState, Listing, Coherent,
        LeftOver;
    RightParts(z, p, cs, ce, l, r, ce[z.ss]);
    RightStateLeft(z, p, cs, ce, l, r, ce[z.ss]);
    assert r[0..] == r;
    SuffixListing(z, l, r, Low(z, z.ss) - First(z), Last(z) - High(z, z.ss), 0);
    LeftFixpoint(z, p, cs, l);
  }

  lemma LeftFixpoint(z: Scene, p: seq<int>, cs: seq<int>, l: seq<int>)
    requires LeftOver(z, p, cs, l)
    ensures 0 <= First(z) <= Low(z, z.ss) && InRange(l, |z.b|) && Low(z, z.ss) - First(z) <= |l|
    ensures l[Low(z, z.ss) - First(z)..] == Preds(z.b, l, z.ss)
    ensures Low(z, z.ss) <= |z.p0| && l[..Low(z, z.ss) - First(z)] == z.p0[First(z)..Low(z, z.ss)]
  {
    hide ValidScene, Preds, AllFilledLeft, RestKept;
  }

  /** The starting rows of both lists are all of their kind. */
  lemma {:induction false} StartsComplete(z: Scene, p: seq<int>, cs: seq<int>, ce: seq<int>, l: seq<int>, r: seq<int>)
    requires ScansOver(z, p, cs, ce, l, r)
    ensures forall y :: 0 <= y < |z.b| && z.b[y] == z.ss && z.b[Next(y, |z.b|)] < z.ss ==> y in l
    ensures forall y :: 0 <= y < |z.b| && z.b[y] == z.ss && z.b[Next(y, |z.b|)] > z.ss ==> y in r
  {
    hide Coherent, Grouped, LeftList, RightList, AllFilledLeft, AllFilledRight, Preds, Distinct, Ordered;
    SceneParts(z);
    SceneBounds(z);
    KnownRows(z, p, cs, ce, l, r);
    forall y | 0 <= y < |z.b| && z.b[y] == z.ss && z.b[Next(y, |z.b|)] < z.ss ensures y in l {
      KeyBytes(z.b, y, z.ss, z.ss);
      KeyBytes(z.b, y, z.ss, 0);
      var k := PlaceOfKey(z.b, z.start, z.p0, y, 256 * z.ss, 256 * z.ss + z.ss);
      assert l[k - First(z)] == y;
    }
    forall y | 0 <= y < |z.b| && z.b[y] == z.ss && z.b[Next(y, |z.b|)] > z.ss ensures y in r {
      KeyBytes(z.b, y, z.ss, z.ss);
      KeyBytes(z.b, y, z.ss + 1, 0);
      var k := PlaceOfKey(z.b, z.start, z.p0, y, 256 * z.ss + z.ss + 1, 256 * z.ss + 256);
      assert r[k - (ce[z.ss] + 1)] == y;
    }
  }

  /** Outside [ss, ss] the lists hold the rows as they were from the start. */
  lemma {:induction false} KnownRows(z: Scene, p: seq<int>, cs: seq<int>, ce: seq<int>, l: seq<int>, r: seq<int>)
    requires ScansOver(z, p, cs, ce, l, r)
    ensures Shape(z) && ValidScene(z) && |l| >= Low(z, z.ss) - First(z)
        && -1 <= ce[z.ss] < High(z, z.ss) <= Last(z) <= |z.p0|
    ensures |r| == Last(z) - (ce[z.ss] + 1) && 0 <= First(z) <= Low(z, z.ss)
    ensures forall k :: First(z) <= k < Low(z, z.ss) ==> l[k - First(z)] == z.p0[k]
    ensures forall k :: High(z, z.ss) <= k < Last(z) ==> r[k - (ce[z.ss] + 1)] == z.p0[k]
  {
    hide Coherent, Grouped, LeftList, RightList, AllFilledLeft, AllFilledRight, Preds, Distinct, Ordered, LeftOver;
    RightParts(z, p, cs, ce, l, r, ce[z.ss]);
    SceneBounds(z);
    RightStateLeft(z, p, cs, ce, l, r, ce[z.ss]);
    LeftFixpoint(z, p, cs, l);
    RightKept(z, p);
    forall k | First(z) <= k < Low(z, z.ss) ensures l[k - First(z)] == z.p0[k] {
      assert l[..Low(z, z.ss) - First(z)][k - First(z)] == z.p0[First(z)..Low(z, z.ss)][k - First(z)];
    }
    forall k | High(z, z.ss) <= k < Last(z) ensures r[k - (ce[z.ss] + 1)] == z.p0[k] {
      assert p[High(z, z.ss)..Last(z)][k - High(z, z.ss)] == z.p0[High(z, z.ss)..Last(z)][k - High(z, z.ss)];
    }
  }

  /** Bucket [t, ss] is full and holds exactly these rows. */
  ghost predicate Full(z: Scene, p: seq<int>, t: int, w: seq<int>)
    requires Shape(z) && 0 <= t < 256
  {
    0 <= Low(z, t) <= High(z, t) == Low(z, t) + |w| <= |p| && p[Low(z, t)..High(z, t)] == w
  }

  /** When nothing was missed, both parts of each open bucket meet. */
  lemma {:induction false} PartsMeet(z: Scene, p: seq<int>, cs: seq<int>, ce: seq<int>, l: seq<int>, r: seq<int>,
      t: int)
    requires Outcome(z, p, cs, ce, l, r) && Found(z.b, l + r, z.ss) && Open(z, t)
    ensures cs[t] == ce[t] + 1 && Full(z, p, t, Preds(z.b, l + r, t))
  {
    hide ValidScene, Preds, LeftList, RightList, Distinct, Ordered, Found, RestKept;
    SceneParts(z);
    ListingParts(z, l, r);
    PredsConcat(z.b, l, r, t);
    InducedAll(z.b, l + r, z.ss, t);
    SceneGrouped(z);
    BucketNeeds(z.b, z.start, z.p0, Preds(z.b, l + r, t), t, z.ss);
    RoomFor(z, l + r, t);
    assert p[Low(z, t)..High(z, t)] == p[Low(z, t)..cs[t]] + p[ce[t] + 1..High(z, t)];
  }

  lemma SceneGrouped(z: Scene)
    requires ValidScene(z)
    ensures Coherent(z.b, z.u) && Grouped(z.b, z.start, z.p0)
  {
  }

  /** In a block of one repeated byte nothing is scanned and nothing changes. */
  lemma {:induction false} NothingScanned(z: Scene, p: seq<int>, cs: seq<int>, ce: seq<int>, l: seq<int>, r: seq<int>)
    requires Outcome(z, p, cs, ce, l, r) && Constant(z.b, z.u, z.ss) && 0 < |z.b|
    ensures p == z.p0 && cs[z.ss] == 0 && ce[z.ss] == |z.b| - 1
  {
    hide Coherent, Preds, Distinct, Ordered;
    hide Grouped, Constant, Untouched, InSmall;
    SceneParts(z);
    ConstantIsLevel(z.b, z.u, z.ss);
    if l != [] { assert Falls(z.b, z.u, l[0]); }
    if r != [] { assert Rises(z.b, z.u, r[0]); }
    PredsNone(z.b, z.ss);
    ConstantBucket(z);
  }

  lemma ConstantIsLevel(b: seq<int>, u: seq<int>, ss: int)
    requires Constant(b, u, ss)
    ensures |u| == |b| && forall x :: 0 <= x < |b| ==> u[x] == u[Next(x, |b|)]
    ensures forall x :: 0 <= x < |b| ==> b[x] == ss
  {
  }

  lemma {:induction false} ConstantBucket(z: Scene)
    requires ValidScene(z) && Constant(z.b, z.u, z.ss) && 0 < |z.b|
    ensures Low(z, z.ss) == 0 && High(z, z.ss) == |z.b|
  {
    hide Coherent, Distinct, Constant;
    SceneParts(z);
    SceneBounds(z);
    ConstantIsLevel(z.b, z.u, z.ss);
    KeyBytes(z.b, z.p0[0], z.ss, z.ss);
    KeyBytes(z.b, z.p0[|z.b| - 1], z.ss, z.ss);
    assert InSmall(z.b, z.start, z.p0[0], 0) && InSmall(z.b, z.start, z.p0[|z.b| - 1], |z.b| - 1);
  }

  /** Rows of a full bucket: their bytes, order and distinctness. */
  lemma {:induction false} FullRows(z: Scene, p: seq<int>, s: seq<int>, t: int)
    requires ValidScene(z) && Listing(z, s) && 0 <= t < 256 && Full(z, p, t, Preds(z.b, s, t))
    ensures forall k :: Low(z, t) <= k < High(z, t) ==> 0 <= p[k] < |z.b| && Key(z.b, p[k]) == 256 * t + z.ss
    ensures forall k, m :: Low(z, t) <= k < m < High(z, t) && 0 <= p[k] < |z.u| && 0 <= p[m] < |z.u| ==>
      z.u[p[k]] <= z.u[p[m]] && p[k] != p[m]
  {
    hide Coherent, Grouped, Preds;
    Induced(z.b, z.u, s, z.ss, t);
    var w := Preds(z.b, s, t);
    forall k | Low(z, t) <= k < High(z, t) ensures p[k] == w[k - Low(z, t)] {
      assert p[k] == p[Low(z, t)..High(z, t)][k - Low(z, t)];
    }
  }

  /** Every open bucket is full with the predecessors of s. */
  ghost predicate AllFull(z: Scene, p: seq<int>, s: seq<int>)
    requires Shape(z)
  {
    InRange(s, |z.b|) && forall t :: Open(z, t) ==> Full(z, p, t, Preds(z.b, s, t))
  }

  /** Which bucket a row of the new arrangement belongs to. */
  lemma {:induction false} NewRow(z: Scene, p: seq<int>, s: seq<int>, k: int)
    requires ValidScene(z) && Listing(z, s) && RestKept(z, p) && AllFull(z, p, s) && 0 <= k < |p|
    ensures 0 <= p[k] < |z.b| && InSmall(z.b, z.start, p[k], k)
    ensures Untouched(z, k) ==> p[k] == z.p0[k]
    ensures !Untouched(z, k) ==>
      exists t :: Open(z, t) && Low(z, t) <= k < High(z, t) && Key(z.b, p[k]) == 256 * t + z.ss
  {
    hide Coherent, Preds, Distinct, Ordered;
    if Untouched(z, k) {
      assert InSmall(z.b, z.start, z.p0[k], k);
    } else {
      var t :| Open(z, t) && Low(z, t) <= k < High(z, t);
      FullRows(z, p, s, t);
    }
  }

  /** The new arrangement is grouped like the old one. */
  lemma {:induction false} StillGrouped(z: Scene, p: seq<int>, s: seq<int>)
    requires ValidScene(z) && Listing(z, s) && RestKept(z, p) && AllFull(z, p, s)
    ensures Grouped(z.b, z.start, p)
  {
    hide Coherent, Preds, Ordered, Full, AllFull, Untouched, InSmall;
    forall k | 0 <= k < |p| ensures 0 <= p[k] < |z.b| && InSmall(z.b, z.start, p[k], k) { NewRow(z, p, s, k); }
    forall k, m | 0 <= k < m < |p| ensures p[k] != p[m] { RowsDiffer(z, p, s, k, m); }
  }

  lemma {:induction false} RowsDiffer(z: Scene, p: seq<int>, s: seq<int>, k: int, m: int)
    requires ValidScene(z) && Listing(z, s) && RestKept(z, p) && AllFull(z, p, s) && 0 <= k < m < |p|
    ensures p[k] != p[m]
  {
    hide Coherent, Preds, Ordered, Full, Untouched;
    SceneParts(z);
    NewRow(z, p, s, k);
    NewRow(z, p, s, m);
    if p[k] == p[m] {
      if !Untouched(z, k) || !Untouched(z, m) { SameBucketTouched(z, p, s, k, m); }
    }
  }

  lemma {:induction false} SameBucketTouched(z: Scene, p: seq<int>, s: seq<int>, k: int, m: int)
    requires ValidScene(z) && Listing(z, s) && RestKept(z, p) && AllFull(z, p, s) && 0 <= k < m < |p|
    requires !Untouched(z, k) || !Untouched(z, m)
    ensures p[k] != p[m]
  {
    hide Coherent, Preds, Ordered, Full, Distinct;
    SceneParts(z);
    NewRow(z, p, s, k);
    NewRow(z, p, s, m);
    var q := if Untouched(z, k) then m else k;
    var t :| Open(z, t) && Low(z, t) <= q < High(z, t) && Key(z.b, p[q]) == 256 * t + z.ss;
    FullRows(z, p, s, t);
  }

  /** The outcome of step 2: rows grouped as before, every bucket [t, ss] of an open t sorted,
      all other rows untouched, and the two scan pointers meeting as assertion 1007 says. */
  lemma {:induction false} ScansSort(z: Scene, p: seq<int>, cs: seq<int>, ce: seq<int>, l: seq<int>, r: seq<int>)
    requires ScansOver(z, p, cs, ce, l, r) && 0 < |z.b|
    ensures Shape(z) && Grouped(z.b, z.start, p) && RestKept(z, p) && |cs| == |ce| == 256
    ensures forall t :: Open(z, t) ==> RowsSorted(p, z.u, Low(z, t), High(z, t))
    ensures cs[z.ss] - 1 == ce[z.ss] || (cs[z.ss] == 0 && ce[z.ss] == |z.b| - 1)
  {
    hide ValidScene, Preds, LeftList, RightList, Distinct, Ordered, Found, RestKept, Listing, ScansOver, Coherent,
        AllFilledLeft, AllFilledRight, Constant, Grouped;
    ScansOutcome(z, p, cs, ce, l, r);
    StartsComplete(z, p, cs, ce, l, r);
    SceneGrouped(z);
    SceneParts(z);
    FoundOrConstant(z.b, z.u, l, r, z.ss, Low(z, z.ss) - First(z), Last(z) - High(z, z.ss));
    if Found(z.b, l + r, z.ss) {
      ListingParts(z, l, r);
      forall t | Open(z, t) ensures Full(z, p, t, Preds(z.b, l + r, t)) { PartsMeet(z, p, cs, ce, l, r, t); }
      PartsMeet(z, p, cs, ce, l, r, z.ss);
      StillGrouped(z, p, l + r);
      forall t | Open(z, t) ensures RowsSorted(p, z.u, Low(z, t), High(z, t)) {
        GroupedParts(z.b, z.start, p);
        FullRows(z, p, l + r, t);
      }
    } else {
      NothingScanned(z, p, cs, ce, l, r);
      forall t | Open(z, t) ensures RowsSorted(p, z.u, Low(z, t), High(z, t)) {
        GroupedParts(z.b, z.start, p);
        ConstantSorted(z.b, z.u, z.ss, p, Low(z, t), High(z, t));
      }
    }
  }

  lemma ConstantSorted(b: seq<int>, u: seq<int>, ss: int, p: seq<int>, i: int, j: int)
    requires Constant(b, u, ss) && InRange(p, |b|)
    ensures RowsSorted(p, u, i, j)
  {
  }

  // ---- the loops ----

  method ScanLeft(ptr: array<int>, block: array<int>, bigDone: array<bool>, copyStart: array<int>, nblock: int, ss: int,
      j0: int, ghost z: Scene)
    returns (ghost l: seq<int>)
    requires ptr != block && ptr != copyStart && block != copyStart && nblock == ptr.Length <= block.Length
    requires copyStart.Length == bigDone.Length == 256 && z.b == block[..nblock] && z.done == bigDone[..] && z.ss == ss
    requires ValidScene(z) && z.p0 == ptr[..] && SortedRows(z, First(z), Low(z, ss)) && j0 == First(z)
    requires forall t :: 0 <= t < 256 ==> copyStart[t] == Low(z, t)
    modifies ptr, copyStart
    ensures LeftState(z, ptr[..], copyStart[..], l, copyStart[ss])
  {
    hide *;
    SceneSizes(z);
    LeftStart(z, copyStart[..]);
    l := z.p0[First(z)..Low(z, ss)];
    var j := j0;
    LeftSizes(z, ptr[..], copyStart[..], l, j);
    while j < copyStart[ss]
      invariant LeftState(z, ptr[..], copyStart[..], l, j) && j <= copyStart[ss] <= nblock && 0 <= j
      decreases nblock - j
    {
      ghost var p, cs := ptr[..], copyStart[..];
      LeftSizes(z, p, cs, l, j);
      var k := ptr[j] - 1;
      if k < 0 { k := k + nblock; }
      PrevIs(ptr[j], nblock, k);
      ByteAt(z, k);
      var c1 := block[k];
      if !bigDone[c1] {
        OpenPlace(z, p, cs, l, j, c1);
        ptr[copyStart[c1]] := k;
        copyStart[c1] := copyStart[c1] + 1;
        assert ptr[..] == p[cs[c1] := k] && copyStart[..] == cs[c1 := cs[c1] + 1];
      }
      LeftStep(z, p, cs, l, j, ptr[..], copyStart[..]);
      l := if z.b[k] == ss then l + [k] else l;
      j := j + 1;
      LeftSizes(z, ptr[..], copyStart[..], l, j);
    }
  }

  lemma SceneSizes(z: Scene)
    requires ValidScene(z)
    ensures |z.start| == 65537 && |z.done| == 256 && 0 <= z.ss < 256 && |z.u| == |z.b| == |z.p0| && !z.done[z.ss]
    ensures 0 <= First(z) <= Low(z, z.ss) <= High(z, z.ss) <= Last(z) <= |z.p0|
    ensures forall t :: Open(z, t) <==> 0 <= t < 256 && !z.done[t]
  {
    hide Coherent, Grouped;
    SceneBounds(z);
  }

  lemma LeftSizes(z: Scene, p: seq<int>, cs: seq<int>, l: seq<int>, j: int)
    requires LeftState(z, p, cs, l, j)
    ensures |p| == |z.b| && |cs| == 256 && 0 <= z.ss < 256 && 0 <= j <= cs[z.ss] <= |p|
    ensures j < cs[z.ss] ==> 0 <= p[j] < |z.b|
  {
    hide ValidScene, Preds, LeftList, AllFilledLeft, RestKept;
    LeftParts(z, p, cs, l, j);
  }

  lemma PrevIs(x: int, n: int, k: int)
    requires 0 <= x < n && k == if x - 1 < 0 then x - 1 + n else x - 1
    ensures k == Prev(x, n) && 0 <= k < n
  {
  }

  lemma ByteAt(z: Scene, k: int)
    requires ValidScene(z) && 0 <= k < |z.b|
    ensures 0 <= z.b[k] < 256
  {
    hide Coherent, Distinct, Starts;
  }

  /** The next free place of an open bucket, in bounds. */
  lemma {:induction false} OpenPlace(z: Scene, p: seq<int>, cs: seq<int>, l: seq<int>, j: int, c: int)
    requires LeftState(z, p, cs, l, j) && |cs| == 256 && 0 <= z.ss < 256 && j < cs[z.ss] && j < |p| && 0 <= p[j] < |z.b|
    requires z.b[Prev(p[j], |z.b|)] == c && 0 <= c < 256 && |z.done| == 256 && !z.done[c]
    ensures 0 <= cs[c] < |p|
  {
    hide ValidScene, Preds, LeftList, AllFilledLeft, RestKept, LeftState, Distinct, Ordered, Coherent, Starts, IsBytes;
    LeftParts(z, p, cs, l, j);
    LeftLists(z, p, cs, l, j);
    var m := j - First(z);
    assert l[..m + 1] == l[..m] + [l[m]];
    LeftPrefix(z.b, z.u, l, z.ss, Low(z, z.ss) - First(z), m + 1);
    OpenRoom(z, p, cs, l[..m], l[m]);
    BucketsApart(z, c, c);
  }

  method ScanRight(ptr: array<int>, block: array<int>, bigDone: array<bool>, copyEnd: array<int>, nblock: int, ss: int,
      j0: int, ghost z: Scene, ghost cs: seq<int>, ghost l: seq<int>)
    returns (ghost r: seq<int>)
    requires ptr != block && ptr != copyEnd && block != copyEnd && nblock == ptr.Length <= block.Length
    requires copyEnd.Length == bigDone.Length == 256 && z.b == block[..nblock] && z.done == bigDone[..] && z.ss == ss
    requires |cs| == 256 && 0 <= ss < 256 && LeftState(z, ptr[..], cs, l, cs[ss]) && ValidScene(z)
    requires SortedRows(z, High(z, ss), Last(z)) && j0 == Last(z) - 1
    requires forall t :: 0 <= t < 256 ==> copyEnd[t] == High(z, t) - 1
    modifies ptr, copyEnd
    ensures ScansOver(z, ptr[..], cs, copyEnd[..], l, r)
  {
    hide *;
    SceneSizes(z);
    LeftSizes(z, ptr[..], cs, l, cs[ss]);
    LeftIsOver(z, ptr[..], cs, l);
    RightStart(z, ptr[..], cs, copyEnd[..], l);
    r := ptr[High(z, ss)..Last(z)];
    var j := j0;
    RightSizes(z, ptr[..], cs, copyEnd[..], l, r, j);
    while j > copyEnd[ss]
      invariant RightState(z, ptr[..], cs, copyEnd[..], l, r, j) && -1 <= copyEnd[ss] <= j < nblock
      decreases j
    {
      ghost var p, ce := ptr[..], copyEnd[..];
      RightSizes(z, p, cs, ce, l, r, j);
      var k := ptr[j] - 1;
      if k < 0 { k := k + nblock; }
      PrevIs(ptr[j], nblock, k);
      ByteAt(z, k);
      var c1 := block[k];
      if !bigDone[c1] {
        OpenPlaceRight(z, p, cs, ce, l, r, j, c1);
        ptr[copyEnd[c1]] := k;
        copyEnd[c1] := copyEnd[c1] - 1;
        assert ptr[..] == p[ce[c1] := k] && copyEnd[..] == ce[c1 := ce[c1] - 1];
      }
      Recorded(z, p, ce, ptr[..], copyEnd[..], j, k);
      RightStep(z, p, cs, ce, l, r, j, ptr[..], copyEnd[..]);
      r := if z.b[k] == ss then [k] + r else r;
      j := j - 1;
      RightSizes(z, ptr[..], cs, copyEnd[..], l, r, j);
    }
    Over(z, ptr[..], cs, copyEnd[..], l, r, j);
  }

  lemma Over(z: Scene, p: seq<int>, cs: seq<int>, ce: seq<int>, l: seq<int>, r: seq<int>, j: int)
    requires |ce| == 256 && 0 <= z.ss < 256 && RightState(z, p, cs, ce, l, r, j) && j == ce[z.ss]
    ensures ScansOver(z, p, cs, ce, l, r)
  {
    hide RightState;
  }

  lemma Recorded(z: Scene, p: seq<int>, ce: seq<int>, p1: seq<int>, ce1: seq<int>, j: int, k: int)
    requires ValidScene(z) && |p| == |z.b| && |ce| == 256 && 0 <= j < |p| && 0 <= p[j] < |z.b| && k == Prev(p[j], |z.b|)
    requires |z.done| == 256 && 0 <= z.b[k] < 256
    requires if z.done[z.b[k]] then p1 == p && ce1 == ce
             else 0 <= ce[z.b[k]] < |p| && p1 == p[ce[z.b[k]] := k] && ce1 == ce[z.b[k] := ce[z.b[k]] - 1]
    ensures RecordsRight(z, p, ce, p[j], p1, ce1)
  {
    hide Coherent, Grouped;
  }

  lemma RightSizes(z: Scene, p: seq<int>, cs: seq<int>, ce: seq<int>, l: seq<int>, r: seq<int>, j: int)
    requires RightState(z, p, cs, ce, l, r, j)
    ensures |p| == |z.b| && |ce| == 256 && 0 <= z.ss < 256 && -1 <= ce[z.ss] <= j < |p|
    ensures ce[z.ss] < j ==> 0 <= p[j] < |z.b|
    ensures ValidScene(z)
  {
    hide ValidScene, Preds, LeftList, AllFilledLeft, RestKept, LeftOver, RightList, AllFilledRight, RightState, Listing,
        Coherent, Distinct, Ordered;
    RightParts(z, p, cs, ce, l, r, j);
    if ce[z.ss] < j { assert p[j] == r[j - ce[z.ss] - 1]; }
  }

  lemma {:induction false} OpenPlaceRight(z: Scene, p: seq<int>, cs: seq<int>, ce: seq<int>, l: seq<int>, r: seq<int>,
      j: int, c: int)
    requires RightState(z, p, cs, ce, l, r, j) && |ce| == 256 && 0 <= z.ss < 256 && ce[z.ss] < j < |p| && 0 <= j
        && 0 <= p[j] < |z.b|
    requires z.b[Prev(p[j], |z.b|)] == c && 0 <= c < 256 && |z.done| == 256 && !z.done[c]
    ensures 0 <= ce[c] < |p|
  {
    hide ValidScene, Preds, LeftList, AllFilledLeft, RestKept, LeftOver, RightList, AllFilledRight, RightState, Listing,
        Coherent, Distinct, Ordered;
    RightParts(z, p, cs, ce, l, r, j);
    var m := j - ce[z.ss] - 1;
    assert r[m] == p[j] && r[m..] == [p[j]] + r[m + 1..];
    SuffixListing(z, l, r, Low(z, z.ss) - First(z), Last(z) - High(z, z.ss), m);
    RightRoom(z, p, cs, ce, l, r[m + 1..], p[j], c);
    BucketsApart(z, c, c);
  }

  /** Position q is in no bucket [t, ss] of an unfinished t. */
  ghost predicate Aside(start: seq<int>, done: seq<bool>, ss: int, q: int)
    requires |start| == 65537 && |done| == 256 && 0 <= ss < 256
  {
    forall t :: 0 <= t < 256 && !done[t] ==> !(start[256 * t + ss] <= q < start[256 * t + ss + 1])
  }

  /** Step 2, both scans and assertion 1007. */
  method Induce(ptr: array<int>, block: array<int>, bigDone: array<bool>, ftab: array<int>, nblock: int, ss: int,
      ghost u: seq<int>)
    requires ptr != block && ptr != ftab && block != ftab && 0 < nblock == ptr.Length <= block.Length
        && bigDone.Length == 256
    requires ftab.Length == 65537 && 0 <= ss < 256 && !bigDone[ss]
    requires Coherent(block[..nblock], u) && Grouped(block[..nblock], ftab[..], ptr[..])
    requires RowsSorted(ptr[..], u, ftab[256 * ss], ftab[256 * ss + ss])
    requires RowsSorted(ptr[..], u, ftab[256 * ss + ss + 1], ftab[256 * ss + 256])
    modifies ptr
    ensures Grouped(block[..nblock], ftab[..], ptr[..])
    ensures forall t :: 0 <= t < 256 && !bigDone[t] ==>
      RowsSorted(ptr[..], u, ftab[256 * t + ss], ftab[256 * t + ss + 1])
    ensures forall q :: 0 <= q < nblock && Aside(ftab[..], bigDone[..], ss, q) ==> ptr[q] == old(ptr[q])
  {
    hide *;
    ghost var z := Scene(block[..nblock], u, ftab[..], ptr[..], bigDone[..], ss);
    MakeScene(z);
    SceneSizes(z);
    var copyStart, copyEnd := new int[256], new int[256];
    for j := 0 to 256
      modifies copyStart, copyEnd
      invariant forall t :: 0 <= t < j ==> copyStart[t] == Low(z, t) && copyEnd[t] == High(z, t) - 1
    {
      LowHigh(z, j);
      copyStart[j] := ftab[256 * j + ss];
      copyEnd[j] := ftab[256 * j + ss + 1] - 1;
    }
    LowHigh(z, ss);
    assert ptr[..] == z.p0 && block[..nblock] == z.b && bigDone[..] == z.done;
    ghost var l := ScanLeft(ptr, block, bigDone, copyStart, nblock, ss, ftab[256 * ss], z);
    ghost var r := ScanRight(ptr, block, bigDone, copyEnd, nblock, ss, ftab[256 * ss + 256] - 1, z, copyStart[..], l);
    ScansSort(z, ptr[..], copyStart[..], copyEnd[..], l, r);
    assert copyStart[ss] - 1 == copyEnd[ss] || (copyStart[ss] == 0 && copyEnd[ss] == nblock - 1);
    Conclude(z, ptr[..]);
  }

  lemma MakeScene(z: Scene)
    requires |z.done| == 256 && 0 <= z.ss < 256 && !z.done[z.ss] && Coherent(z.b, z.u) && Grouped(z.b, z.start, z.p0)
        && |z.start| == 65537
    requires RowsSorted(z.p0, z.u, z.start[256 * z.ss], z.start[256 * z.ss + z.ss])
    requires RowsSorted(z.p0, z.u, z.start[256 * z.ss + z.ss + 1], z.start[256 * z.ss + 256])
    ensures ValidScene(z) && SortedRows(z, First(z), Low(z, z.ss)) && SortedRows(z, High(z, z.ss), Last(z))
  {
    CoherentSize(z.b, z.u);
  }

  lemma LowHigh(z: Scene, t: int)
    requires |z.start| == 65537 && 0 <= z.ss < 256 && 0 <= t < 256
    ensures Low(z, t) == z.start[256 * t + z.ss] && High(z, t) == z.start[256 * t + z.ss + 1]
    ensures First(z) == z.start[256 * z.ss] && Last(z) == z.start[256 * z.ss + 256]
  {
  }

  lemma Conclude(z: Scene, p: seq<int>)
    requires Shape(z) && RestKept(z, p) && forall t :: Open(z, t) ==> RowsSorted(p, z.u, Low(z, t), High(z, t))
    ensures |p| == |z.p0| && forall t :: 0 <= t < 256 && !z.done[t] ==>
      RowsSorted(p, z.u, z.start[256 * t + z.ss], z.start[256 * t + z.ss + 1])
    ensures forall q :: 0 <= q < |p| && Aside(z.start, z.done, z.ss, q) ==> p[q] == z.p0[q]
  {
    hide RowsSorted;
    forall t | 0 <= t < 256 && !z.done[t]
        ensures RowsSorted(p, z.u, z.start[256 * t + z.ss], z.start[256 * t + z.ss + 1]) {
      assert Open(z, t);
    }
    forall q | 0 <= q < |p| && Aside(z.start, z.done, z.ss, q) ensures p[q] == z.p0[q] {
      forall t | Open(z, t) ensures !(Low(z, t) <= q < High(z, t)) { }
      assert Untouched(z, q);
    }
  }
}

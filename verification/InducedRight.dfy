/** Step 2 of mainSort, second half: the scan from the right, and the outcome of both. */
module InducedRight {
  import opened Permutations
  import opened Rotations
  import opened InducedOrder
  import opened SmallBuckets
  import opened InducedScan
  import opened InducedSort

  /** The part of [t, ss] filled from the right: everything after position at. */
  ghost predicate FilledRight(z: Scene, p: seq<int>, at: int, t: int, w: seq<int>)
    requires Shape(z) && 0 <= t < 256
  {
    0 <= Low(z, t) <= at + 1 == High(z, t) - |w| && High(z, t) <= |p| && p[at + 1..High(z, t)] == w
  }

  lemma RightBounds(z: Scene, p: seq<int>, at: int, t: int, w: seq<int>)
    requires Shape(z) && 0 <= t < 256 && FilledRight(z, p, at, t, w)
    ensures 0 <= Low(z, t) <= at + 1 <= High(z, t) <= |p| && p[at + 1..High(z, t)] == w && High(z, t) - (at + 1) == |w|
  {
  }

  lemma RightFillGrows(z: Scene, p: seq<int>, at: int, t: int, w: seq<int>, k: int)
    requires Shape(z) && 0 <= t < 256 && FilledRight(z, p, at, t, w) && Low(z, t) <= at
    ensures 0 <= at < |p| && FilledRight(z, p[at := k], at - 1, t, [k] + w)
  {
  }

  lemma RightFillStays(z: Scene, p: seq<int>, at: int, t: int, w: seq<int>, pos: int, k: int)
    requires Shape(z) && 0 <= t < 256 && FilledRight(z, p, at, t, w)
    requires 0 <= pos < |p| && !(at < pos < High(z, t))
    ensures FilledRight(z, p[pos := k], at, t, w)
  {
  }

  ghost predicate AllFilledRight(z: Scene, p: seq<int>, ce: seq<int>, s: seq<int>)
    requires Shape(z)
  {
    |ce| == 256 && InRange(s, |z.b|) && forall t :: Open(z, t) ==> FilledRight(z, p, ce[t], t, Preds(z.b, s, t))
  }

  /** A list of distinct rotations of the big bucket, in order. */
  ghost predicate Listing(z: Scene, s: seq<int>) {
    Shape(z) && InRange(s, |z.b|) && Distinct(s) && Ordered(z.u, s) && forall i :: 0 <= i < |s| ==> z.b[s[i]] == z.ss
  }

  /** Left and right parts of an open bucket do not meet before x's predecessor is placed. */
  lemma {:induction false} RightRoom(z: Scene, p: seq<int>, cs: seq<int>, ce: seq<int>, l: seq<int>, s: seq<int>,
      x: int, t: int)
    requires ValidScene(z) && 0 <= x < |z.b| && Listing(z, l + ([x] + s))
    requires AllFilledLeft(z, p, cs, l) && AllFilledRight(z, p, ce, s) && Open(z, t) && z.b[Prev(x, |z.b|)] == t
    ensures Low(z, t) <= cs[t] <= ce[t] < High(z, t)
  {
    hide ValidScene, Preds, Distinct, Ordered, FilledLeft, FilledRight;
    SceneParts(z);
    RoomFor(z, l + ([x] + s), t);
    ListingParts(z, l, [x] + s);
    PredsConcat(z.b, l, [x] + s, t);
    PredsCons(z.b, x, s, t);
    FilledBounds(z, p, cs[t], t, Preds(z.b, l, t));
    RightBounds(z, p, ce[t], t, Preds(z.b, s, t));
  }

  lemma ListingParts(z: Scene, l: seq<int>, s: seq<int>)
    requires Listing(z, l + s)
    ensures InRange(l, |z.b|) && InRange(s, |z.b|) && InRange(l + s, |z.b|)
  {
    assert forall i :: 0 <= i < |l| ==> l[i] == (l + s)[i];
    assert forall i :: 0 <= i < |s| ==> s[i] == (l + s)[|l| + i];
  }

  /** A write that records x's predecessor, if its bucket is open. */
  ghost predicate RecordsRight(z: Scene, p: seq<int>, ce: seq<int>, x: int, p1: seq<int>, ce1: seq<int>) {
    && Shape(z) && |ce| == 256 && 0 <= x < |z.b|
    && var k := Prev(x, |z.b|); var c := z.b[k];
       0 <= c < 256
       && if z.done[c] then p1 == p && ce1 == ce
          else 0 <= ce[c] < |p| && p1 == p[ce[c] := k] && ce1 == ce[c := ce[c] - 1]
  }

  lemma {:induction false} RightFillStep(z: Scene, p: seq<int>, cs: seq<int>, ce: seq<int>, l: seq<int>, s: seq<int>,
      x: int, p1: seq<int>, ce1: seq<int>)
    requires ValidScene(z) && RestKept(z, p) && RecordsRight(z, p, ce, x, p1, ce1) && Listing(z, l + ([x] + s))
    requires AllFilledLeft(z, p, cs, l) && AllFilledRight(z, p, ce, s)
    ensures AllFilledLeft(z, p1, cs, l) && AllFilledRight(z, p1, ce1, [x] + s) && RestKept(z, p1)
  {
    hide ValidScene, Preds, Distinct, FilledLeft, FilledRight, Ordered, Untouched;
    SceneParts(z);
    ListingParts(z, l, [x] + s);
    forall t | Open(z, t)
      ensures FilledLeft(z, p1, cs[t], t, Preds(z.b, l, t)) && FilledRight(z, p1, ce1[t], t, Preds(z.b, [x] + s, t))
    {
      RightFillAt(z, p, cs, ce, l, s, x, p1, ce1, t);
    }
    var c := z.b[Prev(x, |z.b|)];
    if !z.done[c] {
      RightRoom(z, p, cs, ce, l, s, x, c);
      KeptAfterWrite(z, p, ce[c], Prev(x, |z.b|), c);
    }
  }

  lemma {:induction false} RightFillAt(z: Scene, p: seq<int>, cs: seq<int>, ce: seq<int>, l: seq<int>, s: seq<int>,
      x: int, p1: seq<int>, ce1: seq<int>, t: int)
    requires ValidScene(z) && RecordsRight(z, p, ce, x, p1, ce1) && Listing(z, l + ([x] + s)) && Open(z, t)
    requires AllFilledLeft(z, p, cs, l) && AllFilledRight(z, p, ce, s)
    ensures |ce1| == 256 && |cs| == 256 && InRange(l, |z.b|) && InRange([x] + s, |z.b|)
    ensures FilledLeft(z, p1, cs[t], t, Preds(z.b, l, t)) && FilledRight(z, p1, ce1[t], t, Preds(z.b, [x] + s, t))
  {
    hide ValidScene, Preds, Distinct, FilledLeft, FilledRight, Ordered;
    SceneParts(z);
    ListingParts(z, l, [x] + s);
    PredsCons(z.b, x, s, t);
    var k := Prev(x, |z.b|);
    var c := z.b[k];
    var wl, wr := Preds(z.b, l, t), Preds(z.b, s, t);
    assert [] + wr == wr;
    FilledBounds(z, p, cs[t], t, wl);
    RightBounds(z, p, ce[t], t, wr);
    if !z.done[c] {
      RightRoom(z, p, cs, ce, l, s, x, c);
      BucketsApart(z, t, c);
      BucketsApart(z, c, t);
      FillStays(z, p, cs[t], t, wl, ce[c], k);
      if t == c { RightFillGrows(z, p, ce[t], t, wr, k); } else { RightFillStays(z, p, ce[t], t, wr, ce[c], k); }
    }
  }

  // ---- the state of the right scan ----

  /** What is fixed once the left scan is over. */
  ghost predicate LeftOver(z: Scene, p: seq<int>, cs: seq<int>, l: seq<int>) {
    && ValidScene(z) && RestKept(z, p) && |cs| == 256 && 0 <= First(z) <= Low(z, z.ss)
    && LeftList(z.b, z.u, l, z.ss, Low(z, z.ss) - First(z)) && AllFilledLeft(z, p, cs, l)
    && l[Low(z, z.ss) - First(z)..] == Preds(z.b, l, z.ss)
    && Low(z, z.ss) <= |z.p0| && l[..Low(z, z.ss) - First(z)] == z.p0[First(z)..Low(z, z.ss)]
  }

  /** Before position j: r is the big bucket as far as it is known from the right. */
  ghost predicate RightState(z: Scene, p: seq<int>, cs: seq<int>, ce: seq<int>, l: seq<int>, r: seq<int>, j: int) {
    && LeftOver(z, p, cs, l) && |ce| == 256 && -1 <= ce[z.ss] <= j < Last(z) <= |p| && High(z, z.ss) <= Last(z)
    && r == p[ce[z.ss] + 1..Last(z)] && RightList(z.b, z.u, r, z.ss, Last(z) - High(z, z.ss))
    && AllFilledRight(z, p, ce, r[j - ce[z.ss]..])
    && (l == [] && r == [] ==> p == z.p0)
  }

  lemma {:induction false} LeftIsOver(z: Scene, p: seq<int>, cs: seq<int>, l: seq<int>)
    requires |cs| == 256 && 0 <= z.ss < 256 && LeftState(z, p, cs, l, cs[z.ss])
    ensures LeftOver(z, p, cs, l) && (l == [] ==> p == z.p0)
  {
    hide ValidScene, Preds, LeftList, AllFilledLeft, RestKept;
    LeftParts(z, p, cs, l, cs[z.ss]);
    LeftKept(z, p);
    assert l[..|l|] == l;
    assert l[..Low(z, z.ss) - First(z)] == p[First(z)..Low(z, z.ss)];
  }

  /** Rows of the big bucket before [ss, ss] are still as they were. */
  lemma {:induction false} LeftKept(z: Scene, p: seq<int>)
    requires ValidScene(z) && RestKept(z, p)
    ensures |p| == |z.p0| && 0 <= First(z) <= Low(z, z.ss) <= |p|
    ensures p[First(z)..Low(z, z.ss)] == z.p0[First(z)..Low(z, z.ss)]
  {
    hide ValidScene;
    SceneParts(z);
    SceneBounds(z);
    forall q | First(z) <= q < Low(z, z.ss) ensures Untouched(z, q) {
      forall t | Open(z, t) ensures !(Low(z, t) <= q < High(z, t)) {
        BucketsApart(z, t, z.ss);
        BucketsApart(z, z.ss, t);
      }
    }
  }

  /** Rows of the big bucket after [ss, ss] are still as they were. */
  lemma {:induction false} RightKept(z: Scene, p: seq<int>)
    requires ValidScene(z) && RestKept(z, p)
    ensures |p| == |z.p0| && 0 <= High(z, z.ss) <= Last(z) <= |p|
    ensures p[High(z, z.ss)..Last(z)] == z.p0[High(z, z.ss)..Last(z)]
  {
    hide ValidScene;
    SceneParts(z);
    SceneBounds(z);
    forall q | High(z, z.ss) <= q < Last(z) ensures Untouched(z, q) {
      forall t | Open(z, t) ensures !(Low(z, t) <= q < High(z, t)) {
        BucketsApart(z, t, z.ss);
        BucketsApart(z, z.ss, t);
      }
    }
  }

  lemma {:induction false} RightStartList(z: Scene, r: seq<int>)
    requires ValidScene(z) && 0 <= High(z, z.ss) <= Last(z) <= |z.p0| && r == z.p0[High(z, z.ss)..Last(z)]
    requires SortedRows(z, High(z, z.ss), Last(z))
    ensures RightList(z.b, z.u, r, z.ss, Last(z) - High(z, z.ss))
  {
    hide Coherent, Grouped;
    SceneParts(z);
    forall i | 0 <= i < |r| ensures z.b[r[i]] == z.ss && z.b[Next(r[i], |z.b|)] > z.ss && Rises(z.b, z.u, r[i]) {
      KeyAt(z.b, z.start, z.p0, High(z, z.ss) + i, 256 * z.ss + z.ss + 1, 256 * z.ss + 256);
      KeyBytes(z.b, r[i], z.ss, z.ss);
      KeyBytes(z.b, r[i], z.ss, 0);
      ByByte(z.b, z.u, r[i], Next(r[i], |z.b|));
    }
  }

  /** Before the right scan nothing has been put into the buckets from the right. */
  lemma {:induction false} NoneFilled(z: Scene, p: seq<int>, ce: seq<int>)
    requires ValidScene(z) && RestKept(z, p) && |ce| == 256 && forall t :: 0 <= t < 256 ==> ce[t] == High(z, t) - 1
    ensures AllFilledRight(z, p, ce, [])
  {
    hide ValidScene, Preds, RestKept;
    SceneParts(z);
    SceneBounds(z);
    RightKept(z, p);
    forall t | Open(z, t) ensures FilledRight(z, p, ce[t], t, Preds(z.b, [], t)) {
      BucketsApart(z, t, t);
      PredsNone(z.b, t);
      assert p[High(z, t)..High(z, t)] == [];
    }
  }

  lemma LeftOverScene(z: Scene, p: seq<int>, cs: seq<int>, l: seq<int>)
    requires LeftOver(z, p, cs, l)
    ensures ValidScene(z) && RestKept(z, p)
  {
    hide ValidScene, LeftList, AllFilledLeft, RestKept, Preds;
  }

  lemma RightStartIntro(z: Scene, p: seq<int>, cs: seq<int>, ce: seq<int>, l: seq<int>, r: seq<int>)
    requires LeftOver(z, p, cs, l) && |ce| == 256 && 0 <= z.ss < 256 && ce[z.ss] == High(z, z.ss) - 1
    requires 0 <= High(z, z.ss) <= Last(z) <= |p| && r == p[High(z, z.ss)..Last(z)]
    requires RightList(z.b, z.u, r, z.ss, Last(z) - High(z, z.ss)) && AllFilledRight(z, p, ce, [])
    requires l == [] ==> p == z.p0
    ensures RightState(z, p, cs, ce, l, r, Last(z) - 1)
  {
    hide LeftOver, RightList, AllFilledRight, ValidScene;
    LeftOverScene(z, p, cs, l);
    SceneParts(z);
    assert r[Last(z) - 1 - ce[z.ss]..] == [];
  }

  lemma {:induction false} RightStart(z: Scene, p: seq<int>, cs: seq<int>, ce: seq<int>, l: seq<int>)
    requires LeftOver(z, p, cs, l) && (l == [] ==> p == z.p0) && SortedRows(z, High(z, z.ss), Last(z))
    requires |ce| == 256 && forall t :: 0 <= t < 256 ==> ce[t] == High(z, t) - 1
    ensures 0 <= High(z, z.ss) <= Last(z) <= |p|
    ensures RightState(z, p, cs, ce, l, p[High(z, z.ss)..Last(z)], Last(z) - 1)
  {
    hide *;
    LeftOverScene(z, p, cs, l);
    SceneParts(z);
    SceneBounds(z);
    RightKept(z, p);
    var r := p[High(z, z.ss)..Last(z)];
    RightStartList(z, r);
    NoneFilled(z, p, ce);
    RightStartIntro(z, p, cs, ce, l, r);
  }

  lemma RightParts(z: Scene, p: seq<int>, cs: seq<int>, ce: seq<int>, l: seq<int>, r: seq<int>, j: int)
    requires RightState(z, p, cs, ce, l, r, j)
    ensures Shape(z) && ValidScene(z) && Coherent(z.b, z.u) && RestKept(z, p) && |cs| == |ce| == 256
        && |p| == |z.p0| == |z.b|
    ensures -1 <= ce[z.ss] <= j < Last(z) <= |p| && ce[z.ss] < High(z, z.ss) <= Last(z) && r == p[ce[z.ss] + 1..Last(z)]
    ensures RightList(z.b, z.u, r, z.ss, Last(z) - High(z, z.ss)) && AllFilledRight(z, p, ce, r[j - ce[z.ss]..])
    ensures 0 <= First(z) <= Low(z, z.ss) && LeftList(z.b, z.u, l, z.ss, Low(z, z.ss) - First(z))
        && AllFilledLeft(z, p, cs, l)
    ensures r[..|r| - (Last(z) - High(z, z.ss))] == Preds(z.b, r[j - ce[z.ss]..], z.ss)
    ensures forall i :: 0 <= i < |r| ==> 0 <= r[i] < |z.b|
  {
    hide Coherent, Grouped, LeftList, AllFilledLeft, Preds, Distinct, Ordered;
    SceneParts(z);
    RightBounds(z, p, ce[z.ss], z.ss, Preds(z.b, r[j - ce[z.ss]..], z.ss));
    assert r[..|r| - (Last(z) - High(z, z.ss))] == p[ce[z.ss] + 1..High(z, z.ss)];
  }

  lemma {:induction false} SuffixListing(z: Scene, l: seq<int>, r: seq<int>, il: nat, ir: nat, m: int)
    requires Shape(z) && Coherent(z.b, z.u) && LeftList(z.b, z.u, l, z.ss, il) && RightList(z.b, z.u, r, z.ss, ir)
        && 0 <= m <= |r|
    ensures Listing(z, l + r[m..])
  {
    hide Coherent, LeftList, RightList;
    LeftThenRight(z.b, z.u, l, r, z.ss, il, ir);
    var s, t := l + r, l + r[m..];
    forall i | 0 <= i < |t| ensures t[i] == s[if i < |l| then i else i + m] { }
  }

  lemma {:induction false} RightKnownGrows(z: Scene, p: seq<int>, ce: seq<int>, r: seq<int>, x: int, p1: seq<int>,
      ce1: seq<int>)
    requires ValidScene(z) && RecordsRight(z, p, ce, x, p1, ce1) && |p| == |z.p0|
    requires -1 <= ce[z.ss] < Last(z) <= |p| && High(z, z.ss) <= Last(z) && r == p[ce[z.ss] + 1..Last(z)]
    requires ce[z.ss] < High(z, z.ss) && Low(z, z.ss) <= ce[z.ss] + 1
    requires var c := z.b[Prev(x, |z.b|)]; !z.done[c] ==> Low(z, c) <= ce[c] < High(z, c)
    ensures |ce1| == 256 && |p1| == |p| && -1 <= ce1[z.ss] < Last(z) <= |p1|
    ensures ce1[z.ss] == if z.b[Prev(x, |z.b|)] == z.ss then ce[z.ss] - 1 else ce[z.ss]
    ensures p1[ce1[z.ss] + 1..Last(z)] == if z.b[Prev(x, |z.b|)] == z.ss then [Prev(x, |z.b|)] + r else r
  {
    hide Grouped, Coherent;
    SceneParts(z);
    SceneBounds(z);
    var c := z.b[Prev(x, |z.b|)];
    if !z.done[c] && c != z.ss {
      BucketsApart(z, c, z.ss);
      BucketsApart(z, z.ss, c);
    }
  }

  lemma RightIntro(z: Scene, p: seq<int>, cs: seq<int>, ce: seq<int>, l: seq<int>, r: seq<int>, j: int)
    requires LeftOver(z, p, cs, l) && |ce| == 256 && -1 <= ce[z.ss] <= j < Last(z) <= |p| && High(z, z.ss) <= Last(z)
    requires r == p[ce[z.ss] + 1..Last(z)] && RightList(z.b, z.u, r, z.ss, Last(z) - High(z, z.ss)) && r != []
    requires AllFilledRight(z, p, ce, r[j - ce[z.ss]..])
    ensures RightState(z, p, cs, ce, l, r, j)
  {
    hide LeftOver, RightList, AllFilledRight;
  }

  lemma LeftOverKept(z: Scene, p: seq<int>, cs: seq<int>, l: seq<int>, p1: seq<int>)
    requires LeftOver(z, p, cs, l) && RestKept(z, p1) && AllFilledLeft(z, p1, cs, l)
    ensures LeftOver(z, p1, cs, l)
  {
    hide ValidScene, LeftList, AllFilledLeft, RestKept, Preds;
  }

  lemma RightStateLeft(z: Scene, p: seq<int>, cs: seq<int>, ce: seq<int>, l: seq<int>, r: seq<int>, j: int)
    requires RightState(z, p, cs, ce, l, r, j)
    ensures LeftOver(z, p, cs, l) && (l == [] && r == [] ==> p == z.p0)
  {
    hide LeftOver, RightList, AllFilledRight;
  }

  lemma {:induction false} RightStep(z: Scene, p: seq<int>, cs: seq<int>, ce: seq<int>, l: seq<int>, r: seq<int>,
      j: int, p1: seq<int>, ce1: seq<int>)
    requires RightState(z, p, cs, ce, l, r, j) && ce[z.ss] < j && RecordsRight(z, p, ce, p[j], p1, ce1)
    ensures var k := Prev(p[j], |z.b|); RightState(z, p1, cs, ce1, l, if z.b[k] == z.ss then [k] + r else r, j - 1)
  {
    hide ValidScene, Preds, LeftList, AllFilledLeft, RestKept, LeftOver, RightList, AllFilledRight, RightState, Listing,
        Coherent, Distinct, Ordered;
    RightParts(z, p, cs, ce, l, r, j);
    RightStateLeft(z, p, cs, ce, l, r, j);
    var m, init, x := j - ce[z.ss] - 1, Last(z) - High(z, z.ss), p[j];
    var k := Prev(x, |z.b|);
    var s := r[m + 1..];
    assert r[m] == x && r[m..] == [x] + s;
    RightGrow(z.b, z.u, r, z.ss, init, m);
    SuffixListing(z, l, r, Low(z, z.ss) - First(z), init, m);
    RightFillStep(z, p, cs, ce, l, s, x, p1, ce1);
    LeftOverKept(z, p, cs, l, p1);
    if !z.done[z.b[k]] { RightRoom(z, p, cs, ce, l, s, x, z.b[k]); }
    LowOfRight(z, p, ce, s);
    RightKnownGrows(z, p, ce, r, x, p1, ce1);
    var r1 := if z.b[k] == z.ss then [k] + r else r;
    SuffixOfNew(r, k, m, z.b[k] == z.ss, r1);
    assert r1[j - 1 - ce1[z.ss]..] == [x] + s;
    RightIntro(z, p1, cs, ce1, l, r1, j - 1);
  }

  /** What is still to be read of a list that may have grown at its front. */
  lemma SuffixOfNew(r: seq<int>, k: int, m: int, grown: bool, r1: seq<int>)
    requires 0 <= m <= |r| && r1 == if grown then [k] + r else r
    ensures r1[if grown then m + 1 else m..] == r[m..]
  {
  }

  lemma LowOfRight(z: Scene, p: seq<int>, ce: seq<int>, s: seq<int>)
    requires ValidScene(z) && AllFilledRight(z, p, ce, s)
    ensures |ce| == 256 && 0 <= z.ss < 256 && Low(z, z.ss) <= ce[z.ss] + 1
  {
    hide Grouped, Coherent, Preds;
    SceneParts(z);
  }
}

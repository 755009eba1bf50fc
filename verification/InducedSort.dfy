/** Step 2 of mainSort: scanning the big bucket ss from both ends fills every small bucket
    [t, ss] of an unfinished t, including [ss, ss] itself, in rotation order. */
module InducedSort {
  import opened Permutations
  import opened Rotations
  import opened InducedOrder
  import opened SmallBuckets
  import opened InducedScan

  /** What stays the same during the scans: the block and its ranks, the bucket starts, the
      rows as they were, the finished big buckets and the one being scanned. */
  datatype Scene = Scene(b: seq<int>, u: seq<int>, start: seq<int>, p0: seq<int>, done: seq<bool>, ss: int)

  ghost predicate Shape(z: Scene) {
    |z.start| == 65537 && |z.done| == 256 && 0 <= z.ss < 256 && |z.u| == |z.b| == |z.p0|
  }

  ghost predicate ValidScene(z: Scene) {
    Shape(z) && Coherent(z.b, z.u) && Grouped(z.b, z.start, z.p0) && !z.done[z.ss]
  }

  /** Bounds of the small bucket [t, ss]. */
  function Low(z: Scene, t: int): int
    requires |z.start| == 65537 && 0 <= z.ss < 256 && 0 <= t < 256
  {
    z.start[256 * t + z.ss]
  }

  function High(z: Scene, t: int): int
    requires |z.start| == 65537 && 0 <= z.ss < 256 && 0 <= t < 256
  {
    z.start[256 * t + z.ss + 1]
  }

  /** Bounds of the big bucket being scanned. */
  function First(z: Scene): int
    requires |z.start| == 65537 && 0 <= z.ss < 256
  {
    z.start[256 * z.ss]
  }

  function Last(z: Scene): int
    requires |z.start| == 65537 && 0 <= z.ss < 256
  {
    z.start[256 * z.ss + 256]
  }

  ghost predicate Open(z: Scene, t: int)
    requires |z.done| == 256
  {
    0 <= t < 256 && !z.done[t]
  }

  /** Position q is in no bucket [t, ss] that the scans may write. */
  ghost predicate Untouched(z: Scene, q: int)
    requires Shape(z)
  {
    forall t :: Open(z, t) ==> !(Low(z, t) <= q < High(z, t))
  }

  lemma SceneParts(z: Scene)
    requires ValidScene(z)
    ensures Shape(z) && Starts(z.start, |z.b|) && IsBytes(z.b) && IsPermutation(z.p0, |z.b|) && Open(z, z.ss)
  {
  }

  /** Small buckets [t, ss] of different t lie apart, and apart from other big buckets. */
  lemma BucketsApart(z: Scene, t: int, v: int)
    requires ValidScene(z) && 0 <= t < 256 && 0 <= v < 256
    ensures 0 <= z.start[256 * t] <= Low(z, t) <= High(z, t) <= z.start[256 * t + 256] <= |z.p0|
    ensures t < v ==> z.start[256 * t + 256] <= z.start[256 * v]
  {
    hide Coherent, Distinct, InSmall;
    SceneParts(z);
  }

  lemma SceneBounds(z: Scene)
    requires ValidScene(z)
    ensures 0 <= First(z) <= Low(z, z.ss) <= High(z, z.ss) <= Last(z) <= |z.p0| == |z.b|
  {
    hide ValidScene, Grouped;
    SceneParts(z);
    BucketsApart(z, z.ss, z.ss);
  }

  // ---- one bucket's filled part ----

  ghost predicate FilledLeft(z: Scene, p: seq<int>, at: int, t: int, w: seq<int>)
    requires Shape(z) && 0 <= t < 256
  {
    0 <= Low(z, t) && at == Low(z, t) + |w| <= High(z, t) <= |p| && p[Low(z, t)..at] == w
  }

  lemma FilledBounds(z: Scene, p: seq<int>, at: int, t: int, w: seq<int>)
    requires Shape(z) && 0 <= t < 256 && FilledLeft(z, p, at, t, w)
    ensures 0 <= Low(z, t) <= at <= High(z, t) <= |p| && p[Low(z, t)..at] == w && at - Low(z, t) == |w|
  {
  }

  lemma FillGrows(z: Scene, p: seq<int>, at: int, t: int, w: seq<int>, k: int)
    requires Shape(z) && 0 <= t < 256 && FilledLeft(z, p, at, t, w) && at < High(z, t)
    ensures 0 <= at < |p| && FilledLeft(z, p[at := k], at + 1, t, w + [k])
  {
  }

  lemma FillStays(z: Scene, p: seq<int>, at: int, t: int, w: seq<int>, pos: int, k: int)
    requires Shape(z) && 0 <= t < 256 && FilledLeft(z, p, at, t, w)
    requires 0 <= pos < |p| && !(Low(z, t) <= pos < at)
    ensures FilledLeft(z, p[pos := k], at, t, w)
  {
  }

  // ---- the left scan ----

  ghost predicate AllFilledLeft(z: Scene, p: seq<int>, cs: seq<int>, s: seq<int>)
    requires Shape(z)
  {
    |cs| == 256 && InRange(s, |z.b|) && forall t :: Open(z, t) ==> FilledLeft(z, p, cs[t], t, Preds(z.b, s, t))
  }

  ghost predicate RestKept(z: Scene, p: seq<int>)
    requires Shape(z)
  {
    |p| == |z.p0| && forall q :: 0 <= q < |p| && Untouched(z, q) ==> p[q] == z.p0[q]
  }

  /** Room for the predecessors of any distinct rotations of the big bucket. */
  lemma {:induction false} RoomFor(z: Scene, s: seq<int>, t: int)
    requires ValidScene(z) && 0 <= t < 256 && InRange(s, |z.b|) && Distinct(s) && Ordered(z.u, s)
    requires forall i :: 0 <= i < |s| ==> z.b[s[i]] == z.ss
    ensures |Preds(z.b, s, t)| <= High(z, t) - Low(z, t)
  {
    hide Coherent, Preds, Grouped;
    Induced(z.b, z.u, s, z.ss, t);
    BucketHolds(z.b, z.start, z.p0, Preds(z.b, s, t), t, z.ss);
  }

  /** Looking at one more rotation x fills its predecessor in, if its bucket is open. */
  lemma {:induction false} FillStep(z: Scene, p: seq<int>, cs: seq<int>, s: seq<int>, x: int, p1: seq<int>,
      cs1: seq<int>)
    requires ValidScene(z) && AllFilledLeft(z, p, cs, s) && RestKept(z, p)
    requires InRange(s + [x], |z.b|) && Distinct(s + [x]) && Ordered(z.u, s + [x])
    requires forall i :: 0 <= i < |s + [x]| ==> z.b[(s + [x])[i]] == z.ss
    requires 0 <= x < |z.b| && 0 <= z.b[Prev(x, |z.b|)] < 256
    requires var k := Prev(x, |z.b|); var c := z.b[k];
      if z.done[c] then p1 == p && cs1 == cs
      else 0 <= cs[c] < |p| && p1 == p[cs[c] := k] && cs1 == cs[c := cs[c] + 1]
    ensures AllFilledLeft(z, p1, cs1, s + [x]) && RestKept(z, p1)
  {
    hide ValidScene, Preds, Distinct, FilledLeft, Ordered, Untouched, Starts;
    SceneParts(z);
    var k := Prev(x, |z.b|);
    var c := z.b[k];
    forall t | Open(z, t) ensures FilledLeft(z, p1, cs1[t], t, Preds(z.b, s + [x], t)) {
      FillStepAt(z, p, cs, s, x, p1, cs1, t);
    }
    if !z.done[c] { WriteInside(z, p, cs[c], c, Preds(z.b, s, c), s, x); KeptAfterWrite(z, p, cs[c], k, c); }
  }

  /** The next free place of an open bucket is inside it. */
  lemma {:induction false} WriteInside(z: Scene, p: seq<int>, at: int, c: int, w: seq<int>, s: seq<int>, x: int)
    requires ValidScene(z) && 0 <= c < 256 && InRange(s, |z.b|) && w == Preds(z.b, s, c) && FilledLeft(z, p, at, c, w)
    requires InRange(s + [x], |z.b|) && Distinct(s + [x]) && Ordered(z.u, s + [x])
    requires forall i :: 0 <= i < |s + [x]| ==> z.b[(s + [x])[i]] == z.ss
    requires 0 <= x < |z.b| && z.b[Prev(x, |z.b|)] == c
    ensures Low(z, c) <= at < High(z, c)
  {
    hide ValidScene, Preds, Distinct, Ordered;
    SceneParts(z);
    RoomFor(z, s + [x], c);
    PredsSnoc(z.b, s, x, c);
  }

  lemma KeptAfterWrite(z: Scene, p: seq<int>, at: int, k: int, c: int)
    requires Shape(z) && RestKept(z, p) && Open(z, c) && 0 <= at < |p| && Low(z, c) <= at < High(z, c)
    ensures RestKept(z, p[at := k])
  {
  }

  lemma {:induction false} FillStepAt(z: Scene, p: seq<int>, cs: seq<int>, s: seq<int>, x: int, p1: seq<int>,
      cs1: seq<int>, t: int)
    requires ValidScene(z) && AllFilledLeft(z, p, cs, s) && RestKept(z, p)
    requires InRange(s + [x], |z.b|) && Distinct(s + [x]) && Ordered(z.u, s + [x])
    requires forall i :: 0 <= i < |s + [x]| ==> z.b[(s + [x])[i]] == z.ss
    requires 0 <= x < |z.b| && 0 <= z.b[Prev(x, |z.b|)] < 256 && Open(z, t)
    requires var k := Prev(x, |z.b|); var c := z.b[k];
      if z.done[c] then p1 == p && cs1 == cs
      else 0 <= cs[c] < |p| && p1 == p[cs[c] := k] && cs1 == cs[c := cs[c] + 1]
    ensures |cs1| == 256 && FilledLeft(z, p1, cs1[t], t, Preds(z.b, s + [x], t))
  {
    hide ValidScene, Preds, Distinct, FilledLeft, Ordered, Untouched, Starts;
    SceneParts(z);
    var k := Prev(x, |z.b|);
    var c := z.b[k];
    PredsSnoc(z.b, s, x, t);
    var w := Preds(z.b, s, t);
    if !z.done[c] {
      WriteInside(z, p, cs[c], c, Preds(z.b, s, c), s, x);
      if t == c {
        FillGrows(z, p, cs[t], t, w, k);
      } else {
        BucketsApart(z, t, c);
        BucketsApart(z, c, t);
        FilledBounds(z, p, cs[t], t, w);
        FillStays(z, p, cs[t], t, w, cs[c], k);
        assert w + [] == w;
      }
    } else {
      assert w + [] == w;
    }
  }

  /** State of the left scan before position j: l is the big bucket as far as it is known. */
  ghost predicate LeftState(z: Scene, p: seq<int>, cs: seq<int>, l: seq<int>, j: int) {
    && ValidScene(z) && RestKept(z, p) && |cs| == 256 && 0 <= First(z) <= j <= cs[z.ss] <= |p|
        && First(z) <= Low(z, z.ss)
    && l == p[First(z)..cs[z.ss]] && LeftList(z.b, z.u, l, z.ss, Low(z, z.ss) - First(z))
    && AllFilledLeft(z, p, cs, l[..j - First(z)])
    && (l == [] ==> p == z.p0)
  }

  /** The rows of the big bucket before [ss, ss] are known to start with. */
  lemma {:induction false} LeftStart(z: Scene, cs: seq<int>)
    requires ValidScene(z) && |cs| == 256 && forall t :: 0 <= t < 256 ==> cs[t] == Low(z, t)
    requires SortedRows(z, First(z), Low(z, z.ss))
    ensures 0 <= First(z) <= Low(z, z.ss) <= |z.p0|
    ensures LeftState(z, z.p0, cs, z.p0[First(z)..Low(z, z.ss)], First(z))
  {
    hide Coherent, Grouped, Distinct, Ordered;
    SceneBounds(z);
    SceneParts(z);
    var l := z.p0[First(z)..Low(z, z.ss)];
    LeftStartList(z, l);
    forall t | Open(z, t) ensures FilledLeft(z, z.p0, cs[t], t, Preds(z.b, l[..0], t)) {
      BucketsApart(z, t, t);
      PredsNone(z.b, t);
      assert l[..0] == [];
      assert z.p0[Low(z, t)..Low(z, t)] == [];
    }
  }

  /** Rows i..j of the original arrangement are in rotation order. */
  ghost predicate SortedRows(z: Scene, i: int, j: int)
    requires Shape(z)
  {
    InRange(z.p0, |z.u|) && forall k, m :: i <= k < m < j && 0 <= k && m < |z.p0| ==> z.u[z.p0[k]] <= z.u[z.p0[m]]
  }

  lemma {:induction false} LeftStartList(z: Scene, l: seq<int>)
    requires ValidScene(z) && 0 <= First(z) <= Low(z, z.ss) <= |z.p0| && l == z.p0[First(z)..Low(z, z.ss)]
    requires SortedRows(z, First(z), Low(z, z.ss))
    ensures LeftList(z.b, z.u, l, z.ss, Low(z, z.ss) - First(z))
  {
    hide Coherent, Grouped;
    SceneParts(z);
    forall i | 0 <= i < |l| ensures z.b[l[i]] == z.ss && z.b[Next(l[i], |z.b|)] < z.ss && Falls(z.b, z.u, l[i]) {
      KeyAt(z.b, z.start, z.p0, First(z) + i, 256 * z.ss, 256 * z.ss + z.ss);
      KeyBytes(z.b, l[i], z.ss, z.ss);
      KeyBytes(z.b, l[i], z.ss, 0);
      ByByte(z.b, z.u, Next(l[i], |z.b|), l[i]);
    }
  }

  lemma {:induction false} LeftParts(z: Scene, p: seq<int>, cs: seq<int>, l: seq<int>, j: int)
    requires LeftState(z, p, cs, l, j)
    ensures Shape(z) && Starts(z.start, |z.b|) && IsBytes(z.b) && Open(z, z.ss) && |p| == |z.p0| == |z.b| && |cs| == 256
    ensures 0 <= First(z) <= Low(z, z.ss) <= cs[z.ss] <= High(z, z.ss) <= Last(z) <= |p| && First(z) <= j <= cs[z.ss]
    ensures |l| == cs[z.ss] - First(z) && (j < cs[z.ss] ==> p[j] == l[j - First(z)] && 0 <= p[j] < |z.b|)
    ensures l[Low(z, z.ss) - First(z)..] == Preds(z.b, l[..j - First(z)], z.ss)
    ensures forall t :: Open(z, t) ==> 0 <= Low(z, t) <= cs[t] <= High(z, t) <= |p|
  {
    hide Coherent, Grouped, Distinct, Ordered, Preds;
    SceneParts(z);
    SceneBounds(z);
    FilledBounds(z, p, cs[z.ss], z.ss, Preds(z.b, l[..j - First(z)], z.ss));
    assert l[Low(z, z.ss) - First(z)..] == p[Low(z, z.ss)..cs[z.ss]];
  }

  /** A prefix of a left list is distinct, in order and of first byte ss. */
  lemma LeftPrefix(b: seq<int>, u: seq<int>, l: seq<int>, ss: int, init: nat, m: int)
    requires LeftList(b, u, l, ss, init) && 0 <= m <= |l|
    ensures InRange(l[..m], |b|) && |u| == |b| && Distinct(l[..m]) && Ordered(u, l[..m])
    ensures forall i :: 0 <= i < m ==> b[l[..m][i]] == ss
  {
  }

  lemma {:induction false} LeftStep(z: Scene, p: seq<int>, cs: seq<int>, l: seq<int>, j: int, p1: seq<int>,
      cs1: seq<int>)
    requires LeftState(z, p, cs, l, j) && j < cs[z.ss] && 0 <= p[j] < |z.b|
    requires var k := Prev(p[j], |z.b|); var c := z.b[k];
      0 <= c < 256 && if z.done[c] then p1 == p && cs1 == cs
      else 0 <= cs[c] < |p| && p1 == p[cs[c] := k] && cs1 == cs[c := cs[c] + 1]
    ensures var k := Prev(p[j], |z.b|); LeftState(z, p1, cs1, if z.b[k] == z.ss then l + [k] else l, j + 1)
  {
    hide ValidScene, Preds, LeftList, AllFilledLeft, RestKept, LeftState, Distinct, Ordered, Coherent, Starts, IsBytes;
    LeftParts(z, p, cs, l, j);
    LeftLists(z, p, cs, l, j);
    var m, init, x := j - First(z), Low(z, z.ss) - First(z), p[j];
    var k := Prev(x, |z.b|);
    LeftGrow(z.b, z.u, l, z.ss, init, m);
    var l1 := if z.b[k] == z.ss then l + [k] else l;
    LeftPrefix(z.b, z.u, l1, z.ss, init, m + 1);
    FillStep(z, p, cs, l[..m], x, p1, cs1);
    if !z.done[z.b[k]] { OpenRoom(z, p, cs, l[..m], x); }
    KnownGrows(z, p, cs, l, j, p1, cs1, k);
    LeftIntro(z, p1, cs1, l1, j + 1);
  }

  lemma LeftLists(z: Scene, p: seq<int>, cs: seq<int>, l: seq<int>, j: int)
    requires LeftState(z, p, cs, l, j)
    ensures ValidScene(z) && Coherent(z.b, z.u) && RestKept(z, p) && 0 <= First(z) <= Low(z, z.ss) && First(z) <= j
    ensures LeftList(z.b, z.u, l, z.ss, Low(z, z.ss) - First(z)) && j - First(z) <= |l|
        && AllFilledLeft(z, p, cs, l[..j - First(z)])
  {
    hide Coherent, Grouped, LeftList, AllFilledLeft, RestKept;
  }

  lemma LeftIntro(z: Scene, p: seq<int>, cs: seq<int>, l: seq<int>, j: int)
    requires ValidScene(z) && RestKept(z, p) && |cs| == 256 && 0 <= First(z) <= j <= cs[z.ss] <= |p|
        && First(z) <= Low(z, z.ss)
    requires l == p[First(z)..cs[z.ss]] && LeftList(z.b, z.u, l, z.ss, Low(z, z.ss) - First(z)) && l != []
    requires AllFilledLeft(z, p, cs, l[..j - First(z)])
    ensures LeftState(z, p, cs, l, j)
  {
    hide ValidScene, LeftList, AllFilledLeft, RestKept;
  }

  /** An open bucket has room for the predecessor just found. */
  lemma {:induction false} OpenRoom(z: Scene, p: seq<int>, cs: seq<int>, s: seq<int>, x: int)
    requires ValidScene(z) && AllFilledLeft(z, p, cs, s)
    requires InRange(s + [x], |z.b|) && Distinct(s + [x]) && Ordered(z.u, s + [x])
    requires forall i :: 0 <= i < |s + [x]| ==> z.b[(s + [x])[i]] == z.ss
    requires 0 <= x < |z.b| && 0 <= z.b[Prev(x, |z.b|)] < 256 && !z.done[z.b[Prev(x, |z.b|)]]
    ensures var c := z.b[Prev(x, |z.b|)]; |cs| == 256 && Low(z, c) <= cs[c] < High(z, c)
  {
    hide ValidScene, Preds, Distinct, Ordered, FilledLeft;
    SceneParts(z);
    var c := z.b[Prev(x, |z.b|)];
    assert Open(z, c);
    WriteInside(z, p, cs[c], c, Preds(z.b, s, c), s, x);
  }

  /** The known part of the big bucket changes only by what is appended to [ss, ss]. */
  lemma {:induction false} KnownGrows(z: Scene, p: seq<int>, cs: seq<int>, l: seq<int>, j: int, p1: seq<int>,
      cs1: seq<int>, k: int)
    requires LeftState(z, p, cs, l, j) && j < cs[z.ss] && 0 <= k < |z.b| && 0 <= z.b[k] < 256
    requires if z.done[z.b[k]] then p1 == p && cs1 == cs
      else Low(z, z.b[k]) <= cs[z.b[k]] < High(z, z.b[k]) && 0 <= cs[z.b[k]] < |p|
           && p1 == p[cs[z.b[k]] := k] && cs1 == cs[z.b[k] := cs[z.b[k]] + 1]
    ensures |p1| == |p| && |cs1| == 256 && j + 1 <= cs1[z.ss] <= |p1|
    ensures p1[First(z)..cs1[z.ss]] == if z.b[k] == z.ss then l + [k] else l
  {
    hide ValidScene, Preds, LeftList, AllFilledLeft, RestKept;
    LeftParts(z, p, cs, l, j);
    var c := z.b[k];
    if !z.done[c] && c != z.ss {
      BucketsApart(z, c, z.ss);
      BucketsApart(z, z.ss, c);
    }
  }
}

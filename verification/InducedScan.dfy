/** The lists that the two scans of a big bucket read and extend at the same time. */
module InducedScan {
  import opened Permutations
  import opened Rotations
  import opened InducedOrder
  import opened SmallBuckets

  /** Rotations of the big bucket seen from the left: first the `init` ones whose second byte
      is smaller, then the ones the scan found itself. */
  ghost predicate LeftList(b: seq<int>, u: seq<int>, l: seq<int>, ss: int, init: nat) {
    && |u| == |b| && init <= |l| && InRange(l, |b|) && Distinct(l) && Ordered(u, l)
    && (forall i :: 0 <= i < |l| ==> b[l[i]] == ss && Falls(b, u, l[i]))
    && (forall i :: 0 <= i < init ==> b[Next(l[i], |b|)] < ss)
    && (forall i :: init <= i < |l| ==> b[Next(l[i], |b|)] == ss)
  }

  /** From the right: the `init` ones with a larger second byte are the last ones. */
  ghost predicate RightList(b: seq<int>, u: seq<int>, r: seq<int>, ss: int, init: nat) {
    && |u| == |b| && init <= |r| && InRange(r, |b|) && Distinct(r) && Ordered(u, r)
    && (forall i :: 0 <= i < |r| ==> b[r[i]] == ss && Rises(b, u, r[i]))
    && (forall i :: |r| - init <= i < |r| ==> b[Next(r[i], |b|)] > ss)
    && (forall i :: 0 <= i < |r| - init ==> b[Next(r[i], |b|)] == ss)
  }

  lemma ListBasics(b: seq<int>, u: seq<int>, s: seq<int>, ss: int, init: nat)
    requires LeftList(b, u, s, ss, init) || RightList(b, u, s, ss, init)
    ensures |u| == |b| && init <= |s| && InRange(s, |b|) && Distinct(s) && Ordered(u, s)
    ensures forall i :: 0 <= i < |s| ==> b[s[i]] == ss
  {
  }

  /** A new rotation found in front of l[j] belongs after everything listed. */
  lemma {:induction false} LeftAfter(b: seq<int>, u: seq<int>, l: seq<int>, ss: int, init: nat, j: int, i: int)
    requires Coherent(b, u) && LeftList(b, u, l, ss, init) && 0 <= j < |l| && 0 <= i < |l|
    requires l[init..] == Preds(b, l[..j], ss) && b[Prev(l[j], |b|)] == ss
    ensures u[l[i]] <= u[Prev(l[j], |b|)] && l[i] != Prev(l[j], |b|)
  {
    hide Coherent, Preds;
    var k := Prev(l[j], |b|);
    PrevNext(l[j], |b|);
    ByNext(b, u, l[i], k);
    if i < init {
      ByByte(b, u, Next(l[i], |b|), l[j]);
    } else {
      assert l[i] == l[init..][i - init];
      var m := PredSource(b, l[..j], ss, i - init);
      assert l[..j][m] == l[m];
      PrevNext(l[m], |b|);
    }
  }

  lemma {:induction false} LeftGrow(b: seq<int>, u: seq<int>, l: seq<int>, ss: int, init: nat, j: int)
    requires Coherent(b, u) && LeftList(b, u, l, ss, init) && 0 <= j < |l| && l[init..] == Preds(b, l[..j], ss)
    ensures var k := Prev(l[j], |b|); var l1 := if b[k] == ss then l + [k] else l;
      LeftList(b, u, l1, ss, init) && l1[init..] == Preds(b, l1[..j + 1], ss) && l1[..j + 1] == l[..j] + [l[j]]
  {
    hide Coherent, Preds;
    var k := Prev(l[j], |b|);
    PredsSnoc(b, l[..j], l[j], ss);
    assert l[..j + 1] == l[..j] + [l[j]];
    if b[k] == ss {
      var l1 := l + [k];
      assert l1[..j + 1] == l[..j + 1] && l1[init..] == l[init..] + [k];
      PrevNext(l[j], |b|);
      TypeOfPrevious(b, u, k);
      forall i | 0 <= i < |l| ensures u[l[i]] <= u[k] && l[i] != k { LeftAfter(b, u, l, ss, init, j, i); }
    }
  }

  lemma {:induction false} RightBefore(b: seq<int>, u: seq<int>, r: seq<int>, ss: int, init: nat, j: int, i: int)
    requires Coherent(b, u) && RightList(b, u, r, ss, init) && 0 <= j < |r| && 0 <= i < |r|
    requires r[..|r| - init] == Preds(b, r[j + 1..], ss) && b[Prev(r[j], |b|)] == ss
    ensures u[Prev(r[j], |b|)] <= u[r[i]] && r[i] != Prev(r[j], |b|)
  {
    hide Coherent, Preds;
    var k := Prev(r[j], |b|);
    PrevNext(r[j], |b|);
    ByNext(b, u, k, r[i]);
    if i >= |r| - init {
      ByByte(b, u, r[j], Next(r[i], |b|));
    } else {
      assert r[i] == r[..|r| - init][i];
      var m := PredSource(b, r[j + 1..], ss, i);
      assert r[j + 1..][m] == r[j + 1 + m];
      PrevNext(r[j + 1 + m], |b|);
    }
  }

  lemma RiseAt(b: seq<int>, u: seq<int>, r: seq<int>, ss: int, init: nat, j: int)
    requires RightList(b, u, r, ss, init) && 0 <= j < |r|
    ensures b[r[j]] == ss && Rises(b, u, r[j])
  {
  }

  lemma RightListCons(b: seq<int>, u: seq<int>, r: seq<int>, ss: int, init: nat, k: int)
    requires RightList(b, u, r, ss, init) && 0 <= k < |b| && b[k] == ss && Rises(b, u, k) && b[Next(k, |b|)] == ss
    requires forall i :: 0 <= i < |r| ==> u[k] <= u[r[i]] && r[i] != k
    ensures RightList(b, u, [k] + r, ss, init)
  {
  }

  /** The new ones of r are the rotations before those of s, which have been visited. */
  ghost predicate RightKnown(b: seq<int>, u: seq<int>, r: seq<int>, ss: int, init: nat, s: seq<int>) {
    RightList(b, u, r, ss, init) && InRange(s, |b|) && r[..|r| - init] == Preds(b, s, ss)
  }

  lemma {:induction false} RightGrow(b: seq<int>, u: seq<int>, r: seq<int>, ss: int, init: nat, j: int)
    requires Coherent(b, u) && RightList(b, u, r, ss, init) && 0 <= j < |r|
        && r[..|r| - init] == Preds(b, r[j + 1..], ss)
    ensures var k := Prev(r[j], |b|); RightKnown(b, u, if b[k] == ss then [k] + r else r, ss, init, [r[j]] + r[j + 1..])
  {
    hide Coherent, Preds, RightList;
    ListBasics(b, u, r, ss, init);
    var k := Prev(r[j], |b|);
    PredsCons(b, r[j], r[j + 1..], ss);
    assert r[j..] == [r[j]] + r[j + 1..];
    if b[k] == ss {
      var r1 := [k] + r;
      assert r1[j + 1..] == r[j..] && r1[..|r1| - init] == [k] + r[..|r| - init];
      PrevNext(r[j], |b|);
      RiseAt(b, u, r, ss, init, j);
      TypeOfPrevious(b, u, k);
      forall i | 0 <= i < |r| ensures u[k] <= u[r[i]] && r[i] != k { RightBefore(b, u, r, ss, init, j, i); }
      RightListCons(b, u, r, ss, init, k);
    }
  }

  /** The two lists never meet and stand in order. */
  lemma {:induction false} LeftThenRight(b: seq<int>, u: seq<int>, l: seq<int>, r: seq<int>, ss: int, il: nat, ir: nat)
    requires Coherent(b, u) && LeftList(b, u, l, ss, il) && RightList(b, u, r, ss, ir)
    ensures InRange(l + r, |b|) && Distinct(l + r) && Ordered(u, l + r) && forall i :: 0 <= i < |l + r| ==>
      b[(l + r)[i]] == ss
  {
    hide Coherent;
    var s := l + r;
    forall i, j | 0 <= i < j < |s| ensures s[i] != s[j] && u[s[i]] <= u[s[j]] {
      if i < |l| <= j { FallingFirst(b, u, s[i], s[j]); }
    }
  }

  // ---- completeness ----

  /** The finished left list has every falling rotation of the big bucket. */
  lemma {:induction false} LeftComplete(b: seq<int>, u: seq<int>, l: seq<int>, ss: int, init: nat, x: int)
    requires Coherent(b, u) && LeftList(b, u, l, ss, init) && l[init..] == Preds(b, l, ss)
    requires forall y :: 0 <= y < |b| && b[y] == ss && b[Next(y, |b|)] < ss ==> y in l
    requires 0 <= x < |b| && b[x] == ss && Falls(b, u, x)
    ensures x in l
    decreases u[x]
  {
    hide Coherent, Preds, Ordered, Distinct;
    CoherentSize(b, u);
    var y := Next(x, |b|);
    ByByte(b, u, y, x);
    if b[y] == ss {
      TypeOfPrevious(b, u, x);
      LeftComplete(b, u, l, ss, init, y);
      var j :| 0 <= j < |l| && l[j] == y;
      PrevNext(x, |b|);
      PredMember(b, l, ss, j);
      assert x in l[init..];
    }
  }

  lemma {:induction false} RightComplete(b: seq<int>, u: seq<int>, r: seq<int>, ss: int, init: nat, x: int)
    requires Coherent(b, u) && RightList(b, u, r, ss, init) && r[..|r| - init] == Preds(b, r, ss)
    requires forall y :: 0 <= y < |b| && b[y] == ss && b[Next(y, |b|)] > ss ==> y in r
    requires 0 <= x < |b| && b[x] == ss && Rises(b, u, x)
    ensures x in r
    decreases |b| - u[x]
  {
    hide Coherent, Preds, Ordered, Distinct;
    CoherentSize(b, u);
    var y := Next(x, |b|);
    ByByte(b, u, x, y);
    if b[y] == ss {
      TypeOfPrevious(b, u, x);
      RightComplete(b, u, r, ss, init, y);
      var j :| 0 <= j < |r| && r[j] == y;
      PrevNext(x, |b|);
      PredMember(b, r, ss, j);
      assert x in r[..|r| - init];
    }
  }

  /** All bytes are the same, and so are all rotations. */
  ghost predicate Constant(b: seq<int>, u: seq<int>, ss: int) {
    && |u| == |b| && (forall x :: 0 <= x < |b| ==> b[x] == ss)
    && forall x, y :: 0 <= x < |b| && 0 <= y < |b| ==> u[x] == u[y]
  }

  /** The scans found everything, unless the block repeats a single byte. */
  ghost predicate Found(b: seq<int>, s: seq<int>, ss: int) {
    forall x :: 0 <= x < |b| && b[x] == ss ==> x in s
  }

  lemma {:induction false} FoundOrConstant(b: seq<int>, u: seq<int>, l: seq<int>, r: seq<int>, ss: int, il: nat,
      ir: nat)
    requires Coherent(b, u) && LeftList(b, u, l, ss, il) && RightList(b, u, r, ss, ir)
    requires l[il..] == Preds(b, l, ss) && r[..|r| - ir] == Preds(b, r, ss)
    requires forall y :: 0 <= y < |b| && b[y] == ss && b[Next(y, |b|)] < ss ==> y in l
    requires forall y :: 0 <= y < |b| && b[y] == ss && b[Next(y, |b|)] > ss ==> y in r
    ensures Found(b, l + r, ss) || Constant(b, u, ss)
  {
    hide Coherent, Preds, LeftList, RightList;
    CoherentSize(b, u);
    if x0 :| 0 <= x0 < |b| && b[x0] == ss && u[x0] == u[Next(x0, |b|)] {
      forall x | 0 <= x < |b| ensures b[x] == ss { LevelEverywhere(b, u, x0, x); }
      forall x, y | 0 <= x < |b| && 0 <= y < |b| ensures u[x] == u[y] {
        LevelEverywhere(b, u, x0, x);
        LevelEverywhere(b, u, x0, y);
      }
    } else {
      forall x | 0 <= x < |b| && b[x] == ss ensures x in l + r {
        if u[Next(x, |b|)] < u[x] { LeftComplete(b, u, l, ss, il, x); } else { RightComplete(b, u, r, ss, ir, x); }
      }
    }
  }

  /** What the scans leave for the bucket of bytes t, ss: ordered, distinct, only its members. */
  lemma {:induction false} Induced(b: seq<int>, u: seq<int>, s: seq<int>, ss: int, t: int)
    requires Coherent(b, u) && InRange(s, |b|) && Distinct(s) && Ordered(u, s) && forall i :: 0 <= i < |s| ==>
      b[s[i]] == ss
    ensures AllOf(b, Preds(b, s, t), t, ss) && Ordered(u, Preds(b, s, t)) && Distinct(Preds(b, s, t))
  {
    hide Coherent, Preds;
    PredsOrdered(b, u, s, t);
    var p := Preds(b, s, t);
    forall i | 0 <= i < |p| ensures b[p[i]] == t && b[Next(p[i], |b|)] == ss {
      assert Next(p[i], |b|) in s;
    }
  }

  lemma {:induction false} InducedAll(b: seq<int>, s: seq<int>, ss: int, t: int)
    requires InRange(s, |b|) && Found(b, s, ss)
    ensures forall x :: 0 <= x < |b| && b[x] == t && b[Next(x, |b|)] == ss ==> x in Preds(b, s, t)
  {
    hide Preds;
    forall x | 0 <= x < |b| && b[x] == t && b[Next(x, |b|)] == ss ensures x in Preds(b, s, t) {
      PrevNext(x, |b|);
      var j :| 0 <= j < |s| && s[j] == Next(x, |b|);
      PredMember(b, s, t, j);
    }
  }
}

/** Why scanning one big bucket from both ends sorts the small buckets that precede it: the
    facts behind step 2 of mainSort, about ranks u that only first bytes and successors decide. */
module InducedOrder {
  import opened Permutations
  import opened Rotations

  /** Ranks decided by the first byte, and behind equal first bytes by the next rotation. */
  ghost predicate Coherent(b: seq<int>, u: seq<int>) {
    && |u| == |b|
    && (forall x :: 0 <= x < |b| ==> 0 <= u[x] <= |b|)
    && (forall x, y :: 0 <= x < |b| && 0 <= y < |b| && b[x] < b[y] ==> u[x] < u[y])
    && (forall x, y :: 0 <= x < |b| && 0 <= y < |b| && b[x] == b[y] ==>
          (u[x] <= u[y] <==> u[Next(x, |b|)] <= u[Next(y, |b|)]))
  }

  lemma ByByte(b: seq<int>, u: seq<int>, x: int, y: int)
    requires Coherent(b, u) && 0 <= x < |b| && 0 <= y < |b|
    ensures b[x] < b[y] ==> u[x] < u[y]
    ensures u[x] <= u[y] ==> b[x] <= b[y]
  {
  }

  lemma ByNext(b: seq<int>, u: seq<int>, x: int, y: int)
    requires Coherent(b, u) && 0 <= x < |b| && 0 <= y < |b| && b[x] == b[y]
    ensures u[x] <= u[y] <==> u[Next(x, |b|)] <= u[Next(y, |b|)]
    ensures u[x] < u[y] <==> u[Next(x, |b|)] < u[Next(y, |b|)]
  {
  }

  // ---- falling and rising rotations ----

  /** x comes after its successor. */
  ghost predicate Falls(b: seq<int>, u: seq<int>, x: int)
    requires |u| == |b| && 0 <= x < |b|
  {
    u[Next(x, |b|)] < u[x]
  }

  ghost predicate Rises(b: seq<int>, u: seq<int>, x: int)
    requires |u| == |b| && 0 <= x < |b|
  {
    u[x] < u[Next(x, |b|)]
  }

  /** In front of an equal byte a rotation falls or rises with its successor. */
  lemma TypeOfPrevious(b: seq<int>, u: seq<int>, x: int)
    requires Coherent(b, u) && 0 <= x < |b| && b[x] == b[Next(x, |b|)]
    ensures Falls(b, u, x) <==> Falls(b, u, Next(x, |b|))
    ensures Rises(b, u, x) <==> Rises(b, u, Next(x, |b|))
  {
    hide Coherent;
    CoherentSize(b, u);
    ByNext(b, u, x, Next(x, |b|));
    ByNext(b, u, Next(x, |b|), x);
  }

  lemma CoherentSize(b: seq<int>, u: seq<int>)
    requires Coherent(b, u)
    ensures |u| == |b| && forall x :: 0 <= x < |b| ==> 0 <= u[x] <= |b|
  {
  }

  /** Within one first byte, falling rotations come before rising ones. */
  lemma {:induction false} FallingFirst(b: seq<int>, u: seq<int>, x: int, y: int)
    requires Coherent(b, u) && 0 <= x < |b| && 0 <= y < |b| && b[x] == b[y] && Falls(b, u, x) && Rises(b, u, y)
    ensures u[x] < u[y]
    decreases u[x] - u[y]
  {
    hide Coherent;
    CoherentSize(b, u);
    if u[y] <= u[x] {
      var x1, y1 := Next(x, |b|), Next(y, |b|);
      ByNext(b, u, y, x);
      ByByte(b, u, x1, x);
      ByByte(b, u, y, y1);
      ByByte(b, u, y1, x1);
      TypeOfPrevious(b, u, x);
      TypeOfPrevious(b, u, y);
      FallingFirst(b, u, x1, y1);
    }
  }

  /** A rotation level with its successor means a block of one repeated byte. */
  lemma {:induction false} LevelIsConstant(b: seq<int>, u: seq<int>, x: int, y: int)
    requires Coherent(b, u) && 0 <= x <= y < |b| && u[x] == u[Next(x, |b|)]
    ensures b[y] == b[x] && u[y] == u[x] && u[y] == u[Next(y, |b|)]
    decreases y
  {
    hide Coherent;
    CoherentSize(b, u);
    if x < y {
      LevelIsConstant(b, u, x, y - 1);
      LevelStep(b, u, y - 1);
    }
  }

  lemma LevelStep(b: seq<int>, u: seq<int>, x: int)
    requires Coherent(b, u) && 0 <= x < |b| && u[x] == u[Next(x, |b|)]
    ensures b[Next(x, |b|)] == b[x] && u[Next(x, |b|)] == u[Next(Next(x, |b|), |b|)]
  {
    hide Coherent;
    CoherentSize(b, u);
    ByByte(b, u, x, Next(x, |b|));
    ByByte(b, u, Next(x, |b|), x);
    ByNext(b, u, x, Next(x, |b|));
    ByNext(b, u, Next(x, |b|), x);
  }

  lemma {:induction false} LevelEverywhere(b: seq<int>, u: seq<int>, x: int, y: int)
    requires Coherent(b, u) && 0 <= x < |b| && 0 <= y < |b| && u[x] == u[Next(x, |b|)]
    ensures b[y] == b[x] && u[y] == u[x]
  {
    hide Coherent;
    CoherentSize(b, u);
    LevelIsConstant(b, u, x, |b| - 1);
    assert Next(|b| - 1, |b|) == 0;
    LevelStep(b, u, |b| - 1);
    LevelIsConstant(b, u, 0, x);
    LevelIsConstant(b, u, 0, y);
  }

  // ---- predecessors ----

  /** Predecessors with first byte t of the listed rotations, in list order. */
  function Preds(b: seq<int>, s: seq<int>, t: int): (p: seq<int>)
    requires InRange(s, |b|)
  {
    if s == [] then []
    else
      var k := Prev(s[|s| - 1], |b|);
      Preds(b, s[..|s| - 1], t) + if b[k] == t then [k] else []
  }

  lemma PrevNext(x: int, n: int)
    requires 0 <= x < n
    ensures Next(Prev(x, n), n) == x && Prev(Next(x, n), n) == x
  {
  }

  lemma {:induction false} PredsSnoc(b: seq<int>, s: seq<int>, x: int, t: int)
    requires InRange(s, |b|) && 0 <= x < |b|
    ensures InRange(s + [x], |b|)
    ensures Preds(b, s + [x], t) == Preds(b, s, t) + if b[Prev(x, |b|)] == t then [Prev(x, |b|)] else []
  {
    assert (s + [x])[..|s|] == s;
  }

  lemma {:induction false} PredsNone(b: seq<int>, t: int)
    ensures Preds(b, [], t) == []
  {
  }

  lemma {:induction false} PredsConcat(b: seq<int>, s: seq<int>, r: seq<int>, t: int)
    requires InRange(s, |b|) && InRange(r, |b|)
    ensures InRange(s + r, |b|) && Preds(b, s + r, t) == Preds(b, s, t) + Preds(b, r, t)
    decreases |r|
  {
    hide Preds;
    if r == [] {
      assert s + r == s;
      PredsNone(b, t);
    } else {
      var r0, x := r[..|r| - 1], r[|r| - 1];
      PredsConcat(b, s, r0, t);
      assert r == r0 + [x] && s + r == (s + r0) + [x];
      PredsSnoc(b, s + r0, x, t);
      PredsSnoc(b, r0, x, t);
    }
  }

  lemma {:induction false} PredsCons(b: seq<int>, x: int, s: seq<int>, t: int)
    requires InRange(s, |b|) && 0 <= x < |b|
    ensures InRange([x] + s, |b|)
    ensures Preds(b, [x] + s, t) == (if b[Prev(x, |b|)] == t then [Prev(x, |b|)] else []) + Preds(b, s, t)
  {
    hide Preds;
    PredsConcat(b, [x], s, t);
    PredsSnoc(b, [], x, t);
    PredsNone(b, t);
    assert [] + [x] == [x];
  }

  /** The place in the list that element i of the predecessors comes from. */
  lemma {:induction false} PredSource(b: seq<int>, s: seq<int>, t: int, i: int) returns (j: int)
    requires InRange(s, |b|) && 0 <= i < |Preds(b, s, t)|
    ensures 0 <= j < |s| && Preds(b, s, t)[i] == Prev(s[j], |b|) && b[Prev(s[j], |b|)] == t
  {
    var s0 := s[..|s| - 1];
    if i < |Preds(b, s0, t)| { j := PredSource(b, s0, t, i); } else { j := |s| - 1; }
  }

  /** Later predecessors come from later places. */
  lemma {:induction false} PredSources(b: seq<int>, s: seq<int>, t: int, i: int, k: int) returns (j: int, m: int)
    requires InRange(s, |b|) && 0 <= i < k < |Preds(b, s, t)|
    ensures 0 <= j < m < |s| && Preds(b, s, t)[i] == Prev(s[j], |b|) && Preds(b, s, t)[k] == Prev(s[m], |b|)
    ensures b[Prev(s[j], |b|)] == t && b[Prev(s[m], |b|)] == t
  {
    var s0 := s[..|s| - 1];
    if k < |Preds(b, s0, t)| {
      j, m := PredSources(b, s0, t, i, k);
    } else {
      j := PredSource(b, s0, t, i);
      m := |s| - 1;
    }
  }

  lemma {:induction false} PredMember(b: seq<int>, s: seq<int>, t: int, j: int)
    requires InRange(s, |b|) && 0 <= j < |s| && b[Prev(s[j], |b|)] == t
    ensures Prev(s[j], |b|) in Preds(b, s, t)
  {
    var s0 := s[..|s| - 1];
    if j < |s| - 1 { PredMember(b, s0, t, j); }
  }

  ghost predicate Ordered(u: seq<int>, s: seq<int>)
    requires InRange(s, |u|)
  {
    forall i, j :: 0 <= i < j < |s| ==> u[s[i]] <= u[s[j]]
  }

  /** Predecessors of an ordered list without repetition are such a list again. */
  lemma {:induction false} PredsOrdered(b: seq<int>, u: seq<int>, s: seq<int>, t: int)
    requires Coherent(b, u) && InRange(s, |b|) && Ordered(u, s) && Distinct(s)
    ensures InRange(Preds(b, s, t), |b|) && Ordered(u, Preds(b, s, t)) && Distinct(Preds(b, s, t))
    ensures forall i :: 0 <= i < |Preds(b, s, t)| ==> b[Preds(b, s, t)[i]] == t && Next(Preds(b, s, t)[i], |b|) in s
  {
    hide Coherent, Preds;
    CoherentSize(b, u);
    var p := Preds(b, s, t);
    forall i | 0 <= i < |p| ensures 0 <= p[i] < |b| && b[p[i]] == t && Next(p[i], |b|) in s {
      var j := PredSource(b, s, t, i);
      PrevNext(s[j], |b|);
    }
    forall i, k | 0 <= i < k < |p| ensures u[p[i]] <= u[p[k]] && p[i] != p[k] {
      var j, m := PredSources(b, s, t, i, k);
      PrevNext(s[j], |b|);
      PrevNext(s[m], |b|);
      ByNext(b, u, p[i], p[k]);
    }
  }
}

/** mainGtU: comparing two rotations byte by byte, then by bytes and cached ranks. */
module MainCompare {
  import opened Bytes
  import opened Lexicographic
  import opened Rotations
  import opened PrefixOrder
  import opened RotationOrder

  const N_OVERSHOOT: int := 34
  const MAX_DEPTH: int := 15

  /** A table over the block, continued cyclically past its end. */
  ghost predicate Wrapped(s: seq<int>, n: int) {
    N_OVERSHOOT < n && n + N_OVERSHOOT <= |s| && forall i :: 0 <= i < N_OVERSHOOT ==> s[n + i] == s[i]
  }

  /** The position a running index stands for. */
  function Fold(i: int, n: int): (x: int)
    requires 0 <= i < 2 * n
    ensures 0 <= x < n
  {
    if i < n then i else i - n
  }

  lemma WrappedAt(s: seq<int>, n: int, i: int)
    requires Wrapped(s, n) && 0 <= i < n + N_OVERSHOOT
    ensures i < |s| && s[i] == s[Fold(i, n)]
  {
    if i >= n { assert s[n + (i - n)] == s[i - n]; }
  }

  /** Cached ranks never contradict the order of rotations with the same first byte. */
  ghost predicate QuadrantOk(b: seq<Byte>, u: seq<int>, q: seq<int>) {
    |u| == |b| <= |q| && forall x, y :: 0 <= x < |b| && 0 <= y < |b| && b[x] == b[y] && q[x] < q[y] ==> u[x] <= u[y]
  }

  /** m places on from x. */
  function Walk(x: int, m: nat, n: int): (y: int)
    requires 0 <= x < n
    ensures 0 <= y < n
  {
    if m == 0 then x else Next(Walk(x, m - 1, n), n)
  }

  lemma {:induction false} WalkShift(x: int, m: nat, n: int)
    requires 0 <= x < n
    ensures Walk(Next(x, n), m, n) == Walk(x, m + 1, n)
  {
    if m > 0 { WalkShift(x, m - 1, n); }
  }

  lemma {:induction false} PrefixSnoc(b: seq<Byte>, x: int, m: nat)
    requires 0 <= x < |b|
    ensures Prefix(b, x, m + 1) == Prefix(b, x, m) + [b[Walk(x, m, |b|)]]
    decreases m
  {
    if m == 0 {
      assert Prefix(b, Next(x, |b|), 0) == [];
    } else {
      PrefixSnoc(b, Next(x, |b|), m - 1);
      WalkShift(x, m - 1, |b|);
    }
  }

  /** After m equal bytes the comparison goes on at i1, i2. */
  ghost predicate Level(b: seq<Byte>, u: seq<int>, x0: int, y0: int, m: nat, i1: int, i2: int) {
    && |u| == |b| && 0 <= x0 < |b| && 0 <= y0 < |b| && 0 <= i1 < 2 * |b| && 0 <= i2 < 2 * |b|
    && Fold(i1, |b|) == Walk(x0, m, |b|) && Fold(i2, |b|) == Walk(y0, m, |b|)
    && SamePrefix(b, x0, y0, m)
    && (u[x0] <= u[y0] <==> u[Fold(i1, |b|)] <= u[Fold(i2, |b|)])
    && (u[y0] <= u[x0] <==> u[Fold(i2, |b|)] <= u[Fold(i1, |b|)])
  }

  lemma {:induction false} LevelStart(b: seq<Byte>, u: seq<int>, i1: int, i2: int)
    requires |u| == |b| && 0 <= i1 < 2 * |b| && 0 <= i2 < 2 * |b|
    ensures Level(b, u, Fold(i1, |b|), Fold(i2, |b|), 0, i1, i2)
  {
  }

  lemma {:induction false} LevelEqual(b: seq<Byte>, u: seq<int>, x0: int, y0: int, m: nat, i1: int, i2: int)
    requires Ranked(b, u) && Level(b, u, x0, y0, m, i1, i2) && i1 + 1 < 2 * |b| && i2 + 1 < 2 * |b|
    requires b[Fold(i1, |b|)] == b[Fold(i2, |b|)]
    ensures Level(b, u, x0, y0, m + 1, i1 + 1, i2 + 1)
  {
    hide Prefix, Ranked, LexLe, Rotation;
    RankedSize(b, u);
    PrefixSnoc(b, x0, m);
    PrefixSnoc(b, y0, m);
    NextDecides(b, u, Fold(i1, |b|), Fold(i2, |b|));
    NextDecides(b, u, Fold(i2, |b|), Fold(i1, |b|));
  }

  lemma RankedSize(b: seq<Byte>, u: seq<int>)
    requires Ranked(b, u)
    ensures |u| == |b|
  {
  }

  lemma {:induction false} LevelDiffer(b: seq<Byte>, u: seq<int>, x0: int, y0: int, m: nat, i1: int, i2: int)
    requires Ranked(b, u) && Level(b, u, x0, y0, m, i1, i2) && b[Fold(i1, |b|)] != b[Fold(i2, |b|)]
    ensures if b[Fold(i1, |b|)] > b[Fold(i2, |b|)] then u[y0] <= u[x0] else u[x0] <= u[y0]
  {
    hide Prefix, Ranked, LexLe, Rotation;
    FirstByteDecides(b, u, Fold(i1, |b|), Fold(i2, |b|));
    FirstByteDecides(b, u, Fold(i2, |b|), Fold(i1, |b|));
  }

  lemma {:induction false} LevelQuadrant(b: seq<Byte>, u: seq<int>, q: seq<int>, x0: int, y0: int, m: nat, i1: int,
      i2: int)
    requires Level(b, u, x0, y0, m, i1, i2) && QuadrantOk(b, u, q)
    requires b[Fold(i1, |b|)] == b[Fold(i2, |b|)] && q[Fold(i1, |b|)] != q[Fold(i2, |b|)]
    ensures if q[Fold(i1, |b|)] > q[Fold(i2, |b|)] then u[y0] <= u[x0] else u[x0] <= u[y0]
  {
    hide Prefix;
  }

  lemma LevelFold(b: seq<Byte>, u: seq<int>, x0: int, y0: int, m: nat, i1: int, i2: int)
    requires Level(b, u, x0, y0, m, i1, i2)
    ensures Level(b, u, x0, y0, m, Fold(i1, |b|), Fold(i2, |b|))
  {
    hide Prefix, Walk;
  }

  /** Once a whole round has been compared, the rotations are equal. */
  lemma {:induction false} LevelRound(b: seq<Byte>, u: seq<int>, x0: int, y0: int, m: nat, i1: int, i2: int)
    requires Ranked(b, u) && Level(b, u, x0, y0, m, i1, i2) && m >= |b|
    ensures u[x0] == u[y0]
  {
    hide Prefix, Rotation, LexLe;
    LongPrefix(b, x0, m);
    LongPrefix(b, y0, m);
    PrefixIsRotation(b, x0);
    PrefixIsRotation(b, y0);
    LexRefl(Rotation(b, x0));
  }

  /** The state of the comparison loops, indices included. */
  ghost predicate Comparing(b: seq<Byte>, u: seq<int>, block: seq<int>, quadrant: seq<int>) {
    && Ranked(b, u) && Wrapped(block, |b|) && block[..|b|] == b && Wrapped(quadrant, |b|) && QuadrantOk(b, u, quadrant)
  }

  /** mainGtU.  True only if rotation i1 is not before rotation i2, false only if it is not
      after it; rotations that are equal may be answered either way.  The overshoot of 34
      bytes is just enough for the deepest call. */
  method GtU(i10: int, i20: int, block: array<int>, quadrant: array<int>, nblock: int, budget0: int, ghost b: seq<Byte>,
      ghost u: seq<int>)
    returns (gt: bool, budget: int)
    requires nblock == |b| && Comparing(b, u, block[..], quadrant[..])
    requires 0 <= i10 < nblock + MAX_DEPTH && 0 <= i20 < nblock + MAX_DEPTH
    ensures |u| == |b| && 0 <= i10 < 2 * |b| && 0 <= i20 < 2 * |b|
    ensures gt ==> u[Fold(i20, |b|)] <= u[Fold(i10, |b|)]
    ensures !gt ==> u[Fold(i10, |b|)] <= u[Fold(i20, |b|)]
    ensures budget <= budget0
  {
    hide Ranked, Wrapped, QuadrantOk, Level, Comparing;
    ComparingSizes(b, u, block[..], quadrant[..]);
    var i1, i2 := i10, i20;
    budget := budget0;
    ghost var x0, y0, m := Fold(i1, |b|), Fold(i2, |b|), 0;
    LevelStart(b, u, i1, i2);
    for step := 0 to 12
      invariant m == step && i1 == i10 + step && i2 == i20 + step && Level(b, u, x0, y0, m, i1, i2)
    {
      BytesAt(b, u, block[..], quadrant[..], i1, i2);
      var c1, c2 := block[i1], block[i2];
      if c1 != c2 {
        LevelDiffer(b, u, x0, y0, m, i1, i2);
        return c1 > c2, budget;
      }
      LevelEqual(b, u, x0, y0, m, i1, i2);
      i1, i2, m := i1 + 1, i2 + 1, m + 1;
    }
    var k := nblock + 8;
    while true
      invariant -8 <= k - 8 && Level(b, u, x0, y0, m, i1, i2) && m == 12 + (nblock + 8 - k)
      invariant 0 <= i1 <= nblock + 26 && 0 <= i2 <= nblock + 26 && budget <= budget0
      decreases k
    {
      ghost var start := m;
      for step := 0 to 8
        invariant m == start + step && Level(b, u, x0, y0, m, i1, i2)
        invariant 0 <= i1 <= nblock + 26 + step && 0 <= i2 <= nblock + 26 + step
      {
        BytesAt(b, u, block[..], quadrant[..], i1, i2);
        var c1, c2 := block[i1], block[i2];
        if c1 != c2 {
          LevelDiffer(b, u, x0, y0, m, i1, i2);
          return c1 > c2, budget;
        }
        var s1, s2 := quadrant[i1], quadrant[i2];
        if s1 != s2 {
          LevelQuadrant(b, u, quadrant[..], x0, y0, m, i1, i2);
          return s1 > s2, budget;
        }
        LevelEqual(b, u, x0, y0, m, i1, i2);
        i1, i2, m := i1 + 1, i2 + 1, m + 1;
      }
      LevelFold(b, u, x0, y0, m, i1, i2);
      if i1 >= nblock { i1 := i1 - nblock; }
      if i2 >= nblock { i2 := i2 - nblock; }
      k := k - 8;
      budget := budget - 1;
      if k < 0 { break; }
    }
    LevelRound(b, u, x0, y0, m, i1, i2);
    gt := false;
  }

  lemma ComparingSizes(b: seq<Byte>, u: seq<int>, block: seq<int>, quadrant: seq<int>)
    requires Comparing(b, u, block, quadrant)
    ensures |u| == |b| && N_OVERSHOOT < |b| && Ranked(b, u) && QuadrantOk(b, u, quadrant) && |b| + 34 <= |block|
        && |b| + 34 <= |quadrant|
  {
  }

  lemma BytesAt(b: seq<Byte>, u: seq<int>, block: seq<int>, quadrant: seq<int>, i1: int, i2: int)
    requires Comparing(b, u, block, quadrant) && 0 <= i1 < |b| + N_OVERSHOOT && 0 <= i2 < |b| + N_OVERSHOOT
    ensures N_OVERSHOOT < |b| && i1 < |block| && i2 < |block| && i1 < |quadrant| && i2 < |quadrant|
    ensures block[i1] == b[Fold(i1, |b|)] && block[i2] == b[Fold(i2, |b|)]
    ensures quadrant[i1] == quadrant[Fold(i1, |b|)] && quadrant[i2] == quadrant[Fold(i2, |b|)]
  {
    hide Ranked, QuadrantOk;
    WrappedAt(block, |b|, i1);
    WrappedAt(block, |b|, i2);
    WrappedAt(quadrant, |b|, i1);
    WrappedAt(quadrant, |b|, i2);
    assert block[Fold(i1, |b|)] == block[..|b|][Fold(i1, |b|)];
    assert block[Fold(i2, |b|)] == block[..|b|][Fold(i2, |b|)];
  }
}

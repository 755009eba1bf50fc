/** The shape of a Huffman tree as gen_bitlen meets it: nodes from the root down, each with the
    position of its father; and what cutting it off at a level does to Kraft's sum. */
module CodeTree {
  import opened Bits

  /** Fathers come before sons, and every inner node has two. */
  datatype Shape = Shape(par: seq<nat>, inner: seq<bool>)

  /** Sons of node i among the first k nodes; the root has no father. */
  function Sons(s: Shape, i: nat, k: nat): nat
    requires k <= |s.par|
  {
    if k <= 1 then 0 else Sons(s, i, k - 1) + if s.par[k - 1] == i then 1 else 0
  }

  ghost predicate Growing(s: Shape) {
    && |s.par| == |s.inner| >= 1 && s.inner[0]
    && forall i :: 0 < i < |s.par| ==> s.par[i] < i && s.inner[s.par[i]]
  }

  ghost predicate Full(s: Shape) {
    Growing(s) && forall i :: 0 <= i < |s.par| && s.inner[i] ==> Sons(s, i, |s.par|) == 2
  }

  /** Depth cut off at m. */
  function Cut(s: Shape, m: nat, i: nat): (d: nat)
    requires i < |s.par| && forall j :: 0 < j < |s.par| ==> s.par[j] < j
    ensures d <= m
  {
    if i == 0 then 0 else if Cut(s, m, s.par[i]) + 1 > m then m else Cut(s, m, s.par[i]) + 1
  }

  /** Nodes among the first k that lie below level m. */
  function Overflow(s: Shape, m: nat, k: nat): nat
    requires Growing(s) && k <= |s.par|
  {
    if k <= 1 then 0 else Overflow(s, m, k - 1) + if Cut(s, m, s.par[k - 1]) == m then 1 else 0
  }

  /** Leaves among the first k that end on level b when cut off. */
  function Leaves(s: Shape, m: nat, b: nat, k: nat): nat
    requires Growing(s) && k <= |s.par|
  {
    if k == 0 then 0 else Leaves(s, m, b, k - 1) + if !s.inner[k - 1] && Cut(s, m, k - 1) == b then 1 else 0
  }

  /** Inner nodes among the first k on level m or below. */
  function Deep(s: Shape, m: nat, k: nat): nat
    requires Growing(s) && k <= |s.par|
  {
    if k == 0 then 0 else Deep(s, m, k - 1) + if s.inner[k - 1] && Cut(s, m, k - 1) == m then 1 else 0
  }

  /** Kraft's sum of the cut-off leaves among the first k, in units of 2^-m. */
  function Kraft(s: Shape, m: nat, k: nat): nat
    requires Growing(s) && k <= |s.par|
  {
    if k == 0 then 0 else Kraft(s, m, k - 1) + if s.inner[k - 1] then 0 else Pow2(m - Cut(s, m, k - 1))
  }

  /** What a son of node i is worth. */
  function Half(s: Shape, m: nat, i: nat): nat
    requires Growing(s) && i < |s.par|
  {
    var d := Cut(s, m, i);
    if d == m then 1 else Pow2(m - d - 1)
  }

  /** The sons still missing among the first k nodes, for the fathers before j. */
  function Missing(s: Shape, m: nat, j: nat, k: nat): int
    requires Growing(s) && j <= k <= |s.par|
  {
    if j == 0 then 0 else Missing(s, m, j - 1, k) + if s.inner[j - 1] then (2 - Sons(s, j - 1, k)) * Half(s, m, j - 1)
        else 0
  }

  /** Sons of deep fathers before j, among the first k nodes. */
  function DeepSons(s: Shape, m: nat, j: nat, k: nat): nat
    requires Growing(s) && j <= k <= |s.par|
  {
    if j == 0 then 0 else DeepSons(s, m, j - 1, k) + if s.inner[j - 1] && Cut(s, m, j - 1) == m then Sons(s, j - 1, k)
        else 0
  }

  lemma {:induction false} NoSonsYet(s: Shape, i: nat, k: nat)
    requires Growing(s) && k <= i + 1 && k <= |s.par|
    ensures Sons(s, i, k) == 0
  {
    if k > 1 { NoSonsYet(s, i, k - 1); }
  }

  lemma OneLess(sons: nat, h: nat)
    ensures (2 - (sons + 1)) * h == (2 - sons) * h - h
  {
  }

  /** A new node is one son less missing. */
  lemma {:induction false} MissingStep(s: Shape, m: nat, j: nat, k: nat)
    requires Growing(s) && j <= k < |s.par| && 1 <= k
    ensures Missing(s, m, j, k + 1) == Missing(s, m, j, k) - if s.par[k] < j then Half(s, m, s.par[k]) else 0
    ensures DeepSons(s, m, j, k + 1) == DeepSons(s, m, j, k) + if s.par[k] < j && Cut(s, m, s.par[k]) == m then 1 else 0
  {
    hide Cut, Half;
    if j > 0 {
      MissingStep(s, m, j - 1, k);
      if s.par[k] == j - 1 { OneLess(Sons(s, j - 1, k), Half(s, m, j - 1)); }
    }
  }

  /** Two sons are worth their father, or one more when they are cut off. */
  lemma SonsWorth(s: Shape, m: nat, i: nat)
    requires Growing(s) && i < |s.par|
    ensures 2 * Half(s, m, i) == Pow2(m - Cut(s, m, i)) + if Cut(s, m, i) == m then 1 else 0
    ensures forall j :: 0 < j < |s.par| && s.par[j] == i ==> Pow2(m - Cut(s, m, j)) == Half(s, m, i)
  {
    var d := Cut(s, m, i);
    if d < m { assert Pow2(m - d) == 2 * Pow2(m - d - 1); }
    assert Pow2(0) == 1;
  }

  /** Sum of the leaves and of the sons still missing: a full level, and one more for every
      deep inner node. */
  lemma {:induction false} Balance(s: Shape, m: nat, k: nat)
    requires Growing(s) && 1 <= k <= |s.par| && m >= 1
    ensures Kraft(s, m, k) + Missing(s, m, k, k) == Pow2(m) + Deep(s, m, k)
    ensures Overflow(s, m, k) == DeepSons(s, m, k, k)
  {
    hide Cut, Half, Pow2;
    if k == 1 {
      BalanceRoot(s, m);
    } else {
      var i := k - 1;
      Balance(s, m, i);
      MissingStep(s, m, i, i);
      NoSonsYet(s, i, k);
      SonsWorth(s, m, s.par[i]);
      if s.inner[i] { SonsWorth(s, m, i); }
    }
  }

  lemma BalanceRoot(s: Shape, m: nat)
    requires Growing(s) && m >= 1
    ensures Kraft(s, m, 1) + Missing(s, m, 1, 1) == Pow2(m) + Deep(s, m, 1) && Overflow(s, m, 1) == DeepSons(s, m, 1, 1)
  {
    assert Sons(s, 0, 1) == 0;
    assert Kraft(s, m, 0) == 0 && Deep(s, m, 0) == 0 && Missing(s, m, 0, 1) == 0 && DeepSons(s, m, 0, 1) == 0;
    assert Cut(s, m, 0) == 0;
    SonsWorth(s, m, 0);
  }

  lemma {:induction false} NothingMissing(s: Shape, m: nat, j: nat)
    requires Full(s) && j <= |s.par|
    ensures Missing(s, m, j, |s.par|) == 0 && DeepSons(s, m, j, |s.par|) == 2 * Deep(s, m, j)
  {
    hide Cut, Half;
    if j > 0 { NothingMissing(s, m, j - 1); }
  }

  lemma {:induction false} OverflowIsDeep(s: Shape, m: nat, k: nat)
    requires Growing(s) && k <= |s.par| && m >= 1
    ensures Overflow(s, m, k) <= Leaves(s, m, m, k) + Deep(s, m, k)
  {
    if k > 0 { OverflowIsDeep(s, m, k - 1); }
  }

  /** Cutting a full tree off at level m: Kraft's sum exceeds one by half of what overflows,
      and at least that many leaves end on level m. */
  lemma {:induction false} CutOff(s: Shape, m: nat)
    requires Full(s) && m >= 1
    ensures var n := |s.par|;
      Overflow(s, m, n) == 2 * (Kraft(s, m, n) - Pow2(m)) && Leaves(s, m, m, n) >= Kraft(s, m, n) - Pow2(m)
  {
    hide Cut, Half, Pow2;
    Balance(s, m, |s.par|);
    NothingMissing(s, m, |s.par|);
    OverflowIsDeep(s, m, |s.par|);
  }
}

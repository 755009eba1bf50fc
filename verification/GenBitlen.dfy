/** gen_bitlen of trees.c: bit lengths from the Huffman tree, none longer than allowed, and the
    length of the block they give. */
module GenBitlen {
  import opened Bits
  import opened Permutations
  import opened CodeTree
  import opened LengthRepair
  import opened Wrappers

  /** The nodes from the root down, as they lie at the end of the heap array; dl holds each
      node's father, which its length will overwrite. */
  ghost predicate IsTree(s: Shape, order: seq<int>, dl: seq<int>, maxCode: int) {
    && Full(s) && |order| == |s.par| && InRange(order, |dl|) && Distinct(order)
    && (forall i :: 0 <= i < |order| ==> (s.inner[i] <==> order[i] > maxCode))
    && (forall i :: 0 < i < |order| ==> dl[order[i]] == order[s.par[i]])
  }

  /** Extra bits of symbol n. */
  function Extra(extra: seq<int>, base: int, n: int): int {
    if n >= base && n - base < |extra| then extra[n - base] else 0
  }

  /** Bits that the first k leaves cost with lengths l. */
  function Cost(s: Shape, order: seq<int>, freq: seq<int>, extra: seq<int>, base: int, l: seq<int>, k: nat): int
    requires k <= |order| == |s.inner| && InRange(order, |freq|) && InRange(order, |l|)
  {
    if k == 0 then 0
    else
      Cost(s, order, freq, extra, base, l, k - 1)
      + if s.inner[k - 1] then 0 else freq[order[k - 1]] * (l[order[k - 1]] + Extra(extra, base, order[k - 1]))
  }

  function AllLeaves(s: Shape, k: nat): nat
    requires k <= |s.inner|
  {
    if k == 0 then 0 else AllLeaves(s, k - 1) + if s.inner[k - 1] then 0 else 1
  }

  // ---- the first pass ----

  /** The first k nodes have their cut-off depth as length, the others still their father. */
  ghost predicate Measured(s: Shape, order: seq<int>, dl0: seq<int>, dl: seq<int>, m: nat, k: nat) {
    && Growing(s) && |dl| == |dl0| && |order| == |s.par| && k <= |order| && InRange(order, |dl|)
    && (forall j :: 0 <= j < k ==> dl[order[j]] == Cut(s, m, j))
    && (forall j :: k <= j < |order| ==> dl[order[j]] == dl0[order[j]])
    && (forall x :: 0 <= x < |dl| && x !in order ==> dl[x] == dl0[x])
  }

  lemma FatherLength(s: Shape, order: seq<int>, dl0: seq<int>, dl: seq<int>, maxCode: int, m: nat, k: nat)
    requires IsTree(s, order, dl0, maxCode) && Measured(s, order, dl0, dl, m, k) && 0 < k < |order|
    ensures 0 <= order[k] < |dl| && 0 <= dl[order[k]] < |dl| && 0 <= s.par[k] < k < |s.par| == |s.inner|
    ensures dl[dl[order[k]]] == Cut(s, m, s.par[k]) && (s.inner[k] <==> order[k] > maxCode) && Growing(s)
  {
    hide Sons, Cut, Distinct;
    assert dl[order[k]] == order[s.par[k]];
  }

  lemma CutOfSon(s: Shape, m: nat, k: nat)
    requires Growing(s) && 0 < k < |s.par|
    ensures Cut(s, m, k) == if Cut(s, m, s.par[k]) + 1 > m then m else Cut(s, m, s.par[k]) + 1
  {
  }

  lemma Others(order: seq<int>, k: nat)
    requires Distinct(order) && k < |order|
    ensures forall j :: 0 <= j < |order| && j != k ==> order[j] != order[k]
  {
  }

  lemma {:induction false} MeasureStep(s: Shape, order: seq<int>, dl0: seq<int>, dl: seq<int>, maxCode: int, m: nat,
      k: nat)
    requires IsTree(s, order, dl0, maxCode) && Measured(s, order, dl0, dl, m, k) && 0 < k < |order|
    ensures 0 <= order[k] < |dl| && Measured(s, order, dl0, dl[order[k] := Cut(s, m, k)], m, k + 1)
  {
    hide Sons, Cut, Distinct;
    Others(order, k);
  }

  lemma {:induction false} CostLocal(s: Shape, order: seq<int>, freq: seq<int>, extra: seq<int>, base: int, l: seq<int>,
      l1: seq<int>, k: nat)
    requires k <= |order| == |s.inner| && InRange(order, |freq|) && InRange(order, |l|) && |l1| == |l|
    requires forall j :: 0 <= j < k ==> l1[order[j]] == l[order[j]]
    ensures Cost(s, order, freq, extra, base, l1, k) == Cost(s, order, freq, extra, base, l, k)
  {
    if k > 0 { CostLocal(s, order, freq, extra, base, l, l1, k - 1); }
  }

  lemma {:induction false} CostMeasured(s: Shape, order: seq<int>, freq: seq<int>, extra: seq<int>, base: int,
      dl0: seq<int>, dl: seq<int>, maxCode: int, m: nat, k: nat, bits: int)
    requires IsTree(s, order, dl0, maxCode) && Measured(s, order, dl0, dl, m, k) && 0 < k < |order|
        && InRange(order, |freq|)
    ensures Cost(s, order, freq, extra, base, dl[order[k] := bits], k + 1) ==
            Cost(s, order, freq, extra, base, dl, k)
            + if s.inner[k] then 0 else freq[order[k]] * (bits + Extra(extra, base, order[k]))
  {
    hide *;
    MeasuredParts(s, order, dl0, dl, maxCode, m, k);
    CostLocal(s, order, freq, extra, base, dl, dl[order[k] := bits], k);
    CostNext(s, order, freq, extra, base, dl[order[k] := bits], k);
  }

  lemma MeasuredParts(s: Shape, order: seq<int>, dl0: seq<int>, dl: seq<int>, maxCode: int, m: nat, k: nat)
    requires IsTree(s, order, dl0, maxCode) && Measured(s, order, dl0, dl, m, k) && k < |order|
    ensures |order| == |s.par| == |s.inner| && InRange(order, |dl|) && 0 <= order[k] < |dl|
    ensures forall j :: 0 <= j < k ==> 0 <= order[j] < |dl| && order[j] != order[k]
  {
    hide Sons, Cut, Distinct;
    Others(order, k);
  }

  lemma {:induction false} CostNext(s: Shape, order: seq<int>, freq: seq<int>, extra: seq<int>, base: int, l: seq<int>,
      k: nat)
    requires k < |order| == |s.inner| && InRange(order, |freq|) && InRange(order, |l|)
    ensures 0 <= order[k] < |freq| && 0 <= order[k] < |l|
    ensures Cost(s, order, freq, extra, base, l, k + 1) ==
            Cost(s, order, freq, extra, base, l, k)
            + if s.inner[k] then 0 else freq[order[k]] * (l[order[k]] + Extra(extra, base, order[k]))
  {
    hide Extra;
  }

  ghost predicate Levels(s: Shape, bl: seq<int>, m: nat, k: nat) {
    Growing(s) && k <= |s.par| && m < |bl| && forall b :: 0 <= b < |bl| ==> bl[b] == Leaves(s, m, b, k)
  }

  lemma {:induction false} LevelsStep(s: Shape, bl: seq<int>, m: nat, k: nat, bl1: seq<int>)
    requires Levels(s, bl, m, k) && k < |s.par|
    requires bl1 == if s.inner[k] then bl else bl[Cut(s, m, k) := bl[Cut(s, m, k)] + 1]
    ensures Levels(s, bl1, m, k + 1)
  {
  }

  lemma LevelsStart(s: Shape, bl: seq<int>, m: nat)
    requires Growing(s) && m < |bl| && forall b :: 0 <= b < |bl| ==> bl[b] == 0
    ensures Levels(s, bl, m, 1)
  {
    assert forall b :: Leaves(s, m, b, 1) == Leaves(s, m, b, 0);
  }

  ghost predicate PassOne(s: Shape, order: seq<int>, dl0: seq<int>, dl: seq<int>, bl: seq<int>, maxCode: int, m: nat,
      k: nat, overflow: int) {
    && IsTree(s, order, dl0, maxCode) && Measured(s, order, dl0, dl, m, k) && Levels(s, bl, m, k)
    && overflow == Overflow(s, m, k) && 0 < k
  }

  /** One node of the first pass. */
  lemma {:induction false} PassStep(s: Shape, order: seq<int>, dl0: seq<int>, dl: seq<int>, bl: seq<int>, maxCode: int,
      m: nat, k: nat, overflow: int, bits: int, bl1: seq<int>, dl1: seq<int>)
    requires PassOne(s, order, dl0, dl, bl, maxCode, m, k, overflow) && k < |order| && 0 <= order[k] < |dl|
        && 0 <= dl[order[k]] < |dl|
    requires bits == (if dl[dl[order[k]]] + 1 > m then m else dl[dl[order[k]]] + 1) && 0 <= bits < |bl|
    requires dl1 == dl[order[k] := bits] && bl1 == if order[k] > maxCode then bl else bl[bits := bl[bits] + 1]
    ensures PassOne(s, order, dl0, dl1, bl1, maxCode, m, k + 1, if dl[dl[order[k]]] + 1 > m then overflow + 1
        else overflow)
  {
    hide Cut, Sons, Leaves, Overflow, IsTree, Measured, Levels, Growing;
    FatherLength(s, order, dl0, dl, maxCode, m, k);
    CutOfSon(s, m, k);
    MeasureStep(s, order, dl0, dl, maxCode, m, k);
    OverflowStep(s, m, k);
    LevelsStep(s, bl, m, k, bl1);
  }

  lemma PassReads(s: Shape, order: seq<int>, dl0: seq<int>, dl: seq<int>, bl: seq<int>, maxCode: int, m: nat, k: nat,
      overflow: int)
    requires PassOne(s, order, dl0, dl, bl, maxCode, m, k, overflow) && k < |order|
    ensures 0 <= order[k] < |dl| && 0 <= dl[order[k]] < |dl| && 0 <= dl[dl[order[k]]] <= m
        && (s.inner[k] <==> order[k] > maxCode)
    ensures m < |bl| && |s.inner| == |order|
  {
    hide Cut, Sons, Leaves, Overflow;
    FatherLength(s, order, dl0, dl, maxCode, m, k);
  }

  lemma OverflowStep(s: Shape, m: nat, k: nat)
    requires Growing(s) && 0 < k < |s.par|
    ensures Overflow(s, m, k + 1) == Overflow(s, m, k) + if Cut(s, m, s.par[k]) == m then 1 else 0
  {
    hide Cut;
  }

  lemma PassStart(s: Shape, order: seq<int>, dl0: seq<int>, dl: seq<int>, bl: seq<int>, maxCode: int, m: nat)
    requires IsTree(s, order, dl0, maxCode) && m < |bl| && (forall b :: 0 <= b < |bl| ==> bl[b] == 0) && |order| >= 1
    requires 0 <= order[0] < |dl0| && dl == dl0[order[0] := 0]
    ensures PassOne(s, order, dl0, dl, bl, maxCode, m, 1, 0)
  {
    LevelsStart(s, bl, m);
    assert Cut(s, m, 0) == 0;
  }

  lemma {:induction false} CostStart(s: Shape, order: seq<int>, freq: seq<int>, extra: seq<int>, base: int, l: seq<int>)
    requires 1 <= |order| == |s.inner| && InRange(order, |freq|) && InRange(order, |l|) && s.inner[0]
    ensures Cost(s, order, freq, extra, base, l, 1) == 0
  {
    assert Cost(s, order, freq, extra, base, l, 0) == 0;
  }

  /** Bits that the first k leaves cost with the lengths of the static tree, if there is one. */
  ghost function StaticCost(s: Shape, order: seq<int>, freq: seq<int>, extra: seq<int>, base: int,
      stree: Option<seq<int>>, k: nat): int
    requires k <= |order| == |s.inner| && InRange(order, |freq|)
  {
    if stree.None? then 0
    else
      PaddedRange(order, stree.value, |freq|);
      Cost(s, order, freq, extra, base, PaddedTo(stree.value, |freq|), k)
  }

  ghost function PaddedTo(l: seq<int>, n: nat): (p: seq<int>)
    ensures |p| == n && forall i :: 0 <= i < n ==> p[i] == if i < |l| then l[i] else 0
  {
    seq(n, i requires 0 <= i < n => if i < |l| then l[i] else 0)
  }

  lemma PaddedRange(order: seq<int>, l: seq<int>, n: nat)
    requires InRange(order, n)
    ensures InRange(order, |PaddedTo(l, n)|)
  {
  }

  lemma {:induction false} StaticCostNext(s: Shape, order: seq<int>, freq: seq<int>, extra: seq<int>, base: int,
      stree: Option<seq<int>>, k: nat)
    requires k < |order| == |s.inner| && InRange(order, |freq|)
    requires !s.inner[k] && stree.Some? ==> 0 <= order[k] < |stree.value|
    ensures 0 <= order[k] < |freq|
    ensures StaticCost(s, order, freq, extra, base, stree, k + 1) ==
            StaticCost(s, order, freq, extra, base, stree, k)
            + if s.inner[k] || stree.None? then 0
                else freq[order[k]] * (stree.value[order[k]] + Extra(extra, base, order[k]))
  {
    hide Extra;
    if stree.Some? {
      PaddedRange(order, stree.value, |freq|);
      CostNext(s, order, freq, extra, base, PaddedTo(stree.value, |freq|), k);
    }
  }

  lemma {:induction false} StaticCostStart(s: Shape, order: seq<int>, freq: seq<int>, extra: seq<int>, base: int,
      stree: Option<seq<int>>)
    requires 1 <= |order| == |s.inner| && InRange(order, |freq|) && s.inner[0]
    ensures StaticCost(s, order, freq, extra, base, stree, 1) == 0
  {
    if stree.Some? {
      PaddedRange(order, stree.value, |freq|);
      CostStart(s, order, freq, extra, base, PaddedTo(stree.value, |freq|));
    }
  }

  /** The first pass: depths, cut off at the longest length allowed. */
  method FirstPass(heap: array<int>, heapMax: nat, dl: array<int>, freq: array<int>, maxCode: int, extra: seq<int>,
      base: int, stree: Option<seq<int>>, m: nat, bl: array<int>, optLen0: int, staticLen0: int, ghost s: Shape,
      ghost order: seq<int>)
    returns (overflow: int, optLen: int, staticLen: int)
    requires heap != dl && heap != bl && dl != bl && freq != dl && freq != bl && heapMax < heap.Length
        && order == heap[heapMax..]
    requires IsTree(s, order, dl[..], maxCode) && freq.Length == dl.Length && 1 <= m < bl.Length
    requires stree.Some? ==> maxCode < |stree.value|
    modifies dl, bl
    ensures PassOne(s, order, old(dl[..]), dl[..], bl[..], maxCode, m, |order|, overflow)
    ensures InRange(order, |freq[..]|) && optLen == optLen0 + Cost(s, order, freq[..], extra, base, dl[..], |order|)
    ensures staticLen == staticLen0 + StaticCost(s, order, freq[..], extra, base, stree, |order|)
  {
    hide Cut, Sons, Leaves, Overflow, Cost, Measured, Levels, Extra, StaticCost;
    ghost var dl0, f, hs := dl[..], freq[..], heap[..];
    TreeSize(s, order, dl0, maxCode);
    for b := 0 to bl.Length
      modifies bl
      invariant forall c :: 0 <= c < b ==> bl[c] == 0
    {
      bl[b] := 0;
    }
    assert dl[..] == dl0 && heap[..] == hs && freq[..] == f;
    optLen, staticLen, overflow := optLen0, staticLen0, 0;
    assert heap[heapMax] == order[0];
    dl[heap[heapMax]] := 0;
    PassStart(s, order, dl0, dl[..], bl[..], maxCode, m);
    CostStart(s, order, f, extra, base, dl[..]);
    StaticCostStart(s, order, f, extra, base, stree);
    for h := heapMax + 1 to heap.Length
      invariant heap[..] == hs && freq[..] == f
      invariant PassOne(s, order, dl0, dl[..], bl[..], maxCode, m, h - heapMax, overflow)
      invariant optLen == optLen0 + Cost(s, order, f, extra, base, dl[..], h - heapMax)
      invariant staticLen == staticLen0 + StaticCost(s, order, f, extra, base, stree, h - heapMax)
    {
      ghost var k, d, b := h - heapMax, dl[..], bl[..];
      assert heap[h] == order[k];
      PassReads(s, order, dl0, d, b, maxCode, m, k, overflow);
      var n := heap[h];
      StaticCostNext(s, order, f, extra, base, stree, k);
      var bits := dl[dl[n]] + 1;
      ghost var over := overflow;
      if bits > m { bits, overflow := m, overflow + 1; }
      CostMeasured(s, order, f, extra, base, dl0, d, maxCode, m, k, bits);
      dl[n] := bits;
      assert dl[..] == d[n := bits];
      if n <= maxCode {
        bl[bits] := bl[bits] + 1;
        optLen := optLen + freq[n] * (bits + Extra(extra, base, n));
        if stree.Some? { staticLen := staticLen + freq[n] * (stree.value[n] + Extra(extra, base, n)); }
      }
      PassStep(s, order, dl0, d, b, maxCode, m, k, over, bits, bl[..], dl[..]);
    }
  }

  lemma TreeSize(s: Shape, order: seq<int>, dl: seq<int>, maxCode: int)
    requires IsTree(s, order, dl, maxCode)
    ensures |order| == |s.inner| >= 1 && s.inner[0] && InRange(order, |dl|)
  {
    hide Sons;
  }

  // ---- from the tree to the levels ----

  /** Kraft's sum of the levels, when they count the first k leaves. */
  lemma {:induction false} LevelsOfOne(s: Shape, bl: seq<int>, bl1: seq<int>, m: nat, k: nat, l: nat)
    requires Growing(s) && k < |s.par| && l <= m < |bl| == |bl1| && 0 < Cut(s, m, k)
    requires bl1 == if s.inner[k] then bl else bl[Cut(s, m, k) := bl[Cut(s, m, k)] + 1]
    ensures LevelKraft(bl1, m, l) == LevelKraft(bl, m, l) + if s.inner[k]
        || Cut(s, m, k) > l then 0 else Pow2(m - Cut(s, m, k))
    ensures Total(bl1, l) == Total(bl, l) + if s.inner[k] || Cut(s, m, k) > l then 0 else 1
  {
    hide Cut, Pow2;
    if !s.inner[k] {
      KraftUpdate(bl, m, l, Cut(s, m, k), 1);
    }
  }

  /** The counts of the first k leaves by level, as a sequence. */
  ghost function Counts(s: Shape, m: nat, k: nat, size: nat): (bl: seq<int>)
    requires Growing(s) && k <= |s.par|
    ensures |bl| == size && forall b :: 0 <= b < size ==> bl[b] == Leaves(s, m, b, k)
  {
    seq(size, b requires 0 <= b < size => Leaves(s, m, b, k))
  }

  lemma {:induction false} LevelsAdd(s: Shape, m: nat, k: nat, size: nat)
    requires Growing(s) && 1 <= k <= |s.par| && 1 <= m < size
    ensures LevelKraft(Counts(s, m, k, size), m, m) == Kraft(s, m, k)
        && Total(Counts(s, m, k, size), m) == AllLeaves(s, k)
  {
    hide Cut, Pow2;
    if k == 1 {
      CutRoot(s, m);
      OnlyLast(Counts(s, m, 1, size), m, m);
      assert Kraft(s, m, 0) == 0 && AllLeaves(s, 0) == 0;
    } else {
      LevelsAdd(s, m, k - 1, size);
      CutPositive(s, m, k - 1);
      var bl, bl1 := Counts(s, m, k - 1, size), Counts(s, m, k, size);
      assert bl1 == if s.inner[k - 1] then bl else bl[Cut(s, m, k - 1) := bl[Cut(s, m, k - 1)] + 1];
      LevelsOfOne(s, bl, bl1, m, k - 1, m);
    }
  }

  lemma CutRoot(s: Shape, m: nat)
    requires Growing(s)
    ensures forall b :: Leaves(s, m, b, 1) == 0
  {
    assert forall b :: Leaves(s, m, b, 0) == 0;
  }

  lemma CutPositive(s: Shape, m: nat, k: nat)
    requires Growing(s) && 0 < k < |s.par| && m >= 1
    ensures Cut(s, m, k) >= 1
  {
  }

  /** After the first pass the levels exceed what fits by half of the overflow. */
  lemma {:induction false} PassedExcess(s: Shape, order: seq<int>, dl0: seq<int>, dl: seq<int>, bl: seq<int>,
      maxCode: int, m: nat, overflow: int)
    requires PassOne(s, order, dl0, dl, bl, maxCode, m, |order|, overflow) && 2 <= m && AllLeaves(s, |order|) <= Pow2(m)
    ensures overflow % 2 == 0 && Excess(bl, m, AllLeaves(s, |order|), overflow / 2)
    ensures bl[0] == 0 && forall b :: m < b < |bl| ==> bl[b] == 0
  {
    hide Cut, Pow2, Sons, Leaves, Overflow, Kraft, LevelKraft, Total, AllLeaves;
    CutOff(s, m);
    LevelsAdd(s, m, |order|, |bl|);
    assert bl == Counts(s, m, |order|, |bl|);
    NoneOutside(s, m, |order|);
  }

  lemma {:induction false} NoneOutside(s: Shape, m: nat, k: nat)
    requires Growing(s) && k <= |s.par| && m >= 1
    ensures Leaves(s, m, 0, k) == 0 && forall b :: m < b ==> Leaves(s, m, b, k) == 0
  {
    if k > 0 {
      NoneOutside(s, m, k - 1);
      if k > 1 { CutPositive(s, m, k - 1); }
    }
  }

  // ---- the second pass ----

  /** Leaves from position j on whose length is b. */
  function From(s: Shape, order: seq<int>, l: seq<int>, b: int, j: nat): nat
    requires j <= |order| == |s.inner| && InRange(order, |l|)
    decreases |order| - j
  {
    if j == |order| then 0 else From(s, order, l, b, j + 1) + if !s.inner[j] && l[order[j]] == b then 1 else 0
  }

  lemma {:induction false} FromLocal(s: Shape, order: seq<int>, l: seq<int>, l1: seq<int>, b: int, j: nat)
    requires j <= |order| == |s.inner| && InRange(order, |l|) && |l1| == |l| && forall i :: j <= i < |order| ==>
      l1[order[i]] == l[order[i]]
    ensures From(s, order, l1, b, j) == From(s, order, l, b, j)
    decreases |order| - j
  {
    if j < |order| { FromLocal(s, order, l, l1, b, j + 1); }
  }

  /** The leaves from position j on have their final lengths: all of those longer than bits,
      and all but n of those of length bits. */
  ghost predicate Assigned(s: Shape, order: seq<int>, bl: seq<int>, l: seq<int>, j: nat, bits: nat, n: nat) {
    && j <= |order| == |s.inner| && InRange(order, |l|) && bits < |bl| && n <= bl[bits]
    && (forall b :: 0 <= b < |bl| ==> From(s, order, l, b, j) == if b > bits then bl[b] else if b == bits
        then bl[b] - n else 0)
    && AllLeaves(s, j) == n + (if bits == 0 then 0 else Total(bl, bits - 1))
    && (forall i :: j <= i < |order| && !s.inner[i] ==> bits <= l[order[i]] < |bl|)
    && (forall i, k :: j <= i <= k < |order| && !s.inner[i] && !s.inner[k] ==> l[order[i]] <= l[order[k]])
  }

  lemma {:induction false} AssignStart(s: Shape, order: seq<int>, bl: seq<int>, l: seq<int>, m: nat)
    requires |order| == |s.inner| && InRange(order, |l|) && 0 < m < |bl| && NonNegative(bl)
        && forall b :: m < b < |bl| ==> bl[b] == 0
    requires AllLeaves(s, |order|) == Total(bl, m)
    ensures Assigned(s, order, bl, l, |order|, m, bl[m])
  {
    hide AllLeaves;
  }

  lemma {:induction false} NextLevel(s: Shape, order: seq<int>, bl: seq<int>, l: seq<int>, j: nat, bits: nat)
    requires Assigned(s, order, bl, l, j, bits, 0) && bits > 0 && NonNegative(bl)
    ensures Assigned(s, order, bl, l, j, bits - 1, bl[bits - 1]) || bits == 1
    ensures bits == 1 ==> AllLeaves(s, j) == 0
  {
    hide AllLeaves, From;
  }

  lemma {:induction false} SomeLeafLeft(s: Shape, j: nat)
    requires j <= |s.inner|
    ensures AllLeaves(s, j) > 0 ==> j > 0
  {
  }

  /** An inner node is passed over. */
  lemma {:induction false} PassInner(s: Shape, order: seq<int>, bl: seq<int>, l: seq<int>, j: nat, bits: nat, n: nat)
    requires Assigned(s, order, bl, l, j, bits, n) && j > 0 && s.inner[j - 1]
    ensures Assigned(s, order, bl, l, j - 1, bits, n)
  {
    hide AllLeaves, From;
    AllLeavesStep(s, j);
    forall b ensures From(s, order, l, b, j - 1) == From(s, order, l, b, j) { FromStep(s, order, l, b, j); }
  }

  lemma FromStep(s: Shape, order: seq<int>, l: seq<int>, b: int, j: nat)
    requires 0 < j <= |order| == |s.inner| && InRange(order, |l|)
    ensures From(s, order, l, b, j - 1) == From(s, order, l, b, j) + if !s.inner[j - 1] && l[order[j - 1]] == b then 1
        else 0
  {
  }

  /** A leaf gets the length in turn. */
  lemma {:induction false} AssignLeaf(s: Shape, order: seq<int>, bl: seq<int>, l: seq<int>, j: nat, bits: nat, n: nat,
      l1: seq<int>)
    requires Assigned(s, order, bl, l, j, bits, n) && j > 0 && !s.inner[j - 1] && n > 0 && Distinct(order)
    requires 0 <= order[j - 1] < |l| && l1 == l[order[j - 1] := bits]
    ensures Assigned(s, order, bl, l1, j - 1, bits, n - 1)
  {
    hide Total, Distinct, AllLeaves, From;
    Others(order, j - 1);
    AllLeavesStep(s, j);
    forall b | 0 <= b < |bl|
      ensures From(s, order, l1, b, j - 1) == if b > bits then bl[b] else if b == bits then bl[b] - (n - 1) else 0
    {
      FromLocal(s, order, l, l1, b, j);
      FromStep(s, order, l1, b, j);
      assert From(s, order, l, b, j) == if b > bits then bl[b] else if b == bits then bl[b] - n else 0;
    }
  }

  lemma AllLeavesStep(s: Shape, j: nat)
    requires 0 < j <= |s.inner|
    ensures AllLeaves(s, j) == AllLeaves(s, j - 1) + if s.inner[j - 1] then 0 else 1
  {
  }

  lemma {:induction false} CostChange(s: Shape, order: seq<int>, freq: seq<int>, extra: seq<int>, base: int,
      l: seq<int>, j: nat, bits: int, k: nat)
    requires j < |order| == |s.inner| && k <= |order| && InRange(order, |freq|) && InRange(order, |l|)
        && Distinct(order) && !s.inner[j]
    ensures Cost(s, order, freq, extra, base, l[order[j] := bits], k) ==
            Cost(s, order, freq, extra, base, l, k) + if j < k then (bits - l[order[j]]) * freq[order[j]] else 0
  {
    hide Distinct, Extra;
    Others(order, j);
    if k > 0 {
      CostChange(s, order, freq, extra, base, l, j, bits, k - 1);
      if k - 1 == j { NewTerm(freq[order[j]], bits, l[order[j]], Extra(extra, base, order[j])); }
    }
  }

  lemma NewTerm(f: int, bits: int, len: int, x: int)
    ensures f * (bits + x) == f * (len + x) + (bits - len) * f
  {
  }

  /** The second pass: lengths again, the longest for the least frequent leaves. */
  method SecondPass(heap: array<int>, heapMax: nat, dl: array<int>, freq: array<int>, maxCode: int, extra: seq<int>,
      base: int, m: nat, bl: array<int>, optLen0: int, ghost s: Shape, ghost order: seq<int>)
    returns (optLen: int)
    requires heap != dl && dl != bl && freq != dl && heapMax < heap.Length && order == heap[heapMax..]
        && freq.Length == dl.Length
    requires InRange(order, dl.Length) && Distinct(order) && |s.inner| == |order| && forall i :: 0 <= i < |order| ==>
      (s.inner[i] <==> order[i] > maxCode)
    requires 0 < m < bl.Length && NonNegative(bl[..]) && (forall b :: m < b < bl.Length ==> bl[b] == 0)
    requires AllLeaves(s, |order|) == Total(bl[..], m)
    modifies dl
    ensures InRange(order, |dl[..]|) && InRange(order, |freq[..]|)
    ensures optLen == optLen0 - Cost(s, order, freq[..], extra, base, old(dl[..]), |order|)
        + Cost(s, order, freq[..], extra, base, dl[..], |order|)
    ensures AllAssigned(s, order, bl[..], dl[..]) && Ascending(s, order, dl[..])
    ensures forall x :: 0 <= x < dl.Length && x !in order ==> dl[x] == old(dl[x])
  {
    hide Cost, From, AllLeaves, Total, Assigned, Distinct, Extra;
    ghost var d0, f, hs, counts := dl[..], freq[..], heap[..], bl[..];
    AssignStart(s, order, counts, d0, m);
    optLen := optLen0;
    var h, bits := heap.Length, m;
    while bits != 0
      modifies dl
      invariant heapMax <= h <= heap.Length && 0 <= bits <= m
      invariant bits > 0 ==> Assigned(s, order, counts, dl[..], h - heapMax, bits, counts[bits])
      invariant bits == 0 ==> AllAssigned(s, order, counts, dl[..]) && Ascending(s, order, dl[..])
      invariant optLen == optLen0 - Cost(s, order, f, extra, base, d0, |order|) + Cost(s, order, f, extra, base,
          dl[..], |order|)
      invariant forall x :: 0 <= x < dl.Length && x !in order ==> dl[x] == d0[x]
      decreases bits
    {
      assert bl[..] == counts && heap[..] == hs && freq[..] == f;
      var n: nat := bl[bits];
      while n != 0
        modifies dl
        invariant heapMax <= h <= heap.Length && 0 <= n && Assigned(s, order, counts, dl[..], h - heapMax, bits, n)
        invariant optLen == optLen0 - Cost(s, order, f, extra, base, d0, |order|) + Cost(s, order, f, extra, base,
            dl[..], |order|)
        invariant forall x :: 0 <= x < dl.Length && x !in order ==> dl[x] == d0[x]
        decreases h
      {
        ghost var d := dl[..];
        assert heap[..] == hs && freq[..] == f;
        LeafLeft(s, order, counts, d, h - heapMax, bits, n);
        h := h - 1;
        var node := heap[h];
        ghost var j := h - heapMax;
        assert node == order[j];
        if node > maxCode {
          PassInner(s, order, counts, d, j + 1, bits, n);
          continue;
        }
        CostChange(s, order, f, extra, base, d, j, bits, |order|);
        if dl[node] != bits {
          optLen := optLen + (bits - dl[node]) * freq[node];
          dl[node] := bits;
        }
        SameOrNew(d, node, bits, dl[..], f[node]);
        AssignLeaf(s, order, counts, d, j + 1, bits, n, dl[..]);
        n := n - 1;
      }
      LevelDone(s, order, counts, dl[..], h - heapMax, bits);
      bits := bits - 1;
    }
    assert bl[..] == counts && freq[..] == f;
  }

  lemma SameOrNew(d: seq<int>, node: int, bits: int, d1: seq<int>, f: int)
    requires 0 <= node < |d| && (d1 == d[node := bits] || (d1 == d && d[node] == bits))
    ensures d1 == d[node := bits] && (d[node] == bits ==> (bits - d[node]) * f == 0)
  {
  }

  /** While codes of some length are missing there is a leaf further up. */
  lemma LeafLeft(s: Shape, order: seq<int>, bl: seq<int>, l: seq<int>, j: nat, bits: nat, n: nat)
    requires Assigned(s, order, bl, l, j, bits, n) && n > 0 && NonNegative(bl)
    ensures 0 < j
  {
    hide From;
    if bits > 0 { TotalNonNegative(bl, bits - 1); }
    SomeLeafLeft(s, j);
  }

  lemma {:induction false} TotalNonNegative(bl: seq<int>, k: nat)
    requires NonNegative(bl) && k < |bl|
    ensures Total(bl, k) >= 0
  {
    if k > 0 { TotalNonNegative(bl, k - 1); }
  }

  /** Every leaf has its final length, as many of each as the levels say. */
  ghost predicate AllAssigned(s: Shape, order: seq<int>, bl: seq<int>, l: seq<int>) {
    && |order| == |s.inner| && InRange(order, |l|) && 0 < |bl|
    && (forall b :: 1 <= b < |bl| ==> From(s, order, l, b, 0) == bl[b])
    && (forall i :: 0 <= i < |order| && !s.inner[i] ==> 1 <= l[order[i]] < |bl|)
  }

  /** Leaves nearer the root have no longer codes than those after them. */
  ghost predicate Ascending(s: Shape, order: seq<int>, l: seq<int>) {
    && |order| == |s.inner| && InRange(order, |l|)
    && forall i, k :: 0 <= i <= k < |order| && !s.inner[i] && !s.inner[k] ==> l[order[i]] <= l[order[k]]
  }

  lemma {:induction false} LevelDone(s: Shape, order: seq<int>, bl: seq<int>, l: seq<int>, j: nat, bits: nat)
    requires Assigned(s, order, bl, l, j, bits, 0) && bits > 0 && NonNegative(bl)
    ensures bits > 1 ==> Assigned(s, order, bl, l, j, bits - 1, bl[bits - 1])
    ensures bits == 1 ==> AllAssigned(s, order, bl, l) && Ascending(s, order, l)
  {
    hide From, AllLeaves;
    NextLevel(s, order, bl, l, j, bits);
    if bits == 1 { NoLeavesAbove(s, order, l, j, bl); }
  }

  lemma {:induction false} NoLeavesAbove(s: Shape, order: seq<int>, l: seq<int>, j: nat, bl: seq<int>)
    requires j <= |order| == |s.inner| && InRange(order, |l|) && AllLeaves(s, j) == 0
    ensures forall i :: 0 <= i < j ==> s.inner[i]
    ensures forall b :: From(s, order, l, b, 0) == From(s, order, l, b, j)
  {
    hide From;
    if j > 0 {
      NoLeavesAbove(s, order, l, j - 1, bl);
      forall b ensures From(s, order, l, b, 0) == From(s, order, l, b, j) { FromStep(s, order, l, b, j); }
    }
  }

  // ---- gen_bitlen ----

  lemma {:induction false} FromIsAll(s: Shape, order: seq<int>, l: seq<int>, m: nat, b: int, k: nat)
    requires Growing(s) && k <= |order| == |s.par| && InRange(order, |l|) && forall j :: 0 <= j < |order| ==>
      l[order[j]] == Cut(s, m, j)
    requires b >= 0
    ensures Leaves(s, m, b, k) + From(s, order, l, b, k) == From(s, order, l, b, 0)
  {
    hide Cut;
    if k > 0 { FromIsAll(s, order, l, m, b, k - 1); }
  }

  /** Without overflow the depths are the lengths. */
  lemma {:induction false} PassedFits(s: Shape, order: seq<int>, dl0: seq<int>, dl: seq<int>, bl: seq<int>,
      maxCode: int, m: nat)
    requires PassOne(s, order, dl0, dl, bl, maxCode, m, |order|, 0) && 2 <= m && AllLeaves(s, |order|) <= Pow2(m)
    ensures AllAssigned(s, order, bl, dl) && NonNegative(bl) && LevelKraft(bl, m, m) == Pow2(m)
  {
    hide Cut, Sons, Leaves, Overflow, LevelKraft, Total, AllLeaves, Pow2, From;
    PassedExcess(s, order, dl0, dl, bl, maxCode, m, 0);
    forall b | 1 <= b < |bl| ensures From(s, order, dl, b, 0) == bl[b] {
      FromIsAll(s, order, dl, m, b, |order|);
      NothingFrom(s, order, dl, b);
    }
    forall i | 0 <= i < |order| && !s.inner[i] ensures 1 <= dl[order[i]] < |bl| { CutPositive(s, m, i); }
  }

  lemma NothingFrom(s: Shape, order: seq<int>, l: seq<int>, b: int)
    requires |order| == |s.inner| && InRange(order, |l|)
    ensures From(s, order, l, b, |order|) == 0
  {
  }

  lemma {:induction false} NoneLonger(s: Shape, order: seq<int>, l: seq<int>, b: int, j: nat, i: nat)
    requires |order| == |s.inner| && InRange(order, |l|) && j <= i < |order| && !s.inner[i] && l[order[i]] == b
    ensures From(s, order, l, b, j) > 0
    decreases i - j
  {
    if j < i { NoneLonger(s, order, l, b, j + 1, i); }
  }

  lemma {:induction false} ShortEnough(s: Shape, order: seq<int>, bl: seq<int>, l: seq<int>, m: nat)
    requires AllAssigned(s, order, bl, l) && forall b :: m < b < |bl| ==> bl[b] == 0
    ensures forall i :: 0 <= i < |order| && !s.inner[i] ==> 1 <= l[order[i]] <= m
  {
    hide From;
    forall i | 0 <= i < |order| && !s.inner[i]
        ensures 1 <= l[order[i]] <= m { NoneLonger(s, order, l, l[order[i]], 0, i); }
  }

  lemma PassOneParts(s: Shape, order: seq<int>, dl0: seq<int>, dl: seq<int>, bl: seq<int>, maxCode: int, m: nat,
      overflow: int)
    requires PassOne(s, order, dl0, dl, bl, maxCode, m, |order|, overflow)
    ensures InRange(order, |dl|) && Distinct(order) && |s.inner| == |order| && m < |bl|
    ensures forall i :: 0 <= i < |order| ==> (s.inner[i] <==> order[i] > maxCode)
    ensures forall x :: 0 <= x < |dl| && x !in order ==> x < |dl0| && dl[x] == dl0[x]
  {
    hide Cut, Sons, Leaves, Overflow, Distinct;
  }

  /** What gen_bitlen makes of the shape. */
  ghost predicate Shaped(s: Shape, order: seq<int>, l: seq<int>, m: nat) {
    && Growing(s) && |s.par| == |order| && InRange(order, |l|)
    && if Overflow(s, m, |order|) == 0 then
         forall i :: 0 <= i < |order| && !s.inner[i] ==> l[order[i]] == Cut(s, m, i)
       else Ascending(s, order, l)
  }

  lemma {:induction false} DepthsShaped(s: Shape, order: seq<int>, dl0: seq<int>, dl: seq<int>, bl: seq<int>,
      maxCode: int, m: nat)
    requires PassOne(s, order, dl0, dl, bl, maxCode, m, |order|, 0)
    ensures Shaped(s, order, dl, m)
  {
    hide Cut, Sons, Leaves, Overflow, Distinct;
  }

  lemma {:induction false} RepairedShaped(s: Shape, order: seq<int>, dl0: seq<int>, dl: seq<int>, bl: seq<int>,
      maxCode: int, m: nat, overflow: int, l: seq<int>)
    requires PassOne(s, order, dl0, dl, bl, maxCode, m, |order|, overflow) && overflow != 0
    requires Ascending(s, order, l)
    ensures Shaped(s, order, l, m)
  {
    hide Cut, Sons, Leaves, Overflow, Distinct;
  }

  /** gen_bitlen: every leaf gets a length between 1 and the longest allowed, the lengths use
      up the code space exactly, and the lengths of the block grow by what the symbols cost with them
      and with the static tree. */
  method GenBitlen(heap: array<int>, heapMax: nat, dl: array<int>, freq: array<int>, maxCode: int, extra: seq<int>,
      base: int, stree: Option<seq<int>>, maxLength: nat, bl: array<int>, optLen0: int, staticLen0: int,
      ghost s: Shape, ghost order: seq<int>)
    returns (optLen: int, staticLen: int)
    requires heap != dl && heap != bl && dl != bl && freq != dl && freq != bl && heapMax < heap.Length
        && order == heap[heapMax..]
    requires IsTree(s, order, dl[..], maxCode) && freq.Length == dl.Length && 2 <= maxLength < bl.Length
        && AllLeaves(s, |order|) <= Pow2(maxLength)
    requires stree.Some? ==> maxCode < |stree.value|
    modifies dl, bl
    ensures InRange(order, |dl[..]|) && InRange(order, |freq[..]|) && |s.inner| == |order|
    ensures forall i :: 0 <= i < |order| && !s.inner[i] ==> 1 <= dl[..][order[i]] <= maxLength
    ensures AllAssigned(s, order, bl[..], dl[..]) && LevelKraft(bl[..], maxLength, maxLength) == Pow2(maxLength)
        && bl[0] == 0 && Shaped(s, order, dl[..], maxLength)
    ensures optLen == optLen0 + Cost(s, order, freq[..], extra, base, dl[..], |order|)
    ensures staticLen == staticLen0 + StaticCost(s, order, freq[..], extra, base, stree, |order|)
    ensures forall x :: 0 <= x < dl.Length && x !in order ==> dl[x] == old(dl[x])
  {
    hide *;
    ghost var dl0, f := dl[..], freq[..];
    var overflow;
    overflow, optLen, staticLen := FirstPass(heap, heapMax, dl, freq, maxCode, extra, base, stree, maxLength, bl,
        optLen0, staticLen0, s, order);
    ghost var dl1 := dl[..];
    PassOneParts(s, order, dl0, dl1, bl[..], maxCode, maxLength, overflow);
    ghost var leaves := AllLeaves(s, |order|);
    PassedExcess(s, order, dl0, dl1, bl[..], maxCode, maxLength, overflow);
    assert forall x :: 0 <= x < dl.Length && x !in order ==> dl[x] == dl1[x] && dl1[x] == dl0[x];
    if overflow == 0 {
      PassedFits(s, order, dl0, dl1, bl[..], maxCode, maxLength);
      DepthsShaped(s, order, dl0, dl1, bl[..], maxCode, maxLength);
    } else {
      OverflowPositive(bl[..], maxLength, leaves, overflow);
      ghost var bl1 := bl[..];
      Repair(bl, maxLength, overflow, leaves);
      assert dl[..] == dl1 && freq[..] == f;
      optLen := SecondPass(heap, heapMax, dl, freq, maxCode, extra, base, maxLength, bl, optLen, s, order);
      RepairedShaped(s, order, dl0, dl1, bl1, maxCode, maxLength, overflow, dl[..]);
    }
    ShortEnough(s, order, bl[..], dl[..], maxLength);
  }

  lemma OverflowPositive(bl: seq<int>, m: nat, leaves: int, overflow: int)
    requires Excess(bl, m, leaves, overflow / 2) && overflow != 0
    ensures overflow > 0
  {
    hide LevelKraft, Total, Pow2;
  }
}

/** The tree of build_tree in trees.c is a tree of least cost: each merge takes the two least frequent
    nodes there are, so the depths of the symbols are lengths of a cheapest prefix code. */
module TreeOptimum {
  import opened Permutations
  import opened CodeTree
  import opened GenBitlen
  import opened TreeMerging
  import opened TreeShape
  import M = MergeTrees

  /** The nodes from the root down: each is at least as frequent as those behind it, each inner node
      as frequent as its sons together, and the symbols that occur are the leaves. */
  ghost predicate Counted(order: seq<int>, dl: seq<int>, freq: seq<int>, leaves: set<int>, elems: int) {
    && Ordered(order, dl, leaves, elems) && InRange(order, |freq|) && InRange(order, |dl|)
    && (forall i, j :: 0 <= i <= j < |order| ==> freq[order[i]] >= freq[order[j]])
    && (forall u :: 0 <= u < |leaves| - 1 ==> SumAt(order, freq, elems, u))
    && elems <= |freq| && (forall x :: 0 <= x < elems ==> freq[x] >= 0 && (x in leaves <==> freq[x] != 0))
  }

  /** The node that was made last. */
  function Root(leaves: set<int>, elems: int): int { elems + |leaves| - 2 }

  /** The fathers of all nodes. */
  ghost function Fathers(dl: seq<int>, leaves: set<int>, elems: nat): (q: seq<int>)
    requires 1 <= |leaves| && elems + |leaves| - 1 <= |dl|
    ensures |q| == Root(leaves, elems) + 1
    ensures forall j :: 0 <= j < |q| ==> q[j] == FatherOf(dl, leaves, elems, j)
  {
    seq(elems + |leaves| - 1, j requires 0 <= j < elems + |leaves| - 1 => FatherOf(dl, leaves, elems, j))
  }

  function FatherOf(dl: seq<int>, leaves: set<int>, elems: nat, j: nat): int
    requires j < |dl|
  {
    if j == Root(leaves, elems) then M.NO_FATHER else if j < elems && j !in leaves then M.NO_NODE else dl[j]
  }

  /** A node that is there has its place in the order, the root the first one. */
  lemma PlaceOf(order: seq<int>, dl: seq<int>, leaves: set<int>, elems: nat, j: int) returns (p: nat)
    requires Ordered(order, dl, leaves, elems) && 0 <= j <= Root(leaves, elems) && (j in leaves || j >= elems)
    ensures p < |order| && order[p] == j && (p == 0 <==> j == Root(leaves, elems))
    ensures p > 0 ==>
      0 <= MergeOf(|order|, p) <= |leaves| - 2 && j < elems + MergeOf(|order|, p) && j < |dl|
      && dl[j] == elems + MergeOf(|order|, p)
  {
    OrderedNodes(order, dl, leaves, elems);
    OrderedRoot(order, dl, leaves, elems);
    p := IndexOf(order, j);
  }

  lemma AllNodes(order: seq<int>, dl: seq<int>, leaves: set<int>, elems: nat)
    requires Ordered(order, dl, leaves, elems) && InRange(order, |dl|)
    ensures 2 <= |leaves| <= elems && Root(leaves, elems) < |dl| && |order| == 2 * |leaves| - 1
    ensures forall x :: x in leaves ==> 0 <= x < elems
  {
    OrderedRoot(order, dl, leaves, elems);
  }

  /** Two sons of a node, which stand beside each other. */
  lemma SonsAt(order: seq<int>, dl: seq<int>, leaves: set<int>, elems: nat, u: nat)
    requires Ordered(order, dl, leaves, elems) && InRange(order, |dl|) && u < |leaves| - 1
    ensures |order| == 2 * |leaves| - 1 && 2 <= |leaves| && Root(leaves, elems) < |dl|
    ensures M.SonsOf(Fathers(dl, leaves, elems), elems + u, order[|order| - 1 - 2 * u], order[|order| - 2 - 2 * u])
  {
    AllNodes(order, dl, leaves, elems);
    OrderedNodes(order, dl, leaves, elems);
    OrderedRoot(order, dl, leaves, elems);
    var q, n, t := Fathers(dl, leaves, elems), |order|, elems + u;
    var a, b := order[n - 1 - 2 * u], order[n - 2 - 2 * u];
    SonOf(n, n - 1 - 2 * u, u);
    SonOf(n, n - 2 - 2 * u, u);
    assert a in order && b in order;
    forall j | 0 <= j < t && q[j] == t ensures j == a || j == b {
      var p := PlaceOf(order, dl, leaves, elems, j);
      SonOf(n, p, u);
    }
  }

  /** The nodes form a tree. */
  lemma {:induction false} IsMergeTree(order: seq<int>, dl: seq<int>, leaves: set<int>, elems: nat)
    requires Ordered(order, dl, leaves, elems) && InRange(order, |dl|)
    ensures 2 <= |leaves| && Root(leaves, elems) < |dl|
    ensures M.Tree(Fathers(dl, leaves, elems), elems, Root(leaves, elems))
  {
    hide Ordered, M.SonsOf, MergeOf;
    AllNodes(order, dl, leaves, elems);
    var q, n := Fathers(dl, leaves, elems), Root(leaves, elems);
    forall j | 0 <= j < n ensures (q[j] == M.NO_NODE && j < elems) || (j < q[j] <= n && elems <= q[j]) {
      if j in leaves || j >= elems { var p := PlaceOf(order, dl, leaves, elems, j); }
    }
    forall t | elems <= t <= n ensures M.HasSons(q, t) { SonsAt(order, dl, leaves, elems, t - elems); }
  }

  /** What is not merged yet stands before the two that are. */
  lemma {:induction false} ActiveIsBefore(order: seq<int>, dl: seq<int>, freq: seq<int>, leaves: set<int>, elems: nat,
      u: nat, y: int)
    requires Counted(order, dl, freq, leaves, elems) && u < |leaves| - 1 && 2 <= |leaves| && Root(leaves, elems) < |dl|
    requires 0 <= y < elems + u && M.Active(Fathers(dl, leaves, elems), elems + u, y)
    ensures |order| == 2 * |leaves| - 1 && 0 <= y < |freq|
    ensures freq[order[|order| - 1 - 2 * u]] <= freq[order[|order| - 2 - 2 * u]] <= freq[y]
  {
    AllNodes(order, dl, leaves, elems);
    var p := PlaceOf(order, dl, leaves, elems, y);
    var n := |order|;
    assert p <= n - 3 - 2 * u || p == 0;
  }

  /** No frequency is negative. */
  lemma {:induction false} WeightNotNegative(order: seq<int>, dl: seq<int>, freq: seq<int>, leaves: set<int>,
      elems: nat, j: int)
    requires Counted(order, dl, freq, leaves, elems) && 0 <= j <= Root(leaves, elems) < |freq|
    ensures freq[j] >= 0
  {
    if j in leaves || j >= elems {
      var p := PlaceOf(order, dl, leaves, elems, j);
      var last := order[|order| - 1];
      OrderedSize(order, dl, leaves, elems);
      assert 0 <= last < elems;
    }
  }

  /** Each merge takes the two least frequent nodes. */
  lemma {:induction false} IsGreedy(order: seq<int>, dl: seq<int>, freq: seq<int>, leaves: set<int>, elems: nat)
    requires Counted(order, dl, freq, leaves, elems)
    ensures 2 <= |leaves| && Root(leaves, elems) < |dl| && Root(leaves, elems) < |freq|
    ensures M.Greedy(Fathers(dl, leaves, elems), freq[..Root(leaves, elems) + 1], elems, Root(leaves, elems))
  {
    AllNodes(order, dl, leaves, elems);
    OrderedRoot(order, dl, leaves, elems);
    IsMergeTree(order, dl, leaves, elems);
    var q, n := Fathers(dl, leaves, elems), Root(leaves, elems);
    var w := freq[..n + 1];
    forall j | 0 <= j <= n ensures w[j] >= 0 { WeightNotNegative(order, dl, freq, leaves, elems, j); }
    forall t | elems <= t <= n ensures M.Lightest(q, w, t) { TakesLightest(order, dl, freq, leaves, elems, t - elems); }
  }

  lemma {:induction false} TakesLightest(order: seq<int>, dl: seq<int>, freq: seq<int>, leaves: set<int>, elems: nat,
      u: nat)
    requires Counted(order, dl, freq, leaves, elems) && u < |leaves| - 1 && Root(leaves, elems) < |dl|
        && Root(leaves, elems) < |freq|
    ensures M.Lightest(Fathers(dl, leaves, elems), freq[..Root(leaves, elems) + 1], elems + u)
  {
    var q, n, t := Fathers(dl, leaves, elems), Root(leaves, elems), elems + u;
    var w := freq[..n + 1];
    SonsAt(order, dl, leaves, elems, u);
    assert SumAt(order, freq, elems, u);
    var a, b := order[|order| - 1 - 2 * u], order[|order| - 2 - 2 * u];
    forall c, d | M.SonsOf(q, t, c, d)
      ensures w[t] == w[c] + w[d] && forall y :: 0 <= y < t && M.Active(q, t, y) ==> w[c] <= w[y] && w[d] <= w[y]
    {
      assert (c == a && d == b) || (c == b && d == a) by { assert M.SonsOf(q, t, a, b); }
      forall y | 0 <= y < t && M.Active(q, t, y) ensures w[c] <= w[y] && w[d] <= w[y] {
        ActiveIsBefore(order, dl, freq, leaves, elems, u, y);
      }
    }
  }

  lemma {:induction false} SortedFrom(h: seq<int>, freq: seq<int>, hm: int, i: int, j: int)
    requires Sorted(h, freq, hm) && hm <= i <= j < |h|
    ensures freq[h[i]] >= freq[h[j]]
    decreases j - i
  {
    if i < j { SortedFrom(h, freq, hm, i, j - 1); }
  }

  /** What the merging loop leaves. */
  lemma {:induction false} IsCounted(h: seq<int>, hm: int, dl: seq<int>, freq: seq<int>, leaves: set<int>, elems: int)
    requires 0 <= hm < |h| && Ordered(h[hm..], dl, leaves, elems) && InRange(h[hm..], |dl|) && |dl| == |freq|
    requires Sorted(h, freq, hm) && Summed(h, freq, elems, |leaves| - 1) && elems <= |freq|
    requires forall x :: 0 <= x < elems ==> freq[x] >= 0 && (x in leaves <==> freq[x] != 0)
    ensures Counted(h[hm..], dl, freq, leaves, elems)
  {
    var order := h[hm..];
    forall i, j | 0 <= i <= j < |order| ensures freq[order[i]] >= freq[order[j]] {
      SortedFrom(h, freq, hm, hm + i, hm + j);
    }
    OrderedSize(order, dl, leaves, elems);
    forall u | 0 <= u < |leaves| - 1 ensures SumAt(order, freq, elems, u) { assert SumAt(h, freq, elems, u); }
  }

  // ---- the depths ----

  /** Cut off at a level, the depth in the shape is that in the tree. */
  lemma {:induction false} CutIsDepth(order: seq<int>, dl: seq<int>, leaves: set<int>, elems: nat, m: nat, i: nat)
    requires Ordered(order, dl, leaves, elems) && InRange(order, |dl|) && 2 <= |leaves| && Root(leaves, elems) < |dl|
    requires M.Tree(Fathers(dl, leaves, elems), elems, Root(leaves, elems)) && i < |order|
    ensures var s := ShapeOf(order, dl, leaves, elems);
      |s.par| == |order| && (forall j :: 0 < j < |s.par| ==> s.par[j] < j)
      && IsNode(order, dl, leaves, elems, order[i])
      && Cut(s, m, i) == Least(m, M.Depth(Fathers(dl, leaves, elems), elems, Root(leaves, elems), order[i]))
  {
    hide M.Tree, ShapeOf;
    ShapeParts(order, dl, leaves, elems);
    OrderedRoot(order, dl, leaves, elems);
    NodeIs(order, dl, leaves, elems, i);
    if i > 0 {
      var s := ShapeOf(order, dl, leaves, elems);
      CutIsDepth(order, dl, leaves, elems, m, s.par[i]);
      assert Fathers(dl, leaves, elems)[order[i]] == dl[order[i]] == order[s.par[i]];
    }
  }

  function Least(a: int, b: int): int { if a <= b then a else b }

  ghost predicate IsNode(order: seq<int>, dl: seq<int>, leaves: set<int>, elems: nat, j: int) {
    && 1 <= |leaves| && elems + |leaves| - 1 <= |dl| && 0 <= j <= Root(leaves, elems)
    && Fathers(dl, leaves, elems)[j] != M.NO_NODE
  }

  lemma NodeIs(order: seq<int>, dl: seq<int>, leaves: set<int>, elems: nat, i: nat)
    requires Ordered(order, dl, leaves, elems) && InRange(order, |dl|) && i < |order|
    ensures IsNode(order, dl, leaves, elems, order[i])
    ensures (Fathers(dl, leaves, elems)[order[i]] == M.NO_FATHER <==> i == 0)
    ensures i > 0 ==> Fathers(dl, leaves, elems)[order[i]] == dl[order[i]]
  {
    AllNodes(order, dl, leaves, elems);
    OrderedNodes(order, dl, leaves, elems);
    OrderedRoot(order, dl, leaves, elems);
    assert order[i] in order;
    var p := PlaceOf(order, dl, leaves, elems, order[i]);
    SameNode(order, p, i);
  }

  /** The tree that was built: all that is needed of it. */
  ghost predicate Built(order: seq<int>, dl: seq<int>, leaves: set<int>, elems: nat) {
    && Ordered(order, dl, leaves, elems) && InRange(order, |dl|) && 2 <= |leaves| && Root(leaves, elems) < |dl|
    && M.Tree(Fathers(dl, leaves, elems), elems, Root(leaves, elems))
  }

  ghost function DepthAt(order: seq<int>, dl: seq<int>, leaves: set<int>, elems: nat, j: int): int
    requires Built(order, dl, leaves, elems)
  {
    if IsNode(order, dl, leaves, elems, j) then M.Depth(Fathers(dl, leaves, elems), elems, Root(leaves, elems), j)
    else 0
  }

  ghost function DepthList(order: seq<int>, dl: seq<int>, leaves: set<int>, elems: nat): (d: seq<int>)
    requires Built(order, dl, leaves, elems)
    ensures |d| == Root(leaves, elems) + 1
    ensures forall j :: 0 <= j < |d| ==> d[j] == DepthAt(order, dl, leaves, elems, j)
  {
    AllNodes(order, dl, leaves, elems);
    seq(Root(leaves, elems) + 1, j requires 0 <= j <= Root(leaves, elems) => DepthAt(order, dl, leaves, elems, j))
  }

  /** The depths of the symbols are lengths of a cheapest code. */
  lemma {:induction false} DepthsAreCheapest(order: seq<int>, dl: seq<int>, freq: seq<int>, leaves: set<int>,
      elems: nat, l: seq<int>)
    requires Counted(order, dl, freq, leaves, elems) && Built(order, dl, leaves, elems) && |l| == elems
    requires forall x :: x in leaves ==> 0 <= x < elems && l[x] == DepthAt(order, dl, leaves, elems, x)
    ensures M.Cheapest(freq[..elems], l)
  {
    AllNodes(order, dl, leaves, elems);
    IsGreedy(order, dl, freq, leaves, elems);
    var q, n, d := Fathers(dl, leaves, elems), Root(leaves, elems), DepthList(order, dl, leaves, elems);
    var u, w := freq[..n + 1], freq[..elems];
    forall x | 0 <= x < elems ensures
      if q[x] == M.NO_NODE then w[x] == 0 else w[x] != 0 && u[x] == w[x] && M.Active(q, elems - 1, x)
    {
      if x in leaves { var p := PlaceOf(order, dl, leaves, elems, x); }
    }
    assert M.LeavesFor(q, u, elems, 0, w);
    assert M.Depths(q, elems, n, d);
    hide *;
    M.LeavesAreCheapest(q, u, d, elems, n, 0, w, l);
  }

  lemma {:induction false} NoOverflow(s: Shape, m: nat, k: nat)
    requires Growing(s) && k <= |s.par| && Overflow(s, m, k) == 0
    ensures forall i :: 0 < i < k ==> Cut(s, m, s.par[i]) < m
  {
    hide Cut;
    if k > 1 { NoOverflow(s, m, k - 1); }
  }

  lemma {:induction false} SomeOverflow(s: Shape, m: nat, k: nat) returns (i: nat)
    requires Growing(s) && k <= |s.par| && Overflow(s, m, k) > 0
    ensures 0 < i < k && Cut(s, m, s.par[i]) == m
  {
    hide Cut;
    if Cut(s, m, s.par[k - 1]) == m { i := k - 1; } else { i := SomeOverflow(s, m, k - 1); }
  }

  /** Without overflow the levels are the depths. */
  lemma {:induction false} CutsAreDepths(order: seq<int>, dl: seq<int>, leaves: set<int>, elems: nat, m: nat, i: nat)
    requires Built(order, dl, leaves, elems) && Growing(ShapeOf(order, dl, leaves, elems)) && 0 < i < |order|
    requires |ShapeOf(order, dl, leaves, elems).par| == |order|
        && Overflow(ShapeOf(order, dl, leaves, elems), m, |order|) == 0
    ensures Cut(ShapeOf(order, dl, leaves, elems), m, i) == DepthAt(order, dl, leaves, elems, order[i])
  {
    hide ShapeOf, M.Tree, M.Depth, Cut, Overflow;
    var s := ShapeOf(order, dl, leaves, elems);
    NoOverflow(s, m, |order|);
    ShapeParts(order, dl, leaves, elems);
    CutIsDepth(order, dl, leaves, elems, m, i);
    CutIsDepth(order, dl, leaves, elems, m, s.par[i]);
    DepthOfSon(order, dl, leaves, elems, i, s.par[i]);
    CutOfSon(s, m, i);
  }

  lemma {:induction false} DepthOfSon(order: seq<int>, dl: seq<int>, leaves: set<int>, elems: nat, i: nat, p: nat)
    requires Built(order, dl, leaves, elems) && 0 < i < |order| && p < |order|
    requires order[p] == elems + MergeOf(|order|, i)
    ensures IsNode(order, dl, leaves, elems, order[i]) && IsNode(order, dl, leaves, elems, order[p])
    ensures DepthAt(order, dl, leaves, elems, order[i]) == 1 + DepthAt(order, dl, leaves, elems, order[p])
  {
    hide M.Tree;
    NodeIs(order, dl, leaves, elems, i);
    NodeIs(order, dl, leaves, elems, p);
  }

  /** Below every node there is a symbol. */
  lemma {:induction false} DeepLeaf(order: seq<int>, dl: seq<int>, leaves: set<int>, elems: nat, j: nat)
    returns (x: int)
    requires Built(order, dl, leaves, elems) && IsNode(order, dl, leaves, elems, j)
    ensures x in leaves && DepthAt(order, dl, leaves, elems, x) >= DepthAt(order, dl, leaves, elems, j)
    decreases j
  {
    hide Ordered, M.Tree;
    AllNodes(order, dl, leaves, elems);
    if j < elems {
      x := j;
    } else {
      SonsAt(order, dl, leaves, elems, j - elems);
      var a := order[|order| - 1 - 2 * (j - elems)];
      x := DeepLeaf(order, dl, leaves, elems, a);
    }
  }

  /** Where the tree overflows some symbol lies too deep. */
  lemma {:induction false} TooDeepLeaf(order: seq<int>, dl: seq<int>, leaves: set<int>, elems: nat, m: nat)
    returns (x: int)
    requires Built(order, dl, leaves, elems) && Growing(ShapeOf(order, dl, leaves, elems))
    requires |ShapeOf(order, dl, leaves, elems).par| == |order|
        && Overflow(ShapeOf(order, dl, leaves, elems), m, |order|) > 0
    ensures x in leaves && DepthAt(order, dl, leaves, elems, x) > m
  {
    hide ShapeOf, M.Tree;
    var s := ShapeOf(order, dl, leaves, elems);
    var i := SomeOverflow(s, m, |order|);
    ShapeParts(order, dl, leaves, elems);
    NodeIs(order, dl, leaves, elems, i);
    CutIsDepth(order, dl, leaves, elems, m, s.par[i]);
    x := DeepLeaf(order, dl, leaves, elems, order[i]);
  }

  // ---- the lengths ----

  /** The lengths are those of a cheapest prefix code, unless such a code has a code word that is
      longer than allowed; and frequent symbols have short code words in any case. */
  ghost predicate LeastCost(w: seq<int>, l: seq<int>, m: int) {
    (M.Cheapest(w, l) || M.CheapestTooLong(w, m)) && M.Monotone(w, l)
  }

  lemma {:induction false} FitsIsCheapest(order: seq<int>, dl: seq<int>, freq: seq<int>, leaves: set<int>, elems: nat,
      l: seq<int>, m: nat)
    requires Counted(order, dl, freq, leaves, elems) && Built(order, dl, leaves, elems) && elems <= |l|
    requires Shaped(ShapeOf(order, dl, leaves, elems), order, l, m)
        && Overflow(ShapeOf(order, dl, leaves, elems), m, |order|) == 0
    ensures M.Cheapest(freq[..elems], l[..elems])
  {
    hide M.Tree, ShapeOf, M.Cheapest, Cut, Overflow;
    AllNodes(order, dl, leaves, elems);
    ShapeParts(order, dl, leaves, elems);
    forall x | x in leaves ensures 0 <= x < elems && l[..elems][x] == DepthAt(order, dl, leaves, elems, x) {
      var p := PlaceOf(order, dl, leaves, elems, x);
      CutsAreDepths(order, dl, leaves, elems, m, p);
    }
    DepthsAreCheapest(order, dl, freq, leaves, elems, l[..elems]);
  }

  lemma {:induction false} OverflowIsTooLong(order: seq<int>, dl: seq<int>, freq: seq<int>, leaves: set<int>,
      elems: nat, m: nat)
    requires Counted(order, dl, freq, leaves, elems) && Built(order, dl, leaves, elems)
    requires Growing(ShapeOf(order, dl, leaves, elems)) && |ShapeOf(order, dl, leaves, elems).par| == |order|
        && Overflow(ShapeOf(order, dl, leaves, elems), m, |order|) > 0
    ensures M.CheapestTooLong(freq[..elems], m)
  {
    hide M.Tree, ShapeOf, M.Cheapest, Overflow;
    AllNodes(order, dl, leaves, elems);
    var x := TooDeepLeaf(order, dl, leaves, elems, m);
    var l := DepthList(order, dl, leaves, elems)[..elems];
    DepthsAreCheapest(order, dl, freq, leaves, elems, l);
    assert 0 <= x < |freq[..elems]| && freq[..elems][x] != 0 && l[x] > m;
  }

  lemma {:induction false} AscendingIsMonotone(order: seq<int>, dl: seq<int>, freq: seq<int>, leaves: set<int>,
      elems: nat, l: seq<int>)
    requires Counted(order, dl, freq, leaves, elems) && elems <= |l| && elems <= |freq|
    requires Ascending(ShapeOf(order, dl, leaves, elems), order, l)
    ensures M.Monotone(freq[..elems], l[..elems])
  {
    hide ShapeOf;
    AllNodes(order, dl, leaves, elems);
    ShapeParts(order, dl, leaves, elems);
    forall x, y | 0 <= x < elems && 0 <= y < elems && freq[x] > freq[y] > 0 ensures l[x] <= l[y] {
      var i := PlaceOf(order, dl, leaves, elems, x);
      var j := PlaceOf(order, dl, leaves, elems, y);
      assert i <= j;
    }
  }

  /** Main result. */
  lemma {:induction false} LengthsAreLeast(order: seq<int>, dl: seq<int>, freq: seq<int>, leaves: set<int>,
      elems: nat, l: seq<int>, m: nat)
    requires Counted(order, dl, freq, leaves, elems) && elems <= |l| && elems <= |freq|
    requires Shaped(ShapeOf(order, dl, leaves, elems), order, l, m)
    ensures LeastCost(freq[..elems], l[..elems], m)
  {
    hide M.Tree, ShapeOf, M.Cheapest, Overflow, M.Monotone, M.CheapestTooLong, Ascending, Growing, Cut;
    AllNodes(order, dl, leaves, elems);
    IsMergeTree(order, dl, leaves, elems);
    if Overflow(ShapeOf(order, dl, leaves, elems), m, |order|) == 0 {
      FitsIsCheapest(order, dl, freq, leaves, elems, l, m);
      M.CheapestIsMonotone(freq[..elems], l[..elems]);
    } else {
      OverflowIsTooLong(order, dl, freq, leaves, elems, m);
      AscendingIsMonotone(order, dl, freq, leaves, elems, l);
    }
  }

  /** Two symbols get one bit each. */
  lemma {:induction false} TwoLeaves(order: seq<int>, dl: seq<int>, leaves: set<int>, elems: nat, l: seq<int>, m: nat)
    requires Ordered(order, dl, leaves, elems) && InRange(order, |dl|) && |leaves| == 2 && 2 <= m
    requires Shaped(ShapeOf(order, dl, leaves, elems), order, l, m)
    ensures forall x :: x in leaves ==> 0 <= x < |l| && l[x] == 1
  {
    hide ShapeOf;
    AllNodes(order, dl, leaves, elems);
    OrderedNodes(order, dl, leaves, elems);
    OrderedRoot(order, dl, leaves, elems);
    ShapeParts(order, dl, leaves, elems);
    var s := ShapeOf(order, dl, leaves, elems);
    assert order[s.par[1]] == order[s.par[2]] == elems && s.par[1] == s.par[2] == 0;
    assert Cut(s, m, 0) == 0 && Cut(s, m, 1) == 1 && Cut(s, m, 2) == 1;
    assert Overflow(s, m, 1) == 0 && Overflow(s, m, 2) == 0 && Overflow(s, m, 3) == 0;
    forall x | x in leaves ensures 0 <= x < |l| && l[x] == 1 {
      var p := PlaceOf(order, dl, leaves, elems, x);
      assert p == 1 || p == 2;
    }
  }
}

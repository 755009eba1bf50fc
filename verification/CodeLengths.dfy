/** BZ2_hbMakeCodeLengths: Huffman merging on packed (weight, height) words, repeated on
    halved weights until no code is too long. */
module CodeLengths {
  import opened HeapArrays
  import opened Bytes
  import opened Bits
  import opened Canonical
  import opened CodeHeap
  import M = MergeTrees

  const NODES: int := 516          // 2 * BZ_MAX_ALPHA_SIZE
  const TOTAL_LIMIT: int := 0x7f_ffff  // shifted left by 8 this still fits an Int32

  function WeightOf(x: int): int { x / 0x100 }
  function DepthOf(x: int): (d: int)
    ensures 0 <= d < 0x100
  {
    x % 0x100
  }

  function AddWeights(x: int, y: int): int {
    (WeightOf(x) + WeightOf(y)) * 0x100 + 1 + if DepthOf(x) > DepthOf(y) then DepthOf(x) else DepthOf(y)
  }

  /** The least weight of a Huffman tree of height n. */
  function Fib(n: nat): (f: nat)
    ensures f >= 1
  {
    if n == 0 then 1 else if n == 1 then 2 else Fib(n - 1) + Fib(n - 2)
  }

  lemma {:induction false} FibMonotone(m: nat, n: nat)
    requires m <= n
    ensures Fib(m) <= Fib(n)
    decreases n
  {
    if m < n { FibMonotone(m, n - 1); }
  }

  lemma FibValues()
    ensures Fib(18) == 6765 && Fib(33) == 9227465
  {
    assert Fib(4) == 8 && Fib(5) == 13;
    assert Fib(8) == 55 && Fib(9) == 89;
    assert Fib(12) == 377 && Fib(13) == 610;
    assert Fib(16) == 2584 && Fib(17) == 4181;
    assert Fib(20) == 17711 && Fib(21) == 28657;
    assert Fib(24) == 121393 && Fib(25) == 196418;
    assert Fib(28) == 832040 && Fib(29) == 1346269;
    assert Fib(32) == 5702887;
  }

  // ---- the forest in the parent array ----

  /** Number of nodes among 1..k whose parent is t. */
  function Children(p: seq<int>, t: int, k: nat): nat
    requires k < |p|
  {
    if k == 0 then 0 else Children(p, t, k - 1) + if p[k] == t then 1 else 0
  }

  ghost predicate HasTwoChildren(p: seq<int>, t: int)
    requires 1 <= t <= |p|
  {
    Children(p, t, t - 1) == 2
  }

  /** Nodes 1..n of which 1..leaves are leaves; a parent is younger than its children,
      and every inner node has exactly two. */
  ghost predicate Forest(p: seq<int>, leaves: int, n: int) {
    && 1 <= leaves <= n < |p|
    && (forall k :: 1 <= k <= n ==> p[k] == -1 || (k < p[k] <= n && leaves < p[k]))
    && (forall t :: leaves < t <= n ==> HasTwoChildren(p, t))
    && p[n] == -1
  }

  function Depth(p: seq<int>, leaves: int, n: int, k: int): (d: nat)
    requires Forest(p, leaves, n) && 1 <= k <= n
    ensures d <= n - k
    decreases n - k
  {
    if p[k] == -1 then 0 else 1 + Depth(p, leaves, n, p[k])
  }

  /** Joining two roots under a new node. */
  ghost function Joined(p: seq<int>, a: int, b: int, z: int): seq<int>
    requires 0 <= a < |p| && 0 <= b < |p| && 0 <= z < |p|
  {
    p[a := z][b := z][z := -1]
  }

  lemma {:induction false} ChildrenJoined(p: seq<int>, a: int, b: int, z: int, t: int, k: nat)
    requires k < z < |p| && 1 <= a < z && 1 <= b < z && a != b && p[a] == -1 && p[b] == -1
    requires forall i :: 1 <= i < z ==> p[i] < z
    ensures t != z && t >= 0 ==> Children(Joined(p, a, b, z), t, k) == Children(p, t, k)
    ensures t == z ==> Children(Joined(p, a, b, z), t, k) == (if a <= k then 1 else 0) + (if b <= k then 1 else 0)
  {
    if k > 0 { ChildrenJoined(p, a, b, z, t, k - 1); }
  }

  lemma ForestJoined(p: seq<int>, leaves: int, n: int, a: int, b: int)
    requires Forest(p, leaves, n) && n + 1 < |p|
    requires 1 <= a <= n && 1 <= b <= n && a != b && p[a] == -1 && p[b] == -1
    ensures Forest(Joined(p, a, b, n + 1), leaves, n + 1)
  {
    var q, z := Joined(p, a, b, n + 1), n + 1;
    forall t | leaves < t <= z ensures HasTwoChildren(q, t) {
      assert t < z ==> HasTwoChildren(p, t);
      ChildrenJoined(p, a, b, z, t, t - 1);
    }
  }

  // ---- Kraft's sum over a finished tree ----

  /** Over the nodes 1..k not below a node among 1..t: sum of 2^(n - depth). */
  ghost function Front(p: seq<int>, leaves: int, n: int, t: int, k: nat): nat
    requires Forest(p, leaves, n) && k <= n
  {
    if k == 0 then 0
    else Front(p, leaves, n, t, k - 1) +
         if p[k] == -1 || p[k] > t then Pow2(n - Depth(p, leaves, n, k)) else 0
  }

  /** Lowering t past an inner node trades it for its two children. */
  lemma {:induction false} FrontChildren(p: seq<int>, leaves: int, n: int, t: int, k: nat)
    requires Forest(p, leaves, n) && k < t <= n && leaves < t
    ensures 2 * Front(p, leaves, n, t - 1, k) ==
            2 * Front(p, leaves, n, t, k) + Children(p, t, k) * Pow2(n - Depth(p, leaves, n, t))
  {
    if k > 0 {
      FrontChildren(p, leaves, n, t, k - 1);
      if p[k] == t {
        assert Depth(p, leaves, n, k) == 1 + Depth(p, leaves, n, t);
        assert Pow2(n - Depth(p, leaves, n, t)) == 2 * Pow2(n - Depth(p, leaves, n, k));
        Distribute(Children(p, t, k - 1), 1, Pow2(n - Depth(p, leaves, n, t)));
      }
    }
  }

  ghost predicate SingleRoot(p: seq<int>, leaves: int, n: int) {
    Forest(p, leaves, n) && forall k :: 1 <= k < n ==> p[k] != -1
  }

  lemma {:induction false} FrontWhole(p: seq<int>, leaves: int, n: int, t: int)
    requires SingleRoot(p, leaves, n) && leaves <= t <= n
    ensures Front(p, leaves, n, t, t) == Pow2(n)
    decreases n - t
  {
    if t == n {
      FrontTop(p, leaves, n, n - 1);
    } else {
      FrontWhole(p, leaves, n, t + 1);
      FrontChildren(p, leaves, n, t + 1, t);
      assert HasTwoChildren(p, t + 1);
      assert p[t + 1] == -1 || p[t + 1] > t + 1;
    }
  }

  lemma {:induction false} FrontTop(p: seq<int>, leaves: int, n: int, k: nat)
    requires SingleRoot(p, leaves, n) && k < n
    ensures Front(p, leaves, n, n, k) == 0
  {
    if k > 0 { FrontTop(p, leaves, n, k - 1); }
  }

  /** The depths of the leaves, as a length table, fill the code space exactly. */
  lemma {:induction false} FrontLeaves(p: seq<int>, leaves: int, n: int, lens: seq<Byte>, k: nat)
    requires SingleRoot(p, leaves, n) && k <= leaves && |lens| == k && leaves < n
    requires forall i :: 0 <= i < k ==> lens[i] <= n && lens[i] == Depth(p, leaves, n, i + 1)
    ensures Kraft(lens, n) == Front(p, leaves, n, leaves, k)
  {
    if k > 0 {
      FrontLeaves(p, leaves, n, lens[..k - 1], k - 1);
    }
  }

  lemma {:induction false} KraftScale(lens: seq<Byte>, m: nat, n: nat)
    requires m <= n && forall i :: 0 <= i < |lens| ==> lens[i] <= m
    ensures Kraft(lens, n) == Kraft(lens, m) * Pow2(n - m)
  {
    if lens != [] {
      var x := lens[|lens| - 1];
      KraftScale(lens[..|lens| - 1], m, n);
      Pow2Add(m - x, n - m);
      Distribute(Kraft(lens[..|lens| - 1], m), Pow2(m - x), Pow2(n - m));
    }
  }

  lemma {:induction false} KraftOne(lens: seq<Byte>, m: nat, n: nat)
    requires m <= n && (forall i :: 0 <= i < |lens| ==> lens[i] <= m) && Kraft(lens, n) == Pow2(n)
    ensures Kraft(lens, m) == Pow2(m)
  {
    KraftScale(lens, m, n);
    Pow2Add(m, n - m);
    Distribute(Kraft(lens, m), Pow2(m), Pow2(n - m));
    Multiple(Kraft(lens, m) - Pow2(m), Pow2(n - m));
  }

  // ---- weights and heights ----

  /** Sum of the weights of the roots among nodes 1..k. */
  function RootSum(w: seq<int>, p: seq<int>, k: nat): int
    requires k < |w| && k < |p|
  {
    if k == 0 then 0 else RootSum(w, p, k - 1) + if p[k] == -1 then WeightOf(w[k]) else 0
  }

  /** Every packed word carries a positive weight and the height of its subtree; leaves
      have height 0 and a parent is higher than its children. */
  ghost predicate Heights(w: seq<int>, p: seq<int>, leaves: int, n: int) {
    && |w| == |p| && Forest(p, leaves, n)
    && (forall k :: 1 <= k <= n ==> WeightOf(w[k]) >= 1)
    && (forall k :: 1 <= k <= leaves ==> DepthOf(w[k]) == 0)
    && (forall k :: 1 <= k <= n && p[k] != -1 ==> DepthOf(w[k]) + 1 <= DepthOf(w[p[k]]))
  }

  /** Roots are as heavy as the Fibonacci numbers ask, also those beside a high one. */
  ghost predicate Balanced(w: seq<int>, p: seq<int>, n: int) {
    && n < |w| && n < |p|
    && (forall x :: 1 <= x <= n && p[x] == -1 ==> Fib(DepthOf(w[x])) <= WeightOf(w[x]))
    && (forall x, y :: 1 <= x <= n && 1 <= y <= n && p[x] == -1 && p[y] == -1 && DepthOf(w[x]) >= 1 ==>
          Fib(DepthOf(w[x]) - 1) <= WeightOf(w[y]))
  }

  lemma {:induction false} RootSumLocal(w: seq<int>, p: seq<int>, w1: seq<int>, p1: seq<int>, k: nat)
    requires k < |w| == |w1| && k < |p| == |p1|
    requires forall i :: 1 <= i <= k ==> w1[i] == w[i] && (p1[i] == -1 <==> p[i] == -1)
    ensures RootSum(w1, p1, k) == RootSum(w, p, k)
  {
    if k > 0 { RootSumLocal(w, p, w1, p1, k - 1); }
  }

  lemma {:induction false} RootSumDrop(w: seq<int>, p: seq<int>, a: int, t: int, k: nat)
    requires k < |w| && k < |p| && 1 <= a <= k && p[a] == -1 && t != -1
    ensures RootSum(w, p[a := t], k) == RootSum(w, p, k) - WeightOf(w[a])
  {
    if a < k {
      RootSumDrop(w, p, a, t, k - 1);
    } else {
      RootSumLocal(w, p, w, p[a := t], k - 1);
    }
  }

  lemma {:induction false} RootSumAtLeast(w: seq<int>, p: seq<int>, k: nat)
    requires k < |w| && k < |p| && forall i :: 1 <= i <= k ==> WeightOf(w[i]) >= 1
    ensures RootSum(w, p, k) >= 0
  {
    if k > 0 { RootSumAtLeast(w, p, k - 1); }
  }

  /** Joining keeps the sum of the root weights. */
  lemma {:induction false} RootSumJoined(w: seq<int>, p: seq<int>, a: int, b: int, z: int, v: int)
    requires |w| == |p| && 1 <= a < z && 1 <= b < z < |p| && a != b && p[a] == -1 && p[b] == -1
    requires WeightOf(v) == WeightOf(w[a]) + WeightOf(w[b])
    ensures RootSum(w[z := v], Joined(p, a, b, z), z) == RootSum(w, p, z - 1)
  {
    RootSumDrop(w, p, a, z, z - 1);
    RootSumDrop(w, p[a := z], b, z, z - 1);
    RootSumLocal(w, p[a := z][b := z], w[z := v], Joined(p, a, b, z), z - 1);
  }

  lemma {:induction false} TwoRootsWeigh(w: seq<int>, p: seq<int>, a: int, b: int, k: nat)
    requires k < |w| && k < |p| && 1 <= a <= k && 1 <= b <= k && a != b && p[a] == -1 && p[b] == -1
    requires forall i :: 1 <= i <= k ==> WeightOf(w[i]) >= 1
    ensures WeightOf(w[a]) + WeightOf(w[b]) <= RootSum(w, p, k)
  {
    RootSumDrop(w, p, a, 0, k);
    RootSumDrop(w, p[a := 0], b, 0, k);
    RootSumAtLeast(w, p[a := 0][b := 0], k);
  }

  lemma {:induction false} AddFields(x: int, y: int)
    requires 0 <= x && 0 <= y && DepthOf(x) < 0xff && DepthOf(y) < 0xff
    ensures WeightOf(AddWeights(x, y)) == WeightOf(x) + WeightOf(y)
    ensures DepthOf(AddWeights(x, y)) == 1 + if DepthOf(x) > DepthOf(y) then DepthOf(x) else DepthOf(y)
  {
  }

  /** A root's height is small: its weight is at least a Fibonacci number. */
  lemma {:induction false} HeightBound(h: nat, weight: int)
    requires Fib(h) <= weight <= TOTAL_LIMIT
    ensures h <= 32
  {
    hide Fib;
    FibValues();
    if h > 32 { FibMonotone(33, h); }
  }

  lemma BalancedJoined(w: seq<int>, p: seq<int>, n: int, a: int, b: int, v: int)
    requires Balanced(w, p, n) && n + 1 < |w| == |p|
    requires 1 <= a <= n && 1 <= b <= n && a != b && p[a] == -1 && p[b] == -1
    requires forall y :: 1 <= y <= n && p[y] == -1 ==> w[a] <= w[y]
    requires forall y :: 1 <= y <= n && p[y] == -1 && y != a ==> w[b] <= w[y]
    requires forall y :: 1 <= y <= n ==> WeightOf(w[y]) >= 1
    requires WeightOf(v) == WeightOf(w[a]) + WeightOf(w[b])
    requires DepthOf(v) == 1 + if DepthOf(w[a]) > DepthOf(w[b]) then DepthOf(w[a]) else DepthOf(w[b])
    ensures Balanced(w[n + 1 := v], Joined(p, a, b, n + 1), n + 1)
  {
    hide Fib, WeightOf, DepthOf;
    var z := n + 1;
    var w1, q := w[z := v], Joined(p, a, b, z);
    var c := if DepthOf(w[a]) > DepthOf(w[b]) then a else b;
    var e := if c == a then b else a;
    FibStep(DepthOf(w[c]), WeightOf(w[c]), WeightOf(w[e]));
    forall x, y | 1 <= x <= z && 1 <= y <= z && q[x] == -1 && q[y] == -1 && DepthOf(w1[x]) >= 1
      ensures Fib(DepthOf(w1[x]) - 1) <= WeightOf(w1[y])
    {
      if y != z { HeavierWeight(w[a], w[y]); HeavierWeight(w[b], w[y]); }
    }
  }

  lemma HeavierWeight(x: int, y: int)
    requires x <= y
    ensures WeightOf(x) <= WeightOf(y)
  {
  }

  lemma {:induction false} FibStep(h: nat, high: int, other: int)
    requires Fib(h) <= high && other >= 1 && (h >= 1 ==> Fib(h - 1) <= other)
    ensures Fib(h + 1) <= high + other
  {
  }

  lemma HeightsJoined(w: seq<int>, p: seq<int>, leaves: int, n: int, a: int, b: int, v: int)
    requires Heights(w, p, leaves, n) && n + 1 < |w|
    requires 1 <= a <= n && 1 <= b <= n && a != b && p[a] == -1 && p[b] == -1
    requires WeightOf(v) == WeightOf(w[a]) + WeightOf(w[b])
    requires DepthOf(v) == 1 + if DepthOf(w[a]) > DepthOf(w[b]) then DepthOf(w[a]) else DepthOf(w[b])
    ensures Heights(w[n + 1 := v], Joined(p, a, b, n + 1), leaves, n + 1)
  {
    hide WeightOf, DepthOf, Children;
    ForestJoined(p, leaves, n, a, b);
  }

  /** The queue holds exactly the roots. */
  ghost predicate Queued(bag: multiset<int>, p: seq<int>, n: int)
    requires n < |p|
  {
    forall id: int :: bag[id] == if 1 <= id <= n && p[id] == -1 then 1 else 0
  }

  /** The forest with its weights: every inner node joins the two lightest roots there were. */
  ghost predicate Growing(w: seq<int>, p: seq<int>, leaves: int, n: int) {
    |w| == |p| > 0 && M.Greedy(Fathers(p), Weights(w), leaves + 1, n)
  }

  /** Entry 0 is not a node. */
  ghost function Fathers(p: seq<int>): (q: seq<int>)
    requires |p| > 0
    ensures |q| == |p|
  {
    p[0 := M.NO_NODE]
  }

  ghost function Weights(w: seq<int>): (u: seq<int>)
    ensures |u| == |w| && forall k :: 0 <= k < |w| ==> u[k] == WeightOf(w[k])
  {
    seq(|w|, k requires 0 <= k < |w| => WeightOf(w[k]))
  }

  lemma LeavesGrow(w: seq<int>, p: seq<int>, leaves: int)
    requires |w| == |p| && 1 <= leaves < |w| && w[0] == 0 && LeafWords(w, leaves)
    requires forall i :: 1 <= i <= leaves ==> p[i] == -1
    ensures Growing(w, p, leaves, leaves)
  {
  }

  lemma GrowingJoined(w: seq<int>, p: seq<int>, leaves: int, n: int, a: int, b: int, v: int)
    requires Growing(w, p, leaves, n) && n + 1 < |p| && 1 <= leaves <= n
    requires 1 <= a <= n && 1 <= b <= n && a != b && p[a] == -1 && p[b] == -1
    requires forall y :: 1 <= y <= n && p[y] == -1 ==> w[a] <= w[y]
    requires forall y :: 1 <= y <= n && p[y] == -1 && y != a ==> w[b] <= w[y]
    requires WeightOf(v) == WeightOf(w[a]) + WeightOf(w[b])
    ensures Growing(w[n + 1 := v], Joined(p, a, b, n + 1), leaves, n + 1)
  {
    hide M.Greedy, WeightOf;
    var q, u := Fathers(p), Weights(w);
    forall y | 0 <= y <= n && q[y] == M.NO_FATHER && y != a && y != b ensures u[a] <= u[y] && u[b] <= u[y] {
      HeavierWeight(w[a], w[y]);
      HeavierWeight(w[b], w[y]);
    }
    M.GreedyJoined(q, u, leaves + 1, n, a, b);
    assert Fathers(Joined(p, a, b, n + 1)) == M.Joined(q, a, b, n + 1);
    assert Weights(w[n + 1 := v]) == u[n + 1 := u[a] + u[b]];
  }

  ghost predicate Merging(h: seq<int>, w: seq<int>, p: seq<int>, leaves: int, n: int, nHeap: int, total: int) {
    && |w| == |p| == NODES && |h| == 260 && 2 <= leaves <= 258 && total <= TOTAL_LIMIT
    && Heights(w, p, leaves, n) && Balanced(w, p, n) && RootSum(w, p, n) == total && Growing(w, p, leaves, n)
    && nHeap == 2 * leaves - n && IsHeap(h, w, nHeap) && 1 <= nHeap && Queued(Bag(h, nHeap), p, n)
  }

  /** What the two least roots are, once both are out of the queue. */
  ghost predicate TwoLeast(bag: multiset<int>, w: seq<int>, p: seq<int>, n: int, a: int, b: int) {
    && n < |p| && n < |w|
    && 1 <= a <= n && 1 <= b <= n && a != b && p[a] == -1 && p[b] == -1
    && (forall y :: 1 <= y <= n && p[y] == -1 ==> w[a] <= w[y])
    && (forall y :: 1 <= y <= n && p[y] == -1 && y != a ==> w[b] <= w[y])
    && Queued(bag + multiset{a} + multiset{b}, p, n)
  }

  method TakeTwo(heap: array<int>, weight: array<int>, ghost p: seq<int>, ghost n: int, nHeap: int)
    returns (n1: int, n2: int)
    requires heap != weight && 2 <= nHeap && IsHeap(heap[..], weight[..], nHeap)
    requires n < |p| && n < weight.Length && Queued(Bag(heap[..], nHeap), p, n)
    modifies heap
    ensures IsHeap(heap[..], weight[..], nHeap - 2)
    ensures TwoLeast(Bag(heap[..], nHeap - 2), weight[..], p, n, n1, n2)
  {
    hide IsHeap, Bag;
    IsHeapSize(heap[..], weight[..], nHeap);
    ghost var bag, w := Bag(heap[..], nHeap), weight[..];
    n1 := ExtractLeast(heap, weight, nHeap);
    assert weight[..] == w;
    ghost var bag1 := Bag(heap[..], nHeap - 1);
    n2 := ExtractLeast(heap, weight, nHeap - 1);
    TwoLeastOf(bag, bag1, Bag(heap[..], nHeap - 2), w, p, n, n1, n2);
  }

  lemma IsHeapSize(h: seq<int>, w: seq<int>, n: int)
    requires IsHeap(h, w, n)
    ensures 0 <= n < |h|
  {
  }

  lemma TwoLeastOf(bag: multiset<int>, bag1: multiset<int>, bag2: multiset<int>, w: seq<int>, p: seq<int>, n: int,
      a: int, b: int)
    requires n < |p| && n < |w| && Queued(bag, p, n)
    requires a in bag && bag1 == bag - multiset{a} && b in bag1 && bag2 == bag1 - multiset{b}
    requires 0 <= a < |w| && 0 <= b < |w|
    requires forall x :: x in bag ==> 0 <= x < |w| && w[a] <= w[x]
    requires forall x :: x in bag1 ==> 0 <= x < |w| && w[b] <= w[x]
    ensures TwoLeast(bag2, w, p, n, a, b)
  {
    assert bag[a] == 1 && bag1[a] == 0 && bag1[b] == 1 && bag[b] == 1;
    forall y | 1 <= y <= n && p[y] == -1 ensures w[a] <= w[y] && (y != a ==> w[b] <= w[y]) {
      assert bag[y] == 1;
      if y != a { assert bag1[y] == 1; }
    }
    assert bag2 + multiset{a} + multiset{b} == bag;
  }

  /** One pass of the merging loop. */
  method Merge(heap: array<int>, weight: array<int>, parent: array<int>, ghost leaves: int, nNodes: int, nHeap: int,
      ghost total: int)
    requires heap != weight && heap != parent && weight != parent && 2 <= nHeap
    requires Merging(heap[..], weight[..], parent[..], leaves, nNodes, nHeap, total)
    modifies heap, weight, parent
    ensures Merging(heap[..], weight[..], parent[..], leaves, nNodes + 1, nHeap - 1, total)
    ensures forall k :: 0 <= k <= nNodes && k < weight.Length ==> weight[k] == old(weight[k])
  {
    hide IsHeap, Bag, Heights, Balanced, RootSum, Queued, TwoLeast, Growing;
    ghost var w, p := weight[..], parent[..];
    var n1, n2 := TakeTwo(heap, weight, p, nNodes, nHeap);
    ghost var h := heap[..];
    var z := nNodes + 1;
    MergeFacts(h, w, p, leaves, nNodes, nHeap, total, n1, n2);
    parent[n1] := z;
    parent[n2] := z;
    weight[z] := AddWeights(weight[n1], weight[n2]);
    parent[z] := -1;
    heap[nHeap - 1] := z;
    assert heap[..] == h[nHeap - 1 := z] && parent[..] == Joined(p, n1, n2, z);
    assert weight[..] == w[z := AddWeights(w[n1], w[n2])];
    UpHeap(heap, weight, nHeap - 1);
  }

  /** Everything the loop invariant needs after joining the two least roots. */
  lemma MergeFacts(h: seq<int>, w: seq<int>, p: seq<int>, leaves: int, n: int, nHeap: int, total: int, a: int, b: int)
    requires |w| == |p| == NODES && |h| == 260 && 2 <= leaves <= 258 && total <= TOTAL_LIMIT
    requires Heights(w, p, leaves, n) && Balanced(w, p, n) && RootSum(w, p, n) == total && Growing(w, p, leaves, n)
    requires nHeap == 2 * leaves - n && 2 <= nHeap
    requires IsHeap(h, w, nHeap - 2) && TwoLeast(Bag(h, nHeap - 2), w, p, n, a, b)
    ensures leaves <= n && 1 <= a <= n && 1 <= b <= n && nHeap < 260 && n + 1 < NODES
    ensures var z := n + 1; var w1 := w[z := AddWeights(w[a], w[b])]; var q := Joined(p, a, b, z);
      && Heights(w1, q, leaves, z) && Balanced(w1, q, z) && RootSum(w1, q, z) == total
      && Entries(h[nHeap - 1 := z], w1, nHeap - 1) && IsHeap(h[nHeap - 1 := z], w1, nHeap - 2)
      && Queued(Bag(h[nHeap - 1 := z], nHeap - 1), q, z) && Growing(w1, q, leaves, z)
  {
    hide IsHeap, Entries, Bag, RootSum, Fib, Growing, AddWeights, WeightOf, DepthOf;
    RootsOk(w, p, leaves, n, total, a, b);
    var z, v := n + 1, AddWeights(w[a], w[b]);
    AddFields(w[a], w[b]);
    HeightsJoined(w, p, leaves, n, a, b, v);
    BalancedJoined(w, p, n, a, b, v);
    GrowingJoined(w, p, leaves, n, a, b, v);
    RootSumJoined(w, p, a, b, z, v);
    JoinedQueue(h, w, p, n, nHeap - 2, a, b, v);
  }

  lemma RootsOk(w: seq<int>, p: seq<int>, leaves: int, n: int, total: int, a: int, b: int)
    requires Heights(w, p, leaves, n) && Balanced(w, p, n) && RootSum(w, p, n) == total <= TOTAL_LIMIT
    requires 1 <= a <= n && 1 <= b <= n && a != b && p[a] == -1 && p[b] == -1
    ensures 0 <= w[a] && 0 <= w[b] && DepthOf(w[a]) < 0xff && DepthOf(w[b]) < 0xff
    ensures AddWeights(w[a], w[b]) > 0
  {
    TwoRootsWeigh(w, p, a, b, n);
    HeightBound(DepthOf(w[a]), WeightOf(w[a]));
    HeightBound(DepthOf(w[b]), WeightOf(w[b]));
  }

  lemma JoinedQueue(h: seq<int>, w: seq<int>, p: seq<int>, n: int, m: int, a: int, b: int, v: int)
    requires IsHeap(h, w, m) && 0 <= m && m + 1 < |h| && TwoLeast(Bag(h, m), w, p, n, a, b) && v > 0
    requires n + 1 < |w| == |p| && 1 <= n
    ensures Entries(h[m + 1 := n + 1], w[n + 1 := v], m + 1) && IsHeap(h[m + 1 := n + 1], w[n + 1 := v], m)
    ensures Queued(Bag(h[m + 1 := n + 1], m + 1), Joined(p, a, b, n + 1), n + 1)
  {
    hide IsHeap, Entries, Bag;
    var bag, z, q := Bag(h, m), n + 1, Joined(p, a, b, n + 1);
    var full := bag + multiset{a} + multiset{b};
    assert full[z] == 0;
    NewEntry(h, w, m, z, v);
    forall id: int ensures (bag + multiset{z})[id] == if 1 <= id <= z && q[id] == -1 then 1 else 0 {
      assert full[id] == if 1 <= id <= n && p[id] == -1 then 1 else 0;
    }
  }

  // ---- one round: heap, tree, lengths ----

  /** Sum of the leaf weights. */
  function LeafSum(w: seq<int>, k: nat): int
    requires k < |w|
  {
    if k == 0 then 0 else LeafSum(w, k - 1) + WeightOf(w[k])
  }

  /** The words of the leaves: weight at least one, height zero. */
  ghost predicate LeafWords(w: seq<int>, leaves: int) {
    leaves < |w| && forall k :: 1 <= k <= leaves ==> w[k] > 0 && DepthOf(w[k]) == 0
  }

  lemma {:induction false} AllRootsSum(w: seq<int>, p: seq<int>, k: nat)
    requires k < |w| && k < |p| && forall i :: 1 <= i <= k ==> p[i] == -1
    ensures RootSum(w, p, k) == LeafSum(w, k)
  {
    if k > 0 { AllRootsSum(w, p, k - 1); }
  }

  lemma {:induction false} LeavesStart(w: seq<int>, p: seq<int>, leaves: int)
    requires |w| == |p| == NODES && 2 <= leaves <= 258 && LeafWords(w, leaves)
    requires forall i :: 1 <= i <= leaves ==> p[i] == -1
    ensures Heights(w, p, leaves, leaves) && Balanced(w, p, leaves)
  {
  }

  /** The queue is built by inserting the leaves one after the other. */
  method FillHeap(heap: array<int>, weight: array<int>, parent: array<int>, alphaSize: int, ghost total: int)
    returns (nHeap: int)
    requires heap != weight && heap != parent && weight != parent
    requires heap.Length == 260 && weight.Length == parent.Length == NODES && 2 <= alphaSize <= 258
    requires LeafWords(weight[..], alphaSize) && LeafSum(weight[..], alphaSize) == total <= TOTAL_LIMIT
    modifies heap, weight, parent
    ensures nHeap == alphaSize
    ensures Merging(heap[..], weight[..], parent[..], alphaSize, alphaSize, nHeap, total)
    ensures forall k :: 1 <= k < NODES ==> weight[k] == old(weight[k])
  {
    hide Bag, LeafSum, Heights, Balanced, RootSum, Growing;
    ghost var w0 := weight[..];
    nHeap := 0;
    heap[0] := 0;
    weight[0] := 0;
    parent[0] := -2;
    ghost var w := weight[..];
    LeafSumLocal(w0, w, alphaSize);
    EmptyBag(heap[..]);
    for i := 1 to alphaSize + 1
      modifies heap, parent
      invariant nHeap == i - 1 && weight[..] == w && IsHeap(heap[..], w, nHeap)
      invariant forall k :: 1 <= k < i ==> parent[k] == -1
      invariant Queued(Bag(heap[..], nHeap), parent[..], i - 1)
    {
      ghost var h, p := heap[..], parent[..];
      parent[i] := -1;
      nHeap := nHeap + 1;
      heap[nHeap] := i;
      assert heap[..] == h[nHeap := i] && parent[..] == p[i := -1];
      LeafQueued(h, w, p, i);
      UpHeap(heap, weight, nHeap);
    }
    LeavesStart(w, parent[..], alphaSize);
    AllRootsSum(w, parent[..], alphaSize);
    LeavesGrow(w, parent[..], alphaSize);
  }

  lemma {:induction false} LeafSumLocal(w: seq<int>, w1: seq<int>, k: nat)
    requires k < |w| == |w1| && forall i :: 1 <= i <= k ==> w1[i] == w[i]
    ensures LeafSum(w1, k) == LeafSum(w, k)
  {
    if k > 0 { LeafSumLocal(w, w1, k - 1); }
  }

  lemma EmptyBag(h: seq<int>)
    requires |h| > 0
    ensures Bag(h, 0) == multiset{}
  {
  }

  lemma LeafQueued(h: seq<int>, w: seq<int>, p: seq<int>, i: int)
    requires 1 <= i < 260 && |h| == 260 && |w| == |p| == NODES && w[i] > 0
    requires IsHeap(h, w, i - 1) && Queued(Bag(h, i - 1), p, i - 1)
    ensures Entries(h[i := i], w, i) && IsHeap(h[i := i], w, i - 1)
    ensures Queued(Bag(h[i := i], i), p[i := -1], i)
  {
    hide IsHeap, Entries, Bag;
    assert Bag(h, i - 1)[i] == 0;
    NewEntry(h, w, i - 1, i, w[i]);
    assert w[i := w[i]] == w;
    assert h[i - 1 + 1 := i] == h[i := i];
    var bag, q := Bag(h, i - 1) + multiset{i}, p[i := -1];
    forall id: int ensures bag[id] == if 1 <= id <= i && q[id] == -1 then 1 else 0 {
      assert Bag(h, i - 1)[id] == if 1 <= id <= i - 1 && p[id] == -1 then 1 else 0;
    }
  }

  /** When one root is left, it is the last node made and everything hangs below it. */
  lemma OneRootLeft(h: seq<int>, w: seq<int>, p: seq<int>, leaves: int, n: int, total: int)
    requires Merging(h, w, p, leaves, n, 1, total)
    ensures SingleRoot(p, leaves, n) && leaves < n && n == 2 * leaves - 1
    ensures WeightOf(w[n]) == total && Fib(DepthOf(w[n])) <= total
  {
    var bag := Bag(h, 1);
    assert bag == multiset{h[1]};
    assert bag[n] == 1;
    forall k | 1 <= k < n ensures p[k] != -1 { assert bag[k] == 0; }
    NoRootsBelow(w, p, n - 1);
  }

  lemma {:induction false} NoRootsBelow(w: seq<int>, p: seq<int>, k: nat)
    requires k < |w| && k < |p| && forall i :: 1 <= i <= k ==> p[i] != -1
    ensures RootSum(w, p, k) == 0
  {
    if k > 0 { NoRootsBelow(w, p, k - 1); }
  }

  /** Depth below the root plus own height is at most the root's height. */
  lemma {:induction false} DepthBound(w: seq<int>, p: seq<int>, leaves: int, n: int, k: int)
    requires Heights(w, p, leaves, n) && SingleRoot(p, leaves, n) && 1 <= k <= n
    ensures Depth(p, leaves, n, k) + DepthOf(w[k]) <= DepthOf(w[n])
    decreases n - k
  {
    if k < n { DepthBound(w, p, leaves, n, p[k]); }
  }

  // ---- the least cost ----

  lemma TheTree(p: seq<int>, leaves: int, n: int, w: seq<int>)
    requires SingleRoot(p, leaves, n) && leaves < n && Growing(w, p, leaves, n)
    ensures M.Tree(Fathers(p), leaves + 1, n)
  {
    hide Children;
  }

  lemma {:induction false} SameDepth(p: seq<int>, leaves: int, n: int, k: int)
    requires SingleRoot(p, leaves, n) && M.Tree(Fathers(p), leaves + 1, n) && 1 <= k <= n
    ensures Depth(p, leaves, n, k) == M.Depth(Fathers(p), leaves + 1, n, k)
    decreases n - k
  {
    hide M.Forest;
    if p[k] != -1 { SameDepth(p, leaves, n, p[k]); }
  }

  /** The weights of the leaves. */
  ghost function LeafWeights(w: seq<int>, leaves: nat): (u: seq<int>)
    requires leaves < |w|
    ensures |u| == leaves && forall i :: 0 <= i < leaves ==> u[i] == WeightOf(w[i + 1])
  {
    seq(leaves, i requires 0 <= i < leaves => WeightOf(w[i + 1]))
  }

  /** The depths of the leaves are the lengths of a cheapest prefix code. */
  lemma DepthsAreCheapest(w: seq<int>, p: seq<int>, leaves: nat, n: int, lens: seq<int>)
    requires SingleRoot(p, leaves, n) && leaves < n && Growing(w, p, leaves, n) && LeafWords(w, leaves)
    requires |lens| == leaves && forall i :: 0 <= i < leaves ==> lens[i] == Depth(p, leaves, n, i + 1)
    ensures M.Cheapest(LeafWeights(w, leaves), lens)
  {
    TheTree(p, leaves, n, w);
    var q, first := Fathers(p), leaves + 1;
    var d := seq(|q|, k requires 0 <= k < |q| => if 1 <= k <= n then M.Depth(q, first, n, k) else 0);
    hide M.Cheapest, M.Depth, M.Greedy, M.Tree, Depth, SingleRoot;
    assert M.Depths(q, first, n, d);
    forall i | 0 <= i < leaves ensures lens[i] == d[1 + i] { SameDepth(p, leaves, n, i + 1); }
    LeavesOfTree(w, p, leaves, n);
    M.LeavesAreCheapest(q, Weights(w), d, first, n, 1, LeafWeights(w, leaves), lens);
  }

  lemma LeavesOfTree(w: seq<int>, p: seq<int>, leaves: nat, n: int)
    requires SingleRoot(p, leaves, n) && leaves < n && |w| == |p| && LeafWords(w, leaves)
    ensures M.LeavesFor(Fathers(p), Weights(w), leaves + 1, 1, LeafWeights(w, leaves))
  {
    hide Children;
  }

  /** A length is too long. */
  ghost predicate Exceeds(lens: seq<int>, maxLen: int) {
    exists i :: 0 <= i < |lens| && lens[i] > maxLen
  }

  lemma ExceedsMore(lens: seq<int>, x: int, maxLen: int)
    ensures Exceeds(lens + [x], maxLen) <==> Exceeds(lens, maxLen) || x > maxLen
  {
    if x > maxLen { assert (lens + [x])[|lens|] > maxLen; }
    if i :| 0 <= i < |lens| && lens[i] > maxLen { assert (lens + [x])[i] > maxLen; }
  }

  /** Counts the steps from every leaf to the root. */
  method MeasureDepths(len: array<Byte>, parent: array<int>, alphaSize: int, maxLen: int, ghost w: seq<int>,
      ghost n: int, ghost total: int)
    returns (tooLong: bool)
    requires len as object != parent && alphaSize <= len.Length && 0 <= maxLen
    requires Heights(w, parent[..], alphaSize, n) && SingleRoot(parent[..], alphaSize, n) && alphaSize < n
    requires n < |w| && Fib(DepthOf(w[n])) <= total <= TOTAL_LIMIT
    modifies len
    ensures forall i :: 0 <= i < alphaSize ==> len[i] == Depth(parent[..], alphaSize, n, i + 1) && 1 <= len[i]
    ensures forall i :: 0 <= i < alphaSize && !tooLong ==> len[i] <= maxLen
    ensures tooLong ==> maxLen < DepthOf(w[n]) && Exceeds(len[..alphaSize], maxLen)
  {
    hide Fib, Heights;
    ghost var p := parent[..];
    HeightBound(DepthOf(w[n]), total);
    tooLong := false;
    for i := 1 to alphaSize + 1
      modifies len
      invariant forall m :: 0 <= m < i - 1 ==> len[m] == Depth(p, alphaSize, n, m + 1) && 1 <= len[m]
      invariant forall m :: 0 <= m < i - 1 && !tooLong ==> len[m] <= maxLen
      invariant tooLong ==> maxLen < DepthOf(w[n]) && Exceeds(len[..i - 1], maxLen)
    {
      DepthBound(w, p, alphaSize, n, i);
      var j := CountSteps(parent, i, alphaSize, n);
      ghost var before := len[..i - 1];
      len[i - 1] := j;
      assert len[..i] == before + [j];
      ExceedsMore(before, j, maxLen);
      if j > maxLen { tooLong := true; }
    }
  }

  method CountSteps(parent: array<int>, i: int, ghost leaves: int, ghost n: int) returns (j: int)
    requires SingleRoot(parent[..], leaves, n) && 1 <= i < n
    ensures j == Depth(parent[..], leaves, n, i) >= 1
  {
    hide Children;
    ghost var p := parent[..];
    j := 0;
    var k := i;
    while parent[k] >= 0
      invariant 1 <= k <= n && 0 <= j && j + Depth(p, leaves, n, k) == Depth(p, leaves, n, i)
      decreases n - k
    {
      k := parent[k];
      j := j + 1;
    }
  }

  /** The weights of the first round. */
  ghost function StartWeights(freq: seq<int>): (u: seq<int>)
    ensures |u| == |freq| && forall i :: 0 <= i < |u| ==> u[i] == if freq[i] == 0 then 1 else freq[i]
  {
    seq(|freq|, i requires 0 <= i < |freq| => if freq[i] == 0 then 1 else freq[i])
  }

  ghost function HalvedAll(w: seq<int>): (u: seq<int>)
    ensures |u| == |w| && forall i :: 0 <= i < |u| ==> u[i] == 1 + w[i] / 2
  {
    seq(|w|, i requires 0 <= i < |w| => 1 + w[i] / 2)
  }

  /** The weights after some rounds. */
  ghost function WeightsAfter(freq: seq<int>, rounds: nat): (u: seq<int>)
    ensures |u| == |freq|
  {
    if rounds == 0 then StartWeights(freq) else HalvedAll(WeightsAfter(freq, rounds - 1))
  }

  /** A cheapest code for these weights has a code word that is too long. */
  ghost predicate TooDeep(w: seq<int>, maxLen: int) {
    exists lens :: M.Cheapest(w, lens) && Exceeds(lens, maxLen)
  }

  /** The lengths of a cheapest prefix code for the frequencies; these are halved only as long as a
      cheapest code for them was found to be too long. */
  ghost predicate CheapestWithin(freq: seq<int>, lens: seq<int>, maxLen: int) {
    exists rounds: nat :: CheapestAfter(freq, lens, maxLen, rounds)
  }

  ghost predicate CheapestAfter(freq: seq<int>, lens: seq<int>, maxLen: int, rounds: nat) {
    M.Cheapest(WeightsAfter(freq, rounds), lens)
    && forall r: nat :: r < rounds ==> TooDeep(WeightsAfter(freq, r), maxLen)
  }

  function Halved(x: int): int { (1 + WeightOf(x) / 2) * 0x100 }

  lemma {:induction false} HalvedSum(w: seq<int>, w1: seq<int>, leaves: int, k: nat)
    requires LeafWords(w, leaves) && k <= leaves && |w1| == |w|
    requires forall i :: 1 <= i <= k ==> w1[i] == Halved(w[i])
    ensures LeafSum(w1, k) <= LeafSum(w, k)
    ensures LeafSum(w, k) > 2 * k ==> LeafSum(w1, k) < LeafSum(w, k)
  {
    if k > 0 { HalvedSum(w, w1, leaves, k - 1); }
  }

  method HalveWeights(weight: array<int>, alphaSize: int)
    requires 0 <= alphaSize && LeafWords(weight[..], alphaSize)
    modifies weight
    ensures LeafWords(weight[..], alphaSize)
    ensures LeafWeights(weight[..], alphaSize) == HalvedAll(old(LeafWeights(weight[..], alphaSize)))
    ensures LeafSum(weight[..], alphaSize) <= old(LeafSum(weight[..], alphaSize))
    ensures old(LeafSum(weight[..], alphaSize)) > 2 * alphaSize ==>
      LeafSum(weight[..], alphaSize) < old(LeafSum(weight[..], alphaSize))
  {
    ghost var w := weight[..];
    for i := 1 to alphaSize + 1
      invariant forall k :: 1 <= k < i ==> weight[k] == Halved(w[k])
      invariant forall k :: i <= k < weight.Length ==> weight[k] == w[k]
    {
      var j := weight[i] / 0x100;
      j := 1 + j / 2;
      weight[i] := j * 0x100;
    }
    HalvedSum(w, weight[..], alphaSize, alphaSize);
    HalvedLeaves(w, weight[..], alphaSize);
  }

  lemma HalvedLeaves(w: seq<int>, w1: seq<int>, leaves: nat)
    requires leaves < |w| == |w1| && forall k :: 1 <= k <= leaves ==> w1[k] == Halved(w[k])
    ensures LeafWeights(w1, leaves) == HalvedAll(LeafWeights(w, leaves))
  {
    forall i | 0 <= i < leaves ensures LeafWeights(w1, leaves)[i] == 1 + LeafWeights(w, leaves)[i] / 2 {
      HalvedWeight(w[i + 1]);
    }
  }

  lemma HalvedWeight(x: int)
    ensures WeightOf(Halved(x)) == 1 + WeightOf(x) / 2
  {
  }

  function FreqSum(freq: seq<int>, k: nat): int
    requires k <= |freq|
  {
    if k == 0 then 0 else FreqSum(freq, k - 1) + if freq[k - 1] == 0 then 1 else freq[k - 1]
  }

  lemma {:induction false} LeafSumIsFreqSum(freq: seq<int>, w: seq<int>, k: nat)
    requires k <= |freq| && k < |w|
    requires forall i :: 0 <= i < k ==> w[i + 1] == (if freq[i] == 0 then 1 else freq[i]) * 0x100
    ensures LeafSum(w, k) == FreqSum(freq, k)
  {
    if k > 0 { LeafSumIsFreqSum(freq, w, k - 1); }
  }

  method InitWeights(weight: array<int>, freq: array<int>, alphaSize: int)
    requires weight != freq && weight.Length == NODES && 2 <= alphaSize <= 258 && alphaSize <= freq.Length
    requires forall i :: 0 <= i < alphaSize ==> 0 <= freq[i]
    modifies weight
    ensures LeafWords(weight[..], alphaSize)
    ensures LeafSum(weight[..], alphaSize) == FreqSum(freq[..], alphaSize)
    ensures LeafWeights(weight[..], alphaSize) == StartWeights(freq[..alphaSize])
  {
    for i := 0 to alphaSize
      invariant forall k :: 0 <= k < i ==> weight[k + 1] == (if freq[k] == 0 then 1 else freq[k]) * 0x100
    {
      weight[i + 1] := (if freq[i] == 0 then 1 else freq[i]) * 0x100;
    }
    forall k | 1 <= k <= alphaSize ensures weight[k] > 0 && DepthOf(weight[k]) == 0 {
      assert weight[k - 1 + 1] == (if freq[k - 1] == 0 then 1 else freq[k - 1]) * 0x100;
    }
    LeafSumIsFreqSum(freq[..], weight[..], alphaSize);
  }

  /** One round on the current leaf weights; too long a code means heavy leaves. */
  method BuildOnce(len: array<Byte>, heap: array<int>, weight: array<int>, parent: array<int>, alphaSize: int,
      maxLen: int, ghost total: int)
    returns (tooLong: bool)
    requires heap != weight && heap != parent && weight != parent
    requires len as object != heap && len as object != weight && len as object != parent
    requires heap.Length == 260 && weight.Length == parent.Length == NODES && 2 <= alphaSize <= 258
    requires alphaSize <= len.Length && 17 <= maxLen
    requires LeafWords(weight[..], alphaSize) && LeafSum(weight[..], alphaSize) == total <= TOTAL_LIMIT
    modifies len, heap, weight, parent
    ensures LeafWords(weight[..], alphaSize) && LeafSum(weight[..], alphaSize) == total
    ensures LeafWeights(weight[..], alphaSize) == old(LeafWeights(weight[..], alphaSize))
    ensures M.Cheapest(LeafWeights(weight[..], alphaSize), len[..alphaSize])
    ensures tooLong ==> total > 2 * alphaSize && Exceeds(len[..alphaSize], maxLen)
    ensures !tooLong ==> forall i :: 0 <= i < alphaSize ==> 1 <= len[i] <= maxLen
    ensures !tooLong ==> Kraft(len[..alphaSize], maxLen) == Pow2(maxLen)
  {
    hide Merging, LeafSum, Kraft, Growing, M.Cheapest, Exceeds, SingleRoot;
    ghost var w0 := weight[..];
    var nHeap := FillHeap(heap, weight, parent, alphaSize, total);
    var nNodes := alphaSize;
    while nHeap > 1
      invariant Merging(heap[..], weight[..], parent[..], alphaSize, nNodes, nHeap, total)
      invariant alphaSize <= nNodes && forall k :: 1 <= k <= alphaSize ==> weight[k] == w0[k]
      decreases nHeap
    {
      Merge(heap, weight, parent, alphaSize, nNodes, nHeap, total);
      nNodes := nNodes + 1;
      nHeap := nHeap - 1;
    }
    MergingDone(heap[..], weight[..], parent[..], alphaSize, nNodes, nHeap, total);
    LeafSumLocal(w0, weight[..], alphaSize);
    assert LeafWeights(weight[..], alphaSize) == LeafWeights(w0, alphaSize);
    tooLong := MeasureDepths(len, parent, alphaSize, maxLen, weight[..], nNodes, total);
    DepthsAreCheapest(weight[..], parent[..], alphaSize, nNodes, len[..alphaSize]);
    if tooLong {
      HighMeansHeavy(DepthOf(weight[nNodes]), total, maxLen, alphaSize);
    } else {
      LengthsComplete(parent[..], alphaSize, nNodes, len[..alphaSize], maxLen);
    }
  }

  lemma MergingDone(h: seq<int>, w: seq<int>, p: seq<int>, leaves: int, n: int, nHeap: int, total: int)
    requires Merging(h, w, p, leaves, n, nHeap, total) && nHeap <= 1
    ensures SingleRoot(p, leaves, n) && leaves < n && n < |w| && Heights(w, p, leaves, n) && Growing(w, p, leaves, n)
    ensures Fib(DepthOf(w[n])) <= total <= TOTAL_LIMIT
  {
    hide Heights, Balanced, IsHeap, Growing;
    OneRootLeft(h, w, p, leaves, n, total);
  }

  lemma {:induction false} HighMeansHeavy(height: nat, total: int, maxLen: int, leaves: int)
    requires 17 <= maxLen < height && Fib(height) <= total && leaves <= 258
    ensures total > 2 * leaves
  {
    hide Fib;
    FibValues();
    FibMonotone(18, height);
  }

  lemma {:induction false} LengthsComplete(p: seq<int>, leaves: int, n: int, lens: seq<Byte>, maxLen: int)
    requires SingleRoot(p, leaves, n) && leaves < n && |lens| == leaves && 0 <= maxLen
    requires forall i :: 0 <= i < leaves ==> lens[i] == Depth(p, leaves, n, i + 1) && lens[i] <= maxLen
    ensures Kraft(lens, maxLen) == Pow2(maxLen)
  {
    hide Kraft, Front, Pow2, Children;
    FrontWhole(p, leaves, n, leaves);
    FrontLeaves(p, leaves, n, lens, leaves);
    if maxLen <= n {
      KraftOne(lens, maxLen, n);
    } else {
      KraftScale(lens, n, maxLen);
      Pow2Add(n, maxLen - n);
    }
  }

  /** The code lengths of a table: between 1 and maxLen, filling the code space exactly, and of all
      prefix codes the cheapest for the frequencies, or for the halved ones if a cheapest code was too
      long; the rescaling loop ends because it lowers the sum of the weights. */
  method MakeCodeLengths(len: array<Byte>, freq: array<int>, alphaSize: int, maxLen: int)
    requires 2 <= alphaSize <= 258 && alphaSize <= len.Length && alphaSize <= freq.Length && 17 <= maxLen
    requires len as object != freq
    requires forall i :: 0 <= i < alphaSize ==> 0 <= freq[i]
    requires FreqSum(freq[..], alphaSize) <= TOTAL_LIMIT
    modifies len
    ensures forall i :: 0 <= i < alphaSize ==> 1 <= len[i] <= maxLen
    ensures Kraft(len[..alphaSize], maxLen) == Pow2(maxLen)
    ensures CheapestWithin(freq[..alphaSize], len[..alphaSize], maxLen)
  {
    hide LeafSum, Kraft, FreqSum, LeafWords, M.Cheapest, Exceeds, HalvedAll, StartWeights, LeafWeights;
    ghost var rounds: nat := 0;
    var heap, weight, parent := new int[260], new int[NODES], new int[NODES];
    InitWeights(weight, freq, alphaSize);
    while true
      invariant LeafWords(weight[..], alphaSize) && LeafSum(weight[..], alphaSize) <= TOTAL_LIMIT
      invariant alphaSize < weight.Length
      invariant LeafWeights(weight[..], alphaSize) == WeightsAfter(freq[..alphaSize], rounds)
      invariant forall r: nat :: r < rounds ==> TooDeep(WeightsAfter(freq[..alphaSize], r), maxLen)
      decreases LeafSum(weight[..], alphaSize)
    {
      ghost var total := LeafSum(weight[..], alphaSize);
      LeafSumPositive(weight[..], alphaSize);
      var tooLong := BuildOnce(len, heap, weight, parent, alphaSize, maxLen, total);
      if !tooLong {
        assert CheapestAfter(freq[..alphaSize], len[..alphaSize], maxLen, rounds);
        break;
      }
      assert TooDeep(WeightsAfter(freq[..alphaSize], rounds), maxLen);
      HalveWeights(weight, alphaSize);
      rounds := rounds + 1;
    }
  }

  lemma {:induction false} LeafSumPositive(w: seq<int>, leaves: int)
    requires 0 <= leaves && LeafWords(w, leaves)
    ensures 0 <= LeafSum(w, leaves)
  {
    if leaves > 0 { LeafSumPositive(w, leaves - 1); }
  }
}

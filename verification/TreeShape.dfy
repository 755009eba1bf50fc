/** The tree that the merges of build_tree in trees.c leave: its nodes from the root down, as they lie
    at the end of the heap array, and its shape. */
module TreeShape {
  import opened HeapArrays
  import opened Permutations
  import opened CodeTree
  import opened GenBitlen
  import opened TreeHeap
  import opened TreeMerging

  lemma Twice(q: seq<int>, i: int, j: int)
    requires 0 <= i < j < |q| && q[i] == q[j]
    ensures multiset(q)[q[i]] >= 2
  {
    assert q == q[..i] + [q[i]] + q[i + 1..j] + [q[j]] + q[j + 1..];
  }

  lemma {:induction false} EachOnce(q: seq<int>, s: set<int>)
    requires multiset(q) == multiset(s)
    ensures Distinct(q) && forall x :: x in q <==> x in s
  {
    forall i, j | 0 <= i < j < |q| ensures q[i] != q[j] {
      if q[i] == q[j] { Twice(q, i, j); }
    }
    forall x ensures x in q <==> x in s { assert x in q <==> x in multiset(q); }
  }

  /** All nodes, from the root down: the pairs have the fathers they were given. */
  ghost predicate Ordered(order: seq<int>, dl: seq<int>, leaves: set<int>, elems: int) {
    && Occurring(leaves, elems) && |order| == 2 * |leaves| - 1
        && multiset(order) == multiset(Nodes(leaves, elems, |leaves| - 1))
    && forall i :: 1 <= i < |order| ==>
      0 <= order[i] < elems + MergeOf(|order|, i) && order[i] < |dl| && dl[order[i]] == elems + MergeOf(|order|, i)
  }

  lemma OrderedNodes(order: seq<int>, dl: seq<int>, leaves: set<int>, elems: int)
    requires Ordered(order, dl, leaves, elems)
    ensures Distinct(order) && forall x :: x in order <==> x in leaves || elems <= x < elems + |leaves| - 1
  {
    EachOnce(order, Nodes(leaves, elems, |leaves| - 1));
  }

  /** The root is the last node made. */
  lemma OrderedRoot(order: seq<int>, dl: seq<int>, leaves: set<int>, elems: int)
    requires Ordered(order, dl, leaves, elems)
    ensures order[0] == elems + |leaves| - 2
  {
    OrderedNodes(order, dl, leaves, elems);
    var p := IndexOf(order, elems + |leaves| - 2);
  }

  /** Where the father of position i stands. */
  ghost function FatherAt(order: seq<int>, dl: seq<int>, leaves: set<int>, elems: int, i: int): (p: nat)
    requires Ordered(order, dl, leaves, elems) && 1 <= i < |order|
    ensures p < i && order[p] == elems + MergeOf(|order|, i)
  {
    OrderedNodes(order, dl, leaves, elems);
    IndexOf(order, elems + MergeOf(|order|, i))
  }

  ghost function ShapeOf(order: seq<int>, dl: seq<int>, leaves: set<int>, elems: int): Shape
    requires Ordered(order, dl, leaves, elems)
  {
    Shape(seq(|order|, i requires 0 <= i < |order| => if i == 0 then 0 else FatherAt(order, dl, leaves, elems, i)),
          seq(|order|, i requires 0 <= i < |order| => order[i] >= elems))
  }

  lemma ShapeParts(order: seq<int>, dl: seq<int>, leaves: set<int>, elems: int)
    requires Ordered(order, dl, leaves, elems)
    ensures var s := ShapeOf(order, dl, leaves, elems);
      && |s.par| == |s.inner| == |order| && (forall i :: 0 <= i < |order| ==> (s.inner[i] <==> order[i] >= elems))
      && forall i :: 0 < i < |order| ==> s.par[i] < i && order[s.par[i]] == elems + MergeOf(|order|, i)
  {
  }

  /** The two sons of node elems + u. */
  lemma {:induction false} TwoSons(order: seq<int>, dl: seq<int>, leaves: set<int>, elems: int, i: int, u: int, k: nat)
    requires Ordered(order, dl, leaves, elems) && 0 <= i < |order| && order[i] == elems + u && 0 <= u
        && 1 <= k <= |order|
    requires Distinct(order)
    ensures k <= |ShapeOf(order, dl, leaves, elems).par|
    ensures Sons(ShapeOf(order, dl, leaves, elems), i, k) ==
            (if |order| - 2 - 2 * u < k then 1 else 0) + (if |order| - 1 - 2 * u < k then 1 else 0) || u >= |leaves| - 1
  {
    hide ShapeOf, Ordered;
    OrderedSize(order, dl, leaves, elems);
    ShapeParts(order, dl, leaves, elems);
    var s := ShapeOf(order, dl, leaves, elems);
    if k > 1 {
      TwoSons(order, dl, leaves, elems, i, u, k - 1);
      SonOf(|order|, k - 1, u);
      SameNode(order, s.par[k - 1], i);
    }
  }

  lemma SameNode(order: seq<int>, i: nat, j: nat)
    requires Distinct(order) && i < |order| && j < |order|
    ensures order[i] == order[j] ==> i == j
  {
  }

  lemma OrderedSize(order: seq<int>, dl: seq<int>, leaves: set<int>, elems: int)
    requires Ordered(order, dl, leaves, elems)
    ensures |order| == 2 * |leaves| - 1 >= 3
  {
  }

  lemma SonOf(n: int, k: int, u: int)
    ensures MergeOf(n, k) == u <==> k == n - 1 - 2 * u || k == n - 2 - 2 * u
  {
  }

  /** The nodes form a full tree. */
  lemma {:induction false} TreeLeft(order: seq<int>, dl: seq<int>, leaves: set<int>, elems: int, maxCode: int)
    requires Ordered(order, dl, leaves, elems) && InRange(order, |dl|) && maxCode < elems
        && forall x :: x in leaves ==> x <= maxCode
    ensures IsTree(ShapeOf(order, dl, leaves, elems), order, dl, maxCode)
  {
    hide ShapeOf, Sons;
    ShapeParts(order, dl, leaves, elems);
    OrderedNodes(order, dl, leaves, elems);
    OrderedRoot(order, dl, leaves, elems);
    var s := ShapeOf(order, dl, leaves, elems);
    forall i | 0 <= i < |order| && s.inner[i] ensures Sons(s, i, |order|) == 2 {
      assert order[i] in order;
      TwoSons(order, dl, leaves, elems, i, order[i] - elems, |order|);
    }
    forall i | 0 < i < |order| ensures s.inner[s.par[i]] { assert order[s.par[i]] >= elems; }
    forall i | 0 <= i < |order| ensures s.inner[i] <==> order[i] > maxCode { assert order[i] in order; }
  }

  ghost function LeafSet(order: seq<int>, elems: int, k: nat): (s: set<int>)
    requires k <= |order|
    ensures forall x :: x in s ==> x < elems && x in order[..k]
  {
    if k == 0 then {}
    else
      assert order[..k] == order[..k - 1] + [order[k - 1]];
      LeafSet(order, elems, k - 1) + if order[k - 1] < elems then {order[k - 1]} else {}
  }

  lemma {:induction false} LeafCount(s: Shape, order: seq<int>, elems: int, k: nat)
    requires k <= |order| == |s.inner| && Distinct(order) && forall i :: 0 <= i < |order| ==>
      (s.inner[i] <==> order[i] >= elems)
    ensures AllLeaves(s, k) == |LeafSet(order, elems, k)|
  {
    hide Distinct, LeafSet;
    if k > 0 {
      LeafCount(s, order, elems, k - 1);
      LeafSetNext(order, elems, k - 1);
    }
  }

  lemma {:induction false} LeafSetNext(order: seq<int>, elems: int, k: nat)
    requires Distinct(order) && k < |order|
    ensures |LeafSet(order, elems, k + 1)| == |LeafSet(order, elems, k)| + if order[k] >= elems then 0 else 1
  {
    hide Distinct;
    NotBefore(order, k);
    var a, b := LeafSet(order, elems, k), LeafSet(order, elems, k + 1);
    assert order[k] !in a;
    if order[k] < elems { assert b == a + {order[k]}; } else { assert b == a; }
  }

  lemma NotBefore(order: seq<int>, k: nat)
    requires Distinct(order) && k < |order|
    ensures order[k] !in order[..k]
  {
  }

  lemma FewLeaves(order: seq<int>, dl: seq<int>, leaves: set<int>, elems: int)
    requires Ordered(order, dl, leaves, elems)
    ensures |ShapeOf(order, dl, leaves, elems).inner| == |order|
        && AllLeaves(ShapeOf(order, dl, leaves, elems), |order|) <= |leaves|
  {
    hide ShapeOf, AllLeaves;
    OrderedNodes(order, dl, leaves, elems);
    ShapeParts(order, dl, leaves, elems);
    LeafCount(ShapeOf(order, dl, leaves, elems), order, elems, |order|);
    forall x | x in LeafSet(order, elems, |order|) ensures x in leaves { assert x in order; }
    CardinalitySubset(LeafSet(order, elems, |order|), leaves);
  }

  /** When one node is left in the queue, it is put away too. */
  lemma LastMerge(h: seq<int>, freq: seq<int>, depth: seq<int>, dl: seq<int>, leaves: set<int>, elems: int, hm: int,
      h1: seq<int>)
    requires Merging(h, freq, depth, dl, leaves, elems, |leaves| - 1) && hm == |h| - 2 * (|leaves| - 1) - 1
        && 0 <= hm < |h| && 1 < |h|
    requires h1 == h[hm := h[1]]
    ensures Ordered(h1[hm..], dl, leaves, elems) && InRange(h1[hm..], |dl|)
  {
    hide HeapFrom, QueueAbove, Nodes, LastTaken;
    HeapBounds(h, freq, depth, 1);
    var order, t := h1[hm..], |leaves| - 1;
    assert order == [h[1]] + h[hm + 1..];
    assert h[1..2] == [h[1]];
    assert multiset(order) == Bag(h, 1) + multiset(h[hm + 1..]);
    assert h[1] in Bag(h, 1);
    forall i | 1 <= i < |order| ensures 0 <= order[i] < elems + MergeOf(|order|, i) && order[i] < |dl|
        && dl[order[i]] == elems + MergeOf(|order|, i) {
      assert order[i] == h[hm + i] && MergeOf(|order|, i) == MergeOf(|h|, hm + i);
    }
  }
}

/** The priority queue of build_tree in trees.c: pqdownheap and pqremove. */
module TreeHeap {
  import opened HeapArrays

  /** smaller: by frequency, then by depth. */
  predicate Smaller(freq: seq<int>, depth: seq<int>, n: int, m: int)
    requires 0 <= n < |freq| && 0 <= m < |freq| && |depth| >= |freq|
  {
    freq[n] < freq[m] || (freq[n] == freq[m] && depth[n] <= depth[m])
  }

  /** Entries 1..n of the heap name nodes. */
  ghost predicate Entries(h: seq<int>, n: int, nodes: int) {
    0 <= n < |h| && forall k :: 1 <= k <= n ==> 0 <= h[k] < nodes
  }

  ghost predicate InOrder(h: seq<int>, freq: seq<int>, depth: seq<int>, n: int, k: int)
    requires Entries(h, n, |freq|) && |depth| >= |freq| && 2 <= k <= n
  {
    Smaller(freq, depth, h[k / 2], h[k])
  }

  /** Every father from position z on is smaller than its sons. */
  ghost predicate HeapFrom(h: seq<int>, freq: seq<int>, depth: seq<int>, n: int, z: int) {
    && |depth| >= |freq| && 1 <= z && Entries(h, n, |freq|)
    && forall k :: 2 <= k <= n && k / 2 >= z ==> InOrder(h, freq, depth, n, k)
  }

  /** The same but for position y, whose father is smaller than its sons. */
  ghost predicate OpenAt(h: seq<int>, freq: seq<int>, depth: seq<int>, n: int, z: int, y: int) {
    && |depth| >= |freq| && 1 <= z <= y <= n && Entries(h, n, |freq|)
    && (forall k :: 2 <= k <= n && k / 2 >= z && k / 2 != y ==> InOrder(h, freq, depth, n, k))
    && (forall k :: 2 <= k <= n && k / 2 == y && y / 2 >= z ==> Smaller(freq, depth, h[y / 2], h[k]))
  }

  /** The smaller son moves up. */
  lemma DownStep(h: seq<int>, freq: seq<int>, depth: seq<int>, n: int, z: int, y: int, j: int)
    requires OpenAt(h, freq, depth, n, z, y) && 2 <= j <= n && j / 2 == y
    requires forall k :: 2 <= k <= n && k / 2 == y ==> Smaller(freq, depth, h[j], h[k])
    requires !Smaller(freq, depth, h[y], h[j])
    ensures OpenAt(Swap(h, y, j), freq, depth, n, z, j)
  {
    var t := Swap(h, y, j);
    forall k | 2 <= k <= n && k / 2 >= z && k / 2 != j ensures InOrder(t, freq, depth, n, k) {
      if k / 2 != y { assert InOrder(h, freq, depth, n, k); }
    }
    forall k | 2 <= k <= n && k / 2 == j && j / 2 >= z ensures Smaller(freq, depth, t[j / 2], t[k]) {
      assert InOrder(h, freq, depth, n, k);
    }
  }

  lemma DownSettled(h: seq<int>, freq: seq<int>, depth: seq<int>, n: int, z: int, y: int, j: int)
    requires OpenAt(h, freq, depth, n, z, y) && 0 <= j < |h| && 0 <= h[j] < |freq| && Smaller(freq, depth, h[y], h[j])
    requires forall k :: 2 <= k <= n && k / 2 == y ==> Smaller(freq, depth, h[j], h[k])
    ensures HeapFrom(h, freq, depth, n, z)
  {
  }

  lemma OpenReady(h: seq<int>, freq: seq<int>, depth: seq<int>, n: int, z: int, y: int)
    requires OpenAt(h, freq, depth, n, z, y)
    ensures 1 <= z <= y <= n < |h| && 0 <= h[y] < |freq| <= |depth|
    ensures 2 * y > n ==> HeapFrom(h, freq, depth, n, z)
    ensures forall k :: y <= k <= n ==> 0 <= h[k] < |freq|
  {
  }

  /** The smaller of the two sons. */
  method SmallerSon(heap: array<int>, heapLen: int, freq: array<int>, depth: array<int>, y: int, ghost h: seq<int>,
      ghost z: int) returns (j: int)
    requires OpenAt(h, freq[..], depth[..], heapLen, z, y) && 2 * y <= heapLen < heap.Length == |h|
    requires forall k :: 0 <= k < |h| && k != y ==> heap[k] == h[k]
    ensures 2 <= j <= heapLen && j / 2 == y && 0 <= heap[j] < freq.Length && heap[j] == h[j]
    ensures forall k :: 2 <= k <= heapLen && k / 2 == y ==>
      0 <= h[k] < freq.Length <= depth.Length && Smaller(freq[..], depth[..], h[j], h[k])
  {
    j := y * 2;
    OpenReady(h, freq[..], depth[..], heapLen, z, y);
    assert heap[j] == h[j];
    if j < heapLen {
      assert heap[j + 1] == h[j + 1];
      if Smaller(freq[..], depth[..], heap[j + 1], heap[j]) { j := j + 1; }
    }
  }

  lemma StartOpen(h: seq<int>, freq: seq<int>, depth: seq<int>, n: int, z: int)
    requires HeapFrom(h, freq, depth, n, z + 1) && 1 <= z <= n
    ensures OpenAt(h, freq, depth, n, z, z)
  {
  }

  /** pqdownheap: restores the order from position z on. */
  method PqDownHeap(heap: array<int>, heapLen: int, freq: array<int>, depth: array<int>, z: int)
    requires heap != freq && heap != depth && 1 <= z <= heapLen
        && HeapFrom(heap[..], freq[..], depth[..], heapLen, z + 1)
    modifies heap
    ensures HeapFrom(heap[..], freq[..], depth[..], heapLen, z) && heapLen < heap.Length
    ensures Bag(heap[..], heapLen) == old(Bag(heap[..], heapLen))
    ensures forall k :: heapLen < k < heap.Length ==> heap[k] == old(heap[k])
  {
    hide OpenAt, HeapFrom, Entries, Bag, Swap, Smaller;
    ghost var f, d, h := freq[..], depth[..], heap[..];
    StartOpen(h, f, d, heapLen, z);
    OpenReady(h, f, d, heapLen, z, z);
    var k := z;
    var v := heap[k];
    while true
      invariant z <= k <= heapLen < heap.Length && OpenAt(h, f, d, heapLen, z, k)
      invariant 0 <= v < freq.Length <= depth.Length && freq[..] == f && depth[..] == d
      invariant |h| == heap.Length && h[k] == v && forall i :: 0 <= i < |h| && i != k ==> heap[i] == h[i]
      invariant Bag(h, heapLen) == old(Bag(heap[..], heapLen))
      invariant forall i :: heapLen < i < heap.Length ==> h[i] == old(heap[i])
      decreases heapLen - k
    {
      OpenReady(h, f, d, heapLen, z, k);
      if k * 2 > heapLen { break; }
      var j := SmallerSon(heap, heapLen, freq, depth, k, h, z);
      if Smaller(freq[..], depth[..], v, heap[j]) { DownSettled(h, f, d, heapLen, z, k, j); break; }
      DownStep(h, f, d, heapLen, z, k, j);
      SwapKeeps(h, k, j, heapLen);
      h := Swap(h, k, j);
      heap[k] := heap[j];
      k := j;
    }
    heap[k] := v;
    assert heap[..] == h;
  }

  // ---- removing the least ----

  lemma {:induction false} RootIsLeast(h: seq<int>, freq: seq<int>, depth: seq<int>, n: int, k: int)
    requires HeapFrom(h, freq, depth, n, 1) && 1 <= k <= n
    ensures Smaller(freq, depth, h[1], h[k])
    decreases k
  {
    if k > 1 {
      RootIsLeast(h, freq, depth, n, k / 2);
      assert InOrder(h, freq, depth, n, k);
    }
  }

  lemma LeastOfBag(h: seq<int>, freq: seq<int>, depth: seq<int>, n: int)
    requires HeapFrom(h, freq, depth, n, 1) && 1 <= n
    ensures LeastIn(Bag(h, n), freq, depth, h[1])
  {
    hide Smaller;
    var s := h[1..n + 1];
    assert s[0] == h[1];
    forall x | x in Bag(h, n) ensures 0 <= x < |freq| && Smaller(freq, depth, h[1], x) {
      assert x in s;
      var k :| 0 <= k < |s| && s[k] == x;
      RootIsLeast(h, freq, depth, n, k + 1);
    }
  }

  /** With another root the order holds from position 2 on. */
  lemma NewRoot(h: seq<int>, freq: seq<int>, depth: seq<int>, n: int, n1: int, x: int)
    requires HeapFrom(h, freq, depth, n, 1) && 1 <= n1 <= n && 0 <= x < |freq|
    ensures HeapFrom(h[1 := x], freq, depth, n1, 2)
  {
    hide Smaller;
    var t := h[1 := x];
    forall k | 2 <= k <= n1 && k / 2 >= 2
        ensures InOrder(t, freq, depth, n1, k) { assert InOrder(h, freq, depth, n, k); }
  }

  /** Nothing in the bag comes before this node. */
  ghost predicate LeastIn(bag: multiset<int>, freq: seq<int>, depth: seq<int>, top: int) {
    && |freq| <= |depth| && 0 <= top < |freq| && top in bag
    && forall x :: x in bag ==> 0 <= x < |freq| && Smaller(freq, depth, top, x)
  }

  /** pqremove: takes out a node that is smaller than all others. */
  method PqRemove(heap: array<int>, heapLen: int, freq: array<int>, depth: array<int>) returns (top: int)
    requires heap != freq && heap != depth && 2 <= heapLen && HeapFrom(heap[..], freq[..], depth[..], heapLen, 1)
    modifies heap
    ensures HeapFrom(heap[..], freq[..], depth[..], heapLen - 1, 1) && heapLen < heap.Length
    ensures LeastIn(old(Bag(heap[..], heapLen)), freq[..], depth[..], top)
        && Bag(heap[..], heapLen - 1) == old(Bag(heap[..], heapLen)) - multiset{top}
    ensures forall k :: heapLen < k < heap.Length ==> heap[k] == old(heap[k])
  {
    hide HeapFrom, Bag, Smaller;
    ghost var h := heap[..];
    HeapBounds(h, freq[..], depth[..], heapLen);
    LeastOfBag(h, freq[..], depth[..], heapLen);
    RemoveFirst(h, heapLen);
    NewRoot(h, freq[..], depth[..], heapLen, heapLen - 1, h[heapLen]);
    top := heap[1];
    heap[1] := heap[heapLen];
    assert heap[..] == h[1 := h[heapLen]];
    PqDownHeap(heap, heapLen - 1, freq, depth, 1);
  }

  lemma HeapBounds(h: seq<int>, freq: seq<int>, depth: seq<int>, n: int)
    requires HeapFrom(h, freq, depth, n, 1)
    ensures 0 <= n < |h| && |freq| <= |depth| && forall k :: 1 <= k <= n ==> 0 <= h[k] < |freq|
  {
  }
}

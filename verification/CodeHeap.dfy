/** The priority queue of BZ2_hbMakeCodeLengths: UPHEAP and DOWNHEAP over node numbers,
    entry 0 of both arrays being a sentinel. */
module CodeHeap {
  import opened HeapArrays

  /** Entries 1..n name nodes of the weight table, entry 0 the sentinel. */
  ghost predicate Entries(h: seq<int>, w: seq<int>, n: int) {
    && 0 <= n < |h| && 0 < |w| && h[0] == 0 && w[0] == 0
    && forall k :: 1 <= k <= n ==> 1 <= h[k] < |w| && w[h[k]] > 0
  }

  /** Parents are no heavier than children. */
  ghost predicate IsHeap(h: seq<int>, w: seq<int>, n: int) {
    Entries(h, w, n) && forall k :: 2 <= k <= n ==> w[h[k / 2]] <= w[h[k]]
  }

  /** The order may fail only between z and its parent. */
  ghost predicate UpOpen(h: seq<int>, w: seq<int>, n: int, z: int) {
    && Entries(h, w, n) && 1 <= z <= n
    && (forall k :: 2 <= k <= n && k != z ==> w[h[k / 2]] <= w[h[k]])
    && (forall k :: 2 <= k <= n && k / 2 == z && z >= 2 ==> w[h[z / 2]] <= w[h[k]])
  }

  /** The order may fail only between z and its children. */
  ghost predicate DownOpen(h: seq<int>, w: seq<int>, n: int, z: int) {
    && Entries(h, w, n) && 1 <= z <= n
    && (forall k :: 2 <= k <= n && k / 2 != z ==> w[h[k / 2]] <= w[h[k]])
    && (forall k :: 2 <= k <= n && k / 2 == z && z >= 2 ==> w[h[z / 2]] <= w[h[k]])
  }

  lemma UpStep(h: seq<int>, w: seq<int>, n: int, z: int)
    requires UpOpen(h, w, n, z) && z >= 2 && w[h[z]] < w[h[z / 2]]
    ensures UpOpen(Swap(h, z / 2, z), w, n, z / 2)
  {
    var t, p := Swap(h, z / 2, z), z / 2;
    forall k | 2 <= k <= n && k != p ensures w[t[k / 2]] <= w[t[k]] {
      if k / 2 == p && k != z { assert w[h[p]] <= w[h[k]]; }
    }
    forall k | 2 <= k <= n && k / 2 == p && p >= 2 ensures w[t[p / 2]] <= w[t[k]] {
      assert w[h[p / 2]] <= w[h[p]];
      if k != z { assert w[h[p]] <= w[h[k]]; }
    }
  }

  lemma DownStep(h: seq<int>, w: seq<int>, n: int, z: int, y: int)
    requires DownOpen(h, w, n, z) && 2 <= y <= n && y / 2 == z
    requires forall k :: 2 <= k <= n && k / 2 == z ==> w[h[y]] <= w[h[k]]
    requires w[h[y]] <= w[h[z]]
    ensures DownOpen(Swap(h, z, y), w, n, y)
  {
    var t := Swap(h, z, y);
    forall k | 2 <= k <= n && k / 2 != y ensures w[t[k / 2]] <= w[t[k]] {
      if k == z { assert w[h[z / 2]] <= w[h[y]]; }
    }
    forall k | 2 <= k <= n && k / 2 == y ensures w[t[y / 2]] <= w[t[k]] {
      assert w[h[k / 2]] <= w[h[k]];
    }
  }

  lemma {:induction false} RootIsLeast(h: seq<int>, w: seq<int>, n: int, k: int)
    requires IsHeap(h, w, n) && 1 <= k <= n
    ensures w[h[1]] <= w[h[k]]
    decreases k
  {
    if k > 1 { RootIsLeast(h, w, n, k / 2); }
  }

  lemma UpReady(h: seq<int>, w: seq<int>, n: int, z: int)
    requires UpOpen(h, w, n, z)
    ensures 1 <= z <= n < |h| && 0 <= h[z] < |w| && 0 <= h[z / 2] < |w|
    ensures w[h[z]] < w[h[z / 2]] ==> z >= 2
    ensures !(w[h[z]] < w[h[z / 2]]) ==> IsHeap(h, w, n)
  {
  }

  /** UPHEAP(n): the new last entry rises to its place. */
  method UpHeap(heap: array<int>, weight: array<int>, n: int)
    requires heap != weight && 1 <= n && Entries(heap[..], weight[..], n) && IsHeap(heap[..], weight[..], n - 1)
    modifies heap
    ensures IsHeap(heap[..], weight[..], n)
    ensures Bag(heap[..], n) == old(Bag(heap[..], n))
  {
    ghost var w, h := weight[..], heap[..];
    assert UpOpen(h, w, n, n);
    hide UpOpen, IsHeap, Entries, Bag, Swap;
    var zz := n;
    var tmp := heap[zz];
    UpReady(h, w, n, zz);
    while weight[tmp] < weight[heap[zz / 2]]
      invariant 1 <= zz <= n < heap.Length && UpOpen(h, w, n, zz)
      invariant 0 <= tmp < weight.Length && 0 <= heap[zz / 2] < weight.Length
      invariant |h| == heap.Length && h[zz] == tmp && forall k :: 0 <= k < |h| && k != zz ==> heap[k] == h[k]
      invariant Bag(h, n) == old(Bag(heap[..], n))
      decreases zz
    {
      UpReady(h, w, n, zz);
      UpStep(h, w, n, zz);
      SwapKeeps(h, zz / 2, zz, n);
      h := Swap(h, zz / 2, zz);
      heap[zz] := heap[zz / 2];
      zz := zz / 2;
      UpReady(h, w, n, zz);
    }
    UpReady(h, w, n, zz);
    heap[zz] := tmp;
    assert heap[..] == h;
  }

  /** The lighter of the two children of z. */
  method LighterChild(heap: array<int>, weight: array<int>, nHeap: int, zz: int, ghost h: seq<int>) returns (yy: int)
    requires DownOpen(h, weight[..], nHeap, zz) && 2 * zz <= nHeap < heap.Length == |h|
    requires forall k :: 0 <= k < |h| && k != zz ==> heap[k] == h[k]
    ensures 2 <= yy <= nHeap && yy / 2 == zz && 0 <= heap[yy] < weight.Length
    ensures forall k :: 2 <= k <= nHeap && k / 2 == zz ==> 0 <= h[k] < weight.Length && weight[heap[yy]] <= weight[h[k]]
  {
    yy := zz * 2;
    assert heap[yy] == h[yy];
    if yy < nHeap {
      assert heap[yy + 1] == h[yy + 1];
      if weight[heap[yy + 1]] < weight[heap[yy]] { yy := yy + 1; }
    }
  }

  lemma DownReady(h: seq<int>, w: seq<int>, n: int, z: int)
    requires DownOpen(h, w, n, z)
    ensures 1 <= z <= n < |h| && 0 <= h[z] < |w|
    ensures 2 * z > n ==> IsHeap(h, w, n)
  {
  }

  lemma DownSettled(h: seq<int>, w: seq<int>, n: int, z: int, y: int)
    requires DownOpen(h, w, n, z) && 0 <= y < |h| && 0 <= h[y] < |w| && 0 <= h[z] < |w| && w[h[z]] < w[h[y]]
    requires forall k :: 2 <= k <= n && k / 2 == z ==> 0 <= h[k] < |w| && w[h[y]] <= w[h[k]]
    ensures IsHeap(h, w, n)
  {
  }

  /** DOWNHEAP(1): the entry put at the root sinks to its place. */
  method DownHeap(heap: array<int>, weight: array<int>, nHeap: int)
    requires heap != weight && 1 <= nHeap && DownOpen(heap[..], weight[..], nHeap, 1)
    modifies heap
    ensures IsHeap(heap[..], weight[..], nHeap)
    ensures Bag(heap[..], nHeap) == old(Bag(heap[..], nHeap))
  {
    hide DownOpen, IsHeap, Entries, Bag, Swap;
    ghost var w, h := weight[..], heap[..];
    DownReady(h, w, nHeap, 1);
    var zz := 1;
    var tmp := heap[zz];
    while true
      invariant 1 <= zz <= nHeap < heap.Length && DownOpen(h, w, nHeap, zz)
      invariant 0 <= tmp < weight.Length
      invariant |h| == heap.Length && h[zz] == tmp && forall k :: 0 <= k < |h| && k != zz ==> heap[k] == h[k]
      invariant Bag(h, nHeap) == old(Bag(heap[..], nHeap))
      decreases nHeap - zz
    {
      DownReady(h, w, nHeap, zz);
      if zz * 2 > nHeap { break; }
      assert weight[..] == w;
      var yy := LighterChild(heap, weight, nHeap, zz, h);
      if weight[tmp] < weight[heap[yy]] { DownSettled(h, w, nHeap, zz, yy); break; }
      DownStep(h, w, nHeap, zz, yy);
      SwapKeeps(h, zz, yy, nHeap);
      h := Swap(h, zz, yy);
      heap[zz] := heap[yy];
      zz := yy;
    }
    heap[zz] := tmp;
    assert heap[..] == h;
  }

  lemma LeastOfBag(h: seq<int>, w: seq<int>, n: int)
    requires IsHeap(h, w, n) && 1 <= n
    ensures 0 <= h[1] < |w| && h[1] in Bag(h, n)
    ensures forall x :: x in Bag(h, n) ==> 0 <= x < |w| && w[h[1]] <= w[x]
  {
    var s := h[1..n + 1];
    assert s[0] == h[1];
    forall x | x in Bag(h, n) ensures 0 <= x < |w| && w[h[1]] <= w[x] {
      assert x in s;
      var k :| 0 <= k < |s| && s[k] == x;
      RootIsLeast(h, w, n, k + 1);
    }
  }

  lemma LastToRoot(h: seq<int>, w: seq<int>, n: int)
    requires IsHeap(h, w, n) && 1 <= n
    ensures 1 <= n < |h|
    ensures n == 1 ==> IsHeap(h[1 := h[n]], w, n - 1)
    ensures n > 1 ==> DownOpen(h[1 := h[n]], w, n - 1, 1)
  {
    var t := h[1 := h[n]];
    forall k | 2 <= k <= n - 1 && k / 2 != 1 ensures w[t[k / 2]] <= w[t[k]] {
      assert w[h[k / 2]] <= w[h[k]];
    }
  }

  /** n1 = heap[1]; heap[1] = heap[nHeap]; nHeap--; DOWNHEAP(1): removes a least node. */
  method ExtractLeast(heap: array<int>, weight: array<int>, nHeap: int) returns (least: int)
    requires heap != weight && 1 <= nHeap && IsHeap(heap[..], weight[..], nHeap)
    modifies heap
    ensures IsHeap(heap[..], weight[..], nHeap - 1)
    ensures 0 <= least < weight.Length && least in old(Bag(heap[..], nHeap))
    ensures Bag(heap[..], nHeap - 1) == old(Bag(heap[..], nHeap)) - multiset{least}
    ensures forall x :: x in old(Bag(heap[..], nHeap)) ==> 0 <= x < weight.Length && weight[least] <= weight[x]
  {
    hide DownOpen, IsHeap, Entries, Bag;
    ghost var h := heap[..];
    LastToRoot(h, weight[..], nHeap);
    RemoveFirst(h, nHeap);
    LeastOfBag(h, weight[..], nHeap);
    least := heap[1];
    heap[1] := heap[nHeap];
    assert heap[..] == h[1 := h[nHeap]];
    if nHeap > 1 {
      DownHeap(heap, weight, nHeap - 1);
    }
  }

  lemma BagMember(h: seq<int>, n: int, k: int)
    requires 1 <= k <= n < |h|
    ensures h[k] in Bag(h, n)
  {
    assert h[k] == h[1..n + 1][k - 1];
  }

  /** A node outside the queue may get a weight and be put after the last entry. */
  lemma NewEntry(h: seq<int>, w: seq<int>, n: int, z: int, v: int)
    requires IsHeap(h, w, n) && n + 1 < |h| && 1 <= z < |w| && z !in Bag(h, n) && v > 0
    ensures Entries(h[n + 1 := z], w[z := v], n + 1) && IsHeap(h[n + 1 := z], w[z := v], n)
    ensures Bag(h[n + 1 := z], n + 1) == Bag(h, n) + multiset{z}
  {
    forall k | 1 <= k <= n ensures h[k] != z { BagMember(h, n, k); }
    assert h[n + 1 := z][1..n + 2] == h[1..n + 1] + [z];
  }
}

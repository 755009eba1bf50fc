/** build_tree of trees.c: from the frequencies of the symbols to a complete code. */
module TreeBuilding {
  import opened HeapArrays
  import opened Bits
  import opened Permutations
  import opened CodeTree
  import opened LengthRepair
  import opened GenBitlen
  import opened TreeLengths
  import opened TreeHeap
  import opened TreeMerging
  import opened TreeShape
  import opened TreeOptimum
  import opened Wrappers
  import opened Counting
  import opened DeflateCodes
  import opened DeflateSymbols

  // ---- the heap at the start ----

  /** Symbols below n that occur. */
  ghost function Occur(freq: seq<int>, n: nat): (s: set<int>)
    requires n <= |freq|
    ensures |s| <= n && forall x :: x in s <==> 0 <= x < n && freq[x] != 0
  {
    if n == 0 then {} else Occur(freq, n - 1) + if freq[n - 1] != 0 then {n - 1} else {}
  }

  /** The queue holds the symbols that occur, maxCode is the largest. */
  ghost predicate Queue(h: seq<int>, len: int, freq: seq<int>, n: nat, maxCode: int) {
    && n <= |freq| && 0 <= len < |h| && Bag(h, len) == multiset(Occur(freq, n)) && len == |Occur(freq, n)|
    && -1 <= maxCode < n && (forall x :: x in Occur(freq, n) ==> x <= maxCode)
        && (maxCode >= 0 ==> maxCode in Occur(freq, n))
  }

  lemma Appended(h: seq<int>, len: int, x: int, h1: seq<int>)
    requires 0 <= len && len + 1 < |h| && h1 == h[len + 1 := x]
    ensures Bag(h1, len + 1) == Bag(h, len) + multiset{x}
  {
    assert h1[1..len + 2] == h[1..len + 1] + [x];
  }

  lemma QueueStart(h: seq<int>, freq: seq<int>)
    requires 0 < |h|
    ensures Queue(h, 0, freq, 0, -1)
  {
    assert h[1..1] == [];
  }

  lemma {:induction false} OccurNext(freq: seq<int>, n: nat)
    requires n < |freq|
    ensures Occur(freq, n + 1) == Occur(freq, n) + if freq[n] != 0 then {n} else {}
    ensures freq[n] != 0 ==>
      && |Occur(freq, n + 1)| == |Occur(freq, n)| + 1
      && multiset(Occur(freq, n + 1)) == multiset(Occur(freq, n)) + multiset{n}
  {
    var a, b := Occur(freq, n), Occur(freq, n + 1);
    if freq[n] != 0 { assert n !in a && b == a + {n}; }
  }

  lemma {:induction false} QueueNext(h: seq<int>, len: int, freq: seq<int>, n: nat, maxCode: int, h1: seq<int>)
    requires Queue(h, len, freq, n, maxCode) && n < |freq| && n + 1 < |h|
    requires h1 == if freq[n] != 0 then h[len + 1 := n] else h
    ensures Queue(h1, if freq[n] != 0 then len + 1 else len, freq, n + 1, if freq[n] != 0 then n else maxCode)
  {
    hide Bag, Occur;
    OccurNext(freq, n);
    if freq[n] != 0 { Appended(h, len, n, h1); }
  }

  method InitHeap(heap: array<int>, freq: array<int>, depth: array<int>, dl: array<int>, elems: nat)
    returns (heapLen: int, maxCode: int)
    requires heap != freq && heap != depth && heap != dl && freq != depth && freq != dl && depth != dl
    requires elems <= freq.Length && elems <= depth.Length && elems <= dl.Length && elems < heap.Length
    modifies heap, depth, dl
    ensures Queue(heap[..], heapLen, freq[..], elems, maxCode)
    ensures forall x :: 0 <= x < elems && freq[x] == 0 ==> dl[x] == 0
  {
    hide Queue;
    ghost var f := freq[..];
    heapLen, maxCode := 0, -1;
    QueueStart(heap[..], f);
    for n := 0 to elems
      invariant Queue(heap[..], heapLen, f, n, maxCode) && freq[..] == f
      invariant forall x :: 0 <= x < n && freq[x] == 0 ==> dl[x] == 0
    {
      ghost var h, len, max := heap[..], heapLen, maxCode;
      QueueSize(h, heapLen, f, n, maxCode);
      if freq[n] != 0 {
        heapLen := heapLen + 1;
        heap[heapLen] := n;
        maxCode := n;
        depth[n] := 0;
      } else {
        dl[n] := 0;
      }
      QueueNext(h, len, f, n, max, heap[..]);
    }
  }

  lemma QueueSize(h: seq<int>, len: int, freq: seq<int>, n: nat, maxCode: int)
    requires Queue(h, len, freq, n, maxCode)
    ensures 0 <= len <= n && -1 <= maxCode < n
  {
  }

  /** The symbol that is added is new. */
  lemma {:induction false} ForcedIsNew(h: seq<int>, len: int, freq: seq<int>, n: nat, maxCode: int, node: int)
    requires Queue(h, len, freq, n, maxCode) && len < 2 && 3 <= n && node == (if maxCode < 2 then maxCode + 1 else 0)
    ensures 0 <= node < n && node !in Occur(freq, n) && freq[node] == 0
  {
    var s := Occur(freq, n);
    if maxCode >= 2 && 0 in s { CardinalitySubset({0, maxCode}, s); }
  }

  lemma {:induction false} Forced(h: seq<int>, len: int, freq: seq<int>, n: nat, maxCode: int, node: int, h1: seq<int>,
      freq1: seq<int>)
    requires Queue(h, len, freq, n, maxCode) && len < 2 && 3 <= n < |h|
        && node == (if maxCode < 2 then maxCode + 1 else 0)
    requires 0 <= node < |freq| && h1 == h[len + 1 := node] && freq1 == freq[node := 1]
    ensures Queue(h1, len + 1, freq1, n, if maxCode < 2 then maxCode + 1 else maxCode)
        && Occur(freq1, n) == Occur(freq, n) + {node}
  {
    hide Bag;
    ForcedIsNew(h, len, freq, n, maxCode, node);
    Appended(h, len, node, h1);
    OccurMore(freq, n, node);
  }

  lemma {:induction false} OccurMore(freq: seq<int>, n: nat, node: int)
    requires 0 <= node < n <= |freq| && freq[node] == 0
    ensures Occur(freq[node := 1], n) == Occur(freq, n) + {node} && node !in Occur(freq, n)
    ensures |Occur(freq[node := 1], n)| == |Occur(freq, n)| + 1
  {
    var a, b := Occur(freq, n), Occur(freq[node := 1], n);
    forall x ensures x in b <==> x in a + {node} {
      if x != node && 0 <= x < n { assert freq[node := 1][x] == freq[x]; }
    }
    assert b == a + {node};
  }

  /** Bits of the symbols below n, each as often as it occurs. */
  function SymbolCost(freq: seq<int>, lens: seq<int>, extra: seq<int>, base: int, n: nat): int
    requires n <= |freq| && n <= |lens|
  {
    if n == 0 then 0
    else SymbolCost(freq, lens, extra, base, n - 1) + freq[n - 1] * (lens[n - 1] + Extra(extra, base, n - 1))
  }

  /** A symbol that did not occur is made to occur once. */
  lemma {:induction false} CostForced(freq: seq<int>, lens: seq<int>, extra: seq<int>, base: int, n: nat, node: int)
    requires n <= |freq| && n <= |lens| && 0 <= node < n && freq[node] == 0 && Extra(extra, base, node) == 0
    ensures SymbolCost(freq[node := 1], lens, extra, base, n) == SymbolCost(freq, lens, extra, base, n) + lens[node]
  {
    hide Extra;
    if node < n - 1 {
      CostForced(freq, lens, extra, base, n - 1, node);
    } else {
      SameCost(freq, freq[node := 1], lens, lens, extra, base, n - 1);
    }
  }

  lemma {:induction false} SameCost(freq: seq<int>, freq1: seq<int>, lens: seq<int>, lens1: seq<int>, extra: seq<int>,
      base: int, n: nat)
    requires n <= |freq| && n <= |lens| && n <= |freq1| && n <= |lens1|
    requires forall x :: 0 <= x < n ==> freq1[x] == freq[x] && lens1[x] == lens[x]
    ensures SymbolCost(freq1, lens1, extra, base, n) == SymbolCost(freq, lens, extra, base, n)
  {
    hide Extra;
    if n > 0 { SameCost(freq, freq1, lens, lens1, extra, base, n - 1); }
  }

  /** A symbol occurs once more. */
  lemma {:induction false} CostMore(freq: seq<int>, lens: seq<int>, extra: seq<int>, base: int, n: nat, s: int)
    requires n <= |freq| && n <= |lens| && 0 <= s < n
    ensures SymbolCost(freq[s := freq[s] + 1], lens, extra, base, n) ==
            SymbolCost(freq, lens, extra, base, n) + lens[s] + Extra(extra, base, s)
  {
    hide Extra;
    if s < n - 1 {
      CostMore(freq, lens, extra, base, n - 1, s);
    } else {
      SameCost(freq, freq[s := freq[s] + 1], lens, lens, extra, base, n - 1);
      OnceMore(freq[s], lens[s] + Extra(extra, base, s));
    }
  }

  lemma OnceMore(f: int, x: int)
    ensures (f + 1) * x == f * x + x
  {
  }

  /** Symbols that do not occur cost nothing. */
  lemma {:induction false} NoCost(freq: seq<int>, lens: seq<int>, extra: seq<int>, base: int, n: nat)
    requires n <= |freq| && n <= |lens| && forall x :: 0 <= x < n ==> freq[x] == 0
    ensures SymbolCost(freq, lens, extra, base, n) == 0
  {
    hide Extra;
    if n > 0 {
      NoCost(freq, lens, extra, base, n - 1);
      Nothing(lens[n - 1] + Extra(extra, base, n - 1));
    }
  }

  /** What the symbols take with the lengths of the static tree, if there is one. */
  ghost function StaticSum(freq: seq<int>, stree: Option<seq<int>>, extra: seq<int>, base: int, n: nat): int
    requires n <= |freq| && (stree.Some? ==> n <= |stree.value|)
  {
    if stree.None? then 0 else SymbolCost(freq, stree.value, extra, base, n)
  }

  /** The symbols that may be forced have no extra bits. */
  ghost predicate NoExtraFirst(extra: seq<int>, base: int) {
    forall x :: 0 <= x <= 2 ==> Extra(extra, base, x) == 0
  }

  lemma StaticForced(freq: seq<int>, stree: Option<seq<int>>, extra: seq<int>, base: int, n: nat, node: int)
    requires n <= |freq| && (stree.Some? ==> n <= |stree.value|) && 0 <= node < n && node <= 2 && freq[node] == 0
        && NoExtraFirst(extra, base)
    ensures StaticSum(freq[node := 1], stree, extra, base, n) ==
            StaticSum(freq, stree, extra, base, n) + if stree.Some? then stree.value[node] else 0
  {
    hide Extra, SymbolCost;
    assert Extra(extra, base, node) == 0;
    if stree.Some? { CostForced(freq, stree.value, extra, base, n, node); }
  }

  /** The first symbols may be made to occur once, if fewer than two symbols do. */
  ghost predicate OnlyForced(f0: seq<int>, f: seq<int>, elems: nat, len: int) {
    |f| == |f0| && forall x :: 0 <= x < |f| ==>
      f[x] == f0[x] || (0 <= x < elems && x <= 2 && f0[x] == 0 && f[x] == 1 && len < 2)
  }

  lemma NoneForced(f0: seq<int>, elems: nat, len: int)
    ensures OnlyForced(f0, f0, elems, len)
  {
  }

  lemma OneForced(f0: seq<int>, f: seq<int>, elems: nat, len: int, node: int)
    requires OnlyForced(f0, f, elems, len) && 0 <= node < elems && node <= 2 && node < |f| && f[node] == 0 && len < 2
    ensures OnlyForced(f0, f[node := 1], elems, len)
  {
  }

  /** At least two symbols get a code. */
  method ForceTwo(heap: array<int>, heapLen0: int, freq: array<int>, depth: array<int>, elems: nat,
      maxCode0: int, stree: Option<seq<int>>, ghost extra: seq<int>, ghost base: int, optLen0: int, staticLen0: int)
    returns (heapLen: int, maxCode: int, optLen: int, staticLen: int)
    requires heap != freq && heap != depth && freq != depth
    requires Queue(heap[..], heapLen0, freq[..], elems, maxCode0) && 3 <= elems <= depth.Length && elems < heap.Length
    requires elems <= freq.Length && (stree.Some? ==> elems <= |stree.value|) && NoExtraFirst(extra, base)
    modifies heap, freq, depth
    ensures Queue(heap[..], heapLen, freq[..], elems, maxCode) && 2 <= heapLen
    ensures OnlyForced(old(freq[..]), freq[..], elems, heapLen0)
    ensures staticLen + StaticSum(freq[..], stree, extra, base, elems) ==
        staticLen0 + StaticSum(old(freq[..]), stree, extra, base, elems)
    ensures optLen == optLen0 - (heapLen - heapLen0) && (if heapLen0 >= 2 then heapLen == heapLen0 else heapLen == 2)
  {
    hide *;
    heapLen, maxCode, optLen, staticLen := heapLen0, maxCode0, optLen0, staticLen0;
    ghost var f0 := freq[..];
    NoneForced(f0, elems, heapLen0);
    while heapLen < 2
      invariant Queue(heap[..], heapLen, freq[..], elems, maxCode) && OnlyForced(f0, freq[..], elems, heapLen0)
      invariant staticLen + StaticSum(freq[..], stree, extra, base, elems) ==
          staticLen0 + StaticSum(f0, stree, extra, base, elems)
      invariant optLen == optLen0 - (heapLen - heapLen0) && (heapLen <= 2 || heapLen == heapLen0)
          && (heapLen0 >= 2 ==> heapLen == heapLen0)
    {
      ghost var h, f, max := heap[..], freq[..], maxCode;
      QueueSize(h, heapLen, f, elems, maxCode);
      QueueFits(h, heapLen, f, elems, maxCode);
      heapLen := heapLen + 1;
      var node := 0;
      if maxCode < 2 {
        maxCode := maxCode + 1;
        node := maxCode;
      }
      ForcedIsNew(h, heapLen - 1, f, elems, max, node);
      heap[heapLen] := node;
      StaticForced(f, stree, extra, base, elems, node);
      OneForced(f0, f, elems, heapLen0, node);
      freq[node] := 1;
      depth[node] := 0;
      optLen := optLen - 1;
      if stree.Some? { staticLen := staticLen - stree.value[node]; }
      assert heap[..] == h[heapLen := node] && freq[..] == f[node := 1];
      Forced(h, heapLen - 1, f, elems, max, node, heap[..], freq[..]);
    }
  }

  lemma QueueFits(h: seq<int>, len: int, freq: seq<int>, n: nat, maxCode: int)
    requires Queue(h, len, freq, n, maxCode)
    ensures n <= |freq| && 0 <= len < |h|
  {
  }

  lemma EntriesOf(h: seq<int>, len: int, freq: seq<int>, n: nat, maxCode: int, depth: seq<int>)
    requires Queue(h, len, freq, n, maxCode) && |freq| <= |depth|
    ensures HeapFrom(h, freq, depth, len, len / 2 + 1)
  {
    BagHas(h, len);
    forall k | 1 <= k <= len ensures 0 <= h[k] < |freq| { assert h[k] in Occur(freq, n); }
  }

  lemma HeapLength(h: seq<int>, freq: seq<int>, depth: seq<int>, n: int, z: int)
    requires HeapFrom(h, freq, depth, n, z)
    ensures 0 <= n < |h|
  {
  }

  /** The initial sub-heaps. */
  method Heapify(heap: array<int>, heapLen: int, freq: array<int>, depth: array<int>)
    requires heap != freq && heap != depth && 2 <= heapLen
        && HeapFrom(heap[..], freq[..], depth[..], heapLen, heapLen / 2 + 1)
    modifies heap
    ensures HeapFrom(heap[..], freq[..], depth[..], heapLen, 1) && heapLen < heap.Length
    ensures Bag(heap[..], heapLen) == old(Bag(heap[..], heapLen))
  {
    hide HeapFrom, Bag;
    HeapLength(heap[..], freq[..], depth[..], heapLen, heapLen / 2 + 1);
    var n := heapLen / 2;
    while n >= 1
      invariant 0 <= n <= heapLen / 2 && HeapFrom(heap[..], freq[..], depth[..], heapLen, n + 1)
      invariant heapLen < heap.Length && Bag(heap[..], heapLen) == old(Bag(heap[..], heapLen))
    {
      PqDownHeap(heap, heapLen, freq, depth, n);
      n := n - 1;
    }
  }

  // ---- the merges ----

  lemma SunkParts(h: seq<int>, h1: seq<int>, freq: seq<int>, depth: seq<int>, dl: seq<int>, leaves: set<int>,
      elems: int, t: int)
    requires Merged(h, freq, depth, dl, leaves, elems, t) && |h1| == |h| && HeapFrom(h1, freq, depth, |leaves| - t, 1)
    requires 0 <= |leaves| - t < |h| && Bag(h1, |leaves| - t) == Bag(h, |leaves| - t)
        && forall k :: |leaves| - t < k < |h| ==> h1[k] == h[k]
    ensures Merging(h1, freq, depth, dl, leaves, elems, t) && NoneNegative(Bag(h1, |leaves| - t), freq)
  {
    hide HeapFrom, Bag, Nodes, NoneNegative, QueueAbove;
    assert h1[|h| - 2 * t..] == h[|h| - 2 * t..];
  }

  lemma MergedSizes(h: seq<int>, freq: seq<int>, depth: seq<int>, dl: seq<int>, leaves: set<int>, elems: int, t: int)
    requires Merged(h, freq, depth, dl, leaves, elems, t)
    ensures 1 <= |leaves| - t < |h| && HeapFrom(h, freq, depth, |leaves| - t, 2)
  {
    hide HeapFrom, Bag, Nodes, NoneNegative, QueueAbove, Taken, Sorted, LastTaken;
  }

  lemma MergingSizes(h: seq<int>, freq: seq<int>, depth: seq<int>, dl: seq<int>, leaves: set<int>, elems: int, t: int)
    requires Merging(h, freq, depth, dl, leaves, elems, t)
    ensures 0 <= t < |leaves| <= elems && |leaves| - t < |h| && elems + t < |freq| == |dl| <= |depth|
        && 2 * |leaves| < |h|
    ensures HeapFrom(h, freq, depth, |leaves| - t, 1)
  {
    hide HeapFrom, Bag, Nodes, QueueAbove, Taken, Sorted, LastTaken;
  }

  /** The two nodes go to the sorted part, and their father takes the root of the queue. */
  method PutAwayNodes(heap: array<int>, heapMax0: int, freq: array<int>, depth: array<int>, dl: array<int>, n: int,
      m: int, node: int, ghost t: int)
    returns (heapMax: int)
    requires heap != freq && heap != depth && heap != dl && freq != depth && freq != dl && depth != dl
    requires 0 <= t && 2 * t + 4 <= heap.Length && heapMax0 == heap.Length - 2 * t
    requires 0 <= n < freq.Length && 0 <= m < freq.Length && 0 <= node < freq.Length == dl.Length <= depth.Length
    modifies heap, freq, depth, dl
    ensures heapMax == heapMax0 - 2 && heap[..] == PutAway(old(heap[..]), t, n, m, node)
    ensures freq[..] == old(freq[..])[node := old(freq[n]) + old(freq[m])]
        && dl[..] == old(dl[..])[n := node][m := node]
    ensures forall x :: 0 <= x < depth.Length && x != node ==> depth[x] == old(depth[x])
  {
    heapMax := heapMax0 - 1;
    heap[heapMax] := n;
    heapMax := heapMax - 1;
    heap[heapMax] := m;
    freq[node] := freq[n] + freq[m];
    depth[node] := (if depth[n] >= depth[m] then depth[n] else depth[m]) + 1;
    dl[m] := node;
    dl[n] := node;
    SwapUpdates(old(dl[..]), n, m, node, dl[..]);
    heap[1] := node;
  }

  /** One round of the loop. */
  method OneMerge(heap: array<int>, heapLen0: int, heapMax0: int, freq: array<int>, depth: array<int>, dl: array<int>,
      node: int, ghost leaves: set<int>, ghost elems: int, ghost t: int)
    returns (heapLen: int, heapMax: int)
    requires heap != freq && heap != depth && heap != dl && freq != depth && freq != dl && depth != dl
    requires Merging(heap[..], freq[..], depth[..], dl[..], leaves, elems, t)
        && NoneNegative(Bag(heap[..], |leaves| - t), freq[..]) && Summed(heap[..], freq[..], elems, t)
    requires heapLen0 == |leaves| - t >= 2 && heapMax0 == heap.Length - 2 * t && node == elems + t
    modifies heap, freq, depth, dl
    ensures Merging(heap[..], freq[..], depth[..], dl[..], leaves, elems, t + 1) && heapLen == heapLen0 - 1
        && heapMax == heapMax0 - 2
    ensures 0 <= |leaves| - t - 1 < heap.Length && NoneNegative(Bag(heap[..], |leaves| - t - 1), freq[..])
        && Summed(heap[..], freq[..], elems, t + 1)
    ensures forall x :: 0 <= x < elems && x < freq.Length ==> freq[x] == old(freq[x])
    ensures forall x :: 0 <= x < dl.Length && x !in leaves && x < elems ==> dl[x] == old(dl[x])
  {
    hide *;
    ghost var h0, f, d, l := heap[..], freq[..], depth[..], dl[..];
    MergingSizes(h0, f, d, l, leaves, elems, t);
    var n := PqRemove(heap, heapLen0, freq, depth);
    heapLen := heapLen0 - 1;
    ghost var h1 := heap[..];
    MidwayIs(h0, h1, f, d, l, leaves, elems, t, n);
    MidwayParts(h0, h1, f, d, l, leaves, elems, t, n);
    MidwayNodes(h0, h1, f, d, l, leaves, elems, t, n, h1[1], Bag(h1, |leaves| - t - 1) - multiset{h1[1]});
    MidwayLeaves(h0, h1, f, d, l, leaves, elems, t, n);
    var m := heap[1];
    heapMax := PutAwayNodes(heap, heapMax0, freq, depth, dl, n, m, node, t);
    MergeStep(h0, h1, f, d, l, leaves, elems, t, n, m, freq[..], depth[..], dl[..]);
    ghost var h2 := heap[..];
    SummedMerge(h0, h1, f, d, l, leaves, elems, t, n, m, freq[..]);
    MergedSizes(h2, freq[..], depth[..], dl[..], leaves, elems, t + 1);
    PqDownHeap(heap, heapLen, freq, depth, 1);
    SunkParts(h2, heap[..], freq[..], depth[..], dl[..], leaves, elems, t + 1);
    SummedSunk(h2, heap[..], freq[..], leaves, elems, t + 1);
  }

  lemma SummedSunk(h: seq<int>, h1: seq<int>, freq: seq<int>, leaves: set<int>, elems: int, t: int)
    requires Summed(h, freq, elems, t) && |h1| == |h| && 0 <= |leaves| - t < |h| - 2 * t
    requires forall k :: |leaves| - t < k < |h| ==> h1[k] == h[k]
    ensures Summed(h1, freq, elems, t)
  {
    hide SumAt;
    SummedKept(h, freq, elems, t, h1);
  }

  lemma MidwayIs(h0: seq<int>, h1: seq<int>, freq: seq<int>, depth: seq<int>, dl: seq<int>, leaves: set<int>,
      elems: int, t: int, n: int)
    requires Merging(h0, freq, depth, dl, leaves, elems, t) && |leaves| - t >= 2 && |h1| == |h0| && |leaves| - t < |h0|
        && NoneNegative(Bag(h0, |leaves| - t), freq)
    requires HeapFrom(h1, freq, depth, |leaves| - t - 1, 1) && LeastIn(Bag(h0, |leaves| - t), freq, depth, n)
    requires Bag(h1, |leaves| - t - 1) == Bag(h0, |leaves| - t) - multiset{n}
        && forall k :: |leaves| - t < k < |h0| ==> h1[k] == h0[k]
    ensures Midway(h0, h1, freq, depth, dl, leaves, elems, t, n)
  {
    hide HeapFrom, Bag, Nodes, QueueAbove, Taken, Sorted, LastTaken, Merging, NoneNegative, LeastIn;
  }

  /** The nodes taken out are symbols that occur, or inner ones. */
  lemma MidwayLeaves(h0: seq<int>, h1: seq<int>, freq: seq<int>, depth: seq<int>, dl: seq<int>, leaves: set<int>,
      elems: int, t: int, n: int)
    requires Midway(h0, h1, freq, depth, dl, leaves, elems, t, n)
    ensures |leaves| - t - 1 >= 1 && |h1| > 1 && (n in leaves || n >= elems) && (h1[1] in leaves || h1[1] >= elems)
  {
    hide HeapFrom, Nodes, QueueAbove, Taken, Sorted, LastTaken, NoneNegative, Bag;
    MidwayParts(h0, h1, freq, depth, dl, leaves, elems, t, n);
    var all := Bag(h0, |leaves| - t) + multiset(h0[|h0| - 2 * t..]);
    assert h1[1] in Bag(h0, |leaves| - t);
    assert n in all && h1[1] in all;
  }

  lemma SwapUpdates(l: seq<int>, n: int, m: int, node: int, l1: seq<int>)
    requires 0 <= n < |l| && 0 <= m < |l| && l1 == l[m := node][n := node]
    ensures l1 == l[n := node][m := node]
  {
  }

  /** The loop: in the end one node is left, and it is put away too. */
  method MergeAll(heap: array<int>, heapLen0: int, freq: array<int>, depth: array<int>, dl: array<int>, elems: int,
      ghost leaves: set<int>)
    returns (heapMax: int)
    requires heap != freq && heap != depth && heap != dl && freq != depth && freq != dl && depth != dl
    requires Merging(heap[..], freq[..], depth[..], dl[..], leaves, elems, 0) && heapLen0 == |leaves| >= 2
    requires NoneNegative(Bag(heap[..], |leaves|), freq[..]) && Summed(heap[..], freq[..], elems, 0)
    modifies heap, freq, depth, dl
    ensures 0 < heapMax < heap.Length && Ordered(heap[heapMax..], dl[..], leaves, elems)
        && InRange(heap[heapMax..], dl.Length)
    ensures Sorted(heap[..], freq[..], heapMax) && Summed(heap[..], freq[..], elems, |leaves| - 1)
    ensures forall x :: 0 <= x < elems && x < freq.Length ==> freq[x] == old(freq[x])
    ensures forall x :: 0 <= x < dl.Length && x !in leaves && x < elems ==> dl[x] == old(dl[x])
  {
    hide *;
    MergingSizes(heap[..], freq[..], depth[..], dl[..], leaves, elems, 0);
    var heapLen, node := heapLen0, elems;
    heapMax := heap.Length;
    ghost var t := 0;
    while true
      invariant 0 <= t && heapLen == |leaves| - t && heapMax == heap.Length - 2 * t && node == elems + t
          && 2 <= heapLen < heap.Length
      invariant Merging(heap[..], freq[..], depth[..], dl[..], leaves, elems, t)
          && NoneNegative(Bag(heap[..], |leaves| - t), freq[..]) && Summed(heap[..], freq[..], elems, t)
      invariant forall x :: 0 <= x < elems && x < freq.Length ==> freq[x] == old(freq[x])
      invariant forall x :: 0 <= x < dl.Length && x !in leaves && x < elems ==> dl[x] == old(dl[x])
      decreases heapLen
    {
      heapLen, heapMax := OneMerge(heap, heapLen, heapMax, freq, depth, dl, node, leaves, elems, t);
      node := node + 1;
      t := t + 1;
      if !(heapLen >= 2) { break; }
    }
    ghost var h := heap[..];
    MergingSizes(h, freq[..], depth[..], dl[..], leaves, elems, t);
    heapMax := heapMax - 1;
    heap[heapMax] := heap[1];
    SummedKept(h, freq[..], elems, t, heap[..]);
    LastMerge(h, freq[..], depth[..], dl[..], leaves, elems, heapMax, heap[..]);
    LastSorted(h, freq[..], depth[..], dl[..], leaves, elems, heapMax, heap[..]);
    assert heap[..][heapMax..] == heap[heapMax..];
  }

  lemma LastSorted(h: seq<int>, freq: seq<int>, depth: seq<int>, dl: seq<int>, leaves: set<int>, elems: int, hm: int,
      h1: seq<int>)
    requires Merging(h, freq, depth, dl, leaves, elems, |leaves| - 1) && hm == |h| - 2 * (|leaves| - 1) - 1
        && 1 < hm < |h|
    requires h1 == h[hm := h[1]]
    ensures Sorted(h1, freq, hm)
  {
    hide HeapFrom, Nodes, Taken;
    assert h[1..2] == [h[1]] && h[1] in Bag(h, 1);
  }

  // ---- build_tree ----

  /** Frequencies of the symbols. */
  ghost predicate Frequencies(freq: seq<int>, elems: nat) {
    elems <= |freq| && forall x :: 0 <= x < elems ==> freq[x] >= 0
  }

  /** What is known when the queue is a heap. */
  lemma MergingStart(h: seq<int>, len: int, freq: seq<int>, depth: seq<int>, dl: seq<int>, elems: nat, maxCode: int,
      h1: seq<int>)
    requires Queue(h, len, freq, elems, maxCode) && 2 <= len && Frequencies(freq, elems) && |h1| == |h|
    requires |freq| == |dl| == 2 * elems + 1 && |freq| <= |depth| && |freq| <= |h|
    requires HeapFrom(h1, freq, depth, len, 1) && Bag(h1, len) == Bag(h, len)
    ensures Merging(h1, freq, depth, dl, Occur(freq, elems), elems, 0) && NoneNegative(Bag(h1, len), freq)
        && len == |Occur(freq, elems)| && Summed(h1, freq, elems, 0)
  {
    hide HeapFrom, Bag;
    var leaves := Occur(freq, elems);
    assert h1[|h1|..] == [];
    assert Nodes(leaves, elems, 0) == leaves;
  }

  /** The tree of frequencies freq1, built from freq. */
  ghost predicate TreeReady(heap: seq<int>, heapMax: int, dl: seq<int>, freq: seq<int>, leaves: set<int>, elems: nat,
      maxCode: int) {
    && 0 < heapMax < |heap| && Ordered(heap[heapMax..], dl, leaves, elems) && InRange(heap[heapMax..], |dl|)
    && elems <= |freq| && leaves == Occur(freq, elems) && 0 <= maxCode < elems
        && (forall x :: x in leaves ==> x <= maxCode) && maxCode in leaves
    && (forall x :: 0 <= x < elems && x < |dl| && x !in leaves ==> dl[x] == 0) && elems < |dl|
        && Frequencies(freq, elems)
    && (forall x :: x > maxCode ==> x !in leaves)
  }

  /** The first half of build_tree: the sorted nodes and their fathers. */
  method SortNodes(heap: array<int>, freq: array<int>, depth: array<int>, dl: array<int>, elems: nat,
      stree: Option<seq<int>>, ghost extra: seq<int>, ghost base: int, optLen0: int, staticLen0: int)
    returns (heapMax: int, maxCode: int, optLen: int, staticLen: int)
    requires heap != freq && heap != depth && heap != dl && freq != depth && freq != dl && depth != dl && 3 <= elems
    requires freq.Length == dl.Length == 2 * elems + 1 && freq.Length <= depth.Length && freq.Length <= heap.Length
        && Frequencies(freq[..], elems)
    requires (stree.Some? ==> elems <= |stree.value|) && NoExtraFirst(extra, base)
    modifies heap, freq, depth, dl
    ensures TreeReady(heap[..], heapMax, dl[..], freq[..], Occur(freq[..], elems), elems, maxCode)
        && Sorted(heap[..], freq[..], heapMax) && Summed(heap[..], freq[..], elems, |Occur(freq[..], elems)| - 1)
    ensures Kept(old(freq[..]), freq[..], elems)
    ensures optLen == optLen0 - (|Occur(freq[..], elems)| - |Occur(old(freq[..]), elems)|)
        && (|Occur(old(freq[..]), elems)| < 2 ==> |Occur(freq[..], elems)| == 2)
    ensures staticLen + StaticSum(freq[..], stree, extra, base, elems) ==
        staticLen0 + StaticSum(old(freq[..]), stree, extra, base, elems)
  {
    hide *;
    ghost var f0 := freq[..];
    var heapLen;
    heapLen, maxCode := InitHeap(heap, freq, depth, dl, elems);
    ghost var l0, len0 := dl[..], heapLen;
    QueueParts(heap[..], heapLen, f0, elems, maxCode);
    heapLen, maxCode, optLen, staticLen := ForceTwo(heap, heapLen, freq, depth, elems, maxCode, stree, extra,
        base, optLen0, staticLen0);
    ghost var f := freq[..];
    KeptIs(f0, f, elems, len0);
    QueueParts(heap[..], heapLen, f, elems, maxCode);
    EntriesOf(heap[..], heapLen, f, elems, maxCode, depth[..]);
    ghost var h := heap[..];
    Heapify(heap, heapLen, freq, depth);
    MergingStart(h, heapLen, f, depth[..], dl[..], elems, maxCode, heap[..]);
    ghost var leaves := Occur(f, elems);
    heapMax := MergeAll(heap, heapLen, freq, depth, dl, elems, leaves);
    assert heap[..][heapMax..] == heap[heapMax..];
    SameOccur(f, freq[..], elems);
    ReadyIs(heap[..], heapMax, l0, dl[..], f0, f, freq[..], elems, maxCode);
    SameStatic(f, freq[..], stree, extra, base, elems);
  }

  lemma SameStatic(f: seq<int>, f1: seq<int>, stree: Option<seq<int>>, extra: seq<int>, base: int, n: nat)
    requires n <= |f| && n <= |f1| && (stree.Some? ==> n <= |stree.value|) && forall x :: 0 <= x < n ==> f1[x] == f[x]
    ensures StaticSum(f1, stree, extra, base, n) == StaticSum(f, stree, extra, base, n)
  {
    hide SymbolCost;
    if stree.Some? { SameCost(f, f1, stree.value, stree.value, extra, base, n); }
  }

  /** The frequencies stay, but that a symbol that does not occur may be made to, if fewer than
      two do. */
  ghost predicate Kept(f0: seq<int>, f: seq<int>, elems: nat) {
    && |f| == |f0| && elems <= |f|
    && forall x :: 0 <= x < elems ==> f[x] == f0[x] || (f0[x] == 0 && f[x] == 1 && |Occur(f0, elems)| < 2 && x <= 2)
  }

  lemma KeptIs(f0: seq<int>, f: seq<int>, elems: nat, len: int)
    requires elems <= |f| == |f0| && len == |Occur(f0, elems)| && Frequencies(f0, elems)
    requires OnlyForced(f0, f, elems, len)
    ensures Kept(f0, f, elems) && Frequencies(f, elems)
  {
  }

  lemma QueueParts(h: seq<int>, len: int, freq: seq<int>, elems: nat, maxCode: int)
    requires Queue(h, len, freq, elems, maxCode)
    ensures 0 <= len < |h| && elems <= |freq| && len == |Occur(freq, elems)| <= elems && (len > 0 ==> 0 <= maxCode)
        && maxCode < elems
    ensures (forall x :: x in Occur(freq, elems) ==> x <= maxCode)
        && (maxCode >= 0 ==> maxCode in Occur(freq, elems))
  {
    hide Bag;
    if len > 0 { var x :| x in Occur(freq, elems); }
  }

  lemma {:induction false} SameOccur(f: seq<int>, f1: seq<int>, n: nat)
    requires n <= |f| && n <= |f1| && forall x :: 0 <= x < n ==> f1[x] == f[x]
    ensures Occur(f1, n) == Occur(f, n)
  {
    if n > 0 { SameOccur(f, f1, n - 1); }
  }

  lemma ReadyIs(h: seq<int>, heapMax: int, l0: seq<int>, dl: seq<int>, f0: seq<int>, f: seq<int>, f1: seq<int>,
      elems: nat, maxCode: int)
    requires Kept(f0, f, elems) && Frequencies(f, elems) && elems <= |f1| == |f|
        && (forall x :: 0 <= x < elems ==> f1[x] == f[x]) && elems < |dl| == |l0|
    requires (forall x :: 0 <= x < elems && f0[x] == 0 ==> l0[x] == 0) && Occur(f1, elems) == Occur(f, elems)
    requires forall x :: 0 <= x < |dl| && x !in Occur(f, elems) && x < elems ==> dl[x] == l0[x]
    requires 0 < heapMax < |h| && Ordered(h[heapMax..], dl, Occur(f, elems), elems) && InRange(h[heapMax..], |dl|)
    requires 0 <= maxCode < elems && maxCode in Occur(f, elems) && forall x :: x in Occur(f, elems) ==> x <= maxCode
    ensures TreeReady(h, heapMax, dl, f1, Occur(f1, elems), elems, maxCode) && Kept(f0, f1, elems)
  {
    hide Ordered;
  }

  lemma TreeReadyParts(heap: seq<int>, heapMax: int, dl: seq<int>, freq: seq<int>, leaves: set<int>, elems: nat,
      maxCode: int)
    requires TreeReady(heap, heapMax, dl, freq, leaves, elems, maxCode)
    ensures 0 < heapMax < |heap| && 0 <= maxCode < elems < |dl| && Ordered(heap[heapMax..], dl, leaves, elems)
        && InRange(heap[heapMax..], |dl|)
    ensures Distinct(heap[heapMax..]) && |heap[heapMax..]| >= 1 && 2 <= |leaves| <= elems && 1 <= maxCode
    ensures var s := ShapeOf(heap[heapMax..], dl, leaves, elems);
      IsTree(s, heap[heapMax..], dl, maxCode) && |s.inner| == |heap[heapMax..]|
          && AllLeaves(s, |heap[heapMax..]|) <= |leaves|
  {
    hide *;
    TreeReadyBasics(heap, heapMax, dl, freq, leaves, elems, maxCode);
    var order := heap[heapMax..];
    TreeLeft(order, dl, leaves, elems, maxCode);
    OrderedNodes(order, dl, leaves, elems);
    FewLeaves(order, dl, leaves, elems);
    ShapeParts(order, dl, leaves, elems);
  }

  lemma TreeReadyBasics(heap: seq<int>, heapMax: int, dl: seq<int>, freq: seq<int>, leaves: set<int>, elems: nat,
      maxCode: int)
    requires TreeReady(heap, heapMax, dl, freq, leaves, elems, maxCode)
    ensures 0 < heapMax < |heap| && 0 <= maxCode < elems < |dl| && Ordered(heap[heapMax..], dl, leaves, elems)
        && InRange(heap[heapMax..], |dl|)
    ensures 2 <= |leaves| <= elems && 1 <= maxCode && forall x :: x in leaves ==> x <= maxCode
  {
    hide MergeOf, Nodes;
    NotAllZero(leaves, maxCode);
  }

  lemma NotAllZero(leaves: set<int>, maxCode: int)
    requires 2 <= |leaves| && forall x :: x in leaves ==> 0 <= x <= maxCode
    ensures 1 <= maxCode
  {
    if forall x :: x in leaves ==> x == 0 { CardinalitySubset(leaves, {0}); }
  }

  /** The lengths of the symbols after gen_bitlen: a complete code of the symbols that occur. */
  ghost predicate TreeCode(lens: seq<int>, freq: seq<int>, maxLength: int) {
    && CodeLens(lens) && Complete(lens) && |lens| <= |freq|
    && forall x :: 0 <= x < |lens| ==> lens[x] <= maxLength && (lens[x] > 0 <==> freq[x] != 0)
  }

  /** What build_tree makes of counted symbols: those that occur, or two at least, get the lengths of a
      cheapest code, unless such a code has too long a code word. */
  ghost predicate Chosen(counts: seq<int>, lens: seq<int>, maxLength: int) {
    exists f :: Kept(counts, f, |counts|) && ChosenFor(f, lens, maxLength)
  }

  ghost predicate ChosenFor(f: seq<int>, lens: seq<int>, maxLength: int) {
    |lens| == |f| && (forall x :: 0 <= x < |lens| ==> (lens[x] > 0 <==> f[x] != 0)) && LeastCost(f, lens, maxLength)
  }

  lemma {:induction false} OccurFirst(f: seq<int>, n: nat, k: nat)
    requires k <= n <= |f|
    ensures Occur(f[..n], k) == Occur(f, k)
  {
    if k > 0 { OccurFirst(f, n, k - 1); }
  }

  lemma IsChosen(f0: seq<int>, f: seq<int>, dl: seq<int>, elems: nat, maxCode: int, m: int)
    requires Kept(f0, f, elems) && 0 <= maxCode < elems <= |dl| && TreeCode(dl[..maxCode + 1], f, m)
    requires (forall x :: maxCode < x < elems ==> dl[x] == 0 && f[x] == 0) && f[maxCode] != 0
    requires LeastCost(f[..elems], dl[..elems], m)
    ensures Chosen(f0[..elems], dl[..elems], m) && dl[maxCode] > 0
  {
    hide LeastCost, Complete, CodeLens, Occur;
    OccurFirst(f0, elems, elems);
    assert Kept(f0[..elems], f[..elems], elems);
    forall x | 0 <= x < elems ensures dl[..elems][x] > 0 <==> f[..elems][x] != 0 {
      if x <= maxCode { assert dl[..maxCode + 1][x] == dl[x]; }
    }
    assert dl[..maxCode + 1][maxCode] == dl[maxCode];
    assert ChosenFor(f[..elems], dl[..elems], m);
  }

  lemma {:induction false} CodeOfTree(order: seq<int>, dl0: seq<int>, dl: seq<int>, freq: seq<int>, bl: seq<int>,
      leaves: set<int>, elems: nat, maxCode: int, m: nat)
    requires Ordered(order, dl0, leaves, elems) && InRange(order, |dl|) && |dl| == |dl0| && elems < |dl|
        && elems <= |freq| && 0 <= maxCode < elems && 1 <= m <= 15 < |bl|
    requires leaves == Occur(freq, elems) && (forall x :: x in leaves ==> x <= maxCode)
        && (forall x :: 0 <= x < elems && x !in leaves ==> dl0[x] == 0)
    requires forall x :: 0 <= x < |dl| && x !in order ==> dl[x] == dl0[x]
    requires var s := ShapeOf(order, dl0, leaves, elems);
      && |s.inner| == |order| && (forall i :: 0 <= i < |order| && !s.inner[i] ==> 1 <= dl[order[i]] <= m)
      && AllAssigned(s, order, bl, dl) && LevelKraft(bl, m, m) == Pow2(m) && bl[0] == 0
    ensures TreeCode(dl[..maxCode + 1], freq, m) && forall x :: maxCode < x < elems ==> dl[x] == 0
    ensures forall l :: 1 <= l <= 15 ==> bl[l] == Count(dl[..maxCode + 1], l)
  {
    hide *;
    var s := ShapeOf(order, dl0, leaves, elems);
    SymbolsOfTree(order, dl0, dl, leaves, elems, maxCode);
    CodeIsComplete(s, order, bl, dl, maxCode, m);
    SymbolCounts(s, order, bl, dl, maxCode);
    SymbolLengths(s, order, dl, freq, leaves, elems, maxCode, m);
  }

  /** The leaves are the symbols that occur. */
  lemma {:induction false} SymbolsOfTree(order: seq<int>, dl0: seq<int>, dl: seq<int>, leaves: set<int>, elems: nat,
      maxCode: int)
    requires Ordered(order, dl0, leaves, elems) && InRange(order, |dl|) && |dl| == |dl0| && elems < |dl|
        && 0 <= maxCode < elems
    requires (forall x :: x in leaves ==> x <= maxCode) && (forall x :: 0 <= x < elems && x !in leaves ==> dl0[x] == 0)
    requires forall x :: 0 <= x < |dl| && x !in order ==> dl[x] == dl0[x]
    ensures var s := ShapeOf(order, dl0, leaves, elems); LeavesAreSymbols(s, order, dl, maxCode)
    ensures forall x :: 0 <= x < elems ==> (x in order <==> x in leaves) && (x !in leaves ==> dl[x] == 0)
  {
    hide ShapeOf;
    OrderedNodes(order, dl0, leaves, elems);
    ShapeParts(order, dl0, leaves, elems);
    hide Ordered, Distinct;
    var s := ShapeOf(order, dl0, leaves, elems);
    forall i | 0 <= i < |order| ensures s.inner[i] <==> order[i] > maxCode { assert order[i] in order; }
  }

  lemma {:induction false} SymbolCounts(s: Shape, order: seq<int>, bl: seq<int>, dl: seq<int>, maxCode: int)
    requires LeavesAreSymbols(s, order, dl, maxCode) && AllAssigned(s, order, bl, dl) && 15 < |bl|
        && 0 <= maxCode < |dl|
    ensures forall l :: 1 <= l <= 15 ==> bl[l] == Count(dl[..maxCode + 1], l)
  {
    hide LeavesAreSymbols, AllAssigned, Count, From;
    forall l | 1 <= l <= 15 ensures bl[l] == Count(dl[..maxCode + 1], l) {
      LevelCount(s, order, bl, dl, l);
      SameCounts(s, order, dl, maxCode, l);
    }
  }

  lemma {:induction false} SymbolLengths(s: Shape, order: seq<int>, dl: seq<int>, freq: seq<int>, leaves: set<int>,
      elems: nat, maxCode: int, m: nat)
    requires LeavesAreSymbols(s, order, dl, maxCode) && CodeLens(dl[..maxCode + 1]) && Complete(dl[..maxCode + 1])
        && elems < |dl| && elems <= |freq| && maxCode < elems
    requires (forall i :: 0 <= i < |order| && !s.inner[i] ==> 1 <= dl[order[i]] <= m) && leaves == Occur(freq, elems)
    requires (forall x :: x in leaves ==> x <= maxCode) && forall x :: 0 <= x < elems ==>
      (x in order <==> x in leaves) && (x !in leaves ==> dl[x] == 0)
    ensures TreeCode(dl[..maxCode + 1], freq, m) && forall x :: maxCode < x < elems ==> dl[x] == 0
  {
    hide Complete, Distinct;
    forall x | 0 <= x <= maxCode ensures dl[x] <= m && (dl[x] > 0 <==> freq[x] != 0) {
      if x in order { var i :| 0 <= i < |order| && order[i] == x; }
    }
    forall x | maxCode < x < elems ensures dl[x] == 0 { assert x !in leaves; }
  }

  lemma LevelCount(s: Shape, order: seq<int>, bl: seq<int>, l: seq<int>, b: int)
    requires AllAssigned(s, order, bl, l) && 1 <= b < |bl|
    ensures |order| == |s.inner| && InRange(order, |l|) && From(s, order, l, b, 0) == bl[b]
  {
    hide From;
  }

  // ---- the bits that the symbols take ----

  /** The same sum over the leaves among the first k nodes that are below n. */
  function LeafCost(order: seq<int>, freq: seq<int>, lens: seq<int>, extra: seq<int>, base: int, n: int, k: nat): int
    requires k <= |order| && InRange(order, |freq|) && InRange(order, |lens|)
  {
    if k == 0 then 0
    else LeafCost(order, freq, lens, extra, base, n, k - 1) + if order[k - 1] < n
        then freq[order[k - 1]] * (lens[order[k - 1]] + Extra(extra, base, order[k - 1])) else 0
  }

  lemma {:induction false} CostOfLeaves(s: Shape, order: seq<int>, freq: seq<int>, lens: seq<int>, extra: seq<int>,
      base: int, n: int, k: nat)
    requires k <= |order| == |s.inner| && InRange(order, |freq|) && InRange(order, |lens|)
        && forall i :: 0 <= i < |order| ==> (s.inner[i] <==> order[i] >= n)
    ensures Cost(s, order, freq, extra, base, lens, k) == LeafCost(order, freq, lens, extra, base, n, k)
  {
    hide Extra;
    if k > 0 { CostOfLeaves(s, order, freq, lens, extra, base, n, k - 1); }
  }

  /** One symbol more is counted once, if it is a leaf. */
  lemma {:induction false} LeafCostNext(order: seq<int>, freq: seq<int>, lens: seq<int>, extra: seq<int>, base: int,
      n: int, k: nat)
    requires k <= |order| && InRange(order, |freq|) && InRange(order, |lens|) && Distinct(order) && 0 <= n < |freq|
        && n < |lens|
    ensures LeafCost(order, freq, lens, extra, base, n + 1, k) ==
            LeafCost(order, freq, lens, extra, base, n, k) + if n in order[..k]
                then freq[n] * (lens[n] + Extra(extra, base, n)) else 0
  {
    hide Extra, Distinct;
    if k > 0 {
      LeafCostNext(order, freq, lens, extra, base, n, k - 1);
      NotBefore(order, k - 1);
      assert order[..k] == order[..k - 1] + [order[k - 1]];
    }
  }

  lemma {:induction false} NoLeafCost(order: seq<int>, freq: seq<int>, lens: seq<int>, extra: seq<int>, base: int,
      k: nat)
    requires k <= |order| && InRange(order, |freq|) && InRange(order, |lens|)
    ensures LeafCost(order, freq, lens, extra, base, 0, k) == 0
  {
    hide Extra;
    if k > 0 { NoLeafCost(order, freq, lens, extra, base, k - 1); }
  }

  /** The leaves of the tree cost what the symbols do. */
  lemma {:induction false} CostBySymbol(order: seq<int>, freq: seq<int>, lens: seq<int>, extra: seq<int>, base: int,
      n: nat)
    requires InRange(order, |freq|) && InRange(order, |lens|) && Distinct(order) && n <= |freq| && n <= |lens|
    requires forall x :: 0 <= x < n && x !in order ==> freq[x] == 0
    ensures LeafCost(order, freq, lens, extra, base, n, |order|) == SymbolCost(freq, lens, extra, base, n)
  {
    hide Extra, LeafCost, Distinct;
    if n == 0 {
      NoLeafCost(order, freq, lens, extra, base, |order|);
    } else {
      CostBySymbol(order, freq, lens, extra, base, n - 1);
      LeafCostNext(order, freq, lens, extra, base, n - 1, |order|);
      assert order[..|order|] == order;
      if n - 1 !in order { Nothing(lens[n - 1] + Extra(extra, base, n - 1)); }
    }
  }

  lemma Nothing(x: int)
    ensures 0 * x == 0
  {
  }

  lemma {:induction false} TreeCost(order: seq<int>, dl0: seq<int>, dl: seq<int>, freq: seq<int>, leaves: set<int>,
      elems: nat, extra: seq<int>, base: int)
    requires Ordered(order, dl0, leaves, elems) && InRange(order, |dl|) && InRange(order, |freq|) && elems <= |dl|
        && elems <= |freq| && leaves == Occur(freq, elems)
    ensures |ShapeOf(order, dl0, leaves, elems).inner| == |order|
    ensures Cost(ShapeOf(order, dl0, leaves, elems), order, freq, extra, base, dl, |order|) ==
        SymbolCost(freq, dl, extra, base, elems)
  {
    hide ShapeOf, Cost, SymbolCost, LeafCost, Extra;
    OrderedNodes(order, dl0, leaves, elems);
    ShapeParts(order, dl0, leaves, elems);
    hide Ordered, Distinct;
    CostOfLeaves(ShapeOf(order, dl0, leaves, elems), order, freq, dl, extra, base, elems, |order|);
    CostBySymbol(order, freq, dl, extra, base, elems);
  }

  /** Each forced symbol has a code word of one bit, which is not to be counted. */
  lemma {:induction false} ForcedCost(f0: seq<int>, f: seq<int>, lens: seq<int>, extra: seq<int>, base: int, n: nat)
    requires n <= |f0| && n <= |f| && n <= |lens|
    requires forall x :: 0 <= x < n ==>
      f[x] == f0[x] || (f0[x] == 0 && f[x] == 1 && lens[x] == 1 && Extra(extra, base, x) == 0)
    ensures SymbolCost(f, lens, extra, base, n) - SymbolCost(f0, lens, extra, base, n) ==
            |Occur(f, n)| - |Occur(f0, n)|
  {
    hide Extra, Occur;
    if n == 0 {
      OccurNone(f0, f);
    } else {
      ForcedCost(f0, f, lens, extra, base, n - 1);
      OccurStep(f0, n - 1);
      OccurStep(f, n - 1);
      Nothing(lens[n - 1] + Extra(extra, base, n - 1));
    }
  }

  lemma OccurNone(f0: seq<int>, f: seq<int>)
    ensures |Occur(f0, 0)| == |Occur(f, 0)| == 0
  {
  }

  lemma OccurStep(freq: seq<int>, n: nat)
    requires n < |freq|
    ensures |Occur(freq, n + 1)| == |Occur(freq, n)| + if freq[n] != 0 then 1 else 0
  {
    OccurNext(freq, n);
  }

  lemma NoCostForced(f0: seq<int>, f: seq<int>, lens: seq<int>, extra: seq<int>, base: int, elems: nat)
    requires Kept(f0, f, elems) && elems <= |lens| && NoExtraFirst(extra, base)
    requires |Occur(f, elems)| == 2 ==> forall x :: x in Occur(f, elems) ==> lens[x] == 1
    requires |Occur(f0, elems)| < 2 ==> |Occur(f, elems)| == 2
    ensures SymbolCost(f, lens, extra, base, elems) - SymbolCost(f0, lens, extra, base, elems) ==
            |Occur(f, elems)| - |Occur(f0, elems)|
  {
    hide Extra, SymbolCost;
    forall x | 0 <= x < elems && f[x] != f0[x] ensures lens[x] == 1 && Extra(extra, base, x) == 0 {
      assert x in Occur(f, elems);
    }
    ForcedCost(f0, f, lens, extra, base, elems);
  }

  lemma {:induction false} StaticTreeCost(order: seq<int>, dl0: seq<int>, freq: seq<int>, leaves: set<int>,
      elems: nat, extra: seq<int>, base: int, stree: Option<seq<int>>)
    requires Ordered(order, dl0, leaves, elems) && InRange(order, |freq|) && elems <= |freq|
        && leaves == Occur(freq, elems) && (stree.Some? ==> elems <= |stree.value|)
    ensures |ShapeOf(order, dl0, leaves, elems).inner| == |order|
    ensures StaticCost(ShapeOf(order, dl0, leaves, elems), order, freq, extra, base, stree, |order|) ==
        StaticSum(freq, stree, extra, base, elems)
  {
    hide ShapeOf, Cost, SymbolCost, Extra;
    ShapeParts(order, dl0, leaves, elems);
    if stree.Some? {
      var p := PaddedTo(stree.value, |freq|);
      PaddedRange(order, stree.value, |freq|);
      TreeCost(order, dl0, p, freq, leaves, elems, extra, base);
      SameCost(freq, freq, stree.value, p, extra, base, elems);
    }
  }

  /** build_tree: the symbols that occur, and others if they are fewer than two, get the lengths of a
      complete code, none longer than maxLength, and their codes; the code is a cheapest one, unless
      such a code has too long a code word.  opt_len and static_len grow by the bits that the symbols
      will take with these lengths and with those of the static tree. */
  method BuildTree(heap: array<int>, fc: array<int>, depth: array<int>, dl: array<int>, bl: array<int>, elems: nat,
      extra: seq<int>, base: int, stree: Option<seq<int>>, maxLength: nat, optLen0: int, staticLen0: int)
    returns (maxCode: int, optLen: int, staticLen: int, ghost freq: seq<int>)
    requires heap != fc && heap != depth && heap != dl && fc != depth && fc != dl && depth != dl && bl != heap
        && bl != fc && bl != dl && bl != depth
    requires 3 <= elems <= Pow2(maxLength) && 2 <= maxLength <= 15 && bl.Length == 16
    requires fc.Length == dl.Length == 2 * elems + 1 && fc.Length <= depth.Length && fc.Length <= heap.Length
        && Frequencies(fc[..], elems)
    requires (stree.Some? ==> elems <= |stree.value|) && NoExtraFirst(extra, base)
    modifies heap, fc, depth, dl, bl
    ensures 1 <= maxCode < elems && Kept(old(fc[..]), freq, elems) && TreeCode(dl[..maxCode + 1], freq, maxLength)
    ensures forall x :: maxCode < x < elems ==> dl[x] == 0 && freq[x] == 0
    ensures CodesFor(dl[..maxCode + 1], fc[..])
    ensures Chosen(old(fc[..elems]), dl[..elems], maxLength) && dl[maxCode] > 0
    ensures optLen == optLen0 + SymbolCost(old(fc[..]), dl[..], extra, base, elems)
    ensures staticLen == staticLen0 + StaticSum(old(fc[..]), stree, extra, base, elems)
  {
    hide *;
    ghost var f0 := fc[..];
    var heapMax;
    heapMax, maxCode, optLen, staticLen := SortNodes(heap, fc, depth, dl, elems, stree, extra, base, optLen0,
        staticLen0);
    freq := fc[..];
    ghost var dl0, leaves := dl[..], Occur(freq, elems);
    TreeReadyParts(heap[..], heapMax, dl0, freq, leaves, elems, maxCode);
    ghost var order, h := heap[heapMax..], heap[..];
    assert order == h[heapMax..];
    ghost var s := ShapeOf(order, dl0, leaves, elems);
    optLen, staticLen := GenBitlen.GenBitlen(heap, heapMax, dl, fc, maxCode, extra, base, stree, maxLength, bl, optLen,
        staticLen, s, order);
    ReadyZeros(h, heapMax, dl0, freq, leaves, elems, maxCode);
    SymbolsCounted(h, heapMax, dl0, freq, leaves, elems, maxCode);
    LengthsAreLeast(order, dl0, freq, leaves, elems, dl[..], maxLength);
    assert dl[..][..elems] == dl[..elems] && f0[..elems] == old(fc[..elems]);
    CodeOfTree(order, dl0, dl[..], freq, bl[..], leaves, elems, maxCode, maxLength);
    TreeCost(order, dl0, dl[..], freq, leaves, elems, extra, base);
    StaticTreeCost(order, dl0, freq, leaves, elems, extra, base, stree);
    if |leaves| == 2 { TwoLeaves(order, dl0, leaves, elems, dl[..], maxLength); }
    NoCostForced(f0, freq, dl[..], extra, base, elems);
    ghost var lens := dl[..maxCode + 1];
    CodeParts(lens, bl[..], freq, maxLength);
    IsChosen(f0, freq, dl[..], elems, maxCode, maxLength);
    assert fc[..] == freq;
    var l := dl[..maxCode + 1];
    GenCodes(l, bl, fc);
  }

  lemma SymbolsCounted(h: seq<int>, heapMax: int, dl: seq<int>, freq: seq<int>, leaves: set<int>, elems: nat,
      maxCode: int)
    requires TreeReady(h, heapMax, dl, freq, leaves, elems, maxCode) && |dl| == |freq|
    requires Sorted(h, freq, heapMax) && Summed(h, freq, elems, |leaves| - 1)
    ensures Counted(h[heapMax..], dl, freq, leaves, elems)
  {
    hide Ordered, Sorted, Summed;
    IsCounted(h, heapMax, dl, freq, leaves, elems);
  }

  lemma ReadyZeros(heap: seq<int>, heapMax: int, dl: seq<int>, freq: seq<int>, leaves: set<int>, elems: nat,
      maxCode: int)
    requires TreeReady(heap, heapMax, dl, freq, leaves, elems, maxCode)
    ensures elems <= |freq| && leaves == Occur(freq, elems) && (forall x :: x in leaves ==> x <= maxCode)
        && (forall x :: 0 <= x < elems && x < |dl| && x !in leaves ==> dl[x] == 0)
    ensures (forall x :: maxCode < x < elems ==> freq[x] == 0) && 0 <= maxCode < elems && freq[maxCode] != 0
  {
    hide Ordered;
    forall x | maxCode < x < elems ensures freq[x] == 0 { assert x !in leaves; }
  }

  lemma CodeParts(lens: seq<int>, bl: seq<int>, freq: seq<int>, maxLength: int)
    requires TreeCode(lens, freq, maxLength) && |bl| == 16 && bl[0] == 0 && forall l :: 1 <= l <= 15 ==>
      bl[l] == Count(lens, l)
    ensures CodeLens(lens) && LevelCounts(lens, bl)
  {
    hide Count, Complete;
  }
}

/** The merging loop of build_tree in trees.c: what lies in the heap array while the two least
    frequent nodes are taken out again and again, and the tree that is left at its end. */
module TreeMerging {
  import opened HeapArrays
  import opened TreeHeap

  /** The symbols that occur, and the t inner nodes made so far. */
  ghost function Nodes(leaves: set<int>, elems: int, t: nat): (s: set<int>)
    ensures forall x :: x in s <==> x in leaves || elems <= x < elems + t
  {
    if t == 0 then leaves else Nodes(leaves, elems, t - 1) + {elems + t - 1}
  }

  /** The merge that put a node at position k of an array of size n. */
  function MergeOf(n: int, k: int): int { (n - 1 - k) / 2 }

  /** The part of the array from hm on: nodes taken out, in pairs, each older than the father
      its pair has got. */
  ghost predicate Taken(h: seq<int>, dl: seq<int>, elems: int, hm: int) {
    && 0 <= hm <= |h|
    && forall k :: hm <= k < |h| ==>
      0 <= h[k] < elems + MergeOf(|h|, k) && h[k] < |dl| && dl[h[k]] == elems + MergeOf(|h|, k)
  }

  /** Taken out by increasing frequency, seen from the end. */
  ghost predicate Sorted(h: seq<int>, freq: seq<int>, hm: int) {
    && 0 <= hm <= |h| && (forall k :: hm <= k < |h| ==> 0 <= h[k] < |freq|)
    && forall k :: hm < k < |h| ==> freq[h[k - 1]] >= freq[h[k]]
  }

  /** None in the queue is less frequent than the last one taken. */
  ghost predicate QueueAbove(bag: multiset<int>, freq: seq<int>, least: int) {
    forall x :: x in bag ==> 0 <= x < |freq| && freq[x] >= least
  }

  ghost function LastTaken(h: seq<int>, freq: seq<int>, hm: int): int {
    if 0 <= hm < |h| && 0 <= h[hm] < |freq| then freq[h[hm]] else 0
  }

  /** Sizes of the arrays. */
  ghost predicate Sizes(h: seq<int>, freq: seq<int>, depth: seq<int>, dl: seq<int>, elems: int) {
    && 2 <= elems && |freq| == |dl| == 2 * elems + 1 && |freq| <= |depth| && |freq| <= |h|
  }

  ghost predicate Occurring(leaves: set<int>, elems: int) {
    2 <= |leaves| <= elems && forall x :: x in leaves ==> 0 <= x < elems
  }

  /** After t merges: the queue holds the rest. */
  ghost predicate Merging(h: seq<int>, freq: seq<int>, depth: seq<int>, dl: seq<int>, leaves: set<int>, elems: int,
      t: int) {
    && Sizes(h, freq, depth, dl, elems) && Occurring(leaves, elems) && 0 <= t < |leaves|
    && HeapFrom(h, freq, depth, |leaves| - t, 1)
    && Bag(h, |leaves| - t) + multiset(h[|h| - 2 * t..]) == multiset(Nodes(leaves, elems, t))
    && Taken(h, dl, elems, |h| - 2 * t) && Sorted(h, freq, |h| - 2 * t)
    && QueueAbove(Bag(h, |leaves| - t), freq, LastTaken(h, freq, |h| - 2 * t))
  }

  /** What the queue holds are nodes made already, each once. */
  lemma QueuedNodes(h: seq<int>, freq: seq<int>, depth: seq<int>, dl: seq<int>, leaves: set<int>, elems: int, t: int,
      x: int)
    requires Merging(h, freq, depth, dl, leaves, elems, t) && x in Bag(h, |leaves| - t)
    ensures 0 <= x < elems + t && Bag(h, |leaves| - t)[x] == 1 && x !in h[|h| - 2 * t..]
  {
    hide HeapFrom, Bag, Taken, Sorted, QueueAbove;
    var all := Nodes(leaves, elems, t);
    assert multiset(all)[x] <= 1;
    assert (Bag(h, |leaves| - t) + multiset(h[|h| - 2 * t..]))[x] == multiset(all)[x];
    assert x in all;
  }

  /** The next node is new. */
  lemma NewNode(h: seq<int>, freq: seq<int>, depth: seq<int>, dl: seq<int>, leaves: set<int>, elems: int, t: int)
    requires Merging(h, freq, depth, dl, leaves, elems, t)
    ensures 0 <= |leaves| - t < |h| && elems + t < |freq| && elems + t !in Bag(h, |leaves| - t)
    ensures forall k :: |h| - 2 * t <= k < |h| ==> h[k] != elems + t
  {
    hide HeapFrom, Bag, Sorted, QueueAbove;
    if elems + t in Bag(h, |leaves| - t) { QueuedNodes(h, freq, depth, dl, leaves, elems, t, elems + t); }
  }

  // ---- one merge ----

  /** Two nodes are taken out: which, and what is left. */
  ghost predicate TookTwo(bag: multiset<int>, freq: seq<int>, n: int, m: int, rest: multiset<int>) {
    && bag == rest + multiset{n, m} && 0 <= n < |freq| && 0 <= m < |freq| && freq[n] <= freq[m]
    && forall x :: x in rest ==> 0 <= x < |freq| && freq[m] <= freq[x]
  }

  lemma TwoLeast(bag: multiset<int>, bag1: multiset<int>, freq: seq<int>, depth: seq<int>, n: int, m: int)
    requires LeastIn(bag, freq, depth, n) && bag1 == bag - multiset{n} && LeastIn(bag1, freq, depth, m)
    ensures TookTwo(bag, freq, n, m, bag1 - multiset{m})
  {
    assert m in bag;
    assert bag == bag1 - multiset{m} + multiset{n, m};
    forall x | x in bag1 - multiset{m} ensures 0 <= x < |freq| && freq[m] <= freq[x] { assert x in bag1; }
  }

  /** The bag of a queue whose first entry is replaced. */
  lemma ReplaceFirst(h: seq<int>, n: int, x: int)
    requires 1 <= n < |h|
    ensures Bag(h[1 := x], n) == Bag(h, n) - multiset{h[1]} + multiset{x}
  {
    assert h[1..n + 1] == [h[1]] + h[2..n + 1];
    assert h[1 := x][1..n + 1] == [x] + h[2..n + 1];
  }

  lemma {:induction false} MoreNodes(leaves: set<int>, elems: int, t: nat)
    requires Occurring(leaves, elems)
    ensures multiset(Nodes(leaves, elems, t + 1)) == multiset(Nodes(leaves, elems, t)) + multiset{elems + t}
  {
    var a, b := Nodes(leaves, elems, t), Nodes(leaves, elems, t + 1);
    assert elems + t !in a;
    assert b == a + {elems + t};
  }

  /** All nodes after a merge. */
  lemma BagsAfter(bag: multiset<int>, rest: multiset<int>, n: int, m: int, taken: seq<int>, taken1: seq<int>, node: int,
      all: multiset<int>)
    requires bag == rest + multiset{n, m} && bag + multiset(taken) == all && taken1 == [m, n] + taken
    ensures rest + multiset{node} + multiset(taken1) == all + multiset{node}
  {
    assert multiset(taken1) == multiset{m, n} + multiset(taken);
  }

  lemma TakenAfter(h: seq<int>, h1: seq<int>, dl: seq<int>, dl1: seq<int>, elems: int, t: int, n: int, m: int)
    requires 0 <= 2 * t && 2 * t + 2 <= |h| == |h1| && Taken(h, dl, elems, |h| - 2 * t) && 0 <= n < elems + t
        && 0 <= m < elems + t
    requires forall k :: |h| - 2 * t <= k < |h| ==> h1[k] == h[k] && h[k] != n && h[k] != m
    requires h1[|h| - 2 * t - 1] == n && h1[|h| - 2 * t - 2] == m && n < |dl| && m < |dl|
        && dl1 == dl[n := elems + t][m := elems + t]
    ensures Taken(h1, dl1, elems, |h| - 2 * (t + 1))
  {
  }

  lemma SortedAfter(h: seq<int>, h1: seq<int>, freq: seq<int>, freq1: seq<int>, t: int, n: int, m: int, node: int)
    requires 0 <= 2 * t && 2 * t + 2 <= |h| == |h1| && Sorted(h, freq, |h| - 2 * t)
    requires 0 <= n < |freq| && 0 <= m < |freq| && LastTaken(h, freq, |h| - 2 * t) <= freq[n] <= freq[m] && n != node
        && m != node
    requires forall k :: |h| - 2 * t <= k < |h| ==> h1[k] == h[k] && h[k] != node
    requires h1[|h| - 2 * t - 1] == n && h1[|h| - 2 * t - 2] == m
    requires |freq1| == |freq| && forall x :: 0 <= x < |freq| && x != node ==> freq1[x] == freq[x]
    ensures Sorted(h1, freq1, |h| - 2 * (t + 1)) && LastTaken(h1, freq1, |h| - 2 * (t + 1)) == freq[m]
  {
  }

  lemma QueueAfter(rest: multiset<int>, freq: seq<int>, freq1: seq<int>, n: int, m: int, node: int)
    requires 0 <= n < |freq| && 0 <= m < |freq| && forall x :: x in rest ==> 0 <= x < |freq| && freq[m] <= freq[x]
    requires 0 <= freq[n] && 0 <= node < |freq| && node !in rest && freq1 == freq[node := freq[n] + freq[m]]
    ensures QueueAbove(rest + multiset{node}, freq1, freq[m])
  {
  }

  /** New values for a node outside the queue change nothing there. */
  lemma OutsideNode(h: seq<int>, freq: seq<int>, depth: seq<int>, len: int, freq1: seq<int>, depth1: seq<int>,
      node: int, h1: seq<int>)
    requires HeapFrom(h, freq, depth, len, 2) && 0 <= node < |freq| && |h1| == |h|
    requires |freq1| == |freq| && |depth1| == |depth| && forall x :: 0 <= x < |freq| && x != node ==>
      freq1[x] == freq[x] && depth1[x] == depth[x]
    requires forall k :: 2 <= k <= len ==> h[k] != node && h1[k] == h[k]
    requires len >= 1 ==> 0 <= h1[1] < |freq|
    ensures HeapFrom(h1, freq1, depth1, len, 2)
  {
    hide Smaller;
    forall k | 2 <= k <= len && k / 2 >= 2 ensures InOrder(h1, freq1, depth1, len, k) {
      assert InOrder(h, freq, depth, len, k);
      SameSmaller(freq, depth, freq1, depth1, h[k / 2], h[k], node);
    }
  }

  lemma SameSmaller(freq: seq<int>, depth: seq<int>, freq1: seq<int>, depth1: seq<int>, n: int, m: int, node: int)
    requires 0 <= n < |freq| && 0 <= m < |freq| && |depth| >= |freq| && n != node && m != node && |freq1| == |freq|
        && |depth1| == |depth|
    requires forall x :: 0 <= x < |freq| && x != node ==> freq1[x] == freq[x] && depth1[x] == depth[x]
    ensures Smaller(freq1, depth1, n, m) == Smaller(freq, depth, n, m)
  {
  }

  lemma BagHas(h: seq<int>, n: int)
    requires 0 <= n < |h|
    ensures forall k :: 1 <= k <= n ==> h[k] in Bag(h, n)
  {
    forall k | 1 <= k <= n ensures h[k] in Bag(h, n) { assert h[k] == h[1..n + 1][k - 1]; }
  }

  /** Frequencies are not negative. */
  ghost predicate NoneNegative(bag: multiset<int>, freq: seq<int>) {
    forall x :: x in bag ==> 0 <= x < |freq| && freq[x] >= 0
  }

  lemma SameBag(h: seq<int>, h1: seq<int>, n: int)
    requires 0 <= n < |h| == |h1| && forall k :: 1 <= k <= n ==> h1[k] == h[k]
    ensures Bag(h1, n) == Bag(h, n)
  {
    assert h1[1..n + 1] == h[1..n + 1];
  }

  /** The queue before the new node sinks: one merge is done. */
  ghost predicate Merged(h: seq<int>, freq: seq<int>, depth: seq<int>, dl: seq<int>, leaves: set<int>, elems: int,
      t: int) {
    && Sizes(h, freq, depth, dl, elems) && Occurring(leaves, elems) && 1 <= t < |leaves|
    && HeapFrom(h, freq, depth, |leaves| - t, 2)
    && Bag(h, |leaves| - t) + multiset(h[|h| - 2 * t..]) == multiset(Nodes(leaves, elems, t))
    && Taken(h, dl, elems, |h| - 2 * t) && Sorted(h, freq, |h| - 2 * t)
    && QueueAbove(Bag(h, |leaves| - t), freq, LastTaken(h, freq, |h| - 2 * t))
    && NoneNegative(Bag(h, |leaves| - t), freq)
  }

  /** In the middle of a merge: h0 at its beginning, h1 with n taken out. */
  ghost predicate Midway(h0: seq<int>, h1: seq<int>, freq: seq<int>, depth: seq<int>, dl: seq<int>, leaves: set<int>,
      elems: int, t: int, n: int) {
    && Merging(h0, freq, depth, dl, leaves, elems, t) && t + 1 < |leaves| && NoneNegative(Bag(h0, |leaves| - t), freq)
    && |h1| == |h0| && HeapFrom(h1, freq, depth, |leaves| - t - 1, 1) && LeastIn(Bag(h0, |leaves| - t), freq, depth, n)
    && Bag(h1, |leaves| - t - 1) == Bag(h0, |leaves| - t) - multiset{n}
    && forall k :: |leaves| - t < k < |h0| ==> h1[k] == h0[k]
  }

  /** The nodes n and m put away, and the new one in the root. */
  ghost function PutAway(h1: seq<int>, t: int, n: int, m: int, node: int): (h2: seq<int>)
    requires 0 <= t && 2 * t + 4 <= |h1|
    ensures |h2| == |h1|
  {
    h1[|h1| - 2 * t - 1 := n][|h1| - 2 * t - 2 := m][1 := node]
  }

  /** What is taken out. */
  lemma MidwayParts(h0: seq<int>, h1: seq<int>, freq: seq<int>, depth: seq<int>, dl: seq<int>, leaves: set<int>,
      elems: int, t: int, n: int)
    requires Midway(h0, h1, freq, depth, dl, leaves, elems, t, n)
    ensures 0 <= t && 1 <= |leaves| - t - 1 < |h0| - 2 * t - 2 && |h1| == |h0| && elems + t < |freq| == |dl|
        && |freq| <= |depth|
    ensures LeastIn(Bag(h1, |leaves| - t - 1), freq, depth, h1[1])
    ensures TookTwo(Bag(h0, |leaves| - t), freq, n, h1[1], Bag(h1, |leaves| - t - 1) - multiset{h1[1]})
  {
    hide HeapFrom, Bag, Taken, Sorted, QueueAbove, Nodes, LastTaken, Smaller, NoneNegative, TookTwo, LeastIn;
    LeastOfBag(h1, freq, depth, |leaves| - t - 1);
    TwoLeast(Bag(h0, |leaves| - t), Bag(h1, |leaves| - t - 1), freq, depth, n, h1[1]);
  }

  /** Both are old nodes and lie nowhere else. */
  lemma MidwayNodes(h0: seq<int>, h1: seq<int>, freq: seq<int>, depth: seq<int>, dl: seq<int>, leaves: set<int>,
      elems: int, t: int, n: int, m: int, rest: multiset<int>)
    requires Midway(h0, h1, freq, depth, dl, leaves, elems, t, n) && TookTwo(Bag(h0, |leaves| - t), freq, n, m, rest)
    ensures 0 <= n < elems + t && 0 <= m < elems + t && n !in h0[|h0| - 2 * t..] && m !in h0[|h0| - 2 * t..]
    ensures elems + t !in Bag(h0, |leaves| - t) && elems + t !in rest
    ensures forall k :: |h0| - 2 * t <= k < |h0| ==> h1[k] == h0[k] && h0[k] != n && h0[k] != m && h0[k] != elems + t
  {
    hide HeapFrom, Bag, Taken, Sorted, QueueAbove, Nodes, LastTaken, Smaller, NoneNegative, LeastIn;
    assert n in Bag(h0, |leaves| - t) && m in Bag(h0, |leaves| - t);
    NewNode(h0, freq, depth, dl, leaves, elems, t);
    QueuedNodes(h0, freq, depth, dl, leaves, elems, t, n);
    QueuedNodes(h0, freq, depth, dl, leaves, elems, t, m);
    forall k | |h0| - 2 * t <= k < |h0| ensures h0[k] != n
        && h0[k] != m { assert h0[k] == h0[|h0| - 2 * t..][k - (|h0| - 2 * t)]; }
  }

  lemma MidwayBags(h0: seq<int>, h1: seq<int>, freq: seq<int>, depth: seq<int>, dl: seq<int>, leaves: set<int>,
      elems: int, t: int, n: int)
    requires Midway(h0, h1, freq, depth, dl, leaves, elems, t, n)
    ensures |h1| == |h0| && 0 <= |leaves| - t < |h0| && 0 <= t && 2 * t + 4 <= |h0| && Occurring(leaves, elems)
    ensures Bag(h0, |leaves| - t) + multiset(h0[|h0| - 2 * t..]) == multiset(Nodes(leaves, elems, t))
  {
    hide HeapFrom, Bag, Taken, Sorted, QueueAbove, Nodes, LastTaken, Smaller, NoneNegative, LeastIn, TookTwo;
  }

  /** All nodes are still there, each once. */
  lemma {:induction false} MergeNodes(h0: seq<int>, h1: seq<int>, freq: seq<int>, depth: seq<int>, dl: seq<int>,
      leaves: set<int>, elems: int, t: int, n: int, m: int)
    requires Midway(h0, h1, freq, depth, dl, leaves, elems, t, n) && 0 <= t && 2 * t + 4 <= |h1| && m == h1[1]
    ensures var h2 := PutAway(h1, t, n, m, elems + t); var len := |leaves| - t - 1;
      && 0 <= len < |h2| && Bag(h2, len) == Bag(h1, len) - multiset{m} + multiset{elems + t}
      && Bag(h2, len) + multiset(h2[|h2| - 2 * (t + 1)..]) == multiset(Nodes(leaves, elems, t + 1))
  {
    hide *;
    MidwayBags(h0, h1, freq, depth, dl, leaves, elems, t, n);
    MidwayParts(h0, h1, freq, depth, dl, leaves, elems, t, n);
    var node, len, hm, h2 := elems + t, |leaves| - t - 1, |h0| - 2 * t, PutAway(h1, t, n, m, elems + t);
    var bag, rest := Bag(h0, len + 1), Bag(h1, len) - multiset{m};
    MidwayNodes(h0, h1, freq, depth, dl, leaves, elems, t, n, m, rest);
    MergeBag(h1, len, t, n, m, node);
    SliceAfter(h0, h1, t, n, m, node);
    TookBag(bag, freq, n, m, rest);
    BagsAfter(bag, rest, n, m, h0[hm..], h2[hm - 2..], node, multiset(Nodes(leaves, elems, t)));
    MoreNodes(leaves, elems, t);
  }

  lemma TookBag(bag: multiset<int>, freq: seq<int>, n: int, m: int, rest: multiset<int>)
    requires TookTwo(bag, freq, n, m, rest)
    ensures bag == rest + multiset{n, m}
  {
  }

  /** The nodes taken out stay sorted, below those in the queue. */
  lemma MidwayOrder(h0: seq<int>, h1: seq<int>, freq: seq<int>, depth: seq<int>, dl: seq<int>, leaves: set<int>,
      elems: int, t: int, n: int)
    requires Midway(h0, h1, freq, depth, dl, leaves, elems, t, n)
    ensures |h1| == |h0| && 0 <= |leaves| - t < |h0| && Taken(h0, dl, elems, |h0| - 2 * t)
        && Sorted(h0, freq, |h0| - 2 * t) && n in Bag(h0, |leaves| - t)
    ensures QueueAbove(Bag(h0, |leaves| - t), freq, LastTaken(h0, freq, |h0| - 2 * t))
        && NoneNegative(Bag(h0, |leaves| - t), freq)
  {
    hide HeapFrom, Bag, Taken, Sorted, QueueAbove, Nodes, LastTaken, Smaller, NoneNegative, TookTwo;
  }

  lemma {:induction false} MergeSorted(h0: seq<int>, h1: seq<int>, freq: seq<int>, depth: seq<int>, dl: seq<int>,
      leaves: set<int>, elems: int, t: int, n: int, m: int, freq1: seq<int>, dl1: seq<int>)
    requires Midway(h0, h1, freq, depth, dl, leaves, elems, t, n) && 0 <= t && 2 * t + 4 <= |h1| && m == h1[1]
    requires 0 <= m < |dl| && 0 <= n < |dl| == |freq| && elems + t < |freq|
        && freq1 == freq[elems + t := freq[n] + freq[m]] && dl1 == dl[n := elems + t][m := elems + t]
    ensures var h2 := PutAway(h1, t, n, m, elems + t); var bag := Bag(h1, |leaves| - t - 1) - multiset{m}
        + multiset{elems + t};
      && Taken(h2, dl1, elems, |h2| - 2 * (t + 1)) && Sorted(h2, freq1, |h2| - 2 * (t + 1))
      && QueueAbove(bag, freq1, LastTaken(h2, freq1, |h2| - 2 * (t + 1))) && NoneNegative(bag, freq1)
  {
    hide *;
    MidwayOrder(h0, h1, freq, depth, dl, leaves, elems, t, n);
    MidwayParts(h0, h1, freq, depth, dl, leaves, elems, t, n);
    var node, len, h2 := elems + t, |leaves| - t - 1, PutAway(h1, t, n, m, elems + t);
    var bag, rest := Bag(h0, len + 1), Bag(h1, len) - multiset{m};
    MidwayNodes(h0, h1, freq, depth, dl, leaves, elems, t, n, m, rest);
    TookParts(bag, freq, n, m, rest, node);
    PutAwayParts(h1, t, n, m, node);
    LastBelow(bag, freq, h0, |h0| - 2 * t, n);
    TakenAfter(h0, h2, dl, dl1, elems, t, n, m);
    SortedAfter(h0, h2, freq, freq1, t, n, m, node);
    QueueAfter(rest, freq, freq1, n, m, node);
    StillNonNegative(bag, rest, freq, n, m, node);
  }

  /** The order of the queue below its root is kept. */
  lemma {:induction false} MergeHeap(h0: seq<int>, h1: seq<int>, freq: seq<int>, depth: seq<int>, dl: seq<int>,
      leaves: set<int>, elems: int, t: int, n: int, m: int, freq1: seq<int>, depth1: seq<int>)
    requires Midway(h0, h1, freq, depth, dl, leaves, elems, t, n) && 0 <= t && 2 * t + 4 <= |h1| && m == h1[1]
    requires |freq1| == |freq| && |depth1| == |depth| && forall x :: 0 <= x < |freq| && x != elems + t ==>
      freq1[x] == freq[x] && x < |depth| && depth1[x] == depth[x]
    ensures HeapFrom(PutAway(h1, t, n, m, elems + t), freq1, depth1, |leaves| - t - 1, 2)
  {
    hide HeapFrom, Bag, Taken, Sorted, QueueAbove, Nodes, LastTaken, Smaller, NoneNegative, LeastIn, TookTwo;
    var node, len, h2 := elems + t, |leaves| - t - 1, PutAway(h1, t, n, m, elems + t);
    var bag1 := Bag(h1, len);
    MidwayParts(h0, h1, freq, depth, dl, leaves, elems, t, n);
    MidwayNodes(h0, h1, freq, depth, dl, leaves, elems, t, n, m, bag1 - multiset{m});
    BagHas(h1, len);
    HeapBounds(h1, freq, depth, len);
    NewRoot(h1, freq, depth, len, len, m);
    assert h1[1 := m] == h1;
    forall k | 2 <= k <= len ensures h1[k] != node && h2[k] == h1[k] { assert h1[k] in bag1; }
    OutsideNode(h1, freq, depth, len, freq1, depth1, node, h2);
  }

  /** One merge. */
  lemma {:induction false} MergeStep(h0: seq<int>, h1: seq<int>, freq: seq<int>, depth: seq<int>, dl: seq<int>,
      leaves: set<int>, elems: int, t: int, n: int, m: int, freq1: seq<int>, depth1: seq<int>, dl1: seq<int>)
    requires Midway(h0, h1, freq, depth, dl, leaves, elems, t, n) && 0 <= t && 2 * t + 4 <= |h1| && m == h1[1]
    requires 0 <= m < |dl| && 0 <= n < |dl| == |freq| && elems + t < |freq|
        && freq1 == freq[elems + t := freq[n] + freq[m]] && dl1 == dl[n := elems + t][m := elems + t]
    requires |depth1| == |depth| && forall x :: 0 <= x < |freq| && x != elems + t ==>
      x < |depth| && depth1[x] == depth[x]
    ensures Merged(PutAway(h1, t, n, m, elems + t), freq1, depth1, dl1, leaves, elems, t + 1)
  {
    hide HeapFrom, Bag, Taken, Sorted, QueueAbove, Nodes, LastTaken, Smaller, NoneNegative, LeastIn;
    MergeNodes(h0, h1, freq, depth, dl, leaves, elems, t, n, m);
    MergeSorted(h0, h1, freq, depth, dl, leaves, elems, t, n, m, freq1, dl1);
    MergeHeap(h0, h1, freq, depth, dl, leaves, elems, t, n, m, freq1, depth1);
  }

  lemma LastBelow(bag: multiset<int>, freq: seq<int>, h: seq<int>, hm: int, n: int)
    requires QueueAbove(bag, freq, LastTaken(h, freq, hm)) && n in bag
    ensures 0 <= n < |freq| && LastTaken(h, freq, hm) <= freq[n]
  {
  }

  lemma TookParts(bag: multiset<int>, freq: seq<int>, n: int, m: int, rest: multiset<int>, node: int)
    requires TookTwo(bag, freq, n, m, rest) && NoneNegative(bag, freq) && node !in bag
    ensures bag == rest + multiset{n, m} && 0 <= n < |freq| && 0 <= m < |freq| && freq[n] <= freq[m] && 0 <= freq[n]
        && n in bag && m in bag
    ensures forall x :: x in rest ==> 0 <= x < |freq| && freq[m] <= freq[x]
    ensures node !in rest && n != node && m != node
  {
    assert n in bag && m in bag;
  }

  lemma StillNonNegative(bag: multiset<int>, rest: multiset<int>, freq: seq<int>, n: int, m: int, node: int)
    requires NoneNegative(bag, freq) && bag == rest + multiset{n, m} && node !in rest && 0 <= node < |freq|
        && 0 <= n < |freq| && 0 <= m < |freq|
    requires 0 <= freq[n] <= freq[m]
    ensures NoneNegative(rest + multiset{node}, freq[node := freq[n] + freq[m]])
  {
    forall x | x in rest + multiset{node} ensures 0 <= x < |freq| && freq[node := freq[n] + freq[m]][x] >= 0 {
      if x != node { assert x in bag; }
    }
  }

  lemma MergeBag(h1: seq<int>, len: int, t: int, n: int, m: int, node: int)
    requires 0 <= t && 2 * t + 4 <= |h1| && 1 <= len < |h1| - 2 * t - 2 && m == h1[1]
    ensures Bag(PutAway(h1, t, n, m, node), len) == Bag(h1, len) - multiset{m} + multiset{node}
  {
    hide Bag;
    ReplaceFirst(h1, len, node);
    SameBag(h1[1 := node], PutAway(h1, t, n, m, node), len);
  }

  lemma SliceAfter(h0: seq<int>, h1: seq<int>, t: int, n: int, m: int, node: int)
    requires 0 <= t && 2 * t + 4 <= |h1| == |h0| && forall k :: |h0| - 2 * t <= k < |h0| ==> h1[k] == h0[k]
    ensures PutAway(h1, t, n, m, node)[|h1| - 2 * (t + 1)..] == [m, n] + h0[|h0| - 2 * t..]
  {
    var hm, h2 := |h0| - 2 * t, PutAway(h1, t, n, m, node);
    assert h2[hm..] == h0[hm..];
    assert h2[hm - 2..] == [h2[hm - 2], h2[hm - 1]] + h2[hm..];
  }

  /** Where the nodes are put. */
  lemma PutAwayParts(h1: seq<int>, t: int, n: int, m: int, node: int)
    requires 0 <= t && 2 * t + 4 <= |h1|
    ensures var h2 := PutAway(h1, t, n, m, node);
      h2[|h1| - 2 * t - 1] == n && h2[|h1| - 2 * t - 2] == m && forall k :: |h1| - 2 * t <= k < |h1| ==> h2[k] == h1[k]
  {
  }

  // ---- the frequencies of the inner nodes ----

  /** Inner node u is as frequent as the two that were merged into it. */
  ghost predicate SumAt(h: seq<int>, freq: seq<int>, elems: int, u: int) {
    && 0 <= u && 2 * u + 2 <= |h| && 0 <= elems && elems + u < |freq|
    && 0 <= h[|h| - 1 - 2 * u] < elems + u && 0 <= h[|h| - 2 - 2 * u] < elems + u
    && freq[elems + u] == freq[h[|h| - 1 - 2 * u]] + freq[h[|h| - 2 - 2 * u]]
  }

  ghost predicate Summed(h: seq<int>, freq: seq<int>, elems: int, t: int) {
    0 <= t && 2 * t <= |h| && forall u :: 0 <= u < t ==> SumAt(h, freq, elems, u)
  }

  lemma SummedNext(h: seq<int>, freq: seq<int>, elems: int, t: int, n: int, m: int, h1: seq<int>, freq1: seq<int>)
    requires Summed(h, freq, elems, t) && |h1| == |h| && 2 * t + 2 <= |h| && 0 <= elems && elems + t < |freq|
    requires 0 <= n < elems + t && 0 <= m < elems + t && freq1 == freq[elems + t := freq[n] + freq[m]]
    requires h1[|h| - 1 - 2 * t] == n && h1[|h| - 2 - 2 * t] == m
        && forall k :: |h| - 2 * t <= k < |h| ==> h1[k] == h[k]
    ensures Summed(h1, freq1, elems, t + 1)
  {
    forall u | 0 <= u < t + 1 ensures SumAt(h1, freq1, elems, u) {
      if u < t { assert SumAt(h, freq, elems, u); }
    }
  }

  lemma SummedKept(h: seq<int>, freq: seq<int>, elems: int, t: int, h1: seq<int>)
    requires Summed(h, freq, elems, t) && |h1| == |h| && forall k :: |h| - 2 * t <= k < |h| ==> h1[k] == h[k]
    ensures Summed(h1, freq, elems, t)
  {
    forall u | 0 <= u < t ensures SumAt(h1, freq, elems, u) { assert SumAt(h, freq, elems, u); }
  }

  lemma {:induction false} SummedMerge(h0: seq<int>, h1: seq<int>, freq: seq<int>, depth: seq<int>, dl: seq<int>,
      leaves: set<int>, elems: int, t: int, n: int, m: int, freq1: seq<int>)
    requires Midway(h0, h1, freq, depth, dl, leaves, elems, t, n) && 0 <= t && 2 * t + 4 <= |h1| && m == h1[1]
    requires 0 <= m < |freq| && 0 <= n < |freq| && 0 <= elems && elems + t < |freq|
        && freq1 == freq[elems + t := freq[n] + freq[m]] && Summed(h0, freq, elems, t)
    ensures Summed(PutAway(h1, t, n, m, elems + t), freq1, elems, t + 1)
  {
    hide *;
    MidwayParts(h0, h1, freq, depth, dl, leaves, elems, t, n);
    MidwayNodes(h0, h1, freq, depth, dl, leaves, elems, t, n, m, Bag(h1, |leaves| - t - 1) - multiset{m});
    PutAwayParts(h1, t, n, m, elems + t);
    SummedNext(h0, freq, elems, t, n, m, PutAway(h1, t, n, m, elems + t), freq1);
  }
}

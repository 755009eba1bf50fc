/** The entries of a heap kept in an array from position 1 on, as both Huffman coders keep one. */
module HeapArrays {

  /** The nodes in the queue. */
  ghost function Bag(h: seq<int>, n: int): multiset<int>
    requires 0 <= n < |h|
  {
    multiset(h[1..n + 1])
  }

  ghost function Swap(h: seq<int>, i: int, j: int): (t: seq<int>)
    requires 0 <= i < |h| && 0 <= j < |h|
    ensures |t| == |h|
    ensures forall k :: 0 <= k < |h| ==> t[k] == if k == i then h[j] else if k == j then h[i] else h[k]
  {
    h[i := h[j]][j := h[i]]
  }

  lemma SwapKeeps(h: seq<int>, i: int, j: int, n: int)
    requires 1 <= i < j <= n < |h|
    ensures Bag(Swap(h, i, j), n) == Bag(h, n)
  {
    var s, t := h[1..n + 1], Swap(h, i, j)[1..n + 1];
    assert s == s[..i - 1] + [h[i]] + s[i..j - 1] + [h[j]] + s[j..];
    assert t == s[..i - 1] + [h[j]] + s[i..j - 1] + [h[i]] + s[j..];
  }

  /** The last entry replaces the first one. */
  lemma RemoveFirst(h: seq<int>, n: int)
    requires 1 <= n < |h|
    ensures Bag(h[1 := h[n]], n - 1) == Bag(h, n) - multiset{h[1]}
  {
    var t := h[1 := h[n]];
    if n == 1 {
      assert t[1..n] == [] && h[1..n + 1] == [h[1]];
    } else {
      RemovedSlices(h, n);
      LessOne(h[2..n], h[1], h[n]);
    }
  }

  lemma RemovedSlices(h: seq<int>, n: int)
    requires 2 <= n < |h|
    ensures h[1 := h[n]][1..n] == [h[n]] + h[2..n] && h[1..n + 1] == [h[1]] + h[2..n] + [h[n]]
  {
  }

  lemma LessOne(s: seq<int>, x: int, y: int)
    ensures multiset([y] + s) == multiset([x] + s + [y]) - multiset{x}
  {
    assert multiset([x] + s + [y]) == multiset{x} + multiset(s) + multiset{y};
    assert multiset([y] + s) == multiset{y} + multiset(s);
  }
}

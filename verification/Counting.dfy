/** Counting occurrences, and the place each item takes in a stable counting sort. */
module Counting {
  import opened Bytes
  import opened Permutations

  function Count(s: seq<int>, c: int): (k: nat)
    ensures k <= |s|
  {
    if s == [] then 0
    else Count(s[..|s| - 1], c) + if s[|s| - 1] == c then 1 else 0
  }

  function CountBelow(s: seq<int>, c: int): (k: nat)
    ensures k <= |s|
  {
    if s == [] then 0
    else CountBelow(s[..|s| - 1], c) + if s[|s| - 1] < c then 1 else 0
  }

  /** Row of the byte L[i] in the first column, equal bytes keeping their order. */
  function StableIndex(l: seq<int>, i: int): nat
    requires 0 <= i < |l|
  {
    CountBelow(l, l[i]) + Count(l[..i], l[i])
  }

  lemma {:induction false} BelowNext(s: seq<int>, c: int)
    ensures CountBelow(s, c + 1) == CountBelow(s, c) + Count(s, c)
  {
    if s != [] { BelowNext(s[..|s| - 1], c); }
  }

  lemma {:induction false} BelowMonotone(s: seq<int>, c: int, d: int)
    requires c <= d
    ensures CountBelow(s, c) <= CountBelow(s, d)
  {
    if s != [] { BelowMonotone(s[..|s| - 1], c, d); }
  }

  lemma {:induction false} BelowAll(s: seq<int>, m: int)
    requires forall i :: 0 <= i < |s| ==> 0 <= s[i] < m
    ensures CountBelow(s, 0) == 0 && CountBelow(s, m) == |s|
  {
    if s != [] { BelowAll(s[..|s| - 1], m); }
  }

  lemma {:induction false} BelowEnds(s: seq<Byte>)
    ensures CountBelow(s, 0) == 0 && CountBelow(s, 256) == |s|
  {
    BelowAll(s, 256);
  }

  lemma {:induction false} CountPrefix(s: seq<int>, i: int, c: int)
    requires 0 <= i <= |s|
    ensures Count(s[..i], c) <= Count(s, c)
    ensures i < |s| && s[i] == c ==> Count(s[..i], c) < Count(s, c)
  {
    if i < |s| {
      var t := s[..|s| - 1];
      assert t[..i] == s[..i];
      CountPrefix(t, i, c);
    } else {
      assert s[..i] == s;
    }
  }

  /** StableIndex is order preserving on (byte, row) pairs, hence injective and onto. */
  lemma {:induction false} StableOrder(l: seq<int>, i: int, j: int)
    requires 0 <= i < |l| && 0 <= j < |l|
    requires l[i] < l[j] || (l[i] == l[j] && i < j)
    ensures StableIndex(l, i) < StableIndex(l, j)
  {
    CountPrefix(l, i, l[i]);
    if l[i] < l[j] {
      var c: int := l[i];
      BelowNext(l, c);
      BelowMonotone(l, c + 1, l[j]);
    } else {
      assert l[..j][..i] == l[..i];
      CountPrefix(l[..j], i, l[i]);
    }
  }

  /** StableIndex(i) lies in the part of the first column that holds the byte L[i]. */
  lemma {:induction false} StableBucket(l: seq<int>, i: int)
    requires 0 <= i < |l|
    ensures var c: int := l[i]; CountBelow(l, c) <= StableIndex(l, i) < CountBelow(l, c + 1) <= |l|
  {
    var c: int := l[i];
    CountPrefix(l, i, c);
    BelowNext(l, c);
  }

  ghost function StableVector(l: seq<int>): (t: seq<int>)
    ensures IsPermutation(t, |l|)
    ensures forall i :: 0 <= i < |l| ==> t[i] == StableIndex(l, i)
  {
    var t := seq(|l|, i requires 0 <= i < |l| => StableIndex(l, i));
    assert IsPermutation(t, |l|) by {
      forall i | 0 <= i < |l| ensures 0 <= t[i] < |l| { StableBucket(l, i); }
      forall i, j | 0 <= i < j < |l| ensures t[i] != t[j] {
        if l[i] <= l[j] { StableOrder(l, i, j); } else { StableOrder(l, j, i); }
      }
    }
    t
  }
}

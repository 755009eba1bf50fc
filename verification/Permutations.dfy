/** Permutations of [0, n) given as sequences of indices, the form in which the
    block sorter hands over its result. */
module Permutations {

  ghost predicate InRange(p: seq<int>, n: nat) {
    forall i :: 0 <= i < |p| ==> 0 <= p[i] < n
  }

  ghost predicate Distinct<T(!new)>(p: seq<T>) {
    forall i, j :: 0 <= i < j < |p| ==> p[i] != p[j]
  }

  ghost predicate IsPermutation(p: seq<int>, n: nat) {
    |p| == n && InRange(p, n) && Distinct(p)
  }

  /** The indices below n, as a set. */
  ghost function Below(n: nat): (s: set<int>)
    ensures |s| == n && forall i :: i in s <==> 0 <= i < n
  {
    if n == 0 then {} else Below(n - 1) + {n - 1}
  }

  lemma {:induction false} DistinctCardinality<T(!new)>(p: seq<T>)
    requires Distinct(p)
    ensures |set x | x in p| == |p|
  {
    if p != [] {
      var q := p[..|p| - 1];
      DistinctCardinality(q);
      assert (set x | x in p) == (set x | x in q) + {p[|p| - 1]};
    }
  }

  /** Distinct indices below n cannot be more than n, and n of them leave no index out. */
  lemma Pigeonhole(p: seq<int>, n: nat)
    requires InRange(p, n) && Distinct(p)
    ensures |p| <= n
    ensures |p| == n ==> forall v :: 0 <= v < n ==> v in p
  {
    var all, elems := Below(n), set x | x in p;
    DistinctCardinality(p);
    assert elems <= all;
    CardinalitySubset(elems, all);
    if |p| == n {
      assert elems == all;
      forall v | 0 <= v < n ensures v in p { assert v in all; }
    }
  }

  lemma {:induction false} CardinalitySubset<T>(a: set<T>, b: set<T>)
    requires a <= b
    ensures |a| <= |b| && (|a| == |b| ==> a == b)
    decreases b
  {
    if a == {} {
    } else {
      var x :| x in a;
      CardinalitySubset(a - {x}, b - {x});
      if |a| == |b| { assert a == (a - {x}) + {x}; }
    }
  }

  /** The row holding v: the inverse permutation. */
  ghost function IndexOf(p: seq<int>, v: int): (k: nat)
    requires v in p
    ensures k < |p| && p[k] == v
  {
    var k :| 0 <= k < |p| && p[k] == v; k
  }

  ghost function Inverse(p: seq<int>): (q: seq<int>)
    requires IsPermutation(p, |p|)
    ensures IsPermutation(q, |p|)
    ensures forall i :: 0 <= i < |p| ==> p[q[i]] == i && q[p[i]] == i
  {
    Pigeonhole(p, |p|);
    seq(|p|, i requires 0 <= i < |p| => IndexOf(p, i))
  }

  ghost function Pick<T>(s: seq<T>, p: seq<int>): (t: seq<T>)
    requires InRange(p, |s|)
    ensures |t| == |p| && forall i :: 0 <= i < |p| ==> t[i] == s[p[i]]
  {
    seq(|p|, i requires 0 <= i < |p| => s[p[i]])
  }

  /** Reading a sequence in permuted order keeps its multiset. */
  lemma {:induction false} PickMultiset<T>(s: seq<T>, p: seq<int>)
    requires IsPermutation(p, |s|)
    ensures multiset(Pick(s, p)) == multiset(s)
    decreases |s|
  {
    if s == [] {
      assert Pick(s, p) == [];
    } else {
      var m := |s| - 1;
      Pigeonhole(p, |s|);
      var k := IndexOf(p, m);
      var q := p[..k] + p[k + 1..];
      var s0 := s[..m];
      assert IsPermutation(q, m);
      PickMultiset(s0, q);
      var t := Pick(s, p);
      assert t == t[..k] + [s[m]] + t[k + 1..];
      assert Pick(s0, q) == t[..k] + t[k + 1..];
      assert s == s0 + [s[m]];
    }
  }
}

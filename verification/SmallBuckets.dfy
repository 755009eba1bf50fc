/** Small buckets: rows grouped by their first two bytes. */
module SmallBuckets {
  import opened Permutations
  import opened Rotations

  ghost predicate IsBytes(b: seq<int>) { forall x :: 0 <= x < |b| ==> 0 <= b[x] < 256 }

  /** Number of the small bucket of rotation x. */
  function Key(b: seq<int>, x: int): (k: int)
    requires 0 <= x < |b|
  {
    256 * b[x] + b[Next(x, |b|)]
  }

  lemma KeyBytes(b: seq<int>, x: int, t: int, c: int)
    requires IsBytes(b) && 0 <= x < |b| && 0 <= c < 256
    ensures 0 <= Key(b, x) < 65536
    ensures Key(b, x) == 256 * t + c <==> b[x] == t && b[Next(x, |b|)] == c
    ensures Key(b, x) < 256 * t + c <==> b[x] < t || (b[x] == t && b[Next(x, |b|)] < c)
  {
  }

  /** start[i] is where bucket i begins. */
  ghost predicate Starts(start: seq<int>, n: nat) {
    && |start| == 65537 && start[0] == 0 && start[65536] == n
    && forall i, j :: 0 <= i <= j <= 65536 ==> start[i] <= start[j]
  }

  ghost predicate InSmall(b: seq<int>, start: seq<int>, x: int, k: int)
    requires |start| == 65537 && IsBytes(b) && 0 <= x < |b|
  {
    start[Key(b, x)] <= k < start[Key(b, x) + 1]
  }

  /** Every row stands in the bucket of its rotation. */
  ghost predicate Grouped(b: seq<int>, start: seq<int>, p: seq<int>) {
    && IsBytes(b) && Starts(start, |b|) && IsPermutation(p, |b|)
    && forall k :: 0 <= k < |p| ==> InSmall(b, start, p[k], k)
  }

  lemma GroupedParts(b: seq<int>, start: seq<int>, p: seq<int>)
    requires Grouped(b, start, p)
    ensures IsBytes(b) && |start| == 65537 && IsPermutation(p, |b|)
  {
  }

  lemma StartsMonotone(start: seq<int>, n: nat, i: int, j: int)
    requires Starts(start, n) && 0 <= i <= j <= 65536
    ensures 0 <= start[i] <= start[j] <= n
  {
  }

  /** A position decides the bucket. */
  lemma {:induction false} KeyAt(b: seq<int>, start: seq<int>, p: seq<int>, k: int, i: int, j: int)
    requires Grouped(b, start, p) && 0 <= i < j <= 65536 && start[i] <= k < start[j]
    ensures 0 <= k < |p| && 0 <= p[k] < |b| && i <= Key(b, p[k]) < j
  {
    hide Distinct;
    StartsMonotone(start, |b|, i, j);
    StartsMonotone(start, |b|, j, 65536);
    assert InSmall(b, start, p[k], k);
    var key := Key(b, p[k]);
    KeyBytes(b, p[k], 0, 0);
  }

  /** Every rotation has a position, in its bucket. */
  lemma {:induction false} PlaceOfKey(b: seq<int>, start: seq<int>, p: seq<int>, x: int, i: int, j: int)
    returns (k: int)
    requires Grouped(b, start, p) && 0 <= x < |b| && 0 <= i <= Key(b, x) < j <= 65536
    ensures start[i] <= k < start[j] && 0 <= k < |p| && p[k] == x
  {
    Pigeonhole(p, |b|);
    k := IndexOf(p, x);
    assert InSmall(b, start, p[k], k);
    StartsMonotone(start, |b|, i, Key(b, x));
    StartsMonotone(start, |b|, Key(b, x) + 1, j);
  }

  lemma {:induction false} DistinctFits(w: seq<int>, s: seq<int>)
    requires Distinct(w) && forall i :: 0 <= i < |w| ==> w[i] in s
    ensures |w| <= |s|
  {
    DistinctCardinality(w);
    var ws, ss := set x | x in w, set x | x in s;
    SetOfSeq(s);
    CardinalitySubset(ws, ss);
  }

  lemma {:induction false} SetOfSeq(s: seq<int>)
    ensures |set x | x in s| <= |s|
  {
    if s != [] {
      var t := s[..|s| - 1];
      SetOfSeq(t);
      assert (set x | x in s) == (set x | x in t) + {s[|s| - 1]};
    }
  }

  /** All of w has first bytes t and c. */
  ghost predicate AllOf(b: seq<int>, w: seq<int>, t: int, c: int) {
    InRange(w, |b|) && forall i :: 0 <= i < |w| ==> b[w[i]] == t && b[Next(w[i], |b|)] == c
  }

  ghost predicate ByteValue(t: int) { 0 <= t < 256 }

  /** No more distinct rotations with bytes t, c than their bucket holds. */
  lemma {:induction false} BucketHolds(b: seq<int>, start: seq<int>, p: seq<int>, w: seq<int>, t: int, c: int)
    requires Grouped(b, start, p) && AllOf(b, w, t, c) && Distinct(w) && ByteValue(t) && ByteValue(c)
    ensures 0 <= start[256 * t + c] <= start[256 * t + c + 1] <= |p|
    ensures |w| <= start[256 * t + c + 1] - start[256 * t + c]
  {
    hide Distinct, Grouped;
    GroupedParts(b, start, p);
    var key := 256 * t + c;
    GroupedStarts(b, start, p, key);
    var slice := p[start[key]..start[key + 1]];
    forall i | 0 <= i < |w| ensures w[i] in slice {
      KeyBytes(b, w[i], t, c);
      var k := PlaceOfKey(b, start, p, w[i], key, key + 1);
      assert slice[k - start[key]] == w[i];
    }
    DistinctFits(w, slice);
  }

  lemma GroupedStarts(b: seq<int>, start: seq<int>, p: seq<int>, i: int)
    requires Grouped(b, start, p) && 0 <= i < 65536
    ensures 0 <= start[i] <= start[i + 1] <= |b| == |p|
  {
  }

  /** A list that has every rotation with bytes t, c is at least as long as their bucket. */
  lemma {:induction false} BucketNeeds(b: seq<int>, start: seq<int>, p: seq<int>, w: seq<int>, t: int, c: int)
    requires Grouped(b, start, p) && ByteValue(t) && ByteValue(c)
    requires forall x :: 0 <= x < |b| && b[x] == t && b[Next(x, |b|)] == c ==> x in w
    ensures 0 <= start[256 * t + c] <= start[256 * t + c + 1] <= |p|
    ensures |w| >= start[256 * t + c + 1] - start[256 * t + c]
  {
    hide Grouped;
    GroupedParts(b, start, p);
    var key := 256 * t + c;
    GroupedStarts(b, start, p, key);
    var slice := p[start[key]..start[key + 1]];
    forall i | 0 <= i < |slice| ensures slice[i] in w {
      KeyAt(b, start, p, start[key] + i, key, key + 1);
      KeyBytes(b, slice[i], t, c);
    }
    DistinctFits(slice, w);
  }
}

/** The start of mainSort: the radix sort of the rotations by their first two bytes. */
module TwoByteRadix {
  import opened Permutations
  import opened Rotations
  import opened Counting
  import opened SmallBuckets

  /** The small bucket of every rotation. */
  ghost function Keys(b: seq<int>): (s: seq<int>)
    ensures |s| == |b| && forall x :: 0 <= x < |b| ==> s[x] == Key(b, x)
  {
    seq(|b|, x requires 0 <= x < |b| => Key(b, x))
  }

  lemma KeysBounded(b: seq<int>)
    requires IsBytes(b)
    ensures forall x :: 0 <= x < |Keys(b)| ==> 0 <= Keys(b)[x] < 65536
  {
    forall x | 0 <= x < |b| ensures 0 <= Keys(b)[x] < 65536 { KeyBytes(b, x, 0, 0); }
  }

  /** Where the buckets begin. */
  ghost predicate BucketStarts(s: seq<int>, start: seq<int>) {
    |start| == 65537 && forall k :: 0 <= k <= 65536 ==> start[k] == CountBelow(s, k)
  }

  lemma {:induction false} StartsOfKeys(b: seq<int>, start: seq<int>)
    requires IsBytes(b) && BucketStarts(Keys(b), start)
    ensures Starts(start, |b|)
  {
    hide CountBelow;
    KeysBounded(b);
    BelowAll(Keys(b), 65536);
    forall i, j | 0 <= i <= j <= 65536 ensures start[i] <= start[j] { BelowMonotone(Keys(b), i, j); }
  }

  /** All rotations placed by a stable counting sort are grouped. */
  lemma {:induction false} PlacedIsGrouped(b: seq<int>, start: seq<int>, p: seq<int>)
    requires IsBytes(b) && BucketStarts(Keys(b), start) && |p| == |b|
    requires forall i :: 0 <= i < |b| ==> 0 <= StableIndex(Keys(b), i) < |b| && p[StableIndex(Keys(b), i)] == i
    ensures Grouped(b, start, p)
  {
    hide CountBelow, Count, StableIndex, Key;
    var s := Keys(b);
    StartsOfKeys(b, start);
    KeysBounded(b);
    var t := StableVector(s);
    var q := Inverse(t);
    forall k | 0 <= k < |b| ensures p[k] == q[k] { assert t[q[k]] == k; }
    assert p == q;
    forall k | 0 <= k < |p| ensures InSmall(b, start, p[k], k) {
      StableBucket(s, p[k]);
      assert t[q[k]] == k;
      assert s[p[k]] == Key(b, p[k]);
    }
  }

  // ---- counting down ----

  /** The two bytes at i, given those at its successor. */
  lemma PairAt(b: seq<int>, i: int, j: int)
    requires IsBytes(b) && 0 <= i < |b| && j / 256 == b[Next(i, |b|)]
    ensures j / 256 + 256 * b[i] == Key(b, i) && Key(b, i) / 256 == b[i] && 0 <= Key(b, i) < 65536
  {
  }

  /** Counts of the rotations from i + 1 on. */
  ghost predicate CountedDown(s: seq<int>, ftab: seq<int>, i: int)
    requires -1 <= i < |s|
  {
    |ftab| == 65537 && ftab[65536] == 0 && forall k :: 0 <= k < 65536 ==> ftab[k] == Count(s, k) - Count(s[..i + 1], k)
  }

  lemma {:induction false} CountDownStep(s: seq<int>, ftab: seq<int>, i: int)
    requires 0 <= i < |s| && CountedDown(s, ftab, i) && 0 <= s[i] < 65536
    ensures CountedDown(s, ftab[s[i] := ftab[s[i]] + 1], i - 1)
  {
    assert s[..i + 1][..i] == s[..i];
  }

  lemma {:induction false} CountDownEnds(s: seq<int>, ftab: seq<int>)
    ensures |ftab| == 65537 && (forall k :: 0 <= k <= 65536 ==> ftab[k] == 0) ==> CountedDown(s, ftab, |s| - 1)
    ensures CountedDown(s, ftab, -1) ==> forall k :: 0 <= k < 65536 ==> ftab[k] == Count(s, k)
  {
    assert s[..|s|] == s && s[..0] == [];
  }

  /** The two-byte frequency table, with the quadrants cleared on the way; the source
      unrolls this loop by four. */
  method CountPairs(block: array<int>, quadrant: array<int>, ftab: array<int>, nblock: int, ghost b: seq<int>)
    requires block != quadrant && block != ftab && quadrant != ftab && ftab.Length == 65537
    requires 0 < nblock == |b| <= block.Length && nblock <= quadrant.Length && block[..nblock] == b && IsBytes(b)
    modifies quadrant, ftab
    ensures ftab[65536] == 0 && forall k :: 0 <= k < 65536 ==> ftab[k] == Count(Keys(b), k)
    ensures forall x :: 0 <= x < nblock ==> quadrant[x] == 0
  {
    hide CountedDown, Count, Keys, Key, IsBytes;
    var i := 65536;
    while i >= 0
      modifies ftab
      invariant -1 <= i <= 65536 && forall k :: i < k <= 65536 ==> ftab[k] == 0
    {
      ftab[i] := 0;
      i := i - 1;
    }
    ghost var s := Keys(b);
    CountDownEnds(s, ftab[..]);
    KeysBounded(b);
    BytePair(b, 0);
    assert block[0] == b[0];
    var j := block[0] * 256;
    i := nblock - 1;
    while i >= 0
      invariant -1 <= i < nblock && CountedDown(s, ftab[..], i) && 0 <= j
      invariant j / 256 == if i == nblock - 1 then b[0] else b[i + 1]
      invariant forall x :: i < x < nblock ==> quadrant[x] == 0
    {
      quadrant[i] := 0;
      PairAt(b, i, j);
      assert block[i] == b[i] && s[i] == Key(b, i);
      BytePair(b, i);
      j := j / 256 + block[i] * 256;
      CountDownStep(s, ftab[..], i);
      ghost var before := ftab[..];
      ftab[j] := ftab[j] + 1;
      assert ftab[..] == before[s[i] := before[s[i]] + 1];
      i := i - 1;
    }
    CountDownEnds(s, ftab[..]);
    CountTop(s, ftab[..]);
  }

  lemma BytePair(b: seq<int>, i: int)
    requires IsBytes(b) && 0 <= i < |b|
    ensures 0 <= b[i] < 256
  {
  }

  lemma CountTop(s: seq<int>, ftab: seq<int>)
    requires CountedDown(s, ftab, -1)
    ensures ftab[65536] == 0
  {
  }

  /** Turns the counts into the upper ends of the buckets. */
  method SumUp(ftab: array<int>, ghost s: seq<int>)
    requires ftab.Length == 65537 && ftab[65536] == 0 && forall k :: 0 <= k < 65536 ==> ftab[k] == Count(s, k)
    requires forall x :: 0 <= x < |s| ==> 0 <= s[x] < 65536
    modifies ftab
    ensures ftab[65536] == |s| && forall k :: 0 <= k < 65536 ==> ftab[k] == CountBelow(s, k + 1)
  {
    hide Count, CountBelow;
    BelowAll(s, 65536);
    BelowNext(s, 0);
    var i := 1;
    while i <= 65536
      invariant 1 <= i <= 65537
      invariant forall k :: 0 <= k < i && k < 65536 ==> ftab[k] == CountBelow(s, k + 1)
      invariant forall k :: i <= k < 65536 ==> ftab[k] == Count(s, k)
      invariant ftab[65536] == if i <= 65536 then 0 else |s|
    {
      if i < 65536 { BelowNext(s, i); } else { assert ftab[65535] == CountBelow(s, 65536); }
      ftab[i] := ftab[i] + ftab[i - 1];
      i := i + 1;
    }
  }

  /** Upper ends of the free parts of the buckets once the rotations from i + 1 on are placed. */
  ghost predicate RoomDown(s: seq<int>, ftab: seq<int>, i: int)
    requires -1 <= i < |s|
  {
    && |ftab| == 65537 && ftab[65536] == |s|
    && forall k :: 0 <= k < 65536 ==> ftab[k] == CountBelow(s, k) + Count(s[..i + 1], k)
  }

  lemma {:induction false} RoomDownStart(s: seq<int>, ftab: seq<int>)
    requires |ftab| == 65537 && ftab[65536] == |s| && forall k :: 0 <= k < 65536 ==> ftab[k] == CountBelow(s, k + 1)
    ensures RoomDown(s, ftab, |s| - 1)
  {
    hide Count, CountBelow;
    assert s[..|s|] == s;
    forall k | 0 <= k < 65536 ensures ftab[k] == CountBelow(s, k) + Count(s, k) { BelowNext(s, k); }
  }

  lemma {:induction false} RoomDownStep(s: seq<int>, ftab: seq<int>, i: int)
    requires 0 <= i < |s| && RoomDown(s, ftab, i) && 0 <= s[i] < 65536
    ensures ftab[s[i]] - 1 == StableIndex(s, i) && RoomDown(s, ftab[s[i] := ftab[s[i]] - 1], i - 1)
  {
    hide CountBelow;
    assert s[..i + 1][..i] == s[..i];
  }

  lemma {:induction false} RoomDownEnd(s: seq<int>, ftab: seq<int>)
    requires RoomDown(s, ftab, -1) && forall x :: 0 <= x < |s| ==> 0 <= s[x] < 65536
    ensures BucketStarts(s, ftab)
  {
    hide CountBelow;
    assert s[..0] == [];
    BelowAll(s, 65536);
  }

  ghost predicate PlacedDown(s: seq<int>, p: seq<int>, i: int)
    requires -1 <= i < |s|
  {
    |p| == |s| && forall x :: i < x < |s| ==> 0 <= StableIndex(s, x) < |s| && p[StableIndex(s, x)] == x
  }

  lemma {:induction false} PlacedDownStep(s: seq<int>, p: seq<int>, i: int)
    requires 0 <= i < |s| && PlacedDown(s, p, i)
    ensures 0 <= StableIndex(s, i) < |s| && PlacedDown(s, p[StableIndex(s, i) := i], i - 1)
  {
    hide StableIndex, Count, CountBelow;
    var t := StableVector(s);
    StableBucket(s, i);
    forall x | i < x < |s| ensures StableIndex(s, x) != StableIndex(s, i) { assert t[i] != t[x]; }
  }

  /** The placing loop, from the last rotation down; ftab ends as the bucket starts. */
  method PlacePairs(block: array<int>, ftab: array<int>, ptr: array<int>, nblock: int, ghost b: seq<int>)
    requires block != ftab && block != ptr && ptr != ftab && ftab.Length == 65537 && ptr.Length == nblock
    requires 0 < nblock == |b| <= block.Length && block[..nblock] == b && IsBytes(b)
    requires ftab[65536] == nblock && forall k :: 0 <= k < 65536 ==> ftab[k] == CountBelow(Keys(b), k + 1)
    modifies ftab, ptr
    ensures BucketStarts(Keys(b), ftab[..]) && Grouped(b, ftab[..], ptr[..])
  {
    hide RoomDown, PlacedDown, Keys, Key, IsBytes, StableIndex, CountBelow, Count, Grouped, BucketStarts;
    ghost var s := Keys(b);
    KeysBounded(b);
    RoomDownStart(s, ftab[..]);
    PlacedNone(s, ptr[..]);
    BytePair(b, 0);
    assert block[0] == b[0];
    var j := block[0] * 256;
    var i := nblock - 1;
    while i >= 0
      invariant -1 <= i < nblock && 0 <= j && RoomDown(s, ftab[..], i) && PlacedDown(s, ptr[..], i)
      invariant j / 256 == if i == nblock - 1 then b[0] else b[i + 1]
    {
      PairAt(b, i, j);
      assert block[i] == b[i] && s[i] == Key(b, i);
      BytePair(b, i);
      j := j / 256 + block[i] * 256;
      RoomDownStep(s, ftab[..], i);
      PlacedDownStep(s, ptr[..], i);
      ghost var ft, p := ftab[..], ptr[..];
      var k := ftab[j] - 1;
      ftab[j] := k;
      ptr[k] := i;
      assert ftab[..] == ft[s[i] := k] && ptr[..] == p[k := i];
      i := i - 1;
    }
    RoomDownEnd(s, ftab[..]);
    AllPlaced(b, ftab[..], ptr[..]);
  }

  lemma PlacedNone(s: seq<int>, p: seq<int>)
    requires |p| == |s|
    ensures PlacedDown(s, p, |s| - 1)
  {
  }

  lemma {:induction false} AllPlaced(b: seq<int>, start: seq<int>, p: seq<int>)
    requires IsBytes(b) && BucketStarts(Keys(b), start) && PlacedDown(Keys(b), p, -1)
    ensures Grouped(b, start, p)
  {
    hide CountBelow, Count, StableIndex, Key, Keys;
    PlacedIsGrouped(b, start, p);
  }
}

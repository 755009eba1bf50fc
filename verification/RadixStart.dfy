/** The radix sort by first byte with which fallbackSort begins, and the rebuilding of the
    block with which it ends. */
module RadixStart {
  import opened Bytes
  import opened Permutations
  import opened Counting

  /** The row the counting loop gives to index i: buckets fill from their upper ends. */
  function ReverseIndex(b: seq<Byte>, i: int): int
    requires 0 <= i < |b|
  {
    CountBelow(b, (b[i] as int) + 1) - 1 - Count(b[..i], b[i])
  }

  lemma {:induction false} ReverseBucket(b: seq<Byte>, i: int)
    requires 0 <= i < |b|
    ensures var c: int := b[i]; CountBelow(b, c) <= ReverseIndex(b, i) < CountBelow(b, c + 1) <= |b|
  {
    hide Count, CountBelow;
    CountPrefix(b, i, b[i]);
    BelowNext(b, b[i]);
  }

  lemma {:induction false} ReverseDistinct(b: seq<Byte>, i: int, j: int)
    requires 0 <= i < j < |b|
    ensures ReverseIndex(b, i) != ReverseIndex(b, j)
  {
    hide Count, CountBelow;
    ReverseBucket(b, i);
    ReverseBucket(b, j);
    var c: int, d: int := b[i], b[j];
    if c < d {
      BelowMonotone(b, c + 1, d);
    } else if d < c {
      BelowMonotone(b, d + 1, c);
    } else {
      assert b[..j][..i] == b[..i];
      CountPrefix(b[..j], i, c);
    }
  }

  ghost function ReverseVector(b: seq<Byte>): (t: seq<int>)
    ensures IsPermutation(t, |b|) && forall i :: 0 <= i < |b| ==> t[i] == ReverseIndex(b, i)
  {
    var t := seq(|b|, i requires 0 <= i < |b| => ReverseIndex(b, i));
    assert IsPermutation(t, |b|) by {
      hide ReverseIndex, Count, CountBelow;
      forall i | 0 <= i < |b| ensures 0 <= t[i] < |b| { ReverseBucket(b, i); }
      forall i, j | 0 <= i < j < |b| ensures t[i] != t[j] { ReverseDistinct(b, i, j); }
    }
    t
  }

  /** Row k lies in the part of the first column that belongs to its byte. */
  ghost predicate InBucket(b: seq<Byte>, f: seq<int>, k: int)
    requires 0 <= k < |f| && InRange(f, |b|)
  {
    CountBelow(b, b[f[k]]) <= k < CountBelow(b, (b[f[k]] as int) + 1)
  }

  ghost predicate Bucketed(b: seq<Byte>, f: seq<int>) {
    IsPermutation(f, |b|) && forall k :: 0 <= k < |f| ==> InBucket(b, f, k)
  }

  lemma {:induction false} PlacedIsBucketed(b: seq<Byte>, f: seq<int>)
    requires Placed(b, f, |b|)
    ensures Bucketed(b, f)
  {
    hide Count, CountBelow, ReverseIndex;
    var t := ReverseVector(b);
    var q := Inverse(t);
    forall k | 0 <= k < |b| ensures f[k] == q[k] { assert t[q[k]] == k; }
    assert f == q;
    forall k | 0 <= k < |b| ensures InBucket(b, f, k) {
      ReverseBucket(b, f[k]);
      assert t[q[k]] == k;
    }
  }

  /** Bytes never fall from one row to the next, and change exactly at the bucket starts. */
  lemma {:induction false} BucketedOrder(b: seq<Byte>, f: seq<int>, k: int, m: int)
    requires Bucketed(b, f) && 0 <= k < m < |f|
    ensures b[f[k]] <= b[f[m]]
    ensures b[f[k]] != b[f[m]] ==> k < CountBelow(b, b[f[m]]) <= m
  {
    hide CountBelow;
    assert InBucket(b, f, k) && InBucket(b, f, m);
    var c: int, d: int := b[f[k]], b[f[m]];
    if c < d { BelowMonotone(b, c + 1, d); }
    if d < c { BelowMonotone(b, d + 1, c); }
  }

  lemma {:induction false} BucketStart(b: seq<Byte>, f: seq<int>, i: int, c: int)
    requires Bucketed(b, f) && 0 < i < |f| && CountBelow(b, c) == i
    ensures b[f[i - 1]] != b[f[i]]
  {
    hide CountBelow;
    assert InBucket(b, f, i - 1) && InBucket(b, f, i);
    var d: int := b[f[i]];
    if b[f[i - 1]] == b[f[i]] {
      if d < c { BelowMonotone(b, d + 1, c); } else { BelowMonotone(b, c, d); }
    }
  }

  ghost predicate Counted(b: seq<Byte>, ftab: seq<int>) {
    |ftab| >= 256 && forall c :: 0 <= c < 256 ==> ftab[c] == Count(b, c)
  }

  method CountBytes(block: array<Byte>, nblock: int) returns (ftab: array<int>, ftabCopy: array<int>)
    requires 0 <= nblock <= block.Length
    ensures fresh(ftab) && fresh(ftabCopy) && ftab != ftabCopy && ftab.Length == 257 && ftabCopy.Length == 256
    ensures Counted(block[..nblock], ftab[..]) && ftab[256] == 0
    ensures Counted(block[..nblock], ftabCopy[..])
  {
    ftab, ftabCopy := new int[257], new int[256];
    var i := 0;
    while i < 257
      invariant 0 <= i <= 257 && forall c :: 0 <= c < i ==> ftab[c] == 0
    {
      ftab[i] := 0;
      i := i + 1;
    }
    i := 0;
    while i < nblock
      invariant 0 <= i <= nblock && ftab[256] == 0
      invariant forall c :: 0 <= c < 256 ==> ftab[c] == Count(block[..i], c)
    {
      assert block[..i + 1][..i] == block[..i];
      var c: int := block[i];
      ftab[c] := ftab[c] + 1;
      i := i + 1;
    }
    i := 0;
    while i < 256
      invariant 0 <= i <= 256 && forall c :: 0 <= c < i ==> ftabCopy[c] == ftab[c]
      invariant Counted(block[..nblock], ftab[..]) && ftab[256] == 0
    {
      ftabCopy[i] := ftab[i];
      i := i + 1;
    }
  }

  /** Turns counts into the upper ends of the buckets. */
  method Accumulate(ghost b: seq<Byte>, ftab: array<int>)
    requires ftab.Length == 257 && Counted(b, ftab[..]) && ftab[256] == 0
    modifies ftab
    ensures forall c :: 0 <= c < 256 ==> ftab[c] == CountBelow(b, c + 1)
    ensures ftab[256] == |b|
  {
    hide Count, CountBelow;
    BelowEnds(b);
    BelowNext(b, 0);
    var i := 1;
    while i < 257
      invariant 1 <= i <= 257
      invariant forall c :: 0 <= c < i && c < 256 ==> ftab[c] == CountBelow(b, c + 1)
      invariant forall c :: i <= c < 256 ==> ftab[c] == Count(b, c)
      invariant if i <= 256 then ftab[256] == 0 else ftab[256] == |b|
    {
      if i < 256 { BelowNext(b, i); } else { assert ftab[255] == CountBelow(b, 256); }
      ftab[i] := ftab[i] + ftab[i - 1];
      i := i + 1;
    }
  }

  /** Remaining room of every bucket after i rows are placed. */
  ghost predicate Room(b: seq<Byte>, ftab: seq<int>, i: int)
    requires 0 <= i <= |b|
  {
    |ftab| >= 256 && forall c :: 0 <= c < 256 ==> ftab[c] == CountBelow(b, c + 1) - Count(b[..i], c)
  }

  lemma {:induction false} RoomStep(b: seq<Byte>, ftab: seq<int>, i: int)
    requires 0 <= i < |b| && Room(b, ftab, i)
    ensures var c: int := b[i]; ftab[c] - 1 == ReverseIndex(b, i) && Room(b, ftab[c := ftab[c] - 1], i + 1)
  {
    hide CountBelow;
    assert b[..i + 1][..i] == b[..i];
  }

  lemma {:induction false} RoomEmpty(b: seq<Byte>, ftab: seq<int>)
    requires Room(b, ftab, |b|)
    ensures forall c :: 0 <= c < 256 ==> ftab[c] == CountBelow(b, c)
  {
    hide Count, CountBelow;
    assert b[..|b|] == b;
    forall c | 0 <= c < 256 ensures ftab[c] == CountBelow(b, c) { BelowNext(b, c); }
  }

  ghost predicate Placed(b: seq<Byte>, f: seq<int>, i: int)
    requires 0 <= i <= |b|
  {
    |f| == |b| && forall j :: 0 <= j < i ==> 0 <= ReverseIndex(b, j) < |b| && f[ReverseIndex(b, j)] == j
  }

  lemma {:induction false} PlacedStep(b: seq<Byte>, f: seq<int>, i: int)
    requires 0 <= i < |b| && Placed(b, f, i)
    ensures 0 <= ReverseIndex(b, i) < |b| && Placed(b, f[ReverseIndex(b, i) := i], i + 1)
  {
    hide ReverseIndex, Count, CountBelow;
    ReverseBucket(b, i);
    forall j | 0 <= j < i ensures ReverseIndex(b, j) != ReverseIndex(b, i) { ReverseDistinct(b, j, i); }
  }

  lemma PlacingStart(b: seq<Byte>, ftab: seq<int>, f: seq<int>)
    requires |ftab| >= 256 && |f| == |b| && forall c :: 0 <= c < 256 ==> ftab[c] == CountBelow(b, c + 1)
    ensures Room(b, ftab, 0) && Placed(b, f, 0)
  {
    assert b[..0] == [];
  }

  /** The placing loop; leaves in ftab the starts of the buckets. */
  method Place(block: array<Byte>, ftab: array<int>, fmap: array<int>, nblock: int)
    requires 0 <= nblock <= block.Length && fmap.Length == nblock && ftab.Length == 257 && fmap != ftab
    requires forall c :: 0 <= c < 256 ==> ftab[c] == CountBelow(block[..nblock], c + 1)
    modifies ftab, fmap
    ensures Bucketed(block[..nblock], fmap[..])
    ensures forall c :: 0 <= c < 256 ==> ftab[c] == CountBelow(block[..nblock], c)
  {
    hide Room, Placed, ReverseIndex, CountBelow, Bucketed;
    ghost var b := block[..nblock];
    PlacingStart(b, ftab[..], fmap[..]);
    var i := 0;
    while i < nblock
      invariant 0 <= i <= nblock
      invariant Room(b, ftab[..], i) && Placed(b, fmap[..], i)
    {
      RoomStep(b, ftab[..], i);
      PlacedStep(b, fmap[..], i);
      ghost var ft, fm := ftab[..], fmap[..];
      var j: int := block[i];
      var k := ftab[j] - 1;
      ftab[j] := k;
      fmap[k] := i;
      assert ftab[..] == ft[j := k] && fmap[..] == fm[k := i];
      i := i + 1;
    }
    RoomEmpty(b, ftab[..]);
    PlacedIsBucketed(b, fmap[..]);
  }
}

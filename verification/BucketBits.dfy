/** The bucket-header bits of fallbackSort and its search for the next bucket of more than
    one element.  bits[k] stands for bit k % 32 of word k / 32. */
module BucketBits {

  function BitsLength(nblock: nat): nat { 32 * (nblock / 32 + 3) }

  /** The sentinels just past the block: one header, then one clear bit. */
  ghost predicate Sentinels(bits: seq<bool>, nblock: nat) {
    |bits| == BitsLength(nblock) && bits[nblock] && !bits[nblock + 1]
  }

  ghost predicate AllSet(bits: seq<bool>, lo: int, hi: int)
    requires 0 <= lo && hi <= |bits|
  {
    forall k :: lo <= k < hi ==> bits[k]
  }

  ghost predicate AllClear(bits: seq<bool>, lo: int, hi: int)
    requires 0 <= lo && hi <= |bits|
  {
    forall k :: lo <= k < hi ==> !bits[k]
  }

  /** Clears the words in use; the last one is left as it was found. */
  method ClearWords(bits: array<bool>, nblock: int)
    requires 0 <= nblock && bits.Length == BitsLength(nblock)
    modifies bits
    ensures forall k :: 0 <= k <= nblock + 1 ==> !bits[k]
  {
    var nBhtab := 2 + nblock / 32;
    var i := 0;
    while i < nBhtab
      invariant 0 <= i <= nBhtab && forall k :: 0 <= k < 32 * i ==> !bits[k]
    {
      forall m | 0 <= m < 32 { bits[32 * i + m] := false; }
      i := i + 1;
    }
  }

  /** The 32 pairs of sentinels, block-end detection for the word-wise scans. */
  method SetSentinels(bits: array<bool>, nblock: int)
    requires 0 <= nblock && bits.Length == BitsLength(nblock)
    modifies bits
    ensures Sentinels(bits[..], nblock)
    ensures forall k :: 0 <= k < nblock ==> bits[k] == old(bits[k])
  {
    var i := 0;
    while i < 32
      invariant 0 <= i <= 32
      invariant forall m :: 0 <= m < i ==> bits[nblock + 2 * m] && !bits[nblock + 2 * m + 1]
      invariant forall k :: 0 <= k < nblock ==> bits[k] == old(bits[k])
    {
      bits[nblock + 2 * i] := true;
      bits[nblock + 2 * i + 1] := false;
      i := i + 1;
    }
    assert bits[nblock + 2 * 0] && !bits[nblock + 2 * 0 + 1];
  }

  predicate WordIs(bits: array<bool>, k: int, v: bool)
    requires 0 <= k < bits.Length && bits.Length % 32 == 0
    reads bits
  {
    forall j :: k / 32 * 32 <= j < k / 32 * 32 + 32 ==> bits[j] == v
  }

  /** From k on, the first clear bit: bit by bit to a word boundary, word by word, bit by bit. */
  method FirstClear(bits: array<bool>, nblock: int, k0: int) returns (k: int)
    requires 0 <= k0 <= nblock && Sentinels(bits[..], nblock)
    ensures k0 <= k <= nblock + 1 && AllSet(bits[..], k0, k) && !bits[k]
  {
    k := k0;
    while bits[k] && k % 32 != 0
      invariant k0 <= k <= nblock + 1 && AllSet(bits[..], k0, k)
      decreases nblock - k
    {
      k := k + 1;
    }
    if bits[k] {
      while WordIs(bits, k, true)
        invariant k0 <= k <= nblock + 1 && k % 32 == 0 && AllSet(bits[..], k0, k)
        decreases nblock - k
      {
        assert k / 32 * 32 == k;
        k := k + 32;
      }
      while bits[k]
        invariant k0 <= k <= nblock + 1 && AllSet(bits[..], k0, k)
        decreases nblock - k
      {
        k := k + 1;
      }
    }
  }

  /** From k on, the first set bit. */
  method FirstSet(bits: array<bool>, nblock: int, k0: int) returns (k: int)
    requires 0 <= k0 <= nblock && Sentinels(bits[..], nblock)
    ensures k0 <= k <= nblock && AllClear(bits[..], k0, k) && bits[k]
  {
    k := k0;
    while !bits[k] && k % 32 != 0
      invariant k0 <= k <= nblock && AllClear(bits[..], k0, k)
      decreases nblock - k
    {
      k := k + 1;
    }
    if !bits[k] {
      while WordIs(bits, k, false)
        invariant k0 <= k <= nblock && k % 32 == 0 && AllClear(bits[..], k0, k)
        decreases nblock - k
      {
        assert k / 32 * 32 == k;
        k := k + 32;
      }
      while !bits[k]
        invariant k0 <= k <= nblock && AllClear(bits[..], k0, k)
        decreases nblock - k
      {
        k := k + 1;
      }
    }
  }

  /** Finds the next bucket [l, r] of more than one row after row r0, or that there is none. */
  method NextBucket(bits: array<bool>, nblock: int, r0: int) returns (found: bool, l: int, r: int)
    requires -1 <= r0 < nblock && Sentinels(bits[..], nblock) && bits[r0 + 1]
    ensures found ==>
      r0 < l < r < nblock && AllSet(bits[..], r0 + 1, l + 1) && AllClear(bits[..], l + 1, r + 1) && bits[r + 1]
    ensures !found ==> AllSet(bits[..], r0 + 1, nblock)
  {
    found, r := false, r0;
    var k := FirstClear(bits, nblock, r0 + 1);
    l := k - 1;
    if l >= nblock { return; }
    k := FirstSet(bits, nblock, k);
    r := k - 1;
    found := r < nblock;
  }
}

/** Undoing the Burrows-Wheeler transform: the specification, its correctness for
    every sorted matrix, and the two storage layouts of the decompressor. */
module InverseBwt {
  import opened Bytes
  import opened Rotations
  import opened Counting
  import opened LastFirst

  const MAX_BLOCK: int := 900_000

  /** Row reached from r by following the stored vector k times. */
  ghost function RowAfter(l: seq<Byte>, r: int, k: nat): (row: int)
    requires 0 <= r < |l|
    ensures 0 <= row < |l|
  {
    if k == 0 then r else Successor(l)[RowAfter(l, r, k - 1)]
  }

  /** The k-th byte the decoder emits when it starts from row r. */
  ghost function Emitted(l: seq<Byte>, r: int, k: nat): Byte
    requires 0 <= r < |l|
  {
    l[RowAfter(l, r, k + 1)]
  }

  ghost function Unsorted(l: seq<Byte>, r: int): (b: seq<Byte>)
    requires 0 <= r < |l|
    ensures |b| == |l| && forall k :: 0 <= k < |l| ==> b[k] == Emitted(l, r, k)
  {
    seq(|l|, k requires 0 <= k < |l| => Emitted(l, r, k))
  }

  lemma {:induction false} ChainRow(b: seq<Byte>, ptr: seq<int>, r: int, k: nat)
    requires SortedRotations(b, ptr) && 0 <= r < |b| && ptr[r] == 0 && k < |b|
    ensures Rows(b, ptr)[RowAfter(LastColumn(b, ptr), r, k)] == Rotation(b, k)
  {
    hide InvertsStable;
    if k > 0 {
      ChainRow(b, ptr, r, k - 1);
      SuccessorRotates(b, ptr, RowAfter(LastColumn(b, ptr), r, k - 1));
      RotateNext(b, k, Rotation(b, k - 1));
    }
  }

  /** Main result: whatever the order of equal rotations, decoding the last column
      from the row of rotation 0 gives back the block. */
  lemma {:induction false} UnsortedIsBlock(b: seq<Byte>, ptr: seq<int>, r: int)
    requires SortedRotations(b, ptr) && 0 <= r < |b| && ptr[r] == 0
    ensures Unsorted(LastColumn(b, ptr), r) == b
  {
    var l := LastColumn(b, ptr);
    forall k | 0 <= k < |b| ensures Emitted(l, r, k) == b[k] {
      ChainRow(b, ptr, r, k);
      SuccessorRotates(b, ptr, RowAfter(l, r, k));
    }
  }

  /** First column of the matrix: the byte whose bucket holds row r. */
  lemma {:induction false} FirstColumn(l: seq<Byte>, r: int, c: int)
    requires 0 <= r < |l| && CountBelow(l, c) <= r < CountBelow(l, c + 1)
    ensures l[Successor(l)[r]] == c
  {
    var q := Successor(l)[r];
    var d: int := l[q];
    StableBucket(l, q);
    if c < d { BelowMonotone(l, c + 1, d); }
    if d < c { BelowMonotone(l, d + 1, c); }
  }

  /** The or-ing and shifting of 8- and 24-bit fields done on `tt` is arithmetic. */
  lemma PackedFields(low: bv32, high: bv32)
    requires low < 0x100 && high < 0x100_0000
    ensures low | (high << 8) == low + 0x100 * high
    ensures (low | (high << 8)) & 0xff == low && (low | (high << 8)) >> 8 == high
  {
  }

  lemma Fields(low: int, high: int)
    requires 0 <= low < 0x100
    ensures (low + 0x100 * high) % 0x100 == low
    ensures (low + 0x100 * high) / 0x100 == high
  {
  }

  /** cftab: how many bytes of the column are smaller than c. */
  ghost predicate Cumulative(cftab: seq<int>, l: seq<Byte>) {
    |cftab| == 257 && forall c :: 0 <= c <= 256 ==> cftab[c] == CountBelow(l, c)
  }

  /** Summing unzftab; none of the sanity checks can fire on a real tally. */
  method BuildCftab(unzftab: array<int>, cftab: array<int>, nblock: int, ghost l: seq<Byte>)
    returns (ok: bool)
    requires unzftab != cftab && unzftab.Length == 256 && cftab.Length == 257
    requires nblock == |l|
    requires forall c :: 0 <= c < 256 ==> unzftab[c] == Count(l, c)
    modifies cftab
    ensures ok && Cumulative(cftab[..], l)
  {
    for i := 0 to 256
    {
      if unzftab[i] < 0 || unzftab[i] > nblock { return false; }
    }
    cftab[0] := 0;
    for i := 1 to 257
      invariant cftab[0] == 0
      invariant forall c :: 1 <= c < i ==> cftab[c] == unzftab[c - 1]
    {
      cftab[i] := unzftab[i - 1];
    }
    BelowEnds(l);
    for i := 1 to 257
      invariant forall c :: 0 <= c < i ==> cftab[c] == CountBelow(l, c)
      invariant forall c :: i <= c < 257 ==> cftab[c] == Count(l, c - 1)
    {
      BelowNext(l, i - 1);
      cftab[i] := cftab[i] + cftab[i - 1];
    }
    ok := CheckCftab(cftab, nblock, l);
  }

  method CheckCftab(cftab: array<int>, nblock: int, ghost l: seq<Byte>) returns (ok: bool)
    requires cftab.Length == 257 && nblock == |l|
    requires forall c :: 0 <= c < 257 ==> cftab[c] == CountBelow(l, c)
    ensures ok
  {
    for i := 0 to 257
    {
      if cftab[i] < 0 || cftab[i] > nblock { return false; }
    }
    for i := 1 to 257
    {
      BelowMonotone(l, i - 1, i);
      if cftab[i - 1] > cftab[i] { return false; }
    }
    return true;
  }

  /** Number of bytes of the column strictly before row i that go to bucket c. */
  ghost predicate Advanced(cftab: seq<int>, l: seq<Byte>, i: int)
    requires 0 <= i <= |l|
  {
    |cftab| == 257 && forall c :: 0 <= c < 256 ==> cftab[c] == CountBelow(l, c) + Count(l[..i], c)
  }

  lemma {:induction false} AdvancedStart(cftab: seq<int>, l: seq<Byte>)
    requires Cumulative(cftab, l)
    ensures Advanced(cftab, l, 0)
  {
  }

  /** The bucket counter of row i's byte points at the row's place in column one. */
  lemma {:induction false} AdvancedPlace(cftab: seq<int>, l: seq<Byte>, i: int)
    requires 0 <= i < |l| && Advanced(cftab, l, i)
    ensures |cftab| == 257 && cftab[l[i]] == StableIndex(l, i) < |l| && Successor(l)[StableIndex(l, i)] == i
    ensures forall k :: 0 <= k < |l| && k != StableIndex(l, i) ==> Successor(l)[k] != i
  {
    StableBucket(l, i);
  }

  lemma {:induction false} AdvancedStep(cftab: seq<int>, l: seq<Byte>, i: int, after: seq<int>)
    requires 0 <= i < |l| && Advanced(cftab, l, i)
    requires |after| == 257 && after[l[i]] == cftab[l[i]] + 1
    requires forall c :: 0 <= c < 257 && c != l[i] ==> after[c] == cftab[c]
    ensures Advanced(after, l, i + 1)
  {
    assert l[..i + 1][..i] == l[..i];
  }

  /** The `tt` array and read cursor of the fast decoder. */
  class FastUnsorter {
    const tt: array<Word>
    var tPos: int
    ghost var column: seq<Byte>
    ghost var origin: int
    ghost var steps: nat

    /** Size 0 where the other layout is in use. */
    constructor (blockSize100k: int)
      requires 0 <= blockSize100k <= 9
      ensures fresh(tt) && tt.Length == 100_000 * blockSize100k
    {
      tt := new Word[100_000 * blockSize100k];
      tPos := 0;
    }

    /** The byte column is in the low fields, the high fields are still zero. */
    ghost predicate Loaded()
      reads this, tt
    {
      |column| <= tt.Length <= MAX_BLOCK && forall i :: 0 <= i < |column| ==> tt[i] == column[i]
    }

    ghost predicate Ready()
      reads this, tt
    {
      && |column| <= tt.Length <= MAX_BLOCK
      && 0 <= origin < |column|
      && (forall i :: 0 <= i < |column| ==> tt[i] == column[i] + 0x100 * Successor(column)[i])
      && tPos == RowAfter(column, origin, steps + 1)
    }

    method Link(cftab: array<int>, nblock: int, origPtr: int)
      requires Loaded() && 0 <= origPtr < nblock == |column|
      requires Cumulative(cftab[..], column)
      modifies this`tPos, this`origin, this`steps, tt, cftab
      ensures Ready() && column == old(column) && origin == origPtr && steps == 0
    {
      ghost var nx := Successor(column);
      hide InvertsStable, Advanced, Cumulative, StableIndex;
      AdvancedStart(cftab[..], column);
      for i := 0 to nblock
        modifies tt, cftab
        invariant Advanced(cftab[..], column, i)
        invariant forall k :: 0 <= k < |column| ==>
          tt[k] == column[k] + if nx[k] < i then 0x100 * nx[k] else 0
      {
        var uc := tt[i] % 0x100;
        assert uc == column[i];
        ghost var before := cftab[..];
        AdvancedPlace(before, column, i);
        var k := cftab[uc];
        tt[k] := tt[k] + 0x100 * i;
        cftab[uc] := cftab[uc] + 1;
        AdvancedStep(before, column, i, cftab[..]);
      }
      Fields(column[origPtr], nx[origPtr]);
      origin, steps := origPtr, 0;
      tPos := tt[origPtr] / 0x100;
      assert RowAfter(column, origPtr, 0) == origPtr;
    }

    method GetFast() returns (corrupt: bool, ch: Byte)
      requires Ready()
      modifies this`tPos, this`steps
      ensures Ready() && !corrupt && steps == old(steps) + 1
      ensures ch == Emitted(column, origin, old(steps))
    {
      hide InvertsStable;
      corrupt, ch := tPos >= tt.Length, 0;
      if corrupt { return; }
      ghost var row := tPos;
      var cell := tt[tPos];
      Fields(column[row], Successor(column)[row]);
      tPos := cell;
      ch := tPos % 0x100;
      tPos := tPos / 0x100;
      steps := steps + 1;
    }
  }
}

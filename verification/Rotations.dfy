/** Cyclic rotations of a block, and what it means for the sorter's `ptr` to list
    them in order.  Equal rotations (periodic blocks) may appear in any order. */
module Rotations {
  import opened Bytes
  import opened Permutations
  import opened Lexicographic

  function Rotation(b: seq<Byte>, i: int): (r: seq<Byte>)
    requires 0 <= i < |b|
    ensures |r| == |b|
  {
    b[i..] + b[..i]
  }

  function Prev(i: int, n: int): (j: int)
    requires 0 <= i < n
    ensures 0 <= j < n
  {
    if i == 0 then n - 1 else i - 1
  }

  function Next(i: int, n: int): (j: int)
    requires 0 <= i < n
    ensures 0 <= j < n
  {
    if i + 1 == n then 0 else i + 1
  }

  /** All rotations, by starting index. */
  ghost function AllRotations(b: seq<Byte>): (t: seq<seq<Byte>>)
    ensures |t| == |b| && forall i :: 0 <= i < |b| ==> t[i] == Rotation(b, i)
  {
    seq(|b|, i requires 0 <= i < |b| => Rotation(b, i))
  }

  /** The sorted matrix: row r is the rotation starting at ptr[r]. */
  ghost function Rows(b: seq<Byte>, ptr: seq<int>): (t: seq<seq<Byte>>)
    requires InRange(ptr, |b|)
    ensures |t| == |ptr| && forall r :: 0 <= r < |ptr| ==> t[r] == Rotation(b, ptr[r])
  {
    Pick(AllRotations(b), ptr)
  }

  /** Post of the block sorter (blocksort.c:1019-1032): ptr holds sorted order. */
  ghost predicate SortedRotations(b: seq<Byte>, ptr: seq<int>) {
    IsPermutation(ptr, |b|) && Ascending(Rows(b, ptr))
  }

  /** The byte before each row's start: what the encoder reads in row order. */
  ghost function LastColumn(b: seq<Byte>, ptr: seq<int>): (l: seq<Byte>)
    requires InRange(ptr, |b|)
    ensures |l| == |ptr| && forall r :: 0 <= r < |ptr| ==> l[r] == b[Prev(ptr[r], |b|)]
  {
    seq(|ptr|, r requires 0 <= r < |ptr| => b[Prev(ptr[r], |b|)])
  }

  /** Rotating one step back puts the last byte in front. */
  lemma RotatePrev(b: seq<Byte>, i: int)
    requires 0 <= i < |b|
    ensures Rotation(b, Prev(i, |b|)) == [b[Prev(i, |b|)]] + Rotation(b, i)[..|b| - 1]
  {
  }
}

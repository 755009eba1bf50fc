/** BZ2_hbAssignCodes and BZ2_hbCreateDecodeTables over the canonical code. */
module HuffmanTables {
  import opened Bytes
  import opened Counting
  import opened Canonical

  const BZ_MAX_CODE_LEN: int := 23
  const BZ_MAX_ALPHA_SIZE: int := 258

  ghost predicate Within(lens: seq<Byte>, minLen: int, maxLen: int) {
    && Lengths(lens) && 1 <= minLen <= maxLen <= MAX_CODE
    && forall i :: 0 <= i < |lens| ==> minLen <= lens[i] <= maxLen
  }

  method LengthRange(length: array<Byte>, alphaSize: int) returns (minLen: int, maxLen: int)
    requires 0 < alphaSize <= length.Length && Lengths(length[..alphaSize])
    ensures Within(length[..alphaSize], minLen, maxLen)
    ensures minLen in length[..alphaSize] && maxLen in length[..alphaSize]
  {
    minLen, maxLen := 32, 0;
    ghost var lens := length[..alphaSize];
    for i := 0 to alphaSize
      invariant i == 0 ==> minLen == 32 && maxLen == 0
      invariant i > 0 ==> minLen in lens && maxLen in lens
      invariant forall k :: 0 <= k < i ==> minLen <= lens[k] <= maxLen
    {
      if length[i] > maxLen { maxLen := length[i]; }
      if length[i] < minLen { minLen := length[i]; }
    }
    assert minLen <= lens[0] <= maxLen;
  }

  lemma {:induction false} NoneShorter(lens: seq<Byte>, minLen: int, n: nat)
    requires n <= minLen && forall i :: 0 <= i < |lens| ==> minLen <= lens[i]
    ensures First(lens, n) == 0 && CountBelow(lens, n) == 0
    ensures n < minLen ==> Count(lens, n) == 0
    decreases n, |lens|
  {
    NoneBelow(lens, minLen, n);
    if n > 0 { NoneShorter(lens, minLen, n - 1); }
  }

  lemma {:induction false} NoneBelow(lens: seq<Byte>, minLen: int, n: nat)
    requires n <= minLen && forall i :: 0 <= i < |lens| ==> minLen <= lens[i]
    ensures CountBelow(lens, n) == 0 && (n < minLen ==> Count(lens, n) == 0)
  {
    if lens != [] { NoneBelow(lens[..|lens| - 1], minLen, n); }
  }

  lemma {:induction false} CountNext(lens: seq<Byte>, j: int, n: int)
    requires 0 <= j < |lens|
    ensures Count(lens[..j + 1], n) == Count(lens[..j], n) + if lens[j] == n then 1 else 0
  {
    assert lens[..j + 1][..j] == lens[..j];
  }

  method AssignCodes(code: array<int>, length: array<Byte>, minLen: int, maxLen: int, alphaSize: int)
    requires 0 <= alphaSize <= length.Length && alphaSize <= code.Length && code as object != length
    requires Within(length[..alphaSize], minLen, maxLen)
    modifies code
    ensures forall i :: 0 <= i < alphaSize ==> code[i] == Code(length[..alphaSize], i)
  {
    ghost var lens := length[..alphaSize];
    var vec := 0;
    NoneShorter(lens, minLen, minLen);
    for n := minLen to maxLen + 1
      invariant vec == First(lens, n)
      invariant forall i :: 0 <= i < alphaSize && lens[i] < n ==> code[i] == Code(lens, i)
    {
      vec := AssignLength(code, length, n, vec, alphaSize);
      vec := vec * 2;
    }
  }

  /** All code words of one length. */
  method AssignLength(code: array<int>, length: array<Byte>, n: nat, vec0: int, alphaSize: int) returns (vec: int)
    requires 0 <= alphaSize <= length.Length && alphaSize <= code.Length && code as object != length
    requires vec0 == First(length[..alphaSize], n)
    requires forall i :: 0 <= i < alphaSize && length[i] < n ==> code[i] == Code(length[..alphaSize], i)
    modifies code
    ensures vec == End(length[..alphaSize], n)
    ensures forall i :: 0 <= i < alphaSize && length[i] <= n ==> code[i] == Code(length[..alphaSize], i)
  {
    hide First;
    ghost var lens := length[..alphaSize];
    vec := vec0;
    for i := 0 to alphaSize
      invariant vec == First(lens, n) + Count(lens[..i], n)
      invariant length[..alphaSize] == lens
      invariant forall k :: 0 <= k < alphaSize && (lens[k] < n || (lens[k] == n && k < i)) ==> code[k] == Code(lens, k)
    {
      CountNext(lens, i, n);
      if length[i] == n {
        code[i] := vec;
        vec := vec + 1;
      }
    }
    assert lens[..alphaSize] == lens;
  }

  /** perm: the symbols ordered by length, then by value. */
  method SortSymbols(perm: array<int>, length: array<Byte>, minLen: int, maxLen: int, alphaSize: int)
    requires 0 <= alphaSize <= length.Length && perm.Length == BZ_MAX_ALPHA_SIZE && perm as object != length
    requires Within(length[..alphaSize], minLen, maxLen)
    modifies perm
    ensures forall i :: 0 <= i < alphaSize ==>
      StableIndex(length[..alphaSize], i) < alphaSize && perm[StableIndex(length[..alphaSize], i)] == i
  {
    ghost var lens := length[..alphaSize];
    var pp := 0;
    NoneShorter(lens, minLen, minLen);
    for i := minLen to maxLen + 1
      invariant pp == CountBelow(lens, i) && length[..alphaSize] == lens
      invariant forall k :: 0 <= k < alphaSize && lens[k] < i ==>
        StableIndex(lens, k) < pp && perm[StableIndex(lens, k)] == k
    {
      pp := SortLength(perm, length, i, pp, alphaSize);
      BelowNext(lens, i);
    }
    BelowAll(lens, maxLen + 1);
  }

  lemma {:induction false} BelowAll(lens: seq<Byte>, n: int)
    ensures CountBelow(lens, n) <= |lens|
  {
  }

  lemma {:induction false} PlaceOf(lens: seq<Byte>, j: int, n: int)
    requires 0 <= j <= |lens|
    ensures Count(lens[..0], n) == 0
    ensures CountBelow(lens, n) + Count(lens[..j], n) <= |lens|
    ensures j < |lens| && lens[j] == n ==> StableIndex(lens, j) == CountBelow(lens, n) + Count(lens[..j], n)
  {
    BelowNext(lens, n);
    CountPrefix(lens, j, n);
  }

  method SortLength(perm: array<int>, length: array<Byte>, n: nat, pp0: int, alphaSize: int) returns (pp: int)
    requires 0 <= alphaSize <= length.Length && perm.Length == BZ_MAX_ALPHA_SIZE && perm as object != length
    requires alphaSize <= BZ_MAX_ALPHA_SIZE && pp0 == CountBelow(length[..alphaSize], n)
    requires forall k :: 0 <= k < alphaSize && length[k] < n ==>
      StableIndex(length[..alphaSize], k) < pp0 && perm[StableIndex(length[..alphaSize], k)] == k
    modifies perm
    ensures pp == CountBelow(length[..alphaSize], n) + Count(length[..alphaSize], n) <= alphaSize
    ensures forall k :: 0 <= k < alphaSize && length[k] <= n ==>
      StableIndex(length[..alphaSize], k) < pp && perm[StableIndex(length[..alphaSize], k)] == k
  {
    hide CountBelow, StableIndex, Count;
    ghost var lens := length[..alphaSize];
    pp := pp0;
    PlaceOf(lens, 0, n);
    for j := 0 to alphaSize
      invariant pp0 <= pp <= alphaSize && pp == pp0 + Count(lens[..j], n) && length[..alphaSize] == lens
      invariant forall k :: 0 <= k < alphaSize && (lens[k] < n || (lens[k] == n && k < j)) ==>
        StableIndex(lens, k) < pp && perm[StableIndex(lens, k)] == k
    {
      CountNext(lens, j, n);
      PlaceOf(lens, j + 1, n);
      PlaceOf(lens, j, n);
      if length[j] == n {
        perm[pp] := j;
        pp := pp + 1;
      }
    }
    assert lens[..alphaSize] == lens;
  }

  /** base as the running count of shorter codes. */
  method CountShorter(base: array<int>, length: array<Byte>, alphaSize: int)
    requires 0 <= alphaSize <= length.Length && base.Length == BZ_MAX_ALPHA_SIZE && base as object != length
    requires Lengths(length[..alphaSize])
    modifies base
    ensures forall n :: 0 <= n < BZ_MAX_CODE_LEN ==> base[n] == CountBelow(length[..alphaSize], n)
  {
    hide CountBelow;
    ghost var lens := length[..alphaSize];
    for i := 0 to BZ_MAX_CODE_LEN
      invariant forall n :: 0 <= n < i ==> base[n] == 0
    {
      base[i] := 0;
    }
    for i := 0 to alphaSize
      invariant length[..alphaSize] == lens
      invariant forall n :: 1 <= n < BZ_MAX_CODE_LEN ==> base[n] == Count(lens[..i], n - 1)
      invariant base[0] == 0
    {
      forall m | 0 <= m < 22
        ensures Count(lens[..i + 1], m) == Count(lens[..i], m) + if lens[i] == m then 1 else 0
      {
        CountNext(lens, i, m);
      }
      var l: int := length[i];
      base[l + 1] := base[l + 1] + 1;
    }
    assert lens[..alphaSize] == lens;
    BelowEnds(lens);
    for i := 1 to BZ_MAX_CODE_LEN
      invariant forall n :: 0 <= n < i ==> base[n] == CountBelow(lens, n)
      invariant forall n :: i <= n < BZ_MAX_CODE_LEN ==> base[n] == Count(lens, n - 1)
    {
      BelowNext(lens, i - 1);
      base[i] := base[i] + base[i - 1];
    }
  }

  /** limit; then base is turned into the offset from code word to perm index. */
  method SetLimits(limit: array<int>, base: array<int>, minLen: int, maxLen: int, ghost lens: seq<Byte>)
    requires limit.Length == base.Length == BZ_MAX_ALPHA_SIZE && limit != base && Within(lens, minLen, maxLen)
    requires forall n :: 0 <= n < BZ_MAX_CODE_LEN ==> base[n] == CountBelow(lens, n)
    modifies limit
    ensures forall n :: minLen <= n <= maxLen ==> limit[n] == End(lens, n) - 1
    ensures forall n :: maxLen < n <= MAX_CODE ==> limit[n] == 0
  {
    hide Count, CountBelow;
    for i := 0 to BZ_MAX_CODE_LEN
      invariant forall n :: 0 <= n < i ==> limit[n] == 0
    {
      limit[i] := 0;
    }
    var vec := 0;
    NoneShorter(lens, minLen, minLen);
    for i := minLen to maxLen + 1
      invariant vec == First(lens, i)
      invariant forall n :: minLen <= n < i ==> limit[n] == End(lens, n) - 1
      invariant forall n :: maxLen < n <= MAX_CODE ==> limit[n] == 0
    {
      BelowNext(lens, i);
      vec := vec + (base[i + 1] - base[i]);
      limit[i] := vec - 1;
      vec := vec * 2;
    }
  }

  lemma {:induction false} FirstNext(lens: seq<Byte>, n: nat)
    ensures n > 0 ==> First(lens, n) == 2 * End(lens, n - 1)
  {
    hide Count;
  }

  method SetBases(limit: array<int>, base: array<int>, minLen: int, maxLen: int, ghost lens: seq<Byte>)
    requires limit.Length == base.Length == BZ_MAX_ALPHA_SIZE && limit != base && Within(lens, minLen, maxLen)
    requires forall n :: 0 <= n < BZ_MAX_CODE_LEN ==> base[n] == CountBelow(lens, n)
    requires forall n :: minLen <= n <= maxLen ==> limit[n] == End(lens, n) - 1
    modifies base
    ensures forall n :: minLen <= n <= maxLen ==> base[n] == First(lens, n) - CountBelow(lens, n)
  {
    hide Count, CountBelow, First, Lengths;
    NoneShorter(lens, minLen, minLen);
    for i := minLen + 1 to maxLen + 1
      invariant forall n :: minLen <= n < i ==> base[n] == First(lens, n) - CountBelow(lens, n)
      invariant forall n :: i <= n < BZ_MAX_CODE_LEN ==> base[n] == CountBelow(lens, n)
    {
      FirstNext(lens, i);
      base[i] := (limit[i - 1] + 1) * 2 - base[i];
    }
  }

  method CreateDecodeTables(limit: array<int>, base: array<int>, perm: array<int>, length: array<Byte>, minLen: int,
      maxLen: int, alphaSize: int)
    requires limit.Length == base.Length == perm.Length == BZ_MAX_ALPHA_SIZE
    requires limit != base && limit != perm && base != perm
    requires limit as object != length && base as object != length && perm as object != length
    requires 0 <= alphaSize <= length.Length && Within(length[..alphaSize], minLen, maxLen)
    modifies limit, base, perm
    ensures DecodeTables(length[..alphaSize], limit[..], base[..], perm[..], minLen, maxLen)
  {
    hide Count, CountBelow, First, StableIndex;
    ghost var lens := length[..alphaSize];
    SortSymbols(perm, length, minLen, maxLen, alphaSize);
    CountShorter(base, length, alphaSize);
    SetLimits(limit, base, minLen, maxLen, lens);
    SetBases(limit, base, minLen, maxLen, lens);
  }
}

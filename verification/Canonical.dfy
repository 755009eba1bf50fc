/** Canonical prefix codes: the code a length table stands for, when it exists, and
    why comparing growing prefixes with per-length limits decodes it. */
module Canonical {
  import opened Bytes
  import opened Bits
  import opened Counting

  const MAX_CODE: int := 20

  /** Code lengths the decoder accepts (decompress.c:321). */
  ghost predicate Lengths(lens: seq<Byte>) {
    1 <= |lens| <= 258 && forall i :: 0 <= i < |lens| ==> 1 <= lens[i] <= MAX_CODE
  }

  /** First code word of length n. */
  function First(lens: seq<Byte>, n: nat): nat {
    if n == 0 then 0 else 2 * (First(lens, n - 1) + Count(lens, n - 1))
  }

  function Code(lens: seq<Byte>, i: int): nat
    requires 0 <= i < |lens|
  {
    First(lens, lens[i]) + Count(lens[..i], lens[i])
  }

  function CodeBits(lens: seq<Byte>, i: int): (b: seq<bool>)
    requires 0 <= i < |lens|
    ensures |b| == lens[i]
  {
    ToBits(Code(lens, i), lens[i])
  }

  /** Kraft's sum of the table in units of 2^-m. */
  function Kraft(lens: seq<Byte>, m: nat): nat
    requires forall i :: 0 <= i < |lens| ==> lens[i] <= m
  {
    if lens == [] then 0
    else Kraft(lens[..|lens| - 1], m) + Pow2(m - lens[|lens| - 1])
  }

  /** One past the last code word of length n. */
  function End(lens: seq<Byte>, n: nat): nat {
    First(lens, n) + Count(lens, n)
  }

  /** Room left on every level: no length is over-subscribed. */
  ghost predicate Fits(lens: seq<Byte>) {
    forall n {:trigger End(lens, n)} :: 0 <= n <= MAX_CODE ==> End(lens, n) <= Pow2(n)
  }

  lemma {:induction false} FirstSnoc(lens: seq<Byte>, x: Byte, n: nat)
    ensures First(lens + [x], n) == First(lens, n) + if x < n then Pow2(n - x) else 0
  {
    if n > 0 {
      FirstSnoc(lens, x, n - 1);
      assert (lens + [x])[..|lens|] == lens;
      if x < n - 1 { assert Pow2(n - x) == 2 * Pow2(n - 1 - x); }
    }
  }

  /** The codes up to length m, extended to m bits, fill exactly the Kraft sum. */
  lemma {:induction false} KraftIsFilled(lens: seq<Byte>, m: nat)
    requires forall i :: 0 <= i < |lens| ==> lens[i] <= m
    ensures End(lens, m) == Kraft(lens, m)
  {
    if lens == [] {
      FirstEmpty(m);
    } else {
      var t, x := lens[..|lens| - 1], lens[|lens| - 1];
      KraftIsFilled(t, m);
      FirstSnoc(t, x, m);
      assert lens == t + [x];
    }
  }

  lemma {:induction false} FirstEmpty(n: nat)
    ensures First([], n) == 0
  {
    if n > 0 { FirstEmpty(n - 1); }
  }

  /** Kraft's inequality is the exact condition for every code word to fit its length. */
  lemma {:induction false} FitsIffKraft(lens: seq<Byte>)
    requires Lengths(lens)
    ensures Fits(lens) <==> Kraft(lens, MAX_CODE) <= Pow2(MAX_CODE)
  {
    hide First, Count, Pow2, Kraft, End;
    KraftIsFilled(lens, MAX_CODE);
    if Kraft(lens, MAX_CODE) <= Pow2(MAX_CODE) {
      forall n | 0 <= n <= MAX_CODE ensures End(lens, n) <= Pow2(n) { FitsBelow(lens, MAX_CODE, n); }
    }
  }

  lemma {:induction false} FitsBelow(lens: seq<Byte>, m: nat, n: nat)
    requires n <= m && End(lens, m) <= Pow2(m)
    ensures End(lens, n) <= Pow2(n)
  {
    hide Count;
    if n < m { FitsBelow(lens, m - 1, n); }
  }

  /** Later lengths start beyond every extension of the earlier codes. */
  lemma {:induction false} FirstGrows(lens: seq<Byte>, n: nat, l: nat)
    requires n < l
    ensures First(lens, l) >= (End(lens, n)) * Pow2(l - n)
    decreases l
  {
    if n + 1 < l {
      FirstGrows(lens, n, l - 1);
      DoubleFactor(End(lens, n), Pow2(l - 1 - n));
    } else {
      assert Pow2(1) == 2 * Pow2(0);
    }
  }

  lemma {:induction false} CodeRange(lens: seq<Byte>, i: int)
    requires Lengths(lens) && Fits(lens) && 0 <= i < |lens|
    ensures First(lens, lens[i]) <= Code(lens, i) < End(lens, lens[i])
    ensures Code(lens, i) < Pow2(lens[i])
    ensures Val(CodeBits(lens, i)) == Code(lens, i)
  {
    var l: nat := lens[i];
    CountPrefix(lens, i, l);
    assert End(lens, l) <= Pow2(l);
    ValOfBits(Code(lens, i), lens[i]);
  }

  /** A proper prefix of a code word is larger than every code word of its length. */
  lemma {:induction false} ShorterPrefix(lens: seq<Byte>, i: int, n: nat)
    requires Lengths(lens) && Fits(lens) && 0 <= i < |lens| && n < lens[i]
    ensures Val(CodeBits(lens, i)[..n]) >= End(lens, n)
  {
    hide First, Count, Val, ToBits, Pow2, Fits;
    var l: nat := lens[i];
    var bits := CodeBits(lens, i);
    var c, p := End(lens, n), Pow2(l - n);
    CodeRange(lens, i);
    FirstGrows(lens, n, l);
    ValPrefix(bits, n);
    QuotientAtLeast(Val(bits), c, p);
  }

  lemma QuotientAtLeast(x: int, c: int, p: int)
    requires p > 0 && x >= c * p
    ensures x / p >= c
  {
    if x / p < c {
      Distribute(c, x / p, p);
      Multiple(c - x / p, p);
    }
  }

  /** No code word is a prefix of another one. */
  lemma {:induction false} PrefixFree(lens: seq<Byte>, i: int, j: int)
    requires Lengths(lens) && Fits(lens) && 0 <= i < |lens| && 0 <= j < |lens|
    requires CodeBits(lens, i) <= CodeBits(lens, j)
    ensures i == j
  {
    CodeRange(lens, i);
    if lens[i] < lens[j] {
      assert CodeBits(lens, j)[..lens[i]] == CodeBits(lens, i);
      ShorterPrefix(lens, j, lens[i]);
    } else {
      CodeRange(lens, j);
      assert CodeBits(lens, i) == CodeBits(lens, j);
      if i < j { SameLengthOrder(lens, i, j); } else if j < i { SameLengthOrder(lens, j, i); }
    }
  }

  lemma {:induction false} SameLengthOrder(lens: seq<Byte>, i: int, j: int)
    requires 0 <= i < j < |lens| && lens[i] == lens[j]
    ensures Code(lens, i) < Code(lens, j)
  {
    assert lens[..j][..i] == lens[..i];
    CountPrefix(lens[..j], i, lens[i]);
  }

  // ---- the tables ----

  /** What BZ2_hbCreateDecodeTables leaves in limit, base and perm. */
  ghost predicate DecodeTables(lens: seq<Byte>, limit: seq<int>, base: seq<int>, perm: seq<int>, minLen: int,
      maxLen: int) {
    && Lengths(lens) && |limit| == |base| == |perm| == 258 && 1 <= minLen <= maxLen <= MAX_CODE
    && (forall i :: 0 <= i < |lens| ==> minLen <= lens[i] <= maxLen)
    && (forall n :: minLen <= n <= maxLen ==> limit[n] == End(lens, n) - 1)
    && (forall n :: maxLen < n <= MAX_CODE ==> limit[n] == 0)
    && (forall n :: minLen <= n <= maxLen ==> base[n] == First(lens, n) - CountBelow(lens, n))
    && (forall i :: 0 <= i < |lens| ==> StableIndex(lens, i) < 258 && perm[StableIndex(lens, i)] == i)
  }
}

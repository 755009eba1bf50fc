/** What any bits mean as the coded symbols of a block, for any table of lengths, also one that no
    prefix code has. */
module SymbolMeaning {
  import opened Bytes
  import opened Bits
  import opened BitFields
  import opened Counting
  import opened LastFirst
  import opened InverseBwt
  import opened Canonical
  import opened HuffmanTables
  import opened MtfDecoder

  const BZ_G_SIZE: int := 50

  /** v is a code word of length n. */
  ghost predicate IsCode(lens: seq<Byte>, n: nat, v: int) {
    First(lens, n) <= v < End(lens, n)
  }

  /** Its symbol. */
  ghost function Coded(lens: seq<Byte>, n: nat, v: int): (i: int)
    requires IsCode(lens, n, v)
    ensures 0 <= i < |lens|
  {
    BelowNext(lens, n);
    CountWithin(lens, n + 1);
    Successor(lens)[CountBelow(lens, n) + v - First(lens, n)]
  }

  lemma {:induction false} CountWithin(lens: seq<Byte>, n: int)
    ensures CountBelow(lens, n) <= |lens|
  {
  }

  /** The symbol that is coded by v is the one whose code word v is. */
  lemma {:induction false} CodedIs(lens: seq<Byte>, n: nat, v: int, i: int)
    requires IsCode(lens, n, v) && 0 <= i < |lens|
    ensures Coded(lens, n, v) == i <==> lens[i] == n && Code(lens, i) == v
  {
    hide Count, CountBelow, First, InvertsStable;
    BelowNext(lens, n);
    CountWithin(lens, n + 1);
    var d := CountBelow(lens, n) + v - First(lens, n);
    var k := Coded(lens, n, v);
    FirstColumn(lens, d, n);
    SuccessorInverts(lens, d);
    assert lens[k] == n && Code(lens, k) == v;
    if lens[i] == n && Code(lens, i) == v {
      if i < k { SameLengthOrder(lens, i, k); } else if k < i { SameLengthOrder(lens, k, i); }
    }
  }

  lemma SuccessorInverts(l: seq<Byte>, r: int)
    requires 0 <= r < |l|
    ensures StableIndex(l, Successor(l)[r]) == r
  {
  }

  /** The shortest code word that the bits begin with, of n bits at least. */
  ghost function SymbolFrom(lens: seq<Byte>, bits: seq<bool>, n: nat): (m: Read<int>)
    ensures m != Wild && Leaves(m, bits) && (m.Got? ==> 0 <= m.value < |lens|)
    decreases MAX_CODE + 1 - n
  {
    if n > MAX_CODE || n > |bits| then Fail
    else if IsCode(lens, n, Val(bits[..n])) then Got(Coded(lens, n, Val(bits[..n])), bits[n..])
    else SymbolFrom(lens, bits, n + 1)
  }

  ghost function SymbolAt(lens: seq<Byte>, bits: seq<bool>): (m: Read<int>)
    ensures m != Wild && Leaves(m, bits) && (m.Got? ==> 0 <= m.value < |lens|)
  {
    SymbolFrom(lens, bits, 1)
  }

  ghost predicate Selects(selector: seq<int>, n: int) {
    forall k :: 0 <= k < |selector| ==> 0 <= selector[k] < n
  }

  /** The symbol in position k, by the table of its group. */
  ghost function NextAt(lens: seq<seq<Byte>>, selector: seq<int>, bits: seq<bool>, k: nat): (m: Read<int>)
    requires Selects(selector, |lens|)
    ensures m != Wild && Leaves(m, bits) && (m.Got? ==> k < BZ_G_SIZE * |selector|)
    ensures m.Got? ==> 0 <= m.value < |lens[selector[k / BZ_G_SIZE]]|
  {
    if k / BZ_G_SIZE >= |selector| then Fail else SymbolAt(lens[selector[k / BZ_G_SIZE]], bits)
  }

  /** The symbols from position k on, up to the end of the block. */
  ghost function SymbolsAt(lens: seq<seq<Byte>>, selector: seq<int>, eob: int, bits: seq<bool>, k: nat):
      (m: Read<seq<int>>)
    requires Selects(selector, |lens|)
    ensures m != Wild && Leaves(m, bits)
    decreases BZ_G_SIZE * |selector| - k
  {
    var s := NextAt(lens, selector, bits, k);
    if !s.Got? then Fail
    else if s.value == eob then Got([eob], s.rest)
    else Then([s.value], SymbolsAt(lens, selector, eob, s.rest, k + 1))
  }

  /** All tables are for this many symbols. */
  ghost predicate SameAlphabet(lens: seq<seq<Byte>>, alphaSize: int) {
    forall t :: 0 <= t < |lens| ==> |lens[t]| == alphaSize
  }

  /** They are symbols of a block. */
  lemma {:induction false} SymbolsEnd(lens: seq<seq<Byte>>, selector: seq<int>, eob: int, bits: seq<bool>, k: nat)
    requires Selects(selector, |lens|) && SameAlphabet(lens, eob + 1) && 2 <= eob <= 257
    ensures var m := SymbolsAt(lens, selector, eob, bits, k); m.Got? ==> BlockSymbols(m.value, eob)
    decreases BZ_G_SIZE * |selector| - k
  {
    hide NextAt, BlockSymbols;
    OnlyEnd(eob);
    var s := NextAt(lens, selector, bits, k);
    if s.Got? && s.value != eob {
      SymbolsEnd(lens, selector, eob, s.rest, k + 1);
      var m := SymbolsAt(lens, selector, eob, s.rest, k + 1);
      if m.Got? { MoreSymbols(s.value, m.value, eob); }
    }
  }

  lemma OnlyEnd(eob: int)
    requires 2 <= eob <= 257
    ensures BlockSymbols([eob], eob)
  {
  }

  lemma MoreSymbols(s: int, syms: seq<int>, eob: int)
    requires 0 <= s < eob && BlockSymbols(syms, eob)
    ensures BlockSymbols([s] + syms, eob)
  {
  }

  // ---- what the decoding tables decide ----

  /** Below the shortest length no bits are a code word. */
  lemma {:induction false} FromShortest(lens: seq<Byte>, bits: seq<bool>, minLen: int, n: nat)
    requires 1 <= n <= minLen <= MAX_CODE && forall i :: 0 <= i < |lens| ==> minLen <= lens[i]
    ensures SymbolFrom(lens, bits, n) == SymbolFrom(lens, bits, minLen)
    decreases minLen - n
  {
    hide Val;
    if n < minLen {
      NoneShorter(lens, minLen, n);
      FromShortest(lens, bits, minLen, n + 1);
    }
  }

  /** Bits that are no code word, and no code word a bit earlier, are beyond all of their length. */
  lemma {:induction false} BeyondEarlier(lens: seq<Byte>, p: seq<bool>, x: bool)
    requires Val(p) >= End(lens, |p|)
    ensures First(lens, |p| + 1) <= Val(p + [x])
  {
    ValSnoc(p, x);
  }

  /** The comparison with limit, and the entry of perm that it leads to. */
  lemma {:induction false} LimitDecides(lens: seq<Byte>, limit: seq<int>, base: seq<int>, perm: seq<int>, minLen: int,
      maxLen: int, n: nat, v: int)
    requires DecodeTables(lens, limit, base, perm, minLen, maxLen) && minLen <= n <= MAX_CODE && First(lens, n) <= v
    ensures v <= limit[n] <==> IsCode(lens, n, v)
    ensures v <= limit[n] ==> 0 <= v - base[n] < 258 && perm[v - base[n]] == Coded(lens, n, v)
  {
    hide First, Count, CountBelow, StableIndex;
    if n > maxLen {
      BeyondLongest(lens, maxLen, n);
    } else if v <= limit[n] {
      var i := Coded(lens, n, v);
      CodedIs(lens, n, v, i);
      PermAt(lens, n, v, i);
    }
  }

  lemma PermAt(lens: seq<Byte>, n: nat, v: int, i: int)
    requires 0 <= i < |lens| && lens[i] == n && Code(lens, i) == v
    ensures StableIndex(lens, i) == v - (First(lens, n) - CountBelow(lens, n))
  {
  }

  lemma {:induction false} BeyondLongest(lens: seq<Byte>, maxLen: nat, n: nat)
    requires |lens| >= 1 && maxLen < n && forall i :: 0 <= i < |lens| ==> lens[i] <= maxLen
    ensures First(lens, n) >= 1 && Count(lens, n) == 0
    decreases n
  {
    hide Kraft, Count;
    NoneLonger(lens, maxLen, n);
    if n == maxLen + 1 {
      KraftIsFilled(lens, maxLen);
      KraftPositive(lens, maxLen);
    } else {
      BeyondLongest(lens, maxLen, n - 1);
    }
  }

  lemma {:induction false} KraftPositive(lens: seq<Byte>, m: nat)
    requires |lens| >= 1 && forall i :: 0 <= i < |lens| ==> lens[i] <= m
    ensures Kraft(lens, m) >= 1
  {
  }

  lemma {:induction false} NoneLonger(lens: seq<Byte>, maxLen: nat, n: nat)
    requires maxLen < n && forall i :: 0 <= i < |lens| ==> lens[i] <= maxLen
    ensures Count(lens, n) == 0
  {
    if lens != [] { NoneLonger(lens[..|lens| - 1], maxLen, n); }
  }

  // ---- symbols that were sent ----

  lemma {:induction false} CodeFound(lens: seq<Byte>, i: int, rest: seq<bool>, n: nat)
    requires Lengths(lens) && Fits(lens) && 0 <= i < |lens| && 1 <= n <= lens[i]
    ensures SymbolFrom(lens, CodeBits(lens, i) + rest, n) == Got(i, rest)
    decreases lens[i] - n
  {
    hide First, Count, Val, Fits, CodeBits;
    var code := CodeBits(lens, i);
    var bits := code + rest;
    assert bits[..n] == code[..n];
    if n < lens[i] {
      ShorterPrefix(lens, i, n);
      CodeFound(lens, i, rest, n + 1);
    } else {
      CodeRange(lens, i);
      assert code[..n] == code && bits[n..] == rest;
      CodedIs(lens, n, Val(code), i);
    }
  }

  /** A code word that was sent means its symbol. */
  lemma SymbolGiven(lens: seq<Byte>, i: int, rest: seq<bool>)
    requires Lengths(lens) && Fits(lens) && 0 <= i < |lens|
    ensures SymbolAt(lens, CodeBits(lens, i) + rest) == Got(i, rest)
  {
    hide Fits, CodeBits, SymbolFrom;
    CodeFound(lens, i, rest, 1);
  }
}

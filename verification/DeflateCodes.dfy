/** The canonical prefix code of section 3.2.2 of RFC 1951, with its words bit-reversed as they
    stand in the stream. */
module DeflateCodes {
  import opened Bits
  import opened BitReversal
  import opened Counting

  const MAXBITS: nat := 15

  /** Code lengths; zero means that the symbol does not occur. */
  ghost predicate CodeLens(lens: seq<int>) {
    forall i :: 0 <= i < |lens| ==> 0 <= lens[i] <= MAXBITS
  }

  /** The first code of length n (step 2 of the algorithm). */
  function First(lens: seq<int>, n: nat): nat {
    if n <= 1 then 0 else 2 * (First(lens, n - 1) + Count(lens, n - 1))
  }

  /** The code of symbol s (step 3). */
  function Code(lens: seq<int>, s: int): nat
    requires 0 <= s < |lens| && lens[s] >= 0
  {
    First(lens, lens[s]) + Count(lens[..s], lens[s])
  }

  /** What the code shorter than n takes of the code space, in units of 2^-15. */
  function Space(lens: seq<int>, n: nat): nat
    requires n <= 16
  {
    if n <= 1 then 0 else Space(lens, n - 1) + Count(lens, n - 1) * Pow2(15 - (n - 1))
  }

  ghost predicate NotOver(lens: seq<int>) {
    Space(lens, 16) <= Pow2(15)
  }

  ghost predicate Complete(lens: seq<int>) {
    Space(lens, 16) == Pow2(15)
  }

  /** The code of s as it stands in the stream, first bit lowest. */
  function Huff(lens: seq<int>, s: int): nat
    requires 0 <= s < |lens| && lens[s] >= 0
  {
    Rev(Code(lens, s), lens[s])
  }

  /** A symbol that occurs. */
  ghost predicate Used(lens: seq<int>, s: int) {
    0 <= s < |lens| && 0 < lens[s] <= MAXBITS
  }

  /** Where the words of symbol s begin. */
  function Pos(lens: seq<int>, s: int): nat
    requires 0 <= s < |lens| && 0 < lens[s] <= MAXBITS
  {
    Code(lens, s) * Pow2(15 - lens[s])
  }

  /** Shorter codes first, then smaller symbols. */
  ghost predicate Before(lens: seq<int>, s: int, t: int)
    requires 0 <= s < |lens| && 0 <= t < |lens|
  {
    lens[s] < lens[t] || (lens[s] == lens[t] && s < t)
  }

  lemma {:induction false} FirstIsSpace(lens: seq<int>, n: nat)
    requires 1 <= n <= 15
    ensures First(lens, n) * Pow2(15 - n) == Space(lens, n)
  {
    hide Count;
    if n > 1 {
      FirstIsSpace(lens, n - 1);
      var p, f, c := Pow2(15 - n), First(lens, n - 1), Count(lens, n - 1);
      assert Pow2(15 - (n - 1)) == 2 * p;
      MoveTwo(f, c, p);
    }
  }

  lemma MoveTwo(f: nat, c: nat, p: nat)
    ensures 2 * (f + c) * p == f * (2 * p) + c * (2 * p)
  {
  }

  lemma PosForm(lens: seq<int>, s: int)
    requires Used(lens, s)
    ensures Pos(lens, s) == Space(lens, lens[s]) + Count(lens[..s], lens[s]) * Pow2(15 - lens[s])
  {
    hide Count, First, Space, Pow2;
    FirstIsSpace(lens, lens[s]);
    Distribute(First(lens, lens[s]), Count(lens[..s], lens[s]), Pow2(15 - lens[s]));
  }

  lemma {:induction false} SpaceMonotone(lens: seq<int>, m: nat, n: nat)
    requires m <= n <= 16
    ensures Space(lens, m) <= Space(lens, n)
    decreases n
  {
    hide Count;
    if m < n { SpaceMonotone(lens, m, n - 1); }
  }

  lemma SmallerMultiple(x: nat, y: nat, p: nat)
    requires x < y
    ensures x * p + p <= y * p
  {
    assert (y - x - 1) * p >= 0;
  }

  lemma {:induction false} SpaceNext(lens: seq<int>, n: nat)
    requires 1 <= n <= 15
    ensures Space(lens, n + 1) == Space(lens, n) + Count(lens, n) * Pow2(15 - n)
  {
  }

  /** The words of a symbol end within its length's part of the code space. */
  lemma {:induction false} PosEnd(lens: seq<int>, s: int)
    requires Used(lens, s)
    ensures Space(lens, lens[s]) <= Pos(lens, s)
        && Pos(lens, s) + Pow2(15 - lens[s]) <= Space(lens, lens[s] + 1) <= Space(lens, 16)
  {
    hide Count, First, Space, Pow2, Pos;
    var l := lens[s];
    PosForm(lens, s);
    CountPrefix(lens, s, l);
    SmallerMultiple(Count(lens[..s], l), Count(lens, l), Pow2(15 - l));
    SpaceNext(lens, l);
    SpaceMonotone(lens, l + 1, 16);
  }

  lemma {:induction false} PosOrder(lens: seq<int>, s: int, t: int)
    requires Used(lens, s) && Used(lens, t) && Before(lens, s, t)
    ensures Pos(lens, s) + Pow2(15 - lens[s]) <= Pos(lens, t)
  {
    hide Count, First, Space, Pow2, Pos;
    PosForm(lens, s);
    PosForm(lens, t);
    if lens[s] < lens[t] {
      PosEnd(lens, s);
      PosEnd(lens, t);
      SpaceMonotone(lens, lens[s] + 1, lens[t]);
    } else {
      var l := lens[s];
      assert lens[..t][..s] == lens[..s];
      CountPrefix(lens[..t], s, l);
      SmallerMultiple(Count(lens[..s], l), Count(lens[..t], l), Pow2(15 - l));
    }
  }

  lemma SmallerFactor(x: nat, y: nat, p: nat)
    requires x * p < y * p
    ensures x < y
  {
    MonotoneTimes(y, if y <= x then x else y, p);
  }

  lemma {:induction false} CodeFits(lens: seq<int>, s: int)
    requires NotOver(lens) && Used(lens, s)
    ensures Code(lens, s) < Pow2(lens[s])
  {
    hide Count, First, Space, Pow2, Code;
    var l := lens[s];
    PosEnd(lens, s);
    PowPositive(15 - l);
    PowSplit(15, 15 - l);
    SmallerFactor(Code(lens, s), Pow2(l), Pow2(15 - l));
  }

  lemma PowPositive(n: nat)
    ensures Pow2(n) >= 1
  {
  }

  lemma {:induction false} PowMonotone(m: nat, n: nat)
    requires m <= n
    ensures Pow2(m) <= Pow2(n)
    decreases n
  {
    if m < n { PowMonotone(m, n - 1); }
  }

  lemma QuotientAtLeast(x: nat, c: nat, p: nat)
    requires p > 0 && x >= c * p
    ensures x / p >= c
  {
    if x / p < c { SmallerMultiple(x / p, c, p); }
  }

  /** No word begins with the word of an earlier symbol. */
  lemma {:induction false} PrefixFree(lens: seq<int>, s: int, t: int)
    requires NotOver(lens) && Used(lens, s) && Used(lens, t) && Before(lens, s, t)
    ensures Huff(lens, t) % Pow2(lens[s]) != Huff(lens, s)
  {
    hide Count, First, Space, Pow2, Code, NotOver, Rev;
    var ls, lt := lens[s], lens[t];
    var cs, ct := Code(lens, s), Code(lens, t);
    CodeFits(lens, s);
    CodeFits(lens, t);
    PosOrder(lens, s, t);
    PowSplit(15 - ls, 15 - lt);
    PowSplit(lt, lt - ls);
    assert 15 - ls - (15 - lt) == lt - ls && lt - (lt - ls) == ls;
    LeadingApart(cs, ct, Pow2(lt - ls), Pow2(15 - lt), Pow2(ls));
    RevLow(ct, lt, ls);
    if Rev(ct / Pow2(lt - ls), ls) == Rev(cs, ls) { RevInjective(ct / Pow2(lt - ls), cs, ls); }
  }

  lemma LeadingApart(cs: nat, ct: nat, d: nat, u: nat, p: nat)
    requires d > 0 && u > 0 && cs * (d * u) + d * u <= ct * u && ct < p * d
    ensures cs + 1 <= ct / d < p
  {
    assert cs * (d * u) + d * u == (cs + 1) * d * u;
    if ct < (cs + 1) * d { SmallerMultiple(ct, (cs + 1) * d, u); }
    QuotientAtLeast(ct, cs + 1, d);
    if ct / d >= p { MonotoneTimes(p, ct / d, d); }
  }

  lemma MonotoneTimes(x: nat, y: nat, p: nat)
    requires x <= y
    ensures x * p <= y * p
  {
    assert (y - x) * p >= 0;
  }

  /** The symbol that is r-th among those of length l. */
  lemma {:induction false} NthOfLength(lens: seq<int>, l: int, r: nat) returns (s: int)
    requires r < Count(lens, l)
    ensures 0 <= s < |lens| && lens[s] == l && Count(lens[..s], l) == r
  {
    var m := |lens| - 1;
    if lens[m] == l && r == Count(lens[..m], l) {
      s := m;
    } else {
      s := NthOfLength(lens[..m], l, r);
      assert lens[..m][..s] == lens[..s];
    }
  }

  /** The length whose part of the code space holds position q. */
  lemma {:induction false} LengthAt(lens: seq<int>, q: nat, n: nat) returns (l: nat)
    requires n <= 16 && q < Space(lens, n)
    ensures 1 <= l < n && Space(lens, l) <= q < Space(lens, l + 1)
  {
    hide Count;
    if q >= Space(lens, n - 1) {
      l := n - 1;
    } else {
      l := LengthAt(lens, q, n - 1);
    }
  }

  lemma {:induction false} WithinCode(lens: seq<int>, q: nat, l: nat) returns (s: int)
    requires 1 <= l <= 15 && Space(lens, l) <= q < Space(lens, l + 1)
    ensures 0 <= s < |lens| && lens[s] == l && q / Pow2(15 - l) == Code(lens, s)
  {
    hide Count, First, Space, Pow2;
    PowPositive(15 - l);
    SpaceNext(lens, l);
    FirstIsSpace(lens, l);
    var u, d := Pow2(15 - l), q - Space(lens, l);
    var r := d / u;
    if r >= Count(lens, l) { MonotoneTimes(Count(lens, l), r, u); }
    s := NthOfLength(lens, l, r);
    assert q == First(lens, l) * u + (r * u + d % u);
    Distribute(First(lens, l), r, u);
    DivModUnique(q, u, First(lens, l) + r, d % u);
  }

  lemma {:induction false} LowOfLow(w: nat, m: nat, n: nat)
    requires m <= n
    ensures w % Pow2(n) % Pow2(m) == w % Pow2(m)
  {
    hide Pow2;
    PowPositive(m);
    PowPositive(n);
    PowSplit(n, m);
    LowModulo(w, Pow2(n - m), Pow2(m));
  }

  lemma LowModulo(w: nat, a: nat, p: nat)
    requires a > 0 && p > 0
    ensures a * p > 0 && w % (a * p) % p == w % p
  {
    assert a * p > 0;
    var q, r := w / (a * p), w % (a * p);
    assert w == q * (a * p) + r;
    Reassociate(q, a, p);
    MultipleMod(q * a, p, r);
  }

  /** In a complete code every word begins with the word of some symbol. */
  lemma {:induction false} EveryWord(lens: seq<int>, w: nat) returns (s: int)
    requires Complete(lens)
    ensures Used(lens, s) && w % Pow2(lens[s]) == Huff(lens, s)
  {
    hide Count, First, Space, Pow2, Code, Rev;
    PowPositive(15);
    var v := w % Pow2(15);
    var q := Rev(v, 15);
    RevBound(v, 15);
    RevTwice(v, 15);
    var l := LengthAt(lens, q, 16);
    s := WithinCode(lens, q, l);
    RevLow(q, 15, l);
    LowOfLow(w, l, 15);
  }
}

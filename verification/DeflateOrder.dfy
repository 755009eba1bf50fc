/** The order in which inflate_table enters the symbols, and how that order runs through the
    code space. */
module DeflateOrder {
  import opened Bits
  import opened BitReversal
  import opened Counting
  import opened DeflateCodes

  /** Symbols with a code shorter than n. */
  function Offs(lens: seq<int>, n: nat): nat {
    if n <= 1 then 0 else Offs(lens, n - 1) + Count(lens, n - 1)
  }

  /** The place of s when the symbols are sorted by length. */
  function Place(lens: seq<int>, s: int): nat
    requires 0 <= s < |lens| && lens[s] >= 0
  {
    Offs(lens, lens[s]) + Count(lens[..s], lens[s])
  }

  /** All symbols that occur, in order. */
  ghost predicate Sorted(lens: seq<int>, work: seq<int>) {
    && Offs(lens, 16) <= |work|
    && (forall s :: Used(lens, s) ==> Place(lens, s) < |work| && work[Place(lens, s)] == s)
    && (forall k :: 0 <= k < Offs(lens, 16) ==> Used(lens, work[k]) && Place(lens, work[k]) == k)
  }

  lemma {:induction false} OffsMonotone(lens: seq<int>, m: nat, n: nat)
    requires m <= n
    ensures Offs(lens, m) <= Offs(lens, n)
    ensures n <= 16 && Offs(lens, m) == Offs(lens, n) ==> Space(lens, m) == Space(lens, n)
    decreases n
  {
    hide Count, Pow2;
    if m < n {
      OffsMonotone(lens, m, n - 1);
      NoneTimes(if n <= 16 && n >= 1 then Pow2(16 - n) else 0);
    }
  }

  lemma {:induction false} NoneShorter(lens: seq<int>, n: nat)
    requires n <= 16 && forall l :: 1 <= l < n ==> Count(lens, l) == 0
    ensures Offs(lens, n) == 0 && Space(lens, n) == 0
  {
    hide Count;
    if n > 1 { NoneShorter(lens, n - 1); }
  }

  lemma NoneTimes(p: nat)
    ensures 0 * p == 0
  {
  }

  lemma OffsNext(lens: seq<int>, n: nat)
    requires n >= 1
    ensures Offs(lens, n + 1) == Offs(lens, n) + Count(lens, n)
  {
  }

  /** A symbol stands among those of its length. */
  lemma {:induction false} PlaceRange(lens: seq<int>, s: int)
    requires Used(lens, s)
    ensures Offs(lens, lens[s]) <= Place(lens, s) < Offs(lens, lens[s] + 1) <= Offs(lens, 16)
  {
    hide Count, Offs;
    CountPrefix(lens, s, lens[s]);
    OffsNext(lens, lens[s]);
    OffsMonotone(lens, lens[s] + 1, 16);
  }

  lemma {:induction false} PlaceOrder(lens: seq<int>, s: int, t: int)
    requires Used(lens, s) && Used(lens, t) && Before(lens, s, t)
    ensures Place(lens, s) < Place(lens, t)
  {
    hide Count, Offs;
    if lens[s] < lens[t] {
      PlaceRange(lens, s);
      PlaceRange(lens, t);
      OffsMonotone(lens, lens[s] + 1, lens[t]);
    } else {
      assert lens[..t][..s] == lens[..s];
      CountPrefix(lens[..t], s, lens[s]);
    }
  }

  /** Places decide the order. */
  lemma {:induction false} OrderOfPlaces(lens: seq<int>, s: int, t: int)
    requires Used(lens, s) && Used(lens, t) && Place(lens, s) < Place(lens, t)
    ensures Before(lens, s, t)
  {
    hide Count, Offs, Place;
    if s != t && !Before(lens, s, t) { PlaceOrder(lens, t, s); }
  }

  lemma {:induction false} LengthAtPlace(lens: seq<int>, k: nat, n: nat) returns (l: nat)
    requires k < Offs(lens, n)
    ensures 1 <= l < n && Offs(lens, l) <= k < Offs(lens, l + 1)
  {
    hide Count;
    if k >= Offs(lens, n - 1) {
      l := n - 1;
    } else {
      l := LengthAtPlace(lens, k, n - 1);
    }
  }

  /** Every place is taken. */
  lemma {:induction false} SymbolAtPlace(lens: seq<int>, k: nat) returns (s: int)
    requires k < Offs(lens, 16)
    ensures Used(lens, s) && Place(lens, s) == k
  {
    hide Count, Offs;
    var l := LengthAtPlace(lens, k, 16);
    OffsNext(lens, l);
    s := NthOfLength(lens, l, k - Offs(lens, l));
  }

  lemma {:induction false} SortedBothWays(lens: seq<int>, work: seq<int>)
    requires forall s :: Used(lens, s) ==> Place(lens, s) < |work| && work[Place(lens, s)] == s
    requires Offs(lens, 16) <= |work|
    ensures Sorted(lens, work)
  {
    hide Place, Offs;
    forall k | 0 <= k < Offs(lens, 16) ensures Used(lens, work[k]) && Place(lens, work[k]) == k {
      var s := SymbolAtPlace(lens, k);
    }
  }

  // ---- the code space along the order ----

  /** Words of neighbouring symbols follow one another without a gap. */
  lemma {:induction false} PosStep(lens: seq<int>, s: int, t: int)
    requires Used(lens, s) && Used(lens, t) && Place(lens, t) == Place(lens, s) + 1
    ensures Pos(lens, t) == Pos(lens, s) + Pow2(15 - lens[s]) && lens[s] <= lens[t]
  {
    hide Count, Offs, Space, Pow2, Pos;
    OrderOfPlaces(lens, s, t);
    PosForm(lens, s);
    PosForm(lens, t);
    var l, rs, rt := lens[s], Count(lens[..s], lens[s]), Count(lens[..t], lens[t]);
    OneMoreTimes(rs, Pow2(15 - l));
    if lens[t] > l {
      PlaceRange(lens, s);
      PlaceRange(lens, t);
      OffsMonotone(lens, l + 1, lens[t]);
      OffsNext(lens, l);
      SpaceNext(lens, l);
      NoneTimes(Pow2(15 - lens[t]));
    }
  }

  lemma OneMoreTimes(r: nat, p: nat)
    ensures (r + 1) * p == r * p + p
  {
  }

  /** The words still to come of the length of s end its length's part. */
  lemma {:induction false} PosRemaining(lens: seq<int>, s: int)
    requires Used(lens, s)
    ensures Place(lens, s) < Offs(lens, lens[s] + 1)
    ensures Pos(lens, s) + (Offs(lens, lens[s] + 1) - Place(lens, s)) * Pow2(15 - lens[s]) == Space(lens, lens[s] + 1)
  {
    hide Count, Offs, Space, Pow2, Pos;
    var l := lens[s];
    PlaceRange(lens, s);
    PosForm(lens, s);
    OffsNext(lens, l);
    SpaceNext(lens, l);
    Distribute(Count(lens, l) - Count(lens[..s], l), Count(lens[..s], l), Pow2(15 - l));
  }

  /** The reversed code of the next symbol is found by counting backwards. */
  lemma {:induction false} HuffStep(lens: seq<int>, s: int, t: int)
    requires NotOver(lens) && Used(lens, s) && Used(lens, t) && Place(lens, t) == Place(lens, s) + 1
    ensures Huff(lens, t) == Next(Huff(lens, s), lens[s])
  {
    hide Count, Offs, Space, Pow2, Code, Rev, NotOver;
    PosStep(lens, s, t);
    CodeFits(lens, s);
    NextIsNext(Code(lens, s), lens[s]);
    var ls, lt := lens[s], lens[t];
    PowSplit(15 - ls, 15 - lt);
    assert 15 - ls - (15 - lt) == lt - ls;
    PowPositive(15 - lt);
    ScaledCode(Code(lens, s), Code(lens, t), Pow2(lt - ls), Pow2(15 - lt));
    RevShift(Code(lens, s) + 1, ls, lt - ls);
  }

  lemma ScaledCode(cs: nat, ct: nat, d: nat, u: nat)
    requires u > 0 && ct * u == cs * (d * u) + d * u
    ensures ct == (cs + 1) * d
  {
    assert ct * u == (cs + 1) * d * u;
    if ct < (cs + 1) * d { SmallerMultiple(ct, (cs + 1) * d, u); }
    if ct > (cs + 1) * d { SmallerMultiple((cs + 1) * d, ct, u); }
  }

  /** After the last word of a complete code the count is back at zero. */
  lemma {:induction false} HuffEnds(lens: seq<int>, s: int)
    requires Complete(lens) && Used(lens, s) && Place(lens, s) + 1 == Offs(lens, 16)
    ensures Next(Huff(lens, s), lens[s]) == 0
  {
    hide Count, Offs, Space, Pow2, Code, Rev;
    var l := lens[s];
    CodeFits(lens, s);
    NextIsNext(Code(lens, s), l);
    PosRemaining(lens, s);
    PlaceRange(lens, s);
    OffsMonotone(lens, l + 1, 16);
    PowSplit(15, 15 - l);
    PowPositive(15 - l);
    OneTimes(Pow2(15 - l));
    ScaledCode(Code(lens, s), Pow2(l), 1, Pow2(15 - l));
    RevOfPow(l);
  }

  lemma OneTimes(p: nat)
    ensures 1 * p == p
  {
  }

  // ---- symbols that share the first bits ----

  /** The first root bits of the words of a longer code, as a number. */
  ghost function Leading(lens: seq<int>, s: int, root: nat): nat
    requires Used(lens, s) && root <= 15
  {
    PowPositive(15 - root);
    Quotient(Pos(lens, s), Pow2(15 - root))
  }

  function Quotient(x: nat, p: nat): (q: nat)
    requires p > 0
    ensures q == x / p
  {
    QuotientAtLeast(x, 0, p);
    x / p
  }

  /** Equal low bits of the reversed codes mean equal first bits. */
  lemma {:induction false} LeadingIsLow(lens: seq<int>, s: int, root: nat)
    requires NotOver(lens) && Used(lens, s) && root <= lens[s]
    ensures Huff(lens, s) % Pow2(root) == Rev(Leading(lens, s, root), root) && Leading(lens, s, root) < Pow2(root)
  {
    hide Count, Space, Pow2, Code, Rev, NotOver;
    var l := lens[s];
    CodeFits(lens, s);
    RevLow(Code(lens, s), l, root);
    PowSplit(15 - root, 15 - l);
    assert 15 - root - (15 - l) == l - root;
    PowPositive(15 - l);
    PowPositive(l - root);
    PowSplit(l, l - root);
    ScaledQuotient(Code(lens, s), Pow2(15 - l), Pow2(l - root));
    if Leading(lens, s, root) >= Pow2(root) { MonotoneTimes(Pow2(root), Leading(lens, s, root), Pow2(l - root)); }
  }

  lemma ScaledQuotient(c: nat, u: nat, d: nat)
    requires u > 0 && d > 0
    ensures d * u > 0 && c * u / (d * u) == c / d && c / d * d <= c
  {
    assert d * u > 0;
    var q, r := c / d, c % d;
    Reassociate(q, d, u);
    assert c * u == q * (d * u) + r * u;
    SmallerMultiple(r, d, u);
    DivModUnique(c * u, d * u, q, r * u);
  }

  lemma {:induction false} SameLeading(lens: seq<int>, s: int, t: int, root: nat)
    requires NotOver(lens) && Used(lens, s) && Used(lens, t) && root <= lens[s] && root <= lens[t]
    ensures Huff(lens, s) % Pow2(root) == Huff(lens, t) % Pow2(root)
        <==> Leading(lens, s, root) == Leading(lens, t, root)
  {
    hide Leading, Pow2, Huff, NotOver, Rev;
    LeadingIsLow(lens, s, root);
    LeadingIsLow(lens, t, root);
    if Rev(Leading(lens, s, root), root) == Rev(Leading(lens, t, root), root) {
      RevInjective(Leading(lens, s, root), Leading(lens, t, root), root);
    }
  }

  lemma QuotientMonotone(x: nat, y: nat, p: nat)
    requires p > 0 && x <= y
    ensures x / p <= y / p
  {
    QuotientAtLeast(y, x / p, p);
  }

  lemma {:induction false} LeadingMonotone(lens: seq<int>, s: int, t: int, root: nat)
    requires Used(lens, s) && Used(lens, t) && Place(lens, s) <= Place(lens, t) && root <= 15
    ensures Leading(lens, s, root) <= Leading(lens, t, root)
  {
    hide Count, Offs, Space, Pow2, Pos, Place;
    PowPositive(15 - root);
    if s != t {
      if Place(lens, s) == Place(lens, t) {
        if Before(lens, s, t) { PlaceOrder(lens, s, t); } else { PlaceOrder(lens, t, s); }
      }
      OrderOfPlaces(lens, s, t);
      PosOrder(lens, s, t);
      PowPositive(15 - lens[s]);
    }
    QuotientMonotone(Pos(lens, s), Pos(lens, t), Pow2(15 - root));
  }

  /** A position is a whole number of units of its own length, hence of every longer one. */
  lemma {:induction false} PosAligned(lens: seq<int>, s: int, n: nat)
    requires Used(lens, s) && lens[s] <= n <= 15
    ensures Pow2(15 - n) > 0 && Pos(lens, s) % Pow2(15 - n) == 0
  {
    hide Pow2, Code;
    var l := lens[s];
    PowPositive(15 - n);
    PowSplit(15 - l, 15 - n);
    Reassociate(Code(lens, s), Pow2(15 - l - (15 - n)), Pow2(15 - n));
    MultipleMod(Code(lens, s) * Pow2(15 - l - (15 - n)), Pow2(15 - n), 0);
  }

  /** Where the first bits change, a part of the code space with new first bits begins. */
  lemma {:induction false} NewLeading(lens: seq<int>, s: int, t: int, root: nat)
    requires Used(lens, s) && Used(lens, t) && Place(lens, t) == Place(lens, s) + 1 && 1 <= root < lens[t]
    requires lens[s] <= root || Leading(lens, s, root) != Leading(lens, t, root)
    ensures Pow2(15 - root) > 0 && Pos(lens, t) % Pow2(15 - root) == 0
  {
    hide Pow2, Pos, Place;
    var ls := lens[s];
    PosStep(lens, s, t);
    PowPositive(15 - root);
    var u := Pow2(15 - root);
    if ls <= root {
      PosAligned(lens, s, root);
      PowSplit(15 - ls, 15 - root);
      PowPositive(15 - ls - (15 - root));
      WholeStep(Pos(lens, s), Pow2(15 - ls - (15 - root)), u);
    } else {
      PosAligned(lens, s, ls);
      PowSplit(15 - root, 15 - ls);
      PowPositive(15 - ls);
      CrossingStep(Pos(lens, s), Pow2(15 - ls), Pow2(15 - root - (15 - ls)));
    }
  }

  lemma WholeStep(p: nat, k: nat, u: nat)
    requires u > 0 && p % u == 0
    ensures (p + k * u) % u == 0
  {
    MultipleMod(k, u, p);
  }

  /** A small step to another multiple of the larger unit ends on it. */
  lemma CrossingStep(p: nat, v: nat, d: nat)
    requires v > 0 && d * v > 0 && p % v == 0 && p / (d * v) != (p + v) / (d * v)
    ensures (p + v) % (d * v) == 0
  {
    var u := d * v;
    var q, m := p / u, p / v;
    var j := m - q * d;
    WholeParts(p, v, d, q, m);
    BetweenMultiples(j, d, v);
    if j + 1 < d {
      SmallerMultiple(j + 1, d, v);
      DivModUnique(p + v, u, q, (j + 1) * v);
    } else {
      OneMoreTimes(q, u);
      MultipleMod(q + 1, u, 0);
    }
  }

  lemma WholeParts(p: nat, v: nat, d: nat, q: int, m: int)
    requires v > 0 && d * v > 0 && p % v == 0 && q == p / (d * v) && m == p / v
    ensures p == q * (d * v) + (m - q * d) * v && 0 <= (m - q * d) * v < d * v
    ensures p + v == q * (d * v) + (m - q * d + 1) * v && 0 <= q
  {
    QuotientAtLeast(p, 0, d * v);
    ThreeTimes(q, d, v);
    Distribute(m, q * d, v);
    Distribute(m - q * d, 1, v);
  }

  lemma ThreeTimes(q: int, d: int, v: int)
    ensures q * (d * v) == q * d * v
  {
  }

  lemma BetweenMultiples(j: int, d: nat, v: nat)
    requires v > 0 && 0 <= j * v < d * v
    ensures 0 <= j < d
  {
    Multiple(j, v);
    Multiple(j - d, v);
    Distribute(j, d, v);
  }
}

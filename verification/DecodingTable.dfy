/** What a two-level decoding table must hold, and how entering one symbol or opening one
    sub-table keeps the symbols already entered. */
module DecodingTable {
  import opened Bits
  import opened BitReversal
  import opened DeflateCodes
  import opened DeflateOrder

  datatype Kind = CODES | LENS | DISTS

  /** An entry: operation and extra bits, bits of the code used, value or offset. */
  datatype Entry = Entry(op: int, bits: int, val: int)

  // Length and distance codes of section 3.2.5 of RFC 1951; the last ones are invalid.
  const LBASE: seq<int> := [3, 4, 5, 6, 7, 8, 9, 10, 11, 13, 15, 17, 19, 23, 27, 31,
                            35, 43, 51, 59, 67, 83, 99, 115, 131, 163, 195, 227, 258, 0, 0]
  const LEXT: seq<int> := [16, 16, 16, 16, 16, 16, 16, 16, 17, 17, 17, 17, 18, 18, 18, 18,
                           19, 19, 19, 19, 20, 20, 20, 20, 21, 21, 21, 21, 16, 77, 202]
  const DBASE: seq<int> := [1, 2, 3, 4, 5, 7, 9, 13, 17, 25, 33, 49, 65, 97, 129, 193,
                            257, 385, 513, 769, 1025, 1537, 2049, 3073, 4097, 6145,
                            8193, 12289, 16385, 24577, 0, 0]
  const DEXT: seq<int> := [16, 16, 16, 16, 17, 17, 18, 18, 19, 19, 20, 20, 21, 21, 22, 22,
                           23, 23, 24, 24, 25, 25, 26, 26, 27, 27,
                           28, 28, 29, 29, 64, 64]

  /** How many symbols a kind of code may have. */
  function Symbols(kind: Kind): nat {
    match kind case CODES => 19 case LENS => 288 case DISTS => 32
  }

  /** The entry that stands for symbol s. */
  function SymEntry(kind: Kind, s: int, bits: int): Entry
    requires 0 <= s < Symbols(kind)
  {
    match kind
    case CODES => Entry(0, bits, s)
    case LENS => if s < 256 then Entry(0, bits, s) else if s == 256 then Entry(96, bits, 0)
        else Entry(LEXT[s - 257], bits, LBASE[s - 257])
    case DISTS => Entry(DEXT[s], bits, DBASE[s])
  }

  predicate Link(e: Entry) { 0 < e.op < 16 }

  lemma LengthExtra(i: int)
    requires 0 <= i < 31
    ensures LEXT[i] >= 16
  {
  }

  lemma DistanceExtra(i: int)
    requires 0 <= i < 32
    ensures DEXT[i] >= 16
  {
  }

  /** Symbols are never mistaken for links. */
  lemma SymbolIsNoLink(kind: Kind, s: int, bits: int)
    requires 0 <= s < Symbols(kind)
    ensures !Link(SymEntry(kind, s, bits))
  {
    hide LEXT, LBASE, DEXT, DBASE;
    LengthExtra(if 257 <= s < 288 then s - 257 else 0);
    DistanceExtra(if s < 32 then s else 0);
  }

  /** What a table is built for. */
  datatype View = View(kind: Kind, lens: seq<int>, root: nat)

  ghost predicate ValidView(v: View) {
    && CodeLens(v.lens) && NotOver(v.lens) && |v.lens| <= Symbols(v.kind) && 1 <= v.root <= 15
  }

  /** A symbol of a short code fills every root entry that begins with its code. */
  ghost predicate InRoot(v: View, t: seq<Entry>, s: int) {
    && Used(v.lens, s) && s < Symbols(v.kind) && Pow2(v.root) <= |t|
    && forall x :: 0 <= x < Pow2(v.root) && x % Pow2(v.lens[s]) == Huff(v.lens, s)
        ==> t[x] == SymEntry(v.kind, s, v.lens[s])
  }

  /** One of a long code: its first bits lead to a sub-table, which it fills likewise. */
  ghost predicate InSub(v: View, t: seq<Entry>, s: int, e: Entry) {
    && Used(v.lens, s) && s < Symbols(v.kind) && v.root < v.lens[s] && Link(e) && e.bits == v.root
    && v.lens[s] - v.root <= e.op && Pow2(v.root) <= e.val && e.val + Pow2(e.op) <= |t|
    && forall i ::
         e.val <= i < e.val + Pow2(e.op) && (i - e.val) % Pow2(v.lens[s] - v.root) == Huff(v.lens, s) / Pow2(v.root) ==>
           t[i] == SymEntry(v.kind, s, v.lens[s] - v.root)
  }

  function RootIndex(v: View, s: int): nat
    requires 0 <= s < |v.lens| && v.lens[s] >= 0
  {
    Huff(v.lens, s) % Pow2(v.root)
  }

  ghost predicate Placed(v: View, t: seq<Entry>, s: int)
    requires Used(v.lens, s)
  {
    if v.lens[s] <= v.root then InRoot(v, t, s)
    else RootIndex(v, s) < |t| && InSub(v, t, s, t[RootIndex(v, s)])
  }

  // ---- looking up ----

  /** Looking up the bits of w in the table finds entry e, counting the bits of both levels. */
  ghost predicate Finds(t: seq<Entry>, root: nat, w: nat, e: Entry) {
    && w % Pow2(root) < |t|
    && var last := t[w % Pow2(root)];
       if Link(last) then
         && last.bits == root
         && var i := last.val + w % Pow2(root + last.op) / Pow2(root);
            0 <= i < |t| && t[i] == Entry(e.op, e.bits - last.bits, e.val)
       else last == e
  }

  lemma {:induction false} MiddleBits(w: nat, root: nat, op: nat)
    ensures w % Pow2(root + op) / Pow2(root) == w / Pow2(root) % Pow2(op)
  {
    hide Pow2;
    PowPositive(root);
    PowPositive(op);
    Pow2Add(root, op);
    MiddleOf(w, Pow2(root), Pow2(op));
  }

  lemma MiddleOf(w: nat, p: nat, q: nat)
    requires p > 0 && q > 0
    ensures p * q > 0 && w % (p * q) / p == w / p % q
  {
    PositiveProduct(p, q);
    QuotientAtLeast(w, 0, p);
    QuotientAtLeast(w / p, 0, q);
    MiddleUnique(w, p, q, w / p / q, w / p % q, w % p);
  }

  lemma MiddleUnique(w: nat, p: nat, q: nat, a: nat, b: nat, r: nat)
    requires p * q > 0 && p > 0 && w == (a * q + b) * p + r && b < q && r < p
    ensures w % (p * q) / p == b
  {
    SplitTwice(a, b, r, p, q);
    SmallerMultiple(b, q, p);
    SwapFactors(p, q);
    DivModUnique(w, p * q, a, b * p + r);
    DivModUnique(b * p + r, p, b, r);
  }

  lemma PositiveProduct(p: nat, q: nat)
    requires p > 0 && q > 0
    ensures p * q > 0
  {
  }

  lemma SwapFactors(p: nat, q: nat)
    ensures p * q == q * p
  {
  }

  lemma SplitTwice(a: nat, b: nat, r: nat, p: nat, q: nat)
    ensures (a * q + b) * p + r == a * (p * q) + (b * p + r)
  {
  }

  /** Whatever bits follow the code of a placed symbol, they are looked up as that symbol, with
      as many bits as its code has. */
  lemma {:induction false} PlacedIsFound(v: View, t: seq<Entry>, s: int, w: nat)
    requires ValidView(v) && Used(v.lens, s) && Placed(v, t, s) && w % Pow2(v.lens[s]) == Huff(v.lens, s)
    ensures s < Symbols(v.kind) && Finds(t, v.root, w, SymEntry(v.kind, s, v.lens[s]))
  {
    hide Pow2, Huff, NotOver;
    var l, root := v.lens[s], v.root;
    PowPositive(root);
    if l <= root {
      LowOfLow(w, l, root);
      SymbolIsNoLink(v.kind, s, l);
      assert t[w % Pow2(root)] == SymEntry(v.kind, s, l);
    } else {
      LowOfLow(w, root, l);
      var e := t[w % Pow2(root)];
      MiddleBits(w, root, e.op);
      MiddleBits(w, root, l - root);
      var y := w / Pow2(root) % Pow2(e.op);
      PowPositive(e.op);
      LowOfLow(w / Pow2(root), l - root, e.op);
      assert t[e.val + y] == SymEntry(v.kind, s, l - root);
    }
  }

  // ---- building ----

  /** The table after k symbols; next, curr and drop are those of the table being filled, and
      low is the root entry that leads to it. */
  ghost predicate Entered(v: View, t: seq<Entry>, s: int, next: nat, drop: nat, low: int) {
    Used(v.lens, s) && Placed(v, t, s)
    && (v.lens[s] > v.root ==>
          drop == v.root && (RootIndex(v, s) == low || t[RootIndex(v, s)].val + Pow2(t[RootIndex(v, s)].op) <= next))
  }

  ghost predicate Current(v: View, t: seq<Entry>, next: nat, curr: nat, drop: nat, low: int) {
    && Pow2(v.root) <= |t| && next + Pow2(curr) <= |t|
    && (drop == 0 || drop == v.root)
    && (drop == 0 ==> next == 0 && curr == v.root)
    && (drop == v.root ==> 0 <= low < Pow2(v.root) <= next && 1 <= curr < 16 && t[low] == Entry(curr, v.root, next))
  }

  ghost predicate Building(v: View, work: seq<int>, t: seq<Entry>, k: nat, next: nat, curr: nat, drop: nat, low: int) {
    && ValidView(v) && Sorted(v.lens, work) && k <= Offs(v.lens, 16) && Current(v, t, next, curr, drop, low)
    && forall j :: 0 <= j < k ==> Entered(v, t, work[j], next, drop, low)
  }

  /** Symbol s belongs into the table being filled. */
  ghost predicate Fits(v: View, s: int, curr: nat, drop: nat, low: int) {
    && Used(v.lens, s) && v.lens[s] <= drop + curr
    && if drop == 0 then v.lens[s] <= v.root else v.lens[s] > v.root && RootIndex(v, s) == low
  }

  /** The entries of t1 are those of t, but every step-th one of a stretch is e. */
  ghost predicate Filled(t: seq<Entry>, t1: seq<Entry>, at: nat, size: nat, step: nat, first: nat, e: Entry)
    requires step > 0
  {
    |t1| == |t| && forall i :: 0 <= i < |t| ==> t1[i] == if at <= i < at + size && (i - at) % step == first then e
        else t[i]
  }

  /** What entering symbol s writes. */
  ghost predicate Wrote(v: View, t: seq<Entry>, t1: seq<Entry>, s: int, next: nat, curr: nat, drop: nat) {
    && Used(v.lens, s) && s < Symbols(v.kind) && drop < v.lens[s]
    && Filled(t, t1, next, Pow2(curr), Pow2(v.lens[s] - drop), Quotient(Huff(v.lens, s), Pow2(drop)),
        SymEntry(v.kind, s, v.lens[s] - drop))
  }

  /** The new symbol is placed. */
  lemma {:induction false} NewPlaced(v: View, t: seq<Entry>, t1: seq<Entry>, s: int, next: nat, curr: nat, drop: nat,
      low: int)
    requires ValidView(v) && Current(v, t, next, curr, drop, low) && Fits(v, s, curr, drop, low)
        && Wrote(v, t, t1, s, next, curr, drop)
    ensures Current(v, t1, next, curr, drop, low) && Entered(v, t1, s, next, drop, low)
  {
    hide NotOver, Huff;
    PowZero();
    hide Pow2;
    if drop == 0 {
      assert v.lens[s] - drop == v.lens[s];
      assert Huff(v.lens, s) / Pow2(0) == Huff(v.lens, s);
    } else {
      assert t1[low] == t[low];
    }
  }

  /** Two codes that agree in their first l bits, split at root. */
  lemma {:induction false} AgreeInBoth(h: nat, g: nat, root: nat, l: nat)
    requires root <= l && g < Pow2(l) && h % Pow2(root) == g % Pow2(root)
    requires h / Pow2(root) % Pow2(l - root) == g / Pow2(root)
    ensures h % Pow2(l) == g
  {
    hide Pow2;
    PowPositive(root);
    PowPositive(l);
    MiddleBits(h, root, l - root);
    LowOfLow(h, root, l);
    SplitEqual(h % Pow2(l), g, Pow2(root));
  }

  lemma SplitEqual(x: nat, y: nat, p: nat)
    requires p > 0 && x % p == y % p && x / p == y / p
    ensures x == y
  {
  }

  lemma {:induction false} HuffFits(v: View, s: int)
    requires ValidView(v) && Used(v.lens, s)
    ensures Huff(v.lens, s) < Pow2(v.lens[s])
  {
    RevBound(Code(v.lens, s), v.lens[s]);
  }

  /** A symbol placed before stays so: its code is no prefix of the new one. */
  lemma {:induction false} OldStays(v: View, t: seq<Entry>, t1: seq<Entry>, s: int, next: nat, curr: nat, drop: nat,
      low: int, old_: int)
    requires ValidView(v) && Current(v, t, next, curr, drop, low) && Fits(v, s, curr, drop, low)
        && Wrote(v, t, t1, s, next, curr, drop)
    requires Entered(v, t, old_, next, drop, low) && Before(v.lens, old_, s)
    ensures Entered(v, t1, old_, next, drop, low)
  {
    hide NotOver, Huff, Pow2;
    PrefixFree(v.lens, old_, s);
    PowPositive(v.root);
    if v.lens[old_] <= v.root {
      RootStays(v, t, t1, s, next, curr, drop, low, old_);
    } else {
      var e := t[RootIndex(v, old_)];
      assert t1[RootIndex(v, old_)] == e;
      SubStays(v, t, t1, s, next, curr, drop, low, old_, e);
    }
  }

  lemma {:induction false} RootStays(v: View, t: seq<Entry>, t1: seq<Entry>, s: int, next: nat, curr: nat, drop: nat,
      low: int, old_: int)
    requires ValidView(v) && Current(v, t, next, curr, drop, low) && Fits(v, s, curr, drop, low)
        && Wrote(v, t, t1, s, next, curr, drop)
    requires InRoot(v, t, old_) && v.lens[old_] <= v.root && v.lens[old_] <= v.lens[s]
    requires Huff(v.lens, s) % Pow2(v.lens[old_]) != Huff(v.lens, old_)
    ensures InRoot(v, t1, old_)
  {
    hide NotOver, Huff;
    PowZero();
    hide Pow2;
    if drop == 0 {
      forall x | 0 <= x < Pow2(v.root) && x % Pow2(v.lens[old_]) == Huff(v.lens, old_) ensures t1[x] == t[x] {
        LowOfLow(x, v.lens[old_], v.lens[s]);
        assert Huff(v.lens, s) / Pow2(0) == Huff(v.lens, s);
      }
    }
  }

  lemma {:induction false} SubStays(v: View, t: seq<Entry>, t1: seq<Entry>, s: int, next: nat, curr: nat, drop: nat,
      low: int, old_: int, e: Entry)
    requires ValidView(v) && Current(v, t, next, curr, drop, low) && Fits(v, s, curr, drop, low)
        && Wrote(v, t, t1, s, next, curr, drop)
    requires InSub(v, t, old_, e) && drop == v.root && v.lens[old_] <= v.lens[s]
    requires (RootIndex(v, old_) == low && e == Entry(curr, v.root, next)) || e.val + Pow2(e.op) <= next
    requires Huff(v.lens, s) % Pow2(v.lens[old_]) != Huff(v.lens, old_)
    ensures InSub(v, t1, old_, e)
  {
    hide NotOver, Huff, Pow2;
    var root, l := v.root, v.lens[old_];
    forall i | e.val <= i < e.val + Pow2(e.op) && (i - e.val) % Pow2(l - root) == Huff(v.lens, old_) / Pow2(root)
        ensures t1[i] == t[i] {
      if e.val == next && e.op == curr && (i - next) % Pow2(v.lens[s] - root) == Huff(v.lens, s) / Pow2(root) {
        LowOfLow(i - next, l - root, v.lens[s] - root);
        HuffFits(v, old_);
        AgreeInBoth(Huff(v.lens, s), Huff(v.lens, old_), root, l);
      }
    }
  }

  /** Entering the symbol at place k. */
  lemma {:induction false} EnterSymbol(v: View, work: seq<int>, t: seq<Entry>, t1: seq<Entry>, k: nat, next: nat,
      curr: nat, drop: nat, low: int)
    requires Building(v, work, t, k, next, curr, drop, low) && k < Offs(v.lens, 16) && Fits(v, work[k], curr, drop, low)
    requires Wrote(v, t, t1, work[k], next, curr, drop)
    ensures Building(v, work, t1, k + 1, next, curr, drop, low)
  {
    hide NotOver, Huff, Pow2, Offs, Entered, Current, Fits, Wrote, Place;
    NewPlaced(v, t, t1, work[k], next, curr, drop, low);
    forall j | 0 <= j < k ensures Entered(v, t1, work[j], next, drop, low) {
      OrderOfPlaces(v.lens, work[j], work[k]);
      OldStays(v, t, t1, work[k], next, curr, drop, low, work[j]);
    }
  }

  // ---- a new sub-table ----

  /** Opening a sub-table of the given size behind the current table leaves every symbol where
      it is, if no symbol has used its root entry. */
  lemma {:induction false} OpenTable(v: View, work: seq<int>, t: seq<Entry>, k: nat, next: nat, curr: nat, drop: nat,
      low: int, bits: nat, t1: seq<Entry>)
    requires Building(v, work, t, k, next, curr, drop, low) && k < Offs(v.lens, 16) && v.lens[work[k]] > v.root
    requires 1 <= bits < 16 && next + Pow2(curr) + Pow2(bits) <= |t|
    requires RootIndex(v, work[k]) < |t| && t1 == t[RootIndex(v, work[k]) := Entry(bits, v.root, next + Pow2(curr))]
    requires forall j :: 0 <= j < k && v.lens[work[j]] > v.root ==> RootIndex(v, work[j]) != RootIndex(v, work[k])
    ensures Building(v, work, t1, k, next + Pow2(curr), bits, v.root, RootIndex(v, work[k]))
  {
    hide NotOver, Huff, Offs, Place;
    PowPositive(curr);
    PowPositive(v.root);
    hide Pow2;
    forall j | 0 <= j < k ensures Entered(v, t1, work[j], next + Pow2(curr), v.root, RootIndex(v, work[k])) {
      OrderOfPlaces(v.lens, work[j], work[k]);
      OpenKeeps(v, t, work[k], next, curr, drop, low, bits, t1, work[j]);
    }
  }

  lemma {:induction false} OpenKeeps(v: View, t: seq<Entry>, s: int, next: nat, curr: nat, drop: nat, low: int,
      bits: nat, t1: seq<Entry>, old_: int)
    requires ValidView(v) && Current(v, t, next, curr, drop, low) && Used(v.lens, s) && v.lens[s] > v.root
    requires RootIndex(v, s) < |t| && t1 == t[RootIndex(v, s) := Entry(bits, v.root, next + Pow2(curr))]
    requires Entered(v, t, old_, next, drop, low) && Before(v.lens, old_, s)
    requires v.lens[old_] > v.root ==> RootIndex(v, old_) != RootIndex(v, s)
    ensures Entered(v, t1, old_, next + Pow2(curr), v.root, RootIndex(v, s))
  {
    hide NotOver, Huff;
    PowPositive(curr);
    PowPositive(v.root);
    hide Pow2;
    PrefixFree(v.lens, old_, s);
    if v.lens[old_] <= v.root {
      LowOfLow(Huff(v.lens, s), v.lens[old_], v.root);
    }
  }
}

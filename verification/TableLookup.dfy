/** Looking bits up in a table of inflate_table: what the two levels give together, and that
    it depends only on the bits of the code found. */
module TableLookup {
  import opened Bits
  import opened Counting
  import opened DeflateCodes
  import opened DecodingTable
  import opened TableSteps
  import opened InflateTable
  import LengthCodes

  /** The entry found for the bits of w, low bit first, counting the bits of both levels. */
  ghost function Look(t: seq<Entry>, root: nat, w: nat): Entry {
    PowPositive(root);
    var i := w % Pow2(root);
    if i >= |t| then INVALID
    else if Link(t[i]) then
      PowPositive(root + t[i].op);
      var j := t[i].val + w % Pow2(root + t[i].op) / Pow2(root);
      if 0 <= j < |t| then Entry(t[j].op, t[j].bits + t[i].bits, t[j].val) else INVALID
    else t[i]
  }

  const INVALID: Entry := Entry(64, 1, 0)

  lemma {:induction false} FoundIsLook(t: seq<Entry>, root: nat, w: nat, e: Entry)
    requires Pow2(root) > 0 && Finds(t, root, w, e)
    ensures Look(t, root, w) == e
  {
    hide Pow2;
    PowPositive(root);
    if Link(t[w % Pow2(root)]) { PowPositive(root + t[w % Pow2(root)].op); }
  }

  /** A set of lengths for which a table is built. */
  ghost predicate Accepted(lens: seq<int>) {
    Complete(lens) || SingleCode(lens)
  }

  /** The tables inflate_table gives: for a code, or the two invalid entries for no code. */
  ghost predicate Built(v: View, t: seq<Entry>) {
    || (ValidView(v) && Accepted(v.lens) && (v.kind == CODES ==> Complete(v.lens)) && Finished(v, t))
    || (Longest(v.lens) == 0 && v.root == 1 && t == [INVALID, INVALID])
  }

  /** Every table that inflate_table reports as good is one of these. */
  lemma {:induction false} TableBuilt(v: View, t: seq<Entry>)
    requires CodeLens(v.lens) && !Refused(v.kind, v.lens) && |v.lens| <= Symbols(v.kind)
    requires Longest(v.lens) > 0 ==> 1 <= v.root <= 15 && Finished(v, t)
    requires Longest(v.lens) == 0 ==> v.root == 1 && t == [INVALID, INVALID]
    ensures Built(v, t)
  {
    hide Pow2, Longest, Finished, Space;
    if Longest(v.lens) > 0 {
      RefusedMeans(v.kind, v.lens);
      if !Complete(v.lens) { MustBeSingle(v.lens); }
    }
  }

  /** Every lookup gives a symbol whose code the bits begin with, or the invalid entry, which
      one bit or none decides. */
  lemma {:induction false} LookGives(v: View, t: seq<Entry>, w: nat) returns (s: int)
    requires Built(v, t)
    ensures s >= 0 ==> Used(v.lens, s) && s < Symbols(v.kind) && ValidView(v) && Finished(v, t)
    ensures s >= 0 ==> w % Pow2(v.lens[s]) == Huff(v.lens, s) && Look(t, v.root, w) == SymEntry(v.kind, s, v.lens[s])
    ensures s < 0 ==>
      Look(t, v.root, w) == INVALID && v.root == 1 && |t| == 2 && (t[0] == INVALID || w % 2 == 1) && t[1] == INVALID
  {
    hide Huff, NotOver, Complete, SingleCode, Finished, Look, Finds;
    PowOne();
    hide Pow2;
    s := -1;
    PowPositive(v.root);
    if Longest(v.lens) == 0 && t == [INVALID, INVALID] && v.root == 1 {
      TwoInvalid(t, w);
    } else if Complete(v.lens) {
      s := LookupTotal(v, t, w);
      FoundIsLook(t, v.root, w, SymEntry(v.kind, s, v.lens[s]));
    } else {
      s := SingleLook(v, t, w);
    }
  }

  lemma {:induction false} TwoInvalid(t: seq<Entry>, w: nat)
    requires t == [INVALID, INVALID]
    ensures Look(t, 1, w) == INVALID
  {
  }

  lemma {:induction false} SingleLook(v: View, t: seq<Entry>, w: nat) returns (s: int)
    requires ValidView(v) && Finished(v, t) && SingleCode(v.lens) && !Complete(v.lens) && v.kind != CODES
    ensures s >= 0 ==> Used(v.lens, s) && s < Symbols(v.kind)
    ensures s >= 0 ==> w % Pow2(v.lens[s]) == Huff(v.lens, s) && Look(t, v.root, w) == SymEntry(v.kind, s, v.lens[s])
    ensures s < 0 ==> Look(t, v.root, w) == INVALID && v.root == 1 && |t| == 2 && w % 2 == 1 && t[1] == INVALID
  {
    hide Huff, NotOver, Complete, Look, Finds, Longest, Count, Placed;
    PowOne();
    hide Pow2;
    PowPositive(v.root);
    s := -1;
    if w % 2 == 1 {
      LookupSingle(v, t, w);
      FoundIsLook(t, v.root, w, INVALID);
    } else {
      s := TheSingle(v.lens);
      LookupDecodes(v, t, s, w);
      FoundIsLook(t, v.root, w, SymEntry(v.kind, s, v.lens[s]));
    }
  }

  lemma {:induction false} TheSingle(lens: seq<int>) returns (s: int)
    requires CodeLens(lens) && SingleCode(lens)
    ensures Used(lens, s) && lens[s] == 1 && Huff(lens, s) == 0
  {
    hide Huff, Count;
    LongestReached(lens);
    s :| 0 <= s < |lens| && lens[s] == Longest(lens);
    SingleHuff(lens, s);
  }

  /** Bits that agree with the code found are looked up alike. */
  lemma {:induction false} Steady(v: View, t: seq<Entry>, w: nat, x: nat)
    requires Built(v, t) && Look(t, v.root, w).bits >= 0 && Pow2(Look(t, v.root, w).bits) > 0
    requires x % Pow2(Look(t, v.root, w).bits) == w % Pow2(Look(t, v.root, w).bits)
    ensures Look(t, v.root, x) == Look(t, v.root, w)
  {
    hide Huff, NotOver, Look, Finished, Built;
    PowOne();
    hide Pow2;
    var s := LookGives(v, t, w);
    if s >= 0 {
      SymbolParts(v.kind, s, v.lens[s]);
      LookupDecodes(v, t, s, x);
      PowPositive(v.root);
      FoundIsLook(t, v.root, x, SymEntry(v.kind, s, v.lens[s]));
    } else {
      InvalidSteady(t, w, x);
    }
  }

  lemma {:induction false} InvalidSteady(t: seq<Entry>, w: nat, x: nat)
    requires |t| == 2 && t[1] == INVALID && (t[0] == INVALID || w % 2 == 1) && x % 2 == w % 2
    ensures Look(t, 1, x) == INVALID
  {
  }

  lemma {:induction false} SymbolParts(kind: Kind, s: int, bits: int)
    requires 0 <= s < Symbols(kind)
    ensures SymEntry(kind, s, bits).bits == bits && !Link(SymEntry(kind, s, bits))
    ensures SymEntry(kind, s, bits).op == SymEntry(kind, s, 0).op
        && SymEntry(kind, s, bits).val == SymEntry(kind, s, 0).val
  {
    SymbolIsNoLink(kind, s, bits);
  }

  // ---- the shape of the table ----

  /** What stands at the root for the bits of w, and behind it. */
  ghost predicate Shaped(t: seq<Entry>, root: nat, w: nat) {
    && Pow2(root) > 0 && w % Pow2(root) < |t| && 1 <= Look(t, root, w).bits <= 15 && !Link(Look(t, root, w))
    && var last := t[w % Pow2(root)];
       if Link(last) then
         && last.bits == root && root < Look(t, root, w).bits && Pow2(root + last.op) > 0 && Pow2(last.op) > 0
         && var j := last.val + w / Pow2(root) % Pow2(last.op);
            0 <= j < |t| && j == last.val + w % Pow2(root + last.op) / Pow2(root)
            && t[j].op == Look(t, root, w).op && t[j].bits == Look(t, root, w).bits - root
                && t[j].val == Look(t, root, w).val
       else last == Look(t, root, w)
  }

  lemma {:induction false} LookShaped(v: View, t: seq<Entry>, w: nat)
    requires Built(v, t)
    ensures Shaped(t, v.root, w)
  {
    hide Huff, NotOver, Look, Finished, Complete, SingleCode;
    PowPositive(v.root);
    PowOne();
    hide Pow2;
    var s := LookGives(v, t, w);
    if s >= 0 {
      SymbolParts(v.kind, s, v.lens[s]);
      SymbolShaped(v, t, s, w);
    }
  }

  lemma {:induction false} SymbolShaped(v: View, t: seq<Entry>, s: int, w: nat)
    requires ValidView(v) && Finished(v, t) && Used(v.lens, s) && w % Pow2(v.lens[s]) == Huff(v.lens, s)
    requires s < Symbols(v.kind) && Look(t, v.root, w) == SymEntry(v.kind, s, v.lens[s])
    ensures Shaped(t, v.root, w)
  {
    hide Huff, NotOver, Look, Complete, SingleCode, Placed;
    PowPositive(v.root);
    hide Pow2;
    assert Placed(v, t, s);
    SymbolParts(v.kind, s, v.lens[s]);
    RootEntry(v, t, s, w);
    if v.lens[s] > v.root {
      SubEntry(v, t, s, w);
      var last := t[w % Pow2(v.root)];
      MiddleBits(w, v.root, last.op);
      PowPositive(last.op);
      SymbolParts(v.kind, s, v.lens[s] - v.root);
    }
  }

  /** What the root entry is, for a symbol that is placed. */
  lemma {:induction false} RootEntry(v: View, t: seq<Entry>, c: int, w: nat)
    requires ValidView(v) && Used(v.lens, c) && Placed(v, t, c) && w % Pow2(v.lens[c]) == Huff(v.lens, c)
    ensures Pow2(v.root) > 0 && 0 <= w % Pow2(v.root) < |t| && c < Symbols(v.kind)
    ensures var here := t[w % Pow2(v.root)];
      if v.lens[c] <= v.root then here == SymEntry(v.kind, c, v.lens[c]) else Link(here) && here.bits == v.root
  {
    hide Huff, NotOver, Pow2;
    PowPositive(v.root);
    if v.lens[c] <= v.root {
      LowOfLow(w, v.lens[c], v.root);
    } else {
      LowOfLow(w, v.root, v.lens[c]);
    }
  }

  lemma {:induction false} SubEntry(v: View, t: seq<Entry>, c: int, w: nat)
    requires ValidView(v) && Used(v.lens, c) && Placed(v, t, c) && w % Pow2(v.lens[c]) == Huff(v.lens, c)
        && v.lens[c] > v.root
    ensures Pow2(v.root) > 0 && 0 <= w % Pow2(v.root) < |t| && c < Symbols(v.kind)
    ensures var last := t[w % Pow2(v.root)];
      Link(last) && last.bits == v.root && Pow2(v.root + last.op) > 0
      && 0 <= last.val + w % Pow2(v.root + last.op) / Pow2(v.root) < |t|
      && t[last.val + w % Pow2(v.root + last.op) / Pow2(v.root)] == SymEntry(v.kind, c, v.lens[c] - v.root)
  {
    hide Huff, NotOver, Pow2;
    var root, l := v.root, v.lens[c];
    PowPositive(root);
    RootEntry(v, t, c, w);
    LowOfLow(w, root, l);
    var last := t[w % Pow2(root)];
    PlacedIsFound(v, t, c, w);
    PowPositive(root + last.op);
    EntryWithBits(v.kind, c, l, root);
  }

  lemma EntryWithBits(kind: Kind, c: int, l: int, root: int)
    requires 0 <= c < Symbols(kind)
    ensures var e := SymEntry(kind, c, l); Entry(e.op, e.bits - root, e.val) == SymEntry(kind, c, l - root)
  {
  }

  // ---- what the entries mean ----

  /** Literal, end of block, length base with its extra bits, or an invalid symbol. */
  ghost predicate LengthMeaning(e: Entry) {
    || (e.op == 0 && 0 <= e.val < 256)
    || e.op == 96 || e.op == 64 || e.op == 77 || e.op == 202
    || (16 <= e.op <= 21 && 3 <= e.val && e.val + Pow2(e.op - 16) - 1 <= 258)
  }

  ghost predicate DistanceMeaning(e: Entry) {
    e.op == 64 || (16 <= e.op <= 29 && 1 <= e.val && e.val + Pow2(e.op - 16) - 1 <= 32768)
  }

  lemma {:induction false} LengthEntryMeans(s: int, bits: int)
    requires 0 <= s < 288
    ensures LengthMeaning(SymEntry(LENS, s, bits))
  {
    LengthCodes.SmallPowers();
    hide Pow2;
    if 257 <= s < 270 {
      LowLengths(s - 257);
    } else if 270 <= s {
      HighLengths(s - 257);
    }
  }

  lemma LowLengths(i: int)
    requires 0 <= i < 13
    ensures 16 <= LEXT[i] <= 21 && 3 <= LBASE[i] && LBASE[i] + Pow2(LEXT[i] - 16) - 1 <= 258
  {
    LengthCodes.SmallPowers();
    hide Pow2;
    if i < 6 {
    } else if i < 10 {
    } else {
    }
  }

  lemma HighLengths(i: int)
    requires 13 <= i < 31
    ensures i < 29 ==> 16 <= LEXT[i] <= 21 && 3 <= LBASE[i] && LBASE[i] + Pow2(LEXT[i] - 16) - 1 <= 258
    ensures i == 29 ==> LEXT[i] == 77
    ensures i == 30 ==> LEXT[i] == 202
  {
    LengthCodes.SmallPowers();
    hide Pow2;
    if i < 18 {
    } else if i < 24 {
    } else {
    }
  }

  lemma {:induction false} DistanceEntryMeans(s: int, bits: int)
    requires 0 <= s < 32
    ensures DistanceMeaning(SymEntry(DISTS, s, bits))
  {
    LengthCodes.SmallPowers();
    hide Pow2;
    if s < 8 {
    } else if s < 16 {
    } else if s < 24 {
    } else {
    }
  }

  lemma {:induction false} LookMeans(v: View, t: seq<Entry>, w: nat)
    requires Built(v, t)
    ensures v.kind == LENS ==> LengthMeaning(Look(t, v.root, w))
    ensures v.kind == DISTS ==> DistanceMeaning(Look(t, v.root, w))
  {
    hide Huff, NotOver, Look, Finished, Built, LengthMeaning, DistanceMeaning, SymEntry, Pow2;
    var s := LookGives(v, t, w);
    InvalidMeans();
    if s >= 0 {
      SymbolCounts();
      if v.kind == LENS { LengthEntryMeans(s, v.lens[s]); }
      if v.kind == DISTS { DistanceEntryMeans(s, v.lens[s]); }
    }
  }

  lemma SymbolCounts()
    ensures Symbols(LENS) == 288 && Symbols(DISTS) == 32
  {
  }

  lemma InvalidMeans()
    ensures LengthMeaning(INVALID) && DistanceMeaning(INVALID)
  {
  }
}

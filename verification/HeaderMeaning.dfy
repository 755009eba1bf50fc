/** What any bits mean as the tables before a block's symbols: the byte map, the selectors and the
    code lengths; and that those of an encoder mean what it sent. */
module HeaderMeaning {
  import opened Bytes
  import opened Bits
  import opened BitFields
  import opened MoveToFront
  import opened Canonical
  import opened BlockHeader

  // ---- the mapping table ----

  /** The rows from i on: sixteen bits for each that is marked. */
  ghost function RowsAt(flags: seq<bool>, i: nat, bits: seq<bool>): (m: Read<seq<bool>>)
    requires |flags| == 16 && i <= 16
    ensures m != Wild && Leaves(m, bits) && (m.Got? ==> |m.value| == 16 * (16 - i))
    decreases 16 - i
  {
    if i == 16 then Got([], bits)
    else if !flags[i] then Then(seq(16, _ => false), RowsAt(flags, i + 1, bits))
    else if |bits| < 16 then Fail
    else Then(bits[..16], RowsAt(flags, i + 1, bits[16..]))
  }

  ghost function MapAt(bits: seq<bool>): (m: Read<seq<bool>>)
    ensures m != Wild && Leaves(m, bits) && (m.Got? ==> |m.value| == 256)
  {
    if |bits| < 16 then Fail else RowsAt(bits[..16], 0, bits[16..])
  }

  lemma {:induction false} RowsGiven(u: seq<bool>, i: nat, rest: seq<bool>)
    requires |u| == 256 && i <= 16
    ensures RowsAt(RowMap(u), i, RowBits(u, i) + rest) == Got(u[16 * i..], rest)
    decreases 16 - i
  {
    hide Row, RowUsed;
    if i == 16 {
      assert RowBits(u, i) + rest == rest && u[256..] == [];
    } else {
      RowsGiven(u, i + 1, rest);
      RowIs(u, i);
      if RowUsed(u, i) {
        var bits := RowBits(u, i) + rest;
        assert bits == Row(u, i) + (RowBits(u, i + 1) + rest);
        assert bits[..16] == Row(u, i) && bits[16..] == RowBits(u, i + 1) + rest;
      }
    }
  }

  lemma RowIs(u: seq<bool>, i: nat)
    requires |u| == 256 && i < 16
    ensures Row(u, i) + u[16 * (i + 1)..] == u[16 * i..]
    ensures !RowUsed(u, i) ==> Row(u, i) == seq(16, _ => false)
  {
    if !RowUsed(u, i) {
      forall k | 0 <= k < 16 ensures !Row(u, i)[k] { assert Row(u, i)[k] in Row(u, i); }
    }
  }

  lemma {:induction false} MapGiven(u: seq<bool>, rest: seq<bool>)
    requires |u| == 256
    ensures MapAt(MapBits(u) + rest) == Got(u, rest)
  {
    hide RowMap, RowBits, RowsAt;
    var bits := MapBits(u) + rest;
    assert bits == RowMap(u) + (RowBits(u, 0) + rest);
    assert bits[..16] == RowMap(u) && bits[16..] == RowBits(u, 0) + rest;
    RowsGiven(u, 0, rest);
    assert u[0..] == u;
  }

  // ---- the selectors ----

  datatype SelectorPart = SelectorPart(nGroups: int, selector: seq<Byte>)

  ghost predicate Below(js: seq<int>, n: int) {
    forall i :: 0 <= i < |js| ==> 0 <= js[i] < n
  }

  /** Undoing the list positions. */
  ghost function Undone(js: seq<int>, pos: seq<Byte>): (s: seq<Byte>)
    requires Below(js, |pos|)
    ensures |s| == |js|
  {
    if js == [] then [] else [pos[js[0]]] + Undone(js[1..], ToFront(pos, js[0]))
  }

  lemma {:induction false} TakenBelow(bits: seq<bool>, nGroups: nat, n: nat)
    ensures Below(TakeSelectors(bits, nGroups, n).js, nGroups)
    decreases n
  {
    hide Ones;
    if n > 0 && Ones(bits) < nGroups && Ones(bits) < |bits| { TakenBelow(bits[Ones(bits) + 1..], nGroups, n - 1); }
  }

  lemma {:induction false} TakesNoMore(bits: seq<bool>, nGroups: nat, n: nat)
    ensures |TakeSelectors(bits, nGroups, n).rest| <= |bits|
    ensures TakeSelectors(bits, nGroups, n).end == AllTaken ==> |TakeSelectors(bits, nGroups, n).js| == n
    decreases n
  {
    hide Ones;
    if n > 0 && Ones(bits) < nGroups && Ones(bits) < |bits| { TakesNoMore(bits[Ones(bits) + 1..], nGroups, n - 1); }
  }

  lemma {:induction false} UndoneInList(js: seq<int>, pos: seq<Byte>, nGroups: int)
    requires Below(js, |pos|) && forall x :: x in pos ==> x < nGroups
    ensures forall i :: 0 <= i < |js| ==> Undone(js, pos)[i] < nGroups
  {
    if js != [] {
      FrontMembers(pos, js[0]);
      UndoneInList(js[1..], ToFront(pos, js[0]), nGroups);
      var s := Undone(js, pos);
      assert pos[js[0]] in pos && s[1..] == Undone(js[1..], ToFront(pos, js[0]));
      forall i | 0 <= i < |js| ensures s[i] < nGroups { if i > 0 { assert s[i] == s[1..][i - 1]; } }
    }
  }

  /** The selectors; no more positions may be taken than the arrays have room for. */
  ghost function SelectorsAt(bits: seq<bool>): (m: Read<SelectorPart>)
    ensures Leaves(m, bits) && (m.Got? ==> Selectors(m.value.selector, m.value.nGroups))
  {
    var n := FieldAt(bits, 3);
    if n.Got? && 2 <= n.value <= 6 then CountAt(n.value, n.rest) else Fail
  }

  ghost function CountAt(nGroups: int, bits: seq<bool>): (m: Read<SelectorPart>)
    requires 2 <= nGroups <= 6
    ensures Leaves(m, bits) && (m.Got? ==> Selectors(m.value.selector, m.value.nGroups))
  {
    var n := FieldAt(bits, 15);
    if n.Got? && n.value >= 1 then PositionsAt(nGroups, n.value, n.rest) else Fail
  }

  ghost function PositionsAt(nGroups: int, nSelectors: int, bits: seq<bool>): (m: Read<SelectorPart>)
    requires 2 <= nGroups <= 6 && nSelectors >= 1
    ensures Leaves(m, bits) && (m.Got? ==> Selectors(m.value.selector, m.value.nGroups))
  {
    var t := TakeSelectors(bits, nGroups, nSelectors);
    TakenBelow(bits, nGroups, nSelectors);
    TakesNoMore(bits, nGroups, nSelectors);
    UndoneInList(t.js, FirstList(nGroups), nGroups);
    if |t.js| > BZ_MAX_SELECTORS then Wild
    else if t.end != AllTaken then Fail
    else Got(SelectorPart(nGroups, Undone(t.js, FirstList(nGroups))), t.rest)
  }

  lemma {:induction false} UndonePositions(selector: seq<Byte>, pos: seq<Byte>, nGroups: int, k: nat)
    requires Selectors(selector, nGroups) && ListsAll(pos, nGroups) && k <= |selector|
    ensures (forall i :: k <= i < |selector| ==> selector[i] in pos) && Below(Positions(selector, pos, k), |pos|)
    ensures Undone(Positions(selector, pos, k), pos) == selector[k..]
    decreases |selector| - k
  {
    if k < |selector| {
      PositionsStep(selector, pos, nGroups, k, []);
      var j := PositionOf(pos, selector[k]);
      UndonePositions(selector, ToFront(pos, j), nGroups, k + 1);
      var js := Positions(selector, pos, k);
      assert js[1..] == Positions(selector, ToFront(pos, j), k + 1);
      assert [selector[k]] + selector[k + 1..] == selector[k..];
    }
  }

  lemma {:induction false} SelectorsGiven(selector: seq<Byte>, nGroups: int, rest: seq<bool>)
    requires Selectors(selector, nGroups) && 1 <= |selector| <= BZ_MAX_SELECTORS
    ensures var js := SelectorMtf(selector, nGroups);
      SelectorsAt(ToBits(nGroups, 3) + (ToBits(|selector|, 15) + UnaryAll(js, 0)) + rest) ==
      Got(SelectorPart(nGroups, selector), rest)
  {
    hide Positions, UnaryAll, TakeSelectors, Undone, ToBits;
    SelectorFields();
    var js := SelectorMtf(selector, nGroups);
    var x, y, z := ToBits(nGroups, 3), ToBits(|selector|, 15), UnaryAll(js, 0);
    assert x + (y + z) + rest == x + (y + (z + rest));
    FieldGiven(nGroups, 3, y + (z + rest));
    FieldGiven(|selector|, 15, z + rest);
    SelectorsBack(js, 0, rest, nGroups);
    assert js[0..] == js;
    FirstListsAll(nGroups);
    UndonePositions(selector, FirstList(nGroups), nGroups, 0);
    assert selector[0..] == selector;
  }

  lemma SelectorFields()
    ensures Pow2(3) == 8 && Pow2(15) == 0x8000
  {
    Pow2Values();
    assert Pow2(4) == 16;
    assert Pow2(7) == 128;
    Pow2Add(8, 7);
  }

  // ---- the coding tables ----

  /** From curr to the next length, one step up or down at a time, always within 1 to 20. */
  ghost function WalkAt(bits: seq<bool>, curr: int): (m: Read<int>)
    ensures m != Wild && Leaves(m, bits) && (m.Got? ==> 1 <= m.value <= 20)
    decreases |bits|
  {
    if curr < 1 || curr > 20 || bits == [] then Fail
    else if !bits[0] then Got(curr, bits[1..])
    else if |bits| == 1 then Fail
    else WalkAt(bits[2..], if bits[1] then curr - 1 else curr + 1)
  }

  /** Lengths of a table with n of them. */
  ghost predicate Table(lens: seq<Byte>, n: nat) {
    |lens| == n && forall i :: 0 <= i < n ==> 1 <= lens[i] <= 20
  }

  ghost function LengthsAt(bits: seq<bool>, curr: int, n: nat): (m: Read<seq<Byte>>)
    ensures m != Wild && Leaves(m, bits) && (m.Got? ==> Table(m.value, n))
    decreases n
  {
    if n == 0 then Got([], bits)
    else
      var c := WalkAt(bits, curr);
      if c.Got? then Then([c.value], LengthsAt(c.rest, c.value, n - 1)) else Fail
  }

  ghost function TableAt(bits: seq<bool>, alphaSize: nat): (m: Read<seq<Byte>>)
    ensures m != Wild && Leaves(m, bits) && (m.Got? ==> Table(m.value, alphaSize))
  {
    var c := FieldAt(bits, 5);
    if c.Got? then LengthsAt(c.rest, c.value, alphaSize) else Fail
  }

  ghost predicate Tables(lens: seq<seq<Byte>>, alphaSize: nat, n: nat) {
    |lens| == n && forall t :: 0 <= t < n ==> Table(lens[t], alphaSize)
  }

  ghost function TablesAt(bits: seq<bool>, alphaSize: nat, n: nat): (m: Read<seq<seq<Byte>>>)
    ensures m != Wild && Leaves(m, bits) && (m.Got? ==> Tables(m.value, alphaSize, n))
    decreases n
  {
    if n == 0 then Got([], bits)
    else
      var t := TableAt(bits, alphaSize);
      if t.Got? then Then([t.value], TablesAt(t.rest, alphaSize, n - 1)) else Fail
  }

  lemma {:induction false} WalkGiven(curr: int, len: int, rest: seq<bool>)
    requires 1 <= curr <= 20 && 1 <= len <= 20
    ensures WalkAt(Steps(curr, len) + rest, curr) == Got(len, rest)
    decreases if curr < len then len - curr else curr - len
  {
    var bits := Steps(curr, len) + rest;
    if curr == len {
      assert bits[1..] == rest;
    } else {
      var next := if curr < len then curr + 1 else curr - 1;
      WalkGiven(next, len, rest);
      assert bits[2..] == Steps(next, len) + rest;
    }
  }

  lemma {:induction false} LengthsGiven(lens: seq<Byte>, curr: int, i: nat, rest: seq<bool>)
    requires Lengths(lens) && 1 <= curr <= 20 && i <= |lens|
    ensures LengthsAt(Deltas(lens, curr, i) + rest, curr, |lens| - i) == Got(lens[i..], rest)
    decreases |lens| - i
  {
    hide WalkAt, Steps;
    if i == |lens| {
      assert Deltas(lens, curr, i) + rest == rest;
    } else {
      var more := Deltas(lens, lens[i], i + 1) + rest;
      assert Deltas(lens, curr, i) + rest == Steps(curr, lens[i]) + more;
      WalkGiven(curr, lens[i], more);
      LengthsGiven(lens, lens[i], i + 1, rest);
      assert [lens[i]] + lens[i + 1..] == lens[i..];
    }
  }

  lemma {:induction false} TableGiven(lens: seq<Byte>, rest: seq<bool>)
    requires Lengths(lens)
    ensures TableAt(LengthBits(lens) + rest, |lens|) == Got(lens, rest)
  {
    hide LengthsAt, Deltas, ToBits, Pow2;
    FiveBits();
    var tail := Deltas(lens, lens[0], 0) + rest;
    assert LengthBits(lens) + rest == ToBits(lens[0], 5) + tail;
    FieldGiven(lens[0], 5, tail);
    LengthsGiven(lens, lens[0], 0, rest);
    assert lens[0..] == lens;
  }

  lemma {:induction false} TablesGiven(lens: seq<seq<Byte>>, alphaSize: nat, t: nat, rest: seq<bool>)
    requires t <= |lens| && forall u :: 0 <= u < |lens| ==> Lengths(lens[u]) && |lens[u]| == alphaSize
    ensures TablesAt(AllLengths(lens, t) + rest, alphaSize, |lens| - t) == Got(lens[t..], rest)
    decreases |lens| - t
  {
    hide Lengths, LengthBits, TableAt;
    if t == |lens| {
      assert AllLengths(lens, t) + rest == rest;
    } else {
      var more := AllLengths(lens, t + 1) + rest;
      assert AllLengths(lens, t) + rest == LengthBits(lens[t]) + more;
      TableGiven(lens[t], more);
      TablesGiven(lens, alphaSize, t + 1, rest);
      assert [lens[t]] + lens[t + 1..] == lens[t..];
    }
  }
}

/** Receiving the tables before a block's symbols: whatever the bits are, each loop finds just what
    they mean, however the input is cut into calls. */
module HeaderReader {
  import opened Bytes
  import opened BitStream
  import opened BitFields
  import opened MoveToFront
  import opened BlockHeader
  import opened HeaderMeaning

  // ---- the mapping table ----

  /** One row of sixteen bytes. */
  method MarkRow(inUse: array<bool>, i: int, row: seq<bool>)
    requires inUse.Length == 256 && 0 <= i < 16 && |row| == 16
    requires forall k :: i * 16 <= k < 256 ==> !inUse[k]
    modifies inUse
    ensures inUse[..i * 16 + 16] == old(inUse[..i * 16]) + row
    ensures forall k :: i * 16 + 16 <= k < 256 ==> !inUse[k]
  {
    ghost var u := inUse[..i * 16];
    for j := 0 to 16
      invariant inUse[..i * 16 + j] == u + row[..j]
      invariant forall k :: i * 16 + j <= k < 256 ==> !inUse[k]
    {
      if row[j] { inUse[i * 16 + j] := true; }
    }
    assert row[..16] == row;
  }

  lemma NextRow(flags: seq<bool>, i: nat, bits: seq<bool>, head: seq<bool>)
    requires |flags| == 16 && i < 16
    ensures !flags[i] ==>
      Then(head, RowsAt(flags, i, bits)) == Then(head + seq(16, _ => false), RowsAt(flags, i + 1, bits))
    ensures flags[i] && |bits| < 16 ==> Then(head, RowsAt(flags, i, bits)) == Fail
    ensures flags[i] && |bits| >= 16 ==>
      Then(head, RowsAt(flags, i, bits)) == Then(head + bits[..16], RowsAt(flags, i + 1, bits[16..]))
  {
    if !flags[i] {
      ThenThen(head, seq(16, _ => false), RowsAt(flags, i + 1, bits));
    } else if |bits| >= 16 {
      ThenThen(head, bits[..16], RowsAt(flags, i + 1, bits[16..]));
    }
  }

  method ReadMap(r: BitReader) returns (ok: bool, inUse: array<bool>)
    requires r.Valid()
    modifies r
    ensures r.Valid() && fresh(inUse) && inUse.Length == 256
    ensures Reads(MapAt(old(r.Coming())), ok, inUse[..], r.Coming())
  {
    hide RowsAt, BitReader.Valid, BitReader.Coming;
    ghost var all := MapAt(r.Coming());
    inUse := new bool[256](_ => false);
    var inUse16;
    ok, inUse16 := ReadBits(r, 16);
    if !ok { return; }
    assert inUse[..0] == [];
    ThenNothing(RowsAt(inUse16, 0, r.Coming()));
    for i := 0 to 16
      invariant r.Valid() && ok && |inUse16| == 16
      invariant all == Then(inUse[..i * 16], RowsAt(inUse16, i, r.Coming()))
      invariant forall k :: i * 16 <= k < 256 ==> !inUse[k]
    {
      NextRow(inUse16, i, r.Coming(), inUse[..i * 16]);
      if inUse16[i] {
        var row;
        ok, row := ReadBits(r, 16);
        if !ok { return; }
        MarkRow(inUse, i, row);
      } else {
        assert inUse[..i * 16 + 16] == inUse[..i * 16] + seq(16, _ => false);
      }
    }
    NoMoreRows(inUse16, r.Coming());
    assert inUse[..256] == inUse[..] && inUse[..] + [] == inUse[..];
  }

  lemma NoMoreRows(flags: seq<bool>, bits: seq<bool>)
    requires |flags| == 16
    ensures RowsAt(flags, 16, bits) == Got([], bits)
  {
  }

  // ---- the selectors ----

  /** decompress.c:292-298: counts ones up to the zero. */
  method ReadUnary(r: BitReader, nGroups: nat) returns (end: SelectorEnd, j: nat)
    requires r.Valid() && nGroups > 0
    modifies r
    ensures r.Valid() && Taken(if end == AllTaken then [j] else [], end, r.Coming()) ==
        TakeSelectors(old(r.Coming()), nGroups, 1)
    ensures end == AllTaken ==> j == Ones(old(r.Coming())) < nGroups
  {
    hide BitReader.Valid, BitReader.Coming, Ones;
    ghost var bits := r.Coming();
    assert bits[0..] == bits;
    j := 0;
    while true
      invariant r.Valid() && j <= Ones(bits) && j < nGroups && r.Coming() == bits[j..]
      decreases nGroups - j
    {
      OnesNext(bits, j);
      var ok, uc := ReadBit(r);
      if !ok { return InputEnds, j; }
      assert bits[j..][1..] == bits[j + 1..];
      if !uc { return AllTaken, j; }
      j := j + 1;
      if j >= nGroups { return TooLong, j; }
    }
  }

  /** The rest of the loop after i positions. */
  lemma {:induction false} TakeOne(bits: seq<bool>, nGroups: nat, n: nat)
    requires n > 0
    ensures var one := TakeSelectors(bits, nGroups, 1); var all := TakeSelectors(bits, nGroups, n);
      if one.end == AllTaken then
        all == Taken(one.js + TakeSelectors(one.rest, nGroups, n - 1).js, TakeSelectors(one.rest, nGroups, n - 1).end,
                     TakeSelectors(one.rest, nGroups, n - 1).rest)
      else all == one && one.js == []
  {
    hide Ones;
  }

  /** Receiving the list positions into the array of the decoder: every entry it writes is in the
      array if and only if the array has room for those that are taken. */
  method ReadSelectors(r: BitReader, nGroups: nat, nSelectors: nat, selectorMtf: array<Byte>) returns (end: SelectorEnd)
    requires r.Valid() && 0 < nGroups <= 6
    requires |TakeSelectors(r.Coming(), nGroups, nSelectors).js| <= selectorMtf.Length
    modifies r, selectorMtf
    ensures var t := TakeSelectors(old(r.Coming()), nGroups, nSelectors);
      r.Valid() && end == t.end && selectorMtf[..|t.js|] == t.js && r.Coming() == t.rest
  {
    hide BitReader.Valid, BitReader.Coming, TakeSelectors;
    ghost var all, done := TakeSelectors(r.Coming(), nGroups, nSelectors), [];
    for i := 0 to nSelectors
      invariant r.Valid() && |done| == i <= selectorMtf.Length && selectorMtf[..i] == done
      invariant var t := TakeSelectors(r.Coming(), nGroups, nSelectors - i);
        all.js == done + t.js && all.end == t.end && all.rest == t.rest
    {
      TakeOne(r.Coming(), nGroups, nSelectors - i);
      var j;
      end, j := ReadUnary(r, nGroups);
      if end != AllTaken { return; }
      selectorMtf[i] := j;
      done := done + [j as int];
      assert selectorMtf[..i + 1] == selectorMtf[..i] + [j];
    }
    NoneTaken(r.Coming(), nGroups);
    end := AllTaken;
  }

  lemma NoneTaken(bits: seq<bool>, nGroups: nat)
    ensures TakeSelectors(bits, nGroups, 0) == Taken([], AllTaken, bits)
  {
  }

  /** decompress.c:308-312: takes the table at a list position, shifting the list down. */
  method TakeTable(pos: array<Byte>, nGroups: int, v0: int) returns (tmp: Byte)
    requires 0 <= v0 < nGroups <= pos.Length
    modifies pos
    ensures tmp == old(pos[v0]) && pos[..nGroups] == ToFront(old(pos[..nGroups]), v0)
  {
    hide ToFront;
    ghost var p0 := pos[..];
    var v := v0;
    tmp := pos[v];
    while v > 0
      invariant 0 <= v <= v0
      invariant forall q :: 0 <= q < pos.Length ==> pos[q] == p0[if v < q <= v0 then q - 1 else q]
    {
      pos[v] := pos[v - 1];
      v := v - 1;
    }
    pos[0] := tmp;
    ShiftedToFront(p0[..nGroups], v0, pos[..nGroups]);
  }

  /** Undoing the MTF values for the selectors (decompress.c:302-314). */
  method UndoSelectorMtf(nGroups: int, nSelectors: int, selectorMtf: array<Byte>, selector: array<Byte>)
    requires 2 <= nGroups <= 6 && 0 <= nSelectors <= selectorMtf.Length && nSelectors <= selector.Length
    requires selector != selectorMtf && Below(selectorMtf[..nSelectors], nGroups)
    modifies selector
    ensures selector[..nSelectors] == Undone(selectorMtf[..nSelectors], FirstList(nGroups))
  {
    hide ToFront, Undone;
    var pos := InitList(nGroups);
    ghost var mtf := selectorMtf[..nSelectors];
    assert mtf[0..] == mtf && selector[..0] == [];
    for i := 0 to nSelectors
      modifies pos, selector
      invariant selectorMtf[..nSelectors] == mtf && |pos[..nGroups]| == nGroups && Below(mtf[i..], nGroups)
      invariant selector[..i] + Undone(mtf[i..], pos[..nGroups]) == Undone(mtf, FirstList(nGroups))
    {
      UndoOne(mtf, i, pos[..nGroups], selector[..i]);
      assert selectorMtf[i] == mtf[i];
      var tmp := TakeTable(pos, nGroups, selectorMtf[i]);
      selector[i] := tmp;
      assert selector[..i + 1] == selector[..i] + [tmp];
    }
    NothingUndone(mtf, nSelectors, pos[..nGroups], selector[..nSelectors]);
  }

  lemma {:induction false} UndoOne(js: seq<int>, i: nat, pos: seq<Byte>, done: seq<Byte>)
    requires i < |js| && Below(js[i..], |pos|)
    ensures 0 <= js[i] < |pos| && Below(js[i + 1..], |pos|)
    ensures done + Undone(js[i..], pos) == done + [pos[js[i]]] + Undone(js[i + 1..], ToFront(pos, js[i]))
  {
    hide ToFront;
    var rest := js[i..];
    var more := js[i + 1..];
    assert rest[0] == js[i] && rest[1..] == more;
    forall k | 0 <= k < |more| ensures 0 <= more[k] < |pos| { assert more[k] == rest[k + 1]; }
    assert done + ([pos[js[i]]] + Undone(rest[1..], ToFront(pos, js[i]))) ==
           done + [pos[js[i]]] + Undone(js[i + 1..], ToFront(pos, js[i]));
  }

  lemma {:induction false} NothingUndone(js: seq<int>, i: nat, pos: seq<Byte>, done: seq<Byte>)
    requires i == |js| && Below(js[i..], |pos|)
    ensures done + Undone(js[i..], pos) == done
  {
  }

  /** Receiving the selectors (decompress.c:286-314). */
  method ReadSelectorPart(r: BitReader) returns (ok: bool, nGroups: int, selector: seq<Byte>)
    requires r.Valid() && SelectorsAt(r.Coming()) != Wild
    modifies r
    ensures r.Valid() && Reads(SelectorsAt(old(r.Coming())), ok, SelectorPart(nGroups, selector), r.Coming())
  {
    hide BitReader.Valid, BitReader.Coming, FieldAt, TakeSelectors, Undone, FirstList;
    selector := [];
    ok, nGroups := ReadField(r, 3);
    if !ok { return; }
    if nGroups < 2 || nGroups > 6 { return false, nGroups, []; }
    var nSelectors;
    ok, nSelectors := ReadField(r, 15);
    if !ok { return; }
    if nSelectors < 1 { return false, nGroups, []; }
    ghost var bits := r.Coming();
    TakenBelow(bits, nGroups, nSelectors);
    TakesNoMore(bits, nGroups, nSelectors);
    var selectorMtf, selectors := new Byte[18_002](_ => 0), new Byte[18_002](_ => 0);
    var end := ReadSelectors(r, nGroups, nSelectors, selectorMtf);
    if end != AllTaken { return false, nGroups, []; }
    UndoSelectorMtf(nGroups, nSelectors, selectorMtf, selectors);
    selector := selectors[..nSelectors];
  }

  // ---- the coding tables ----

  /** decompress.c:320-326 for one symbol. */
  method ReadSteps(r: BitReader, curr0: int) returns (ok: bool, curr: int)
    requires r.Valid()
    modifies r
    ensures r.Valid() && Reads(WalkAt(old(r.Coming()), curr0), ok, curr, r.Coming())
  {
    hide BitReader.Valid, BitReader.Coming;
    ghost var all := WalkAt(r.Coming(), curr0);
    ok, curr := true, curr0;
    while true
      invariant r.Valid() && ok && all == WalkAt(r.Coming(), curr)
      decreases |r.Coming()|
    {
      ghost var bits := r.Coming();
      if curr < 1 || curr > 20 { return false, curr; }
      var uc;
      ok, uc := ReadBit(r);
      if !ok { return; }
      if !uc { break; }
      ok, uc := ReadBit(r);
      if !ok { return; }
      assert bits[1..][1..] == bits[2..];
      if !uc { curr := curr + 1; } else { curr := curr - 1; }
    }
  }

  method ReadLengths(r: BitReader, alphaSize: nat) returns (ok: bool, len: seq<Byte>)
    requires r.Valid()
    modifies r
    ensures r.Valid() && Reads(TableAt(old(r.Coming()), alphaSize), ok, len, r.Coming())
  {
    hide BitReader.Valid, BitReader.Coming, FieldAt, WalkAt, LengthsAt;
    ghost var all := TableAt(r.Coming(), alphaSize);
    len := [];
    var curr;
    ok, curr := ReadField(r, 5);
    if !ok { return; }
    ThenNothing(LengthsAt(r.Coming(), curr, alphaSize));
    for i := 0 to alphaSize
      invariant r.Valid() && ok && all == Then(len, LengthsAt(r.Coming(), curr, alphaSize - i))
    {
      NextLength(r.Coming(), curr, alphaSize - i, len);
      ok, curr := ReadSteps(r, curr);
      if !ok { return; }
      len := len + [curr];
    }
    NoMoreLengths(r.Coming(), curr, len);
  }

  lemma {:induction false} NextLength(bits: seq<bool>, curr: int, n: nat, head: seq<Byte>)
    requires n > 0
    ensures var c := WalkAt(bits, curr);
      Then(head, LengthsAt(bits, curr, n)) ==
      if c.Got? then Then(head + [c.value], LengthsAt(c.rest, c.value, n - 1)) else Fail
  {
    hide WalkAt;
    var c := WalkAt(bits, curr);
    if c.Got? { ThenThen(head, [c.value], LengthsAt(c.rest, c.value, n - 1)); }
  }

  lemma {:induction false} NoMoreLengths(bits: seq<bool>, curr: int, head: seq<Byte>)
    ensures Then(head, LengthsAt(bits, curr, 0)) == Got(head, bits)
  {
    assert head + [] == head;
  }

  method ReadAllLengths(r: BitReader, nGroups: nat, alphaSize: nat) returns (ok: bool, lens: seq<seq<Byte>>)
    requires r.Valid()
    modifies r
    ensures r.Valid() && Reads(TablesAt(old(r.Coming()), alphaSize, nGroups), ok, lens, r.Coming())
  {
    hide BitReader.Valid, BitReader.Coming, TableAt, TablesAt;
    ghost var all := TablesAt(r.Coming(), alphaSize, nGroups);
    lens, ok := [], true;
    ThenNothing(all);
    for t := 0 to nGroups
      invariant r.Valid() && ok && all == Then(lens, TablesAt(r.Coming(), alphaSize, nGroups - t))
    {
      NextTable(r.Coming(), alphaSize, nGroups - t, lens);
      var len;
      ok, len := ReadLengths(r, alphaSize);
      if !ok { return; }
      lens := lens + [len];
    }
    NoMoreTables(r.Coming(), alphaSize, lens);
  }

  lemma {:induction false} NextTable(bits: seq<bool>, alphaSize: nat, n: nat, head: seq<seq<Byte>>)
    requires n > 0
    ensures var t := TableAt(bits, alphaSize);
      Then(head, TablesAt(bits, alphaSize, n)) ==
      if t.Got? then Then(head + [t.value], TablesAt(t.rest, alphaSize, n - 1)) else Fail
  {
    hide TableAt;
    var t := TableAt(bits, alphaSize);
    if t.Got? { ThenThen(head, [t.value], TablesAt(t.rest, alphaSize, n - 1)); }
  }

  lemma {:induction false} NoMoreTables(bits: seq<bool>, alphaSize: nat, head: seq<seq<Byte>>)
    ensures Then(head, TablesAt(bits, alphaSize, 0)) == Got(head, bits)
  {
    assert head + [] == head;
  }
}

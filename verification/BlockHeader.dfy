/** The tables sent before a block's symbols: the byte map, the selectors and the code
    lengths, as bit strings, with their writing and reading loops. */
module BlockHeader {
  import opened Bytes
  import opened Bits
  import opened BitStream
  import opened MoveToFront
  import opened Canonical

  function Bit(b: bool): (v: int) { if b then 1 else 0 }

  method WriteBit(w: BitWriter, b: bool)
    requires w.Valid()
    modifies w
    ensures |old(w.zbits)| <= |w.zbits|
    ensures w.Valid() && w.Written() == old(w.Written()) + [b]
  {
    assert ToBits(Bit(b), 1) == [b];
    w.Write(1, Bit(b));
  }

  /** A run of one-bit writes. */
  method WriteBits(w: BitWriter, bits: seq<bool>)
    requires w.Valid()
    modifies w
    ensures |old(w.zbits)| <= |w.zbits|
    ensures w.Valid() && w.Written() == old(w.Written()) + bits
  {
    hide BitWriter.Valid, BitWriter.Written;
    ghost var w0 := w.Written();
    for i := 0 to |bits|
      invariant w.Valid() && |old(w.zbits)| <= |w.zbits| && w.Written() == w0 + bits[..i]
    {
      WriteBit(w, bits[i]);
      assert bits[..i + 1] == bits[..i] + [bits[i]];
    }
    assert bits[..|bits|] == bits;
  }

  // ---- the mapping table ----

  function Row(inUse: seq<bool>, i: int): (row: seq<bool>)
    requires |inUse| == 256 && 0 <= i < 16
    ensures |row| == 16
  {
    inUse[i * 16..i * 16 + 16]
  }

  /** Which of the sixteen rows of sixteen bytes hold a used byte. */
  predicate RowUsed(inUse: seq<bool>, i: int)
    requires |inUse| == 256 && 0 <= i < 16
  {
    true in Row(inUse, i)
  }

  function RowMap(inUse: seq<bool>): (m: seq<bool>)
    requires |inUse| == 256
    ensures |m| == 16 && forall i :: 0 <= i < 16 ==> m[i] == RowUsed(inUse, i)
  {
    seq(16, i requires 0 <= i < 16 => RowUsed(inUse, i))
  }

  /** The bits of the used rows from row i on. */
  ghost function RowBits(inUse: seq<bool>, i: nat): seq<bool>
    requires |inUse| == 256 && i <= 16
    decreases 16 - i
  {
    if i == 16 then []
    else if RowUsed(inUse, i) then Row(inUse, i) + RowBits(inUse, i + 1)
    else RowBits(inUse, i + 1)
  }

  ghost function MapBits(inUse: seq<bool>): seq<bool>
    requires |inUse| == 256
  {
    RowMap(inUse) + RowBits(inUse, 0)
  }

  method WriteMap(w: BitWriter, inUse: seq<bool>)
    requires w.Valid() && |inUse| == 256
    modifies w
    ensures |old(w.zbits)| <= |w.zbits|
    ensures w.Valid() && w.Written() == old(w.Written()) + MapBits(inUse)
  {
    hide RowUsed, Row, RowBits, BitWriter.Valid, BitWriter.Written;
    ghost var w0 := w.Written();
    var inUse16 := RowMap(inUse);
    WriteBits(w, inUse16);
    assert w0 + inUse16 + RowBits(inUse, 0) == w0 + MapBits(inUse);
    for i := 0 to 16
      invariant w.Valid() && |old(w.zbits)| <= |w.zbits| && w.Written() + RowBits(inUse, i) == w0 + MapBits(inUse)
    {
      RowStep(inUse, i, w.Written());
      if inUse16[i] { WriteBits(w, Row(inUse, i)); }
    }
    NoRows(inUse, w.Written());
  }

  lemma {:induction false} RowStep(u: seq<bool>, i: nat, before: seq<bool>)
    requires |u| == 256 && i < 16
    ensures RowUsed(u, i) ==> before + RowBits(u, i) == before + Row(u, i) + RowBits(u, i + 1)
    ensures !RowUsed(u, i) ==> RowBits(u, i) == RowBits(u, i + 1)
  {
  }

  lemma {:induction false} NoRows(u: seq<bool>, before: seq<bool>)
    requires |u| == 256
    ensures before + RowBits(u, 16) == before
  {
  }

  // ---- the selectors ----

  /** The arrays for the selectors have room for this many. */
  const BZ_MAX_SELECTORS: int := 18_002

  /** A selector's list position: that many ones and a zero. */
  function Unary(j: nat): (b: seq<bool>)
    ensures |b| == j + 1
  {
    if j == 0 then [false] else [true] + Unary(j - 1)
  }

  /** List positions of the selectors from k on, given the list of tables, latest first. */
  ghost function Positions(selector: seq<Byte>, pos: seq<Byte>, k: nat): (js: seq<int>)
    requires k <= |selector| && forall i :: k <= i < |selector| ==> selector[i] in pos
    ensures |js| == |selector| - k && forall i :: 0 <= i < |js| ==> 0 <= js[i] < |pos|
    decreases |selector| - k
  {
    if k == |selector| then []
    else
      var j := PositionOf(pos, selector[k]);
      FrontMembers(pos, j);
      [j] + Positions(selector, ToFront(pos, j), k + 1)
  }

  function UnaryAll(js: seq<int>, k: nat): seq<bool>
    requires k <= |js| && forall i :: 0 <= i < |js| ==> 0 <= js[i]
    decreases |js| - k
  {
    if k == |js| then [] else Unary(js[k]) + UnaryAll(js, k + 1)
  }

  function PositionOf(pos: seq<Byte>, x: Byte): (j: nat)
    requires x in pos
    ensures j < |pos| && pos[j] == x && x !in pos[..j]
  {
    if pos[0] == x then 0 else
      var j := PositionOf(pos[1..], x);
      assert pos[..j + 1] == [pos[0]] + pos[1..][..j];
      j + 1
  }

  lemma {:induction false} FirstPosition(pos: seq<Byte>, x: Byte, j: int)
    requires 0 <= j < |pos| && pos[j] == x
    ensures PositionOf(pos, x) <= j
  {
    if pos[0] != x { FirstPosition(pos[1..], x, j - 1); }
  }

  lemma FrontMembers(pos: seq<Byte>, j: int)
    requires 0 <= j < |pos|
    ensures forall x :: x in pos <==> x in ToFront(pos, j)
  {
    var t := ToFront(pos, j);
    forall x | x in pos ensures x in t {
      var i :| 0 <= i < |pos| && pos[i] == x;
      assert t[if i == j then 0 else if i < j then i + 1 else i] == x;
    }
  }

  /** compress.c:466-475: finds the table in the list while shifting the list down. */
  method FindTable(pos: array<Byte>, nGroups: int, ll_i: Byte) returns (j: int)
    requires 0 < nGroups <= pos.Length && ll_i in pos[..nGroups]
    modifies pos
    ensures j == PositionOf(old(pos[..nGroups]), ll_i)
    ensures pos[..nGroups] == ToFront(old(pos[..nGroups]), j)
  {
    hide PositionOf, ToFront;
    ghost var p0, s := pos[..], pos[..nGroups];
    ghost var m := PositionOf(s, ll_i);
    j := 0;
    var tmp := pos[j];
    while ll_i != tmp
      invariant 0 <= j <= m && tmp == p0[j]
      invariant forall q :: 0 <= q < pos.Length ==> pos[q] == p0[if 1 <= q <= j then q - 1 else q]
      decreases m - j
    {
      assert s[m] == ll_i;
      j := j + 1;
      var tmp2 := tmp;
      tmp := pos[j];
      pos[j] := tmp2;
    }
    pos[0] := tmp;
    assert s[j] == ll_i;
    FirstPosition(s, ll_i, j);
    ShiftedToFront(s, j, pos[..nGroups]);
  }

  ghost predicate Selectors(selector: seq<Byte>, nGroups: int) {
    2 <= nGroups <= 6 && forall k :: 0 <= k < |selector| ==> selector[k] < nGroups
  }

  /** The list before the first selector: 0, 1, ... */
  function FirstList(nGroups: nat): (pos: seq<Byte>)
    requires nGroups <= 6
    ensures |pos| == nGroups && forall x :: 0 <= x < nGroups ==> pos[x] == x
  {
    seq(nGroups, x requires 0 <= x < nGroups => x)
  }

  /** Every table is somewhere in the list. */
  ghost predicate ListsAll(pos: seq<Byte>, nGroups: int) {
    |pos| == nGroups && forall x :: 0 <= x < nGroups ==> x in pos
  }

  lemma FirstListsAll(nGroups: nat)
    requires nGroups <= 6
    ensures ListsAll(FirstList(nGroups), nGroups)
  {
    forall x | 0 <= x < nGroups ensures x in FirstList(nGroups) { assert FirstList(nGroups)[x] == x; }
  }

  method InitList(nGroups: int) returns (pos: array<Byte>)
    requires 2 <= nGroups <= 6
    ensures fresh(pos) && pos.Length == 6 && pos[..nGroups] == FirstList(nGroups)
  {
    pos := new Byte[6];
    for v := 0 to nGroups
      invariant forall x :: 0 <= x < v ==> pos[x] == x
    {
      pos[v] := v;
    }
  }

  method WriteUnary(w: BitWriter, j: nat)
    requires w.Valid()
    modifies w
    ensures |old(w.zbits)| <= |w.zbits|
    ensures w.Valid() && w.Written() == old(w.Written()) + Unary(j)
  {
    hide BitWriter.Valid, BitWriter.Written;
    ghost var w0 := w.Written();
    for k := 0 to j
      invariant w.Valid() && |old(w.zbits)| <= |w.zbits| && w.Written() + Unary(j - k) == w0 + Unary(j)
    {
      ghost var before := w.Written();
      WriteBit(w, true);
      assert before + ([true] + Unary(j - k - 1)) == before + [true] + Unary(j - k - 1);
    }
    WriteBit(w, false);
  }

  // ---- list positions, from whatever bits ----

  /** How reading ends. */
  datatype SelectorEnd = AllTaken | TooLong | InputEnds

  /** The list positions taken, how it ended, and the bits left. */
  datatype Taken = Taken(js: seq<int>, end: SelectorEnd, rest: seq<bool>)

  /** Ones at the front. */
  function Ones(bits: seq<bool>): (n: nat)
    ensures n <= |bits|
  {
    if bits != [] && bits[0] then 1 + Ones(bits[1..]) else 0
  }

  /** What the loop over the selectors takes from any bits. */
  function TakeSelectors(bits: seq<bool>, nGroups: nat, n: nat): Taken
    decreases n
  {
    if n == 0 then Taken([], AllTaken, bits)
    else
      var j := Ones(bits);
      if j >= nGroups then Taken([], TooLong, bits[nGroups..])
      else if j == |bits| then Taken([], InputEnds, [])
      else
        var t := TakeSelectors(bits[j + 1..], nGroups, n - 1);
        Taken([j] + t.js, t.end, t.rest)
  }

  lemma {:induction false} OnesNext(bits: seq<bool>, j: nat)
    requires j <= Ones(bits)
    ensures j < |bits| ==> (bits[j] <==> j < Ones(bits))
    ensures j == |bits| ==> j == Ones(bits)
    decreases j
  {
    if j > 0 { OnesNext(bits[1..], j - 1); }
  }

  /** The encoding is read back. */
  lemma {:induction false} SelectorsBack(js: seq<int>, k: nat, rest: seq<bool>, nGroups: nat)
    requires k <= |js| && forall i :: 0 <= i < |js| ==> 0 <= js[i] < nGroups
    ensures TakeSelectors(UnaryAll(js, k) + rest, nGroups, |js| - k) == Taken(js[k..], AllTaken, rest)
    decreases |js| - k
  {
    if k == |js| {
      assert UnaryAll(js, k) + rest == rest;
    } else {
      var more := UnaryAll(js, k + 1) + rest;
      var bits := UnaryAll(js, k) + rest;
      assert bits == Unary(js[k]) + more;
      UnaryOnes(js[k], more);
      assert bits[js[k] + 1..] == more;
      SelectorsBack(js, k + 1, rest, nGroups);
      assert js[k..] == [js[k]] + js[k + 1..];
    }
  }

  lemma {:induction false} UnaryOnes(j: nat, more: seq<bool>)
    ensures Ones(Unary(j) + more) == j
  {
    if j > 0 {
      assert (Unary(j) + more)[1..] == Unary(j - 1) + more;
      UnaryOnes(j - 1, more);
    }
  }

  lemma {:induction false} TakesAtMost(bits: seq<bool>, nGroups: nat, n: nat)
    ensures |TakeSelectors(bits, nGroups, n).js| <= n
    decreases n
  {
    hide Ones;
    if n > 0 && Ones(bits) < nGroups && Ones(bits) < |bits| { TakesAtMost(bits[Ones(bits) + 1..], nGroups, n - 1); }
  }

  function Zeros(n: nat): (bits: seq<bool>)
    ensures |bits| == n
  {
    if n == 0 then [] else [false] + Zeros(n - 1)
  }

  lemma {:induction false} ZerosTaken(nGroups: nat, n: nat)
    requires nGroups > 0
    ensures |TakeSelectors(Zeros(n), nGroups, n).js| == n
  {
    if n > 0 {
      assert Zeros(n)[1..] == Zeros(n - 1);
      ZerosTaken(nGroups, n - 1);
    }
  }

  /** The decoder does not compare the count of selectors with the room it has for them. Its loop
      stays in the array whatever bits follow just for those counts that an encoder may send; for
      any greater one that the field can hold, zeros are an input for which it does not. */
  lemma {:induction false} SelectorsInBounds(nGroups: nat, nSelectors: nat)
    requires nGroups > 0
    ensures (forall bits :: |TakeSelectors(bits, nGroups, nSelectors).js| <= BZ_MAX_SELECTORS) <==>
      nSelectors <= BZ_MAX_SELECTORS
    ensures nSelectors > BZ_MAX_SELECTORS
        ==> |TakeSelectors(Zeros(nSelectors), nGroups, nSelectors).js| > BZ_MAX_SELECTORS
  {
    hide TakeSelectors, Zeros;
    ZerosTaken(nGroups, nSelectors);
    forall bits ensures |TakeSelectors(bits, nGroups,
        nSelectors).js| <= nSelectors { TakesAtMost(bits, nGroups, nSelectors); }
  }

  ghost predicate Known(selector: seq<Byte>, nGroups: int) {
    2 <= nGroups <= 6 && forall i :: 0 <= i < |selector| ==> selector[i] in FirstList(nGroups)
  }

  lemma SelectorsKnown(selector: seq<Byte>, nGroups: int)
    requires Selectors(selector, nGroups)
    ensures Known(selector, nGroups)
  {
    FirstListsAll(nGroups);
  }

  ghost function SelectorMtf(selector: seq<Byte>, nGroups: int): (js: seq<int>)
    requires Selectors(selector, nGroups)
    ensures |js| == |selector| && forall i :: 0 <= i < |js| ==> 0 <= js[i] < nGroups
  {
    SelectorsKnown(selector, nGroups);
    Positions(selector, FirstList(nGroups), 0)
  }

  lemma {:induction false} PositionsStep(selector: seq<Byte>, pos: seq<Byte>, nGroups: int, k: nat, before: seq<int>)
    requires Selectors(selector, nGroups) && ListsAll(pos, nGroups) && k < |selector|
    ensures selector[k] in pos && forall i :: 0 <= i < |selector| ==> selector[i] in pos
    ensures var j := PositionOf(pos, selector[k]);
      && ListsAll(ToFront(pos, j), nGroups) && (forall i :: 0 <= i < |selector| ==> selector[i] in ToFront(pos, j))
      && before + Positions(selector, pos, k) == before + [j] + Positions(selector, ToFront(pos, j), k + 1)
  {
    FrontMembers(pos, PositionOf(pos, selector[k]));
  }

  /** Computing MTF values for the selectors (compress.c:461-479). */
  method ComputeSelectorMtf(nGroups: int, selector: seq<Byte>) returns (selectorMtf: seq<int>)
    requires Selectors(selector, nGroups)
    ensures selectorMtf == SelectorMtf(selector, nGroups)
  {
    hide Positions, PositionOf, ToFront;
    FirstListsAll(nGroups);
    var pos := InitList(nGroups);
    selectorMtf := [];
    for i := 0 to |selector|
      modifies pos
      invariant ListsAll(pos[..nGroups], nGroups)
      invariant selectorMtf + Positions(selector, pos[..nGroups], i) == SelectorMtf(selector, nGroups)
    {
      PositionsStep(selector, pos[..nGroups], nGroups, i, selectorMtf);
      var j := FindTable(pos, nGroups, selector[i]);
      selectorMtf := selectorMtf + [j];
    }
    assert Positions(selector, pos[..nGroups], |selector|) == [];
  }

  method WriteSelectors(w: BitWriter, selectorMtf: seq<int>)
    requires w.Valid() && forall i :: 0 <= i < |selectorMtf| ==> 0 <= selectorMtf[i]
    modifies w
    ensures |old(w.zbits)| <= |w.zbits|
    ensures w.Valid() && w.Written() == old(w.Written()) + UnaryAll(selectorMtf, 0)
  {
    hide BitWriter.Valid, BitWriter.Written, Unary;
    ghost var w0 := w.Written();
    for i := 0 to |selectorMtf|
      invariant w.Valid() && |old(w.zbits)| <= |w.zbits|
      invariant w.Written() + UnaryAll(selectorMtf, i) == w0 + UnaryAll(selectorMtf, 0)
    {
      ghost var before := w.Written();
      WriteUnary(w, selectorMtf[i]);
      assert before + (Unary(selectorMtf[i]) + UnaryAll(selectorMtf, i + 1)) ==
             before + Unary(selectorMtf[i]) + UnaryAll(selectorMtf, i + 1);
    }
    assert w.Written() + [] == w.Written();
  }

  // ---- the coding tables ----

  /** From curr to one length after another: 10 per step up, 11 per step down, 0 to stop. */
  function Steps(curr: int, len: int): (b: seq<bool>)
    decreases if curr < len then len - curr else curr - len
  {
    if curr < len then [true, false] + Steps(curr + 1, len)
    else if curr > len then [true, true] + Steps(curr - 1, len)
    else [false]
  }

  function Deltas(lens: seq<Byte>, curr: int, i: nat): seq<bool>
    requires i <= |lens|
    decreases |lens| - i
  {
    if i == |lens| then [] else Steps(curr, lens[i]) + Deltas(lens, lens[i], i + 1)
  }

  function LengthBits(lens: seq<Byte>): seq<bool>
    requires Lengths(lens)
  {
    ToBits(lens[0], 5) + Deltas(lens, lens[0], 0)
  }

  ghost function AllLengths(lens: seq<seq<Byte>>, t: nat): seq<bool>
    requires t <= |lens| && forall u :: 0 <= u < |lens| ==> Lengths(lens[u])
    decreases |lens| - t
  {
    if t == |lens| then [] else LengthBits(lens[t]) + AllLengths(lens, t + 1)
  }

  method WriteSteps(w: BitWriter, curr0: int, len: int) returns (curr: int)
    requires w.Valid()
    modifies w
    ensures |old(w.zbits)| <= |w.zbits|
    ensures w.Valid() && curr == len && w.Written() == old(w.Written()) + Steps(curr0, len)
  {
    hide BitWriter.Valid, BitWriter.Written, Steps, ToBits, Pow2;
    ghost var w0 := w.Written();
    curr := curr0;
    TwoBits();
    while curr < len
      invariant w.Valid() && |old(w.zbits)| <= |w.zbits| && w.Written() + Steps(curr, len) == w0 + Steps(curr0, len)
    {
      StepOnce(curr, len, w.Written());
      w.Write(2, 2);
      curr := curr + 1;
    }
    while curr > len
      invariant w.Valid() && |old(w.zbits)| <= |w.zbits| && curr >= len
      invariant w.Written() + Steps(curr, len) == w0 + Steps(curr0, len)
    {
      StepOnce(curr, len, w.Written());
      w.Write(2, 3);
      curr := curr - 1;
    }
    WriteBit(w, false);
    StepOnce(curr, len, []);
  }

  lemma {:induction false} StepOnce(curr: int, len: int, before: seq<bool>)
    ensures curr < len ==> before + Steps(curr, len) == before + [true, false] + Steps(curr + 1, len)
    ensures curr > len ==> before + Steps(curr, len) == before + [true, true] + Steps(curr - 1, len)
    ensures curr == len ==> Steps(curr, len) == [false]
  {
    if curr < len {
      assert before + ([true, false] + Steps(curr + 1, len)) == before + [true, false] + Steps(curr + 1, len);
    } else if curr > len {
      assert before + ([true, true] + Steps(curr - 1, len)) == before + [true, true] + Steps(curr - 1, len);
    }
  }

  lemma TwoBits()
    ensures Pow2(2) == 4 && ToBits(2, 2) == [true, false] && ToBits(3, 2) == [true, true]
  {
    assert ToBits(1, 1) == [true];
  }

  method WriteLengths(w: BitWriter, lens: seq<Byte>)
    requires w.Valid() && Lengths(lens)
    modifies w
    ensures |old(w.zbits)| <= |w.zbits|
    ensures w.Valid() && w.Written() == old(w.Written()) + LengthBits(lens)
  {
    hide BitWriter.Valid, BitWriter.Written, Steps, ToBits, Pow2;
    ghost var w0 := w.Written();
    var curr: int := lens[0];
    FiveBits();
    w.Write(5, curr);
    assert w0 + LengthBits(lens) == w0 + ToBits(curr, 5) + Deltas(lens, curr, 0);
    for i := 0 to |lens|
      invariant w.Valid() && |old(w.zbits)| <= |w.zbits| && w.Written() + Deltas(lens, curr, i) == w0 + LengthBits(lens)
    {
      ghost var before := w.Written();
      ghost var steps, rest := Steps(curr, lens[i]), Deltas(lens, lens[i], i + 1);
      assert before + (steps + rest) == before + steps + rest;
      curr := WriteSteps(w, curr, lens[i]);
    }
    assert w.Written() + [] == w.Written();
  }

  lemma FiveBits()
    ensures Pow2(5) == 32
  {
    assert Pow2(3) == 8;
  }
}

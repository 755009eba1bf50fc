/** crc32.c: the table-driven checksum against its bitwise definition, and the checksum of two
    strings put together by squaring a matrix over GF(2). */
module Crc32 {
  import opened Bytes

  const POLY: bv32 := 0xedb8_8320

  // ---- the definition ----

  /** One bit through the register. */
  function Shift(c: bv32): bv32 {
    if c & 1 == 1 then POLY ^ (c >> 1) else c >> 1
  }

  function Shifts(c: bv32, k: nat): bv32 {
    if k == 0 then c else Shift(Shifts(c, k - 1))
  }

  function Xor(a: bv32, b: bv32): bv32 { a ^ b }

  function Wide(x: Byte): bv32 { x as bv32 }

  /** The register after the bytes: every byte enters at the low end and is shifted out. */
  function Register(c: bv32, buf: seq<Byte>): bv32 {
    if buf == [] then c else Shifts(Xor(Register(c, buf[..|buf| - 1]), Wide(buf[|buf| - 1])), 8)
  }

  function Not(c: bv32): bv32 { !c }

  /** The checksum so far, continued over a string. */
  function Crc(crc: bv32, buf: seq<Byte>): bv32 {
    Not(Register(Not(crc), buf))
  }

  lemma {:induction false} RegisterSnoc(c: bv32, buf: seq<Byte>, x: Byte)
    ensures Register(c, buf + [x]) == Shifts(Xor(Register(c, buf), Wide(x)), 8)
  {
    hide Shifts, Xor, Wide;
    assert (buf + [x])[..|buf|] == buf;
  }

  lemma {:induction false} RegisterJoined(c: bv32, a: seq<Byte>, b: seq<Byte>)
    ensures Register(c, a + b) == Register(Register(c, a), b)
    decreases |b|
  {
    hide Shifts, Xor, Wide;
    if b == [] {
      assert a + b == a;
    } else {
      RegisterJoined(c, a, b[..|b| - 1]);
      assert (a + b)[..|a + b| - 1] == a + b[..|b| - 1];
    }
  }

  // ---- linearity ----

  lemma HalfOfXor(a: bv32, b: bv32)
    ensures (a ^ b) >> 1 == (a >> 1) ^ (b >> 1)
    ensures (a ^ b) & 1 == 1 <==> ((a & 1 == 1) != (b & 1 == 1))
  {
  }

  lemma XorSides(x: bv32, y: bv32, p: bv32)
    ensures (p ^ x) ^ (p ^ y) == x ^ y
    ensures (p ^ x) ^ y == p ^ (x ^ y)
    ensures x ^ (p ^ y) == p ^ (x ^ y)
  {
  }

  lemma ShiftOfXor(a: bv32, b: bv32)
    ensures Shift(a ^ b) == Shift(a) ^ Shift(b)
  {
    HalfOfXor(a, b);
    XorSides(a >> 1, b >> 1, POLY);
  }

  lemma ShiftLinear(a: bv32, b: bv32)
    ensures Shift(Xor(a, b)) == Xor(Shift(a), Shift(b))
  {
    hide Shift;
    ShiftOfXor(a, b);
  }

  lemma {:induction false} ShiftsLinear(a: bv32, b: bv32, k: nat)
    ensures Shifts(Xor(a, b), k) == Xor(Shifts(a, k), Shifts(b, k))
  {
    hide Shift, Xor;
    if k > 0 {
      ShiftsLinear(a, b, k - 1);
      ShiftLinear(Shifts(a, k - 1), Shifts(b, k - 1));
    }
  }

  lemma {:induction false} ShiftsAdd(c: bv32, m: nat, n: nat)
    ensures Shifts(c, m + n) == Shifts(Shifts(c, m), n)
  {
    hide Shift;
    if n > 0 { ShiftsAdd(c, m, n - 1); }
  }

  // ---- the table ----

  function LowByte(c: bv32): bv32 { c & 0xff }

  function HighBytes(c: bv32): bv32 { c & 0xffff_ff00 }

  function Dropped(c: bv32): bv32 { c >> 8 }

  /** Eight shifts do not look above the low byte. */
  lemma {:induction false} LowByteDecides(c: bv32)
    ensures Shifts(c, 8) == Xor(Shifts(LowByte(c), 8), Dropped(c))
  {
    hide Shifts, LowByte, HighBytes, Xor, Dropped;
    ShiftsLinear(LowByte(c), HighBytes(c), 8);
    Halves(c);
    HighPart(HighBytes(c));
  }

  lemma Halves(c: bv32)
    ensures Xor(LowByte(c), HighBytes(c)) == c && Dropped(c) == Dropped(HighBytes(c)) && LowByte(HighBytes(c)) == 0
  {
  }

  lemma HighPart(c: bv32)
    requires LowByte(c) == 0
    ensures Shifts(c, 8) == Dropped(c)
  {
    assert Shifts(c, 1) == c >> 1;
    assert Shifts(c, 2) == c >> 2;
    assert Shifts(c, 3) == c >> 3;
    assert Shifts(c, 4) == c >> 4;
    assert Shifts(c, 5) == c >> 5;
    assert Shifts(c, 6) == c >> 6;
    assert Shifts(c, 7) == c >> 7;
  }

  function ByteOf(c: bv32): (x: Byte)
  {
    SmallByte(c);
    (c & 0xff) as int
  }

  lemma SmallByte(c: bv32)
    ensures ((c & 0xff) as int) < 0x100
  {
  }

  lemma BackAgain(c: bv32)
    ensures (c as int) as bv32 == c
  {
  }

  lemma WideByte(c: bv32)
    ensures Wide(ByteOf(c)) == LowByte(c)
  {
    BackAgain(c & 0xff);
  }

  lemma WideSmall(x: Byte)
    ensures (x as bv32) < 0x100
  {
  }

  /** A byte through the table. */
  function Entry(n: Byte, k: nat): bv32 {
    Shifts(Wide(n), 8 * (k + 1))
  }

  lemma {:induction false} TableStep(c: bv32)
    ensures Shifts(c, 8) == Xor(Entry(ByteOf(c), 0), Dropped(c))
  {
    hide Shifts, LowByte, Xor, Dropped, ByteOf, Wide;
    LowByteDecides(c);
    WideByte(c);
  }

  lemma {:induction false} EntryNext(n: Byte, k: nat)
    ensures Entry(n, k + 1) == Shifts(Entry(n, k), 8)
  {
    hide Shifts, Wide;
    ShiftsAdd(Wide(n), 8 * (k + 1), 8);
  }

  /** crc_table: row k holds the bytes followed by k zero bytes. */
  class CrcTable {
    const table: array2<bv32>

    ghost predicate Valid()
      reads table
    {
      && table.Length0 == 4 && table.Length1 == 256
      && forall k, n :: 0 <= k < 4 && 0 <= n < 256 ==> table[k, n] == Entry(n, k)
    }

    /** make_crc_table */
    constructor ()
      ensures Valid() && fresh(table)
    {
      table := new bv32[4, 256];
      new;
      hide Entry;
      FillFirstRow(table);
      for n := 0 to 256
        invariant Filled(table, n)
      {
        FillColumn(table, n);
      }
    }

    /** DO1 */
    method Step(c: bv32, x: Byte) returns (r: bv32)
      requires Valid()
      ensures r == Shifts(Xor(c, Wide(x)), 8)
    {
      hide Entry, Shifts, Wide, Xor, Dropped, ByteOf;
      var v := Xor(c, Wide(x));
      TableStep(v);
      DroppedXor(c, x);
      r := Xor(table[0, ByteOf(v)], Dropped(c));
    }

    /** crc32_z, byte by byte. */
    method Crc32z(crc: bv32, buf: seq<Byte>) returns (r: bv32)
      requires Valid()
      ensures r == Crc(crc, buf)
    {
      hide Entry, Shifts, Wide, Xor;
      var c := Not(crc);
      assert buf[..0] == [];
      for i := 0 to |buf|
        invariant c == Register(Not(crc), buf[..i])
      {
        RegisterSnoc(Not(crc), buf[..i], buf[i]);
        assert buf[..i + 1] == buf[..i] + [buf[i]];
        c := Step(c, buf[i]);
      }
      assert buf[..|buf|] == buf;
      r := Not(c);
    }

    /** DOLIT4: four bytes with one lookup in each row. */
    method Step4(c: bv32, w: bv32) returns (r: bv32)
      requires Valid()
      ensures r == Shifts(Xor(c, w), 32)
    {
      hide Entry, Shifts, Wide, Xor, Dropped, ByteOf;
      var v := Xor(c, w);
      FourLookups(v);
      r := Xor(Xor(Xor(table[3, ByteOf(v)], table[2, ByteOf(Dropped(v))]), table[1, ByteOf(Dropped(Dropped(v)))]),
               table[0, ByteOf(Dropped(Dropped(Dropped(v))))]);
    }

    /** crc32_little: bytes up to a word boundary, then words, then the bytes left over. */
    method Crc32Little(crc: bv32, buf: seq<Byte>, address: nat) returns (r: bv32)
      requires Valid()
      ensures r == Crc(crc, buf)
    {
      hide Entry, Shifts, Wide, Xor, Register, LittleWord;
      ghost var c0 := Not(crc);
      var c, pos := Not(crc), 0;
      RegisterNone(c0, buf);
      while pos < |buf| && (address + pos) % 4 != 0
        invariant pos <= |buf| && c == Register(c0, buf[..pos])
      {
        RegisterByte(c0, buf, pos);
        c := Step(c, buf[pos]);
        pos := pos + 1;
      }
      while |buf| - pos >= 4
        invariant pos <= |buf| && c == Register(c0, buf[..pos])
      {
        RegisterFour(c0, buf, pos);
        c := Step4(c, LittleWord(buf[pos], buf[pos + 1], buf[pos + 2], buf[pos + 3]));
        pos := pos + 4;
      }
      while pos < |buf|
        invariant pos <= |buf| && c == Register(c0, buf[..pos])
      {
        RegisterByte(c0, buf, pos);
        c := Step(c, buf[pos]);
        pos := pos + 1;
      }
      assert buf[..pos] == buf;
      r := Not(c);
    }
  }

  /** Eight shifts of a byte value, as the table's first row is made. */
  method FirstEntry(n: Byte) returns (c: bv32)
    ensures c == Entry(n, 0)
  {
    hide Wide, Shift;
    c := Wide(n);
    for k := 0 to 8
      invariant c == Shifts(Wide(n), k)
    {
      c := Shift(c);
    }
  }

  ghost predicate FirstRow(table: array2<bv32>, n: int)
    reads table
  {
    table.Length0 == 4 && table.Length1 == 256 && n <= 256 && forall m :: 0 <= m < n ==> table[0, m] == Entry(m, 0)
  }

  /** The first row, and of the others the first n columns. */
  ghost predicate Filled(table: array2<bv32>, n: int)
    reads table
  {
    FirstRow(table, 256) && n <= 256 && forall k, m :: 0 <= k < 4 && 0 <= m < n ==> table[k, m] == Entry(m, k)
  }

  /** The first k rows of column n. */
  ghost predicate Column(table: array2<bv32>, n: Byte, k: int)
    requires table.Length0 == 4 && table.Length1 == 256 && k <= 4
    reads table
  {
    forall j :: 0 <= j < k ==> table[j, n] == Entry(n, j)
  }

  method FillFirstRow(table: array2<bv32>)
    requires table.Length0 == 4 && table.Length1 == 256
    modifies table
    ensures Filled(table, 0)
  {
    hide Entry;
    for n := 0 to 256
      invariant FirstRow(table, n)
    {
      table[0, n] := FirstEntry(n);
    }
  }

  /** The rows of one byte value, each from the one before. */
  method FillColumn(table: array2<bv32>, n: Byte)
    requires Filled(table, n)
    modifies table
    ensures Filled(table, (n as int) + 1)
  {
    hide *;
    FilledParts(table, n);
    var c := table[0, n];
    for k := 1 to 4
      invariant c == Entry(n, k - 1) && Filled(table, n) && Column(table, n, k)
    {
      TableStep(c);
      EntryNext(n, k - 1);
      FirstRowAt(table, n, ByteOf(c));
      c := Xor(table[0, ByteOf(c)], Dropped(c));
      SetEntry(table, n, k, c);
    }
    FilledNext(table, n);
  }

  lemma FilledParts(table: array2<bv32>, n: Byte)
    requires Filled(table, n)
    ensures table.Length0 == 4 && table.Length1 == 256 && table[0, n] == Entry(n, 0) && Column(table, n, 1)
  {
    hide Entry;
  }

  lemma FirstRowAt(table: array2<bv32>, n: Byte, x: Byte)
    requires Filled(table, n)
    ensures table.Length0 == 4 && table.Length1 == 256 && table[0, x] == Entry(x, 0)
  {
    hide Entry;
  }

  method SetEntry(table: array2<bv32>, n: Byte, k: nat, c: bv32)
    requires Filled(table, n) && 1 <= k < 4 && Column(table, n, k) && c == Entry(n, k)
    modifies table
    ensures Filled(table, n) && Column(table, n, k + 1)
  {
    hide Entry;
    table[k, n] := c;
  }

  lemma FilledNext(table: array2<bv32>, n: Byte)
    requires Filled(table, n) && Column(table, n, 4)
    ensures Filled(table, (n as int) + 1)
  {
    hide Entry;
  }

  lemma DroppedXor(c: bv32, x: Byte)
    ensures Dropped(Xor(c, Wide(x))) == Dropped(c)
  {
    WideSmall(x);
    DropSmall(c, x as bv32);
  }

  lemma DropSmall(c: bv32, v: bv32)
    requires v < 0x100
    ensures (c ^ v) >> 8 == c >> 8
  {
  }

  // ---- four bytes at once ----

  function Up8(c: bv32): bv32 { c << 8 }

  /** Four bytes read as one little-endian word. */
  function LittleWord(b0: Byte, b1: Byte, b2: Byte, b3: Byte): bv32 {
    Xor(Wide(b0), Up8(Xor(Wide(b1), Up8(Xor(Wide(b2), Up8(Wide(b3)))))))
  }

  /** Eight shifts undo moving up a value whose top byte is empty. */
  lemma {:induction false} ShiftsUndoUp(x: bv32)
    requires Dropped(Up8(x)) == x
    ensures Shifts(Up8(x), 8) == x
  {
    hide Shifts, Dropped;
    UpLow(x);
    HighPart(Up8(x));
  }

  lemma UpLow(x: bv32)
    ensures LowByte(Up8(x)) == 0
  {
  }

  lemma XorAssoc(a: bv32, b: bv32, c: bv32)
    ensures Xor(Xor(a, b), c) == Xor(a, Xor(b, c))
  {
  }

  /** One byte off the bottom: its own lookup, and the rest with fewer shifts. */
  lemma {:induction false} SplitByte(v: bv32, k: nat)
    ensures Shifts(v, 8 * (k + 1)) == Xor(Entry(ByteOf(v), k), Shifts(Dropped(v), 8 * k))
  {
    hide Shifts, Wide, Xor, Dropped, ByteOf;
    ShiftsAdd(v, 8, 8 * k);
    TableStep(v);
    ShiftsLinear(Entry(ByteOf(v), 0), Dropped(v), 8 * k);
    ShiftsAdd(Wide(ByteOf(v)), 8, 8 * k);
  }

  lemma {:induction false} FourLookups(v: bv32)
    ensures Shifts(v, 32) == Xor(Xor(Xor(Entry(ByteOf(v), 3), Entry(ByteOf(Dropped(v)), 2)),
        Entry(ByteOf(Dropped(Dropped(v))), 1)),
                                 Entry(ByteOf(Dropped(Dropped(Dropped(v)))), 0))
  {
    hide Wide, Xor, Dropped, ByteOf, Entry, Shift, Shifts;
    var v1, v2, v3 := Dropped(v), Dropped(Dropped(v)), Dropped(Dropped(Dropped(v)));
    SplitByte(v, 3);
    SplitByte(v1, 2);
    SplitByte(v2, 1);
    SplitByte(v3, 0);
    NothingLeft(v);
    NoShifts(Dropped(v3));
    var e0, e1, e2, e3 := Entry(ByteOf(v), 3), Entry(ByteOf(v1), 2), Entry(ByteOf(v2), 1), Entry(ByteOf(v3), 0);
    XorAssoc(e0, e1, Xor(e2, e3));
    XorAssoc(Xor(e0, e1), e2, e3);
  }

  lemma NoShifts(c: bv32)
    ensures Shifts(c, 0) == c
  {
  }

  lemma NothingLeft(v: bv32)
    ensures Dropped(Dropped(Dropped(Dropped(v)))) == 0
    ensures forall x: bv32 {:trigger Xor(x, 0)} :: Xor(x, 0) == x
  {
  }

  /** A byte and then a shorter word enter the register as one word. */
  lemma {:induction false} JoinByte(c: bv32, b: Byte, u: bv32, k: nat)
    requires Dropped(Up8(u)) == u
    ensures Shifts(Xor(c, Xor(Wide(b), Up8(u))), 8 * (k + 1)) == Shifts(Xor(Shifts(Xor(c, Wide(b)), 8), u), 8 * k)
  {
    hide Shifts, Wide, Xor, Dropped, Up8;
    XorAssoc(c, Wide(b), Up8(u));
    ShiftsAdd(Xor(c, Xor(Wide(b), Up8(u))), 8, 8 * k);
    ShiftsLinear(Xor(c, Wide(b)), Up8(u), 8);
    ShiftsUndoUp(u);
  }

  lemma UpFits(b: Byte, u: bv32)
    ensures u < 0x100 ==> Xor(Wide(b), Up8(u)) < 0x1_0000
    ensures u < 0x1_0000 ==> Xor(Wide(b), Up8(u)) < 0x100_0000
    ensures u < 0x100_0000 ==> Dropped(Up8(u)) == u
  {
    WideSmall(b);
    UpFitsBits(b as bv32, u);
  }

  lemma UpFitsBits(v: bv32, u: bv32)
    requires v < 0x100
    ensures u < 0x100 ==> v ^ (u << 8) < 0x1_0000
    ensures u < 0x1_0000 ==> v ^ (u << 8) < 0x100_0000
    ensures u < 0x100_0000 ==> (u << 8) >> 8 == u
  {
  }

  lemma WideFits(b: Byte)
    ensures Wide(b) < 0x100
  {
    WideSmall(b);
  }

  lemma RegisterNone(c: bv32, buf: seq<Byte>)
    ensures Register(c, buf[..0]) == c
  {
  }

  lemma {:induction false} RegisterByte(c: bv32, buf: seq<Byte>, pos: nat)
    requires pos < |buf|
    ensures Register(c, buf[..pos + 1]) == Shifts(Xor(Register(c, buf[..pos]), Wide(buf[pos])), 8)
  {
    hide Shifts, Wide, Xor, Register;
    RegisterSnoc(c, buf[..pos], buf[pos]);
    assert buf[..pos + 1] == buf[..pos] + [buf[pos]];
  }

  lemma {:induction false} RegisterFour(c: bv32, buf: seq<Byte>, pos: nat)
    requires pos + 4 <= |buf|
    ensures Register(c, buf[..pos + 4]) ==
            Shifts(Xor(Register(c, buf[..pos]), LittleWord(buf[pos], buf[pos + 1], buf[pos + 2], buf[pos + 3])), 32)
  {
    hide Shifts, Wide, Xor, Register, Up8, Dropped;
    var b1, b2, b3 := buf[pos + 1], buf[pos + 2], buf[pos + 3];
    var u2 := Wide(b3);
    var u1 := Xor(Wide(b2), Up8(u2));
    var u0 := Xor(Wide(b1), Up8(u1));
    WideFits(b3);
    UpFits(b2, u2);
    UpFits(b1, u1);
    UpFits(b1, u0);
    RegisterByte(c, buf, pos);
    RegisterByte(c, buf, pos + 1);
    RegisterByte(c, buf, pos + 2);
    RegisterByte(c, buf, pos + 3);
    var r0 := Register(c, buf[..pos]);
    JoinByte(r0, buf[pos], u0, 3);
    JoinByte(Register(c, buf[..pos + 1]), b1, u1, 2);
    JoinByte(Register(c, buf[..pos + 2]), b2, u2, 1);
  }
}

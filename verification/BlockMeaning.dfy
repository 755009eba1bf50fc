/** What any bits mean as a block of a bzip2 stream: the checksum stored for it, and its bytes. */
module BlockMeaning {
  import opened Wrappers
  import opened Bytes
  import opened Bits
  import opened BitFields
  import opened Canonical
  import opened ByteMaps
  import opened MoveToFront
  import opened ZeroRuns
  import opened MtfEncoder
  import opened MtfDecoder
  import opened SymbolMeaning
  import opened BlockCodes
  import opened BlockHeader
  import opened HeaderMeaning
  import opened InverseBwt
  import opened Randomise
  import opened RunLength
  import opened BlockFormat

  // ---- words of several bytes ----

  /** One more byte of a stored checksum. */
  function Push(stored: bv32, uc: Byte): bv32 { (stored << 8) | (uc as bv32) }

  lemma ByteField(bits: seq<bool>)
    ensures var m := FieldAt(bits, 8); m.Got? ==> 0 <= m.value < 0x100
  {
    Pow2Values();
  }

  ghost function WordAt(bits: seq<bool>, stored: bv32, n: nat): (m: Read<bv32>)
    ensures m != Wild && Leaves(m, bits)
    decreases n
  {
    ByteField(bits);
    var uc := FieldAt(bits, 8);
    if n == 0 then Got(stored, bits)
    else if uc.Got? then WordAt(uc.rest, Push(stored, uc.value), n - 1) else Fail
  }

  ghost function OriginAt(bits: seq<bool>, v: nat, n: nat): (m: Read<int>)
    ensures m != Wild && Leaves(m, bits) && (m.Got? ==> m.value >= 0)
    decreases n
  {
    var uc := FieldAt(bits, 8);
    if n == 0 then Got(v, bits)
    else if uc.Got? then OriginAt(uc.rest, v * 0x100 + uc.value, n - 1) else Fail
  }

  // ---- the tables ----

  datatype Section = Section(inUse: seq<bool>, selector: seq<Byte>, lens: seq<seq<Byte>>)

  ghost predicate Sectioned(s: Section) {
    && |s.inUse| == 256 && Rank(s.inUse, 256) >= 1 && Selects(s.selector, |s.lens|)
    && Tables(s.lens, Rank(s.inUse, 256) + 2, |s.lens|)
  }

  ghost function SectionAt(bits: seq<bool>): (m: Read<Section>)
    ensures Leaves(m, bits) && (m.Got? ==> Sectioned(m.value))
  {
    var m := MapAt(bits);
    if !m.Got? || Rank(m.value, 256) == 0 then Fail
    else
      var s := SelectorsAt(m.rest);
      if !s.Got? then Miss(s)
      else
        var t := TablesAt(s.rest, Rank(m.value, 256) + 2, s.value.nGroups);
        if t.Got? then Got(Section(m.value, s.value.selector, t.value), t.rest) else Fail
  }

  // ---- the column ----

  ghost predicate AllBelow(s: seq<Byte>, n: int) {
    forall i :: 0 <= i < |s| ==> s[i] < n
  }

  /** Numbers below n stay at the front of the list while only the first n positions are taken. */
  ghost predicate Small(r: Reading, n: int) {
    1 <= n <= 256 && |r.list| == 256 && AllBelow(r.list[..n], n) && AllBelow(r.out, n)
  }

  lemma SmallStep(r: Reading, s: int, max: int, n: int)
    requires Sound(r) && Small(r, n) && 0 <= s <= n
    ensures var t := Step(r, s, max); t.Some? ==> Small(t.value, n)
  {
    if s > RUNB && Step(r, s, max).Some? {
      SmallToFront(r.list, s - 1, n);
      assert r.list[0] == r.list[..n][0] && r.list[s - 1] == r.list[..n][s - 1];
    }
  }

  lemma SmallToFront(list: seq<Byte>, j: int, n: int)
    requires |list| == 256 && 0 <= j < n <= 256 && AllBelow(list[..n], n)
    ensures AllBelow(ToFront(list, j)[..n], n)
  {
    var t := ToFront(list, j);
    forall i | 0 <= i < n ensures t[i] < n {
      assert t[i] == list[..n][if i == 0 then j else if i <= j then i - 1 else i];
    }
  }

  lemma {:induction false} SmallAfter(syms: seq<int>, max: int, n: int)
    requires Symbols(syms) && 1 <= n <= 256 && forall k :: 0 <= k < |syms| ==> syms[k] <= n
    ensures var r := After(syms, Identity(), max); r.Some? ==> Small(r.value, n)
  {
    hide Small, Step;
    if syms == [] {
      SmallStart(n);
    } else {
      var t := syms[..|syms| - 1];
      SmallAfter(t, max, n);
      var r := After(t, Identity(), max);
      if r.Some? { SmallStep(r.value, syms[|syms| - 1], max, n); }
    }
  }

  lemma SmallStart(n: int)
    requires 1 <= n <= 256
    ensures Small(Reading([], Identity(), 1, 0), n)
  {
  }

  /** Symbols of a block name used bytes only. */
  lemma {:induction false} ValuesBelow(syms: seq<int>, n: int, max: int)
    requires 1 <= n <= 256 && BlockSymbols(syms, n + 1)
    ensures var m := Meaning(syms, n + 1, Identity(), max); m.Some? ==> AllBelow(m.value, n)
  {
    hide After;
    var all := syms[..|syms| - 1];
    SmallAfter(all, max, n);
    var r := After(all, Identity(), max);
    if r.Some? { assert r.value.list[0] == r.value.list[..n][0]; }
  }

  /** The bytes of these numbers. */
  ghost function Renamed(values: seq<Byte>, used: seq<Byte>): (b: seq<Byte>)
    requires AllBelow(values, |used|)
    ensures |b| == |values| && forall i :: 0 <= i < |b| ==> b[i] == used[values[i]]
  {
    seq(|values|, i requires 0 <= i < |values| => used[values[i]])
  }

  ghost function ColumnOf(syms: seq<int>, inUse: seq<bool>, max: int): Option<seq<Byte>>
    requires |inUse| == 256 && Rank(inUse, 256) >= 1 && BlockSymbols(syms, Rank(inUse, 256) + 1)
  {
    var m := Meaning(syms, Rank(inUse, 256) + 1, Identity(), max);
    ValuesBelow(syms, Rank(inUse, 256), max);
    if m.Some? then Some(Renamed(m.value, UsedBytes(inUse, 256))) else None
  }

  // ---- the block ----

  datatype Body = Body(crc: bv32, bytes: seq<Byte>)

  ghost function SectionSymbolsAt(s: Section, bits: seq<bool>): (m: Read<seq<int>>)
    requires Sectioned(s)
    ensures m != Wild && Leaves(m, bits) && (m.Got? ==> BlockSymbols(m.value, Rank(s.inUse, 256) + 1))
  {
    SectionAlphabet(s);
    SymbolsEnd(s.lens, s.selector, Rank(s.inUse, 256) + 1, bits, 0);
    SymbolsAt(s.lens, s.selector, Rank(s.inUse, 256) + 1, bits, 0)
  }

  lemma SectionAlphabet(s: Section)
    requires Sectioned(s)
    ensures 1 <= Rank(s.inUse, 256) <= 256 && SameAlphabet(s.lens, Rank(s.inUse, 256) + 2)
  {
    hide Rank;
    forall t | 0 <= t < |s.lens| ensures |s.lens[t]| == Rank(s.inUse, 256) + 2 {
      assert Table(s.lens[t], Rank(s.inUse, 256) + 2);
    }
  }

  ghost function Unsort(randomised: bool, column: seq<Byte>, origPtr: int): (b: seq<Byte>)
    requires 0 <= origPtr < |column|
    ensures |b| == |column|
  {
    if randomised then Unmasked(Unsorted(column, origPtr)) else Unsorted(column, origPtr)
  }

  /** The symbols of a block, the column they stand for, and the bytes of which it is the last column. */
  ghost function BytesAt(randomised: bool, origPtr: nat, s: Section, bits: seq<bool>, max: int): (m: Read<seq<Byte>>)
    requires Sectioned(s)
    ensures m != Wild && Leaves(m, bits) && (m.Got? ==> |m.value| >= 1)
  {
    var y := SectionSymbolsAt(s, bits);
    if !y.Got? then Fail
    else
      var c := ColumnOf(y.value, s.inUse, max);
      if c.Some? && origPtr < |c.value| then Got(Unsort(randomised, c.value, origPtr), y.rest) else Fail
  }

  /** Everything after the magic number of a block of at most max bytes. */
  ghost function BodyAt(bits: seq<bool>, max: int): (m: Read<Body>)
    ensures Leaves(m, bits) && (m.Got? ==> |m.value.bytes| >= 1)
  {
    var w := WordAt(bits, 0, 4);
    if !w.Got? || w.rest == [] then Fail
    else
      var m := PartsAt(w.rest[0], w.rest[1..], max);
      if m.Got? then Got(Body(w.value, m.value), m.rest) else Miss(m)
  }

  ghost function PartsAt(randomised: bool, bits: seq<bool>, max: int): (m: Read<seq<Byte>>)
    ensures Leaves(m, bits) && (m.Got? ==> |m.value| >= 1)
  {
    var o := OriginAt(bits, 0, 3);
    if !o.Got? || o.value > 10 + max then Fail
    else
      var s := SectionAt(o.rest);
      if !s.Got? then Miss(s) else BytesAt(randomised, o.value, s.value, s.rest, max)
  }

  // ---- blocks that were sent ----

  lemma PushLowByte(stored: bv32, x: bv32)
    ensures Push(stored, LowByte(x)) == (stored << 8) | (x & 0xff)
  {
    hide LowByte;
    LowByteValue(x);
    BackToWord(x & 0xff);
  }

  lemma LowByteValue(x: bv32)
    ensures LowByte(x) == (x & 0xff) as int
  {
  }

  lemma BackToWord(x: bv32)
    ensures (x as int) as bv32 == x
  {
  }

  lemma RejoinBytes(w: bv32)
    ensures var a := ((0 as bv32) << 8) | ((w >> 24) & 0xff);
      var b := (a << 8) | ((w >> 16) & 0xff);
      var c := (b << 8) | ((w >> 8) & 0xff);
      (c << 8) | (w & 0xff) == w
  {
  }

  lemma FourBytes(w: bv32, s: seq<Byte>)
    requires s == WordBytes(w)
    ensures Push(Push(Push(Push(0, s[0]), s[1]), s[2]), s[3]) == w
  {
    hide LowByte, Push;
    var p0 := Push(0, s[0]);
    PushLowByte(0, w >> 24);
    var p1 := Push(p0, s[1]);
    PushLowByte(p0, w >> 16);
    var p2 := Push(p1, s[2]);
    PushLowByte(p1, w >> 8);
    PushLowByte(p2, w);
    RejoinBytes(w);
  }

  /** The bits of a byte string begin with those of its first byte. */
  lemma FirstByte(s: seq<Byte>, rest: seq<bool>)
    requires s != []
    ensures FieldAt(BytesBits(s) + rest, 8) == Got(s[0] as int, BytesBits(s[1..]) + rest)
  {
    hide BytesBits, ToBits, Pow2, FieldAt;
    Pow2Values();
    assert s == [s[0]] + s[1..];
    BytesBitsConcat([s[0]], s[1..]);
    BytesBitsOne(s[0]);
    var more := BytesBits(s[1..]) + rest;
    assert BytesBits(s) + rest == ToBits(s[0], 8) + more;
    FieldGiven(s[0], 8, more);
  }

  ghost function PushAll(stored: bv32, s: seq<Byte>): bv32
    decreases s
  {
    if s == [] then stored else PushAll(Push(stored, s[0]), s[1..])
  }

  lemma {:induction false} WordGiven(stored: bv32, s: seq<Byte>, rest: seq<bool>)
    ensures WordAt(BytesBits(s) + rest, stored, |s|) == Got(PushAll(stored, s), rest)
    decreases s
  {
    hide BytesBits, Push, FieldAt;
    if s == [] {
      NoBits(rest);
    } else {
      FirstByte(s, rest);
      WordGiven(Push(stored, s[0]), s[1..], rest);
    }
  }

  lemma {:induction false} NoBits(rest: seq<bool>)
    ensures BytesBits([]) + rest == rest
  {
  }

  lemma {:induction false} CrcGiven(crc: bv32, rest: seq<bool>)
    ensures WordAt(BytesBits(WordBytes(crc)) + rest, 0, 4) == Got(crc, rest)
  {
    hide BytesBits, Push, WordAt, WordBytes;
    var s := WordBytes(crc);
    WordGiven(0, s, rest);
    FourBytes(crc, s);
    FourPushes(s);
  }

  lemma {:induction false} FourPushes(s: seq<Byte>)
    requires |s| == 4
    ensures PushAll(0, s) == Push(Push(Push(Push(0, s[0]), s[1]), s[2]), s[3])
  {
    hide Push;
    PushOne(0, s);
    PushOne(Push(0, s[0]), s[1..]);
    PushOne(Push(Push(0, s[0]), s[1]), s[1..][1..]);
    PushOne(Push(Push(Push(0, s[0]), s[1]), s[2]), s[1..][1..][1..]);
  }

  lemma {:induction false} PushOne(stored: bv32, s: seq<Byte>)
    requires s != []
    ensures PushAll(stored, s) == PushAll(Push(stored, s[0]), s[1..])
    ensures |s| == 1 ==> PushAll(stored, s) == Push(stored, s[0])
  {
    hide Push;
  }

  lemma {:induction false} OriginGiven(v: nat, rest: seq<bool>)
    requires v < 0x100_0000
    ensures OriginAt(ToBits(v, 24) + rest, 0, 3) == Got(v as int, rest)
  {
    hide ToBits, Pow2, FieldAt;
    Pow2Values();
    FieldSplit(v, 16);
    FieldSplit(v / 0x100, 8);
    var b0, b1, b2 := ToBits(v / 0x100 / 0x100, 8), ToBits(v / 0x100 % 0x100, 8), ToBits(v % 0x100, 8);
    assert b0 + b1 + b2 + rest == b0 + (b1 + (b2 + rest));
    FieldGiven(v / 0x100 / 0x100, 8, b1 + (b2 + rest));
    FieldGiven(v / 0x100 % 0x100, 8, b2 + rest);
    FieldGiven(v % 0x100, 8, rest);
  }

  /** The section that a block to send has. */
  ghost function SectionOf(b: Block): Section { Section(b.inUse, b.selector, b.lens) }

  lemma SectionGiven(b: Block, rest: seq<bool>)
    requires Sendable(b)
    ensures SectionAt(TableBits(b) + rest) == Got(SectionOf(b), rest) && Sectioned(SectionOf(b))
  {
    hide Rank, ToBits, UnaryAll, MapAt, SelectorsAt, TablesAt, AllLengths, MapBits, Lengths, Fits;
    SentTables(b);
    SentSizes(b);
    var x, y, z := MapBits(b.inUse), SelectorBits(b), AllLengths(b.lens, 0);
    assert TableBits(b) + rest == x + (y + (z + rest));
    MapGiven(b.inUse, y + (z + rest));
    SelectorsGiven(b.selector, b.nGroups, z + rest);
    TablesGiven(b.lens, AlphaSize(b), 0, rest);
    assert b.lens[0..] == b.lens;
  }

  lemma SentSizes(b: Block)
    requires Sendable(b)
    ensures forall t :: 0 <= t < |b.lens| ==> |b.lens[t]| == AlphaSize(b)
  {
    hide Rank, Lengths, Fits;
    forall t | 0 <= t < |b.lens| ensures |b.lens[t]| == AlphaSize(b) { assert SentTable(b.lens[t], AlphaSize(b)); }
  }

  lemma ColumnGiven(b: Block, column: seq<Byte>, max: int)
    requires Sendable(b) && StandsFor(b, column, max)
    ensures ColumnOf(b.syms, b.inUse, max) == Some(column)
  {
    hide Rank, UsedBytes, Meaning;
    var values := Meaning(b.syms, AlphaSize(b) - 1, Identity(), max).value;
    ValuesBelow(b.syms, Rank(b.inUse, 256), max);
    var c := Renamed(values, UsedBytes(b.inUse, 256));
    forall i | 0 <= i < |column| ensures c[i] == column[i] { UsedAt(b.inUse, column[i], 256); }
    assert c == column;
  }

  /** A block that was sent means the bytes it carries. */
  lemma {:induction false} BodyGiven(b: Block, bytes: seq<Byte>, column: seq<Byte>, max: int, rest: seq<bool>)
    requires Carries(b, bytes, column, max)
    ensures BodyAt(BodyBits(b) + rest, max) == Got(Body(b.crc, bytes), rest)
  {
    hide *;
    var crcBits, origin, tables, symbols := BlockBitParts(b, bytes, column, max, rest);
    var parts := origin + (tables + (symbols + rest));
    CrcGiven(b.crc, [false] + parts);
    OriginGiven(b.origPtr, tables + (symbols + rest));
    SectionGiven(b, symbols + rest);
    SymbolBitsGiven(b, rest);
    ColumnGiven(b, column, max);
    FirstBit(false, parts);
    BytesFound(b, bytes, column, max, symbols + rest, rest);
    PartsFound(b, bytes, max, parts, tables + (symbols + rest), symbols + rest, rest);
    BodyFound(b.crc, bytes, max, BodyBits(b) + rest, [false] + parts, rest);
  }

  lemma FirstBit(x: bool, bits: seq<bool>)
    ensures ([x] + bits)[0] == x && ([x] + bits)[1..] == bits
  {
  }

  lemma SymbolBitsGiven(b: Block, rest: seq<bool>)
    requires Sendable(b) && Sectioned(SectionOf(b))
    ensures SectionSymbolsAt(SectionOf(b), SymbolBits(b) + rest) == Got(b.syms, rest)
  {
    hide Rank, SymbolsAt, Encoded, Fits, Lengths;
    SendableIsCodable(b);
    SymbolsGiven(b.lens, b.selector, b.syms, AlphaSize(b) - 1, 0, rest);
    assert b.syms[0..] == b.syms;
  }

  lemma BytesFound(b: Block, bytes: seq<Byte>, column: seq<Byte>, max: int, bits: seq<bool>, rest: seq<bool>)
    requires Sectioned(SectionOf(b)) && SectionSymbolsAt(SectionOf(b), bits) == Got(b.syms, rest)
    requires ColumnOf(b.syms, b.inUse, max) == Some(column) && 0 <= b.origPtr < |column|
    requires Unsorted(column, b.origPtr) == bytes
    ensures BytesAt(false, b.origPtr, SectionOf(b), bits, max) == Got(bytes, rest)
  {
    hide Rank, SectionSymbolsAt, ColumnOf, Unsorted;
  }

  lemma PartsFound(b: Block, bytes: seq<Byte>, max: int, bits: seq<bool>, more: seq<bool>, last: seq<bool>,
      rest: seq<bool>)
    requires 0 <= b.origPtr <= 10 + max && OriginAt(bits, 0, 3) == Got(b.origPtr, more)
    requires SectionAt(more) == Got(SectionOf(b), last) && Sectioned(SectionOf(b))
    requires BytesAt(false, b.origPtr, SectionOf(b), last, max) == Got(bytes, rest)
    ensures PartsAt(false, bits, max) == Got(bytes, rest)
  {
    hide OriginAt, SectionAt, BytesAt, Rank;
  }

  lemma BodyFound(crc: bv32, bytes: seq<Byte>, max: int, bits: seq<bool>, more: seq<bool>, rest: seq<bool>)
    requires WordAt(bits, 0, 4) == Got(crc, more) && more != [] && PartsAt(more[0], more[1..], max) == Got(bytes, rest)
    ensures BodyAt(bits, max) == Got(Body(crc, bytes), rest)
  {
    hide WordAt, PartsAt;
  }

  lemma BlockBitParts(b: Block, bytes: seq<Byte>, column: seq<Byte>, max: int, rest: seq<bool>)
    returns (crcBits: seq<bool>, origin: seq<bool>, tables: seq<bool>, symbols: seq<bool>)
    requires Carries(b, bytes, column, max)
    ensures Sendable(b) && StandsFor(b, column, max) && 0 <= b.origPtr < |column| <= max && b.origPtr < 0x100_0000
    ensures Unsorted(column, b.origPtr) == bytes
    ensures origin == ToBits(b.origPtr, 24) && tables == TableBits(b) && symbols == SymbolBits(b)
    ensures BodyBits(b) + rest == BytesBits(WordBytes(b.crc)) + ([false] + (origin + (tables + (symbols + rest))))
  {
    hide StandsFor, Unsorted, TableBits, SymbolBits, WordBytes, Complete, CrcOf, Text, Rank, Selectors, BlockSymbols;
    crcBits := BytesBits(WordBytes(b.crc));
    origin, tables, symbols := ToBits(b.origPtr, 24), TableBits(b), SymbolBits(b);
    Regroup(crcBits, [false], origin, tables, symbols, rest);
  }

  lemma Regroup(p: seq<bool>, q: seq<bool>, r: seq<bool>, s: seq<bool>, t: seq<bool>, u: seq<bool>)
    ensures p + (q + (r + (s + t))) + u == p + (q + (r + (s + (t + u))))
  {
  }
}

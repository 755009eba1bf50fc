/** A block in the compressed stream: its parts, the bits they are sent as, and the bytes
    they stand for. */
module BlockFormat {
  import opened Bytes
  import opened Bits
  import opened Canonical
  import opened ByteMaps
  import opened MtfEncoder
  import opened MtfDecoder
  import opened SymbolMeaning
  import opened BlockCodes
  import opened BlockHeader
  import opened InverseBwt
  import opened RunLength
  import CodingTables

  const BLOCK_MAGIC: seq<Byte> := [0x31, 0x41, 0x59, 0x26, 0x53, 0x59]
  const END_MAGIC: seq<Byte> := [0x17, 0x72, 0x45, 0x38, 0x50, 0x90]

  datatype Block = Block(crc: bv32, origPtr: int, inUse: seq<bool>, nGroups: int, selector: seq<Byte>,
      lens: seq<seq<Byte>>, syms: seq<int>)

  function AlphaSize(b: Block): int
    requires |b.inUse| == 256
  {
    Rank(b.inUse, 256) + 2
  }

  ghost predicate SentTable(lens: seq<Byte>, alphaSize: int) {
    |lens| == alphaSize && Lengths(lens) && Fits(lens)
  }

  /** Parts that can be sent and are accepted when received. */
  ghost predicate Sendable(b: Block) {
    && 0 <= b.origPtr < 0x100_0000 && |b.inUse| == 256 && Rank(b.inUse, 256) >= 1
    && |b.lens| == b.nGroups && Selectors(b.selector, b.nGroups) && 1 <= |b.selector| <= BZ_MAX_SELECTORS
    && (forall t :: 0 <= t < b.nGroups ==> SentTable(b.lens[t], AlphaSize(b)))
    && BlockSymbols(b.syms, AlphaSize(b) - 1) && InGroups(b.selector, b.syms)
  }

  /** How the encoder codes a block: with as many tables as its length asks for, and those that the
      passes settle on. */
  ghost predicate WellCoded(b: Block) {
    && |b.inUse| == 256 && b.nGroups == CodingTables.NumGroups(|b.syms|)
    && CodingTables.Settled(b.syms, b.nGroups, AlphaSize(b), b.selector, b.lens)
  }

  lemma {:induction false} SendableIsCodable(b: Block)
    requires Sendable(b)
    ensures Codable(b.lens, b.selector, b.syms)
  {
    hide Rank, Lengths, Fits;
    forall j | 0 <= j < |b.syms| ensures j / BZ_G_SIZE < |b.selector| && 0 <= b.syms[j] < AlphaSize(b) {}
    forall t | 0 <= t < |b.lens| ensures Lengths(b.lens[t]) && Fits(b.lens[t]) && |b.lens[t]| == AlphaSize(b) {
      assert SentTable(b.lens[t], AlphaSize(b));
    }
  }

  lemma LowByteSmall(x: bv32)
    ensures ((x & 0xff) as int) < 0x100
  {
  }

  function LowByte(x: bv32): Byte {
    LowByteSmall(x);
    (x & 0xff) as int
  }

  /** A 32-bit word, most significant byte first. */
  function WordBytes(w: bv32): (s: seq<Byte>)
    ensures |s| == 4
  {
    [LowByte(w >> 24), LowByte(w >> 16), LowByte(w >> 8), LowByte(w)]
  }

  ghost function SelectorBits(b: Block): seq<bool>
    requires Sendable(b)
  {
    ToBits(b.nGroups, 3) + (ToBits(|b.selector|, 15) + UnaryAll(SelectorMtf(b.selector, b.nGroups), 0))
  }

  lemma SentTables(b: Block)
    requires Sendable(b)
    ensures forall t :: 0 <= t < |b.lens| ==> Lengths(b.lens[t])
  {
    hide Rank, Fits, Lengths;
    forall t | 0 <= t < |b.lens| ensures Lengths(b.lens[t]) { assert SentTable(b.lens[t], AlphaSize(b)); }
  }

  ghost function TableBits(b: Block): seq<bool>
    requires Sendable(b)
  {
    SentTables(b);
    MapBits(b.inUse) + (SelectorBits(b) + AllLengths(b.lens, 0))
  }

  ghost function SymbolBits(b: Block): seq<bool>
    requires Sendable(b)
  {
    SendableIsCodable(b);
    Encoded(b.lens, b.selector, b.syms, 0)
  }

  /** Everything after the six magic bytes. */
  ghost function BodyBits(b: Block): seq<bool>
    requires Sendable(b)
  {
    BytesBits(WordBytes(b.crc)) + ([false] + (ToBits(b.origPtr, 24) + (TableBits(b) + SymbolBits(b))))
  }

  // ---- meaning ----

  /** The byte column written as dense numbers. */
  ghost predicate Numbered(column: seq<Byte>, values: seq<Byte>, inUse: seq<bool>)
    requires |inUse| == 256
  {
    |values| == |column| && forall i :: 0 <= i < |column| ==> inUse[column[i]] && values[i] == Rank(inUse, column[i])
  }

  /** The parts stand for this last column, of at most max bytes. */
  ghost predicate StandsFor(b: Block, column: seq<Byte>, max: int)
    requires Sendable(b)
  {
    var m := Meaning(b.syms, AlphaSize(b) - 1, Identity(), max);
    m.Some? && Numbered(column, m.value, b.inUse)
  }

  /** The parts stand for this block of bytes: unsorting the column from origPtr gives it,
      and the checksum is that of its text. */
  ghost predicate Carries(b: Block, bytes: seq<Byte>, column: seq<Byte>, max: int) {
    && Sendable(b) && StandsFor(b, column, max)
    && 0 <= b.origPtr < |column| <= max && Unsorted(column, b.origPtr) == bytes
    && Complete(bytes) && b.crc == !CrcOf(Text(bytes))
  }

  // ---- splitting fields into bytes ----

  lemma {:induction false} FieldSplit(v: nat, m: nat)
    requires v < Pow2(m + 8)
    ensures v / 0x100 < Pow2(m) && ToBits(v, m + 8) == ToBits(v / 0x100, m) + ToBits(v % 0x100, 8)
  {
    hide Val, Pow2, ToBits;
    Pow2Values();
    Pow2Add(m, 8);
    var h, l := v / 0x100, v % 0x100;
    var p := Pow2(m);
    assert h < p;
    ValOfBits(h, m);
    ValOfBits(l, 8);
    ValConcat(ToBits(h, m), ToBits(l, 8));
    BitsOfVal(ToBits(h, m) + ToBits(l, 8));
  }
}

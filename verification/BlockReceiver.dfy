/** BZ2_decompress for one block, up to its symbols: the fields after the magic number, the tables
    and the coded symbols, from whatever bits come. */
module BlockReceiver {
  import opened Bytes
  import opened BitFields
  import opened BitStream
  import opened Canonical
  import opened HuffmanTables
  import opened ByteMaps
  import opened SymbolMeaning
  import opened SymbolStream
  import opened BlockCodes
  import opened HeaderMeaning
  import opened HeaderReader
  import opened BlockMeaning

  // ---- fields ----

  lemma {:induction false} WordStep(bits: seq<bool>, stored: bv32, n: nat)
    ensures n == 0 ==> WordAt(bits, stored, n) == Got(stored, bits)
    ensures n > 0 ==>
      var uc := FieldAt(bits, 8);
      if uc.Got? then 0 <= uc.value < 0x100 && WordAt(bits, stored, n) == WordAt(uc.rest, Push(stored, uc.value), n - 1)
      else WordAt(bits, stored, n) == Fail
  {
    hide Push, FieldAt;
    ByteField(bits);
  }

  /** The four GET_UCHARs of a stored checksum. */
  method ReadWord(r: BitReader) returns (ok: bool, stored: bv32)
    requires r.Valid()
    modifies r
    ensures r.Valid() && Reads(WordAt(old(r.Coming()), 0, 4), ok, stored, r.Coming())
  {
    hide BitReader.Valid, BitReader.Coming, WordAt, FieldAt, Push;
    stored := 0;
    WordStep(r.Coming(), stored, 4);
    var uc;
    ok, uc := ReadByte(r);
    if !ok { return; }
    stored := Push(stored, uc);
    WordStep(r.Coming(), stored, 3);
    ok, uc := ReadByte(r);
    if !ok { return; }
    stored := Push(stored, uc);
    WordStep(r.Coming(), stored, 2);
    ok, uc := ReadByte(r);
    if !ok { return; }
    stored := Push(stored, uc);
    WordStep(r.Coming(), stored, 1);
    ok, uc := ReadByte(r);
    if !ok { return; }
    stored := Push(stored, uc);
    WordStep(r.Coming(), stored, 0);
  }

  lemma {:induction false} OriginStep(bits: seq<bool>, v: nat, n: nat)
    ensures n == 0 ==> OriginAt(bits, v, n) == Got(v as int, bits)
    ensures n > 0 ==>
      var uc := FieldAt(bits, 8);
      if uc.Got? then 0 <= uc.value && OriginAt(bits, v, n) == OriginAt(uc.rest, v * 0x100 + uc.value, n - 1)
      else OriginAt(bits, v, n) == Fail
  {
    hide FieldAt;
  }

  /** The three GET_UCHARs of origPtr. */
  method ReadOrigin(r: BitReader) returns (ok: bool, origPtr: int)
    requires r.Valid()
    modifies r
    ensures r.Valid() && Reads(OriginAt(old(r.Coming()), 0, 3), ok, origPtr, r.Coming())
  {
    hide BitReader.Valid, BitReader.Coming, OriginAt, FieldAt;
    origPtr := 0;
    OriginStep(r.Coming(), origPtr, 3);
    var uc;
    ok, uc := ReadByte(r);
    if !ok { return; }
    origPtr := origPtr * 0x100 + uc;
    OriginStep(r.Coming(), origPtr, 2);
    ok, uc := ReadByte(r);
    if !ok { return; }
    origPtr := origPtr * 0x100 + uc;
    OriginStep(r.Coming(), origPtr, 1);
    ok, uc := ReadByte(r);
    if !ok { return; }
    origPtr := origPtr * 0x100 + uc;
    OriginStep(r.Coming(), origPtr, 0);
  }

  // ---- tables ----

  /** What the tables section yields. */
  datatype SectionTables = SectionTables(nInUse: int, seqToUnseq: seq<Byte>, selector: seq<Byte>, lens: seq<seq<Byte>>)

  /** The decoder's byte map lists the used bytes. */
  ghost predicate Maps(nInUse: int, seqToUnseq: seq<Byte>, inUse: seq<bool>) {
    |inUse| == 256 == |seqToUnseq| && nInUse == Rank(inUse, 256) && seqToUnseq[..nInUse] == UsedBytes(inUse, 256)
  }

  ghost predicate Received(t: SectionTables, s: Section) {
    Maps(t.nInUse, t.seqToUnseq, s.inUse) && t.selector == s.selector && t.lens == s.lens && Sectioned(s)
  }

  method ReadTables(r: BitReader) returns (ok: bool, t: SectionTables, ghost s: Section)
    requires r.Valid() && SectionAt(r.Coming()) != Wild
    modifies r
    ensures r.Valid() && Reads(SectionAt(old(r.Coming())), ok, s, r.Coming())
    ensures ok ==> Received(t, s)
  {
    hide BitReader.Valid, BitReader.Coming, MapAt, SelectorsAt, TablesAt, UsedBytes, Rank;
    t, s := SectionTables(0, [], [], []), Section([], [], []);
    var inUse;
    ok, inUse := ReadMap(r);
    if !ok { return; }
    var seqToUnseq, nInUse := MakeMapsD(inUse);
    ok := nInUse != 0;
    if !ok { return; }
    var nGroups, selector;
    ok, nGroups, selector := ReadSelectorPart(r);
    if !ok { return; }
    var lens;
    ok, lens := ReadAllLengths(r, nGroups, nInUse + 2);
    t, s := SectionTables(nInUse, seqToUnseq[..], selector, lens), Section(inUse[..], selector, lens);
  }

  /** The Huffman decoding tables of one length table. */
  method DecodingTable(lens: seq<Byte>) returns (t: DecodeTable)
    requires Lengths(lens)
    ensures Decodes(t, lens)
  {
    hide Lengths, DecodeTables, Within;
    LengthsSize(lens);
    var length := new Byte[258](i => if 0 <= i < |lens| then lens[i] else 0);
    var limit, base, perm := new int[258], new int[258], new int[258];
    assert length[..|lens|] == lens;
    var minLen, maxLen := LengthRange(length, |lens|);
    CreateDecodeTables(limit, base, perm, length, minLen, maxLen, |lens|);
    t := DecodeTable(limit[..], base[..], perm[..], minLen, maxLen);
  }

  lemma LengthsSize(lens: seq<Byte>)
    requires Lengths(lens)
    ensures 1 <= |lens| <= 258
  {
  }

  method DecodingTables(lens: seq<seq<Byte>>) returns (tables: seq<DecodeTable>)
    requires forall t :: 0 <= t < |lens| ==> Lengths(lens[t])
    ensures |tables| == |lens| && forall t :: 0 <= t < |lens| ==> Decodes(tables[t], lens[t])
  {
    hide Lengths, Decodes;
    tables := [];
    for t := 0 to |lens|
      invariant |tables| == t && forall u :: 0 <= u < t ==> Decodes(tables[u], lens[u])
    {
      var table := DecodingTable(lens[t]);
      tables := tables + [table];
    }
  }

  // ---- symbols ----

  lemma SectionLengths(s: Section)
    requires Sectioned(s)
    ensures Selects(s.selector, |s.lens|) && forall t :: 0 <= t < |s.lens| ==> Lengths(s.lens[t])
  {
    hide Rank;
    forall t | 0 <= t < |s.lens| ensures Lengths(s.lens[t]) { assert Table(s.lens[t], Rank(s.inUse, 256) + 2); }
  }

  /** The symbols up to the end of the block. */
  method ReceiveSymbols(r: BitReader, t: SectionTables, ghost s: Section) returns (ok: bool, syms: seq<int>)
    requires r.Valid() && Received(t, s)
    modifies r
    ensures r.Valid() && Reads(SectionSymbolsAt(s, old(r.Coming())), ok, syms, r.Coming())
  {
    hide Rank, UsedBytes, Lengths, Decodes, SymbolsAt, SymbolReader.Valid, SymbolReader.Stream, BitReader.Valid,
        BitReader.Coming, Sectioned, Selects;
    SectionLengths(s);
    var tables := DecodingTables(t.lens);
    var reader := new SymbolReader(r, tables, t.selector, t.lens);
    ok, syms := ReadSymbols(reader, t.nInUse + 1);
  }
}

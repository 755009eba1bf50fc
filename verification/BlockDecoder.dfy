/** The rest of BZ2_decompress for one block: symbols into the byte column, the inverse
    transform linked up in either layout, and the output stage set going. */
module BlockDecoder {
  import opened Wrappers
  import opened Bytes
  import opened BitStream
  import opened Counting
  import opened MoveToFront
  import opened ByteMaps
  import opened MtfEncoder
  import opened MtfDecoder
  import opened InverseBwt
  import opened SmallDecoder
  import opened RunLength
  import opened RunDecoder
  import opened Randomise
  import opened BitFields
  import opened BlockMeaning
  import opened BlockReceiver

  /** The decoder's arrays for the layout in use. */
  ghost predicate Room(small: bool, fast: FastUnsorter, sm: SmallUnsorter, max: int) {
    && 0 <= max && fast.tt as object != sm.ll16 && fast.tt as object != sm.ll4 && sm.Shape()
    && fast.tt.Length <= InverseBwt.MAX_BLOCK
    && (if small then sm.ll16.Length >= max else fast.tt.Length >= max)
  }

  /** The decoder's map gives these numbers the bytes they stand for. */
  lemma MappedIsRenamed(values: seq<Byte>, nInUse: int, seqToUnseq: seq<Byte>, inUse: seq<bool>)
    requires Maps(nInUse, seqToUnseq, inUse) && AllBelow(values, nInUse)
    ensures Mapped(values, seqToUnseq) == Renamed(values, UsedBytes(inUse, 256))
  {
    hide Rank, UsedBytes;
    var used := UsedBytes(inUse, 256);
    forall i | 0 <= i < |values| ensures seqToUnseq[values[i]] == used[values[i]] {
      assert seqToUnseq[..nInUse][values[i]] == used[values[i]];
    }
  }

  /** What the symbols mean is what the decoder makes of them. */
  lemma ColumnMeant(syms: seq<int>, max: int, nInUse: int, seqToUnseq: seq<Byte>, inUse: seq<bool>)
    requires Maps(nInUse, seqToUnseq, inUse) && nInUse >= 1 && BlockSymbols(syms, nInUse + 1)
    ensures var m := Meaning(syms, nInUse + 1, Identity(), max); var c := ColumnOf(syms, inUse, max);
      if m.Some? then c == Some(Mapped(m.value, seqToUnseq)) else c == None
  {
    hide Rank, UsedBytes, Meaning, BlockSymbols;
    ValuesBelow(syms, nInUse, max);
    var m := Meaning(syms, nInUse + 1, Identity(), max);
    if m.Some? { MappedIsRenamed(m.value, nInUse, seqToUnseq, inUse); }
  }

  lemma {:induction false} EmptyTally(unzftab: seq<int>)
    requires |unzftab| == 256 && forall c :: 0 <= c < 256 ==> unzftab[c] == 0
    ensures Tally(unzftab, [])
  {
  }

  lemma StartList(s: seq<Byte>)
    requires |s| == 256 && forall k :: 0 <= k < 256 ==> s[k] == k
    ensures s == Identity()
  {
  }

  /** The symbol loop, from fresh tables; the bytes land in the array of the layout in use. */
  method FillColumn(small: bool, fast: FastUnsorter, sm: SmallUnsorter, max: int, t: SectionTables, syms: seq<int>,
      ghost s: Section)
    returns (ok: bool, nblock: int, unzftab: array<int>, ghost column: seq<Byte>)
    requires Room(small, fast, sm, max) && Received(t, s) && t.nInUse >= 1 && BlockSymbols(syms, t.nInUse + 1)
    modifies fast.tt, sm.ll16
    ensures ColumnOf(syms, s.inUse, max) == if ok then Some(column) else None
    ensures fresh(unzftab)
    ensures ok ==> nblock == |column| && Tally(unzftab[..], column)
    ensures ok && !small ==> |column| <= fast.tt.Length && forall i :: 0 <= i < |column| ==> fast.tt[i] == column[i]
    ensures ok && small ==> |column| <= sm.ll16.Length && forall i :: 0 <= i < |column| ==> sm.ll16[i] == column[i]
  {
    hide Rank, Tally, BlockSymbols, Meaning, Identity, TwoLevelList.Contents, TwoLevelList.Valid, Mapped, UsedBytes,
        ColumnOf, Sectioned;
    MapSize(t, s);
    var mtf := new TwoLevelList();
    var col := new Column(small, fast.tt, sm.ll16);
    unzftab := new int[256](_ => 0);
    var seqToUnseq := new Byte[256](i requires 0 <= i < 256 => t.seqToUnseq[i]);
    assert seqToUnseq[..] == t.seqToUnseq;
    EmptyTally(unzftab[..]);
    StartList(mtf.Contents());
    ColumnMeant(syms, max, t.nInUse, t.seqToUnseq, s.inUse);
    var st;
    st, column := DecodeSymbols(syms, t.nInUse + 1, mtf, col, unzftab, seqToUnseq, max);
    ok := st.Ok?;
    nblock := col.nblock;
  }

  lemma MapSize(t: SectionTables, s: Section)
    requires Received(t, s)
    ensures |t.seqToUnseq| == 256 && t.nInUse == Rank(s.inUse, 256) >= 1 && Maps(t.nInUse, t.seqToUnseq, s.inUse)
  {
  }

  method CopyTable(cftab: array<int>) returns (cftabCopy: array<int>)
    requires cftab.Length == 257
    ensures fresh(cftabCopy) && cftabCopy[..] == cftab[..]
  {
    cftabCopy := new int[257];
    for i := 0 to 257
      invariant forall k :: 0 <= k < i ==> cftabCopy[k] == cftab[k]
    {
      cftabCopy[i] := cftab[i];
    }
  }

  lemma CumulativeSize(cftab: seq<int>, l: seq<Byte>)
    requires Cumulative(cftab, l)
    ensures |cftab| == 257
  {
  }

  /** Links the transform up, in either layout. */
  method LinkUp(small: bool, fast: FastUnsorter, sm: SmallUnsorter, cftab: array<int>, nblock: int, origPtr: int,
      ghost column: seq<Byte>)
    requires fast.tt as object != sm.ll16 && fast.tt as object != sm.ll4 && sm.Shape()
    requires cftab as object != fast.tt && cftab as object != sm.ll16 && cftab as object != sm.ll4
    requires Cumulative(cftab[..], column) && 0 <= origPtr < nblock == |column|
    requires !small ==> fast.column == column && fast.Loaded()
    requires small ==> sm.column == column && sm.Loaded()
    modifies fast, fast.tt, sm, sm.ll16, sm.ll4, cftab
    ensures !small ==> fast.Ready() && fast.column == column && fast.origin == origPtr && fast.steps == 0
    ensures small ==> sm.Ready() && sm.column == column && sm.origin == origPtr && sm.steps == 0
    ensures small ==> Cumulative(cftab[..], column)
  {
    hide Cumulative, FastUnsorter.Loaded, FastUnsorter.Ready, SmallUnsorter.Loaded, SmallUnsorter.Ready;
    if small {
      CumulativeSize(cftab[..], column);
      var cftabCopy := CopyTable(cftab);
      ghost var before := cftab[..];
      sm.Link(cftabCopy, nblock, origPtr);
      assert cftab[..] == before;
    } else {
      fast.Link(cftab, nblock, origPtr);
    }
  }

  /** From a full column to an output stage about to give out the block's text. */
  method StartOutput(small: bool, blockRandomised: bool, fast: FastUnsorter, sm: SmallUnsorter, max: int,
      unzftab: array<int>, nblock: int, origPtr: int, ghost column: seq<Byte>)
    returns (ok: bool, stage: OutputStage?)
    requires Room(small, fast, sm, max) && Tally(unzftab[..], column) && 0 <= origPtr < nblock == |column|
    requires !small ==> |column| <= fast.tt.Length && forall i :: 0 <= i < |column| ==> fast.tt[i] == column[i]
    requires small ==> |column| <= sm.ll16.Length && forall i :: 0 <= i < |column| ==> sm.ll16[i] == column[i]
    requires unzftab as object != fast.tt && unzftab as object != sm.ll16 && unzftab as object != sm.ll4
    modifies fast, fast.tt, sm, sm.ll16, sm.ll4
    ensures ok && stage != null && fresh(stage) && fresh(stage.source) && stage.Valid() && stage.emitted == []
    ensures stage.block == Unsort(blockRandomised, column, origPtr)
    ensures stage.source.fast == fast && stage.source.small == sm
  {
    hide Cumulative, FastUnsorter.Ready, SmallUnsorter.Ready, Count, CountBelow, Unsorted, CrcOf, Text, Rest, RestOk,
        Complete, Unmasked, MaskAt;
    stage := null;
    var cftab := new int[257];
    ok := BuildCftab(unzftab, cftab, nblock, column);
    if !ok { return; }
    fast.column, sm.column := column, column;
    LinkUp(small, fast, sm, cftab, nblock, origPtr, column);
    var source := new ByteSource(small, blockRandomised, fast, sm, cftab, column, origPtr);
    stage := new OutputStage(source, nblock);
  }

  /** The block an output stage gives out. */
  ghost function BytesOf(stage: OutputStage?): seq<Byte> {
    if stage == null then [] else stage.block
  }

  lemma SymbolsOfSection(t: SectionTables, s: Section, bits: seq<bool>)
    requires Received(t, s)
    ensures Sectioned(s) && 1 <= t.nInUse <= 256 && |s.inUse| == 256 && t.nInUse == Rank(s.inUse, 256)
    ensures var m := SectionSymbolsAt(s, bits); m.Got? ==> BlockSymbols(m.value, t.nInUse + 1)
  {
    hide Rank, BlockSymbols;
  }

  /** From the symbols on. */
  method ReceiveBytes(r: BitReader, blockRandomised: bool, origPtr: nat, t: SectionTables, max: int, small: bool,
      fast: FastUnsorter, sm: SmallUnsorter, ghost s: Section)
    returns (ok: bool, stage: OutputStage?)
    requires r.Valid() && Room(small, fast, sm, max) && Received(t, s)
    modifies r, fast, fast.tt, sm, sm.ll16, sm.ll4
    ensures r.Valid()
    ensures Reads(BytesAt(blockRandomised, origPtr, s, old(r.Coming()), max), ok, BytesOf(stage), r.Coming())
    ensures ok ==> stage != null && fresh(stage) && fresh(stage.source) && stage.Valid() && stage.emitted == []
    ensures ok ==> stage.source.fast == fast && stage.source.small == sm
  {
    hide Rank, SectionSymbolsAt, ColumnOf, Unsort, Room, Received, Sectioned, BlockSymbols, Tally, BitReader.Valid,
        BitReader.Coming, OutputStage.Valid;
    stage := null;
    SymbolsOfSection(t, s, r.Coming());
    var syms;
    ok, syms := ReceiveSymbols(r, t, s);
    if !ok { return; }
    var nblock, unzftab;
    ghost var column;
    ok, nblock, unzftab, column := FillColumn(small, fast, sm, max, t, syms, s);
    if !ok { return; }
    if origPtr < 0 || origPtr >= nblock { return false, stage; }
    ok, stage := StartOutput(small, blockRandomised, fast, sm, max, unzftab, nblock, origPtr, column);
  }

  /** Everything BZ2_decompress does for one block after its magic number: it succeeds just when the
      bits mean a block, takes exactly the block's bits, and leaves a stage that will give out
      exactly these bytes, with the checksum sent for them. */
  method ReceiveBlock(r: BitReader, blockSize100k: int, small: bool, fast: FastUnsorter, sm: SmallUnsorter)
    returns (ok: bool, stage: OutputStage?, storedBlockCRC: bv32)
    requires r.Valid() && 1 <= blockSize100k <= 9 && Room(small, fast, sm, 100_000 * blockSize100k)
    requires BodyAt(r.Coming(), 100_000 * blockSize100k) != Wild
    modifies r, fast, fast.tt, sm, sm.ll16, sm.ll4
    ensures r.Valid()
    ensures var m := BodyAt(old(r.Coming()), 100_000 * blockSize100k);
      Reads(m, ok, Body(storedBlockCRC, BytesOf(stage)), r.Coming())
    ensures ok ==> stage != null && fresh(stage) && fresh(stage.source) && stage.Valid() && stage.emitted == []
    ensures ok ==> stage.source.fast == fast && stage.source.small == sm
  {
    hide WordAt, OriginAt, SectionAt, BytesAt, Room, Received, Sectioned, BitReader.Valid, BitReader.Coming,
        OutputStage.Valid;
    stage := null;
    ok, storedBlockCRC := ReadWord(r);
    if !ok { return; }
    var blockRandomised;
    ok, blockRandomised := ReadBit(r);
    if !ok { return; }
    var origPtr;
    ok, origPtr := ReadOrigin(r);
    if !ok { return; }
    if origPtr < 0 || origPtr > 10 + 100_000 * blockSize100k { return false, stage, storedBlockCRC; }
    var t;
    ghost var s;
    ok, t, s := ReadTables(r);
    if !ok { return; }
    ReceivedIs(t, s);
    ok, stage := ReceiveBytes(r, blockRandomised, origPtr, t, 100_000 * blockSize100k, small, fast, sm, s);
  }

  lemma ReceivedIs(t: SectionTables, s: Section)
    requires Received(t, s)
    ensures Sectioned(s)
  {
  }
}

/** sendMTFValues and BZ2_compressBlock: one block from bytes to bits. */
module BlockSender {
  import opened Wrappers
  import opened Bytes
  import opened Bits
  import opened BitStream
  import opened Permutations
  import opened Rotations
  import opened Canonical
  import opened HuffmanTables
  import opened ByteMaps
  import opened ZeroRuns
  import opened MtfEncoder
  import opened MtfDecoder
  import opened SymbolMeaning
  import opened BlockCodes
  import opened BlockHeader
  import opened CodingTables
  import opened InverseBwt
  import opened RunLength
  import opened BucketBits
  import opened FallbackRebuild
  import opened MainCompare
  import MainSort
  import opened BlockFormat

  lemma FieldLimits()
    ensures Pow2(1) == 2 && Pow2(3) == 8 && Pow2(8) == 0x100 && Pow2(15) == 0x8000 && Pow2(24) == 0x100_0000
  {
    Pow2Values();
    Pow2Add(8, 7);
    assert Pow2(4) == 16;
    assert Pow2(7) == 128;
  }

  /** bsPutUChar, for several bytes. */
  method PutBytes(w: BitWriter, s: seq<Byte>)
    requires w.Valid()
    modifies w
    ensures |old(w.zbits)| <= |w.zbits|
    ensures w.Valid() && w.Written() == old(w.Written()) + BytesBits(s)
  {
    hide Pow2, BytesBits, ToBits, BitWriter.Valid, BitWriter.Written;
    ghost var w0 := w.Written();
    FieldLimits();
    NoBytes();
    for i := 0 to |s|
      invariant w.Valid() && |old(w.zbits)| <= |w.zbits| && w.Written() == w0 + BytesBits(s[..i])
    {
      assert s[..i + 1] == s[..i] + [s[i]];
      BytesBitsSnoc(s[..i], s[i]);
      w.Write(8, s[i]);
    }
    assert s[..|s|] == s;
  }

  lemma NoBytes()
    ensures BytesBits([]) == []
  {
  }

  /** Assigns the code words of one table. */
  method CodesOf(lens: seq<Byte>) returns (code: seq<int>)
    requires Lengths(lens)
    ensures |code| == |lens| && forall i :: 0 <= i < |lens| ==> code[i] == Code(lens, i)
  {
    hide Code;
    var length := new Byte[|lens|](i requires 0 <= i < |lens| => lens[i]);
    var codes := new int[|lens|];
    assert length[..|lens|] == lens;
    var minLen, maxLen := LengthRange(length, |lens|);
    AssignCodes(codes, length, minLen, maxLen, |lens|);
    code := codes[..];
  }

  method AllCodes(lens: seq<seq<Byte>>) returns (code: seq<seq<int>>)
    requires forall t :: 0 <= t < |lens| ==> Lengths(lens[t])
    ensures |code| == |lens|
    ensures forall t :: 0 <= t < |lens| ==>
      |code[t]| == |lens[t]| && forall i :: 0 <= i < |lens[t]| ==> code[t][i] == Code(lens[t], i)
  {
    hide Code, Lengths;
    code := [];
    for t := 0 to |lens|
      invariant |code| == t
      invariant forall u :: 0 <= u < t ==>
        |code[u]| == |lens[u]| && forall i :: 0 <= i < |lens[u]| ==> code[u][i] == Code(lens[u], i)
    {
      var c := CodesOf(lens[t]);
      code := code + [c];
    }
  }

  method WriteAllLengths(w: BitWriter, lens: seq<seq<Byte>>)
    requires w.Valid() && forall t :: 0 <= t < |lens| ==> Lengths(lens[t])
    modifies w
    ensures |old(w.zbits)| <= |w.zbits|
    ensures w.Valid() && w.Written() == old(w.Written()) + AllLengths(lens, 0)
  {
    hide Lengths, LengthBits, BitWriter.Valid, BitWriter.Written;
    ghost var w0 := w.Written();
    for t := 0 to |lens|
      invariant w.Valid() && |old(w.zbits)| <= |w.zbits|
      invariant w.Written() + AllLengths(lens, t) == w0 + AllLengths(lens, 0)
    {
      ghost var before := w.Written();
      assert before + (LengthBits(lens[t]) + AllLengths(lens, t + 1)) == before + LengthBits(lens[t])
          + AllLengths(lens, t + 1);
      WriteLengths(w, lens[t]);
    }
    assert w.Written() + [] == w.Written();
  }

  method WriteSelectorPart(w: BitWriter, nGroups: int, selector: seq<Byte>, ghost b: Block)
    requires w.Valid() && Sendable(b) && b.nGroups == nGroups && b.selector == selector
    modifies w
    ensures |old(w.zbits)| <= |w.zbits|
    ensures w.Valid() && w.Written() == old(w.Written()) + SelectorBits(b)
  {
    hide Sendable, Pow2, ToBits, UnaryAll, SelectorMtf, BitWriter.Valid, BitWriter.Written;
    SelectorLimits(b);
    FieldLimits();
    ghost var w0 := w.Written();
    var selectorMtf := ComputeSelectorMtf(nGroups, selector);
    w.Write(3, nGroups);
    w.Write(15, |selector|);
    WriteSelectors(w, selectorMtf);
    ghost var x, y, z := ToBits(nGroups, 3), ToBits(|selector|, 15), UnaryAll(selectorMtf, 0);
    assert w0 + x + y + z == w0 + (x + (y + z));
  }

  lemma SelectorLimits(b: Block)
    requires Sendable(b)
    ensures Selectors(b.selector, b.nGroups) && 2 <= b.nGroups <= 6 && |b.selector| <= BZ_MAX_SELECTORS
        && |b.inUse| == 256
  {
  }

  /** The mapping table, the selectors and the coding tables. */
  method WriteTables(w: BitWriter, inUse: seq<bool>, nGroups: int, selector: seq<Byte>, lens: seq<seq<Byte>>,
      ghost b: Block)
    requires w.Valid() && Sendable(b)
    requires b.inUse == inUse && b.nGroups == nGroups && b.selector == selector && b.lens == lens
    modifies w
    ensures |old(w.zbits)| <= |w.zbits|
    ensures w.Valid() && w.Written() == old(w.Written()) + TableBits(b)
  {
    hide Sendable, SelectorBits, AllLengths, MapBits, Lengths, BitWriter.Valid, BitWriter.Written;
    SelectorLimits(b);
    SentTables(b);
    ghost var w0 := w.Written();
    WriteMap(w, inUse);
    WriteSelectorPart(w, nGroups, selector, b);
    WriteAllLengths(w, lens);
    ghost var x, y, z := MapBits(inUse), SelectorBits(b), AllLengths(lens, 0);
    assert w0 + x + y + z == w0 + (x + (y + z));
  }

  /** sendMTFValues, once the parts are chosen. */
  method WriteSymbols(w: BitWriter, selector: seq<Byte>, lens: seq<seq<Byte>>, syms: seq<int>, ghost b: Block)
    requires w.Valid() && Sendable(b) && b.selector == selector && b.lens == lens && b.syms == syms
    modifies w
    ensures |old(w.zbits)| <= |w.zbits|
    ensures w.Valid() && w.Written() == old(w.Written()) + SymbolBits(b)
  {
    hide Sendable, Lengths, Codable, Code, BitWriter.Valid, BitWriter.Written;
    SentTables(b);
    SendableIsCodable(b);
    var code := AllCodes(lens);
    var selCtr := SendCodes(w, syms, selector, lens, code);
    GroupsMatch(b);
    assert selCtr == |selector|;
  }

  lemma GroupsMatch(b: Block)
    requires Sendable(b)
    ensures |b.selector| == (|b.syms| + BZ_G_SIZE - 1) / BZ_G_SIZE
  {
  }

  /** Everything after the magic number. */
  method WriteBody(w: BitWriter, crc: bv32, origPtr: int, inUse: seq<bool>, nGroups: int, selector: seq<Byte>,
      lens: seq<seq<Byte>>, syms: seq<int>)
    requires w.Valid() && Sendable(Block(crc, origPtr, inUse, nGroups, selector, lens, syms))
    modifies w
    ensures |old(w.zbits)| <= |w.zbits|
    ensures w.Valid() && w.Written() == old(w.Written())
        + BodyBits(Block(crc, origPtr, inUse, nGroups, selector, lens, syms))
  {
    hide TableBits, SymbolBits, BytesBits, ToBits, WordBytes, Pow2, BitWriter.Valid, BitWriter.Written;
    ghost var b := Block(crc, origPtr, inUse, nGroups, selector, lens, syms);
    hide Sendable;
    ghost var w0 := w.Written();
    OriginLimit(b);
    FieldLimits();
    PutBytes(w, WordBytes(crc));
    WriteBit(w, false);
    w.Write(24, origPtr);
    WriteTables(w, inUse, nGroups, selector, lens, b);
    WriteSymbols(w, selector, lens, syms, b);
    JoinFive(w0, BytesBits(WordBytes(crc)), [false], ToBits(origPtr, 24), TableBits(b), SymbolBits(b));
  }

  lemma OriginLimit(b: Block)
    requires Sendable(b)
    ensures 0 <= b.origPtr < 0x100_0000
  {
  }

  lemma JoinFive(w: seq<bool>, p: seq<bool>, q: seq<bool>, r: seq<bool>, s: seq<bool>, t: seq<bool>)
    ensures w + p + q + r + s + t == w + (p + (q + (r + (s + t))))
  {
  }

  // ---- sorting ----

  /** A copy of the block with room for the overshoot. */
  method RoomyBlock(block: array<Byte>, nblock: int) returns (roomy: array<int>)
    requires 0 < nblock <= block.Length
    ensures fresh(roomy) && roomy.Length == nblock + N_OVERSHOOT && roomy[..nblock] == block[..nblock]
  {
    roomy := new int[nblock + N_OVERSHOOT];
    for i := 0 to nblock
      invariant forall k :: 0 <= k < i ==> roomy[k] == block[k]
    {
      roomy[i] := block[i];
    }
  }

  /** The main algorithm, with the budget the work factor allows; gives up when it runs out. */
  method SortWithBudget(ptr: array<int>, block: array<Byte>, nblock: int, workFactor: int) returns (budget: int)
    requires N_OVERSHOOT < nblock == ptr.Length <= block.Length && nblock <= 900_000 && block as object != ptr
    modifies ptr
    ensures budget >= 0 ==> SortedRotations(block[..nblock], ptr[..])
  {
    hide SortedRotations;
    ghost var bytes := block[..nblock];
    var roomy := RoomyBlock(block, nblock);
    var quadrant := new int[nblock + N_OVERSHOOT];
    var wfact := if workFactor < 1 then 1 else if workFactor > 100 then 100 else workFactor;
    budget := MainSort.MainSort(ptr, roomy, quadrant, nblock, nblock * ((wfact - 1) / 3), bytes);
    assert block[..nblock] == bytes;
  }

  /** BZ2_blockSort: the main algorithm for long blocks, the fallback for short ones and for
      those the main algorithm gives up. Either way every work factor gives the same order. */
  method BlockSort(block: array<Byte>, nblock: int, workFactor: int) returns (ptr: array<int>, origPtr: int)
    requires 0 < nblock <= block.Length && nblock <= 900_000
    modifies block
    ensures block[..nblock] == old(block[..nblock]) && fresh(ptr)
    ensures ptr.Length == nblock && SortedRotations(block[..nblock], ptr[..])
    ensures 0 <= origPtr < nblock && ptr[origPtr] == 0
  {
    hide SortedRotations, Distinct;
    ptr := new int[nblock];
    var budget := -1;
    if nblock >= 10000 { budget := SortWithBudget(ptr, block, nblock, workFactor); }
    if budget < 0 {
      var eclass, bits := new int[nblock], new bool[BitsLength(nblock)];
      FallbackSort(block, ptr, eclass, bits, nblock);
    }
    SortedIsPermutation(block[..nblock], ptr[..]);
    origPtr := FindOrigin(ptr, nblock);
  }

  /** The sorter's words seen as the 16-bit halves that mtfv will overwrite. */
  method AsHalves(ptr: array<int>, nblock: int) returns (arr1: array<Half>)
    requires ptr.Length == nblock <= 900_000 && InRange(ptr[..], nblock)
    ensures fresh(arr1) && arr1.Length == 2 * nblock && PtrView(arr1[..], nblock) == ptr[..]
  {
    arr1 := new Half[2 * nblock];
    for i := 0 to nblock
      invariant forall k :: 0 <= k < i ==> PtrWord(arr1[..], k) == ptr[k]
    {
      assert 0 <= ptr[..][i] < nblock;
      ghost var before := arr1[..];
      arr1[2 * i], arr1[2 * i + 1] := ptr[i] % 0x1_0000, ptr[i] / 0x1_0000;
      forall k | 0 <= k < i ensures PtrWord(arr1[..], k) == PtrWord(before, k) {}
    }
  }

  // ---- the whole block ----

  /** What a block becomes, with the tables chosen for it. */
  ghost predicate Chosen(b: Block, selector: seq<Byte>, lens: seq<seq<Byte>>)
    requires |b.inUse| == 256
  {
    && b.nGroups == NumGroups(|b.syms|) && b.selector == selector && b.lens == lens && WellCoded(b)
    && FullTables(lens, b.nGroups, AlphaSize(b))
    && |selector| == (|b.syms| + BZ_G_SIZE - 1) / BZ_G_SIZE
    && forall k :: 0 <= k < |selector| ==> selector[k] < b.nGroups
  }

  lemma {:induction false} ChosenIsSendable(b: Block, selector: seq<Byte>, lens: seq<seq<Byte>>)
    requires |b.inUse| == 256 && Chosen(b, selector, lens) && 1 <= Rank(b.inUse, 256) <= 256
    requires BlockSymbols(b.syms, AlphaSize(b) - 1) && |b.syms| <= 900_001 && 0 <= b.origPtr < 0x100_0000
    ensures Sendable(b) && |selector| <= 2 + 900_000 / BZ_G_SIZE
  {
    hide Rank, FullTable, Lengths, Fits, WellCoded;
    forall t | 0 <= t < b.nGroups ensures SentTable(b.lens[t], AlphaSize(b)) { FullTableFits(lens[t]); }
  }

  /** sendMTFValues */
  method SendMtfValues(w: BitWriter, crc: bv32, origPtr: int, inUse: seq<bool>, nInUse: int, syms: seq<int>)
    returns (ghost b: Block)
    requires w.Valid() && |inUse| == 256 && nInUse == Rank(inUse, 256) && 1 <= nInUse <= 256
    requires BlockSymbols(syms, nInUse + 1) && InAlphabet(syms, nInUse + 2) && |syms| <= 900_001
    requires 0 <= origPtr < 0x100_0000
    modifies w
    ensures |old(w.zbits)| <= |w.zbits|
    ensures b.crc == crc && b.origPtr == origPtr && b.inUse == inUse && b.syms == syms && Sendable(b)
    ensures w.Valid() && w.Written() == old(w.Written()) + BodyBits(b) && WellCoded(b)
  {
    hide Rank, BodyBits, FullTables, BitWriter.Valid, BitWriter.Written, Settled;
    var alphaSize := nInUse + 2;
    var nGroups := NumGroups(|syms|);
    var selector, lens := ChooseTables(syms, nGroups, alphaSize);
    b := Block(crc, origPtr, inUse, nGroups, selector, lens, syms);
    ChosenIsSendable(b, selector, lens);
    assert |selector| < 32768 && |selector| <= 2 + 900_000 / BZ_G_SIZE;
    WriteBody(w, crc, origPtr, inUse, nGroups, selector, lens, syms);
  }

  lemma {:induction false} ValuesNumber(bytes: seq<Byte>, ptr: seq<int>, inUse: seq<bool>)
    requires IsPermutation(ptr, |bytes|) && |inUse| == 256 && forall i :: 0 <= i < |bytes| ==> inUse[bytes[i]]
    ensures Numbered(LastColumn(bytes, ptr), Values(bytes, ptr, inUse), inUse)
  {
    hide Rank;
  }

  /** Decoding the symbols gives the numbered last column. */
  ghost predicate Encodes(syms: seq<int>, bytes: seq<Byte>, ptr: seq<int>, inUse: seq<bool>) {
    && InRange(ptr, |bytes|) && |inUse| == 256 && (forall i :: 0 <= i < |bytes| ==> inUse[bytes[i]])
    && syms != [] && Symbols(syms[..|syms| - 1])
    && Decode(syms[..|syms| - 1], Identity(), |bytes|) == Some(Values(bytes, ptr, inUse))
  }

  /** The encoder's symbols stand for the last column, whatever larger limit the decoder sets. */
  lemma {:induction false} SentStandsFor(b: Block, bytes: seq<Byte>, ptr: seq<int>, max: int)
    requires Sendable(b) && IsPermutation(ptr, |bytes|) && |bytes| <= max && Encodes(b.syms, bytes, ptr, b.inUse)
    ensures StandsFor(b, LastColumn(bytes, ptr), max)
  {
    hide Rank, After, Numbered;
    AfterRoomier(b.syms[..|b.syms| - 1], Identity(), |bytes|, max);
    ValuesNumber(bytes, ptr, b.inUse);
  }

  lemma {:induction false} SentCarries(b: Block, bytes: seq<Byte>, ptr: seq<int>, max: int)
    requires Sendable(b) && SortedRotations(bytes, ptr) && |bytes| <= max && Encodes(b.syms, bytes, ptr, b.inUse)
    requires 0 <= b.origPtr < |bytes| && ptr[b.origPtr] == 0 && Complete(bytes) && b.crc == !CrcOf(Text(bytes))
    ensures InRange(ptr, |bytes|) && Carries(b, bytes, LastColumn(bytes, ptr), max)
  {
    hide Sendable, SortedRotations, Complete, Text, CrcOf, Encodes, StandsFor, Unsorted, Distinct;
    SortedIsPermutation(bytes, ptr);
    SentStandsFor(b, bytes, ptr, max);
    UnsortedIsBlock(bytes, ptr, b.origPtr);
  }

  /** generateMTFValues on the sorter's result. */
  method SymbolsOf(ptr: array<int>, block: array<Byte>, nblock: int, inUse: array<bool>)
    returns (syms: seq<int>, nInUse: int)
    requires 0 < nblock == ptr.Length <= block.Length && nblock <= 900_000 && inUse.Length == 256
    requires block as object != inUse && InRange(ptr[..], nblock)
    requires forall i :: 0 <= i < nblock ==> inUse[block[i]]
    ensures nInUse == Rank(inUse[..], 256) && 1 <= nInUse <= 256 && |syms| <= nblock + 1
    ensures BlockSymbols(syms, nInUse + 1) && InAlphabet(syms, nInUse + 2)
    ensures Encodes(syms, block[..nblock], ptr[..], inUse[..])
  {
    hide Rank, Decode, Values, Distinct, BlockSymbols, InAlphabet, AtMost;
    var arr1 := AsHalves(ptr, nblock);
    var nMTF;
    nInUse, nMTF := GenerateMtfValues(arr1, block, nblock, inUse);
    syms := arr1[..nMTF];
    assert syms[..|syms| - 1] == arr1[..nMTF - 1];
    RankInjective(inUse[..], block[0], block[0]);
    EncoderSymbols(syms, nInUse, inUse[..]);
  }

  /** Everything BZ2_compressBlock does for a block, from its bytes to the bit stream; the
      parts sent stand for exactly those bytes and the block itself is unharmed. */
  method CompressBlock(w: BitWriter, block: array<Byte>, nblock: int, inUse: array<bool>, crc: bv32, workFactor: int,
      ghost max: int)
    returns (ghost b: Block, ghost column: seq<Byte>)
    requires w.Valid() && 0 < nblock <= block.Length && nblock <= 900_000 && nblock <= max && inUse.Length == 256
    requires block as object != inUse
    requires forall i :: 0 <= i < nblock ==> inUse[block[i]]
    requires Complete(block[..nblock]) && crc == !CrcOf(Text(block[..nblock]))
    modifies w, block
    ensures |old(w.zbits)| <= |w.zbits|
    ensures w.Valid() && block[..nblock] == old(block[..nblock])
    ensures Carries(b, block[..nblock], column, max) && b.crc == crc && WellCoded(b) && b.inUse == inUse[..]
    ensures w.Written() == old(w.Written()) + (BytesBits(BLOCK_MAGIC) + BodyBits(b))
  {
    hide *;
    ghost var bytes, w0 := block[..nblock], w.Written();
    assert forall i :: 0 <= i < nblock ==> block[i] == bytes[i];
    var ptr, origPtr := BlockSort(block, nblock, workFactor);
    assert forall i :: 0 <= i < nblock ==> block[i] == bytes[i];
    SortedIsPermutation(bytes, ptr[..]);
    column := LastColumn(bytes, ptr[..]);
    PutBytes(w, BLOCK_MAGIC);
    var syms, nInUse := SymbolsOf(ptr, block, nblock, inUse);
    b := SendMtfValues(w, crc, origPtr, inUse[..], nInUse, syms);
    SentCarries(b, bytes, ptr[..], max);
    assert w0 + BytesBits(BLOCK_MAGIC) + BodyBits(b) == w0 + (BytesBits(BLOCK_MAGIC) + BodyBits(b));
  }

  lemma {:induction false} EncoderSymbols(arr: seq<int>, nInUse: int, inUse: seq<bool>)
    requires |inUse| == 256 && nInUse == Rank(inUse, 256) && arr != [] && arr[|arr| - 1] == nInUse + 1
    requires AtMost(arr[..|arr| - 1], nInUse) && nInUse >= 1
    ensures nInUse <= 256 && BlockSymbols(arr, nInUse + 1) && InAlphabet(arr, nInUse + 2)
  {
    hide Rank;
    RankBound(inUse);
    forall k | 0 <= k < |arr| - 1 ensures 0 <= arr[k] <= nInUse { assert arr[k] == arr[..|arr| - 1][k]; }
  }

  lemma SortedIsPermutation(b: seq<Byte>, ptr: seq<int>)
    requires SortedRotations(b, ptr)
    ensures IsPermutation(ptr, |b|) && |LastColumn(b, ptr)| == |b|
  {
  }
}

/** The format of a bzip2 stream: a header, the bits of the blocks, and a trailer with the combined
    checksum. */
module StreamFormat {
  import opened Bytes
  import opened Bits
  import opened BitStream
  import opened BlockFormat
  import opened RunLength
  import opened InverseBwt

  function Header(blockSize100k: int): (s: seq<Byte>)
    requires 1 <= blockSize100k <= 9
  {
    [0x42, 0x5a, 0x68, 0x30 + blockSize100k]
  }

  /** combinedCRC: rotated by one and xor-ed with each block's checksum. */
  function Combine(combined: bv32, crc: bv32): bv32 {
    ((combined << 1) | (combined >> 31)) ^ crc
  }

  function CombinedCrc(blocks: seq<Block>): bv32 {
    if blocks == [] then 0 else Combine(CombinedCrc(blocks[..|blocks| - 1]), blocks[|blocks| - 1].crc)
  }

  /** A sent block together with what it carries. */
  datatype Load = Load(block: Block, bytes: seq<Byte>, column: seq<Byte>)

  ghost predicate Loaded(loads: seq<Load>, max: int) {
    forall k :: 0 <= k < |loads| ==> Carries(loads[k].block, loads[k].bytes, loads[k].column, max)
  }

  function BlocksOf(loads: seq<Load>): (bs: seq<Block>)
    ensures |bs| == |loads| && forall k :: 0 <= k < |bs| ==> bs[k] == loads[k].block
  {
    seq(|loads|, k requires 0 <= k < |loads| => loads[k].block)
  }

  /** The text of all blocks. */
  function TextOf(loads: seq<Load>): seq<Byte> {
    if loads == [] then [] else TextOf(loads[..|loads| - 1]) + Text(loads[|loads| - 1].bytes)
  }

  ghost function LoadBits(l: Load): seq<bool> {
    if Sendable(l.block) then BytesBits(BLOCK_MAGIC) + BodyBits(l.block) else []
  }

  /** Bits of the blocks from k on. */
  ghost function BlocksBits(loads: seq<Load>, k: nat): seq<bool>
    requires k <= |loads|
    decreases |loads| - k
  {
    if k == |loads| then [] else LoadBits(loads[k]) + BlocksBits(loads, k + 1)
  }

  ghost function TrailerBits(loads: seq<Load>): seq<bool> {
    BytesBits(END_MAGIC) + BytesBits(WordBytes(CombinedCrc(BlocksOf(loads))))
  }

  /** The bits of zbits are those of a stream with these blocks, then padding. */
  ghost predicate IsStream(bits: seq<bool>, blockSize100k: int, loads: seq<Load>, pad: seq<bool>) {
    && 1 <= blockSize100k <= 9 && Loaded(loads, 100_000 * blockSize100k)
    && bits == BytesBits(Header(blockSize100k)) + (BlocksBits(loads, 0) + (TrailerBits(loads) + pad))
  }

  /** zbits is a well-formed stream whose blocks stand for text. */
  ghost predicate Represents(zbits: seq<Byte>, text: seq<Byte>) {
    exists blockSize100k, loads, pad :: IsStream(BytesBits(zbits), blockSize100k, loads, pad) && TextOf(loads) == text
  }

  /** The map of a block has exactly the bytes that occur, and its tables are settled on. */
  ghost predicate WellMade(l: Load) {
    WellCoded(l.block) && UsedOnly(l.block.inUse, l.bytes)
  }

  ghost predicate UsedOnly(inUse: seq<bool>, bytes: seq<Byte>) {
    |inUse| == 256 && forall c :: 0 <= c < 256 ==> (inUse[c] <==> c in bytes)
  }

  /** Every block but those that end at the given lengths of the text is full, none is empty, each has
      the longest runs that its text has, and each is coded as well as the passes make it. */
  ghost predicate CutAt(loads: seq<Load>, full: int, cuts: set<int>) {
    forall k :: 0 <= k < |loads| ==> WellCut(loads, k, full, cuts)
  }

  ghost predicate WellCut(loads: seq<Load>, k: int, full: int, cuts: set<int>)
    requires 0 <= k < |loads|
  {
    && loads[k].bytes != [] && Tight(loads[k].bytes) && WellMade(loads[k])
    && (|loads[k].bytes| >= full || |TextOf(loads[..k + 1])| in cuts)
  }

  /** Zeros, and not a whole byte of them. */
  ghost predicate Pads(pad: seq<bool>) {
    |pad| < 8 && forall i :: 0 <= i < |pad| ==> !pad[i]
  }

  /** zbits is the stream of text for this block size: blocks are full but where they were ended, and
      the stream ends with the byte in which the checksum does. */
  ghost predicate Encodes(zbits: seq<Byte>, blockSize100k: int, text: seq<Byte>, cuts: set<int>) {
    exists loads, pad :: Encoding(zbits, blockSize100k, loads, pad, text, cuts)
  }

  ghost predicate Encoding(zbits: seq<Byte>, blockSize100k: int, loads: seq<Load>, pad: seq<bool>, text: seq<Byte>,
      cuts: set<int>)
  {
    && IsStream(BytesBits(zbits), blockSize100k, loads, pad) && TextOf(loads) == text && Pads(pad)
    && CutAt(loads, 100_000 * blockSize100k - 19, cuts)
  }

  lemma EncodesRepresents(zbits: seq<Byte>, blockSize100k: int, text: seq<Byte>, cuts: set<int>)
    requires Encodes(zbits, blockSize100k, text, cuts)
    ensures Represents(zbits, text)
  {
    hide IsStream, TextOf, CutAt;
  }

  lemma EncodesMore(zbits: seq<Byte>, blockSize100k: int, text: seq<Byte>, cuts: set<int>, more: set<int>)
    requires Encodes(zbits, blockSize100k, text, cuts) && cuts <= more
    ensures Encodes(zbits, blockSize100k, text, more)
  {
    hide IsStream, TextOf, CutAt;
    var loads, pad :| Encoding(zbits, blockSize100k, loads, pad, text, cuts);
    CutAtMore(loads, 100_000 * blockSize100k - 19, cuts, more);
    assert Encoding(zbits, blockSize100k, loads, pad, text, more);
  }

  lemma CutAtMore(loads: seq<Load>, full: int, cuts: set<int>, more: set<int>)
    requires CutAt(loads, full, cuts) && cuts <= more
    ensures CutAt(loads, full, more)
  {
    hide TextOf, Tight, WellMade;
    forall k | 0 <= k < |loads| ensures WellCut(loads, k, full, more) { assert WellCut(loads, k, full, cuts); }
  }

  lemma CutAtSnoc(loads: seq<Load>, l: Load, full: int, cuts: set<int>)
    requires CutAt(loads, full, cuts) && l.bytes != [] && Tight(l.bytes) && WellMade(l)
    requires |l.bytes| >= full || |TextOf(loads + [l])| in cuts
    ensures CutAt(loads + [l], full, cuts)
  {
    hide TextOf, Tight, WellMade;
    var more := loads + [l];
    forall k | 0 <= k < |more| ensures WellCut(more, k, full, cuts) {
      if k < |loads| {
        assert WellCut(loads, k, full, cuts);
        assert more[..k + 1] == loads[..k + 1];
      } else {
        assert more[..k + 1] == more;
      }
    }
  }

  lemma {:induction false} ZeroBits(n: nat)
    ensures forall i :: 0 <= i < n ==> !ToBits(0, n)[i]
  {
    if n > 0 { ZeroBits(n - 1); }
  }

  lemma PaddingPads(live: int)
    requires 0 <= live < 8
    ensures Pads(Padding(live))
  {
    ZeroBits(8 - live);
  }

  lemma {:induction false} BlocksBitsSnoc(loads: seq<Load>, l: Load, k: nat)
    requires k <= |loads|
    ensures BlocksBits(loads + [l], k) == BlocksBits(loads, k) + LoadBits(l)
    decreases |loads| - k
  {
    hide LoadBits;
    var more := loads + [l];
    if k < |loads| {
      BlocksBitsSnoc(loads, l, k + 1);
      assert more[k] == loads[k];
      assert LoadBits(loads[k]) + (BlocksBits(loads, k + 1) + LoadBits(l)) ==
             LoadBits(loads[k]) + BlocksBits(loads, k + 1) + LoadBits(l);
    } else {
      assert BlocksBits(more, k) == LoadBits(l) + BlocksBits(more, k + 1);
      assert LoadBits(l) + [] == LoadBits(l) == [] + LoadBits(l);
    }
  }

  lemma {:induction false} LoadsSnoc(loads: seq<Load>, l: Load, max: int)
    requires Loaded(loads, max) && Carries(l.block, l.bytes, l.column, max)
    ensures Loaded(loads + [l], max) && TextOf(loads + [l]) == TextOf(loads) + Text(l.bytes)
    ensures CombinedCrc(BlocksOf(loads + [l])) == Combine(CombinedCrc(BlocksOf(loads)), l.block.crc)
    ensures LoadBits(l) == BytesBits(BLOCK_MAGIC) + BodyBits(l.block)
  {
    hide Combine, Text, Sendable, BodyBits, BytesBits, StandsFor, Complete, CrcOf, Unsorted;
    var more := loads + [l];
    assert more[..|loads|] == loads;
    assert BlocksOf(more)[..|loads|] == BlocksOf(loads);
    forall k | 0 <= k < |more| ensures Carries(more[k].block, more[k].bytes, more[k].column, max) {
      if k < |loads| { assert more[k] == loads[k]; } else { assert more[k] == l; }
    }
  }

  lemma {:induction false} NoLoads(max: int)
    ensures Loaded([], max) && TextOf([]) == [] && CombinedCrc(BlocksOf([])) == 0 && BlocksBits([], 0) == []
  {
  }

  lemma Magics()
    ensures |BLOCK_MAGIC| == |END_MAGIC| == 6
  {
  }

  lemma HeaderIsFour(blockSize100k: int)
    requires 1 <= blockSize100k <= 9
    ensures Header(blockSize100k) == [0x42, 0x5a, 0x68, 0x30 + blockSize100k]
  {
  }

  lemma StreamMade(zbits: seq<Byte>, blockSize100k: int, loads: seq<Load>, written: seq<bool>, text: seq<Byte>,
      cuts: set<int>)
    requires 1 <= blockSize100k <= 9 && Loaded(loads, 100_000 * blockSize100k) && TextOf(loads) == text
    requires CutAt(loads, 100_000 * blockSize100k - 19, cuts)
    requires written == BytesBits(Header(blockSize100k)) + BlocksBits(loads, 0) + BytesBits(END_MAGIC)
                        + BytesBits(WordBytes(CombinedCrc(BlocksOf(loads))))
    requires BytesBits(zbits) == written + Padding(|written| % 8)
    ensures Encodes(zbits, blockSize100k, text, cuts)
  {
    hide BytesBits, Header, BlocksBits, CombinedCrc, BlocksOf, WordBytes, Loaded, TextOf, Padding, CutAt, Pads;
    var pad := Padding(|written| % 8);
    PaddingPads(|written| % 8);
    var p, q, r, s := BytesBits(Header(blockSize100k)), BlocksBits(loads, 0), BytesBits(END_MAGIC),
        BytesBits(WordBytes(CombinedCrc(BlocksOf(loads))));
    assert p + q + r + s + pad == p + (q + (r + s + pad));
    assert IsStream(BytesBits(zbits), blockSize100k, loads, pad);
    assert Encoding(zbits, blockSize100k, loads, pad, text, cuts);
  }
}

/** ADD_CHAR_TO_BLOCK, add_pair_to_block and flush_RL on the compressor's state. */
module RunEncoder {
  import opened Bytes
  import opened ZeroRuns
  import opened RunLength

  class EState {
    var state_in_ch: int
    var state_in_len: int
    const block: array<Byte>
    var nblock: int
    const nblockMAX: int
    const inUse: array<bool>
    var blockCRC: bv32

    /** Room for a block and what may follow its limit (arr2, bzlib.c:178, 194). */
    ghost predicate Shape() {
      && 0 < nblockMAX && block.Length == nblockMAX + 19 && inUse.Length == 256
      && block as object != inUse
    }

    /** The run read but not yet written. */
    ghost function Pending(): seq<Byte>
      requires 0 <= state_in_len && (state_in_ch < 256 ==> 0 <= state_in_ch)
      reads this
    {
      if state_in_ch < 256 then Rep(state_in_ch, state_in_len) else []
    }

    /** 256 stands for no byte. */
    ghost predicate RunOk()
      reads this
    {
      && (state_in_ch == 256 ==> state_in_len == 0)
      && (state_in_ch != 256 ==> 0 <= state_in_ch < 256 && 1 <= state_in_len <= 255)
    }

    /** b is the block, its runs as long as they can be; its checksum covers the text it stands for
        and the map marks exactly its bytes. */
    ghost predicate Stored(b: seq<Byte>)
      reads this, block, inUse
    {
      && Shape() && |b| == nblock <= block.Length && block[..nblock] == b
      && (forall c :: 0 <= c < 256 ==> (inUse[c] <==> c in b))
      && RunOk() && Complete(b) && blockCRC == CrcOf(Text(b)) && Tight(b)
    }

    /** While reading, the pending run does not continue what b ends with. */
    ghost predicate Holds(b: seq<Byte>)
      reads this, block, inUse
    {
      Stored(b) && if state_in_ch == 256 then b == [] else Clear(ScanOf(b), state_in_ch) && Apart(b, state_in_ch)
    }

    constructor (blockSize100k: int)
      requires 1 <= blockSize100k <= 9
      ensures nblockMAX == 100_000 * blockSize100k - 19 && nblock == 0 && Holds([]) && Pending() == []
      ensures fresh(block) && fresh(inUse)
    {
      block, inUse := new Byte[100_000 * blockSize100k], new bool[256](_ => false);
      nblockMAX := 100_000 * blockSize100k - 19;
      state_in_ch, state_in_len, nblock, blockCRC := 256, 0, 0, 0xffff_ffff;
      new;
      NoRuns();
      assert block[..0] == [];
    }

    /** prepare_new_block; a pending run is carried over. */
    method PrepareNewBlock(ghost b: seq<Byte>)
      requires Stored(b)
      modifies this`nblock, this`blockCRC, inUse
      ensures Holds([]) && nblock == 0 && Pending() == old(Pending())
    {
      hide Text, CrcOf, ScanOf, Complete, Clear, Tight, Apart;
      NothingRead();
      NoRuns();
      nblock := 0;
      blockCRC := 0xffff_ffff;
      for i := 0 to 256
        modifies inUse
        invariant forall c :: 0 <= c < i ==> !inUse[c]
      {
        inUse[i] := false;
      }
      assert block[..0] == [];
    }

    /** The checksum takes every byte of the run. */
    method AddRunToCrc(ch: Byte, ghost text: seq<Byte>)
      requires 1 <= state_in_len && blockCRC == CrcOf(text)
      modifies this`blockCRC
      ensures blockCRC == CrcOf(text + Rep(ch, state_in_len))
    {
      hide UpdateCrc;
      assert text + Rep(ch, 0) == text;
      for i := 0 to state_in_len
        invariant blockCRC == CrcOf(text + Rep(ch, i))
      {
        CrcSnoc(text + Rep(ch, i), ch);
        assert text + Rep(ch, i) + [ch] == text + Rep(ch, i + 1);
        blockCRC := UpdateCrc(blockCRC, ch);
      }
    }

    method PutByte(ch: Byte, ghost b: seq<Byte>)
      requires Shape() && |b| == nblock < block.Length && block[..nblock] == b
      modifies this`nblock, block
      ensures |b| + 1 == nblock && block[..nblock] == b + [ch]
    {
      block[nblock] := ch;
      nblock := nblock + 1;
    }

    /** The switch on the run length: the bytes of the pair. */
    method WritePair(ch: Byte, ghost b: seq<Byte>)
      requires Shape() && |b| == nblock && nblock + 5 <= block.Length && block[..nblock] == b
      requires 1 <= state_in_len <= 255
      modifies this`nblock, block
      ensures var b1 := b + Pair(ch, state_in_len); |b1| == nblock <= |b| + 5 && block[..nblock] == b1
    {
      PutByte(ch, b);
      if state_in_len >= 2 { PutByte(ch, b + [ch]); }
      if state_in_len >= 3 { PutByte(ch, b + [ch] + [ch]); }
      if state_in_len >= 4 {
        PutByte(ch, b + [ch] + [ch] + [ch]);
        PutByte(state_in_len - 4, b + [ch] + [ch] + [ch] + [ch]);
      }
      PairBytes(b, ch, state_in_len);
    }

    method MarkPair(ch: Byte, ghost b: seq<Byte>)
      requires inUse.Length == 256 && 1 <= state_in_len <= 255
      requires forall c :: 0 <= c < 256 ==> (inUse[c] <==> c in b)
      modifies inUse
      ensures forall c :: 0 <= c < 256 ==> (inUse[c] <==> c in b + Pair(ch, state_in_len))
    {
      PairMembers(b, ch, state_in_len);
      inUse[ch] := true;
      if state_in_len >= 4 { inUse[state_in_len - 4] := true; }
    }

    /** The run goes to the block as a pair. */
    method AddPairToBlock(ghost b: seq<Byte>)
      requires Holds(b) && state_in_ch < 256 && nblock + 5 <= block.Length
      modifies this`nblock, this`blockCRC, block, inUse
      ensures Shape() && 0 <= state_in_ch < 256 && 1 <= state_in_len <= 255
      ensures var b1 := b + Pair(state_in_ch, state_in_len);
        && |b1| == nblock <= |b| + 5 && block[..nblock] == b1
        && (forall c :: 0 <= c < 256 ==> (inUse[c] <==> c in b1))
        && blockCRC == CrcOf(Text(b1)) && Tight(b1)
        && forall x :: x != state_in_ch || state_in_len == 255 ==> Apart(b1, x)
    {
      hide CrcOf, ScanOf, Pair, Tight, Apart;
      TightPair(b, state_in_ch, state_in_len);
      ScanPair(b, state_in_ch, state_in_len);
      AddRunToCrc(state_in_ch, Text(b));
      MarkPair(state_in_ch, b);
      WritePair(state_in_ch, b);
    }

    /** ADD_CHAR_TO_BLOCK: the fast track writes a single byte directly. */
    method AddCharToBlock(zchh: Byte, ghost b: seq<Byte>) returns (ghost b1: seq<Byte>)
      requires Holds(b) && nblock < nblockMAX
      modifies this, block, inUse
      ensures Holds(b1) && b <= b1 && nblock <= old(nblock) + 5
      ensures Text(b1) + Pending() == Text(b) + old(Pending()) + [zchh]
      ensures state_in_ch < 256
    {
      hide CrcOf, ScanOf, Pair, UpdateCrc, Tight, Apart;
      ScanEmpty();
      NoRuns();
      if zchh != state_in_ch && state_in_len == 1 {
        b1 := FastTrack(zchh, b);
      } else if zchh != state_in_ch || state_in_len == 255 {
        b1 := b;
        if state_in_ch < 256 {
          b1 := b + Pair(state_in_ch, state_in_len);
          ScanPair(b, state_in_ch, state_in_len);
          AddPairToBlock(b);
        }
        state_in_ch := zchh;
        state_in_len := 1;
        assert Pending() == [zchh];
      } else {
        b1 := b;
        assert Rep(state_in_ch, state_in_len + 1) == Rep(state_in_ch, state_in_len) + [zchh];
        state_in_len := state_in_len + 1;
        assert Text(b1) + Pending() == Text(b) + old(Pending()) + [zchh];
      }
    }

    method FastTrack(zchh: Byte, ghost b: seq<Byte>) returns (ghost b1: seq<Byte>)
      requires Holds(b) && nblock < nblockMAX && zchh != state_in_ch && state_in_len == 1
      modifies this, block, inUse
      ensures Holds(b1) && b <= b1 && nblock == old(nblock) + 1 && state_in_ch < 256
      ensures Text(b1) + Pending() == Text(b) + old(Pending()) + [zchh]
    {
      hide CrcOf, ScanOf, UpdateCrc, Tight, Apart;
      TightPair(b, state_in_ch, 1);
      var ch: Byte := state_in_ch;
      ScanPair(b, ch, 1);
      assert Rep(ch, 1) == [ch] && Rep(zchh, 1) == [zchh];
      PairBytes(b, ch, 1);
      CrcSnoc(Text(b), ch);
      blockCRC := UpdateCrc(blockCRC, ch);
      inUse[ch] := true;
      PutByte(ch, b);
      state_in_ch := zchh;
      b1 := b + [ch];
    }

    /** flush_RL */
    method FlushRL(ghost b: seq<Byte>) returns (ghost b1: seq<Byte>)
      requires Holds(b) && nblock + 5 <= block.Length
      modifies this, block, inUse
      ensures Stored(b1) && b <= b1 && nblock <= old(nblock) + 5
      ensures Text(b1) == Text(b) + old(Pending()) && Pending() == []
    {
      hide CrcOf, ScanOf, Pair, Tight, Apart;
      b1 := b;
      if state_in_ch < 256 {
        b1 := b + Pair(state_in_ch, state_in_len);
        ScanPair(b, state_in_ch, state_in_len);
        AddPairToBlock(b);
      }
      state_in_ch := 256;
      state_in_len := 0;
    }
  }

  /** The state of an empty block. */
  lemma {:induction false} NothingRead()
    ensures Text([]) == [] && Complete([]) && CrcOf([]) == 0xffff_ffff && forall ch: Byte :: Clear(ScanOf([]), ch)
  {
    hide UpdateCrc;
  }

  lemma {:induction false} ScanEmpty()
    ensures ScanOf([]) == Scan([], 0, 0)
  {
  }

  lemma PairBytes(b: seq<Byte>, ch: Byte, len: int)
    requires 1 <= len <= 255
    ensures len == 1 ==> b + Pair(ch, len) == b + [ch]
    ensures len == 2 ==> b + Pair(ch, len) == b + [ch] + [ch]
    ensures len == 3 ==> b + Pair(ch, len) == b + [ch] + [ch] + [ch]
    ensures len >= 4 ==> b + Pair(ch, len) == b + [ch] + [ch] + [ch] + [ch] + [len - 4]
  {
  }

  lemma PairMembers(b: seq<Byte>, ch: Byte, len: int)
    requires 1 <= len <= 255
    ensures forall c :: c in b + Pair(ch, len) <==> c in b || c == ch || (len >= 4 && c == len - 4)
  {
    var p := Pair(ch, len);
    assert p[0] == ch;
    if len >= 4 { assert p[4] == len - 4; }
  }
}

/** BZ2_bzCompress of bzlib.c: its modes and states over any number of calls, with input in pieces
    of any size and room for output of any size. */
module StreamCompressor {
  import opened Bytes
  import opened Bits
  import opened BitStream
  import opened BlockFormat
  import opened RunLength
  import opened RunEncoder
  import opened StreamFormat
  import BlockSender

  datatype Mode = IDLE | RUNNING | FLUSHING | FINISHING

  datatype Action = Run | Flush | Finish

  /** What a call returns. */
  datatype Code = RunOk | FlushOk | FinishOk | StreamEnd | SequenceError | ParamError

  class Compressor {
    const blockSize100k: int
    const workFactor: int
    const s: EState
    const w: BitWriter
    var mode: Mode
    /** The state BZ_S_OUTPUT: a block was sent, and its bytes are being handed out. */
    var emptying: bool
    var availIn: seq<Byte>
    var availInExpect: int
    var outPos: int
    var blockNo: int
    var combinedCRC: bv32
    /** The last block and the trailer were sent. */
    ghost var ended: bool
    ghost var loads: seq<Load>
    ghost var b: seq<Byte>
    ghost var taken: seq<Byte>
    /** Lengths of the text at which a flush or the end has ended a block. */
    ghost var cuts: set<int>

    ghost predicate Fixed() {
      1 <= blockSize100k <= 9 && s.nblockMAX == 100_000 * blockSize100k - 19
    }

    /** The blocks sent, and the sum of their checksums. */
    ghost predicate Sums()
      reads this`loads, this`combinedCRC, this`cuts
    {
      Fixed() && Loaded(loads, 100_000 * blockSize100k) && combinedCRC == CombinedCrc(BlocksOf(loads))
      && CutAt(loads, s.nblockMAX, cuts)
    }

    /** What was written, as long as the stream goes on. */
    ghost predicate Writing()
      reads this`loads, this`blockNo, this`emptying, w
    {
      && Fixed() && w.Valid() && blockNo >= 1
      && if blockNo == 1 && !emptying then loads == [] && w.Written() == []
        else w.Written() == BytesBits(Header(blockSize100k)) + BlocksBits(loads, 0)
    }

    /** All that was taken is in the blocks sent, the block being filled and the pending run. */
    ghost predicate Filled()
      reads this`loads, this`b, this`taken, s, s.block, s.inUse
    {
      s.Stored(b) && TextOf(loads) + Text(b) + s.Pending() == taken
    }

    /** The state BZ_S_INPUT. */
    ghost predicate Filling()
      reads this`loads, this`b, this`taken, this`outPos, s, s.block, s.inUse, w`zbits
    {
      Filled() && s.Holds(b) && s.nblock < s.nblockMAX && outPos == |w.zbits|
    }

    /** The state BZ_S_OUTPUT: the block is in the blocks sent. */
    ghost predicate Emptying()
      reads this`loads, this`b, this`taken, this`outPos, s, s.block, s.inUse, w`zbits
    {
      s.Stored(b) && TextOf(loads) + s.Pending() == taken && 0 <= outPos <= |w.zbits|
    }

    /** The end: everything that was taken is in the stream. */
    ghost predicate Ended()
      reads this`mode, this`emptying, this`availInExpect, this`taken, this`cuts, s`state_in_ch, w`zbits
    {
      && emptying && s.state_in_ch == 256 && Encodes(w.zbits, blockSize100k, taken, cuts)
      && (mode == FINISHING || mode == IDLE) && (mode == FINISHING ==> availInExpect == 0)
    }

    /** A block was ended by a flush only when all its input was taken. */
    ghost predicate Modes()
      reads this`mode, this`emptying, this`availInExpect, this`ended, s`state_in_ch
    {
      emptying && s.state_in_ch == 256 ==> ended || (mode == FLUSHING && availInExpect == 0)
    }

    ghost predicate Valid()
      reads this`mode, this`emptying, this`availInExpect, this`outPos, this`blockNo, this`combinedCRC, this`ended,
          this`loads, this`b, this`taken, this`cuts, s, s.block, s.inUse, w
    {
      && Sums() && Modes() && (if emptying then Emptying() else Filling())
      && if ended then Ended() else Writing() && mode != IDLE
    }

    predicate IsEmptyRL()
      reads s`state_in_ch, s`state_in_len
    {
      !(s.state_in_ch < 256 && s.state_in_len > 0)
    }

    lemma EmptyRL()
      requires s.Stored(b)
      ensures IsEmptyRL() <==> s.state_in_ch == 256
      ensures s.state_in_ch == 256 ==> s.Pending() == []
    {
      hide Text, Complete, CrcOf;
    }

    /** BZ2_bzCompressInit */
    constructor (blockSize100k: int, workFactor: int)
      requires 1 <= blockSize100k <= 9
      ensures this.blockSize100k == blockSize100k
      ensures Ready() && mode == RUNNING && availIn == [] && taken == [] && outPos == 0 && w.zbits == [] && cuts == {}
      ensures fresh(s) && fresh(s.block) && fresh(s.inUse) && fresh(w)
    {
      hide *;
      this.blockSize100k, this.workFactor := blockSize100k, workFactor;
      s := new EState(blockSize100k);
      w := new BitWriter();
      mode, emptying, availIn, availInExpect, outPos, blockNo, combinedCRC := RUNNING, false, [], 0, 0, 1, 0;
      ended, loads, b, taken, cuts := false, [], [], [], {};
      new;
      NoLoads(100_000 * blockSize100k);
      NothingRead();
      NoZbits(w);
      Started();
    }

    lemma Started()
      requires 1 <= blockSize100k <= 9 && s.nblockMAX == 100_000 * blockSize100k - 19 && s.Holds([])
          && s.Pending() == [] && s.nblock == 0 && w.Valid() && w.Written() == [] && w.zbits == []
      requires Loaded([], 100_000 * blockSize100k) && TextOf([]) == [] && CombinedCrc(BlocksOf([])) == 0
          && Text([]) == []
      requires mode == RUNNING && !emptying && !ended && outPos == 0 && blockNo == 1 && combinedCRC == 0 && loads == []
          && b == [] && taken == [] && cuts == {}
      ensures Ready()
    {
      hide Loaded, TextOf, CombinedCrc, BlocksOf, Text, BytesBits, Complete, CrcOf, BitWriter.Valid;
    }

    /** The caller brings more input. */
    method Feed(more: seq<Byte>)
      requires Ready()
      modifies this`availIn
      ensures Ready() && availIn == old(availIn) + more
    {
      hide *;
      availIn := availIn + more;
    }

    // ---- input ----

    /** The next byte of the input goes to the block. */
    method TakeByte()
      requires Filled() && s.Holds(b) && s.nblock < s.nblockMAX && availIn != []
      modifies this`availIn, this`b, this`taken, s, s.block, s.inUse
      ensures Filled() && s.Holds(b) && s.nblock <= s.nblockMAX + 4 && s.state_in_ch < 256
      ensures taken + availIn == old(taken + availIn) && old(taken) <= taken && |availIn| == |old(availIn)| - 1
    {
      hide Text, Complete, CrcOf, TextOf, EState.Holds, EState.Stored;
      StoredOf();
      ghost var before, held, x := Text(b), s.Pending(), availIn[0];
      b := s.AddCharToBlock(availIn[0], b);
      StoredOf();
      OneMore(TextOf(loads), before, held, Text(b), s.Pending(), taken, x);
      assert taken + [x] + availIn[1..] == taken + availIn;
      taken, availIn := taken + [x], availIn[1..];
    }

    /** copy_input_until_stop */
    method CopyInput() returns (progress: bool)
      requires Filled() && s.Holds(b) && s.nblock < s.nblockMAX && (mode != RUNNING ==> availInExpect == |availIn|)
      modifies this`availIn, this`availInExpect, this`b, this`taken, s, s.block, s.inUse
      ensures Filled() && s.Holds(b) && s.nblock <= s.nblockMAX + 4
      ensures mode != RUNNING ==> availInExpect == |availIn|
      ensures taken + availIn == old(taken + availIn) && old(taken) <= taken && |availIn| <= |old(availIn)|
      ensures progress <==> |availIn| < |old(availIn)|
      ensures s.nblock >= s.nblockMAX || availIn == []
      ensures s.nblock >= s.nblockMAX ==> progress && s.state_in_ch < 256
    {
      hide *;
      progress := false;
      ghost var all := taken + availIn;
      while s.nblock < s.nblockMAX && availIn != [] && (mode == RUNNING || availInExpect != 0)
        invariant Filled() && s.Holds(b) && s.nblock <= s.nblockMAX + 4
        invariant mode != RUNNING ==> availInExpect == |availIn|
        invariant taken + availIn == all && old(taken) <= taken && |availIn| <= |old(availIn)|
        invariant progress <==> |availIn| < |old(availIn)|
        invariant s.nblock >= s.nblockMAX ==> progress && s.state_in_ch < 256
        decreases |availIn|
      {
        ghost var t1 := taken;
        TakeByte();
        LongerYet(old(taken), t1, taken);
        if mode != RUNNING { availInExpect := availInExpect - 1; }
        progress := true;
      }
    }

    lemma StoredOf()
      ensures s.Holds(b) ==> s.Stored(b) && s.RunOk()
    {
      hide Text, Complete, CrcOf;
    }

    // ---- ending a block ----

    /** flush_RL */
    method FlushRun()
      requires Fixed() && Filled() && s.Holds(b) && s.nblock <= s.nblockMAX + 4
      modifies this`b, s, s.block, s.inUse
      ensures Filled() && s.nblock <= s.nblockMAX + 9 && s.state_in_ch == 256
    {
      hide Text, Complete, CrcOf, TextOf, EState.Holds;
      ghost var before, held := Text(b), s.Pending();
      b := s.FlushRL(b);
      assert TextOf(loads) + Text(b) + s.Pending() == TextOf(loads) + before + held;
    }

    lemma SumsParts()
      requires Sums()
      ensures 1 <= blockSize100k <= 9 && s.nblockMAX == 100_000 * blockSize100k - 19
      ensures Loaded(loads, 100_000 * blockSize100k) && combinedCRC == CombinedCrc(BlocksOf(loads))
          && CutAt(loads, s.nblockMAX, cuts)
    {
      hide Loaded, CombinedCrc, BlocksOf, CutAt;
    }

    lemma SumsAre()
      requires 1 <= blockSize100k <= 9 && s.nblockMAX == 100_000 * blockSize100k - 19
      requires Loaded(loads, 100_000 * blockSize100k) && combinedCRC == CombinedCrc(BlocksOf(loads))
          && CutAt(loads, s.nblockMAX, cuts)
      ensures Sums()
    {
      hide Loaded, CombinedCrc, BlocksOf, CutAt;
    }

    /** The block itself, if there is anything in it. */
    method SendBlock()
      requires Sums() && s.Stored(b) && s.nblock <= s.nblockMAX + 9 && w.Valid()
      requires w.Written() == BytesBits(Header(blockSize100k)) + BlocksBits(loads, 0)
      requires s.nblock >= s.nblockMAX || |TextOf(loads) + Text(b)| in cuts
      modifies this`loads, this`combinedCRC, w, s.block
      ensures Sums() && s.Stored(b) && w.Valid() && |old(w.zbits)| <= |w.zbits|
      ensures w.Written() == BytesBits(Header(blockSize100k)) + BlocksBits(loads, 0) && old(w.Written()) <= w.Written()
      ensures TextOf(loads) == TextOf(old(loads)) + Text(b)
    {
      hide *;
      SumsParts();
      ghost var max, head := 100_000 * blockSize100k, BytesBits(Header(blockSize100k));
      StoredParts(s, b, blockSize100k);
      if s.nblock > 0 {
        ghost var w0 := w.Written();
        var crc := !s.blockCRC;
        ghost var l := SendOne(w, s, crc, workFactor, b, blockSize100k);
        combinedCRC := Combine(combinedCRC, crc);
        BlocksBitsSnoc(loads, l, 0);
        LoadsSnoc(loads, l, max);
        CutAtSnoc(loads, l, s.nblockMAX, cuts);
        BitsJoined(head, BlocksBits(loads, 0), LoadBits(l), w0, w.Written());
        loads := loads + [l];
        SumsAre();
      } else {
        NoText(b);
        assert TextOf(loads) + [] == TextOf(loads);
      }
    }

    lemma WritingParts()
      requires Writing()
      ensures 1 <= blockSize100k <= 9 && w.Valid() && blockNo >= 1
      ensures blockNo == 1 && !emptying ==> loads == [] && w.Written() == []
      ensures !(blockNo == 1 && !emptying) ==>
        w.Written() == BytesBits(Header(blockSize100k)) + BlocksBits(loads, 0)
    {
      hide BytesBits, Header, BlocksBits, BitWriter.Valid;
    }

    lemma WritingIs()
      requires Fixed() && w.Valid() && blockNo >= 1 && (blockNo > 1 || emptying)
      requires w.Written() == BytesBits(Header(blockSize100k)) + BlocksBits(loads, 0)
      ensures Writing()
    {
      hide BytesBits, Header, BlocksBits, BitWriter.Valid;
    }

    lemma FilledParts()
      requires Filled()
      ensures s.Stored(b) && s.RunOk() && TextOf(loads) + Text(b) + s.Pending() == taken
      ensures s.state_in_ch == 256 ==> s.Pending() == []
      ensures 0 <= s.state_in_len && (s.state_in_ch < 256 ==> 0 <= s.state_in_ch)
    {
      hide TextOf, Text, Complete, CrcOf;
    }

    lemma EmptyingIs()
      requires s.Stored(b) && s.RunOk() && TextOf(loads) + s.Pending() == taken && 0 <= outPos <= |w.zbits|
      ensures Emptying()
    {
      hide TextOf, Text, Complete, CrcOf;
    }

    /** The header before the first block. */
    method SendHeader()
      requires Writing() && !emptying
      modifies w
      ensures w.Valid() && w.Written() == BytesBits(Header(blockSize100k)) + BlocksBits(loads, 0)
      ensures old(w.Written()) <= w.Written() && |old(w.zbits)| <= |w.zbits|
    {
      hide *;
      WritingParts();
      if blockNo == 1 {
        HeaderIsFour(blockSize100k);
        NoLoads(100_000 * blockSize100k);
        BlockSender.PutBytes(w, [0x42, 0x5a, 0x68, 0x30 + blockSize100k]);
        ghost var head := BytesBits(Header(blockSize100k));
        assert [] + head == head == head + [];
      }
    }

    /** The trailer after the last block. */
    method SendTrailer()
      requires Sums() && w.Valid() && w.Written() == BytesBits(Header(blockSize100k)) + BlocksBits(loads, 0)
      modifies w
      ensures Encodes(w.zbits, blockSize100k, TextOf(loads), cuts) && |old(w.zbits)| <= |w.zbits|
      ensures |BytesBits(w.zbits)| >= |old(w.Written())| + 80 && old(w.Written()) <= BytesBits(w.zbits)
    {
      hide *;
      SumsParts();
      ghost var w0 := w.Written();
      BlockSender.PutBytes(w, END_MAGIC);
      BlockSender.PutBytes(w, WordBytes(combinedCRC));
      ghost var written := w.Written();
      TrailerLength(w0, written, combinedCRC);
      w.Finish();
      StreamMade(w.zbits, blockSize100k, loads, written, TextOf(loads), cuts);
      LongerBy(w0, written, Padding(|written| % 8), BytesBits(w.zbits));
    }

    /** BZ2_compressBlock, and the state becomes BZ_S_OUTPUT. */
    method EndBlock(last: bool)
      requires Sums() && Writing() && !emptying && Filled() && s.nblock <= s.nblockMAX + 9 && outPos == |w.zbits|
      requires !ended && (last ==> s.state_in_ch == 256)
      requires s.nblock >= s.nblockMAX || (s.state_in_ch == 256 && |taken| in cuts)
      modifies this`loads, this`combinedCRC, this`emptying, this`ended, w, s.block
      ensures Sums() && emptying && Emptying() && old(w.zbits) <= w.zbits && ended == last
      ensures last ==> Encodes(w.zbits, blockSize100k, taken, cuts) && |old(w.zbits)| < |w.zbits|
      ensures !last ==> Writing()
    {
      hide *;
      FilledParts();
      WritingParts();
      SumsParts();
      ghost var z0, w0, p0 := w.zbits, w.Written(), w.pending;
      WrittenIs(w);
      SendHeader();
      ghost var w1 := w.Written();
      assert TextOf(loads) + Text(b) + [] == TextOf(loads) + Text(b);
      SendBlock();
      PrefixTwice(w0, w1, w.Written());
      emptying, ended := true, last;
      assert TextOf(loads) + s.Pending() == taken;
      if last {
        ghost var w2 := w.Written();
        SendTrailer();
        PrefixTwice(w0, w2, BytesBits(w.zbits));
        LengthOfBits(z0);
        LengthOfBits(w.zbits);
        assert BytesBits(w.zbits) + [] == BytesBits(w.zbits);
        BytesPrefix(z0, p0, w.zbits, []);
        assert TextOf(loads) + [] == TextOf(loads);
      } else {
        WrittenIs(w);
        BytesPrefix(z0, p0, w.zbits, w.pending);
        FixedIs();
        WritingIs();
      }
      EmptyingIs();
    }

    // ---- output ----

    /** copy_output_until_stop */
    method CopyOutput(room: nat) returns (output: seq<Byte>)
      requires 0 <= outPos <= |w.zbits|
      modifies this`outPos
      ensures old(outPos) <= outPos <= |w.zbits| && output == w.zbits[old(outPos)..outPos] && |output| <= room
      ensures |output| == room || outPos == |w.zbits|
    {
      hide *;
      output := [];
      while |output| < room && outPos < |w.zbits|
        invariant old(outPos) <= outPos <= |w.zbits| && output == w.zbits[old(outPos)..outPos] && |output| <= room
        decreases |w.zbits| - outPos
      {
        output := output + [w.zbits[outPos]];
        outPos := outPos + 1;
      }
    }

    /** prepare_new_block, and the state becomes BZ_S_INPUT. */
    method NewBlock()
      requires Valid() && emptying && !ended && outPos == |w.zbits|
      modifies this`emptying, this`b, this`blockNo, s`nblock, s`blockCRC, s.inUse
      ensures Valid() && !emptying
    {
      hide Text, TextOf, Complete, CrcOf, BytesBits, BlocksBits, Header, Loaded, CombinedCrc, BlocksOf, BitWriter.Valid,
          BitWriter.Written, Encodes, EState.Holds, EState.Stored, EState.Pending;
      s.PrepareNewBlock(b);
      b := [];
      emptying, blockNo := false, blockNo + 1;
      StoredOf();
      NoText(b);
      assert TextOf(loads) + [] == TextOf(loads);
    }

    // ---- calls ----

    /** How a call that is not stalled ends. */
    ghost predicate Settled()
      reads this`mode, this`emptying, this`availIn, this`ended, this`outPos, this`loads, this`taken, s`state_in_ch,
          w`zbits
    {
      availIn == [] && match mode
        case RUNNING => !emptying
        case FLUSHING => !emptying && s.state_in_ch == 256 && outPos == |w.zbits| && TextOf(loads) == taken
        case FINISHING => ended && outPos == |w.zbits|
        case IDLE => false
    }

    /** Zero once a flush has ended the block. */
    ghost function Rank(): int
      reads this`emptying, s`state_in_ch
    {
      if emptying && s.state_in_ch == 256 then 0 else 1
    }

    lemma ValidParts()
      requires Valid()
      ensures Sums() && Modes() && Fixed() && 0 <= outPos <= |w.zbits|
      ensures if emptying then Emptying() else Filling()
      ensures if ended then Ended() else Writing() && mode != IDLE
      ensures emptying && s.state_in_ch == 256 ==> ended || (mode == FLUSHING && availInExpect == 0)
      ensures ended ==>
        emptying && s.state_in_ch == 256 && (mode == FINISHING || mode == IDLE)
        && (mode == FINISHING ==> availInExpect == 0)
      ensures IsEmptyRL() <==> s.state_in_ch == 256
    {
      hide Loaded, CombinedCrc, BlocksOf, EState.Holds, TextOf, Text, Encodes, BitWriter.Valid, BytesBits, Header,
          BlocksBits;
      EmptyRL();
    }

    lemma ValidIs()
      requires Sums() && Modes() && (if emptying then Emptying() else Filling())
      requires if ended then Ended() else Writing() && mode != IDLE
      ensures Valid()
    {
      hide Sums, Modes, Emptying, Filling, Ended, Writing;
    }

    lemma EmptyingParts()
      requires Emptying()
      ensures s.Stored(b) && s.RunOk() && TextOf(loads) + s.Pending() == taken
      ensures s.state_in_ch == 256 ==> TextOf(loads) == taken
    {
      hide TextOf, Text, CrcOf;
      assert TextOf(loads) + [] == TextOf(loads);
    }

    /** The part of a round in the state BZ_S_OUTPUT. */
    method OutputPart(room: nat) returns (stop: bool, output: seq<Byte>)
      requires Valid() && emptying && mode != IDLE && (mode != RUNNING ==> availInExpect == |availIn|)
      modifies this`outPos, this`emptying, this`b, this`blockNo, s`nblock, s`blockCRC, s.inUse
      ensures Valid() && 0 <= old(outPos) <= outPos <= |w.zbits| && output == w.zbits[old(outPos)..outPos]
          && |output| <= room
      ensures stop ==>
        Settled() || (emptying && outPos < |w.zbits| && |output| == room && Rank() == old(Rank()))
      ensures !stop ==> !emptying && !ended && old(Rank()) == 1
    {
      hide *;
      ValidParts();
      EmptyingParts();
      RankIs();
      output := CopyOutput(room);
      EmptyingIs();
      ValidIs();
      stop := true;
      if outPos < |w.zbits| {
        RankIs();
        return;
      }
      if mode == FINISHING && availInExpect == 0 && IsEmptyRL() {
        SettledIs();
        return;
      }
      NewBlock();
      if mode == FLUSHING && availInExpect == 0 && IsEmptyRL() {
        ValidParts();
        FillingParts();
        SettledIs();
        return;
      }
      stop := false;
    }

    lemma FillingParts()
      requires Filling()
      ensures Filled() && s.Holds(b) && s.nblock < s.nblockMAX && outPos == |w.zbits|
    {
      hide Filled, EState.Holds;
    }

    lemma FillingIs()
      requires Filled() && s.Holds(b) && s.nblock < s.nblockMAX && outPos == |w.zbits|
      ensures Filling()
    {
      hide Filled, EState.Holds;
    }

    lemma ModesAre()
      requires emptying && s.state_in_ch == 256 ==> ended || (mode == FLUSHING && availInExpect == 0)
      ensures Modes()
    {
    }

    lemma EndedIs()
      requires emptying && s.state_in_ch == 256 && Encodes(w.zbits, blockSize100k, taken, cuts)
          && (mode == IDLE || (mode == FINISHING && availInExpect == 0))
      ensures Ended()
    {
      hide Encodes;
    }

    lemma RankIs()
      ensures Rank() == if emptying && s.state_in_ch == 256 then 0 else 1
    {
    }

    lemma SettledIs()
      requires availIn == [] && mode != IDLE
      requires mode == RUNNING ==> !emptying
      requires mode == FLUSHING ==>
        !emptying && s.state_in_ch == 256 && outPos == |w.zbits| && TextOf(loads) == taken
      requires mode == FINISHING ==> ended && outPos == |w.zbits|
      ensures Settled()
    {
      hide TextOf;
    }

    /** The block being filled is ended behind all input. */
    ghost method EndHere()
      requires Sums() && mode != RUNNING && availIn == []
      modifies this`cuts
      ensures Sums() && |taken| in cuts && CutsOn(old(cuts), cuts, false, |taken + availIn|)
    {
      hide *;
      SumsParts();
      assert taken + [] == taken;
      CutAtMore(loads, s.nblockMAX, cuts, cuts + {|taken|});
      CutHere(cuts, |taken|);
      cuts := cuts + {|taken|};
      SumsAre();
    }

    /** The part of a round in the state BZ_S_INPUT. */
    method InputPart() returns (stop: bool, moved: bool)
      requires Valid() && !emptying && (mode != RUNNING ==> availInExpect == |availIn|)
      modifies this`availIn, this`availInExpect, this`b, this`taken, this`loads, this`combinedCRC, this`emptying,
          this`ended, this`cuts, s, s.block, s.inUse, w
      ensures Valid() && (mode != RUNNING ==> availInExpect == |availIn|)
      ensures taken + availIn == old(taken + availIn) && old(taken) <= taken && old(w.zbits) <= w.zbits
      ensures |availIn| <= |old(availIn)| && (moved <==> |availIn| < |old(availIn)|)
      ensures CutsOn(old(cuts), cuts, mode == RUNNING, |taken + availIn|)
      ensures stop ==> Settled() && mode == RUNNING && !ended
      ensures !stop ==> emptying && (Rank() == 0 || moved) && (ended ==> |old(w.zbits)| < |w.zbits|)
    {
      hide *;
      ValidParts();
      FillingParts();
      moved := CopyInput();
      stop := false;
      NoCut(cuts, mode == RUNNING, |taken + availIn|);
      if mode != RUNNING && availInExpect == 0 {
        FlushRun();
        EndHere();
        EndBlock(mode == FINISHING);
        if mode == FINISHING { EndedIs(); }
      } else if s.nblock >= s.nblockMAX {
        EndBlock(false);
      } else {
        stop := true;
        FillingIs();
        SettledIs();
      }
      RankIs();
      ModesAre();
      ValidIs();
    }

    /** A call that does not settle is stalled for want of room. */
    ghost predicate Stalled()
      reads this`emptying, this`outPos, w`zbits
    {
      emptying && outPos < |w.zbits|
    }

    lemma StalledIs()
      requires emptying && outPos < |w.zbits|
      ensures Stalled()
    {
    }

    /** How far the compressor is. */
    ghost function At(): Point
      reads this`emptying, this`availIn, this`outPos, this`ended, this`taken, s`state_in_ch, w`zbits
    {
      Point(|availIn|, Rank(), w.zbits, outPos, taken, taken + availIn, ended)
    }

    /** One round of handle_compress. */
    method Round(room: nat) returns (stop: bool, output: seq<Byte>, moved: bool)
      requires Valid() && mode != IDLE && (mode != RUNNING ==> availInExpect == |availIn|)
      modifies this, s, s.block, s.inUse, w
      ensures Valid() && mode == old(mode) && (mode != RUNNING ==> availInExpect == |availIn|)
      ensures Onward(old(At()), At(), output) && |output| <= room && (moved <==> |availIn| < |old(availIn)|)
      ensures CutsOn(old(cuts), cuts, mode == RUNNING, |taken + availIn|)
      ensures stop ==> Settled() || (Stalled() && |output| == room && Shorter(old(At()), At()))
      ensures !stop ==> Shorter(old(At()), At()) && 0 <= Rank() && (|availIn| < |old(availIn)| || Rank() < old(Rank()))
    {
      hide *;
      ghost var a := At();
      PointIs();
      ValidParts();
      RankIs();
      output, moved := [], false;
      NoCut(cuts, mode == RUNNING, |taken + availIn|);
      if emptying {
        stop, output := OutputPart(room);
        PointIs();
        RankIs();
        OutputOnward(a, At(), output);
        if stop {
          if !Settled() { StalledIs(); }
          return;
        }
      }
      ghost var c := At();
      PointIs();
      ValidParts();
      FillingParts();
      stop, moved := InputPart();
      PointIs();
      RankIs();
      ValidParts();
      OutputOnward(a, c, output);
      InputOnward(c, At());
      if !stop { IsShorter(a, At()); }
      OnwardTwice(a, c, At(), output, []);
      assert output + [] == output;
    }

    lemma PointIs()
      ensures At() == Point(|availIn|, Rank(), w.zbits, outPos, taken, taken + availIn, ended)
    {
      hide Rank;
    }

    /** handle_compress */
    method HandleCompress(availOut: nat) returns (progress: bool, output: seq<Byte>)
      requires Valid() && mode != IDLE && (mode != RUNNING ==> availInExpect == |availIn|)
      modifies this, s, s.block, s.inUse, w
      ensures Valid() && mode == old(mode) && (mode != RUNNING ==> availInExpect == |availIn|)
      ensures Onward(old(At()), At(), output) && |output| <= availOut
      ensures progress <==> output != [] || |availIn| < |old(availIn)|
      ensures CutsOn(old(cuts), cuts, mode == RUNNING, |old(taken + availIn)|)
      ensures Settled() || (Stalled() && |output| == availOut && Shorter(old(At()), At()))
    {
      hide *;
      ghost var a := At();
      progress, output := false, [];
      PointIs();
      ValidParts();
      NotMoved(a);
      NoCut(cuts, mode == RUNNING, |taken + availIn|);
      while true
        invariant Valid() && mode == old(mode) && (mode != RUNNING ==> availInExpect == |availIn|)
        invariant Onward(a, At(), output) && Shorter(a, At()) && |output| <= availOut && |availIn| <= a.left
        invariant progress <==> output != [] || |availIn| < a.left
        invariant CutsOn(old(cuts), cuts, mode == RUNNING, |a.all|)
        decreases |availIn|, Rank()
      {
        ghost var c, c0 := At(), cuts;
        PointIs();
        var stop, more, moved := Round(availOut - |output|);
        PointIs();
        AllSame(a, c, At(), output, more);
        CutsTwice(old(cuts), c0, cuts, mode == RUNNING, |a.all|);
        LeftLess(c, At(), more);
        OnwardTwice(a, c, At(), output, more);
        output := output + more;
        progress := progress || more != [] || moved;
        if stop {
          if !Settled() { ShorterTwice(a, c, At()); }
          break;
        }
        ShorterTwice(a, c, At());
      }
    }

    /** Between calls: the end is reported as soon as all is handed out. */
    ghost predicate Ready()
      reads this`mode, this`emptying, this`availInExpect, this`outPos, this`blockNo, this`combinedCRC, this`ended,
          this`loads, this`b, this`taken, this`cuts, s, s.block, s.inUse, w
    {
      Valid() && (mode == FINISHING && ended ==> outPos < |w.zbits|)
    }

    /** The source demands that a flush or finish, once begun, is called again with the same input. */
    predicate Refused(action: Action)
      reads this`mode, this`availIn, this`availInExpect
    {
      match mode
      case IDLE => true
      case RUNNING => false
      case FLUSHING => action != Flush || availInExpect != |availIn|
      case FINISHING => action != Finish || availInExpect != |availIn|
    }

    /** A flush is complete: all input is in blocks that were handed out whole. */
    ghost predicate Flushed()
      reads this`mode, this`emptying, this`availIn, this`outPos, this`loads, this`taken, w`zbits
    {
      mode == RUNNING && !emptying && availIn == [] && outPos == |w.zbits| && TextOf(loads) == taken
    }

    lemma ReadyParts()
      requires Ready()
      ensures Valid() && 0 <= outPos <= |w.zbits| && (mode == FINISHING && ended ==> outPos < |w.zbits|)
    {
      hide Sums, Modes, Filled, EState.Holds, EState.Stored, TextOf, Ended, Writing;
    }

    lemma ReadyIs()
      requires Valid() && (mode == FINISHING && ended ==> outPos < |w.zbits|)
      ensures Ready()
    {
      hide Valid;
    }

    lemma RefusedIs(action: Action)
      ensures mode == IDLE ==> Refused(action)
      ensures mode == RUNNING ==> !Refused(action)
      ensures mode == FLUSHING ==> (Refused(action) <==> action != Flush || availInExpect != |availIn|)
      ensures mode == FINISHING ==> (Refused(action) <==> action != Finish || availInExpect != |availIn|)
    {
    }

    lemma SettledParts()
      ensures Stalled() ==> emptying && outPos < |w.zbits|
      ensures Settled() ==> availIn == [] && (mode == RUNNING ==> !emptying)
      ensures Settled() && mode == FLUSHING ==>
        !emptying && s.state_in_ch == 256 && outPos == |w.zbits| && TextOf(loads) == taken
      ensures Settled() && mode == FINISHING ==> ended && outPos == |w.zbits|
    {
      hide TextOf;
    }

    /** A flush or the end begins. */
    method Begin(action: Action)
      requires Valid() && mode == RUNNING && action != Run
      modifies this`mode, this`availInExpect
      ensures Valid() && mode == (if action == Flush then FLUSHING else FINISHING) && availInExpect == |availIn|
    {
      hide *;
      ValidParts();
      availInExpect := |availIn|;
      mode := if action == Flush then FLUSHING else FINISHING;
      ModesAre();
      ValidIs();
    }

    method EndFlush()
      requires Valid() && mode == FLUSHING && !emptying && availIn == [] && outPos == |w.zbits|
          && TextOf(loads) == taken
      modifies this`mode
      ensures Ready() && Flushed() && mode == RUNNING
    {
      hide *;
      ValidParts();
      mode := RUNNING;
      ModesAre();
      ValidIs();
      ReadyIs();
      FlushedIs();
    }

    lemma FlushedIs()
      requires mode == RUNNING && !emptying && availIn == [] && outPos == |w.zbits| && TextOf(loads) == taken
      ensures Flushed()
    {
      hide TextOf;
    }

    lemma FlushedParts()
      ensures Flushed() ==> mode == RUNNING && availIn == []
    {
      hide TextOf;
    }

    method EndStream()
      requires Valid() && mode == FINISHING && ended
      modifies this`mode
      ensures Ready() && mode == IDLE
    {
      hide *;
      ValidParts();
      EndedParts();
      mode := IDLE;
      ModesAre();
      EndedIs();
      ValidIs();
      ReadyIs();
    }

    lemma EndedParts()
      requires Ended()
      ensures emptying && s.state_in_ch == 256 && Encodes(w.zbits, blockSize100k, taken, cuts)
    {
      hide Encodes;
    }

    /** The call when running. */
    method RunCall(availOut: nat) returns (ret: Code, output: seq<Byte>)
      requires Ready() && mode == RUNNING
      modifies this, s, s.block, s.inUse, w
      ensures Ready() && Onward(old(At()), At(), output) && |output| <= availOut && mode == RUNNING
      ensures CutsOn(old(cuts), cuts, true, |old(taken + availIn)|)
      ensures ret == RunOk || (ret == ParamError && output == [] && availIn == old(availIn))
      ensures (availIn == [] && !emptying) || (Stalled() && |output| == availOut && Shorter(old(At()), At()))
    {
      hide *;
      ghost var a := At();
      PointIs();
      ReadyParts();
      var progress;
      progress, output := HandleCompress(availOut);
      PointIs();
      SettledParts();
      ReadyIs();
      LeftLess(a, At(), output);
      if !progress { SameLeft(a, At(), output, old(availIn), availIn); }
      ret := if progress then RunOk else ParamError;
    }

    /** The call that begins or continues a flush. */
    method FlushCall(availOut: nat) returns (ret: Code, output: seq<Byte>)
      requires Ready() && mode == FLUSHING && availInExpect == |availIn|
      modifies this, s, s.block, s.inUse, w
      ensures Ready() && Onward(old(At()), At(), output) && |output| <= availOut
      ensures CutsOn(old(cuts), cuts, false, |old(taken + availIn)|)
      ensures ret == FlushOk || ret == RunOk
      ensures ret == FlushOk ==> Stalled() && |output| == availOut && Shorter(old(At()), At())
      ensures ret == FlushOk ==> mode == FLUSHING && availInExpect == |availIn|
      ensures ret == RunOk ==> Flushed()
    {
      hide *;
      ReadyParts();
      var progress;
      progress, output := HandleCompress(availOut);
      PointIs();
      SettledParts();
      ValidParts();
      ReadyIs();
      if availInExpect > 0 || !IsEmptyRL() || outPos < |w.zbits| { return FlushOk, output; }
      EndFlush();
      PointIs();
      ret := RunOk;
    }

    /** The call that begins or continues the end. */
    method FinishCall(availOut: nat) returns (ret: Code, output: seq<Byte>)
      requires Ready() && mode == FINISHING && availInExpect == |availIn|
      modifies this, s, s.block, s.inUse, w
      ensures Ready() && Onward(old(At()), At(), output) && |output| <= availOut
      ensures CutsOn(old(cuts), cuts, false, |old(taken + availIn)|)
      ensures ret == FinishOk || ret == StreamEnd || (ret == SequenceError && availOut == 0)
      ensures ret == FinishOk ==> Stalled() && |output| == availOut && Shorter(old(At()), At())
      ensures ret == FinishOk ==> mode == FINISHING && availInExpect == |availIn|
      ensures ret == StreamEnd ==> mode == IDLE && ended && outPos == |w.zbits| && availIn == []
    {
      hide *;
      ghost var a := At();
      PointIs();
      ReadyParts();
      var progress;
      progress, output := HandleCompress(availOut);
      PointIs();
      SettledParts();
      ValidParts();
      Progress(a, At(), output);
      if Stalled() { ReadyIs(); }
      if !progress { return SequenceError, output; }
      if availInExpect > 0 || !IsEmptyRL() || outPos < |w.zbits| { return FinishOk, output; }
      EndStream();
      PointIs();
      ret := StreamEnd;
    }

    /** BZ2_bzCompress: one call. */
    method BzCompress(action: Action, availOut: nat) returns (ret: Code, output: seq<Byte>)
      requires Ready()
      modifies this, s, s.block, s.inUse, w
      ensures Ready() && Onward(old(At()), At(), output) && |output| <= availOut
      ensures CutsOn(old(cuts), cuts, action == Run, |old(taken + availIn)|)
      ensures old(Refused(action)) ==> ret == SequenceError && At() == old(At()) && mode == old(mode)
      ensures ret == StreamEnd ==> mode == IDLE && ended && outPos == |w.zbits| && availIn == []
      ensures ret == FlushOk || ret == FinishOk ==> Stalled() && |output| == availOut && Shorter(old(At()), At())
      ensures ret == FlushOk ==> mode == FLUSHING && availInExpect == |availIn|
      ensures ret == FinishOk ==> mode == FINISHING && availInExpect == |availIn|
      ensures !old(Refused(action)) && action == Run ==>
        && mode == RUNNING && (ret == RunOk || (ret == ParamError && output == [] && availIn == old(availIn)))
        && ((availIn == [] && !emptying) || (Stalled() && |output| == availOut && Shorter(old(At()), At())))
      ensures !old(Refused(action)) && action == Flush ==> ret == FlushOk || (ret == RunOk && Flushed())
      ensures !old(Refused(action)) && action == Finish ==>
        ret == FinishOk || ret == StreamEnd || (ret == SequenceError && availOut == 0)
    {
      hide *;
      ReadyParts();
      ValidParts();
      RefusedIs(action);
      PointIs();
      NotMoved(At());
      NoCut(cuts, action == Run, |taken + availIn|);
      if mode == IDLE { return SequenceError, []; }
      if mode == RUNNING {
        if action == Run {
          ret, output := RunCall(availOut);
          return;
        }
        Begin(action);
        PointIs();
        ReadyIs();
      }
      if mode == FLUSHING {
        if action != Flush || availInExpect != |availIn| { return SequenceError, []; }
        ret, output := FlushCall(availOut);
      } else {
        if action != Finish || availInExpect != |availIn| { return SequenceError, []; }
        ret, output := FinishCall(availOut);
      }
    }

    lemma FixedIs()
      requires Sums()
      ensures Fixed()
    {
      hide Loaded, CombinedCrc, BlocksOf;
    }
  }

  lemma WrittenIs(w: BitWriter)
    ensures w.Written() == BytesBits(w.zbits) + w.pending
  {
    hide BytesBits;
  }

  lemma PrefixTwice(a: seq<bool>, b: seq<bool>, c: seq<bool>)
    requires a <= b <= c
    ensures a <= c && |a| <= |b| <= |c|
  {
  }

  lemma LongerBy(a: seq<bool>, b: seq<bool>, pad: seq<bool>, c: seq<bool>)
    requires a <= b && c == b + pad && |b| == |a| + 80
    ensures a <= c && |c| >= |a| + 80
  {
  }

  lemma TrailerLength(w0: seq<bool>, w1: seq<bool>, crc: bv32)
    requires w1 == w0 + BytesBits(END_MAGIC) + BytesBits(WordBytes(crc))
    ensures w0 <= w1 && |w1| == |w0| + 80
  {
    hide BytesBits, LowByte;
    Magics();
    LengthOfBits(END_MAGIC);
    LengthOfBits(WordBytes(crc));
  }

  lemma {:induction false} LastByteBits(a: seq<Byte>)
    requires a != []
    ensures var m := |a| - 1; a == a[..m] + [a[m]] && BytesBits(a) == BytesBits(a[..m]) + ToBits(a[m], 8)
  {
    hide ToBits;
  }

  lemma SameEnds(x: seq<bool>, p: seq<bool>, y: seq<bool>, q: seq<bool>)
    requires x + p == y + q && |x| == |y|
    ensures x == y && p == q
  {
    assert x == (x + p)[..|x|] && y == (y + q)[..|y|] && p == (x + p)[|x|..] && q == (y + q)[|y|..];
  }

  lemma SameByte(x: Byte, y: Byte)
    requires ToBits(x, 8) == ToBits(y, 8)
    ensures x == y
  {
    hide ToBits, Val, Pow2;
    Pow2Values();
    ValOfBits(x, 8);
    ValOfBits(y, 8);
  }

  lemma {:induction false} SameBytes(a: seq<Byte>, b: seq<Byte>)
    requires |a| == |b| && BytesBits(a) == BytesBits(b)
    ensures a == b
  {
    hide *;
    if a != [] {
      var m := |a| - 1;
      LastByteBits(a);
      LastByteBits(b);
      LengthOfBits(a[..m]);
      LengthOfBits(b[..m]);
      SameEnds(BytesBits(a[..m]), ToBits(a[m], 8), BytesBits(b[..m]), ToBits(b[m], 8));
      SameBytes(a[..m], b[..m]);
      SameByte(a[m], b[m]);
    }
  }

  /** Bytes whose bits begin like those of others begin like them. */
  lemma {:induction false} BytesPrefix(z0: seq<Byte>, p0: seq<bool>, z1: seq<Byte>, p1: seq<bool>)
    requires BytesBits(z0) + p0 <= BytesBits(z1) + p1 && |z0| <= |z1|
    ensures z0 <= z1
  {
    hide BytesBits;
    var c := z1[..|z0|];
    assert z1 == c + z1[|z0|..];
    BytesBitsConcat(c, z1[|z0|..]);
    LengthOfBits(z0);
    LengthOfBits(c);
    var n := 8 * |z0|;
    assert (BytesBits(z1) + p1)[..n] == BytesBits(c);
    assert (BytesBits(z0) + p0)[..n] == BytesBits(z0);
    SameBytes(z0, c);
  }

  /** BZ2_compressBlock for a block that is not empty, behind the header. */
  method SendOne(w: BitWriter, s: EState, crc: bv32, workFactor: int, ghost b: seq<Byte>, ghost blockSize100k: int)
    returns (ghost l: Load)
    requires s.Stored(b) && s.nblockMAX == 100_000 * blockSize100k - 19 && 0 < s.nblock <= s.nblockMAX + 9
        && 1 <= blockSize100k <= 9 && w.Valid() && crc == !CrcOf(Text(b))
    modifies w, s.block
    ensures s.Stored(b) && w.Valid() && |old(w.zbits)| <= |w.zbits|
    ensures Carries(l.block, l.bytes, l.column, 100_000 * blockSize100k) && l.bytes == b && l.block.crc == crc
        && WellMade(l)
    ensures w.Written() == old(w.Written()) + (BytesBits(BLOCK_MAGIC) + BodyBits(l.block))
  {
    hide *;
    StoredParts(s, b, blockSize100k);
    var block, n, inUse := s.block, s.nblock, s.inUse;
    ghost var sent, column := BlockSender.CompressBlock(w, block, n, inUse, crc, workFactor, 100_000 * blockSize100k);
    CarriesSame(sent, block[..n], b, column, 100_000 * blockSize100k);
    l := Load(sent, b, column);
    StoredAgain(s, b);
    MadeIs(s, b, l);
  }

  lemma MadeIs(s: EState, b: seq<Byte>, l: Load)
    requires s.Stored(b) && l.bytes == b && WellCoded(l.block) && l.block.inUse == s.inUse[..]
    ensures WellMade(l)
  {
    hide WellCoded, Tight, Complete, CrcOf, Text;
  }

  lemma CarriesSame(b: Block, bytes: seq<Byte>, bytes1: seq<Byte>, column: seq<Byte>, max: int)
    requires Carries(b, bytes, column, max) && bytes == bytes1
    ensures Carries(b, bytes1, column, max) && Sendable(b) && Complete(bytes1)
  {
    hide Sendable, StandsFor, Complete, CrcOf, Text;
  }

  /** The map marks exactly the bytes of the block. */
  ghost predicate Marks(s: EState, b: seq<Byte>)
    reads s.inUse
  {
    s.inUse.Length == 256 && forall c :: 0 <= c < 256 ==> (s.inUse[c] <==> c in b)
  }

  lemma StoredAgain(s: EState, b: seq<Byte>)
    requires s.Shape() && s.RunOk() && Marks(s, b) && |b| == s.nblock <= s.block.Length && s.block[..s.nblock] == b
        && Complete(b) && s.blockCRC == CrcOf(Text(b)) && Tight(b)
    ensures s.Stored(b)
  {
    hide Text, Complete, CrcOf, Tight;
  }

  lemma {:induction false} NoText(b: seq<Byte>)
    requires b == []
    ensures Text(b) == []
  {
  }

  lemma StoredParts(s: EState, b: seq<Byte>, blockSize100k: int)
    requires s.Stored(b) && s.nblockMAX == 100_000 * blockSize100k - 19 && s.nblock <= s.nblockMAX + 9
        && 1 <= blockSize100k <= 9
    ensures 0 <= s.nblock <= s.block.Length && s.nblock <= 900_000 && s.nblock <= 100_000 * blockSize100k
    ensures s.inUse.Length == 256 && s.block as object != s.inUse && s.block[..s.nblock] == b && |b| == s.nblock
    ensures s.Shape() && s.RunOk() && Marks(s, b) && Tight(b)
    ensures Complete(b) && s.blockCRC == CrcOf(Text(b)) && forall i :: 0 <= i < s.nblock ==> s.inUse[s.block[i]]
  {
    hide Text, Complete, CrcOf, Tight;
    forall i | 0 <= i < s.nblock ensures s.inUse[s.block[i]] { assert s.block[i] == b[i]; }
  }

  lemma BitsJoined(head: seq<bool>, before: seq<bool>, more: seq<bool>, w0: seq<bool>, w1: seq<bool>)
    requires w0 == head + before && w1 == w0 + more
    ensures w1 == head + (before + more) && w0 <= w1
  {
  }

  lemma SlicesJoined(z: seq<Byte>, i: int, j: int, k: int)
    requires 0 <= i <= j <= k <= |z|
    ensures z[i..j] + z[j..k] == z[i..k]
  {
  }

  lemma SliceOfLonger(a: seq<Byte>, b: seq<Byte>, i: int, j: int)
    requires a <= b && 0 <= i <= j <= |a|
    ensures b[i..j] == a[i..j]
  {
  }

  lemma LongerYet(a: seq<Byte>, b: seq<Byte>, c: seq<Byte>)
    requires a <= b <= c
    ensures a <= c
  {
  }

  /** How far a compressor is: what is left of the input, whether a flush is over, the bytes made
      and handed out, what was taken and what there is in all, and whether it has ended. */
  datatype Point = Point(left: nat, rank: int, zbits: seq<Byte>, outPos: int, taken: seq<Byte>, all: seq<Byte>,
    ended: bool)

  /** From a to b: input is only taken, bytes are only added, and the output is the bytes between. */
  ghost predicate Onward(a: Point, b: Point, output: seq<Byte>) {
    && a.all == b.all && a.taken <= b.taken && b.left <= a.left
    && a.zbits <= b.zbits && 0 <= a.outPos <= b.outPos <= |b.zbits| && output == b.zbits[a.outPos..b.outPos]
    && (a.ended ==> b.ended) && (b.ended && !a.ended ==> |a.zbits| < |b.zbits|)
  }

  /** Blocks are ended before they are full only by a flush or at the end, behind all input. */
  ghost predicate CutsOn(before: set<int>, after: set<int>, running: bool, n: int) {
    before <= after <= before + {n} && (running ==> after == before)
  }

  lemma NoCut(cuts: set<int>, running: bool, n: int)
    ensures CutsOn(cuts, cuts, running, n)
  {
  }

  lemma CutHere(cuts: set<int>, n: int)
    ensures CutsOn(cuts, cuts + {n}, false, n) && cuts <= cuts + {n} && n in cuts + {n}
  {
  }

  lemma CutsTwice(a: set<int>, b: set<int>, c: set<int>, running: bool, n: int)
    requires CutsOn(a, b, running, n) && CutsOn(b, c, running, n)
    ensures CutsOn(a, c, running, n)
  {
  }

  /** Less is left to do. */
  ghost predicate Shorter(a: Point, b: Point) {
    b.left < a.left || (b.left == a.left && (b.rank < a.rank || (b.rank == a.rank && b.zbits == a.zbits)))
  }

  lemma OnwardTwice(a: Point, b: Point, c: Point, output: seq<Byte>, more: seq<Byte>)
    requires Onward(a, b, output) && Onward(b, c, more)
    ensures Onward(a, c, output + more)
  {
    LongerYet(a.zbits, b.zbits, c.zbits);
    LongerYet(a.taken, b.taken, c.taken);
    SliceOfLonger(b.zbits, c.zbits, a.outPos, b.outPos);
    SlicesJoined(c.zbits, a.outPos, b.outPos, c.outPos);
  }

  lemma OutputOnward(a: Point, b: Point, output: seq<Byte>)
    requires 0 <= a.outPos <= b.outPos <= |b.zbits| && output == b.zbits[a.outPos..b.outPos]
    requires a.left == b.left && a.zbits == b.zbits && a.taken == b.taken && a.all == b.all && a.ended == b.ended
    ensures Onward(a, b, output) && (a.rank == b.rank ==> Shorter(a, b))
  {
  }

  lemma IsShorter(a: Point, b: Point)
    requires b.left < a.left || (b.left == a.left && b.rank < a.rank)
    ensures Shorter(a, b)
  {
  }

  lemma ShorterTwice(a: Point, b: Point, c: Point)
    requires Shorter(a, b) && Shorter(b, c)
    ensures Shorter(a, c)
  {
  }

  lemma AllSame(a: Point, b: Point, c: Point, output: seq<Byte>, more: seq<Byte>)
    requires Onward(a, b, output) && Onward(b, c, more)
    ensures a.all == b.all == c.all
  {
  }

  lemma LeftLess(a: Point, b: Point, output: seq<Byte>)
    requires Onward(a, b, output)
    ensures b.left <= a.left
  {
  }

  lemma SameLeft(a: Point, b: Point, output: seq<Byte>, left0: seq<Byte>, left1: seq<Byte>)
    requires Onward(a, b, output) && |left0| == |left1|
    requires a.all == a.taken + left0 && b.all == b.taken + left1
    ensures left0 == left1
  {
    assert |a.taken| == |b.taken|;
    assert left0 == a.all[|a.taken|..] && left1 == b.all[|b.taken|..];
  }

  /** What reaches the end has handed something out. */
  lemma Progress(a: Point, b: Point, output: seq<Byte>)
    requires Onward(a, b, output) && a.outPos <= |a.zbits| && (a.ended ==> a.outPos < |a.zbits|)
    ensures b.ended && b.outPos == |b.zbits| ==> output != []
  {
  }

  /** Whoever is called again has less left to do. */
  lemma LessToDo(a: Point, b: Point, output: seq<Byte>)
    requires Onward(a, b, output)
    ensures 0 <= b.outPos <= |b.zbits|
    ensures Shorter(a, b) && output != [] ==>
      b.left < a.left
      || (b.left == a.left
          && (b.rank < a.rank || (b.rank == a.rank && |b.zbits| - b.outPos < |a.zbits| - a.outPos)))
  {
  }

  lemma NotMoved(a: Point)
    requires 0 <= a.outPos <= |a.zbits|
    ensures Onward(a, a, []) && Shorter(a, a)
  {
    assert a.zbits[a.outPos..a.outPos] == [];
  }

  lemma InputOnward(a: Point, b: Point)
    requires 0 <= a.outPos == b.outPos <= |a.zbits| && a.zbits <= b.zbits && a.taken <= b.taken && a.all == b.all
    requires b.left <= a.left && !a.ended && (b.ended ==> |a.zbits| < |b.zbits|)
    ensures Onward(a, b, [])
  {
    assert b.zbits[a.outPos..b.outPos] == [];
  }

  lemma NoZbits(w: BitWriter)
    requires w.Valid() && w.Written() == []
    ensures w.zbits == []
  {
    hide BytesBits, Val;
    assert |w.Written()| == 0;
    LengthOfBits(w.zbits);
  }

  lemma {:induction false} LengthOfBits(z: seq<Byte>)
    ensures |BytesBits(z)| == 8 * |z|
  {
    hide ToBits;
    if z != [] { LengthOfBits(z[..|z| - 1]); }
  }

  lemma OneMore(done: seq<Byte>, text: seq<Byte>, held: seq<Byte>, text1: seq<Byte>, held1: seq<Byte>,
      taken: seq<Byte>, x: Byte)
    requires done + text + held == taken && text1 + held1 == text + held + [x]
    ensures done + text1 + held1 == taken + [x]
  {
    assert done + text1 + held1 == done + (text1 + held1);
    assert done + (text + held + [x]) == (done + text + held) + [x];
  }
}

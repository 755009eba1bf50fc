/** unRLE_obuf_to_output_FAST and _SMALL: runs are collected from the inverse transform
    one byte ahead, and written to output buffers of any size. */
module RunDecoder {
  import opened Bytes
  import opened InverseBwt
  import opened SmallDecoder
  import opened ZeroRuns
  import opened RunLength
  import opened Randomise

  /** The inverse transform as a supply of bytes, in either storage layout. */
  class ByteSource {
    const smallDecompress: bool
    const fast: FastUnsorter
    const small: SmallUnsorter
    const cftab: array<int>
    const blockRandomised: bool
    var rNToGo: int
    var rTPos: int
    ghost const column: seq<Byte>
    ghost const origin: int
    ghost var used: nat
    ghost var group: nat

    ghost predicate Ready()
      reads this, fast, fast.tt, small, small.ll16, small.ll4, cftab
    {
      && 0 <= origin < |column|
      && (!smallDecompress ==> fast.Ready() && fast.column == column && fast.origin == origin && fast.steps == used)
      && (smallDecompress ==> small.Ready() && small.column == column && small.origin == origin && small.steps == used
                              && Cumulative(cftab[..], column))
      && (blockRandomised ==> MaskAt(rNToGo, rTPos, group, used))
    }

    constructor (smallDecompress: bool, blockRandomised: bool, fast: FastUnsorter, small: SmallUnsorter,
        cftab: array<int>, ghost column: seq<Byte>, ghost origin: int)
      requires 0 <= origin < |column|
      requires !smallDecompress ==> fast.Ready() && fast.column == column && fast.origin == origin && fast.steps == 0
      requires smallDecompress ==> small.Ready() && small.column == column && small.origin == origin && small.steps == 0
                                   && Cumulative(cftab[..], column)
      ensures Ready() && used == 0 && this.column == column && this.origin == origin
      ensures this.smallDecompress == smallDecompress && this.fast == fast && this.small == small
      ensures this.blockRandomised == blockRandomised
    {
      hide FastUnsorter.Ready, SmallUnsorter.Ready, Cumulative;
      this.smallDecompress, this.fast, this.small, this.cftab := smallDecompress, fast, small, cftab;
      this.blockRandomised, rNToGo, rTPos, group := blockRandomised, 0, 0, 0;
      this.column, this.origin, used := column, origin, 0;
    }

    /** The block being unsorted. */
    ghost function Block(): (b: seq<Byte>)
      requires 0 <= origin < |column|
      ensures |b| == |column|
    {
      if blockRandomised then Unmasked(Unsorted(column, origin)) else Unsorted(column, origin)
    }

    /** BZ_GET_FAST or BZ_GET_SMALL, and in a randomised block BZ_RAND_UPD_MASK and the mask. */
    method Next() returns (corrupt: bool, k1: Byte)
      requires Ready()
      modifies this, fast`tPos, fast`steps, small`tPos, small`steps
      ensures Ready() && !corrupt && used == old(used) + 1
      ensures old(used) < |column| ==> k1 == Block()[old(used)]
    {
      hide FastUnsorter.Ready, SmallUnsorter.Ready, Cumulative, RowAfter, Emitted, MaskAt, Changed;
      if smallDecompress {
        corrupt, k1 := small.GetSmall(cftab);
      } else {
        corrupt, k1 := fast.GetFast();
      }
      if blockRandomised {
        rNToGo, rTPos, group := UpdateMask(rNToGo, rTPos, group, used);
        if rNToGo == 1 { k1 := Flip(k1); }
      }
      used := used + 1;
    }
  }

  class OutputStage {
    const source: ByteSource
    const save_nblock: int
    var state_out_ch: Byte
    var state_out_len: int
    var k0: Byte
    var nblock_used: int
    var calculatedBlockCRC: bv32
    ghost const block: seq<Byte>
    ghost var emitted: seq<Byte>

    /** The source has handed out nblock_used bytes of the block. */
    ghost predicate InStep()
      reads this`nblock_used, source, source.fast, source.fast.tt, source.small, source.small.ll16, source.small.ll4,
          source.cftab
    {
      && 0 <= source.origin < |source.column| && block == source.Block()
      && source.Ready() && source.used == nblock_used && save_nblock == |block| && 0 < save_nblock
    }

    /** Output promised by the state: the rest of a run, then what follows in the block. */
    ghost predicate Promised()
      reads this
    {
      && 1 <= nblock_used <= |block| + 2 && 0 <= state_out_len
      && (nblock_used <= |block| ==> k0 == block[nblock_used - 1])
      && (nblock_used <= |block| + 1 ==>
            emitted + Rep(state_out_ch, state_out_len) + Rest(block, nblock_used - 1) == Text(block)
            && RestOk(block, nblock_used - 1) == Complete(block))
      && (nblock_used == |block| + 2 ==> !Complete(block))
    }

    ghost predicate Valid()
      reads this, source, source.fast, source.fast.tt, source.small, source.small.ll16, source.small.ll4, source.cftab
    {
      InStep() && Promised() && calculatedBlockCRC == CrcOf(emitted)
    }

    /** The test BZ2_bzDecompress makes (bzlib.c:824). */
    predicate Finished()
      reads this
    {
      nblock_used == save_nblock + 1 && state_out_len == 0
    }

    /** A byte from the source, and nblock_used++. */
    method NextByte() returns (corrupt: bool, k1: Byte)
      requires InStep()
      modifies this`nblock_used, source, source.fast`tPos, source.fast`steps, source.small`tPos, source.small`steps
      ensures InStep() && !corrupt && nblock_used == old(nblock_used) + 1
      ensures old(nblock_used) < |block| ==> k1 == block[old(nblock_used)]
    {
      hide ByteSource.Ready, Unsorted;
      corrupt, k1 := source.Next();
      nblock_used := nblock_used + 1;
    }

    constructor (source: ByteSource, nblock: int)
      requires source.Ready() && source.used == 0 && nblock == |source.column|
      modifies source, source.fast`tPos, source.fast`steps, source.small`tPos, source.small`steps
      ensures Valid() && emitted == [] && block == source.Block() && this.source == source
    {
      hide CrcOf, Unsorted, FastUnsorter.Ready, SmallUnsorter.Ready, Cumulative, MaskAt;
      this.source, save_nblock, block := source, nblock, source.Block();
      state_out_len, state_out_ch, nblock_used, calculatedBlockCRC, emitted := 0, 0, 0, 0xffff_ffff, [];
      k0 := 0;
      new;
      var corrupt, k := NextByte();
      k0 := k;
      RestFromStart(block);
      NothingEmitted(state_out_ch, Rest(block, 0));
      NoText();
    }

    lemma BlockSize()
      requires InStep()
      ensures save_nblock == |block| > 0
    {
    }

    lemma ValidInStep()
      requires Valid()
      ensures InStep()
    {
      hide InStep, CrcOf, Promised;
    }

    /** k equal bytes from position i of the block on are collected, and nothing of them is emitted. */
    ghost predicate Collected(i: int, k: int, ch0: Byte)
      reads this`state_out_ch, this`emitted, this`calculatedBlockCRC
    {
      && 0 <= i && 1 <= k <= 4 && i + k <= |block| && state_out_ch == block[i]
      && (forall j :: i <= j < i + k ==> block[j] == block[i])
      && emitted + Rep(ch0, 0) + Rest(block, i) == Text(block) && RestOk(block, i) == Complete(block)
      && calculatedBlockCRC == CrcOf(emitted)
    }

    lemma FirstCollected(i: int, ch0: Byte)
      requires 0 <= i == nblock_used - 1 < |block| && state_out_ch == block[i] && calculatedBlockCRC == CrcOf(emitted)
      requires emitted + Rep(ch0, 0) + Rest(block, i) == Text(block) && RestOk(block, i) == Complete(block)
      ensures Collected(i, 1, ch0)
    {
      hide CrcOf, Rest, RestOk, Complete, Text, Rep;
    }

    /** Before a run: what Promised says of it. */
    lemma Promises()
      requires Valid() && nblock_used <= |block|
      ensures 1 <= nblock_used && k0 == block[nblock_used - 1] && calculatedBlockCRC == CrcOf(emitted)
      ensures emitted + Rep(state_out_ch, state_out_len) + Rest(block, nblock_used - 1) == Text(block)
      ensures RestOk(block, nblock_used - 1) == Complete(block)
    {
      hide CrcOf, InStep, Rest, RestOk, Complete, Text, Rep;
    }

    lemma OneMore(i: int, k: int, ch0: Byte)
      requires Collected(i, k, ch0) && k < 4 && i + k < |block| && block[i + k] == block[i]
      ensures Collected(i, k + 1, ch0)
    {
      hide CrcOf, Rest, RestOk, Complete, Text, Rep;
    }

    /** A run of at most three bytes, and the byte after it. */
    lemma ShortRunIs(i: int, k: int, ch0: Byte)
      requires InStep() && Collected(i, k, ch0) && k <= 3 && nblock_used == i + k + 1 && state_out_len == k
      requires i + k < |block| ==> k0 == block[i + k] && k0 != block[i]
      ensures Valid()
    {
      hide CrcOf, InStep, Rest, RestOk, Complete, Text, Rep;
      PromiseShort(block, i, k, emitted, ch0);
    }

    /** The byte after k equal ones. */
    method Peek(ghost i: int, ghost k: int, ghost ch0: Byte) returns (corrupt: bool, k1: Byte)
      requires InStep() && Collected(i, k, ch0) && nblock_used == i + k
      modifies this`nblock_used, source, source.fast`tPos, source.fast`steps, source.small`tPos, source.small`steps
      ensures InStep() && Collected(i, k, ch0) && !corrupt && nblock_used == i + k + 1 && save_nblock == |block|
      ensures 0 <= i && i + k <= |block| && 1 <= k <= 4 && state_out_ch == block[i]
      ensures i + k < |block| ==> k1 == block[i + k]
    {
      hide CrcOf, InStep, Rest, RestOk, Complete, Text, Rep;
      BlockSize();
      corrupt, k1 := NextByte();
    }

    /** Collects the next run; a single byte is the common case. */
    method StartRunFast() returns (corrupt: bool)
      requires Valid() && state_out_len == 0 && nblock_used <= save_nblock
      modifies this`state_out_ch, this`state_out_len, this`k0, this`nblock_used
      modifies source, source.fast`tPos, source.fast`steps, source.small`tPos, source.small`steps
      ensures Valid() && !corrupt && 0 < state_out_len && old(nblock_used) < nblock_used
    {
      hide *;
      ValidInStep();
      BlockSize();
      Promises();
      ghost var i, ch0 := nblock_used - 1, state_out_ch;
      var k1;
      state_out_ch := k0;
      FirstCollected(i, ch0);
      corrupt, k1 := Peek(i, 1, ch0);
      if corrupt { return; }
      if k1 != k0 || nblock_used == save_nblock + 1 {
        if k1 != k0 { k0 := k1; }
        state_out_len := 1;
        ShortRunIs(i, 1, ch0);
        return;
      }
      state_out_len := 2;
      OneMore(i, 1, ch0);
      corrupt, k1 := Peek(i, 2, ch0);
      if corrupt { return; }
      if nblock_used == save_nblock + 1 { ShortRunIs(i, 2, ch0); return; }
      if k1 != k0 { k0 := k1; ShortRunIs(i, 2, ch0); return; }
      state_out_len := 3;
      OneMore(i, 2, ch0);
      corrupt, k1 := Peek(i, 3, ch0);
      if corrupt { return; }
      if nblock_used == save_nblock + 1 { ShortRunIs(i, 3, ch0); return; }
      if k1 != k0 { k0 := k1; ShortRunIs(i, 3, ch0); return; }
      OneMore(i, 3, ch0);
      corrupt := FinishLongRun(i, ch0);
    }

    /** After four equal bytes: the count, and the first byte of what follows. */
    method FinishLongRun(ghost i: int, ghost ch0: Byte) returns (corrupt: bool)
      requires InStep() && Collected(i, 4, ch0) && nblock_used == i + 4 && state_out_ch == k0
      modifies this`state_out_len, this`k0, this`nblock_used,
        source, source.fast`tPos, source.fast`steps, source.small`tPos, source.small`steps
      ensures Valid() && !corrupt && 4 <= state_out_len && nblock_used == old(nblock_used) + 2
    {
      hide CrcOf, InStep, Rest, RestOk, Complete, Text, Rep;
      ghost var b := block;
      var k1, k;
      corrupt, k1 := NextByte();
      if corrupt { return; }
      var count: int := k1;
      state_out_len := count + 4;
      corrupt, k := NextByte();
      if corrupt { return; }
      k0 := k;
      PromiseLong(b, i, emitted, ch0);
    }

    /** unRLE_obuf_to_output_SMALL differs in testing for the block's end first. */
    method StartRunSmall() returns (corrupt: bool)
      requires Valid() && state_out_len == 0 && nblock_used <= save_nblock
      modifies this`state_out_ch, this`state_out_len, this`k0, this`nblock_used
      modifies source, source.fast`tPos, source.fast`steps, source.small`tPos, source.small`steps
      ensures Valid() && !corrupt && 0 < state_out_len && old(nblock_used) < nblock_used
    {
      hide *;
      ValidInStep();
      BlockSize();
      Promises();
      ghost var i, ch0 := nblock_used - 1, state_out_ch;
      var k1;
      state_out_len := 1;
      state_out_ch := k0;
      FirstCollected(i, ch0);
      corrupt, k1 := Peek(i, 1, ch0);
      if corrupt { return; }
      if nblock_used == save_nblock + 1 { ShortRunIs(i, 1, ch0); return; }
      if k1 != k0 { k0 := k1; ShortRunIs(i, 1, ch0); return; }
      state_out_len := 2;
      OneMore(i, 1, ch0);
      corrupt, k1 := Peek(i, 2, ch0);
      if corrupt { return; }
      if nblock_used == save_nblock + 1 { ShortRunIs(i, 2, ch0); return; }
      if k1 != k0 { k0 := k1; ShortRunIs(i, 2, ch0); return; }
      state_out_len := 3;
      OneMore(i, 2, ch0);
      corrupt, k1 := Peek(i, 3, ch0);
      if corrupt { return; }
      if nblock_used == save_nblock + 1 { ShortRunIs(i, 3, ch0); return; }
      if k1 != k0 { k0 := k1; ShortRunIs(i, 3, ch0); return; }
      OneMore(i, 3, ch0);
      corrupt := FinishLongRun(i, ch0);
    }

    /** One byte of the current run. */
    method EmitOne() returns (ch: Byte)
      requires Valid() && 0 < state_out_len
      modifies this`state_out_len, this`calculatedBlockCRC, this`emitted
      ensures Valid() && ch == state_out_ch && state_out_len == old(state_out_len) - 1
      ensures emitted == old(emitted) + [ch]
    {
      hide CrcOf, InStep, Rest, RestOk, Complete, Text, UpdateCrc;
      ch := state_out_ch;
      CrcSnoc(emitted, ch);
      EmitFromRun(emitted, ch, state_out_len);
      calculatedBlockCRC := UpdateCrc(calculatedBlockCRC, ch);
      state_out_len := state_out_len - 1;
      emitted := emitted + [ch];
    }

    /** Every byte given out is taken off the run, or belongs to a run that was there before. */
    ghost predicate Further(n: int, len: int, given: int)
      reads this`nblock_used, this`state_out_len
    {
      nblock_used > n || (nblock_used == n && state_out_len == len - given)
    }

    /** unRLE_obuf_to_output_FAST; leaving the eq-one section is writing zero to the
        run length, which the source only does where the value is read again. */
    method UnRleFast(avail_out: nat) returns (out: seq<Byte>, corrupt: bool)
      requires Valid()
      modifies this, source, source.fast`tPos, source.fast`steps, source.small`tPos, source.small`steps
      ensures Valid() && emitted == old(emitted) + out && |out| <= avail_out
      ensures corrupt ==> !Complete(block)
      ensures !corrupt ==> Finished() || |out| == avail_out
      ensures Further(old(nblock_used), old(state_out_len), |out|)
    {
      hide CrcOf, InStep, Rest, RestOk, Complete, Text;
      out := [];
      BlockSize();
      while true
        invariant Valid() && emitted == old(emitted) + out && |out| <= avail_out
        invariant Further(old(nblock_used), old(state_out_len), |out|)
        decreases save_nblock + 2 - nblock_used
      {
        ghost var u := nblock_used;
        while state_out_len > 0
          invariant Valid() && emitted == old(emitted) + out && |out| <= avail_out && nblock_used == u
          invariant Further(old(nblock_used), old(state_out_len), |out|)
          decreases state_out_len
        {
          if |out| == avail_out { return out, false; }
          var ch := EmitOne();
          out := out + [ch];
        }
        if nblock_used > save_nblock + 1 { return out, true; }
        if nblock_used == save_nblock + 1 { return out, false; }
        corrupt := StartRunFast();
        if corrupt { return; }
      }
    }

    /** unRLE_obuf_to_output_SMALL, and what unRLE_obuf_to_output_FAST does with a randomised block:
        they look at the output space before anything else. */
    method UnRleSmall(avail_out: nat) returns (out: seq<Byte>, corrupt: bool)
      requires Valid()
      modifies this, source, source.fast`tPos, source.fast`steps, source.small`tPos, source.small`steps
      ensures Valid() && emitted == old(emitted) + out && |out| <= avail_out
      ensures corrupt ==> !Complete(block)
      ensures !corrupt ==> Finished() || |out| == avail_out
      ensures Further(old(nblock_used), old(state_out_len), |out|)
    {
      hide CrcOf, InStep, Rest, RestOk, Complete, Text;
      out := [];
      BlockSize();
      while true
        invariant Valid() && emitted == old(emitted) + out && |out| <= avail_out
        invariant Further(old(nblock_used), old(state_out_len), |out|)
        decreases save_nblock + 2 - nblock_used
      {
        ghost var u := nblock_used;
        while true
          invariant Valid() && emitted == old(emitted) + out && |out| <= avail_out && nblock_used == u
          invariant Further(old(nblock_used), old(state_out_len), |out|)
          decreases state_out_len
        {
          if |out| == avail_out { return out, false; }
          if state_out_len == 0 { break; }
          var ch := EmitOne();
          out := out + [ch];
        }
        if nblock_used == save_nblock + 1 { return out, false; }
        if nblock_used > save_nblock + 1 { return out, true; }
        corrupt := StartRunSmall();
        if corrupt { return; }
      }
    }

    /** One call with room for n bytes. */
    method UnRle(n: nat) returns (piece: seq<Byte>, corrupt: bool)
      requires Valid()
      modifies this, source, source.fast`tPos, source.fast`steps, source.small`tPos, source.small`steps
      ensures Valid() && emitted == old(emitted) + piece
      ensures corrupt ==> !Complete(block)
      ensures !corrupt ==> Finished() || |piece| == n
      ensures Further(old(nblock_used), old(state_out_len), |piece|)
    {
      hide *;
      if source.smallDecompress || source.blockRandomised {
        piece, corrupt := UnRleSmall(n);
      } else {
        piece, corrupt := UnRleFast(n);
      }
    }

    /** The BZ_X_OUTPUT part of BZ2_bzDecompress, called with one output buffer after another
        until the block is finished: a block that does not stop where a count should be gives its
        text, and the checksum is that of the text; any other is found corrupt.
        sizes(k) is the room in call number k. */
    method Drain(sizes: nat -> nat, call0: nat) returns (out: seq<Byte>, corrupt: bool, call: nat)
      requires Valid() && emitted == [] && forall k :: sizes(k) > 0
      modifies this, source, source.fast`tPos, source.fast`steps, source.small`tPos, source.small`steps
      ensures corrupt <==> !Complete(block)
      ensures !corrupt ==> out == Text(block) && calculatedBlockCRC == CrcOf(Text(block))
    {
      hide *;
      out, call, corrupt := [], call0, false;
      while true
        invariant Valid() && emitted == out && !corrupt
        decreases |block| + 2 - nblock_used, state_out_len
      {
        ghost var n, len := nblock_used, state_out_len;
        InBounds();
        var piece;
        piece, corrupt := UnRle(sizes(call));
        out, call := out + piece, call + 1;
        if corrupt { return; }
        if Finished() { AllEmitted(); return; }
        InBounds();
        Onward(n, len, |piece|);
      }
    }

    lemma Onward(n: int, len: int, given: int)
      requires Further(n, len, given) && given > 0
      ensures nblock_used > n || (nblock_used == n && state_out_len < len)
    {
    }

    lemma InBounds()
      requires Valid()
      ensures 1 <= nblock_used <= |block| + 2 && 0 <= state_out_len
    {
      hide CrcOf, InStep, Rest, RestOk, Complete, Text, Rep;
    }

    /** When the stage is finished, the block was complete and all of its text is emitted. */
    lemma AllEmitted()
      requires Valid() && Finished()
      ensures Complete(block) && emitted == Text(block) && calculatedBlockCRC == CrcOf(Text(block))
    {
      hide CrcOf, InStep, Rest, Complete, Text, Rep;
      BlockSize();
      NoRest(block, emitted, state_out_ch, state_out_len);
    }
  }

  lemma {:induction false} NoRest(b: seq<Byte>, emitted: seq<Byte>, ch: Byte, len: nat)
    ensures len == 0 ==> emitted + Rep(ch, len) + Rest(b, |b|) == emitted
    ensures RestOk(b, |b|)
  {
  }

  lemma EmitFromRun(emitted: seq<Byte>, ch: Byte, len: int)
    requires 0 < len
    ensures emitted + Rep(ch, len) == emitted + [ch] + Rep(ch, len - 1)
  {
  }

  lemma {:induction false} NoText()
    ensures CrcOf([]) == 0xffff_ffff
  {
  }

  lemma NothingEmitted(ch: Byte, rest: seq<Byte>)
    ensures [] + Rep(ch, 0) + rest == rest
  {
  }

  lemma {:induction false} PromiseShort(b: seq<Byte>, i: nat, k: nat, text: seq<Byte>, ch0: Byte)
    requires 1 <= k <= 3 && i + k <= |b| && (forall j :: i <= j < i + k ==> b[j] == b[i])
    requires i + k < |b| ==> b[i + k] != b[i]
    requires text + Rep(ch0, 0) + Rest(b, i) == Text(b)
    ensures text + Rep(b[i], k) + Rest(b, i + k) == Text(b) && RestOk(b, i) == RestOk(b, i + k)
  {
    ShortRun(b, i, k);
    assert text + Rep(b[i], k) + Rest(b, i + k) == text + Rep(ch0, 0) + (Rep(b[i], k) + Rest(b, i + k));
  }

  lemma {:induction false} PromiseLong(b: seq<Byte>, i: nat, text: seq<Byte>, ch0: Byte)
    requires i + 4 <= |b| && (forall j :: i <= j < i + 4 ==> b[j] == b[i])
    requires text + Rep(ch0, 0) + Rest(b, i) == Text(b)
    ensures i + 4 < |b| ==> text + Rep(b[i], 4 + (b[i + 4] as int)) + Rest(b, i + 5) == Text(b)
    ensures i + 4 < |b| ==> RestOk(b, i) == RestOk(b, i + 5)
    ensures i + 4 == |b| ==> !RestOk(b, i)
  {
    if i + 4 < |b| {
      LongRun(b, i);
      var run := Rep(b[i], 4 + (b[i + 4] as int));
      assert text + run + Rest(b, i + 5) == text + Rep(ch0, 0) + (run + Rest(b, i + 5));
    } else {
      CutRun(b, i);
    }
  }
}

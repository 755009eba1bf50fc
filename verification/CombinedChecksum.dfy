/** The checksum of a bzip2 stream, bit by bit: each block's checksum turned by as many places as
    blocks come after it, and all added without carry. */
module CombinedChecksum {
  import opened BlockFormat
  import opened StreamFormat

  /** A single bit, counted from the lowest one. */
  function BitMask(i: nat): bv32
    requires i < 32
  {
    if i == 0 then 1 else BitMask(i - 1) << 1
  }

  function HasBit(x: bv32, i: nat): bool
    requires i < 32
  {
    x & BitMask(i) != 0
  }

  lemma {:induction false} HighestBit()
    ensures BitMask(31) == 0x8000_0000
  {
    assert BitMask(3) == 0x8 && BitMask(6) == 0x40 && BitMask(9) == 0x200 && BitMask(12) == 0x1000;
    assert BitMask(15) == 0x8000 && BitMask(18) == 0x4_0000 && BitMask(21) == 0x20_0000 && BitMask(24) == 0x100_0000;
    assert BitMask(27) == 0x800_0000 && BitMask(30) == 0x4000_0000;
  }

  lemma LowestMask()
    ensures BitMask(0) == 1
  {
  }

  lemma NextMask(i: nat)
    requires 0 < i < 32
    ensures BitMask(i) == BitMask(i - 1) << 1
  {
  }

  lemma SingleBitShifted(m: bv32)
    requires m & (m - 1) == 0 && m << 1 != 0
    ensures m & 0x8000_0000 == 0 && (m << 1) & ((m << 1) - 1) == 0
  {
  }

  lemma {:induction false} OnceGone(i: nat, j: nat)
    requires i <= j < 32 && BitMask(i) == 0
    ensures BitMask(j) == 0
    decreases j
  {
    if i < j { OnceGone(i, j - 1); }
  }

  lemma {:induction false} NotGone(i: nat)
    requires i < 32
    ensures BitMask(i) != 0
  {
    hide BitMask;
    HighestBit();
    if BitMask(i) == 0 { OnceGone(i, 31); }
  }

  lemma {:induction false} SingleBit(i: nat)
    requires i < 32
    ensures BitMask(i) != 0 && BitMask(i) & (BitMask(i) - 1) == 0
    ensures i < 31 ==> BitMask(i) & 0x8000_0000 == 0
  {
    hide BitMask;
    LowestMask();
    NotGone(i);
    if i > 0 {
      SingleBit(i - 1);
      NextMask(i);
      SingleBitShifted(BitMask(i - 1));
    }
    if i < 31 {
      NotGone(i + 1);
      NextMask(i + 1);
      SingleBitShifted(BitMask(i));
    }
  }

  lemma TurnedHigh(c: bv32, m: bv32)
    requires m & 0x8000_0000 == 0
    ensures ((c << 1) | (c >> 31)) & (m << 1) != 0 <==> c & m != 0
  {
  }

  lemma TurnedLow(c: bv32)
    ensures ((c << 1) | (c >> 31)) & 1 != 0 <==> c & 0x8000_0000 != 0
  {
  }

  lemma AddedBit(x: bv32, y: bv32, m: bv32)
    requires m & (m - 1) == 0
    ensures (x ^ y) & m != 0 <==> (x & m != 0) != (y & m != 0)
  {
  }

  /** The place a bit comes from when a word is turned left by n. */
  function From(i: int, n: int): (j: nat)
    ensures j < 32
  {
    (i - n) % 32
  }

  lemma {:induction false} CombineBit(c: bv32, crc: bv32, i: nat)
    requires i < 32
    ensures HasBit(Combine(c, crc), i) <==> HasBit(c, From(i, 1)) != HasBit(crc, i)
  {
    hide BitMask;
    SingleBit(i);
    AddedBit((c << 1) | (c >> 31), crc, BitMask(i));
    if i == 0 {
      LowestMask();
      HighestBit();
      TurnedLow(c);
    } else {
      SingleBit(i - 1);
      NextMask(i);
      TurnedHigh(c, BitMask(i - 1));
    }
  }

  /** The blocks whose checksum has the bit that is turned to place i. */
  ghost function Contributing(blocks: seq<Block>, i: nat): set<int>
    requires i < 32
  {
    set k | 0 <= k < |blocks| && HasBit(blocks[k].crc, From(i, |blocks| - 1 - k))
  }

  lemma OneTurnMore(i: int, n: int)
    ensures From(From(i, 1), n) == From(i, n + 1)
  {
  }

  /** A bit is set just when an odd number of blocks contribute to it. */
  lemma {:induction false} CombinedBit(blocks: seq<Block>, i: nat)
    requires i < 32
    ensures HasBit(CombinedCrc(blocks), i) <==> |Contributing(blocks, i)| % 2 == 1
    decreases |blocks|
  {
    hide HasBit, Combine, From;
    if blocks == [] {
      NoBit(i);
      assert Contributing(blocks, i) == {};
    } else {
      var n := |blocks| - 1;
      var bs, c, j := blocks[..n], CombinedCrc(blocks[..n]), From(i, 1);
      CombineBit(c, blocks[n].crc, i);
      CombinedBit(bs, j);
      var a, b := Contributing(blocks, i), Contributing(bs, j);
      forall k ensures k in a <==> k in b || (k == n && HasBit(blocks[n].crc, i)) {
        OneTurnMore(i, n - 1 - k);
        Unturned(i);
      }
      assert a == if HasBit(blocks[n].crc, i) then b + {n} else b;
    }
  }

  lemma NoBit(i: nat)
    requires i < 32
    ensures !HasBit(0, i)
  {
  }

  lemma Unturned(i: nat)
    requires i < 32
    ensures From(i, 0) == i
  {
  }
}

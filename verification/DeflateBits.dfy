/** The bit buffers of deflate and inflate: send_bits of trees.c, and the bit accumulator of
    inflate.c.  Or-ing a value into the zero part of a buffer is written as addition. */
module DeflateBits {
  import opened Bytes
  import opened Bits
  import opened LsbBits

  const BUF_SIZE: int := 16
  const WORD16: int := 0x1_0000

  // ---- writing ----

  lemma Pow16()
    ensures Pow2(16) == WORD16 && Pow2(8) == 0x100
  {
    Pow2Values();
    Pow2Add(8, 8);
  }

  /** A value that does not fit the buffer: its low part completes the buffer, the rest stays. */
  lemma Overfull(live: seq<bool>, v: nat, n: nat)
    requires |live| <= 16 && 16 <= |live| + n && v < Pow2(n)
    ensures Pow2(|live|) > 0 && Pow2(16 - |live|) > 0
    ensures var all := live + LowBits(v, n);
      LowVal(live) + v * Pow2(|live|) % WORD16 == LowVal(all[..16]) && v / Pow2(16 - |live|) == LowVal(all[16..])
  {
    hide LowVal, LowBits, Pow2;
    var all, p, q := live + LowBits(v, n), Pow2(|live|), Pow2(16 - |live|);
    Pow16();
    Pow2Add(|live|, 16 - |live|);
    LowJoined(live, LowBits(v, n));
    ValOfLow(v, n);
    LowBound(live);
    LowSplit(all, 16);
    PowAtLeastOne(|live|);
    PowAtLeastOne(16 - |live|);
    Halfway(LowVal(live), v, p, q);
  }

  lemma PowAtLeastOne(n: nat)
    ensures Pow2(n) >= 1
  {
  }

  lemma Halfway(x: nat, v: nat, p: nat, q: nat)
    requires x < p && q > 0 && p * q == WORD16
    ensures x + v * p % WORD16 == (x + p * v) % WORD16 && v / q == (x + p * v) / WORD16
  {
    var h, l := v / q, v % q;
    Regroup(v, h, l, p, q);
    LessProduct(l, q, p);
    DivModUnique(v * p, WORD16, h, l * p);
    DivModUnique(x + p * v, WORD16, h, x + l * p);
  }

  lemma Regroup(v: nat, h: nat, l: nat, p: nat, q: nat)
    requires v == h * q + l && p * q == WORD16
    ensures v * p == h * WORD16 + l * p && p * v == v * p
  {
    assert h * q * p == h * (p * q);
    Distribute(h * q, l, p);
  }

  lemma LessProduct(l: nat, q: nat, p: nat)
    requires l < q
    ensures l * p + p <= q * p && q * p == p * q
  {
    assert (q - l - 1) * p >= 0;
  }

  lemma {:induction false} LowBitsSplit(lo: nat, hi: nat, m: nat, n: nat)
    requires lo < Pow2(m) && hi < Pow2(n)
    ensures LowBits(lo + Pow2(m) * hi, m + n) == LowBits(lo, m) + LowBits(hi, n)
  {
    hide Pow2, LowBits, LowVal;
    var b := LowBits(lo, m) + LowBits(hi, n);
    LowJoined(LowBits(lo, m), LowBits(hi, n));
    ValOfLow(lo, m);
    ValOfLow(hi, n);
    LowOfVal(b);
  }

  /** Two bytes, low one first, are the sixteen bits. */
  lemma {:induction false} ShortBits(out: seq<Byte>, b: seq<bool>)
    requires |b| == 16
    ensures LowVal(b) < WORD16
    ensures StreamBits(out + [LowVal(b) % 0x100] + [LowVal(b) / 0x100]) == StreamBits(out) + b
  {
    hide LowVal, LowBits, Pow2, StreamBits;
    var w := LowVal(b);
    LowBound(b);
    Pow16();
    LowOfVal(b);
    LowBitsSplit(w % 0x100, w / 0x100, 8, 8);
    StreamSnoc(out, w % 0x100);
    StreamSnoc(out + [w % 0x100], w / 0x100);
    assert StreamBits(out) + LowBits(w % 0x100, 8) + LowBits(w / 0x100, 8) == StreamBits(out)
        + (LowBits(w % 0x100, 8) + LowBits(w / 0x100, 8));
  }

  /** bi_buf, bi_valid and the pending output of deflate. */
  class BitSink {
    var biBuf: int
    var biValid: int
    var out: seq<Byte>
    ghost var live: seq<bool>

    ghost predicate Valid()
      reads this
    {
      0 <= biValid <= 16 && |live| == biValid && biBuf == LowVal(live)
    }

    /** All bits sent so far. */
    ghost function Sent(): seq<bool>
      reads this
    {
      StreamBits(out) + live
    }

    constructor ()
      ensures Valid() && Sent() == []
    {
      biBuf, biValid, out, live := 0, 0, [], [];
    }

    /** put_short */
    method PutShort(ghost b: seq<bool>)
      requires |b| == 16 && biBuf == LowVal(b)
      modifies this`out
      ensures StreamBits(out) == StreamBits(old(out)) + b
    {
      ShortBits(out, b);
      out := out + [biBuf % 0x100] + [biBuf / 0x100];
    }

    /** send_bits */
    method SendBits(value: int, length: int)
      requires Valid() && 0 <= length <= 16 && 0 <= value < Pow2(length)
      modifies this
      ensures Valid() && Sent() == old(Sent()) + LowBits(value, length)
    {
      hide LowVal, LowBits, Pow2, StreamBits;
      ghost var all := live + LowBits(value, length);
      ghost var s0 := StreamBits(out);
      if biValid > BUF_SIZE - length {
        Overfull(live, value, length);
        biBuf := biBuf + value * Pow2(biValid) % WORD16;
        PutShort(all[..16]);
        biBuf := value / Pow2(BUF_SIZE - biValid);
        biValid := biValid + length - BUF_SIZE;
        live := all[16..];
        assert s0 + all[..16] + all[16..] == s0 + all;
      } else {
        AppendLow(live, value, length);
        biBuf := biBuf + value * Pow2(biValid);
        biValid := biValid + length;
        live := all;
      }
      assert Sent() == old(Sent()) + LowBits(value, length);
    }

    /** bi_flush: whole bytes leave the buffer. */
    method Flush()
      requires Valid()
      modifies this
      ensures Valid() && Sent() == old(Sent()) && biValid < 8
    {
      hide LowVal, LowBits, Pow2, StreamBits;
      ghost var s0 := StreamBits(out);
      if biValid == 16 {
        PutShort(live);
        biBuf, biValid := 0, 0;
        assert s0 + live == s0 + live + [];
        live := [];
        EmptyVal();
      } else if biValid >= 8 {
        OneByteOut(out, live);
        out := out + [biBuf % 0x100];
        biBuf := biBuf / 0x100;
        biValid := biValid - 8;
        assert s0 + live[..8] + live[8..] == s0 + live;
        live := live[8..];
      }
    }

    /** bi_windup: zeros up to the byte boundary. */
    method Windup()
      requires Valid()
      modifies this
      ensures Valid() && biValid == 0
      ensures exists pad: nat :: pad < 8 && Sent() == old(Sent()) + LowBits(0, pad)
    {
      hide LowVal, LowBits, Pow2, StreamBits;
      ghost var s0, l := StreamBits(out), live;
      ghost var pad := if biValid > 8 then 16 - biValid else if biValid > 0 then 8 - biValid else 0;
      PadVal(live, pad);
      if biValid > 8 {
        PutShort(live + LowBits(0, pad));
      } else if biValid > 0 {
        ByteBits(out, live + LowBits(0, pad));
        out := out + [biBuf];
      } else {
        NoPad();
      }
      biBuf, biValid, live := 0, 0, [];
      EmptyVal();
      assert s0 + (l + LowBits(0, pad)) == s0 + l + LowBits(0, pad);
      assert Sent() == old(Sent()) + LowBits(0, pad);
    }
  }

  lemma NoPad()
    ensures LowBits(0, 0) == []
  {
  }

  lemma EmptyVal()
    ensures LowVal([]) == 0
  {
  }

  lemma {:induction false} AppendLow(live: seq<bool>, v: nat, n: nat)
    requires v < Pow2(n)
    ensures LowVal(live + LowBits(v, n)) == LowVal(live) + v * Pow2(|live|)
  {
    hide LowVal, LowBits, Pow2;
    LowJoined(live, LowBits(v, n));
    ValOfLow(v, n);
    SwapFactor(Pow2(|live|), v);
  }

  lemma {:induction false} ByteBits(out: seq<Byte>, b: seq<bool>)
    requires |b| == 8
    ensures LowVal(b) < 0x100 && StreamBits(out + [LowVal(b)]) == StreamBits(out) + b
  {
    hide LowVal, LowBits, Pow2, StreamBits;
    LowBound(b);
    Pow16();
    LowOfVal(b);
    StreamSnoc(out, LowVal(b));
  }

  lemma {:induction false} OneByteOut(out: seq<Byte>, live: seq<bool>)
    requires |live| >= 8
    ensures LowVal(live[8..]) == LowVal(live) / 0x100
    ensures StreamBits(out + [LowVal(live) % 0x100]) == StreamBits(out) + live[..8]
  {
    hide LowVal, LowBits, Pow2, StreamBits;
    Pow16();
    LowSplit(live, 8);
    ByteBits(out, live[..8]);
  }

  lemma {:induction false} PadVal(live: seq<bool>, pad: nat)
    ensures LowVal(live + LowBits(0, pad)) == LowVal(live)
  {
    hide LowVal, LowBits, Pow2;
    PowAtLeastOne(pad);
    AppendLow(live, 0, pad);
  }

  // ---- reading ----

  /** Bits of a list of input pieces. */
  ghost function PieceStream(pieces: seq<seq<Byte>>): seq<bool> {
    if pieces == [] then [] else StreamBits(pieces[0]) + PieceStream(pieces[1..])
  }

  /** hold, bits and the input of inflate: the unread part of this call's buffer, and the
      buffers of later calls. */
  class BitSource {
    var hold: int
    var bits: int
    var input: seq<Byte>
    var nextIn: int
    var later: seq<seq<Byte>>
    ghost var live: seq<bool>

    ghost predicate Valid()
      reads this
    {
      0 <= nextIn <= |input| && 0 <= bits <= 32 && |live| == bits && hold == LowVal(live)
    }

    /** All bits still to come. */
    ghost function Coming(): seq<bool>
      reads this
    {
      live + (if 0 <= nextIn <= |input| then StreamBits(input[nextIn..]) else []) + PieceStream(later)
    }

    lemma LiveFirst()
      requires Valid()
      ensures live <= Coming() && |live| == bits && hold == LowVal(live)
    {
    }

    constructor (pieces: seq<seq<Byte>>)
      ensures Valid() && Coming() == PieceStream(pieces) && bits == 0
    {
      hold, bits, input, nextIn, later, live := 0, 0, [], 0, pieces, [];
    }

    /** No input left in this call: inflate returns and is called again with the next piece. */
    method NextCall()
      requires Valid() && nextIn == |input| && later != []
      modifies this`input, this`nextIn, this`later
      ensures Valid() && Coming() == old(Coming()) && |later| < old(|later|)
    {
      hide LowVal, StreamBits;
      ghost var l, more := live, later;
      assert input[nextIn..] == [];
      NoStream();
      input, nextIn, later := later[0], 0, later[1..];
      assert input[0..] == input;
      assert l + [] + (StreamBits(more[0]) + PieceStream(more[1..])) == l + StreamBits(more[0])
          + PieceStream(more[1..]);
    }

    /** The next byte of the input goes above the bits that are held. */
    method NextByte()
      requires Valid() && bits <= 24 && nextIn < |input|
      modifies this`hold, this`bits, this`nextIn, this`live
      ensures Valid() && Coming() == old(Coming()) && bits == old(bits) + 8 && nextIn == old(nextIn) + 1
      ensures live == old(live) + LowBits(input[old(nextIn)], 8)
    {
      hide LowVal, StreamBits, LowBits, Pow2;
      var x := input[nextIn];
      ghost var rest := input[nextIn + 1..];
      assert input[nextIn..] == [x] + rest;
      StreamJoined([x], rest);
      StreamOne(x);
      Pow16();
      AppendLow(live, x, 8);
      hold := hold + x * Pow2(bits);
      bits := bits + 8;
      nextIn := nextIn + 1;
      ghost var l := live;
      live := live + LowBits(x, 8);
      assert l + (LowBits(x, 8) + StreamBits(rest)) == l + LowBits(x, 8) + StreamBits(rest);
    }

    /** PULLBYTE: false when all input of all calls is used up. */
    method PullByte() returns (ok: bool)
      requires Valid() && bits <= 24
      modifies this
      ensures Valid() && Coming() == old(Coming()) && (ok <==> |Coming()| > old(bits))
      ensures bits == old(bits) + (if ok then 8 else 0)
    {
      hide LowVal, StreamBits, LowBits, Pow2;
      while nextIn == |input|
        invariant Valid() && Coming() == old(Coming()) && bits == old(bits)
        decreases |later|
      {
        assert input[nextIn..] == [];
        NoStream();
        if later == [] { return false; }
        NextCall();
      }
      NextByte();
      ok := true;
    }

    /** NEEDBITS */
    method NeedBits(n: nat) returns (ok: bool)
      requires Valid() && n <= 24
      modifies this
      ensures Valid() && Coming() == old(Coming()) && (ok <==> |Coming()| >= n) && (ok ==> bits >= n)
      ensures bits == old(bits) || bits < n + 8
    {
      hide Coming;
      LiveFirst();
      while bits < n
        invariant Valid() && Coming() == old(Coming()) && bits <= |Coming()| && (bits == old(bits) || bits < n + 8)
        decreases n - bits
      {
        ok := PullByte();
        LiveFirst();
        if !ok { return; }
      }
      ok := true;
    }

    /** DROPBITS */
    method DropBits(n: nat)
      requires Valid() && n <= bits
      modifies this`hold, this`bits, this`live
      ensures Valid() && old(Coming()) == old(live)[..n] + Coming() && bits == old(bits) - n && live == old(live)[n..]
    {
      hide LowVal, StreamBits, Pow2;
      LowSplit(live, n);
      ghost var l := live;
      hold := hold / Pow2(n);
      bits := bits - n;
      live := live[n..];
      assert l == l[..n] + l[n..];
    }

    /** BITS and DROPBITS after NEEDBITS: the value of the next n bits. */
    method Take(n: nat) returns (ok: bool, v: int)
      requires Valid() && n <= 24
      modifies this
      ensures Valid() && (ok <==> |old(Coming())| >= n)
      ensures ok ==> v == LowVal(old(Coming())[..n]) && Coming() == old(Coming())[n..] && (old(bits) < 8 ==> bits < 8)
    {
      hide LowVal, Pow2;
      v := 0;
      ok := NeedBits(n);
      if !ok { return; }
      LowSplit(live, n);
      ghost var l, c := live, Coming();
      v := hold % Pow2(n);
      DropBits(n);
      assert c[..n] == l[..n];
      assert c[n..] == Coming();
    }
  }

  lemma NoStream()
    ensures StreamBits([]) == []
  {
  }
}

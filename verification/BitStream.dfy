/** The 32-bit bit buffers of the compressor and the decompressor.  Both are described
    by the bit string they stand for; or-ing a value into the zero part of the buffer
    is written as addition. */
module BitStream {
  import opened Bytes
  import opened Bits

  const WORD: int := 0x1_0000_0000

  lemma MulLess(x: int, y: int, p: int)
    requires x < y && p > 0
    ensures x * p < y * p && (x + 1) * p <= y * p
  {
    Distribute(y, x, p);
    Multiple(y - x, p);
    Distribute(x, 1, p);
    if y - x > 1 { Multiple(y - x - 1, p); Distribute(y - x, 1, p); }
  }

  lemma MulAssoc(x: int, y: int, z: int)
    ensures x * (y * z) == (x * y) * z
  {
  }

  /** The top byte of the buffer is the first eight bits; shifting drops them. */
  lemma TopByte(p: seq<bool>, buff: int)
    requires 8 <= |p| <= 32 && buff == Val(p) * Pow2(32 - |p|)
    ensures 0 <= buff && buff / 0x100_0000 == Val(p[..8]) < 0x100
    ensures buff * 0x100 % WORD == Val(p[8..]) * Pow2(40 - |p|)
  {
    hide *;
    var k, q := 32 - |p|, p[8..];
    Pow2Values();
    assert p == p[..8] + q;
    ValConcat(p[..8], q);
    Pow2Add(|q|, k);
    Pow2Add(k, 8);
    var h, l := Val(p[..8]), Val(q);
    TwoParts(h, l, Pow2(|q|), Pow2(k));
    SplitWord(h, l * Pow2(k), buff);
    MulAssoc(l, Pow2(k), Pow2(8));
  }

  lemma TwoParts(h: int, l: int, p: int, q: int)
    requires 0 <= l < p && q > 0
    ensures (h * p + l) * q == h * (p * q) + l * q && 0 <= l * q < p * q
  {
    Distribute(h * p, l, q);
    MulAssoc(h, p, q);
    MulLess(l, p, q);
    if l > 0 { Multiple(l, q); }
  }

  lemma SplitWord(h: int, l: int, buff: int)
    requires 0 <= h < 0x100 && buff == h * 0x100_0000 + l
    requires 0 <= l < 0x100_0000
    ensures buff / 0x100_0000 == h && buff * 0x100 % WORD == l * 0x100
  {
  }

  /** Or-ing n bits in just below the pending ones. */
  lemma AppendBits(p: seq<bool>, v: nat, n: nat, buff: int)
    requires |p| + n <= 32 && v < Pow2(n) && buff == Val(p) * Pow2(32 - |p|)
    ensures buff + v * Pow2(32 - |p| - n) == Val(p + ToBits(v, n)) * Pow2(32 - |p| - n)
  {
    hide Val, Pow2, ToBits;
    var k: nat := 32 - |p| - n;
    ValConcat(p, ToBits(v, n));
    ValOfBits(v, n);
    Pow2Add(n, k);
    MulAssoc(Val(p), Pow2(n), Pow2(k));
    Distribute(Val(p) * Pow2(n), v, Pow2(k));
  }

  lemma BytesBitsSnoc(z: seq<Byte>, x: Byte)
    ensures BytesBits(z + [x]) == BytesBits(z) + ToBits(x, 8)
  {
    assert (z + [x])[..|z|] == z;
  }

  /** Pads up to a byte boundary. */
  function Padding(live: int): (pad: seq<bool>)
    requires 0 <= live < 8
  {
    if live == 0 then [] else ToBits(0, 8 - live)
  }

  /** bsBuff, bsLive and zbits of the compressor. */
  class BitWriter {
    var bsBuff: int
    var bsLive: int
    var zbits: seq<Byte>
    ghost var pending: seq<bool>

    /** The pending bits sit at the top of the buffer, zeros below. */
    ghost predicate Valid()
      reads this
    {
      0 <= bsLive <= 32 && |pending| == bsLive && bsBuff == Val(pending) * Pow2(32 - bsLive)
    }

    /** Everything written so far. */
    ghost function Written(): (b: seq<bool>)
      reads this
    {
      BytesBits(zbits) + pending
    }

    /** BZ2_bsInitWrite */
    constructor ()
      ensures Valid() && Written() == []
    {
      bsBuff, bsLive, zbits, pending := 0, 0, [], [];
    }

    /** One step of either flushing loop; the last byte may be partly padding. */
    method PutTopByte()
      requires Valid() && bsLive > 0
      modifies this
      ensures bsLive == old(bsLive) - 8 && |zbits| == |old(zbits)| + 1
      ensures old(bsLive) >= 8 ==> Valid() && Written() == old(Written())
      ensures old(bsLive) < 8 ==> BytesBits(zbits) == old(Written()) + Padding(old(bsLive))
    {
      hide Val, Pow2, ToBits, BytesBits;
      ghost var p := pending;
      if bsLive < 8 {
        AppendBits(p, 0, 8 - bsLive, bsBuff);
        p := p + ToBits(0, 8 - bsLive);
      }
      TopByte(p, bsBuff);
      BitsOfVal(p[..8]);
      BytesBitsSnoc(zbits, bsBuff / 0x100_0000);
      assert p == p[..8] + p[8..];
      zbits := zbits + [bsBuff / 0x100_0000];
      bsBuff := bsBuff * 0x100 % WORD;
      bsLive := bsLive - 8;
      pending := p[8..];
    }

    /** bsNEEDW: whole bytes leave the buffer. */
    method NeedW()
      requires Valid()
      modifies this
      ensures Valid() && Written() == old(Written()) && bsLive < 8 && |old(zbits)| <= |zbits|
    {
      while bsLive >= 8
        invariant Valid() && Written() == old(Written()) && |old(zbits)| <= |zbits|
        decreases bsLive
      {
        PutTopByte();
      }
    }

    /** bsW: appends the n low bits of v. */
    method Write(n: int, v: int)
      requires Valid() && 0 <= n <= 24 && 0 <= v < Pow2(n)
      modifies this
      ensures Valid() && Written() == old(Written()) + ToBits(v, n) && |old(zbits)| <= |zbits|
    {
      hide Val, Pow2, ToBits, BytesBits;
      NeedW();
      AppendBits(pending, v, n, bsBuff);
      bsBuff := bsBuff + v * Pow2(32 - bsLive - n);
      bsLive := bsLive + n;
      pending := pending + ToBits(v, n);
      assert Written() == old(Written()) + ToBits(v, n);
    }

    /** bsFinishWrite: the rest, padded with zeros to a byte boundary. */
    method Finish()
      requires Valid()
      modifies this
      ensures BytesBits(zbits) == old(Written()) + Padding(old(|Written()|) % 8) && |old(zbits)| <= |zbits|
    {
      hide Valid, Written, Padding, BytesBits;
      ghost var w := Written();
      ghost var rest := bsLive % 8;
      PendingIsRest();
      while bsLive > 0
        invariant -8 < bsLive && bsLive % 8 == rest && |old(zbits)| <= |zbits|
        invariant bsLive >= 0 ==> Valid() && Written() == w
        invariant bsLive < 0 ==> BytesBits(zbits) == w + Padding(rest)
        decreases bsLive
      {
        PutTopByte();
      }
      if bsLive == 0 { NonePending(); }
    }

    lemma PendingIsRest()
      requires Valid()
      ensures 0 <= bsLive && |Written()| % 8 == bsLive % 8
    {
      hide Val, Pow2, BytesBits;
    }

    lemma NonePending()
      requires Valid() && bsLive == 0
      ensures BytesBits(zbits) == Written() + Padding(0)
    {
      hide Val, Pow2, BytesBits;
    }
  }

  // ---- reading ----

  /** Shifting a byte in below the live bits, within a 32-bit word. */
  lemma PullByte(p: seq<bool>, buff: int, x: Byte)
    requires |p| <= 24 && 0 <= buff && Val(p) == buff % Pow2(|p|)
    ensures Val(p + ToBits(x, 8)) == (buff * 0x100 + x) % WORD % Pow2(|p| + 8)
  {
    hide Val, Pow2, ToBits;
    Pow2Values();
    var n := |p|;
    var m := Pow2(n);
    ValConcat(p, ToBits(x, 8));
    ValOfBits(x, 8);
    Pow2Add(n, 8);
    var q := buff / m;
    assert buff == q * m + Val(p);
    var y := buff * 0x100 + x;
    ShiftedIn(q, m, Val(p), x, buff);
    DivModUnique(y, m * 0x100, q, Val(p) * 0x100 + x);
    Pow2Add(n + 8, 24 - n);
    ModOfMod(y, m * 0x100, Pow2(24 - n));
  }

  lemma ShiftedIn(q: int, m: int, r: int, x: int, buff: int)
    requires m > 0 && 0 <= r < m && 0 <= x < 0x100 && buff == q * m + r
    ensures buff * 0x100 + x == q * (m * 0x100) + (r * 0x100 + x)
    ensures 0 <= r * 0x100 + x < m * 0x100
  {
  }

  lemma ModOfMod(y: int, a: int, b: int)
    requires a > 0 && b > 0 && y >= 0
    ensures a * b > 0 && y % (a * b) % a == y % a
  {
    Multiple(a, b);
    var q, r := y / (a * b), y % (a * b);
    assert y == q * (a * b) + r;
    MulAssoc(q, b, a);
    var s := r / a;
    assert r == s * a + r % a;
    Distribute(q * b, s, a);
    DivModUnique(y, a, q * b + s, r % a);
  }

  /** Extracting the first n of the live bits. */
  lemma TakeBits(p: seq<bool>, buff: int, n: nat)
    requires n <= |p| <= 32 && 0 <= buff && Val(p) == buff % Pow2(|p|)
    ensures buff / Pow2(|p| - n) % Pow2(n) == Val(p[..n])
    ensures Val(p[n..]) == buff % Pow2(|p| - n)
  {
    hide Val, Pow2;
    var k := |p| - n;
    var a, b := Pow2(k), Pow2(n);
    Pow2Add(n, k);
    ValPrefix(p, n);
    var q := buff / (b * a);
    assert buff == q * (b * a) + Val(p);
    var h, l := Val(p[..n]), Val(p[n..]);
    assert Val(p) == h * a + l;
    MulAssoc(q, b, a);
    Distribute(q * b, h, a);
    DivModUnique(buff, a, q * b + h, l);
    DivModUnique(q * b + h, b, q, h);
  }

  /** Bits of a list of input pieces. */
  ghost function PieceBits(pieces: seq<seq<Byte>>): seq<bool> {
    if pieces == [] then [] else BytesBits(pieces[0]) + PieceBits(pieces[1..])
  }

  /** bsBuff, bsLive and the input of the decompressor: the unread part of this call's
      buffer, and the buffers the caller will bring in later calls. */
  class BitReader {
    var bsBuff: int
    var bsLive: int
    var input: seq<Byte>
    var nextIn: int
    var later: seq<seq<Byte>>
    ghost var pending: seq<bool>

    ghost predicate Valid()
      reads this
    {
      && 0 <= nextIn <= |input| && 0 <= bsBuff
      && 0 <= bsLive <= 32 && |pending| == bsLive && Val(pending) == bsBuff % Pow2(bsLive)
    }

    /** The bits this call can still hand out. */
    ghost function Remaining(): (b: seq<bool>)
      reads this
    {
      pending + if 0 <= nextIn <= |input| then BytesBits(input[nextIn..]) else []
    }

    /** All bits still to come, in this call and in later ones. */
    ghost function Coming(): (b: seq<bool>)
      reads this
    {
      Remaining() + PieceBits(later)
    }

    constructor (pieces: seq<seq<Byte>>)
      ensures Valid() && Coming() == PieceBits(pieces)
    {
      bsBuff, bsLive, input, nextIn, pending, later := 0, 0, [], 0, [], pieces;
    }

    /** The caller comes back with more input, behind what it had left unread. */
    method NextCall()
      requires Valid() && later != []
      modifies this`input, this`nextIn, this`later
      ensures Valid() && Coming() == old(Coming()) && later == old(later)[1..]
      ensures Remaining() == old(Remaining()) + BytesBits(old(later)[0])
    {
      hide Val, BytesBits;
      BytesBitsConcat(input[nextIn..], later[0]);
      input := input[nextIn..] + later[0];
      nextIn := 0;
      later := later[1..];
      assert input[0..] == input;
    }

    method Pull()
      requires Valid() && nextIn < |input| && bsLive <= 24
      modifies this`bsBuff, this`bsLive, this`nextIn, this`pending
      ensures Valid() && Remaining() == old(Remaining()) && bsLive == old(bsLive) + 8
      ensures nextIn == old(nextIn) + 1
    {
      hide Val, Pow2, BytesBits, ToBits;
      var x := input[nextIn];
      PullByte(pending, bsBuff, x);
      assert input[nextIn..] == [x] + input[nextIn + 1..];
      BytesBitsConcat([x], input[nextIn + 1..]);
      BytesBitsOne(x);
      bsBuff := (bsBuff * 0x100 + x) % WORD;
      bsLive := bsLive + 8;
      nextIn := nextIn + 1;
      pending := pending + ToBits(x, 8);
    }

    /** GET_BITS: either n bits, or everything stays and more input is needed. */
    method GetBits(n: nat) returns (ok: bool, v: int)
      requires Valid() && n <= 24
      modifies this`bsBuff, this`bsLive, this`nextIn, this`pending
      ensures Valid() && (ok <==> |old(Remaining())| >= n)
      ensures ok ==> v == Val(old(Remaining())[..n]) && Remaining() == old(Remaining())[n..]
      ensures !ok ==> Remaining() == old(Remaining()) && nextIn == |input|
    {
      hide Val, Pow2, BytesBits;
      while bsLive < n
        invariant Valid() && Remaining() == old(Remaining())
        decreases n - bsLive
      {
        if nextIn == |input| {
          assert input[nextIn..] == [];
          return false, 0;
        }
        Pull();
      }
      ghost var p, r := pending, Remaining();
      TakeBits(p, bsBuff, n);
      v := bsBuff / Pow2(bsLive - n) % Pow2(n);
      bsLive := bsLive - n;
      pending := p[n..];
      assert r[..n] == p[..n] && r[n..] == p[n..] + BytesBits(input[nextIn..]);
      ok := true;
    }
  }
}

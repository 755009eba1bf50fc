/** Bit strings of the deflate format: the first bit of a byte is its lowest. */
module LsbBits {
  import opened Bytes
  import opened Bits
  import opened BitReversal

  function Digit(b: bool): nat { if b then 1 else 0 }

  /** The number whose lowest bit comes first. */
  function LowVal(b: seq<bool>): nat {
    if b == [] then 0 else Digit(b[0]) + 2 * LowVal(b[1..])
  }

  function LowBits(v: nat, n: nat): (b: seq<bool>)
    ensures |b| == n
  {
    if n == 0 then [] else [v % 2 == 1] + LowBits(v / 2, n - 1)
  }

  /** Bits of a byte string. */
  function StreamBits(z: seq<Byte>): seq<bool> {
    if z == [] then [] else StreamBits(z[..|z| - 1]) + LowBits(z[|z| - 1], 8)
  }

  lemma {:induction false} StreamSnoc(z: seq<Byte>, x: Byte)
    ensures StreamBits(z + [x]) == StreamBits(z) + LowBits(x, 8)
  {
    hide LowBits;
    assert (z + [x])[..|z|] == z;
  }

  lemma {:induction false} StreamJoined(a: seq<Byte>, b: seq<Byte>)
    ensures StreamBits(a + b) == StreamBits(a) + StreamBits(b)
    decreases |b|
  {
    hide LowBits;
    if b == [] {
      assert a + b == a;
      assert StreamBits(a) + [] == StreamBits(a);
    } else {
      var c, x := b[..|b| - 1], b[|b| - 1];
      StreamJoined(a, c);
      assert a + b == a + c + [x];
      StreamSnoc(a + c, x);
      assert StreamBits(a) + (StreamBits(c) + LowBits(x, 8)) == StreamBits(a) + StreamBits(c) + LowBits(x, 8);
    }
  }

  lemma {:induction false} StreamOne(x: Byte)
    ensures StreamBits([x]) == LowBits(x, 8)
  {
    hide LowBits;
    StreamSnoc([], x);
    assert [] + [x] == [x];
    assert [] + LowBits(x, 8) == LowBits(x, 8);
  }

  lemma {:induction false} LowBound(b: seq<bool>)
    ensures LowVal(b) < Pow2(|b|)
  {
    if b != [] { LowBound(b[1..]); }
  }

  lemma {:induction false} ValOfLow(v: nat, n: nat)
    requires v < Pow2(n)
    ensures LowVal(LowBits(v, n)) == v
  {
    if n > 0 {
      ValOfLow(v / 2, n - 1);
      assert LowBits(v, n)[1..] == LowBits(v / 2, n - 1);
    }
  }

  lemma {:induction false} LowOfVal(b: seq<bool>)
    ensures LowBits(LowVal(b), |b|) == b
  {
    if b != [] {
      LowOfVal(b[1..]);
      assert b == [b[0]] + b[1..];
      HalfOf(LowVal(b[1..]), b[0]);
    }
  }

  lemma HalfOf(v: nat, b: bool)
    ensures (Digit(b) + 2 * v) / 2 == v && (((Digit(b) + 2 * v) % 2 == 1) <==> b)
  {
  }

  lemma {:induction false} LowJoined(a: seq<bool>, b: seq<bool>)
    ensures LowVal(a + b) == LowVal(a) + Pow2(|a|) * LowVal(b)
  {
    if a == [] {
      assert a + b == b;
      assert Pow2(0) * LowVal(b) == LowVal(b);
    } else {
      LowJoined(a[1..], b);
      assert (a + b)[1..] == a[1..] + b;
      TwiceFactor(Pow2(|a| - 1), LowVal(b));
    }
  }

  lemma TwiceFactor(p: nat, v: nat)
    ensures 2 * (p * v) == 2 * p * v
  {
  }

  lemma {:induction false} LowSplit(b: seq<bool>, n: nat)
    requires n <= |b|
    ensures Pow2(n) > 0 && LowVal(b[..n]) == LowVal(b) % Pow2(n) && LowVal(b[n..]) == LowVal(b) / Pow2(n)
  {
    hide LowVal, Pow2;
    assert b == b[..n] + b[n..];
    LowJoined(b[..n], b[n..]);
    LowBound(b[..n]);
    SwapFactor(Pow2(n), LowVal(b[n..]));
    DivModUnique(LowVal(b), Pow2(n), LowVal(b[n..]), LowVal(b[..n]));
  }

  lemma SwapFactor(p: nat, v: nat)
    ensures p * v == v * p
  {
  }

  /** Bits above the top one. */
  lemma {:induction false} LowSnoc(x: nat, n: nat, bit: nat)
    requires x < Pow2(n) && bit < 2
    ensures LowBits(bit * Pow2(n) + x, n + 1) == LowBits(x, n) + [bit == 1]
  {
    if n == 0 {
      assert LowBits(bit, 1) == [bit % 2 == 1] + LowBits(bit / 2, 0);
    } else {
      var y := bit * Pow2(n) + x;
      TwiceFactor(Pow2(n - 1), bit);
      assert y == 2 * (bit * Pow2(n - 1)) + x;
      assert y / 2 == bit * Pow2(n - 1) + x / 2 && y % 2 == x % 2;
      LowSnoc(x / 2, n - 1, bit);
      assert [x % 2 == 1] + (LowBits(x / 2, n - 1) + [bit == 1]) == [x % 2 == 1] + LowBits(x / 2, n - 1) + [bit == 1];
    }
  }

  /** A reversed code sent from its lowest bit is the code from its highest. */
  lemma {:induction false} ReversedCode(v: nat, n: nat)
    ensures LowBits(Rev(v, n), n) == ToBits(v, n)
  {
    if n > 0 {
      ReversedCode(v / 2, n - 1);
      RevBound(v / 2, n - 1);
      LowSnoc(Rev(v / 2, n - 1), n - 1, v % 2);
    }
  }
}

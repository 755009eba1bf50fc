/** Bit strings, most significant bit first, and their numeric values. */
module Bits {
  import opened Bytes

  function Pow2(n: nat): (p: nat)
    ensures p >= 1
  {
    if n == 0 then 1 else 2 * Pow2(n - 1)
  }

  lemma {:induction false} Pow2Add(m: nat, n: nat)
    ensures Pow2(m + n) == Pow2(m) * Pow2(n)
  {
    if m > 0 {
      Pow2Add(m - 1, n);
      assert Pow2(m + n) == 2 * Pow2(m - 1 + n);
    }
  }

  lemma Pow2Values()
    ensures Pow2(8) == 0x100 && Pow2(24) == 0x100_0000 && Pow2(32) == 0x1_0000_0000
  {
    assert Pow2(4) == 16;
    assert Pow2(8) == 256 by { Pow2Add(4, 4); }
    assert Pow2(16) == 65536 by { Pow2Add(8, 8); }
    assert Pow2(24) == 0x100_0000 by { Pow2Add(16, 8); }
    assert Pow2(32) == 0x1_0000_0000 by { Pow2Add(16, 16); }
  }

  function Val(b: seq<bool>): (v: nat)
    ensures v < Pow2(|b|)
  {
    if b == [] then 0 else 2 * Val(b[..|b| - 1]) + if b[|b| - 1] then 1 else 0
  }

  function ToBits(v: nat, n: nat): (b: seq<bool>)
    ensures |b| == n
  {
    if n == 0 then [] else ToBits(v / 2, n - 1) + [v % 2 == 1]
  }

  lemma {:induction false} ValOfBits(v: nat, n: nat)
    requires v < Pow2(n)
    ensures Val(ToBits(v, n)) == v
  {
    if n > 0 {
      ValOfBits(v / 2, n - 1);
      assert ToBits(v, n)[..n - 1] == ToBits(v / 2, n - 1);
    }
  }

  lemma {:induction false} BitsOfVal(b: seq<bool>)
    ensures ToBits(Val(b), |b|) == b
  {
    if b != [] {
      BitsOfVal(b[..|b| - 1]);
      assert b == b[..|b| - 1] + [b[|b| - 1]];
    }
  }

  lemma {:induction false} ValSnoc(b: seq<bool>, x: bool)
    ensures Val(b + [x]) == 2 * Val(b) + if x then 1 else 0
  {
    assert (b + [x])[..|b|] == b;
  }

  lemma DoubleFactor(x: int, y: int)
    ensures 2 * (x * y) == x * (2 * y)
  {
  }

  lemma {:induction false} ValConcat(a: seq<bool>, b: seq<bool>)
    ensures Val(a + b) == Val(a) * Pow2(|b|) + Val(b)
    decreases |b|
  {
    if b == [] {
      assert a + b == a;
    } else {
      var c, x := b[..|b| - 1], b[|b| - 1];
      ValConcat(a, c);
      ValSnoc(a + c, x);
      ValSnoc(c, x);
      assert b == c + [x] && a + b == a + c + [x];
      DoubleFactor(Val(a), Pow2(|c|));
    }
  }

  /** Leading bits are the quotient. */
  lemma {:induction false} ValPrefix(b: seq<bool>, k: nat)
    requires k <= |b|
    ensures Val(b[..k]) == Val(b) / Pow2(|b| - k)
    ensures Val(b[k..]) == Val(b) % Pow2(|b| - k)
  {
    assert b == b[..k] + b[k..];
    ValConcat(b[..k], b[k..]);
    DivModUnique(Val(b), Pow2(|b| - k), Val(b[..k]), Val(b[k..]));
  }

  lemma Multiple(k: int, d: int)
    requires d > 0
    ensures k >= 1 ==> k * d >= d
    ensures k <= -1 ==> k * d <= -d
  {
    if k >= 1 { assert (k - 1) * d >= 0; }
    if k <= -1 { assert (-1 - k) * d >= 0; }
  }

  lemma Distribute(a: int, b: int, d: int)
    ensures (a - b) * d == a * d - b * d
    ensures (a + b) * d == a * d + b * d
  {
  }

  lemma DivModUnique(x: int, d: int, q: int, r: int)
    requires d > 0 && 0 <= r < d && x == q * d + r
    ensures x / d == q && x % d == r
  {
    var q1, r1 := x / d, x % d;
    assert x == q1 * d + r1;
    Distribute(q, q1, d);
    Multiple(q - q1, d);
  }

  /** The bits of whole bytes, in stream order. */
  function BytesBits(s: seq<Byte>): (b: seq<bool>)
    ensures |b| == 8 * |s|
  {
    if s == [] then [] else BytesBits(s[..|s| - 1]) + ToBits(s[|s| - 1], 8)
  }

  lemma {:induction false} BytesBitsConcat(s: seq<Byte>, t: seq<Byte>)
    ensures BytesBits(s + t) == BytesBits(s) + BytesBits(t)
    decreases |t|
  {
    if t == [] {
      assert s + t == s;
    } else {
      var u := t[..|t| - 1];
      BytesBitsConcat(s, u);
      assert (s + t)[..|s + t| - 1] == s + u;
      assert BytesBits(s + t) == BytesBits(s) + BytesBits(u) + ToBits(t[|t| - 1], 8);
    }
  }

  lemma {:induction false} BytesBitsOne(x: Byte)
    ensures BytesBits([x]) == ToBits(x, 8)
  {
    assert [x][..0] == [];
  }
}

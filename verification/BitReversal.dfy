/** Codes with their bits in reverse order: bi_reverse of trees.c, and the backwards counting
    of inflate_table. */
module BitReversal {
  import opened Bits

  /** The low n bits of v in reverse order. */
  function Rev(v: nat, n: nat): nat {
    if n == 0 then 0 else v % 2 * Pow2(n - 1) + Rev(v / 2, n - 1)
  }

  lemma {:induction false} RevBound(v: nat, n: nat)
    ensures Rev(v, n) < Pow2(n)
  {
    if n > 0 {
      RevBound(v / 2, n - 1);
      TwiceOrNot(v % 2, Pow2(n - 1));
    }
  }

  lemma TwiceOrNot(bit: nat, p: nat)
    requires bit < 2
    ensures bit * p == if bit == 1 then p else 0
  {
  }

  lemma {:induction false} DivDiv(v: nat, p: nat)
    requires p > 0
    ensures v / 2 / p == v / (2 * p)
  {
    var q, r := v / 2 / p, v / 2 % p;
    assert v == 2 * (q * p + r) + v % 2;
    assert 2 * (q * p) == q * (2 * p);
    DivModUnique(v, 2 * p, q, 2 * r + v % 2);
  }

  lemma MultipleMod(k: nat, p: nat, x: nat)
    requires p > 0
    ensures (k * p + x) % p == x % p && (k * p + x) / p == k + x / p
  {
    var q := x / p;
    assert k * p + x == (k + q) * p + x % p;
    DivModUnique(k * p + x, p, k + q, x % p);
  }

  lemma SmallMod(x: nat, p: nat)
    requires x < p
    ensures x % p == x && x / p == 0
  {
  }

  lemma RevStep(v: nat, n: nat)
    requires n > 0
    ensures Rev(v, n) == v % 2 * Pow2(n - 1) + Rev(v / 2, n - 1)
  {
  }

  /** The low bits of the reversal are the reversed leading bits. */
  lemma {:induction false} RevLow(v: nat, n: nat, m: nat)
    requires m <= n
    ensures Rev(v, n) % Pow2(m) == Rev(v / Pow2(n - m), m)
  {
    hide Pow2, Rev;
    if m == n {
      RevBound(v, n);
      PowZero();
      SmallMod(Rev(v, n), Pow2(n));
    } else {
      RevLow(v / 2, n - 1, m);
      RevStep(v, n);
      PowSplit(n - 1, m);
      LowOfSum(v % 2, Pow2(n - 1), Pow2(n - 1 - m), Pow2(m), Rev(v / 2, n - 1));
      PowSucc(n - 1 - m);
      DivDiv(v, Pow2(n - 1 - m));
    }
  }

  lemma LowOfSum(bit: nat, p: nat, a: nat, m: nat, x: nat)
    requires p == a * m && m > 0
    ensures (bit * p + x) % m == x % m
  {
    Reassociate(bit, a, m);
    MultipleMod(bit * a, m, x);
  }

  lemma PowZero()
    ensures Pow2(0) == 1
  {
  }

  lemma PowSucc(n: nat)
    ensures Pow2(n + 1) == 2 * Pow2(n)
  {
  }

  lemma PowSplit(n: nat, m: nat)
    requires m <= n
    ensures Pow2(n) == Pow2(n - m) * Pow2(m)
  {
    Pow2Add(n - m, m);
  }

  lemma Reassociate(a: nat, b: nat, c: nat)
    ensures a * b * c == a * (b * c)
  {
  }

  lemma RevOfTwice(x: nat, n: nat)
    ensures Rev(2 * x, n + 1) == Rev(x, n)
  {
  }

  lemma TwiceProduct(v: nat, p: nat)
    ensures v * (2 * p) == 2 * (v * p)
  {
  }

  /** Zeros appended to a code are zeros above its reversal. */
  lemma {:induction false} RevShift(v: nat, n: nat, d: nat)
    ensures Rev(v * Pow2(d), n + d) == Rev(v, n)
  {
    hide Rev, Pow2;
    if d == 0 {
      PowZero();
    } else {
      RevShift(v, n, d - 1);
      PowSucc(d - 1);
      TwiceProduct(v, Pow2(d - 1));
      RevOfTwice(v * Pow2(d - 1), n + d - 1);
    }
  }

  lemma HalvesEqual(v: nat, w: nat)
    requires v / 2 == w / 2 && v % 2 == w % 2
    ensures v == w
  {
  }

  lemma {:induction false} RevInjective(v: nat, w: nat, n: nat)
    requires v < Pow2(n) && w < Pow2(n) && Rev(v, n) == Rev(w, n)
    ensures v == w
  {
    if n > 0 {
      RevBound(v / 2, n - 1);
      RevBound(w / 2, n - 1);
      TwiceOrNot(v % 2, Pow2(n - 1));
      TwiceOrNot(w % 2, Pow2(n - 1));
      RevInjective(v / 2, w / 2, n - 1);
      HalvesEqual(v, w);
    }
  }

  /** The reversal seen from the leading bit. */
  lemma {:induction false} RevFromTop(v: nat, n: nat)
    requires n > 0 && v < Pow2(n)
    ensures Rev(v, n) == 2 * Rev(v % Pow2(n - 1), n - 1) + v / Pow2(n - 1)
  {
    if n == 1 {
    } else {
      var p := Pow2(n - 2);
      RevFromTop(v / 2, n - 1);
      DivDiv(v, p);
      LowHalf(v, p);
      var low := v % (2 * p);
      assert low % 2 == v % 2 && low / 2 == v / 2 % p;
      assert Rev(low, n - 1) == low % 2 * p + Rev(low / 2, n - 2);
      TwiceOrNot(v % 2, p);
      TwiceOrNot(v % 2, 2 * p);
    }
  }

  lemma LowHalf(v: nat, p: nat)
    requires p > 0
    ensures v % (2 * p) / 2 == v / 2 % p && v % (2 * p) % 2 == v % 2
  {
    var q, r := v / 2 / p, v / 2 % p;
    assert v == 2 * (q * p + r) + v % 2;
    assert 2 * (q * p) == q * (2 * p);
    DivModUnique(v, 2 * p, q, 2 * r + v % 2);
  }

  lemma {:induction false} RevTwice(v: nat, n: nat)
    requires v < Pow2(n)
    ensures Rev(Rev(v, n), n) == v
  {
    if n > 0 {
      var p := Pow2(n - 1);
      RevTwice(v / 2, n - 1);
      RevBound(v / 2, n - 1);
      RevBound(v, n);
      RevFromTop(Rev(v, n), n);
      MultipleMod(v % 2, p, Rev(v / 2, n - 1));
      SmallMod(Rev(v / 2, n - 1), p);
    }
  }

  /** What the bits collected so far and the code still to be read stand for. */
  ghost function Pending(collected: nat, code: nat, len: nat): nat {
    collected * Pow2(len) + Rev(code, len)
  }

  lemma {:induction false} PendingStep(x: nat, code: nat, len: nat)
    requires len >= 1
    ensures Pending(x, code, len) == Pending(2 * x + code % 2, code / 2, len - 1)
  {
    var p := Pow2(len - 1);
    TwiceProduct(x, p);
    Distribute(2 * x, code % 2, p);
  }

  lemma PendingEnds(x: nat, code: nat, len: nat)
    ensures Pending(0, code, len) == Rev(code, len) && Pending(x, code, 0) == x
  {
  }

  /** bi_reverse: the result collects the bits from the low end of the code. */
  method BiReverse(code0: nat, len0: nat) returns (r: nat)
    requires len0 >= 1
    ensures r == Rev(code0, len0)
  {
    hide Pending, Rev;
    var res: nat, code: nat, len: nat := 0, code0, len0;
    PendingEnds(0, code, len);
    while true
      invariant 1 <= len && res % 2 == 0 && Pending(res / 2, code, len) == Rev(code0, len0)
      decreases len
    {
      PendingStep(res / 2, code, len);
      res := res + code % 2;
      code, res := code / 2, res * 2;
      len := len - 1;
      if len == 0 { break; }
    }
    PendingEnds(res / 2, code, len);
    r := res / 2;
  }

  // ---- counting backwards ----

  /** The reversed code after huff, as the loop of inflate_table finds it. */
  function Next(huff: nat, n: nat): nat {
    if n == 0 then 0
    else if huff / Pow2(n - 1) % 2 == 0 then huff % Pow2(n - 1) + Pow2(n - 1)
    else Next(huff % Pow2(n - 1), n - 1)
  }

  /** Backwards counting is counting. */
  lemma {:induction false} NextIsNext(c: nat, n: nat)
    requires c < Pow2(n)
    ensures Next(Rev(c, n), n) == Rev(c + 1, n)
  {
    if n > 0 {
      var p, low := Pow2(n - 1), Rev(c / 2, n - 1);
      RevBound(c / 2, n - 1);
      MultipleMod(c % 2, p, low);
      SmallMod(low, p);
      if c % 2 == 0 {
        assert (c + 1) / 2 == c / 2 && (c + 1) % 2 == 1;
      } else {
        assert (c + 1) / 2 == c / 2 + 1 && (c + 1) % 2 == 0;
        NextIsNext(c / 2, n - 1);
      }
    }
  }

  lemma {:induction false} RevOfPow(n: nat)
    ensures Rev(Pow2(n), n) == 0
  {
    RevLow(Pow2(n), n, 0);
    if n > 0 {
      assert Pow2(n) / 2 == Pow2(n - 1);
      RevOfPow(n - 1);
    }
  }

  lemma NextStep(huff: nat, n: nat)
    ensures n == 0 ==> Next(huff, n) == 0
    ensures n > 0 && huff / Pow2(n - 1) % 2 == 0 ==> Next(huff, n) == huff % Pow2(n - 1) + Pow2(n - 1)
    ensures n > 0 && huff / Pow2(n - 1) % 2 == 1 ==> Next(huff, n) == Next(huff % Pow2(n - 1), n - 1)
  {
  }

  /** The increment of inflate_table. */
  method Increment(huff0: nat, len: nat) returns (huff: nat)
    requires len >= 1 && huff0 < Pow2(len)
    ensures huff == Next(huff0, len)
  {
    hide Pow2, Next;
    huff := huff0;
    var bit: nat := len;
    SmallMod(huff, Pow2(len));
    while bit > 0 && huff / Pow2(bit - 1) % 2 == 1
      invariant 0 <= bit <= len && Next(huff0, len) == Next(huff % Pow2(bit), bit) && huff == huff0
    {
      TopBit(huff, bit);
      NextStep(huff % Pow2(bit), bit);
      bit := bit - 1;
    }
    NextStep(huff % Pow2(bit), bit);
    if bit > 0 {
      TopBit(huff, bit);
      huff := huff % Pow2(bit - 1) + Pow2(bit - 1);
    } else {
      huff := 0;
    }
  }

  lemma TopBit(huff: nat, bit: nat)
    requires bit > 0
    ensures huff % Pow2(bit) / Pow2(bit - 1) % 2 == huff / Pow2(bit - 1) % 2
    ensures huff % Pow2(bit) % Pow2(bit - 1) == huff % Pow2(bit - 1)
  {
    var p := Pow2(bit - 1);
    var q, r := huff / p, huff % p;
    assert huff == q / 2 * (2 * p) + (q % 2 * p + r);
    TwiceOrNot(q % 2, p);
    DivModUnique(huff, 2 * p, q / 2, q % 2 * p + r);
    DivModUnique(q % 2 * p + r, p, q % 2, r);
  }
}

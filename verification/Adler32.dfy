/** adler32.c: sums reduced only now and then, and the checksum of two strings put together. */
module Adler32 {
  import opened Bytes

  const BASE: int := 65521
  const NMAX: int := 5552

  /** The two sums of section 2.2 of RFC 1950. */
  datatype Sums = Sums(s1: int, s2: int)

  ghost predicate Reduced(s: Sums) {
    0 <= s.s1 < BASE && 0 <= s.s2 < BASE
  }

  function Add(s: Sums, x: Byte): Sums {
    var s1 := (s.s1 + x) % BASE;
    Sums(s1, (s.s2 + s1) % BASE)
  }

  /** The definition: both sums are reduced after every byte. */
  function AddAll(s: Sums, buf: seq<Byte>): Sums {
    if buf == [] then s else Add(AddAll(s, buf[..|buf| - 1]), buf[|buf| - 1])
  }

  function Packed(s: Sums): int {
    s.s1 + 0x1_0000 * s.s2
  }

  /** The checksum of a string: the sums start at 1 and 0. */
  function Checksum(buf: seq<Byte>): int {
    Packed(AddAll(Sums(1, 0), buf))
  }

  function Unpacked(adler: Word): Sums {
    Sums(adler % 0x1_0000, adler / 0x1_0000)
  }

  lemma UnpackPacked(s: Sums)
    requires Reduced(s)
    ensures 0 <= Packed(s) < 0x1_0000_0000 && Unpacked(Packed(s)) == s
  {
  }

  lemma {:induction false} AddAllReduced(s: Sums, buf: seq<Byte>)
    requires Reduced(s)
    ensures Reduced(AddAll(s, buf))
  {
    if buf != [] { AddAllReduced(s, buf[..|buf| - 1]); }
  }

  lemma {:induction false} AddAllJoined(s: Sums, a: seq<Byte>, b: seq<Byte>)
    ensures AddAll(s, a + b) == AddAll(AddAll(s, a), b)
    decreases |b|
  {
    if b == [] {
      assert a + b == a;
    } else {
      AddAllJoined(s, a, b[..|b| - 1]);
      assert (a + b)[..|a + b| - 1] == a + b[..|b| - 1];
    }
  }

  // ---- deferred reduction ----

  /** Unreduced sums that stand for s. */
  ghost predicate StandsFor(adler: int, sum2: int, s: Sums) {
    adler % BASE == s.s1 && sum2 % BASE == s.s2
  }

  lemma StandsStep(adler: int, sum2: int, s: Sums, x: Byte)
    requires StandsFor(adler, sum2, s)
    ensures StandsFor(adler + x, sum2 + (adler + x), Add(s, x))
  {
  }

  /** What sum2 can reach in n steps from reduced sums. */
  function Most(n: nat): int {
    255 * n * (n + 1) / 2 + (n + 1) * (BASE - 1)
  }

  lemma MostStep(n: nat)
    ensures Most(n + 1) == Most(n) + 255 * (n + 1) + (BASE - 1)
  {
    assert (n + 1) * (n + 2) == n * (n + 1) + 2 * (n + 1);
    assert 255 * (n + 1) * (n + 2) == 255 * n * (n + 1) + 2 * (255 * (n + 1));
  }

  lemma {:induction false} MostGrows(m: nat, n: nat)
    requires m <= n
    ensures Most(m) <= Most(n)
    decreases n
  {
    hide Most;
    if m < n {
      MostGrows(m, n - 1);
      MostStep(n - 1);
    }
  }

  /** NMAX is the largest number of steps whose sums fit 32 bits. */
  lemma {:induction false} NmaxIsLargest(n: nat)
    ensures Most(n) <= 0xffff_ffff <==> n <= NMAX
  {
    if n <= NMAX { MostGrows(n, NMAX); } else { MostGrows(NMAX + 1, n); }
  }

  /** The sums of n bytes from position pos on, k steps after the last reduction; every
      value fits an unsigned 32-bit integer. */
  method Accumulate(buf: seq<Byte>, pos: nat, n: nat, adler0: Word, sum0: Word, ghost k: nat, ghost s: Sums)
    returns (adler: Word, sum2: Word)
    requires pos + n <= |buf| && k + n <= NMAX
    requires StandsFor(adler0, sum0, AddAll(s, buf[..pos])) && adler0 <= BASE - 1 + 255 * k && sum0 <= Most(k)
    ensures StandsFor(adler, sum2, AddAll(s, buf[..pos + n]))
    ensures adler <= BASE - 1 + 255 * (k + n) && sum2 <= Most(k + n)
  {
    hide StandsFor, Most, Add;
    adler, sum2 := adler0, sum0;
    for i := 0 to n
      invariant StandsFor(adler, sum2, AddAll(s, buf[..pos + i]))
      invariant adler <= BASE - 1 + 255 * (k + i) && sum2 <= Most(k + i)
    {
      NmaxIsLargest(k + i + 1);
      MostStep(k + i);
      assert buf[..pos + i + 1][..pos + i] == buf[..pos + i];
      StandsStep(adler, sum2, AddAll(s, buf[..pos + i]), buf[pos + i]);
      adler := adler + buf[pos + i];
      sum2 := sum2 + adler;
    }
  }

  lemma StandsReduced(adler: int, sum2: int, s: Sums)
    requires StandsFor(adler, sum2, s)
    ensures StandsFor(adler % BASE, sum2 % BASE, s) && s == Sums(adler % BASE, sum2 % BASE)
  {
  }

  /** One byte needs no division. */
  method AddOne(s: Sums, x: Byte) returns (adler: Word, sum2: Word)
    requires Reduced(s)
    ensures Sums(adler, sum2) == Add(s, x)
  {
    adler := s.s1 + x;
    if adler >= BASE { adler := adler - BASE; }
    sum2 := s.s2 + adler;
    if sum2 >= BASE { sum2 := sum2 - BASE; }
  }

  lemma MostNone()
    ensures Most(0) == BASE - 1
  {
  }

  /** NMAX bytes between two reductions, sixteen at a time. */
  method AddBlocks(buf: seq<Byte>, adler0: Word, sum0: Word, ghost s: Sums) returns (adler: Word, sum2: Word, pos: nat)
    requires StandsFor(adler0, sum0, s) && adler0 < BASE && sum0 < BASE
    ensures pos <= |buf| && |buf| - pos < NMAX && adler < BASE && sum2 < BASE
    ensures StandsFor(adler, sum2, AddAll(s, buf[..pos]))
  {
    hide StandsFor, AddAll, Add, Most;
    adler, sum2, pos := adler0, sum0, 0;
    NothingAdded(s, buf);
    MostNone();
    while |buf| - pos >= NMAX
      invariant pos <= |buf| && adler < BASE && sum2 < BASE && StandsFor(adler, sum2, AddAll(s, buf[..pos]))
    {
      ghost var start := pos;
      for n := 0 to NMAX / 16
        invariant pos == start + 16 * n && pos <= |buf| && start + NMAX <= |buf|
        invariant StandsFor(adler, sum2, AddAll(s, buf[..pos])) && adler <= BASE - 1 + 255 * (16 * n)
            && sum2 <= Most(16 * n)
      {
        adler, sum2 := Accumulate(buf, pos, 16, adler, sum2, 16 * n, s);
        pos := pos + 16;
      }
      StandsReduced(adler, sum2, AddAll(s, buf[..pos]));
      adler, sum2 := adler % BASE, sum2 % BASE;
    }
  }

  lemma {:induction false} NothingAdded(s: Sums, buf: seq<Byte>)
    ensures AddAll(s, buf[..0]) == s && buf[..|buf|] == buf
  {
  }

  /** adler32_z: whatever the length, the deferred sums give the checksum's definition. */
  method Adler32z(adler: Word, buf: seq<Byte>) returns (r: Word)
    requires Reduced(Unpacked(adler))
    ensures r == Packed(AddAll(Unpacked(adler), buf))
  {
    hide StandsFor, AddAll, Add, Packed, Most;
    var s := Unpacked(adler);
    var a: Word, sum2: Word := s.s1, s.s2;
    AddAllReduced(s, buf);
    UnpackPacked(AddAll(s, buf));
    NothingAdded(s, buf);
    StandsStart(s);
    MostNone();
    if |buf| == 1 {
      a, sum2 := AddOne(s, buf[0]);
      SingleByte(s, buf);
      return Packed(Sums(a, sum2));
    }
    if |buf| < 16 {
      a, sum2 := Accumulate(buf, 0, |buf|, a, sum2, 0, s);
      StandsReduced(a, sum2, AddAll(s, buf));
      if a >= BASE { a := a - BASE; }
      sum2 := sum2 % BASE;
      return Packed(Sums(a, sum2));
    }
    var pos;
    a, sum2, pos := AddBlocks(buf, a, sum2, s);
    if pos < |buf| {
      ghost var start := pos;
      while |buf| - pos >= 16
        invariant start <= pos <= |buf| && pos - start <= NMAX && |buf| - start < NMAX
        invariant StandsFor(a, sum2, AddAll(s, buf[..pos])) && a <= BASE - 1 + 255 * (pos - start)
            && sum2 <= Most(pos - start)
      {
        a, sum2 := Accumulate(buf, pos, 16, a, sum2, pos - start, s);
        pos := pos + 16;
      }
      a, sum2 := Accumulate(buf, pos, |buf| - pos, a, sum2, pos - start, s);
      StandsReduced(a, sum2, AddAll(s, buf));
      a, sum2 := a % BASE, sum2 % BASE;
    } else {
      StandsReduced(a, sum2, AddAll(s, buf));
    }
    r := Packed(Sums(a, sum2));
  }

  lemma StandsStart(s: Sums)
    requires Reduced(s)
    ensures StandsFor(s.s1, s.s2, s)
  {
  }

  lemma SingleByte(s: Sums, buf: seq<Byte>)
    requires |buf| == 1
    ensures AddAll(s, buf) == Add(s, buf[0])
  {
    assert buf[..0] == [];
  }

  // ---- concatenation ----

  function Sum(buf: seq<Byte>): int {
    if buf == [] then 0 else Sum(buf[..|buf| - 1]) + buf[|buf| - 1]
  }

  /** Each byte counted once for every position from its own to the end. */
  function Weighted(buf: seq<Byte>): int {
    if buf == [] then 0 else Weighted(buf[..|buf| - 1]) + Sum(buf)
  }

  /** What the second sum becomes over n bytes with this weighted sum. */
  function Second(s: Sums, n: nat, weighted: int): int {
    s.s2 + n * s.s1 + weighted
  }

  lemma SecondStep(s: Sums, n: nat, sum: int, weighted: int, x: int)
    ensures Second(s, n + 1, weighted + (sum + x)) == Second(s, n, weighted) + (s.s1 + sum + x)
  {
  }

  lemma SecondNone(s: Sums)
    ensures Second(s, 0, 0) == s.s2
  {
  }

  /** The sums without any reduction. */
  lemma {:induction false} ClosedForm(s: Sums, buf: seq<Byte>)
    requires Reduced(s)
    ensures StandsFor(s.s1 + Sum(buf), Second(s, |buf|, Weighted(buf)), AddAll(s, buf))
  {
    hide StandsFor, Second, Add;
    if buf == [] {
      SecondNone(s);
      StandsStart(s);
    } else {
      var m := |buf| - 1;
      ClosedForm(s, buf[..m]);
      SecondStep(s, m, Sum(buf[..m]), Weighted(buf[..m]), buf[m]);
      StandsStep(s.s1 + Sum(buf[..m]), Second(s, m, Weighted(buf[..m])), AddAll(s, buf[..m]), buf[m]);
    }
  }

  /** The sums of two strings put together, from their own sums and the second length. */
  function Joined(x: Sums, y: Sums, len2: nat): Sums {
    Sums((x.s1 + y.s1 - 1) % BASE, (x.s2 + y.s2 + len2 * x.s1 - len2) % BASE)
  }

  /** The number that the combination forms before its last reductions. */
  lemma CombineSum(a1: int, b: int, len2: nat)
    ensures ((len2 % BASE * a1) % BASE + b + BASE - len2 % BASE) % BASE == (b + len2 * a1 - len2) % BASE
  {
    var q, rem := len2 / BASE, len2 % BASE;
    SplitProduct(q, rem, a1);
    CombineLinear(rem * a1, q * a1, q, rem, b);
  }

  lemma SplitProduct(q: int, rem: int, a: int)
    ensures (BASE * q + rem) * a == BASE * (q * a) + rem * a
  {
  }

  lemma CombineLinear(product: int, k: int, q: int, rem: int, b: int)
    ensures (product % BASE + b + BASE - rem) % BASE == (b + (BASE * k + product) - (BASE * q + rem)) % BASE
  {
  }

  /** At most two subtractions of BASE bring the first sum into range. */
  method ReduceFirst(sum: int) returns (r: int)
    requires 0 <= sum < 3 * BASE
    ensures r == sum % BASE
  {
    r := sum;
    if r >= BASE { r := r - BASE; }
    if r >= BASE { r := r - BASE; }
  }

  /** One subtraction of twice BASE and one of BASE, the second. */
  method ReduceSecond(sum: int) returns (r: int)
    requires 0 <= sum < 4 * BASE
    ensures r == sum % BASE
  {
    r := sum;
    if r >= 2 * BASE { r := r - 2 * BASE; }
    if r >= BASE { r := r - BASE; }
  }

  /** The product of two reduced numbers fits 32 bits. */
  function Product(x: int, y: int): (z: Word)
    requires 0 <= x < BASE && 0 <= y < BASE
    ensures z == x * y
  {
    ProductFits(x, y);
    x * y
  }

  lemma LargerFactor(x: int, m: int, y: int)
    requires 0 <= y && 0 <= x <= m
    ensures 0 <= x * y <= m * y
  {
    assert (m - x) * y >= 0;
  }

  lemma ProductFits(x: int, y: int)
    requires 0 <= x < BASE && 0 <= y < BASE
    ensures 0 <= x * y <= (BASE - 1) * (BASE - 1)
  {
    LargerFactor(x, BASE - 1, y);
    LargerFactor(y, BASE - 1, BASE - 1);
  }

  lemma {:induction false} SumJoined(a: seq<Byte>, b: seq<Byte>)
    ensures Sum(a + b) == Sum(a) + Sum(b) && Weighted(a + b) == Weighted(a) + |b| * Sum(a) + Weighted(b)
    decreases |b|
  {
    if b == [] {
      assert a + b == a;
    } else {
      var c := b[..|b| - 1];
      SumJoined(a, c);
      assert (a + b)[..|a + b| - 1] == a + c;
      assert |b| * Sum(a) == |c| * Sum(a) + Sum(a);
    }
  }

  /** The joined sums are those of the concatenation. */
  lemma {:induction false} JoinedIsChecksum(a: seq<Byte>, b: seq<Byte>)
    ensures Packed(Joined(AddAll(Sums(1, 0), a), AddAll(Sums(1, 0), b), |b|)) == Checksum(a + b)
  {
    hide *;
    var s := Sums(1, 0);
    SumsOf(a);
    SumsOf(b);
    SumsOf(a + b);
    SumJoined(a, b);
    OneMore(|b|, Sum(a));
    JoinNumbers(AddAll(s, a), AddAll(s, b), AddAll(s, a + b), 1 + Sum(a), |a| + Weighted(a), Sum(b), Weighted(b), |b|);
    ChecksumIs(a + b);
  }

  lemma ChecksumIs(buf: seq<Byte>)
    ensures Checksum(buf) == Packed(AddAll(Sums(1, 0), buf))
  {
  }

  lemma OneMore(n: int, x: int)
    ensures n * (1 + x) == n + n * x
  {
  }

  lemma {:induction false} SumsOf(buf: seq<Byte>)
    ensures AddAll(Sums(1, 0), buf) == Sums((1 + Sum(buf)) % BASE, (|buf| + Weighted(buf)) % BASE)
  {
    hide Sum, Weighted, AddAll;
    ClosedForm(Sums(1, 0), buf);
  }

  lemma JoinNumbers(x: Sums, y: Sums, z: Sums, t: int, u: int, sb: int, wb: int, n: nat)
    requires x == Sums(t % BASE, u % BASE) && y == Sums((1 + sb) % BASE, (n + wb) % BASE)
    requires z == Sums((t + sb) % BASE, (u + n * t + wb) % BASE)
    ensures Joined(x, y, n) == z
  {
    SplitSum(t, n, x.s1);
    JoinLinear(t, u, sb, wb, n * t, n, t / BASE * n);
  }

  lemma SplitSum(t: int, n: int, r: int)
    requires r == t % BASE
    ensures n * t == BASE * (t / BASE * n) + n * r
  {
  }

  lemma JoinLinear(t: int, u: int, sb: int, wb: int, product: int, n: int, k: int)
    ensures (u % BASE + (n + wb) % BASE + (product - BASE * k) - n) % BASE == (u + product + wb) % BASE
    ensures (t % BASE + (1 + sb) % BASE - 1) % BASE == (t + sb) % BASE
  {
  }

  lemma {:induction false} ChecksumSums(buf: seq<Byte>)
    ensures 0 <= Checksum(buf) < 0x1_0000_0000 && Unpacked(Checksum(buf)) == AddAll(Sums(1, 0), buf)
  {
    hide AddAll;
    AddAllReduced(Sums(1, 0), buf);
    UnpackPacked(AddAll(Sums(1, 0), buf));
  }

  /** The arithmetic of adler32_combine_. */
  method CombineSums(x: Sums, y: Sums, len2: nat) returns (z: Sums)
    requires Reduced(x) && Reduced(y)
    ensures z == Joined(x, y, len2)
  {
    var rem := len2 % BASE;
    var sum1 := x.s1;
    var sum2 := Product(rem, sum1);
    CombineSum(sum1, x.s2 + y.s2, len2);
    sum2 := sum2 % BASE;
    sum1 := sum1 + y.s1 + BASE - 1;
    sum2 := sum2 + (x.s2 + y.s2) + BASE - rem;
    sum1 := ReduceFirst(sum1);
    sum2 := ReduceSecond(sum2);
    z := Sums(sum1, sum2);
  }

  lemma {:induction false} CombineMeans(adler1: Word, adler2: Word, a: seq<Byte>, b: seq<Byte>)
    requires adler1 == Checksum(a) && adler2 == Checksum(b)
    ensures Packed(Joined(Unpacked(adler1), Unpacked(adler2), |b|)) == Checksum(a + b)
  {
    hide Checksum, Joined, Packed, Unpacked;
    ChecksumSums(a);
    ChecksumSums(b);
    JoinedIsChecksum(a, b);
  }

  lemma JoinedFits(x: Sums, y: Sums, len2: nat)
    ensures 0 <= Packed(Joined(x, y, len2)) < 0x1_0000_0000
  {
  }

  /** adler32_combine_: the checksums of two strings give the checksum of their concatenation. */
  method Combine(adler1: Word, adler2: Word, len2: int) returns (r: Word)
    requires Reduced(Unpacked(adler1)) && Reduced(Unpacked(adler2))
    ensures len2 < 0 ==> r == 0xffff_ffff
    ensures forall a, b :: adler1 == Checksum(a) && adler2 == Checksum(b) && len2 == |b| ==> r == Checksum(a + b)
  {
    hide *;
    if len2 < 0 { return 0xffff_ffff; }
    JoinedFits(Unpacked(adler1), Unpacked(adler2), len2);
    var z := CombineSums(Unpacked(adler1), Unpacked(adler2), len2);
    r := Packed(z);
    forall a, b | adler1 == Checksum(a) && adler2 == Checksum(b) && len2 == |b| ensures r == Checksum(a + b) {
      CombineMeans(adler1, adler2, a, b);
    }
  }
}

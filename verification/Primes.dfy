/** What the primality test rests on: Euclid's lemma and Fermat's little theorem. */
module Primes {
  import opened Permutations

  ghost predicate Prime(n: nat) {
    n >= 2 && forall d :: 2 <= d < n ==> n % d != 0
  }

  /** a^n */
  function Pow(a: nat, n: nat): nat {
    if n == 0 then 1 else Pow(a, n - 1) * a
  }

  lemma ModMul(a: nat, b: nat, m: nat)
    requires m > 0
    ensures (a % m) * b % m == a * b % m
  {
    var q := a / m;
    assert a * b == (a % m) * b + m * (q * b);
    ModAdd((a % m) * b, q * b, m);
  }

  lemma MultipleFar(m: nat, d: int)
    ensures d >= 1 ==> m * d >= m
    ensures d <= -1 ==> m * d <= 0 - m
  {
  }

  lemma ModAdd(x: int, q: int, m: nat)
    requires m > 0
    ensures (x + m * q) % m == x % m
  {
    var d := (x + m * q) / m - (x / m + q);
    assert m * d == x % m - (x + m * q) % m;
    MultipleFar(m, d);
  }

  /** A prime that divides a product divides a factor. */
  lemma {:induction false} Euclid(p: nat, a: nat, b: nat)
    requires Prime(p) && 0 < a < p && a * b % p == 0
    ensures b % p == 0
    decreases a
  {
    if a == 1 {
      assert a * b == b;
    } else {
      var q, r := p / a, p % a;
      assert r != 0;
      assert r * b == p * b - q * (a * b);
      var c := a * b / p;
      assert a * b == p * c;
      assert q * (p * c) == p * (q * c);
      assert r * b == p * (b - q * c);
      ModAdd(0, b - q * c, p);
      Euclid(p, r, b);
    }
  }

  /** The last of s stands somewhere in t; taking both away leaves the rest equal. */
  lemma Found(s: seq<nat>, t: seq<nat>) returns (k: int)
    requires multiset(s) == multiset(t) && s != []
    ensures 0 <= k < |t| && t[k] == s[|s| - 1]
    ensures multiset(s[..|s| - 1]) == multiset(t[..k] + t[k + 1..])
  {
    var m := |s| - 1;
    Taken(s, m);
    assert s[..m] + s[m + 1..] == s[..m];
    assert s[m] in multiset(t);
    k :| 0 <= k < |t| && t[k] == s[m];
    Taken(t, k);
    Without(multiset(s[..m]), multiset(t[..k] + t[k + 1..]), s[m]);
  }

  lemma Without(a: multiset<nat>, b: multiset<nat>, x: nat)
    requires a + multiset{x} == b + multiset{x}
    ensures a == b
  {
    forall y ensures a[y] == b[y] { assert (a + multiset{x})[y] == (b + multiset{x})[y]; }
  }

  lemma Taken(t: seq<nat>, k: int)
    requires 0 <= k < |t|
    ensures multiset(t) == multiset(t[..k] + t[k + 1..]) + multiset{t[k]}
  {
    assert t == t[..k] + ([t[k]] + t[k + 1..]);
  }

  lemma {:induction false} ProductReordered(s: seq<nat>, t: seq<nat>)
    requires multiset(s) == multiset(t)
    ensures Product(s) == Product(t)
    decreases |s|
  {
    if s == [] {
      assert |multiset(t)| == 0;
    } else {
      var m := |s| - 1;
      var k := Found(s, t);
      ProductReordered(s[..m], t[..k] + t[k + 1..]);
      ProductTaken(t, k);
    }
  }

  function Product(s: seq<nat>): nat {
    if s == [] then 1 else Product(s[..|s| - 1]) * s[|s| - 1]
  }

  lemma {:induction false} ProductTaken(t: seq<nat>, k: int)
    requires 0 <= k < |t|
    ensures Product(t) == Product(t[..k] + t[k + 1..]) * t[k]
  {
    var m := |t| - 1;
    var rest := t[..k] + t[k + 1..];
    if k == m {
      assert rest == t[..m];
    } else {
      ProductTaken(t[..m], k);
      assert rest[..m - 1] == t[..m][..k] + t[..m][k + 1..];
      var x := Product(rest[..m - 1]);
      assert x * t[k] * t[m] == x * t[m] * t[k];
    }
  }

  /** 1, 2, ..., m */
  function UpTo(m: nat): (s: seq<nat>)
    ensures |s| == m && forall i :: 0 <= i < m ==> s[i] == i + 1
  {
    seq(m, i requires 0 <= i => i + 1)
  }

  /** a, 2a, ..., ma modulo p */
  function Multiples(p: nat, a: nat, m: nat): (s: seq<nat>)
    requires p > 0
    ensures |s| == m && forall i :: 0 <= i < m ==> s[i] == a * (i + 1) % p
  {
    seq(m, i requires 0 <= i => a * (i + 1) % p)
  }

  lemma {:induction false} MultiplesProduct(p: nat, a: nat, m: nat)
    requires p > 0
    ensures Product(Multiples(p, a, m)) % p == Pow(a, m) * Product(UpTo(m)) % p
  {
    if m > 0 {
      MultiplesProduct(p, a, m - 1);
      assert Multiples(p, a, m)[..m - 1] == Multiples(p, a, m - 1);
      assert UpTo(m)[..m - 1] == UpTo(m - 1);
      var x, y, f := Product(Multiples(p, a, m - 1)), Pow(a, m - 1), Product(UpTo(m - 1));
      ModProduct(x, a * m, y * f, p);
      Regroup(y, f, a, m);
    }
  }

  lemma Regroup(y: nat, f: nat, a: nat, m: nat)
    ensures (y * f) * (a * m) == (y * a) * (f * m)
  {
  }

  lemma ModProduct(x: nat, b: nat, y: nat, m: nat)
    requires m > 0 && x % m == y % m
    ensures x * (b % m) % m == y * b % m
  {
    ModMul(b, x, m);
    ModMul(x, b, m);
    ModMul(y, b, m);
  }

  lemma MultiplesDiffer(p: nat, a: nat, i: nat, j: nat)
    requires Prime(p) && 0 < a < p && 0 < i < j < p
    ensures a * i % p != a * j % p
  {
    hide Prime;
    if a * i % p == a * j % p {
      SameMultiples(a, i, j, p);
      Euclid(p, a, j - i);
      SmallRemainder(j - i, p);
    }
  }

  lemma SameMultiples(a: nat, i: nat, j: nat, m: nat)
    requires m > 0 && i <= j && a * i % m == a * j % m
    ensures a * (j - i) % m == 0
  {
    var x, y := a * j, a * i;
    MultiplesApart(a, i, j);
    SameRemainder(x, y, m);
  }

  lemma MultiplesApart(a: nat, i: nat, j: nat)
    requires i <= j
    ensures a * i <= a * j && a * j - a * i == a * (j - i)
  {
  }

  lemma SmallRemainder(x: nat, m: nat)
    requires x < m
    ensures x % m == x
  {
  }

  /** The multiples of a are a rearrangement of the numbers below p. */
  lemma {:induction false} MultiplesRearranged(p: nat, a: nat)
    requires Prime(p) && 0 < a < p
    ensures multiset(Multiples(p, a, p - 1)) == multiset(UpTo(p - 1))
  {
    hide Prime;
    AtLeastTwo(p);
    var t := Multiples(p, a, p - 1);
    forall i | 0 <= i < p - 1 ensures 0 < t[i] < p { MultipleNonzero(p, a, i + 1); }
    forall i, j | 0 <= i < j < p - 1 ensures t[i] != t[j] { MultiplesDiffer(p, a, i + 1, j + 1); }
    Rearranged(t, p - 1);
  }

  lemma AtLeastTwo(p: nat)
    requires Prime(p)
    ensures p >= 2
  {
  }

  lemma MultipleNonzero(p: nat, a: nat, i: nat)
    requires Prime(p) && 0 < a < p && 0 < i < p
    ensures 0 < a * i % p < p
  {
    if a * i % p == 0 { Euclid(p, a, i); }
  }

  lemma Rearranged(t: seq<nat>, m: nat)
    requires |t| == m && (forall i :: 0 <= i < m ==> 0 < t[i] <= m) && Distinct(t)
    ensures multiset(t) == multiset(UpTo(m))
  {
    var q := seq(m, i requires 0 <= i < m => t[i] - 1);
    PickMultiset(UpTo(m), q);
    assert Pick(UpTo(m), q) == t;
  }

  /** A number with no prime factor p can be cancelled. */
  lemma {:induction false} CancelFactorial(p: nat, m: nat, b: nat)
    requires Prime(p) && m < p && Product(UpTo(m)) * b % p == 0
    ensures b % p == 0
  {
    if m > 0 {
      assert UpTo(m)[..m - 1] == UpTo(m - 1);
      var f := Product(UpTo(m - 1));
      assert f * m * b == m * (f * b);
      Euclid(p, m, f * b);
      CancelFactorial(p, m - 1, b);
    }
  }

  lemma {:induction false} PowPositive(a: nat, n: nat)
    requires a > 0
    ensures Pow(a, n) > 0
  {
    if n > 0 { PowPositive(a, n - 1); }
  }

  lemma SameRemainder(x: nat, y: nat, m: nat)
    requires m > 0 && y <= x
    ensures x % m == y % m <==> (x - y) % m == 0
  {
    if x % m == y % m {
      assert x - y == m * (x / m - y / m);
      ModAdd(0, x / m - y / m, m);
    } else if (x - y) % m == 0 {
      assert x == y + m * ((x - y) / m);
      ModAdd(y, (x - y) / m, m);
    }
  }

  /** Fermat's little theorem. */
  lemma {:induction false} Fermat(p: nat, a: nat)
    requires Prime(p) && 0 < a < p
    ensures Pow(a, p - 1) % p == 1
  {
    hide *;
    AtLeastTwo(p);
    var f, x := Product(UpTo(p - 1)), Pow(a, p - 1);
    SameProducts(p, a);
    PowPositive(a, p - 1);
    LessOne(x, f, p);
    CancelFactorial(p, p - 1, x - 1);
    OneLeft(x, p);
  }

  lemma OneLeft(x: nat, p: nat)
    requires x > 0 && p > 1 && (x - 1) % p == 0
    ensures x % p == 1
  {
    SameRemainder(x, 1, p);
  }

  lemma {:induction false} SameProducts(p: nat, a: nat)
    requires Prime(p) && 0 < a < p
    ensures p > 0 && Pow(a, p - 1) * Product(UpTo(p - 1)) % p == Product(UpTo(p - 1)) % p
  {
    hide *;
    AtLeastTwo(p);
    MultiplesRearranged(p, a);
    ProductReordered(Multiples(p, a, p - 1), UpTo(p - 1));
    MultiplesProduct(p, a, p - 1);
  }

  lemma LessOne(x: nat, f: nat, p: nat)
    requires x > 0 && p > 0 && x * f % p == f % p
    ensures f * (x - 1) % p == 0
  {
    assert x * f == f * (x - 1) + f;
    SameRemainder(x * f, f, p);
  }
}

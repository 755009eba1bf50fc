/** The Miller-Rabin test of AlgorithmExercise/c/math/13.cpp. */
module MillerRabin {
  import opened Semigroup
  import opened Primes

  /** modulo_multiply */
  function Mult(modulus: nat): (nat, nat) -> nat
    requires modulus > 0
  {
    (n, m) => n * m % modulus
  }

  lemma {:induction false} MultAssociative(n: nat)
    requires n > 0
    ensures Associative(Mult(n))
  {
    forall x: nat, y: nat, z: nat ensures Mult(n)(Mult(n)(x, y), z) ==
        Mult(n)(x, Mult(n)(y, z)) { ThreeFactors(n, x, y, z); }
  }

  lemma ThreeFactors(n: nat, x: nat, y: nat, z: nat)
    requires n > 0
    ensures (x * y % n) * z % n == x * (y * z % n) % n
  {
    ModMul(x * y, z, n);
    ModMul(y * z, x, n);
    Regrouped(x, y, z);
  }

  lemma Regrouped(x: nat, y: nat, z: nat)
    ensures x * y * z == y * z * x
  {
  }

  /** The semigroup power is the power modulo n, and never leaves the residues. */
  lemma {:induction false} PowerIsPow(n: nat, w: nat, q: nat)
    requires 0 < w < n && q > 0
    ensures Power(Mult(n), w, q) == Pow(w, q) % n
  {
    if q == 1 {
      assert Pow(w, 1) == Pow(w, 0) * w == w;
    } else {
      PowerIsPow(n, w, q - 1);
      ModMul(Pow(w, q - 1), w, n);
    }
  }

  lemma {:induction false} PowAdd(a: nat, m: nat, n: nat)
    ensures Pow(a, m + n) == Pow(a, m) * Pow(a, n)
  {
    if n > 0 {
      PowAdd(a, m, n - 1);
      assert Pow(a, m) * Pow(a, n - 1) * a == Pow(a, m) * (Pow(a, n - 1) * a);
    }
  }

  /** w^(2^i * q) modulo n: the value after i squarings. */
  function Squared(n: nat, q: nat, w: nat, i: nat): (x: nat)
    requires n > 0
    ensures x < n
  {
    Pow(w, Pow(2, i) * q) % n
  }

  lemma {:induction false} SquaredStep(n: nat, q: nat, w: nat, i: nat)
    requires n > 0
    ensures Squared(n, q, w, i + 1) == Squared(n, q, w, i) * Squared(n, q, w, i) % n
  {
    var e := Pow(2, i) * q;
    Doubled(q, i);
    PowAdd(w, e, e);
    SquareModulo(Pow(w, e), n);
  }

  lemma {:induction false} Doubled(q: nat, i: nat)
    ensures Pow(2, i + 1) * q == Pow(2, i) * q + Pow(2, i) * q
  {
    TwiceTimes(Pow(2, i), q);
  }

  lemma TwiceTimes(x: nat, q: nat)
    ensures x * 2 * q == x * q + x * q
  {
  }

  lemma SquareModulo(x: nat, n: nat)
    requires n > 0
    ensures x * x % n == (x % n) * (x % n) % n
  {
    SameTwice(x, n);
    ModProduct(x % n, x, x, n);
  }

  lemma SameTwice(x: nat, n: nat)
    requires n > 0
    ensures x % n % n == x % n
  {
  }

  lemma {:induction false} SquaredStart(n: nat, q: nat, w: nat)
    requires n > 0
    ensures Squared(n, q, w, 0) == Pow(w, q) % n
  {
    assert Pow(2, 0) * q == q;
  }

  /** What the test looks for. */
  ghost predicate StrongProbablePrime(n: nat, q: nat, k: nat, w: nat)
    requires n > 1
  {
    Squared(n, q, w, 0) == 1 || Squared(n, q, w, 0) == n - 1 || exists i :: 0 < i < k && Squared(n, q, w, i) == n - 1
  }

  /** Once one, always one. */
  lemma {:induction false} StaysOne(n: nat, q: nat, w: nat, i: nat, j: nat)
    requires n > 1 && Squared(n, q, w, i) == 1 && i <= j
    ensures Squared(n, q, w, j) == 1
  {
    hide Squared;
    if i < j {
      StaysOne(n, q, w, i, j - 1);
      SquaredStep(n, q, w, j - 1);
    }
  }

  /** What is true of every prime: w^(n - 1) is one modulo n, and on the way there by squaring, from
      w^q on, one is only reached from one and from minus one. */
  ghost predicate LikePrime(n: nat, q: nat, k: nat, w: nat)
    requires n > 1
  {
    && Pow(w, n - 1) % n == 1
    && forall j: nat :: j < k && Pow(w, Pow(2, j + 1) * q) % n == 1 ==> Pow(w, Pow(2, j) * q) % n in {1, n - 1}
  }

  /** One step of the squaring reaches one only from one and from minus one. */
  ghost predicate NoOtherRoot(n: nat, q: nat, w: nat, j: nat)
    requires n > 1
  {
    Squared(n, q, w, j + 1) == 1 ==> Squared(n, q, w, j) == 1 || Squared(n, q, w, j) == n - 1
  }

  lemma LikePrimeIs(n: nat, q: nat, k: nat, w: nat)
    requires n > 1 && n - 1 == Pow(2, k) * q
    ensures LikePrime(n, q, k, w) <==> Squared(n, q, w, k) == 1 && forall j: nat :: j < k ==> NoOtherRoot(n, q, w, j)
  {
    hide Pow;
    assert forall j: nat :: Squared(n, q, w, j) == Pow(w, Pow(2, j) * q) % n;
    if LikePrime(n, q, k, w) {
      forall j: nat | j < k ensures NoOtherRoot(n, q, w, j) {}
    }
    if Squared(n, q, w, k) == 1 && forall j: nat :: j < k ==> NoOtherRoot(n, q, w, j) {
      forall j: nat | j < k && Pow(w, Pow(2, j + 1) * q) % n == 1
        ensures Pow(w, Pow(2, j) * q) % n == 1 || Pow(w, Pow(2, j) * q) % n == n - 1
      {
        assert NoOtherRoot(n, q, w, j);
      }
    }
  }

  lemma {:induction false} DownFromRoots(n: nat, q: nat, k: nat, w: nat, i: nat)
    requires n > 1 && i <= k && Squared(n, q, w, i) == 1 && forall j: nat :: j < k ==> NoOtherRoot(n, q, w, j)
    ensures StrongProbablePrime(n, q, k, w)
  {
    hide Squared;
    if i > 0 {
      assert NoOtherRoot(n, q, w, i - 1);
      if Squared(n, q, w, i - 1) == 1 { DownFromRoots(n, q, k, w, i - 1); }
    }
  }

  lemma SquareOfLast(n: nat)
    requires n > 1
    ensures (n - 1) * (n - 1) % n == 1
  {
    assert (n - 1) * (n - 1) == 1 + n * (n - 2);
    ModAdd(1, n - 2, n);
  }

  lemma {:induction false} AfterMinusOne(n: nat, q: nat, k: nat, w: nat, i: nat, j: nat)
    requires n > 2 && i < k && Squared(n, q, w, i) == n - 1
    ensures Squared(n, q, w, k) == 1 && NoOtherRoot(n, q, w, j)
  {
    hide Squared;
    SquareOfLast(n);
    SquaredStep(n, q, w, i);
    StaysOne(n, q, w, i + 1, k);
    if j > i {
      StaysOne(n, q, w, i + 1, j);
    } else if j < i && Squared(n, q, w, j + 1) == 1 {
      StaysOne(n, q, w, j + 1, i);
    }
  }

  /** A strong probable prime is one that cannot be told from a prime by the powers of w. */
  lemma {:induction false} StrongIsLikePrime(n: nat, q: nat, k: nat, w: nat)
    requires n > 1
    ensures n > 2 && k > 0 && n - 1 == Pow(2, k) * q ==>
      (StrongProbablePrime(n, q, k, w) <==> LikePrime(n, q, k, w))
  {
    hide Squared, LikePrime, NoOtherRoot, Pow;
    if n == 2 || k == 0 || n - 1 != Pow(2, k) * q { return; }
    LikePrimeIs(n, q, k, w);
    if StrongProbablePrime(n, q, k, w) {
      if Squared(n, q, w, 0) == 1 {
        StaysOne(n, q, w, 0, k);
        forall j: nat | j < k ensures NoOtherRoot(n, q, w, j) { FromOne(n, q, w, j); }
      } else {
        var i: nat :| i < k && Squared(n, q, w, i) == n - 1;
        AfterMinusOne(n, q, k, w, i, 0);
        forall j: nat | j < k ensures NoOtherRoot(n, q, w, j) { AfterMinusOne(n, q, k, w, i, j); }
      }
    }
    if LikePrime(n, q, k, w) { DownFromRoots(n, q, k, w, k); }
  }

  lemma FromOne(n: nat, q: nat, w: nat, j: nat)
    requires n > 1 && Squared(n, q, w, 0) == 1
    ensures NoOtherRoot(n, q, w, j)
  {
    hide Squared;
    StaysOne(n, q, w, 0, j);
  }

  /** miller_rabin_test decides exactly whether w makes n a strong probable prime: for a splitting of
      n - 1, whether the powers of w tell n from a prime. */
  method MillerRabinTest(n: nat, q: nat, k: nat, w: nat) returns (passes: bool)
    requires 0 < w < n && q > 0
    ensures passes == StrongProbablePrime(n, q, k, w)
    ensures n > 2 && k > 0 && n - 1 == Pow(2, k) * q ==> (passes <==> LikePrime(n, q, k, w))
  {
    hide Squared, LikePrime, Mult, Pow, Power, Associative;
    StrongIsLikePrime(n, q, k, w);
    MultAssociative(n);
    var mmult := Mult(n);
    var x := PowerSemigroup(w, q, mmult);
    PowerIsPow(n, w, q);
    SquaredStart(n, q, w);
    if x == 1 || x == n - 1 { return true; }
    var i := 1;
    while i < k
      invariant i > 0 && x == Squared(n, q, w, i - 1) && x != 1 && x != n - 1
      invariant forall j :: 0 <= j < i ==> Squared(n, q, w, j) != n - 1
      invariant Squared(n, q, w, 0) != 1
    {
      MultAt(n, x);
      SquaredStep(n, q, w, i - 1);
      x := mmult(x, x);
      if x == n - 1 { return true; }
      if x == 1 {
        forall j | i <= j < k ensures Squared(n, q, w, j) == 1 { StaysOne(n, q, w, i, j); }
        return false;
      }
      i := i + 1;
    }
    passes := false;
  }

  lemma MultAt(n: nat, x: nat)
    requires n > 0
    ensures Mult(n)(x, x) == x * x % n
  {
  }

  /** Modulo a prime, one has no square roots but one and minus one. */
  lemma {:induction false} RootsOfOne(p: nat, x: nat)
    requires Prime(p) && x < p && x * x % p == 1
    ensures x == 1 || x == p - 1
  {
    if 1 < x < p - 1 {
      SameRemainder(x * x, 1, p);
      assert (x - 1) * (x + 1) == x * x - 1;
      Euclid(p, x - 1, x + 1);
    }
  }

  lemma {:induction false} DownFromOne(n: nat, q: nat, k: nat, w: nat, i: nat)
    requires Prime(n) && Squared(n, q, w, i) == 1 && i <= k
    ensures StrongProbablePrime(n, q, k, w)
  {
    hide Squared, Prime;
    AtLeastTwo(n);
    if i > 0 {
      SquaredStep(n, q, w, i - 1);
      var x := Squared(n, q, w, i - 1);
      RootsOfOne(n, x);
      if x == 1 { DownFromOne(n, q, k, w, i - 1); }
    }
  }

  /** The test never rejects a prime, whatever the witness and the splitting of n - 1. */
  lemma {:induction false} PrimesPass(n: nat, q: nat, k: nat, w: nat)
    requires Prime(n) && n - 1 == Pow(2, k) * q && 0 < w < n
    ensures StrongProbablePrime(n, q, k, w)
  {
    hide Pow, Prime;
    AtLeastTwo(n);
    Fermat(n, w);
    DownFromOne(n, q, k, w, k);
  }
}

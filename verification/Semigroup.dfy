/** Powers in a semigroup by repeated squaring: power_semigroup and
    power_accumulate_semigroup, for any associative operation. */
module Semigroup {
  ghost predicate Associative<A(!new)>(op: (A, A) -> A) {
    forall x, y, z :: op(op(x, y), z) == op(x, op(y, z))
  }

  /** a combined with itself n times. */
  function Power<A>(op: (A, A) -> A, a: A, n: nat): A
    requires n > 0
  {
    if n == 1 then a else op(Power(op, a, n - 1), a)
  }

  predicate Odd(n: nat) {
    n % 2 == 1
  }

  function Half(n: nat): nat {
    n / 2
  }

  lemma {:induction false} PowerAdd<A(!new)>(op: (A, A) -> A, a: A, m: nat, n: nat)
    requires Associative(op) && m > 0 && n > 0
    ensures Power(op, a, m + n) == op(Power(op, a, m), Power(op, a, n))
  {
    if n > 1 { PowerAdd(op, a, m, n - 1); }
  }

  /** Squaring the base halves the exponent. */
  lemma {:induction false} PowerSquare<A(!new)>(op: (A, A) -> A, a: A, n: nat)
    requires Associative(op) && n > 0
    ensures Power(op, op(a, a), n) == Power(op, a, 2 * n)
  {
    assert Power(op, a, 2) == op(Power(op, a, 1), a);
    if n > 1 {
      PowerSquare(op, a, n - 1);
      PowerAdd(op, a, 2 * (n - 1), 2);
    }
  }

  /** r times the n-th power of a. */
  function Scaled<A>(op: (A, A) -> A, r: A, a: A, n: nat): A {
    if n == 0 then r else op(r, Power(op, a, n))
  }

  lemma {:induction false} ScaledStep<A(!new)>(op: (A, A) -> A, r: A, a: A, n: nat)
    requires Associative(op) && n > 0
    ensures Scaled(op, r, a, n) == Scaled(op, if Odd(n) then op(r, a) else r, op(a, a), Half(n))
  {
    hide Power;
    PowerOne(op, a);
    if n > 1 {
      PowerSquare(op, a, n / 2);
      if Odd(n) { PowerAdd(op, a, 1, n - 1); }
    }
  }

  lemma PowerOne<A>(op: (A, A) -> A, a: A)
    ensures Power(op, a, 1) == a
  {
  }

  method PowerAccumulate<A(!new)>(r0: A, a0: A, n0: nat, op: (A, A) -> A) returns (r: A)
    requires Associative(op)
    ensures r == Scaled(op, r0, a0, n0)
  {
    hide Power, Associative;
    r := r0;
    var a, n := a0, n0;
    if n == 0 { return; }
    while true
      invariant n > 0 && Scaled(op, r, a, n) == Scaled(op, r0, a0, n0)
      decreases n
    {
      ScaledStep(op, r, a, n);
      if Odd(n) {
        r := op(r, a);
        if n == 1 { return; }
      }
      n := Half(n);
      a := op(a, a);
    }
  }

  /** Zero is even for ever: the exponent must be positive. */
  method PowerSemigroup<A(!new)>(a0: A, n0: nat, op: (A, A) -> A) returns (r: A)
    requires Associative(op) && n0 > 0
    ensures r == Power(op, a0, n0)
  {
    hide Power, Associative;
    var a, n := a0, n0;
    while !Odd(n)
      invariant n > 0 && Power(op, a, n) == Power(op, a0, n0)
      decreases n
    {
      PowerSquare(op, a, n / 2);
      a := op(a, a);
      n := Half(n);
    }
    PowerOne(op, a);
    if n == 1 { return a; }
    r := PowerAccumulate(a, op(a, a), Half(n - 1), op);
    PowerSquare(op, a, (n - 1) / 2);
    PowerAdd(op, a, 1, n - 1);
  }
}

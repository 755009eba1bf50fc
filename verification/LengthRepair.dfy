/** The repair of bit length overflow in gen_bitlen of trees.c, on the counts of the levels. */
module LengthRepair {
  import opened Bits

  /** Kraft's sum of bl[b] codes on each level up to k, in units of 2^-m. */
  function LevelKraft(bl: seq<int>, m: nat, k: nat): int
    requires k <= m < |bl|
  {
    if k == 0 then 0 else LevelKraft(bl, m, k - 1) + bl[k] * Pow2(m - k)
  }

  /** Codes on the levels up to k. */
  function Total(bl: seq<int>, k: nat): int
    requires k < |bl|
  {
    if k == 0 then 0 else Total(bl, k - 1) + bl[k]
  }

  ghost predicate NonNegative(bl: seq<int>) {
    forall b :: 0 <= b < |bl| ==> bl[b] >= 0
  }

  lemma {:induction false} KraftUpdate(bl: seq<int>, m: nat, k: nat, i: nat, x: int)
    requires k <= m < |bl| && 0 < i < |bl|
    ensures LevelKraft(bl[i := bl[i] + x], m, k) == LevelKraft(bl, m, k) + if i <= k then x * Pow2(m - i) else 0
    ensures Total(bl[i := bl[i] + x], k) == Total(bl, k) + if i <= k then x else 0
  {
    hide Pow2;
    if k > 0 {
      KraftUpdate(bl, m, k - 1, i, x);
      if i == k { Distribute(bl[i], x, Pow2(m - i)); }
    }
  }

  lemma {:induction false} OnlyLast(bl: seq<int>, m: nat, k: nat)
    requires k <= m < |bl| && forall b :: 1 <= b <= k ==> bl[b] == 0
    ensures LevelKraft(bl, m, k) == 0 && Total(bl, k) == 0
  {
    hide Pow2;
    if k > 0 {
      OnlyLast(bl, m, k - 1);
      NoneOf(Pow2(m - k));
    }
  }

  lemma NoneOf(p: int)
    ensures 0 * p == 0
  {
  }

  lemma SumParts(bl: seq<int>, m: nat)
    requires 0 < m < |bl|
    ensures LevelKraft(bl, m, m) == LevelKraft(bl, m, m - 1) + bl[m] && Total(bl, m) == Total(bl, m - 1) + bl[m]
  {
    assert Pow2(0) == 1;
  }

  /** What is too much: as many codes more than fit, half of what overflows. */
  ghost predicate Excess(bl: seq<int>, m: nat, leaves: int, over: int) {
    && 2 <= m < |bl| && NonNegative(bl) && LevelKraft(bl, m, m) == Pow2(m) + over && Total(bl, m) == leaves <= Pow2(m)
    && 0 <= over <= bl[m]
  }

  /** There is a leaf above the last level: the search stops on level 1 at the latest. */
  lemma {:induction false} SomeLeafAbove(bl: seq<int>, m: nat, leaves: int, over: int)
    requires Excess(bl, m, leaves, over) && over > 0
    ensures exists b :: 1 <= b < m && bl[b] != 0
  {
    hide Pow2, LevelKraft, Total;
    SumParts(bl, m);
    if forall b :: 1 <= b < m ==> bl[b] == 0 { OnlyLast(bl, m, m - 1); }
  }

  /** Moving one leaf down, with one overflowing code as its brother. */
  lemma {:induction false} MoveDown(bl: seq<int>, m: nat, leaves: int, over: int, bits: nat, bl1: seq<int>,
      bl2: seq<int>, bl3: seq<int>)
    requires Excess(bl, m, leaves, over) && over > 0 && 1 <= bits < m && bl[bits] > 0
    requires bl1 == bl[bits := bl[bits] - 1] && bl2 == bl1[bits + 1 := bl1[bits + 1] + 2] && bl3 == bl2[m := bl2[m] - 1]
    ensures Excess(bl3, m, leaves, over - 1)
  {
    hide Pow2, LevelKraft, Total;
    KraftUpdate(bl, m, m, bits, -1);
    KraftUpdate(bl1, m, m, bits + 1, 2);
    KraftUpdate(bl2, m, m, m, -1);
    HalfBelow(m, bits);
  }

  lemma HalfBelow(m: nat, bits: nat)
    requires bits < m
    ensures -1 * Pow2(m - bits) + 2 * Pow2(m - (bits + 1)) == 0 && -1 * Pow2(m - m) == -1
  {
    assert Pow2(m - bits) == 2 * Pow2(m - (bits + 1));
    assert Pow2(0) == 1;
  }

  /** The repair loop: the leaves stay as many as they were, and Kraft's sum becomes one. */
  method Repair(bl: array<int>, maxLength: nat, overflow0: int, ghost leaves: int)
    requires 2 <= maxLength < bl.Length && overflow0 > 0 && overflow0 % 2 == 0
    requires Excess(bl[..], maxLength, leaves, overflow0 / 2)
    modifies bl
    ensures NonNegative(bl[..]) && LevelKraft(bl[..], maxLength, maxLength) == Pow2(maxLength)
        && Total(bl[..], maxLength) == leaves
    ensures bl[0] == old(bl[0]) && forall b :: maxLength < b < bl.Length ==> bl[b] == old(bl[b])
  {
    hide Pow2, LevelKraft, Total;
    var overflow := overflow0;
    while true
      invariant overflow > 0 && overflow % 2 == 0 && Excess(bl[..], maxLength, leaves, overflow / 2)
      invariant bl[0] == old(bl[0]) && forall b :: maxLength < b < bl.Length ==> bl[b] == old(bl[b])
      decreases overflow
    {
      ghost var before := bl[..];
      SomeLeafAbove(before, maxLength, leaves, overflow / 2);
      ghost var found :| 1 <= found < maxLength && before[found] != 0;
      var bits := maxLength - 1;
      while bl[bits] == 0
        invariant found <= bits < maxLength && bl[..] == before
        decreases bits
      {
        bits := bits - 1;
      }
      assert bl[bits] == before[bits] && before[bits] > 0;
      bl[bits] := bl[bits] - 1;
      ghost var bl1 := bl[..];
      bl[bits + 1] := bl[bits + 1] + 2;
      ghost var bl2 := bl[..];
      bl[maxLength] := bl[maxLength] - 1;
      MoveDown(before, maxLength, leaves, overflow / 2, bits, bl1, bl2, bl[..]);
      overflow := overflow - 2;
      if overflow <= 0 { break; }
    }
  }
}

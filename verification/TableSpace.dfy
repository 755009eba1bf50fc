/** How many entries inflate_table of inftrees.c uses. The two constants of inftrees.h come from an
    exhaustive search over all codes; here they follow from the shape of a complete code: each
    sub-table wastes no more than the lengths it spans allow, sub-tables span ever longer lengths,
    and the short codes must take most of the code space. */
module TableSpace {
  import opened Bits
  import opened Counting
  import opened DeflateCodes
  import opened DeflateOrder
  import opened DecodingTable
  import opened TableSteps
  import opened SubTables

  /** How many more entries than codes sub-tables can have that span the lengths 1 to d. */
  function Slack(d: nat): int {
    Pow2(d) - d - 1
  }

  lemma {:induction false} SlackGrows(m: nat, n: nat)
    requires m <= n
    ensures 0 <= Slack(m) <= Slack(n)
    decreases n
  {
    if m < n {
      SlackGrows(m, n - 1);
    } else if n > 0 {
      SlackGrows(n - 1, n - 1);
    }
  }

  /** Symbols with codes of at most root bits, and all that occur. */
  function Short(v: View): nat { Offs(v.lens, v.root + 1) }

  function All(v: View): nat { Offs(v.lens, 16) }

  /** The k-th symbol needs a new sub-table when this many entries are in use. */
  ghost predicate Lean(v: View, k: nat, s: int, used: nat) {
    && Used(v.lens, s) && Place(v.lens, s) == k && v.lens[s] > v.root && Short(v) <= k
    && used % 2 == 0 && used <= Pow2(v.root) + (k - Short(v)) + Slack(v.lens[s] - v.root)
  }

  /** The sub-table being filled was needed by the k-th symbol, and has the size of its group. */
  ghost predicate OpenedAt(v: View, work: seq<int>, k: nat, next: nat, curr: nat, low: int) {
    && k < |work| && Lean(v, k, work[k], next) && GroupFilled(v, work[k], curr) && RootIndex(v, work[k]) == low
  }

  /** Between the symbols: the root table only, or some sub-table. */
  ghost predicate Thrifty(v: View, work: seq<int>, k: nat, next: nat, curr: nat, drop: nat, low: int) {
    if drop == 0 then next == 0 && curr == v.root else exists j :: 0 <= j <= k && OpenedAt(v, work, j, next, curr, low)
  }

  /** The entries in use after opening a table. */
  ghost predicate Bounded(v: View, used: nat) {
    used % 2 == 0 && Short(v) <= All(v) && v.root <= 15
    && used <= Pow2(v.root) + (All(v) - Short(v)) + Slack(15 - v.root)
  }

  lemma Even(n: nat)
    requires n >= 1
    ensures Pow2(n) % 2 == 0
  {
  }

  lemma {:induction false} LongIsLate(v: View, s: int)
    requires Used(v.lens, s) && v.lens[s] > v.root
    ensures Short(v) <= Place(v.lens, s) < All(v)
  {
    hide Offs, Place, Count;
    PlaceRange(v.lens, s);
    OffsMonotone(v.lens, v.root + 1, v.lens[s]);
  }

  /** The first symbol that needs a sub-table. */
  lemma {:induction false} FirstLean(v: View, k: nat, s: int)
    requires Used(v.lens, s) && Place(v.lens, s) == k && v.lens[s] > v.root >= 1
    ensures Lean(v, k, s, Pow2(v.root))
  {
    hide Offs, Place, Count, Slack, Pow2;
    LongIsLate(v, s);
    SlackGrows(0, v.lens[s] - v.root);
    Even(v.root);
  }

  /** The next one behind the group of r. */
  lemma {:induction false} NextLean(v: View, j: nat, r: int, next: nat, curr: nat, k: nat, s: int)
    requires Lean(v, j, r, next) && GroupFilled(v, r, curr)
    requires Used(v.lens, s) && v.lens[s] >= v.root + curr && Place(v.lens, s) == k >= j + Least(v, r, curr)
        && v.lens[s] > v.root
    ensures Lean(v, k, s, next + Pow2(curr))
  {
    hide Offs, Place, Count, Slack, Pow2, Least;
    LongIsLate(v, s);
    WholeGroup(v, r, curr);
    hide GroupFilled;
    SlackGrows(curr, v.lens[s] - v.root);
    Even(curr);
  }

  /** The next symbol that needs a sub-table is as thrifty as the last. */
  lemma {:induction false} StaysLean(v: View, work: seq<int>, k: nat, next: nat, curr: nat, drop: nat, low: int, s: int)
    requires Thrifty(v, work, k, next, curr, drop, low) && v.root >= 1
    requires Used(v.lens, s) && Place(v.lens, s) == k + 1 && v.lens[s] > v.root && RootIndex(v, s) != low
    ensures Lean(v, k + 1, s, next + Pow2(curr))
  {
    hide Offs, Place, Count, Huff, Pow2, GroupFilled, Lean, Least;
    if drop == 0 {
      FirstLean(v, k + 1, s);
    } else {
      var j :| 0 <= j <= k && OpenedAt(v, work, j, next, curr, low);
      LeanPlace(v, j, work[j], next);
      BehindGroup(v, work[j], s, curr);
      NextLean(v, j, work[j], next, curr, k + 1, s);
    }
  }

  lemma LeanPlace(v: View, k: nat, s: int, used: nat)
    requires Lean(v, k, s, used)
    ensures Used(v.lens, s) && Place(v.lens, s) == k && v.lens[s] > v.root
  {
    hide Place, Offs, Slack, Pow2;
  }

  lemma BehindGroup(v: View, s: int, t: int, bits: nat)
    requires GroupFilled(v, s, bits) && LaterGroup(v, s, t)
    ensures Place(v.lens, t) >= Place(v.lens, s) + Least(v, s, bits) && v.lens[t] >= v.root + bits
  {
    hide Place, Huff, Offs, Least;
    assert Beyond(v, s, bits, t);
  }

  /** The entries of a sub-table against the codes it holds. */
  lemma WholeGroup(v: View, s: int, bits: nat)
    requires GroupFilled(v, s, bits)
    ensures Used(v.lens, s) && 0 <= v.lens[s] - v.root <= bits && bits >= 1
    ensures Slack(v.lens[s] - v.root) + Pow2(bits) == Least(v, s, bits) + Slack(bits)
  {
    hide Pow2, Place, Huff, Offs;
  }

  /** So no more entries are used than this. */
  lemma {:induction false} OpenBounded(v: View, k: nat, s: int, used: nat, bits: nat)
    requires Lean(v, k, s, used) && GroupFilled(v, s, bits) && v.root + bits <= 15
    ensures Bounded(v, used + Pow2(bits))
  {
    hide Offs, Place, Count, Slack, Pow2, Huff;
    LongIsLate(v, s);
    WholeGroup(v, s, bits);
    SlackGrows(bits, 15 - v.root);
    Even(bits);
    hide GroupFilled;
    GroupIsThere(v, s, bits);
  }

  lemma GroupIsThere(v: View, s: int, bits: nat)
    requires GroupFilled(v, s, bits)
    ensures Place(v.lens, s) + Least(v, s, bits) <= All(v)
  {
    hide Offs, Place, Least;
  }

  // ---- the constants ----

  const ENOUGH_LENS: nat := 852
  const ENOUGH_DISTS: nat := 592

  predicate TooLarge(kind: Kind, used: nat) {
    (kind == LENS && used > ENOUGH_LENS) || (kind == DISTS && used > ENOUGH_DISTS)
  }

  /** Codes of at least two bits take at most a quarter of the code space each. */
  lemma {:induction false} ShortSpace(lens: seq<int>, n: nat)
    requires 2 <= n <= 16
    ensures Space(lens, n) <= Count(lens, 1) * 0x4000 + (Offs(lens, n) - Count(lens, 1)) * 0x2000
  {
    hide Count, Pow2;
    if n == 2 {
      SpaceNext(lens, 1);
      OffsNext(lens, 1);
      FourteenBits();
    } else {
      ShortSpace(lens, n - 1);
      SpaceNext(lens, n - 1);
      OffsNext(lens, n - 1);
      FourteenBits();
      PowMonotone(16 - n, 13);
      MonotoneTimes(Pow2(16 - n), 0x2000, Count(lens, n - 1));
    }
  }

  lemma FourteenBits()
    ensures Pow2(14) == 0x4000 && Pow2(13) == 0x2000 && Pow2(15) == 0x8000
    ensures Pow2(9) == 512 && Pow2(8) == 256 && Pow2(6) == 64 && Pow2(5) == 32
  {
    assert Pow2(5) == 32 && Pow2(3) == 8;
    assert Pow2(8) == 256 by { Pow2Add(5, 3); }
    assert Pow2(13) == 0x2000 by { Pow2Add(8, 5); }
  }

  lemma MoreUnits(o: int, c: nat, q: nat, p: nat)
    requires q <= p
    ensures o * p + c * q <= (o + c) * p
  {
    MonotoneTimes(q, p, c);
    assert (o + c) * p == o * p + c * p;
  }

  /** Codes of n bits and more take at most their number of units of that length. */
  lemma {:induction false} LongSpace(lens: seq<int>, n: nat, m: nat)
    requires 1 <= n <= m <= 16 && n <= 15
    ensures Space(lens, m) <= Space(lens, n) + (Offs(lens, m) - Offs(lens, n)) * Pow2(15 - n)
    decreases m
  {
    hide Count, Pow2, Space, Offs;
    if n == m {
      NoneTimes(Pow2(15 - n));
    } else {
      LongSpace(lens, n, m - 1);
      SpaceNext(lens, m - 1);
      OffsNext(lens, m - 1);
      PowMonotone(16 - m, 15 - n);
      MoreUnits(Offs(lens, m - 1) - Offs(lens, n), Count(lens, m - 1), Pow2(16 - m), Pow2(15 - n));
    }
  }

  /** When longer codes occur in a complete code, not both codes of one bit are taken. */
  lemma {:induction false} OneOfOneBit(lens: seq<int>, s: int)
    requires Complete(lens) && Used(lens, s) && lens[s] > 1
    ensures Count(lens, 1) <= 1
  {
    hide Count, Pow2, Pos;
    PosEnd(lens, s);
    SpaceMonotone(lens, 2, lens[s]);
    SpaceNext(lens, 1);
    FourteenBits();
    PowPositive(15 - lens[s]);
  }

  /** The sizes for which the constants were found. */
  predicate Enough(kind: Kind, symbols: nat, bits: nat) {
    (kind == LENS && symbols <= 286 && bits == 9) || (kind == DISTS && symbols <= 30 && bits == 6)
  }

  /** The shares of the code space make up the whole. */
  lemma {:induction false} Shares(v: View, s: int)
    requires ValidView(v) && Complete(v.lens) && Used(v.lens, s) && v.lens[s] > v.root
    ensures Short(v) <= All(v) <= |v.lens|
    ensures 0x8000 <= 0x4000 + (Short(v) - 1) * 0x2000 + (All(v) - Short(v)) * Pow2(14 - v.root)
  {
    hide Count, Pow2, Offs, Space;
    LongIsLate(v, s);
    OffsCount(v.lens, 16);
    OneOfOneBit(v.lens, s);
    ShortSpace(v.lens, v.root + 1);
    LongSpace(v.lens, v.root + 1, 16);
    FourteenBits();
    CompleteSpace(v.lens);
  }

  lemma CompleteSpace(lens: seq<int>)
    requires Complete(lens)
    ensures Space(lens, 16) == Pow2(15)
  {
    hide Space, Pow2;
  }

  /** The constants of inftrees.h suffice. */
  lemma {:induction false} ConstantsSuffice(v: View, used: nat)
    requires ValidView(v) && Complete(v.lens) && Longest(v.lens) > v.root
    requires Enough(v.kind, |v.lens|, v.root) && Bounded(v, used)
    ensures !TooLarge(v.kind, used)
  {
    hide Count, Pow2, Offs, Space, Longest;
    LongestReached(v.lens);
    var s :| 0 <= s < |v.lens| && v.lens[s] == Longest(v.lens);
    Shares(v, s);
    FourteenBits();
  }

  /** A complete code of so few symbols has some of at most as many bits as the root. */
  lemma {:induction false} SomeAreShort(kind: Kind, lens: seq<int>, bits: nat, min: nat)
    requires Complete(lens) && Enough(kind, |lens|, bits) && 1 <= min <= 15
        && forall l :: 1 <= l < min ==> Count(lens, l) == 0
    ensures min <= bits
  {
    hide Count, Pow2, Offs, Space;
    NoneShorter(lens, min);
    OffsCount(lens, 16);
    LongSpace(lens, min, 16);
    CompleteSpace(lens);
    FourteenBits();
    if min > bits {
      PowMonotone(15 - min, 14 - bits);
      MonotoneTimes(Offs(lens, 16), |lens|, Pow2(15 - min));
      MonotoneTimes(Pow2(15 - min), Pow2(14 - bits), |lens|);
    }
  }
}

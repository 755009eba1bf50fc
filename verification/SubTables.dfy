/** The sub-tables of inflate_table of inftrees.c: how large the source makes each, which codes
    share it, and how many they are at least. */
module SubTables {
  import opened Bits
  import opened BitReversal
  import opened Counting
  import opened DeflateCodes
  import opened DeflateOrder
  import opened DecodingTable
  import opened TableSteps

  /** What the codes from s on that are shorter than c take, in units of 2^-15. */
  ghost function Taken(lens: seq<int>, s: int, c: nat): int
    requires Used(lens, s) && lens[s] <= c <= 16
  {
    if c == lens[s] then 0 else Space(lens, c) - Pos(lens, s)
  }

  lemma {:induction false} TakenStep(lens: seq<int>, count: seq<int>, s: int, c: nat)
    requires Remaining(lens, count, s) && lens[s] <= c <= 15
    ensures Taken(lens, s, c + 1) == Taken(lens, s, c) + count[c] * Pow2(15 - c)
  {
    hide Offs, Count, Place, Space, Pow2, Pos;
    PosRemaining(lens, s);
    SpaceNext(lens, c);
  }

  ghost predicate RoomLeft(lens: seq<int>, s: int, root: nat, left: int, c: nat)
    requires Used(lens, s) && lens[s] <= c <= 15 && root <= 15
  {
    left * Pow2(15 - c) == Pow2(15 - root) - Taken(lens, s, c)
  }

  lemma {:induction false} RoomStart(lens: seq<int>, s: int, root: nat)
    requires Used(lens, s) && root < lens[s]
    ensures RoomLeft(lens, s, root, Pow2(lens[s] - root), lens[s])
  {
    PowSplit(15 - root, 15 - lens[s]);
    assert 15 - root - (15 - lens[s]) == lens[s] - root;
  }

  lemma {:induction false} RoomStep(lens: seq<int>, count: seq<int>, s: int, root: nat, left: int, c: nat)
    requires Remaining(lens, count, s) && lens[s] <= c <= 15 && root <= 15 && RoomLeft(lens, s, root, left, c)
    ensures left - count[c] <= 0 ==> Taken(lens, s, c + 1) >= Pow2(15 - root)
    ensures c < 15 ==> RoomLeft(lens, s, root, 2 * (left - count[c]), c + 1)
  {
    hide Pow2, Taken, Remaining, Count, Place, Offs;
    RemainingSize(lens, count, s);
    TakenStep(lens, count, s, c);
    PowPositive(15 - c);
    Distribute(left, count[c], Pow2(15 - c));
    if left - count[c] <= 0 { NonPositiveTimes(left - count[c], Pow2(15 - c)); }
    if c < 15 {
      PowSucc(14 - c);
      HalfUnits(left - count[c], Pow2(14 - c));
    }
  }

  lemma RemainingSize(lens: seq<int>, count: seq<int>, s: int)
    requires Remaining(lens, count, s)
    ensures |count| == 16 && Used(lens, s)
  {
  }

  lemma NonPositiveTimes(x: int, p: nat)
    requires x <= 0
    ensures x * p <= 0
  {
  }

  lemma HalfUnits(x: int, p: nat)
    ensures 2 * x * p == x * (2 * p)
  {
  }

  /** Once the shorter codes fill the sub-table, longer ones begin with other bits. */
  lemma {:induction false} GroupFull(lens: seq<int>, s: int, t: int, root: nat, c: nat)
    requires NotOver(lens) && Used(lens, s) && Used(lens, t) && 1 <= root < lens[s] <= c < lens[t]
    requires Taken(lens, s, c + 1) >= Pow2(15 - root) && Pow2(15 - root) > 0 && Pos(lens, s) % Pow2(15 - root) == 0
    ensures Huff(lens, t) % Pow2(root) != Huff(lens, s) % Pow2(root)
  {
    hide Pow2, Space, Pos, NotOver, Huff;
    PosEnd(lens, t);
    SpaceMonotone(lens, c + 1, lens[t]);
    SameLeading(lens, s, t, root);
    var u := Pow2(15 - root);
    MultipleMod(1, u, Pos(lens, s));
    QuotientMonotone(Pos(lens, s) + u, Pos(lens, t), u);
  }

  /** A symbol from s on that shares the first bits of s. */
  ghost predicate SameGroup(v: View, s: int, t: int)
    requires Used(v.lens, s)
  {
    Used(v.lens, t) && Place(v.lens, t) >= Place(v.lens, s) && v.lens[t] > v.root && RootIndex(v, t) == RootIndex(v, s)
  }

  /** All codes from s on with the first bits of s fit a sub-table of this many bits. */
  ghost predicate GroupFits(v: View, s: int, bits: nat) {
    Used(v.lens, s) && forall t :: SameGroup(v, s, t) ==> v.lens[t] <= v.root + bits
  }

  // ---- how many codes share a sub-table ----

  /** How many codes, at the least, share the first bits of s when the longest of them fills a
      sub-table of this many bits: one at each length below the longest, two of that, and as many
      more as it takes to begin at the length of s. */
  function Least(v: View, s: int, bits: nat): int
    requires 0 <= s < |v.lens| && v.lens[s] > v.root
  {
    Pow2(v.lens[s] - v.root) + bits - (v.lens[s] - v.root)
  }

  /** Symbol t comes after s and begins otherwise. */
  ghost predicate LaterGroup(v: View, s: int, t: int) {
    Used(v.lens, s) && Used(v.lens, t) && Place(v.lens, t) > Place(v.lens, s) && v.lens[t] > v.root
    && RootIndex(v, t) != RootIndex(v, s)
  }

  ghost predicate Beyond(v: View, s: int, bits: nat, t: int)
    requires Used(v.lens, s) && v.root < v.lens[s] && Used(v.lens, t)
  {
    Place(v.lens, t) >= Place(v.lens, s) + Least(v, s, bits) && v.lens[t] >= v.root + bits
  }

  /** The group that begins with s fills its sub-table, so it has at least so many codes, and no
      later code is shorter than its longest. */
  ghost predicate GroupFilled(v: View, s: int, bits: nat) {
    && Used(v.lens, s) && v.root < v.lens[s] <= v.root + bits
    && Place(v.lens, s) + Least(v, s, bits) <= Offs(v.lens, 16)
    && forall t :: LaterGroup(v, s, t) ==> Beyond(v, s, bits, t)
  }

  /** How many codes from s on are shorter than c. */
  ghost function Passed(lens: seq<int>, s: int, c: nat): int
    requires Used(lens, s) && lens[s] <= c
  {
    if c == lens[s] then 0 else Offs(lens, c) - Place(lens, s)
  }

  lemma PassedStep(lens: seq<int>, count: seq<int>, s: int, c: nat)
    requires Remaining(lens, count, s) && lens[s] <= c <= 15
    ensures Offs(lens, c + 1) - Place(lens, s) == Passed(lens, s, c + 1) == Passed(lens, s, c) + count[c]
  {
    hide Count, Place, Offs;
    OffsNext(lens, c);
  }

  /** Where the codes of length c begin, seen from s. */
  lemma {:induction false} StartOfLength(lens: seq<int>, s: int, c: nat)
    requires Used(lens, s) && lens[s] <= c <= 15
    ensures var before := if c == lens[s] then Count(lens[..s], c) else 0;
      && Offs(lens, c) + before == Place(lens, s) + Passed(lens, s, c)
      && Space(lens, c) + before * Pow2(15 - c) == Pos(lens, s) + Taken(lens, s, c)
  {
    hide Count, Offs, Space, Pow2, Pos;
    PosForm(lens, s);
    NoneTimes(Pow2(15 - c));
  }

  lemma FactorAtLeast(x: int, y: int, p: nat)
    requires p > 0 && x * p >= y * p
    ensures x >= y
  {
    NegativeTimes(x - y, p);
    assert (x - y) * p == x * p - y * p;
  }

  /** Codes shorter than c, from s on, share the first bits of s: they end before its part of the
      code space does. */
  lemma {:induction false} ShorterInGroup(lens: seq<int>, s: int, t: int, root: nat, left: int, c: nat)
    requires NotOver(lens) && Used(lens, s) && Used(lens, t) && 1 <= root < lens[s] <= c <= 15
        && root < lens[t] < c
    requires Place(lens, t) > Place(lens, s) && RoomLeft(lens, s, root, left, c) && left >= 1
    requires Pow2(15 - root) > 0 && Pos(lens, s) % Pow2(15 - root) == 0
    ensures Huff(lens, t) % Pow2(root) == Huff(lens, s) % Pow2(root)
  {
    hide Pow2, Space, Pos, NotOver, Huff, Place, Count, Offs;
    OrderOfPlaces(lens, s, t);
    PosEnd(lens, t);
    SpaceMonotone(lens, lens[t] + 1, c);
    PosOrder(lens, s, t);
    PowPositive(15 - c);
    PowPositive(15 - lens[t]);
    AtLeastTimes(left, Pow2(15 - c));
    SameLeading(lens, s, t, root);
    SamePart(Pos(lens, s), Pos(lens, t), Pow2(15 - root));
  }

  lemma AtLeastTimes(x: int, p: nat)
    requires x >= 1
    ensures x * p >= p
  {
    assert (x - 1) * p >= 0;
  }

  lemma SamePart(x: nat, y: nat, u: nat)
    requires u > 0 && x % u == 0 && x <= y < x + u
    ensures y / u == x / u
  {
    DivModUnique(y, u, x / u, y - x);
  }

  /** A later code of length c stands behind those that fill the group. */
  lemma {:induction false} SameLengthBeyond(lens: seq<int>, s: int, t: int, root: nat, left: int, c: nat)
    requires NotOver(lens) && Used(lens, s) && Used(lens, t) && 1 <= root < lens[s] <= c == lens[t]
    requires Place(lens, t) > Place(lens, s) && RoomLeft(lens, s, root, left, c)
    requires Pow2(15 - root) > 0 && Pos(lens, s) % Pow2(15 - root) == 0
    requires Huff(lens, t) % Pow2(root) != Huff(lens, s) % Pow2(root)
    ensures Place(lens, t) >= Place(lens, s) + Passed(lens, s, c) + left
  {
    hide Pow2, Space, Pos, NotOver, Huff, Count, Offs, Place, Taken, Passed;
    OrderOfPlaces(lens, s, t);
    PosOrder(lens, s, t);
    SameLeading(lens, s, t, root);
    if Pos(lens, t) < Pos(lens, s) + Pow2(15 - root) { SamePart(Pos(lens, s), Pos(lens, t), Pow2(15 - root)); }
    StartOfLength(lens, s, c);
    StartOfLength(lens, t, c);
    OwnStart(lens, t);
    var p := Pow2(15 - c);
    PowPositive(15 - c);
    var before := if c == lens[s] then Count(lens[..s], c) else 0;
    Distribute(before, left, p);
    FactorAtLeast(Count(lens[..t], c), before + left, p);
  }

  lemma OwnStart(lens: seq<int>, t: int)
    requires Used(lens, t)
    ensures Taken(lens, t, lens[t]) == 0 && Passed(lens, t, lens[t]) == 0
  {
  }

  /** The codes of length c fill what the shorter ones of the group leave. */
  lemma {:induction false} EnoughToFill(lens: seq<int>, count: seq<int>, s: int, root: nat, left: int, c: nat)
    requires Remaining(lens, count, s) && lens[s] <= c <= 15 && root <= 15 && RoomLeft(lens, s, root, left, c)
    requires Taken(lens, s, c + 1) >= Pow2(15 - root)
    ensures count[c] >= left
  {
    hide Pow2, Taken, Remaining, Count, Place, Offs;
    RemainingSize(lens, count, s);
    TakenStep(lens, count, s, c);
    PowPositive(15 - c);
    FactorAtLeast(count[c], left, Pow2(15 - c));
  }

  lemma {:induction false} GroupIsFilled(v: View, count: seq<int>, s: int, left: int, bits: nat)
    requires ValidView(v) && Remaining(v.lens, count, s) && v.root < v.lens[s] <= v.root + bits <= 15
    requires Pow2(15 - v.root) > 0 && Pos(v.lens, s) % Pow2(15 - v.root) == 0
    requires RoomLeft(v.lens, s, v.root, left, v.root + bits) && left >= 1
    requires Taken(v.lens, s, v.root + bits + 1) >= Pow2(15 - v.root)
    requires Passed(v.lens, s, v.root + bits) + left >= Least(v, s, bits)
    ensures GroupFilled(v, s, bits)
  {
    hide Pow2, Pos, Taken, NotOver, Count, Place, Offs, RoomLeft, Huff, Remaining, Passed, Least;
    var c := v.root + bits;
    RemainingSize(v.lens, count, s);
    EnoughToFill(v.lens, count, s, v.root, left, c);
    PassedStep(v.lens, count, s, c);
    OffsMonotone(v.lens, c + 1, 16);
    forall t | LaterGroup(v, s, t) ensures Beyond(v, s, bits, t) {
      if v.lens[t] < c {
        ShorterInGroup(v.lens, s, t, v.root, left, c);
      } else if v.lens[t] == c {
        SameLengthBeyond(v.lens, s, t, v.root, left, c);
      } else {
        PlaceRange(v.lens, t);
        OffsMonotone(v.lens, c + 1, v.lens[t]);
      }
    }
  }

  /** In a complete code the longest codes fill the last group. */
  lemma {:induction false} LastGroupFull(v: View, s: int, max: nat)
    requires ValidView(v) && Complete(v.lens) && Used(v.lens, s) && max == Longest(v.lens) && v.root < v.lens[s] <= max
    requires Pow2(15 - v.root) > 0 && Pos(v.lens, s) % Pow2(15 - v.root) == 0
    ensures max <= 15 && Taken(v.lens, s, max + 1) >= Pow2(15 - v.root)
  {
    hide Pow2, Space, Pos, Count, Longest, NotOver;
    LongestBounds(v.lens);
    LongerTakesNothing(v.lens, max + 1);
    PosEnd(v.lens, s);
    PowPositive(15 - v.lens[s]);
    PowSplit(15, 15 - v.root);
    NextMultiple(Pos(v.lens, s), Pow2(v.root), Pow2(15 - v.root));
  }

  lemma NextMultiple(x: nat, k: nat, u: nat)
    requires u > 0 && x % u == 0 && x < k * u
    ensures x + u <= k * u
  {
    ExactQuotient(x, u);
    SmallerFactor(x / u, k, u);
    SmallerMultiple(x / u, k, u);
  }

  lemma {:induction false} LongerTakesNothing(lens: seq<int>, n: nat)
    requires CodeLens(lens) && Longest(lens) < n <= 16
    ensures Space(lens, n) == Space(lens, 16)
  {
    hide Count, Longest;
    NoneLonger(lens, n);
    OffsMonotone(lens, n, 16);
  }

  lemma LeastStep(v: View, s: int, bits: nat)
    requires Used(v.lens, s) && v.root < v.lens[s]
    ensures Least(v, s, bits + 1) == Least(v, s, bits) + 1
    ensures Least(v, s, v.lens[s] - v.root) == Pow2(v.lens[s] - v.root)
  {
    hide Pow2;
  }

  method SubtableBits(count: array<int>, len: nat, root: nat, max: nat, ghost v: View, ghost s: int) returns (curr: nat)
    requires ValidView(v) && Remaining(v.lens, count[..], s) && v.lens[s] == len && v.root == root < len
        && max == Longest(v.lens)
    requires Pow2(15 - root) > 0 && Pos(v.lens, s) % Pow2(15 - root) == 0
    ensures len <= root + curr <= 15 && GroupFits(v, s, curr)
    ensures Complete(v.lens) ==> GroupFilled(v, s, curr)
  {
    hide Pow2, Remaining, Pos, Taken, NotOver, Count, Place, Offs, RoomLeft, Longest, Huff, Least, Passed, GroupFilled,
        Complete;
    RemainingSize(v.lens, count[..], s);
    LongestBounds(v.lens);
    curr := len - root;
    var left: int := Pow2(curr);
    RoomStart(v.lens, s, root);
    OwnStart(v.lens, s);
    LeastStep(v, s, curr);
    PowPositive(curr);
    while curr + root < max
      invariant len <= curr + root <= max <= 15 && RoomLeft(v.lens, s, root, left, curr + root)
      invariant left >= 1 && Passed(v.lens, s, curr + root) + left >= Least(v, s, curr)
    {
      ghost var left0 := left;
      RoomStep(v.lens, count[..], s, root, left, curr + root);
      PassedStep(v.lens, count[..], s, curr + root);
      LeastStep(v, s, curr);
      left := left - count[curr + root];
      if left <= 0 {
        forall t | SameGroup(v, s, t) ensures v.lens[t] <= root + curr {
          if v.lens[t] > root + curr { GroupFull(v.lens, s, t, root, root + curr); }
        }
        GroupIsFilled(v, count[..], s, left0, curr);
        return;
      }
      curr := curr + 1;
      left := left * 2;
    }
    if Complete(v.lens) {
      LastGroupFull(v, s, max);
      GroupIsFilled(v, count[..], s, left, curr);
    }
  }
}

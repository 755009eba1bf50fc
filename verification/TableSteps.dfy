/** The parts of inflate_table of inftrees.c: counting, checking and sorting the lengths,
    and replicating an entry. */
module TableSteps {
  import opened Bits
  import opened BitReversal
  import opened Counting
  import opened DeflateCodes
  import opened DeflateOrder
  import opened DecodingTable


  /** The longest code, zero when no symbol occurs. */
  function Longest(lens: seq<int>): (m: nat) {
    if lens == [] then 0
    else
      var m := Longest(lens[..|lens| - 1]);
      if lens[|lens| - 1] > m then lens[|lens| - 1] else m
  }

  lemma {:induction false} LongestBounds(lens: seq<int>)
    requires CodeLens(lens)
    ensures forall i :: 0 <= i < |lens| ==> lens[i] <= Longest(lens)
    ensures Longest(lens) <= 15 && (Longest(lens) > 0 ==> Count(lens, Longest(lens)) > 0)
  {
    if lens != [] { LongestBounds(lens[..|lens| - 1]); }
  }

  lemma {:induction false} LongestReached(lens: seq<int>)
    ensures Longest(lens) > 0 ==> exists s :: 0 <= s < |lens| && lens[s] == Longest(lens)
  {
    if lens != [] {
      LongestReached(lens[..|lens| - 1]);
      var m := |lens| - 1;
      if Longest(lens) > 0 && lens[m] != Longest(lens) {
        var s :| 0 <= s < m && lens[..m][s] == Longest(lens[..m]);
        assert lens[s] == Longest(lens);
      }
    }
  }

  lemma {:induction false} CountNone(lens: seq<int>, c: int)
    requires forall i :: 0 <= i < |lens| ==> lens[i] != c
    ensures Count(lens, c) == 0
  {
    if lens != [] { CountNone(lens[..|lens| - 1], c); }
  }

  ghost predicate Counted(lens: seq<int>, count: seq<int>) {
    |count| == 16 && forall l :: 0 <= l < 16 ==> count[l] == Count(lens, l)
  }

  method CountLengths(lens: seq<int>) returns (count: array<int>)
    requires CodeLens(lens)
    ensures fresh(count) && Counted(lens, count[..])
  {
    count := new int[16](_ => 0);
    for sym := 0 to |lens|
      invariant forall l :: 0 <= l < 16 ==> count[l] == Count(lens[..sym], l)
    {
      assert lens[..sym + 1][..sym] == lens[..sym];
      count[lens[sym]] := count[lens[sym]] + 1;
    }
    assert lens[..|lens|] == lens;
  }

  /** Longest and shortest code. */
  method Extremes(lens: seq<int>, count: array<int>) returns (max: nat, min: nat)
    requires CodeLens(lens) && Counted(lens, count[..])
    ensures max == Longest(lens)
    ensures max > 0 ==> 1 <= min <= max <= 15 && count[min] > 0 && forall l :: 1 <= l < min ==> count[l] == 0
  {
    hide Count, Longest;
    LongestBounds(lens);
    max := 15;
    while max >= 1 && count[max] == 0
      invariant Longest(lens) <= max <= 15
    {
      assert count[max] == Count(lens, max);
      max := max - 1;
    }
    if max > Longest(lens) { CountNone(lens, max); }
    min := 1;
    if max > 0 {
      while min < max && count[min] == 0
        invariant 1 <= min <= max && forall l :: 1 <= l < min ==> count[l] == 0
      {
        min := min + 1;
      }
    }
  }

  /** What the codes up to length n leave of the code space, in units of 2^-n. */
  ghost predicate Leaves(lens: seq<int>, left: int, n: nat)
    requires n <= 15
  {
    left * Pow2(15 - n) == Pow2(15) - Space(lens, n + 1)
  }

  lemma {:induction false} LeavesStep(lens: seq<int>, left: int, n: nat)
    requires n < 15 && Leaves(lens, left, n)
    ensures Leaves(lens, 2 * left - Count(lens, n + 1), n + 1)
  {
    hide Count;
    SpaceNext(lens, n + 1);
    var p := Pow2(14 - n);
    assert Pow2(15 - n) == 2 * p;
    TwiceLess(left, Count(lens, n + 1), p);
  }

  lemma TwiceLess(left: int, c: int, p: int)
    ensures (2 * left - c) * p == left * (2 * p) - c * p
  {
  }

  lemma NegativeTimes(x: int, p: nat)
    requires p > 0
    ensures x < 0 <==> x * p < 0
  {
  }

  /** The check for an over-subscribed or incomplete set of lengths. */
  method CheckLeft(lens: seq<int>, count: array<int>) returns (left: int)
    requires Counted(lens, count[..])
    ensures NotOver(lens) <==> left >= 0
    ensures Complete(lens) <==> left == 0
  {
    hide Count, Space, Pow2;
    left := 1;
    LeavesStart(lens);
    for len := 1 to 16
      invariant Leaves(lens, left, len - 1)
    {
      LeavesStep(lens, left, len - 1);
      left := left * 2;
      left := left - count[..][len];
      if left < 0 {
        PowPositive(15 - len);
        NegativeTimes(left, Pow2(15 - len));
        SpaceMonotone(lens, len + 1, 16);
        return;
      }
    }
    LeavesEnd(lens, left);
  }

  lemma LeavesStart(lens: seq<int>)
    ensures Leaves(lens, 1, 0)
  {
  }

  lemma LeavesEnd(lens: seq<int>, left: int)
    requires Leaves(lens, left, 15)
    ensures left == Pow2(15) - Space(lens, 16)
  {
    hide Space;
    PowZero();
  }

  // ---- sorting the symbols ----

  ghost predicate SortedUpTo(lens: seq<int>, work: seq<int>, offs: seq<int>, sym: int) {
    && |offs| == 16 && 0 <= sym <= |lens| && Offs(lens, 16) <= |work|
    && (forall l :: 1 <= l <= 15 ==> offs[l] == Offs(lens, l) + Count(lens[..sym], l))
    && (forall s :: 0 <= s < sym && Used(lens, s) ==> Place(lens, s) < |work| && work[Place(lens, s)] == s)
  }

  lemma {:induction false} SortStep(lens: seq<int>, work: seq<int>, offs: seq<int>, sym: int)
    requires CodeLens(lens) && SortedUpTo(lens, work, offs, sym) && sym < |lens| && lens[sym] != 0
    ensures offs[lens[sym]] == Place(lens, sym) < |work|
    ensures SortedUpTo(lens, work[Place(lens, sym) := sym], offs[lens[sym] := offs[lens[sym]] + 1], sym + 1)
  {
    hide Offs;
    PlaceRange(lens, sym);
    assert lens[..sym + 1][..sym] == lens[..sym];
    forall s | 0 <= s < sym && Used(lens, s) ensures Place(lens, s) != Place(lens, sym) {
      if lens[s] <= lens[sym] { PlaceOrder(lens, s, sym); } else { PlaceOrder(lens, sym, s); }
    }
  }

  lemma {:induction false} SortSkip(lens: seq<int>, work: seq<int>, offs: seq<int>, sym: int)
    requires CodeLens(lens) && SortedUpTo(lens, work, offs, sym) && sym < |lens| && lens[sym] == 0
    ensures SortedUpTo(lens, work, offs, sym + 1)
  {
    hide Offs;
    assert lens[..sym + 1][..sym] == lens[..sym];
  }

  lemma {:induction false} OffsCount(lens: seq<int>, n: nat)
    ensures Offs(lens, n) <= |lens|
    decreases |lens|
  {
    if lens == [] {
      OffsOfNothing(n);
    } else {
      OffsCount(lens[..|lens| - 1], n);
      OffsSnoc(lens, n);
    }
  }

  lemma {:induction false} OffsOfNothing(n: nat)
    ensures Offs([], n) == 0
  {
    if n > 1 { OffsOfNothing(n - 1); }
  }

  lemma {:induction false} OffsSnoc(lens: seq<int>, n: nat)
    requires lens != []
    ensures Offs(lens, n) == Offs(lens[..|lens| - 1], n) + if 1 <= lens[|lens| - 1] < n then 1 else 0
  {
    if n > 1 { OffsSnoc(lens, n - 1); }
  }

  method SortSymbols(lens: seq<int>, count: array<int>, work: array<int>)
    requires CodeLens(lens) && Counted(lens, count[..]) && |lens| <= work.Length && work != count
    modifies work
    ensures Sorted(lens, work[..])
  {
    hide Count, Offs, Place, SortedUpTo;
    ghost var counts := count[..];
    var offs := new int[16](_ => 0);
    OffsetsStart(lens);
    for len := 1 to 15
      modifies offs
      invariant forall l :: 1 <= l <= len ==> offs[l] == Offs(lens, l)
    {
      OffsNext(lens, len);
      assert count[len] == counts[len];
      offs[len + 1] := offs[len] + count[len];
    }
    OffsCount(lens, 16);
    SortStart(lens, work[..], offs[..]);
    for sym := 0 to |lens|
      modifies work, offs
      invariant SortedUpTo(lens, work[..], offs[..], sym)
    {
      if lens[sym] != 0 {
        SortStep(lens, work[..], offs[..], sym);
        ghost var w, o := work[..], offs[..];
        var l := lens[sym];
        OffsSize(lens, w, o, sym);
        work[offs[l]] := sym;
        offs[l] := offs[l] + 1;
        assert work[..] == w[Place(lens, sym) := sym];
        assert offs[..] == o[l := o[l] + 1];
      } else {
        SortSkip(lens, work[..], offs[..], sym);
      }
    }
    SortEnd(lens, work[..], offs[..]);
  }

  lemma OffsSize(lens: seq<int>, work: seq<int>, offs: seq<int>, sym: int)
    requires SortedUpTo(lens, work, offs, sym)
    ensures |offs| == 16
  {
  }

  lemma OffsetsStart(lens: seq<int>)
    ensures Offs(lens, 1) == 0
  {
  }

  lemma SortStart(lens: seq<int>, work: seq<int>, offs: seq<int>)
    requires |offs| == 16 && Offs(lens, 16) <= |work| && forall l :: 1 <= l <= 15 ==> offs[l] == Offs(lens, l)
    ensures SortedUpTo(lens, work, offs, 0)
  {
    assert lens[..0] == [];
  }

  lemma {:induction false} SortEnd(lens: seq<int>, work: seq<int>, offs: seq<int>)
    requires SortedUpTo(lens, work, offs, |lens|)
    ensures Sorted(lens, work)
  {
    hide Offs, Place;
    SortedBothWays(lens, work);
  }

  // ---- entering the symbols ----

  /** Index i is one of those from fill on that get the entry. */
  ghost predicate Chosen(i: int, at: nat, fill: nat, size: nat, incr: nat, first: nat)
    requires incr > 0
  {
    at + fill <= i < at + size && (i - at) % incr == first
  }

  /** One step down adds exactly one index. */
  lemma ChosenStep(i: int, at: nat, fill: nat, size: nat, incr: nat, first: nat)
    requires incr > 0 && incr <= fill <= size && fill % incr == 0 && first < incr
    ensures Chosen(i, at, fill - incr, size, incr, first) <==>
      Chosen(i, at, fill, size, incr, first) || i == at + first + (fill - incr)
  {
    OneStepDown(fill, incr);
    if at + (fill - incr) <= i < at + fill { WithinStep(fill - incr, i - at - (fill - incr), incr); }
    WithinStep(fill - incr, first, incr);
  }

  lemma WithinStep(fill: nat, d: nat, incr: nat)
    requires incr > 0 && fill % incr == 0 && d < incr
    ensures (fill + d) % incr == d
  {
    QuotientAtLeast(fill, 0, incr);
    ExactQuotient(fill, incr);
    MultipleMod(fill / incr, incr, d);
    SmallMod(d, incr);
  }

  lemma ExactQuotient(fill: nat, incr: nat)
    requires incr > 0 && fill % incr == 0
    ensures fill == fill / incr * incr
  {
  }

  /** Replicates an entry for all indices whose low bits are the code. */
  method Replicate(table: array<Entry>, at: nat, first: nat, incr: nat, size: nat, here: Entry)
    requires incr > 0 && size > 0 && size % incr == 0 && first < incr && at + size <= table.Length
    modifies table
    ensures forall i :: 0 <= i < table.Length ==> table[i] == if Chosen(i, at, 0, size, incr, first) then here
        else old(table[i])
  {
    hide Chosen;
    var fill: nat := size;
    forall i ensures !Chosen(i, at, size, size, incr, first) { NoneChosen(i, at, size, incr, first); }
    while fill != 0
      invariant fill <= size && fill % incr == 0
      invariant forall i :: 0 <= i < table.Length ==> table[i] == if Chosen(i, at, fill, size, incr, first) then here
          else old(table[i])
    {
      AtLeastOne(fill, incr);
      OneStepDown(fill, incr);
      forall i ensures Chosen(i, at, fill - incr, size, incr, first) <==>
        Chosen(i, at, fill, size, incr, first) || i == at + first + (fill - incr) {
        ChosenStep(i, at, fill, size, incr, first);
      }
      fill := fill - incr;
      table[at + first + fill] := here;
    }
  }

  lemma NoneChosen(i: int, at: nat, size: nat, incr: nat, first: nat)
    requires incr > 0
    ensures !Chosen(i, at, size, size, incr, first)
  {
  }

  lemma AtLeastOne(fill: nat, incr: nat)
    requires incr > 0 && fill > 0 && fill % incr == 0
    ensures fill >= incr
  {
  }

  lemma OneStepDown(fill: nat, incr: nat)
    requires incr > 0 && fill >= incr && fill % incr == 0
    ensures (fill - incr) % incr == 0
  {
    MultipleMod(1, incr, fill - incr);
  }

  /** The counts of the symbols from s on. */
  ghost predicate Remaining(lens: seq<int>, count: seq<int>, s: int) {
    && |count| == 16 && Used(lens, s) && count[lens[s]] == Offs(lens, lens[s] + 1) - Place(lens, s)
    && forall l :: lens[s] < l <= 15 ==> count[l] == Count(lens, l)
  }

  lemma {:induction false} RemainingStep(lens: seq<int>, count: seq<int>, s: int, t: int)
    requires Remaining(lens, count, s) && Used(lens, t) && Place(lens, t) == Place(lens, s) + 1
    ensures Remaining(lens, count[lens[s] := count[lens[s]] - 1], t)
    ensures count[lens[s]] - 1 == 0 <==> lens[t] != lens[s]
    ensures count[lens[s]] >= 1
  {
    hide Offs, Count, Place;
    OrderOfPlaces(lens, s, t);
    PlaceRange(lens, s);
    PlaceRange(lens, t);
    if lens[t] > lens[s] {
      OffsMonotone(lens, lens[s] + 1, lens[t]);
      OffsNext(lens, lens[t]);
    }
  }

  /** The last symbol is the one that empties the count of the longest codes. */
  lemma {:induction false} LastSymbol(lens: seq<int>, count: seq<int>, s: int)
    requires CodeLens(lens) && Remaining(lens, count, s)
    ensures Place(lens, s) + 1 == Offs(lens, 16) <==> count[lens[s]] - 1 == 0 && lens[s] == Longest(lens)
    ensures Place(lens, s) + 1 <= Offs(lens, 16)
  {
    hide Offs, Count, Place, Longest;
    LongestBounds(lens);
    PlaceRange(lens, s);
    var max := Longest(lens);
    NoneLonger(lens, max + 1);
    OffsNext(lens, max);
    if lens[s] < max { OffsMonotone(lens, lens[s] + 1, max); }
  }

  lemma {:induction false} NoneLonger(lens: seq<int>, n: nat)
    requires CodeLens(lens) && Longest(lens) < n <= 16
    ensures Offs(lens, n) == Offs(lens, 16)
    decreases 16 - n
  {
    hide Count, Longest;
    if n < 16 {
      LongestBounds(lens);
      CountNone(lens, n);
      NoneLonger(lens, n + 1);
    }
  }
}

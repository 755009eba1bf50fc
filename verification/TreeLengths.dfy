/** The lengths that gen_bitlen leaves form a complete canonical code. */
module TreeLengths {
  import opened Bits
  import opened BitReversal
  import opened Permutations
  import opened Counting
  import opened CodeTree
  import opened LengthRepair
  import opened GenBitlen
  import opened DeflateCodes

  ghost function SymbolsWith(l: seq<int>, b: int, k: nat): set<int>
    requires k <= |l|
  {
    set x | 0 <= x < k && l[x] == b
  }

  lemma {:induction false} CountIsCard(l: seq<int>, b: int, k: nat)
    requires k <= |l|
    ensures Count(l[..k], b) == |SymbolsWith(l, b, k)|
  {
    if k > 0 {
      CountIsCard(l, b, k - 1);
      assert l[..k][..k - 1] == l[..k - 1];
      assert SymbolsWith(l, b, k) == SymbolsWith(l, b, k - 1) + if l[k - 1] == b then {k - 1} else {};
    } else {
      assert SymbolsWith(l, b, 0) == {};
    }
  }

  ghost function LeavesWith(s: Shape, order: seq<int>, l: seq<int>, b: int, j: nat): set<int>
    requires |order| == |s.inner| && InRange(order, |l|)
  {
    set i | j <= i < |order| && !s.inner[i] && l[order[i]] == b :: order[i]
  }

  lemma {:induction false} FromIsCard(s: Shape, order: seq<int>, l: seq<int>, b: int, j: nat)
    requires j <= |order| == |s.inner| && InRange(order, |l|) && Distinct(order)
    ensures From(s, order, l, b, j) == |LeavesWith(s, order, l, b, j)|
    decreases |order| - j
  {
    if j == |order| {
      assert LeavesWith(s, order, l, b, j) == {};
    } else {
      FromIsCard(s, order, l, b, j + 1);
      assert LeavesWith(s, order, l, b, j) == LeavesWith(s, order, l, b, j + 1) + if !s.inner[j]
          && l[order[j]] == b then {order[j]} else {};
      assert order[j] !in LeavesWith(s, order, l, b, j + 1);
    }
  }

  /** The symbols of the code are the leaves of the tree; the others have length zero. */
  ghost predicate LeavesAreSymbols(s: Shape, order: seq<int>, l: seq<int>, maxCode: int) {
    && |order| == |s.inner| && InRange(order, |l|) && Distinct(order) && 0 <= maxCode < |l|
    && (forall i :: 0 <= i < |order| ==> (s.inner[i] <==> order[i] > maxCode))
    && (forall x :: 0 <= x <= maxCode && x !in order ==> l[x] == 0)
  }

  lemma {:induction false} SameCounts(s: Shape, order: seq<int>, l: seq<int>, maxCode: int, b: int)
    requires LeavesAreSymbols(s, order, l, maxCode) && b > 0
    ensures Count(l[..maxCode + 1], b) == From(s, order, l, b, 0)
  {
    hide Distinct;
    CountIsCard(l, b, maxCode + 1);
    FromIsCard(s, order, l, b, 0);
    var x, y := SymbolsWith(l, b, maxCode + 1), LeavesWith(s, order, l, b, 0);
    forall n | n in x ensures n in y {
      assert n in order;
      var i :| 0 <= i < |order| && order[i] == n;
    }
    assert x == y;
  }

  /** The same sum in units of 2^-15. */
  lemma {:induction false} SpaceOfLevels(lens: seq<int>, bl: seq<int>, m: nat, n: nat)
    requires 1 <= n <= m + 1 <= 16 && m < |bl| && forall b :: 1 <= b <= m ==> Count(lens, b) == bl[b]
    ensures Space(lens, n) == LevelKraft(bl, m, n - 1) * Pow2(15 - m)
  {
    hide Count, Pow2;
    if n > 1 {
      SpaceOfLevels(lens, bl, m, n - 1);
      PowSplit(15 - (n - 1), 15 - m);
      assert 15 - (n - 1) - (15 - m) == m - (n - 1);
      Distribute(LevelKraft(bl, m, n - 2), bl[n - 1] * Pow2(m - (n - 1)), Pow2(15 - m));
      ThreeFactors(bl[n - 1], Pow2(m - (n - 1)), Pow2(15 - m));
    } else {
      NoneOf(Pow2(15 - m));
    }
  }

  lemma ThreeFactors(a: int, b: int, c: int)
    ensures a * b * c == a * (b * c)
  {
  }

  /** The lengths after gen_bitlen are code lengths whose code is complete. */
  lemma {:induction false} CodeIsComplete(s: Shape, order: seq<int>, bl: seq<int>, l: seq<int>, maxCode: int, m: nat)
    requires LeavesAreSymbols(s, order, l, maxCode) && AllAssigned(s, order, bl, l) && 1 <= m <= 15 && m < |bl|
    requires LevelKraft(bl, m, m) == Pow2(m) && forall i :: 0 <= i < |order| && !s.inner[i] ==> 1 <= l[order[i]] <= m
    ensures CodeLens(l[..maxCode + 1]) && Complete(l[..maxCode + 1])
  {
    hide Count, Pow2, From, LevelKraft, Distinct;
    var lens := l[..maxCode + 1];
    forall b | 1 <= b <= m ensures Count(lens, b) == bl[b] { SameCounts(s, order, l, maxCode, b); }
    forall x | 0 <= x < |lens| ensures 0 <= lens[x] <= m {
      if x in order { var i :| 0 <= i < |order| && order[i] == x; }
    }
    SpaceOfLevels(lens, bl, m, m + 1);
    PowSplit(15, 15 - m);
    NothingLonger(lens, m + 1);
  }

  lemma {:induction false} NothingLonger(lens: seq<int>, n: nat)
    requires 1 <= n <= 16 && forall x :: 0 <= x < |lens| ==> lens[x] < n
    ensures Space(lens, 16) == Space(lens, n)
    decreases 16 - n
  {
    hide Count, Pow2;
    if n < 16 {
      NothingLonger(lens, n + 1);
      SpaceNext(lens, n);
      AbsentCount(lens, n);
      NoneOf(Pow2(15 - n));
    }
  }

  lemma {:induction false} AbsentCount(lens: seq<int>, n: int)
    requires forall x :: 0 <= x < |lens| ==> lens[x] < n
    ensures Count(lens, n) == 0
  {
    if lens != [] { AbsentCount(lens[..|lens| - 1], n); }
  }
}

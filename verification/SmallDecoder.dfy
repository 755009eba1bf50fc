/** The low-memory decoder: 20-bit cells split over two arrays, the T vector turned
    into its inverse by reversing the pointers of one cycle, and bytes recovered by
    binary search.  It emits what the fast decoder emits. */
module SmallDecoder {
  import opened Bytes
  import opened Permutations
  import opened Counting
  import opened LastFirst
  import opened InverseBwt

  /** Largest c with cftab[c] <= indx, found by halving. */
  method IndexIntoF(indx: int, cftab: array<int>) returns (nb: int)
    requires cftab.Length == 257 && cftab[0] <= indx < cftab[256]
    ensures 0 <= nb < 256 && cftab[nb] <= indx < cftab[nb + 1]
  {
    nb := 0;
    var na := 256;
    while true
      invariant 0 <= nb < na <= 256 && cftab[nb] <= indx < cftab[na]
      decreases na - nb
    {
      if na - nb == 1 { break; }
      var mid := (nb + na) / 2;
      if indx >= cftab[mid] { nb := mid; } else { na := mid; }
    }
  }

  ghost predicate MutualInverse(f: seq<int>, g: seq<int>) {
    && |f| == |g| && InRange(f, |f|) && InRange(g, |f|)
    && (forall x :: 0 <= x < |f| ==> g[f[x]] == x)
    && (forall x :: 0 <= x < |f| ==> f[g[x]] == x)
  }

  /** A path following f that has not met any index twice. */
  ghost predicate IsPath(path: seq<int>, f: seq<int>, start: int) {
    && path != [] && path[0] == start
    && InRange(path, |f|) && Distinct(path)
    && forall m :: 0 <= m < |path| - 1 ==> path[m + 1] == f[path[m]]
  }

  lemma PathStart(f: seq<int>, start: int)
    requires 0 <= start < |f|
    ensures IsPath([start], f, start)
  {
  }

  /** Following f once more either meets a new index or closes the cycle. */
  lemma PathStep(path: seq<int>, f: seq<int>, g: seq<int>, start: int)
    requires MutualInverse(f, g) && IsPath(path, f, start)
    ensures |f| == |g| && path != [] && 0 <= path[|path| - 1] < |f|
    ensures var i := path[|path| - 1]; var j := f[i];
            && 0 <= j < |f| && g[j] == i && j !in path[1..]
            && (j != start ==> IsPath(path + [j], f, start) && |path| < |f| && (path + [j])[1..] == path[1..] + [j])
  {
    var last := path[|path| - 1];
    var j := f[last];
    forall m | 1 <= m < |path| ensures path[m] != j {
      assert g[path[m]] == path[m - 1];
    }
    if j != start {
      assert IsPath(path + [j], f, start);
      Pigeonhole(path + [j], |f|);
    }
  }

  lemma PathCloses(path: seq<int>, f: seq<int>, g: seq<int>, start: int)
    requires MutualInverse(f, g) && IsPath(path, f, start) && f[path[|path| - 1]] == start
    ensures start in path && |f| == |g|
    ensures forall x :: x in path ==> 0 <= x < |f| && g[x] in path && (x in path[1..] || x == start)
  {
    forall x | x in path ensures 0 <= x < |f| && g[x] in path && (x in path[1..] || x == start) {
      var m :| 0 <= m < |path| && path[m] == x;
      if m > 0 { assert path[1..][m - 1] == x; assert g[x] == path[m - 1]; }
    }
  }

  lemma {:induction false} CumulativeEnds(cftab: seq<int>, column: seq<Byte>)
    requires Cumulative(cftab, column)
    ensures |cftab| == 257 && cftab[0] == 0 && cftab[256] == |column|
  {
    hide CountBelow;
    BelowEnds(column);
  }

  lemma CumulativeAt(cftab: seq<int>, column: seq<Byte>, c: int)
    requires Cumulative(cftab, column) && 0 <= c < 256
    ensures |cftab| == 257 && cftab[c] == CountBelow(column, c) && cftab[c + 1] == CountBelow(column, c + 1)
  {
    hide CountBelow;
  }

  class SmallUnsorter {
    const ll16: array<Half>
    const ll4: array<Byte>
    var tPos: int
    ghost var column: seq<Byte>
    ghost var origin: int
    ghost var steps: nat
    ghost var cycle: seq<int>

    constructor (blockSize100k: int)
      requires 0 <= blockSize100k <= 9
      ensures Shape() && fresh(ll16) && fresh(ll4) && ll16.Length == 100_000 * blockSize100k
    {
      ll16 := new Half[100_000 * blockSize100k];
      ll4 := new Byte[(1 + 100_000 * blockSize100k) / 2];
      tPos := 0;
      new;
      assert ll16 as object != ll4;
    }

    ghost predicate Shape() {
      ll16 as object != ll4 && ll16.Length <= MAX_BLOCK && ll4.Length == (1 + ll16.Length) / 2
    }

    /** The value SET_LL stored at i, as GET_LL reads it. */
    function GetLL(i: int): (v: int)
      requires Shape() && 0 <= i < ll16.Length
      reads ll16, ll4
      ensures 0 <= v < 0x10_0000
    {
      var nibble: int := if i % 2 == 0 then ll4[i / 2] % 16 else ll4[i / 2] / 16;
      nibble * 0x1_0000 + ll16[i]
    }

    method SetLL(i: int, n: int)
      requires Shape() && 0 <= i < ll16.Length && 0 <= n < 0x10_0000
      modifies ll16, ll4
      ensures GetLL(i) == n
      ensures forall k :: 0 <= k < ll16.Length && k != i ==> GetLL(k) == old(GetLL(k)) && ll16[k] == old(ll16[k])
    {
      ll16[i] := n % 0x1_0000;
      var nibble := n / 0x1_0000;
      var cell := ll4[i / 2];
      ll4[i / 2] := if i % 2 == 0 then cell / 16 * 16 + nibble else cell % 16 + 16 * nibble;
    }

    /** The column as the MTF stage left it. */
    ghost predicate Loaded()
      reads this, ll16
    {
      Shape() && |column| <= ll16.Length && forall i :: 0 <= i < |column| ==> ll16[i] == column[i]
    }

    ghost predicate Holds(f: seq<int>)
      reads this, ll16, ll4
    {
      Shape() && |f| == |column| <= ll16.Length && forall i :: 0 <= i < |f| ==> GetLL(i) == f[i]
    }

    /** The cells of the cycle through origin hold the successor vector. */
    ghost predicate Reversed(g: seq<int>)
      reads this`column, this`origin, this`cycle, ll16, ll4
    {
      && Shape() && |g| == |column| <= ll16.Length
      && origin in cycle
      && forall x :: x in cycle ==> 0 <= x < |g| && GetLL(x) == g[x] && g[x] in cycle
    }

    ghost predicate Ready()
      reads this, ll16, ll4
    {
      && 0 <= origin < |column| && Reversed(Successor(column))
      && tPos in cycle && tPos == RowAfter(column, origin, steps)
    }

    method ComputeT(cftabCopy: array<int>, nblock: int)
      requires Loaded() && nblock == |column|
      requires Cumulative(cftabCopy[..], column) && cftabCopy as object != ll4 && cftabCopy as object != ll16
      modifies ll16, ll4, cftabCopy
      ensures Holds(StableVector(column))
    {
      hide InvertsStable, Advanced, Cumulative, StableIndex, GetLL;
      AdvancedStart(cftabCopy[..], column);
      for i := 0 to nblock
        modifies ll16, ll4, cftabCopy
        invariant Advanced(cftabCopy[..], column, i)
        invariant forall k :: 0 <= k < i ==> GetLL(k) == StableIndex(column, k)
        invariant forall k :: i <= k < nblock ==> ll16[k] == column[k]
      {
        var uc := ll16[i] % 0x100;
        assert uc == column[i];
        ghost var before := cftabCopy[..];
        AdvancedPlace(before, column, i);
        SetLL(i, cftabCopy[uc]);
        cftabCopy[uc] := cftabCopy[uc] + 1;
        AdvancedStep(before, column, i, cftabCopy[..]);
      }
    }

    method ReverseCycle(origPtr: int, ghost f: seq<int>, ghost g: seq<int>)
      requires MutualInverse(f, g) && Holds(f) && 0 <= origPtr < |column|
      modifies ll16, ll4, this`origin, this`cycle
      ensures Reversed(g) && origin == origPtr && origPtr in cycle
    {
      hide GetLL, MutualInverse, IsPath;
      ghost var path := [origPtr];
      assert IsPath(path, f, origPtr) by { PathStart(f, origPtr); }
      var i := origPtr;
      var j := GetLL(i);
      PathStep(path, f, g, origPtr);
      while true
        invariant Shape() && |f| == |g| == |column| <= ll16.Length
        invariant IsPath(path, f, origPtr) && path != [] && i == path[|path| - 1]
        invariant 0 <= i < |f| && j == f[i]
        invariant forall x :: 0 <= x < |f| ==> GetLL(x) == if x in path[1..] then g[x] else f[x]
        decreases |f| - |path|
      {
        PathStep(path, f, g, origPtr);
        var tmp := GetLL(j);
        SetLL(j, i);
        i, j := j, tmp;
        if i == origPtr { break; }
        path := path + [i];
      }
      origin, cycle := origPtr, path;
      PathCloses(path, f, g, origPtr);
    }

    method Link(cftabCopy: array<int>, nblock: int, origPtr: int)
      requires Loaded() && 0 <= origPtr < nblock == |column|
      requires Cumulative(cftabCopy[..], column) && cftabCopy as object != ll4 && cftabCopy as object != ll16
      modifies ll16, ll4, cftabCopy, this`tPos, this`origin, this`steps, this`cycle
      ensures Ready() && column == old(column) && origin == origPtr && steps == 0
    {
      hide GetLL, InvertsStable, Cumulative, CountBelow, Holds, MutualInverse, StableIndex, StableVector, Successor,
          Loaded, Reversed, Shape;
      ComputeT(cftabCopy, nblock);
      StableInverse(column);
      ReverseCycle(origPtr, StableVector(column), Successor(column));
      tPos, steps := origPtr, 0;
    }

    method GetSmall(cftab: array<int>) returns (corrupt: bool, ch: Byte)
      requires Ready() && Cumulative(cftab[..], column)
      modifies this`tPos, this`steps
      ensures Ready() && !corrupt && steps == old(steps) + 1
      ensures column == old(column) && origin == old(origin)
      ensures ch == Emitted(column, origin, old(steps))
    {
      hide InvertsStable, GetLL, CountBelow, Count, StableIndex, Successor, Cumulative;
      corrupt, ch := tPos >= ll16.Length, 0;
      if corrupt { return; }
      CumulativeEnds(cftab[..], column);
      ch := IndexIntoF(tPos, cftab);
      CumulativeAt(cftab[..], column, ch);
      FirstColumn(column, tPos, ch);
      tPos := GetLL(tPos);
      steps := steps + 1;
    }
  }

  lemma StableInverse(l: seq<Byte>)
    ensures MutualInverse(StableVector(l), Successor(l))
  {
  }
}

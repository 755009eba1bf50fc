/** The move-to-front list: one abstract step, and the decompressor's two-level
    sliding representation of it. */
module MoveToFront {
  import opened Bytes

  function ToFront<T>(s: seq<T>, k: int): (t: seq<T>)
    requires 0 <= k < |s|
    ensures |t| == |s|
  {
    [s[k]] + s[..k] + s[k + 1..]
  }

  /** Shifting the elements before k up by one and putting element k first. */
  lemma ShiftedToFront<T>(s: seq<T>, k: int, t: seq<T>)
    requires 0 <= k < |s| == |t|
    requires forall q :: 0 <= q < |s| ==> t[q] == s[if q == 0 then k else if q <= k then q - 1 else q]
    ensures t == ToFront(s, k)
  {
  }

  const MTFA_SIZE: int := 4096
  const MTFL_SIZE: int := 16
  const TOP: int := MTFA_SIZE - 256

  /** Runs of 16 cells in increasing position; run `hole` may lack its last cell. */
  ghost predicate Spaced(b: seq<int>, hole: int) {
    && |b| == 16 && 0 <= b[0]
    && (forall i :: 0 <= i < 16 ==> b[i] <= TOP + 16 * i + if i == hole then 1 else 0)
    && forall i, j :: 0 <= i < j < 16 ==> b[i] + 16 <= b[j] + if i == hole then 1 else 0
  }

  lemma SpacedBounds(b: seq<int>, hole: int, i: int, j: int)
    requires Spaced(b, hole) && 0 <= i < 16 && 0 <= j < 16 && (i == hole ==> j < 15)
    ensures 0 <= b[i] + j < MTFA_SIZE
  {
    if i > 0 { assert b[0] + 16 <= b[i] + 1; }
  }

  /** Element j of run i. */
  ghost function Cell(a: seq<Byte>, b: seq<int>, hole: int, i: int, j: int): Byte
    requires |a| == MTFA_SIZE && Spaced(b, hole) && 0 <= i < 16 && 0 <= j < 16 && (i == hole ==> j < 15)
  {
    SpacedBounds(b, hole, i, j);
    a[b[i] + j]
  }

  /** The list held by the runs, all 16 long. */
  ghost function Full(a: seq<Byte>, b: seq<int>): (s: seq<Byte>)
    requires |a| == MTFA_SIZE && Spaced(b, -1)
    ensures |s| == 256
    ensures forall k :: 0 <= k < 256 ==> s[k] == Cell(a, b, -1, k / 16, k % 16)
  {
    seq(256, k requires 0 <= k < 256 => Cell(a, b, -1, k / 16, k % 16))
  }

  /** Position in the sixteen full runs of element k of a list with a hole at the end of run m. */
  function Skip(k: int, m: int): int {
    if k < 16 * m + 15 then k else k + 1
  }

  /** The list held by the runs when run m has only its first 15 cells. */
  ghost function Holed(a: seq<Byte>, b: seq<int>, m: int): (s: seq<Byte>)
    requires |a| == MTFA_SIZE && 0 <= m < 16 && Spaced(b, m)
    ensures |s| == 255
    ensures forall k :: 0 <= k < 255 ==> s[k] == Cell(a, b, m, Skip(k, m) / 16, Skip(k, m) % 16)
  {
    seq(255, k requires 0 <= k < 255 => Cell(a, b, m, Skip(k, m) / 16, Skip(k, m) % 16))
  }

  /** Handing the last cell of run m-1 to the free slot before run m moves the hole
      and leaves the list alone. */
  lemma HoleStep(a: seq<Byte>, b: seq<int>, m: int, a1: seq<Byte>, b1: seq<int>)
    requires |a| == MTFA_SIZE && 0 < m < 16 && Spaced(b, m)
    requires 0 <= b[m] - 1 < MTFA_SIZE && 0 <= b[m - 1] + 15 < MTFA_SIZE
    requires b1 == b[m := b[m] - 1] && a1 == a[b1[m] := a[b[m - 1] + 15]]
    ensures Spaced(b1, m - 1) && Holed(a1, b1, m - 1) == Holed(a, b, m)
  {
    assert Spaced(b1, m - 1);
    var s, t := Holed(a, b, m), Holed(a1, b1, m - 1);
    forall k | 0 <= k < 255 ensures t[k] == s[k] {
      HoleStepAt(a, b, m, a1, b1, k);
    }
  }

  lemma HoleStepAt(a: seq<Byte>, b: seq<int>, m: int, a1: seq<Byte>, b1: seq<int>, k: int)
    requires |a| == MTFA_SIZE && 0 < m < 16 && Spaced(b, m) && Spaced(b1, m - 1)
    requires 0 <= b[m] - 1 < MTFA_SIZE && 0 <= b[m - 1] + 15 < MTFA_SIZE
    requires b1 == b[m := b[m] - 1] && a1 == a[b1[m] := a[b[m - 1] + 15]]
    requires 0 <= k < 255
    ensures Holed(a1, b1, m - 1)[k] == Holed(a, b, m)[k]
  {
    var q1 := Skip(k, m - 1);
    var i, j := q1 / 16, q1 % 16;
    SpacedBounds(b1, m - 1, i, j);
    if k == 16 * m - 1 {
    } else {
      assert b1[i] + j != b1[m] by {
        if i < m - 1 { assert b[i] + 16 <= b[m - 1] && b[m - 1] + 16 <= b[m]; }
      }
    }
  }

  /** Filling the hole of run 0 from the left completes a move to front. */
  lemma HoleFill(a: seq<Byte>, b: seq<int>, a1: seq<Byte>, b1: seq<int>, x: Byte)
    requires |a| == MTFA_SIZE && Spaced(b, 0) && 0 < b[0] <= MTFA_SIZE
    requires b1 == b[0 := b[0] - 1] && a1 == a[b1[0] := x]
    ensures Spaced(b1, -1) && Full(a1, b1) == [x] + Holed(a, b, 0)
  {
    assert Spaced(b1, -1);
    var s, t := Full(a1, b1), [x] + Holed(a, b, 0);
    forall k | 0 <= k < 256 ensures s[k] == t[k] {
      SpacedBounds(b1, -1, k / 16, k % 16);
      if k / 16 > 0 { assert b[0] + 16 <= b[k / 16] + 1; }
    }
  }

  /** Positions lo..lo+off after sliding the first `off` of them one place up. */
  ghost function ClosedUp(a: seq<Byte>, lo: int, off: int): (a1: seq<Byte>)
    requires 0 <= lo && 0 <= off && lo + off < |a|
    ensures |a1| == |a|
    ensures forall p :: 0 <= p < |a| ==> a1[p] == a[if lo < p <= lo + off then p - 1 else p]
  {
    a[..lo + 1] + a[lo..lo + off] + a[lo + off + 1..]
  }

  lemma NothingClosed(a: seq<Byte>, lo: int)
    requires 0 <= lo < |a|
    ensures ClosedUp(a, lo, 0) == a
  {
  }

  /** Closing up run m over its element `off` takes element 16m+off out of the list. */
  lemma HoleOpen(a: seq<Byte>, b: seq<int>, m: int, off: int, a1: seq<Byte>, b1: seq<int>)
    requires |a| == |a1| == MTFA_SIZE && 0 <= m < 16 && 0 <= off < 16 && Spaced(b, -1)
    requires b1 == b[m := b[m] + 1]
    requires 0 <= b[m] && b[m] + off < MTFA_SIZE && a1 == ClosedUp(a, b[m], off)
    ensures Spaced(b1, m)
    ensures var s := Full(a, b); Holed(a1, b1, m) == s[..16 * m + off] + s[16 * m + off + 1..]
  {
    assert Spaced(b1, m);
    var s, t := Full(a, b), Holed(a1, b1, m);
    var u := s[..16 * m + off] + s[16 * m + off + 1..];
    forall k | 0 <= k < 255 ensures t[k] == u[k] {
      HoleOpenAt(a, b, m, off, a1, b1, k);
    }
  }

  lemma HoleOpenAt(a: seq<Byte>, b: seq<int>, m: int, off: int, a1: seq<Byte>, b1: seq<int>, k: int)
    requires |a| == |a1| == MTFA_SIZE && 0 <= m < 16 && 0 <= off < 16 && Spaced(b, -1) && Spaced(b1, m)
    requires b1 == b[m := b[m] + 1]
    requires 0 <= b[m] && b[m] + off < MTFA_SIZE && a1 == ClosedUp(a, b[m], off)
    requires 0 <= k < 255
    ensures Holed(a1, b1, m)[k] == Full(a, b)[if k < 16 * m + off then k else k + 1]
  {
    var q := Skip(k, m);
    var i, j := q / 16, q % 16;
    SpacedBounds(b1, m, i, j);
    var p := b1[i] + j;
    assert Holed(a1, b1, m)[k] == a1[p];
    var k1 := if k < 16 * m + off then k else k + 1;
    SpacedBounds(b, -1, k1 / 16, k1 % 16);
    assert Full(a, b)[k1] == a[b[k1 / 16] + k1 % 16];
    if i < m {
      assert b[i] + 16 <= b[m] && k1 == q;
    } else if i > m {
      assert b[m] + 16 <= b[i] && k1 == q;
    } else {
      assert k1 / 16 == m && k1 % 16 == if j < off then j else j + 1;
    }
  }

  lemma NearStep(a: seq<Byte>, b: seq<int>, nn: int, a1: seq<Byte>)
    requires |a| == MTFA_SIZE && Spaced(b, -1) && 0 <= nn < 16 && 0 <= b[0] && b[0] + nn < MTFA_SIZE
    requires a1 == ClosedUp(a, b[0], nn)[b[0] := a[b[0] + nn]]
    ensures Full(a1, b) == ToFront(Full(a, b), nn)
  {
    var s, t := Full(a1, b), ToFront(Full(a, b), nn);
    forall k | 0 <= k < 256 ensures s[k] == t[k] {
      NearStepAt(a, b, nn, a1, k);
    }
  }

  lemma NearStepAt(a: seq<Byte>, b: seq<int>, nn: int, a1: seq<Byte>, k: int)
    requires |a| == MTFA_SIZE && Spaced(b, -1) && 0 <= nn < 16 && 0 <= b[0] && b[0] + nn < MTFA_SIZE
    requires a1 == ClosedUp(a, b[0], nn)[b[0] := a[b[0] + nn]] && 0 <= k < 256
    ensures Full(a1, b)[k] == Full(a, b)[if k == 0 then nn else if k <= nn then k - 1 else k]
  {
    SpacedBounds(b, -1, k / 16, k % 16);
    if k / 16 > 0 { assert b[0] + 16 <= b[k / 16]; }
    var k1 := if k == 0 then nn else if k <= nn then k - 1 else k;
    SpacedBounds(b, -1, k1 / 16, k1 % 16);
    assert Full(a, b)[k1] == a[b[k1 / 16] + k1 % 16];
    assert Full(a1, b)[k] == a1[b[k / 16] + k % 16];
  }

  /** A far element: open a hole over it, move the hole to run 0, fill it. */
  lemma FarStep(s: seq<Byte>, holed: seq<Byte>, t: seq<Byte>, nn: int)
    requires 0 <= nn < |s| && holed == s[..nn] + s[nn + 1..] && t == [s[nn]] + holed
    ensures t == ToFront(s, nn)
  {
  }

  /** The array after copying the 16 cells at `from` to `to`, highest cell first. */
  ghost function CopiedUp(a: seq<Byte>, from: int, to: int): (a1: seq<Byte>)
    requires 0 <= from <= to && to + 16 <= |a|
    ensures |a1| == |a|
    ensures forall p :: 0 <= p < |a| ==> a1[p] == a[if to <= p < to + 16 then p - to + from else p]
  {
    a[..to] + a[from..from + 16] + a[to + 16..]
  }

  /** Moving one run up to its home place leaves the list alone, provided the runs
      above it are already home. */
  lemma RebuildRun(a: seq<Byte>, b: seq<int>, m: int, a1: seq<Byte>, b1: seq<int>)
    requires |a| == MTFA_SIZE && Spaced(b, -1) && 0 <= m < 16 && 0 <= b[m] <= TOP + 16 * m
    requires forall i :: m < i < 16 ==> b[i] == TOP + 16 * i
    requires a1 == CopiedUp(a, b[m], TOP + 16 * m) && b1 == b[m := TOP + 16 * m]
    ensures Spaced(b1, -1) && Full(a1, b1) == Full(a, b)
  {
    assert Spaced(b1, -1);
    var s, t := Full(a, b), Full(a1, b1);
    forall k | 0 <= k < 256 ensures t[k] == s[k] {
      var i, j := k / 16, k % 16;
      SpacedBounds(b, -1, i, j);
      SpacedBounds(b1, -1, i, j);
      if i < m { assert b[i] + 16 <= b[m]; }
    }
  }

  lemma ElementAt(a: seq<Byte>, b: seq<int>, i: int, j: int)
    requires |a| == MTFA_SIZE && Spaced(b, -1) && 0 <= i < 16 && 0 <= j < 16
    ensures 0 <= b[i] + j < MTFA_SIZE && Full(a, b)[16 * i + j] == a[b[i] + j]
  {
    hide Spaced;
    SpacedBounds(b, -1, i, j);
    var k := 16 * i + j;
    assert k / 16 == i && k % 16 == j;
  }

  lemma RunBelowTop(b: seq<int>, i: int)
    requires Spaced(b, -1) && 0 <= i < 16
    ensures 0 <= b[i] <= TOP + 16 * i
  {
    SpacedBounds(b, -1, i, 0);
  }

  /** s->mtfa and s->mtfbase. */
  class TwoLevelList {
    const mtfa: array<Byte>
    const mtfbase: array<int>

    ghost predicate Shape() {
      mtfa.Length == MTFA_SIZE && mtfbase.Length == 16 && mtfa as object != mtfbase
    }

    ghost predicate Valid()
      reads mtfa, mtfbase
    {
      Shape() && Spaced(mtfbase[..], -1) && 0 < mtfbase[0]
    }

    ghost function Contents(): (s: seq<Byte>)
      requires Valid()
      reads mtfa, mtfbase
      ensures |s| == 256
    {
      Full(mtfa[..], mtfbase[..])
    }

    constructor ()
      ensures Valid() && fresh(mtfa) && fresh(mtfbase)
      ensures forall k :: 0 <= k < 256 ==> Contents()[k] == k
    {
      mtfa, mtfbase := new Byte[MTFA_SIZE], new int[16];
      new;
      var kk := MTFA_SIZE - 1;
      var ii := 15;
      while ii >= 0
        invariant -1 <= ii < 16 && kk == TOP + 16 * ii + 15
        invariant forall i :: ii < i < 16 ==> mtfbase[i] == TOP + 16 * i
        invariant forall p :: kk < p < MTFA_SIZE ==> mtfa[p] == p - TOP
      {
        var jj := 15;
        while jj >= 0
          invariant -1 <= jj < 16 && kk == TOP + 16 * ii + jj
          invariant forall i :: ii < i < 16 ==> mtfbase[i] == TOP + 16 * i
          invariant forall p :: kk < p < MTFA_SIZE ==> mtfa[p] == p - TOP
        {
          mtfa[kk] := ii * 16 + jj;
          kk := kk - 1;
          jj := jj - 1;
        }
        mtfbase[ii] := kk + 1;
        ii := ii - 1;
      }
      forall k | 0 <= k < 256 ensures Contents()[k] == k {
        assert mtfbase[..][k / 16] == TOP + 16 * (k / 16);
        assert mtfa[..][TOP + k] == k;
      }
    }

    /** One cell is copied up. */
    method ShiftCell(ghost a: seq<Byte>, z: int, ghost off: int)
      requires Shape() && |a| == MTFA_SIZE && 0 < z && 0 <= off && z + off < MTFA_SIZE
          && mtfa[..] == ClosedUp(a, z, off)
      modifies mtfa
      ensures mtfa[..] == ClosedUp(a, z - 1, off + 1)
    {
      mtfa[z] := mtfa[z - 1];
    }

    /** Slides `off` cells up by one from lo, the last one being overwritten. */
    method SlideFour(lo: int, off: int)
      requires Shape() && 0 <= lo && 0 <= off && lo + off < MTFA_SIZE
      modifies mtfa
      ensures mtfa[..] == ClosedUp(old(mtfa[..]), lo, off)
    {
      hide ClosedUp;
      ghost var a := mtfa[..];
      NothingClosed(a, lo + off);
      var nn := off;
      while nn > 3
        invariant 0 <= nn <= off && mtfa[..] == ClosedUp(a, lo + nn, off - nn)
      {
        var z := lo + nn;
        ShiftCell(a, z, off - nn);
        ShiftCell(a, z - 1, off - nn + 1);
        ShiftCell(a, z - 2, off - nn + 2);
        ShiftCell(a, z - 3, off - nn + 3);
        nn := nn - 4;
      }
      while nn > 0
        invariant 0 <= nn <= off && mtfa[..] == ClosedUp(a, lo + nn, off - nn)
      {
        ShiftCell(a, lo + nn, off - nn);
        nn := nn - 1;
      }
    }

    method SlideOne(lo: int, off: int)
      requires Shape() && 0 <= lo && 0 <= off && lo + off < MTFA_SIZE
      modifies mtfa
      ensures mtfa[..] == ClosedUp(old(mtfa[..]), lo, off)
    {
      var pp := lo + off;
      while pp > lo
        invariant lo <= pp <= lo + off
        invariant forall p :: 0 <= p < MTFA_SIZE ==>
          mtfa[p] == old(mtfa[..])[if pp < p <= lo + off then p - 1 else p]
      {
        mtfa[pp] := mtfa[pp - 1];
        pp := pp - 1;
      }
    }

    /** Carries the hole from run lno down to run 0. */
    method Cascade(first: int)
      requires Shape() && 0 <= first < 16 && Spaced(mtfbase[..], first) && 0 < mtfbase[0]
      modifies mtfa, mtfbase
      ensures Spaced(mtfbase[..], 0) && mtfbase[0] == old(mtfbase[0])
      ensures Holed(mtfa[..], mtfbase[..], 0) == old(Holed(mtfa[..], mtfbase[..], first))
    {
      ghost var holed := Holed(mtfa[..], mtfbase[..], first);
      var lno := first;
      while lno > 0
        invariant 0 <= lno <= first && Spaced(mtfbase[..], lno)
        invariant mtfbase[0] == old(mtfbase[0])
        invariant Holed(mtfa[..], mtfbase[..], lno) == holed
      {
        ghost var a, b := mtfa[..], mtfbase[..];
        assert b[lno - 1] + 16 <= b[lno];
        assert b[0] <= b[lno - 1];
        mtfbase[lno] := mtfbase[lno] - 1;
        mtfa[mtfbase[lno]] := mtfa[mtfbase[lno - 1] + MTFL_SIZE - 1];
        assert mtfbase[..] == b[lno := b[lno] - 1];
        assert mtfa[..] == a[b[lno] - 1 := a[b[lno - 1] + 15]];
        HoleStep(a, b, lno, mtfa[..], mtfbase[..]);
        lno := lno - 1;
      }
    }

    /** Copies run ii to the cells below kk0, last cell first. */
    method CopyRun(ii: int, kk0: int) returns (kk: int)
      requires Shape() && 0 <= ii < 16 && 0 <= mtfbase[ii] <= kk0 - 15 && kk0 < MTFA_SIZE
      modifies mtfa
      ensures kk == kk0 - 16 && mtfa[..] == CopiedUp(old(mtfa[..]), mtfbase[ii], kk0 - 15)
    {
      ghost var a, lo := mtfa[..], mtfbase[ii];
      kk := kk0;
      var jj := 15;
      while jj >= 0
        invariant -1 <= jj < 16 && kk == kk0 - 15 + jj
        invariant forall p :: 0 <= p < MTFA_SIZE ==> mtfa[p] == a[if kk < p <= kk0 then p - (kk0 - 15) + lo else p]
      {
        mtfa[kk] := mtfa[mtfbase[ii] + jj];
        kk := kk - 1;
        jj := jj - 1;
      }
    }

    /** Moves all runs back to the top of the array once run 0 has reached its bottom. */
    method Rebuild()
      requires Shape() && Spaced(mtfbase[..], -1)
      modifies mtfa, mtfbase
      ensures Valid() && Contents() == old(Full(mtfa[..], mtfbase[..]))
    {
      hide Full, Spaced, CopiedUp;
      var kk := MTFA_SIZE - 1;
      var ii := 15;
      while ii >= 0
        invariant -1 <= ii < 16 && kk == TOP + 16 * ii + 15
        invariant Spaced(mtfbase[..], -1) && forall i :: ii < i < 16 ==> mtfbase[i] == TOP + 16 * i
        invariant Full(mtfa[..], mtfbase[..]) == old(Full(mtfa[..], mtfbase[..]))
      {
        ghost var a, b := mtfa[..], mtfbase[..];
        RunBelowTop(b, ii);
        kk := CopyRun(ii, kk);
        mtfbase[ii] := kk + 1;
        RebuildRun(a, b, ii, mtfa[..], mtfbase[..]);
        ii := ii - 1;
      }
    }

    /** uc = MTF(nn): element nn is returned and moved to the front. */
    method Take(nn: int) returns (uc: Byte)
      requires Valid() && 0 <= nn < 256
      modifies mtfa, mtfbase
      ensures Valid() && uc == old(Contents())[nn]
      ensures Contents() == ToFront(old(Contents()), nn)
    {
      if nn < MTFL_SIZE {
        uc := TakeNear(nn);
      } else {
        uc := TakeFar(nn);
        if mtfbase[0] == 0 { Rebuild(); }
      }
    }

    method Front() returns (uc: Byte)
      requires Valid()
      ensures uc == Contents()[0]
    {
      SpacedBounds(mtfbase[..], -1, 0, 0);
      uc := mtfa[mtfbase[0]];
    }

    method TakeNear(nn: int) returns (uc: Byte)
      requires Valid() && 0 <= nn < MTFL_SIZE
      modifies mtfa
      ensures Valid() && uc == old(Contents())[nn]
      ensures Contents() == ToFront(old(Contents()), nn)
    {
      hide Full, Spaced, ClosedUp, ToFront, Contents, Valid;
      ghost var a, b := mtfa[..], mtfbase[..];
      ValidParts();
      ElementAt(a, b, 0, nn);
      RunBelowTop(b, 0);
      var pp := mtfbase[0];
      uc := mtfa[pp + nn];
      SlideFour(pp, nn);
      mtfa[pp] := uc;
      assert mtfa[..] == ClosedUp(a, b[0], nn)[b[0] := uc];
      NearStep(a, b, nn, mtfa[..]);
      ValidIs();
    }

    method TakeFar(nn: int) returns (uc: Byte)
      requires Valid() && MTFL_SIZE <= nn < 256
      modifies mtfa, mtfbase
      ensures Spaced(mtfbase[..], -1) && uc == old(Contents())[nn]
      ensures Full(mtfa[..], mtfbase[..]) == ToFront(old(Contents()), nn)
    {
      ghost var a, b := mtfa[..], mtfbase[..];
      ghost var s := Full(a, b);
      var lno, off := nn / MTFL_SIZE, nn % MTFL_SIZE;
      uc := OpenHole(lno, off);
      Cascade(lno);
      PutFirst(uc);
      FarStep(s, s[..nn] + s[nn + 1..], Full(mtfa[..], mtfbase[..]), nn);
    }

    /** Run lno begins one place further on. */
    method RaiseBase(lno: int)
      requires 0 <= lno < mtfbase.Length
      modifies mtfbase
      ensures mtfbase[..] == old(mtfbase[..])[lno := old(mtfbase[lno]) + 1]
    {
      mtfbase[lno] := mtfbase[lno] + 1;
    }

    lemma ValidIs()
      requires Shape() && Spaced(mtfbase[..], -1) && mtfbase.Length == 16 && 0 < mtfbase[0]
      ensures Valid() && Contents() == Full(mtfa[..], mtfbase[..])
    {
      hide Full, Spaced;
    }

    lemma ValidParts()
      requires Valid()
      ensures Shape() && mtfa.Length == MTFA_SIZE && mtfbase.Length == 16 && mtfa as object != mtfbase
      ensures Spaced(mtfbase[..], -1) && 0 < mtfbase[0] && Contents() == Full(mtfa[..], mtfbase[..])
    {
      hide Full, Spaced;
    }

    method OpenHole(lno: int, off: int) returns (uc: Byte)
      requires Valid() && 0 < lno < 16 && 0 <= off < 16
      modifies mtfa, mtfbase
      ensures Spaced(mtfbase[..], lno) && mtfbase[0] == old(mtfbase[0])
      ensures uc == old(Contents())[16 * lno + off]
      ensures Holed(mtfa[..], mtfbase[..], lno) ==
              old(Contents())[..16 * lno + off] + old(Contents())[16 * lno + off + 1..]
    {
      hide *;
      ghost var a, b := mtfa[..], mtfbase[..];
      ValidParts();
      ElementAt(a, b, lno, off);
      RunBelowTop(b, lno);
      uc := mtfa[mtfbase[lno] + off];
      SlideOne(mtfbase[lno], off);
      RaiseBase(lno);
      HoleOpen(a, b, lno, off, mtfa[..], mtfbase[..]);
    }

    method PutFirst(uc: Byte)
      requires Shape() && Spaced(mtfbase[..], 0) && 0 < mtfbase[0]
      modifies mtfa, mtfbase
      ensures Spaced(mtfbase[..], -1) && Full(mtfa[..], mtfbase[..]) == [uc] + old(Holed(mtfa[..], mtfbase[..], 0))
    {
      ghost var a, b := mtfa[..], mtfbase[..];
      mtfbase[0] := mtfbase[0] - 1;
      mtfa[mtfbase[0]] := uc;
      HoleFill(a, b, mtfa[..], mtfbase[..], uc);
    }
  }
}

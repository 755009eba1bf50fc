/** generateMTFValues: the sorted block becomes run and position symbols, written as
    16-bit halves over the 32-bit `ptr` words they are computed from. */
module MtfEncoder {
  import opened Wrappers
  import opened Bytes
  import opened Permutations
  import opened Rotations
  import opened MoveToFront
  import opened ZeroRuns
  import opened ByteMaps

  /** ptr[i] read from the memory it shares with mtfv (little-endian halves). */
  function PtrWord(arr1: seq<Half>, i: int): (w: int)
    requires 0 <= i && 2 * i + 1 < |arr1|
  {
    var low: int, high: int := arr1[2 * i], arr1[2 * i + 1];
    low + 0x1_0000 * high
  }

  ghost function PtrView(arr1: seq<Half>, n: nat): (p: seq<int>)
    requires |arr1| == 2 * n
    ensures |p| == n && forall i :: 0 <= i < n ==> p[i] == PtrWord(arr1, i)
  {
    seq(n, i requires 0 <= i < n => PtrWord(arr1, i))
  }

  /** The initial list of the decoder; its first nInUse entries are the encoder's. */
  function Identity(): (s: seq<Byte>)
    ensures |s| == 256 && forall i :: 0 <= i < 256 ==> s[i] == i
  {
    seq(256, i requires 0 <= i < 256 => i)
  }

  lemma {:induction false} DigitsShort(k: nat)
    ensures |RunDigits(k)| <= k
  {
    if k > 0 { DigitsShort((k - 1) / 2); }
  }

  /** Appends the digits of a finished run at mtfv[wr]. */
  method FlushRun(mtfv: array<Half>, wr0: int, run: int) returns (wr: int)
    requires run > 0 && 0 <= wr0 && wr0 + run <= mtfv.Length
    modifies mtfv
    ensures wr0 <= wr <= wr0 + run
    ensures mtfv[..wr] == old(mtfv[..wr0]) + RunDigits(run)
    ensures forall k :: wr <= k < mtfv.Length ==> mtfv[k] == old(mtfv[k])
  {
    hide RunDigits;
    DigitsShort(run);
    wr := wr0;
    var zPend := run - 1;
    ghost var before := mtfv[..wr0];
    ghost var target := before + RunDigits(run);
    while true
      invariant zPend >= 0 && wr0 <= wr && wr + |RunDigits(zPend + 1)| == |target| <= wr0 + run
      invariant target[wr..] == RunDigits(zPend + 1)
      invariant forall k :: 0 <= k < wr ==> mtfv[k] == target[k]
      invariant forall k :: wr <= k < mtfv.Length ==> mtfv[k] == old(mtfv[k])
      decreases zPend
    {
      DigitsStep(zPend, target, wr);
      mtfv[wr] := if zPend % 2 == 1 then RUNB else RUNA;
      wr := wr + 1;
      if zPend < 2 { break; }
      zPend := (zPend - 2) / 2;
    }
    assert mtfv[..wr] == target;
  }

  /** The first digit of a run of z + 1, and what is left when it is written. */
  lemma {:induction false} DigitsStep(z: nat, target: seq<int>, wr: nat)
    requires wr <= |target| && target[wr..] == RunDigits(z + 1)
    ensures wr < |target| && target[wr] == z % 2 && target[wr + 1..] == RunDigits(z / 2)
    ensures z < 2 ==> RunDigits(z / 2) == []
    ensures z >= 2 ==> z / 2 == (z - 2) / 2 + 1
  {
    assert target[wr] == target[wr..][0] && target[wr + 1..] == target[wr..][1..];
  }

  /** Finds ll in yy and moves it to the front, shifting on the way. */
  method MoveFound(yy: array<Byte>, n: int, ll: Byte) returns (j: int)
    requires 1 < n <= yy.Length && yy[0] != ll && ll in yy[..n]
    modifies yy
    ensures 0 < j < n && old(yy[j]) == ll
    ensures yy[..n] == ToFront(old(yy[..n]), j)
  {
    hide ToFront;
    ghost var y0 := yy[..];
    ghost var m := FoundAt(y0[..n], ll);
    var rtmp := yy[1];
    yy[1] := yy[0];
    j := 1;
    while ll != rtmp
      invariant 1 <= j <= m && rtmp == y0[j]
      invariant forall q :: 0 <= q < yy.Length ==> yy[q] == y0[if 1 <= q <= j then q - 1 else q]
      decreases m - j
    {
      j := j + 1;
      var rtmp2 := rtmp;
      rtmp := yy[j];
      yy[j] := rtmp2;
    }
    yy[0] := rtmp;
    ShiftedToFront(y0[..n], j, yy[..n]);
  }

  lemma FoundAt(y: seq<Byte>, x: Byte) returns (m: int)
    requires x in y && y[0] != x
    ensures 1 <= m < |y| && y[m] == x
  {
    m :| 0 <= m < |y| && y[m] == x;
  }

  lemma ToFrontMembers(s: seq<Byte>, k: int, v: int)
    requires 0 <= k < |s| && v in s
    ensures v in ToFront(s, k)
  {
    var i :| 0 <= i < |s| && s[i] == v;
    var t := ToFront(s, k);
    assert t[if i == k then 0 else if i < k then i + 1 else i] == v;
  }

  lemma ToFrontPrefix(s: seq<Byte>, k: int, n: int)
    requires 0 <= k < n <= |s|
    ensures ToFront(s, k)[..n] == ToFront(s[..n], k)
  {
  }

  const MAX_BLOCK: int := 900_000

  /** Where the encoder stands after the first i values: symbols written for all but
      the last zPend of them, which repeat the front of the list. */
  ghost predicate Progress(syms: seq<int>, yy: seq<Byte>, values: seq<Byte>, i: int, zPend: nat)
    requires 0 <= i <= |values| && 1 <= |yy| <= 256
  {
    && Symbols(syms) && |syms| + zPend <= i
    && After(syms, Identity(), |values|).Some?
    && var r := After(syms, Identity(), |values|).value;
       r.weight == 1 && r.pending == 0 && r.list[..|yy|] == yy && r.out + Rep(yy[0], zPend) == values[..i]
  }

  lemma {:induction false} ProgressRepeat(syms: seq<int>, yy: seq<Byte>, values: seq<Byte>, i: int, zPend: nat)
    requires 0 <= i < |values| && 1 <= |yy| <= 256 && Progress(syms, yy, values, i, zPend)
    requires values[i] == yy[0]
    ensures Progress(syms, yy, values, i + 1, zPend + 1)
  {
    assert Rep(yy[0], zPend + 1) == Rep(yy[0], zPend) + [yy[0]];
    assert values[..i + 1] == values[..i] + [values[i]];
    var r := After(syms, Identity(), |values|).value;
    assert r.out + Rep(yy[0], zPend + 1) == (r.out + Rep(yy[0], zPend)) + [yy[0]];
  }

  /** Writing out the pending run leaves a reader with exactly the values so far. */
  lemma {:induction false} ProgressFlush(syms: seq<int>, yy: seq<Byte>, values: seq<Byte>, i: int, zPend: nat)
    requires 0 <= i <= |values| <= MAX_BLOCK && 1 <= |yy| <= 256 && Progress(syms, yy, values, i, zPend)
    ensures Symbols(syms + RunDigits(zPend)) && |syms + RunDigits(zPend)| <= i
    ensures var t := After(syms + RunDigits(zPend), Identity(), |values|);
      && t.Some? && Flushed(t.value) == values[..i] && t.value.list[..|yy|] == yy
      && |t.value.out| + t.value.pending == i
  {
    hide After;
    DigitsShort(zPend);
    RunDigitsRead(syms, zPend, Identity(), |values|);
    var r := After(syms, Identity(), |values|).value;
    assert r.list[..|yy|][0] == yy[0];
    assert |r.out + Rep(yy[0], zPend)| == |values[..i]|;
  }

  lemma {:induction false} ProgressLiteral(syms: seq<int>, yy: seq<Byte>, values: seq<Byte>, i: int, zPend: nat, j: int)
    requires 0 <= i < |values| <= MAX_BLOCK && 1 <= |yy| <= 256 && Progress(syms, yy, values, i, zPend)
    requires 0 < j < |yy| && values[i] == yy[j]
    ensures Progress(syms + RunDigits(zPend) + [j + 1], ToFront(yy, j), values, i + 1, 0)
  {
    hide After, Flushed;
    var syms1 := syms + RunDigits(zPend);
    ProgressFlush(syms, yy, values, i, zPend);
    AfterAppend(syms1, j + 1, Identity(), |values|);
    var t := After(syms1, Identity(), |values|).value;
    ToFrontPrefix(t.list, j, |yy|);
    assert t.list[..|yy|][j] == yy[j];
    assert values[..i + 1] == values[..i] + [values[i]];
    var u := After(syms1 + [j + 1], Identity(), |values|).value;
    assert u.out + Rep(ToFront(yy, j)[0], 0) == u.out;
  }

  lemma {:induction false} ProgressDone(syms: seq<int>, yy: seq<Byte>, values: seq<Byte>, zPend: nat)
    requires |values| <= MAX_BLOCK && 1 <= |yy| <= 256 && Progress(syms, yy, values, |values|, zPend)
    ensures Symbols(syms + RunDigits(zPend))
    ensures Decode(syms + RunDigits(zPend), Identity(), |values|) == Some(values)
  {
    hide After;
    ProgressFlush(syms, yy, values, |values|, zPend);
    assert values[..|values|] == values;
  }

  /** The values to encode: numbers of the bytes of the last column. */
  ghost function Values(b: seq<Byte>, ptr: seq<int>, inUse: seq<bool>): (v: seq<Byte>)
    requires InRange(ptr, |b|) && |inUse| == 256
    requires forall i :: 0 <= i < |b| ==> inUse[b[i]]
    ensures |v| == |ptr|
    ensures forall r :: 0 <= r < |v| ==> v[r] == Rank(inUse, LastColumn(b, ptr)[r])
  {
    var l := LastColumn(b, ptr);
    forall r | 0 <= r < |l| ensures Rank(inUse, l[r]) < 256 { RankInjective(inUse, l[r], l[r]); }
    seq(|ptr|, r requires 0 <= r < |ptr| => Rank(inUse, l[r]))
  }

  lemma RanksListed(yy: seq<Byte>)
    requires forall v :: 0 <= v < |yy| ==> yy[v] == v
    ensures Listed(yy)
  {
    forall v | 0 <= v < |yy| ensures v in yy { assert yy[v] == v; }
  }

  /** Every number of a used byte is somewhere in the list. */
  ghost predicate Listed(yy: seq<Byte>) {
    forall v :: 0 <= v < |yy| ==> v in yy
  }

  lemma ListedToFront(yy: seq<Byte>, k: int)
    requires 0 <= k < |yy| && Listed(yy)
    ensures Listed(ToFront(yy, k))
  {
    forall v | 0 <= v < |yy| ensures v in ToFront(yy, k) { ToFrontMembers(yy, k, v); }
  }

  /** No symbol beyond the positions of the bytes in use. */
  ghost predicate AtMost(syms: seq<int>, n: int) {
    forall k :: 0 <= k < |syms| ==> 0 <= syms[k] <= n
  }

  lemma {:induction false} DigitsAtMost(syms: seq<int>, zPend: nat, n: int)
    requires AtMost(syms, n) && 1 <= n
    ensures AtMost(syms + RunDigits(zPend), n)
    ensures forall s :: 0 <= s <= n ==> AtMost(syms + RunDigits(zPend) + [s], n)
  {
  }

  /** The else branch of the main loop: flush the run, then send ll's position. */
  method SendPosition(mtfv: array<Half>, yy: array<Byte>, n: int, wr0: int, zPend: int, ll: Byte,
      ghost values: seq<Byte>, ghost i: int)
    returns (wr: int)
    requires 1 <= n <= 256 && yy.Length == 256 && mtfv as object != yy
    requires 0 <= i < |values| <= MAX_BLOCK && 2 * |values| == mtfv.Length
    requires 0 <= zPend && 0 <= wr0 <= mtfv.Length
    requires Progress(mtfv[..wr0], yy[..n], values, i, zPend) && Listed(yy[..n]) && AtMost(mtfv[..wr0], n)
    requires ll == values[i] < n && yy[0] != ll
    modifies mtfv, yy
    ensures 0 <= wr <= i + 1 && Progress(mtfv[..wr], yy[..n], values, i + 1, 0) && Listed(yy[..n])
    ensures AtMost(mtfv[..wr], n)
    ensures forall h :: 2 * (i + 1) <= h < mtfv.Length ==> mtfv[h] == old(mtfv[h])
  {
    hide Progress, RunDigits, Listed, AtMost;
    ghost var syms, list := mtfv[..wr0], yy[..n];
    DigitsAtMost(syms, zPend, n);
    ProgressFlush(syms, list, values, i, zPend);
    assert |syms| + |RunDigits(zPend)| <= i;
    ProgressSize(syms, list, values, i, zPend);
    wr := wr0;
    if zPend > 0 {
      wr := FlushRun(mtfv, wr0, zPend);
    }
    NoDigits();
    assert mtfv[..wr] == syms + RunDigits(zPend);
    ListedHas(list, ll);
    var j := MoveFound(yy, n, ll);
    mtfv[wr] := j + 1;
    wr := wr + 1;
    assert mtfv[..wr] == syms + RunDigits(zPend) + [j + 1];
    ProgressLiteral(syms, list, values, i, zPend, j);
    ListedToFront(list, j);
  }

  lemma NoDigits()
    ensures RunDigits(0) == []
  {
  }

  lemma ListedHas(yy: seq<Byte>, v: Byte)
    requires Listed(yy) && v < |yy| && yy[0] != v
    ensures v in yy && 1 < |yy|
  {
  }

  lemma ProgressSize(syms: seq<int>, yy: seq<Byte>, values: seq<Byte>, i: int, zPend: nat)
    requires 0 <= i <= |values| && 1 <= |yy| <= 256 && Progress(syms, yy, values, i, zPend)
    ensures |syms| + zPend <= i
  {
  }

  method InitList(nInUse: int) returns (yy: array<Byte>)
    requires 0 <= nInUse <= 256
    ensures fresh(yy) && yy.Length == 256 && forall v :: 0 <= v < nInUse ==> yy[v] == v
  {
    yy := new Byte[256];
    for i := 0 to nInUse
      invariant forall v :: 0 <= v < i ==> yy[v] == v
    {
      yy[i] := i;
    }
  }

  /** The symbols of a whole block.  `arr1` enters holding ptr and leaves holding mtfv. */
  method GenerateMtfValues(arr1: array<Half>, block: array<Byte>, nblock: int, inUse: array<bool>)
    returns (nInUse: int, nMTF: int)
    requires arr1.Length == 2 * nblock && 0 < nblock <= block.Length && nblock <= MAX_BLOCK
    requires arr1 as object != block && arr1 as object != inUse && inUse.Length == 256
    requires InRange(PtrView(arr1[..], nblock), nblock)
    requires forall i :: 0 <= i < nblock ==> inUse[block[i]]
    modifies arr1
    ensures nInUse == Rank(inUse[..], 256) && 0 < nMTF <= nblock + 1 && nMTF <= arr1.Length
    ensures arr1[nMTF - 1] == nInUse + 1 && Symbols(arr1[..nMTF - 1]) && AtMost(arr1[..nMTF - 1], nInUse)
    ensures Decode(arr1[..nMTF - 1], Identity(), nblock) ==
            Some(Values(block[..nblock], old(PtrView(arr1[..], nblock)), inUse[..]))
  {
    hide After, Decode, Rank, RunDigits;
    ghost var ptr := PtrView(arr1[..], nblock);
    ghost var values := Values(block[..nblock], ptr, inUse[..]);
    var unseqToSeq;
    unseqToSeq, nInUse := MakeMapsE(inUse);
    RankInjective(inUse[..], block[0], block[0]);
    RankBound(inUse[..]);
    var yy := InitList(nInUse);
    var wr, zPend := 0, 0;
    RanksListed(yy[..nInUse]);
    ProgressStart(yy[..nInUse], values);
    assert arr1[..wr] == [];
    for i := 0 to nblock
      modifies arr1, yy
      invariant 0 <= zPend && 0 <= wr <= i && Listed(yy[..nInUse])
      invariant Progress(arr1[..wr], yy[..nInUse], values, i, zPend) && AtMost(arr1[..wr], nInUse)
      invariant forall h :: 2 * i <= h < arr1.Length ==> arr1[h] == old(arr1[h])
    {
      assert PtrWord(arr1[..], i) == ptr[i];
      var w := ReadPtr(arr1, i);
      var j := w - 1;
      if j < 0 { j := j + nblock; }
      assert values[i] == Rank(inUse[..], block[j]);
      RankInjective(inUse[..], block[j], block[j]);
      var ll := unseqToSeq[block[j]];
      if yy[0] == ll {
        ProgressRepeat(arr1[..wr], yy[..nInUse], values, i, zPend);
        zPend := zPend + 1;
      } else {
        wr := SendPosition(arr1, yy, nInUse, wr, zPend, ll, values, i);
        zPend := 0;
      }
    }
    wr := SendEnd(arr1, wr, zPend, nInUse + 1, yy[..nInUse], values);
    nMTF := wr;
  }

  lemma {:induction false} RankBound(inUse: seq<bool>)
    requires |inUse| == 256
    ensures Rank(inUse, 256) <= 256
  {
  }

  method ReadPtr(arr1: array<Half>, i: int) returns (w: int)
    requires 0 <= i && 2 * i + 1 < arr1.Length
    ensures w == PtrWord(arr1[..], i)
  {
    var low: int, high: int := arr1[2 * i], arr1[2 * i + 1];
    w := low + 0x1_0000 * high;
  }

  lemma {:induction false} ProgressStart(yy: seq<Byte>, values: seq<Byte>)
    requires 1 <= |yy| <= 256 && forall v :: 0 <= v < |yy| ==> yy[v] == v
    ensures Progress([], yy, values, 0, 0)
  {
  }

  /** After the last value: the final run and the end-of-block symbol. */
  method SendEnd(mtfv: array<Half>, wr0: int, zPend: int, eob: int, ghost yy: seq<Byte>, ghost values: seq<Byte>)
    returns (wr: int)
    requires 1 <= |yy| <= 256 && 0 < |values| <= MAX_BLOCK && 2 * |values| == mtfv.Length
    requires 0 <= zPend && 0 <= wr0 <= mtfv.Length && 0 <= eob <= 257
    requires Progress(mtfv[..wr0], yy, values, |values|, zPend) && AtMost(mtfv[..wr0], |yy|)
    modifies mtfv
    ensures 0 < wr <= |values| + 1 && mtfv[wr - 1] == eob
    ensures Symbols(mtfv[..wr - 1]) && AtMost(mtfv[..wr - 1], |yy|)
    ensures Decode(mtfv[..wr - 1], Identity(), |values|) == Some(values)
  {
    hide Progress, RunDigits, Decode, AtMost;
    ghost var syms := mtfv[..wr0];
    DigitsAtMost(syms, zPend, |yy|);
    ProgressFlush(syms, yy, values, |values|, zPend);
    ProgressSize(syms, yy, values, |values|, zPend);
    ProgressDone(syms, yy, values, zPend);
    wr := wr0;
    if zPend > 0 {
      wr := FlushRun(mtfv, wr0, zPend);
    }
    NoDigits();
    assert mtfv[..wr] == syms + RunDigits(zPend);
    mtfv[wr] := eob;
    wr := wr + 1;
    assert mtfv[..wr - 1] == syms + RunDigits(zPend);
  }
}

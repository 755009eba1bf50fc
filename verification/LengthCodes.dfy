/** Length and distance codes: the tables of trees.c, from the loops that generate them, against
    those of inftrees.c. */
module LengthCodes {
  import opened Bits
  import opened DecodingTable

  const EXTRA_LBITS: seq<nat> := [0, 0, 0, 0, 0, 0, 0, 0, 1, 1, 1, 1, 2, 2, 2, 2, 3, 3, 3, 3, 4, 4, 4, 4, 5, 5, 5, 5, 0]
  const EXTRA_DBITS: seq<nat> := [0, 0, 0, 0, 1, 1, 2, 2, 3, 3, 4, 4, 5, 5, 6, 6, 7, 7, 8, 8, 9, 9, 10, 10, 11, 11, 12,
      12, 13, 13]

  /** Extra bits of a length code. */
  function LExtra(c: nat): nat
    requires c < 29
  {
    EXTRA_LBITS[c]
  }

  /** Extra bits of a distance code. */
  function DExtra(c: nat): nat
    requires c < 30
  {
    EXTRA_DBITS[c]
  }

  /** The first length (less three) of each of the first 28 codes. */
  function LStart(c: nat): nat
    requires c <= 28
  {
    if c == 0 then 0 else LStart(c - 1) + Pow2(LExtra(c - 1))
  }

  /** The first distance (less one) of each code. */
  function DStart(c: nat): nat
    requires c <= 30
  {
    if c == 0 then 0 else DStart(c - 1) + Pow2(DExtra(c - 1))
  }

  lemma SmallPowers()
    ensures Pow2(0) == 1 && Pow2(1) == 2 && Pow2(2) == 4 && Pow2(3) == 8 && Pow2(4) == 16 && Pow2(5) == 32
        && Pow2(6) == 64
    ensures Pow2(7) == 128 && Pow2(8) == 256 && Pow2(9) == 512 && Pow2(10) == 1024 && Pow2(11) == 2048
        && Pow2(12) == 4096 && Pow2(13) == 8192
  {
  }

  /** Decoder and encoder agree on one length code. */
  ghost predicate LengthAgrees(c: nat)
    requires c < 28
  {
    LBASE[c] == LStart(c) + 3 && LEXT[c] == 16 + LExtra(c)
  }

  lemma ShortStep(c: nat)
    requires c < 14
    ensures LBASE[c + 1] == LBASE[c] + Pow2(LExtra(c)) && LEXT[c + 1] == 16 + LExtra(c + 1)
  {
    SmallPowers();
    hide Pow2;
    if c < 5 {
    } else if c < 10 {
    } else {
    }
  }

  lemma LongStep(c: nat)
    requires 14 <= c < 27
    ensures LBASE[c + 1] == LBASE[c] + Pow2(LExtra(c)) && LEXT[c + 1] == 16 + LExtra(c + 1)
  {
    SmallPowers();
    hide Pow2;
    if c < 18 {
    } else if c < 23 {
    } else {
    }
  }

  lemma {:induction false} LengthsAgree(c: nat)
    requires c < 28
    ensures LengthAgrees(c)
  {
    hide Pow2;
    if c > 0 {
      LengthsAgree(c - 1);
      hide LBASE, LEXT, LExtra;
      if c < 15 { ShortStep(c - 1); } else { LongStep(c - 1); }
    }
  }

  ghost predicate DistanceAgrees(c: nat)
    requires c < 30
  {
    DBASE[c] == DStart(c) + 1 && DEXT[c] == 16 + DExtra(c)
  }

  lemma NearStep(c: nat)
    requires c < 15
    ensures DBASE[c + 1] == DBASE[c] + Pow2(DExtra(c)) && DEXT[c + 1] == 16 + DExtra(c + 1)
  {
    SmallPowers();
    hide Pow2;
    if c < 5 {
    } else if c < 10 {
    } else {
    }
  }

  lemma FarStep(c: nat)
    requires 15 <= c < 29
    ensures DBASE[c + 1] == DBASE[c] + Pow2(DExtra(c)) && DEXT[c + 1] == 16 + DExtra(c + 1)
  {
    SmallPowers();
    hide Pow2;
    if c < 20 {
    } else if c < 25 {
    } else {
    }
  }

  lemma {:induction false} DistancesAgree(c: nat)
    requires c < 30
    ensures DistanceAgrees(c)
  {
    hide Pow2;
    if c > 0 {
      DistancesAgree(c - 1);
      hide DBASE, DEXT, DExtra;
      if c < 16 { NearStep(c - 1); } else { FarStep(c - 1); }
    }
  }

  /** Where the code spaces end. */
  lemma Ends()
    ensures LStart(28) == 256 && DStart(16) == 256 && DStart(30) == 32768
  {
    hide *;
    LengthsEnd();
    NearEnd();
    FarEnd();
  }

  lemma LengthsEnd()
    ensures LStart(28) == 256
  {
    hide Pow2;
    SmallPowers();
    LengthsAgree(27);
  }

  lemma NearEnd()
    ensures DStart(16) == 256
  {
    hide Pow2;
    SmallPowers();
    DistancesAgree(15);
  }

  lemma FarEnd()
    ensures DStart(30) == 32768
  {
    hide Pow2;
    SmallPowers();
    DistancesAgree(29);
  }

  // ---- tr_static_init ----

  /** base_length and _length_code: the code of a length is the one whose range it is in; 255
      has a code of its own. */
  ghost predicate LengthTables(baseLength: seq<int>, lengthCode: seq<int>) {
    && |baseLength| == 29 && |lengthCode| == 256 && (forall c :: 0 <= c < 28 ==> baseLength[c] == LStart(c))
    && lengthCode[255] == 28
    && forall lc :: 0 <= lc < 255 ==> InLengthRange(lengthCode[lc], lc)
  }

  ghost predicate InLengthRange(c: int, lc: int) {
    0 <= c < 28 && LStart(c) <= lc < LStart(c + 1)
  }

  ghost predicate InDistanceRange(c: int, low: int, high: int) {
    0 <= c < 30 && DStart(c) <= low && high < DStart(c + 1)
  }

  /** base_dist and the two halves of _dist_code, the second in units of 128. */
  ghost predicate DistanceTables(baseDist: seq<int>, distCode: seq<int>) {
    && |baseDist| == 30 && |distCode| == 512 && (forall c :: 0 <= c < 30 ==> baseDist[c] == DStart(c))
    && (forall d :: 0 <= d < 256 ==> InDistanceRange(distCode[d], d, d))
    && (forall i :: 258 <= i < 512 ==> InDistanceRange(distCode[i], 128 * (i - 256), 128 * (i - 256) + 127))
  }

  lemma {:induction false} LMonotone(c: nat, d: nat)
    requires c <= d <= 28
    ensures LStart(c) <= LStart(d)
    decreases d
  {
    hide LExtra;
    if c < d { LMonotone(c, d - 1); }
  }

  lemma {:induction false} DMonotone(c: nat, d: nat)
    requires c <= d <= 30
    ensures DStart(c) <= DStart(d)
    decreases d
  {
    hide DExtra;
    if c < d { DMonotone(c, d - 1); }
  }

  lemma LNext(c: nat)
    requires c < 28
    ensures LStart(c + 1) == LStart(c) + Pow2(LExtra(c))
  {
  }

  lemma DNext(c: nat)
    requires c < 30
    ensures DStart(c + 1) == DStart(c) + Pow2(DExtra(c))
  {
  }

  lemma LengthRange(c: nat)
    requires c < 28
    ensures forall l :: LStart(c) <= l < LStart(c + 1) ==> InLengthRange(c, l)
  {
    hide LStart;
  }

  lemma DistanceRange(c: nat)
    requires c < 30
    ensures forall low, high :: DStart(c) <= low && high < DStart(c + 1) ==> InDistanceRange(c, low, high)
  {
    hide DStart;
  }

  method InitLengths(baseLength: array<int>, lengthCode: array<int>)
    requires baseLength != lengthCode && baseLength.Length == 29 && lengthCode.Length == 256
    modifies baseLength, lengthCode
    ensures LengthTables(baseLength[..], lengthCode[..])
  {
    hide *;
    Ends();
    NoStarts();
    var length := 0;
    for code := 0 to 28
      invariant length == LStart(code)
      invariant forall c :: 0 <= c < code ==> baseLength[c] == LStart(c)
      invariant length <= 256
      invariant forall l :: 0 <= l < length ==> InLengthRange(lengthCode[l], l)
    {
      baseLength[code] := length;
      LNext(code);
      LMonotone(code + 1, 28);
      LengthRange(code);
      FillCode(lengthCode, length, Pow2(LExtra(code)), code);
      length := length + Pow2(LExtra(code));
    }
    lengthCode[length - 1] := 28;
    LengthsDone(baseLength[..], lengthCode[..]);
  }

  lemma LengthsDone(baseLength: seq<int>, lengthCode: seq<int>)
    requires |baseLength| == 29 && |lengthCode| == 256 && (forall c :: 0 <= c < 28 ==> baseLength[c] == LStart(c))
    requires lengthCode[255] == 28 && forall l :: 0 <= l < 255 ==> InLengthRange(lengthCode[l], l)
    ensures LengthTables(baseLength, lengthCode)
  {
    hide InLengthRange, LStart;
  }

  lemma NoStarts()
    ensures LStart(0) == 0 && DStart(0) == 0
  {
  }

  /** The inner loops: one code for a range of entries. */
  method FillCode(table: array<int>, from: nat, count: nat, code: int)
    requires from + count <= table.Length
    modifies table
    ensures forall i :: 0 <= i < table.Length ==> table[i] == if from <= i < from + count then code else old(table[i])
  {
    for n := 0 to count
      invariant forall i :: 0 <= i < table.Length ==> table[i] == if from <= i < from + n then code else old(table[i])
    {
      table[from + n] := code;
    }
  }

  /** The larger distance codes cover whole multiples of 128. */
  lemma LargeDistance(c: nat)
    requires 16 <= c < 30
    ensures DExtra(c) >= 7 && Pow2(DExtra(c)) == 128 * Pow2(DExtra(c) - 7)
  {
    hide Pow2;
    assert DExtra(c) >= 7;
    Pow2Add(7, DExtra(c) - 7);
    SmallPowers();
  }

  ghost predicate SmallDistances(distCode: seq<int>) {
    |distCode| == 512 && forall d :: 0 <= d < 256 ==> InDistanceRange(distCode[d], d, d)
  }

  /** The codes of distances up to 256. */
  method InitSmall(baseDist: array<int>, distCode: array<int>)
    requires baseDist != distCode && baseDist.Length == 30 && distCode.Length == 512
    modifies baseDist, distCode
    ensures SmallDistances(distCode[..]) && forall c :: 0 <= c < 16 ==> baseDist[c] == DStart(c)
  {
    hide *;
    Ends();
    NoStarts();
    var dist := 0;
    for code := 0 to 16
      invariant dist == DStart(code) <= 256 && forall c :: 0 <= c < code ==> baseDist[c] == DStart(c)
      invariant forall d :: 0 <= d < dist ==> InDistanceRange(distCode[d], d, d)
    {
      baseDist[code] := dist;
      DNext(code);
      DMonotone(code + 1, 16);
      DistanceRange(code);
      FillCode(distCode, dist, Pow2(DExtra(code)), code);
      dist := dist + Pow2(DExtra(code));
    }
    SmallDone(distCode[..]);
  }

  lemma SmallDone(distCode: seq<int>)
    requires |distCode| == 512 && forall d :: 0 <= d < 256 ==> InDistanceRange(distCode[d], d, d)
    ensures SmallDistances(distCode)
  {
    hide InDistanceRange;
  }

  /** The others, in units of 128. */
  method InitLarge(baseDist: array<int>, distCode: array<int>)
    requires baseDist != distCode && baseDist.Length == 30 && distCode.Length == 512
    requires SmallDistances(distCode[..]) && forall c :: 0 <= c < 16 ==> baseDist[c] == DStart(c)
    modifies baseDist, distCode
    ensures DistanceTables(baseDist[..], distCode[..])
  {
    hide *;
    Ends();
    ghost var small := distCode[..];
    SmallParts(small);
    var dist := 2;
    for code := 16 to 30
      invariant 2 <= dist <= 256 && 128 * dist == DStart(code) && forall c :: 0 <= c < code ==> baseDist[c] == DStart(c)
      invariant forall d :: 0 <= d < 256 ==> distCode[d] == small[d]
      invariant forall i :: 258 <= i < 256 + dist ==>
        InDistanceRange(distCode[i], 128 * (i - 256), 128 * (i - 256) + 127)
    {
      baseDist[code] := dist * 128;
      DNext(code);
      DMonotone(code + 1, 30);
      LargeDistance(code);
      DistanceRange(code);
      FillCode(distCode, 256 + dist, Pow2(DExtra(code) - 7), code);
      dist := dist + Pow2(DExtra(code) - 7);
    }
    TablesDone(baseDist[..], distCode[..], small);
  }

  lemma SmallParts(distCode: seq<int>)
    requires SmallDistances(distCode)
    ensures |distCode| == 512
  {
  }

  lemma TablesDone(baseDist: seq<int>, distCode: seq<int>, small: seq<int>)
    requires |baseDist| == 30 && |distCode| == 512 && (forall c :: 0 <= c < 30 ==> baseDist[c] == DStart(c))
    requires SmallDistances(small) && forall d :: 0 <= d < 256 ==> distCode[d] == small[d]
    requires forall i :: 258 <= i < 512 ==> InDistanceRange(distCode[i], 128 * (i - 256), 128 * (i - 256) + 127)
    ensures DistanceTables(baseDist, distCode)
  {
    hide InDistanceRange, DStart;
  }

  /** The mapping tables, by the loops that generate them. */
  method StaticInit() returns (baseLength: array<int>, lengthCode: array<int>, baseDist: array<int>,
      distCode: array<int>)
    ensures LengthTables(baseLength[..], lengthCode[..]) && DistanceTables(baseDist[..], distCode[..])
  {
    baseLength, lengthCode, baseDist, distCode := new int[29], new int[256], new int[30], new int[512];
    InitLengths(baseLength, lengthCode);
    InitSmall(baseDist, distCode);
    InitLarge(baseDist, distCode);
  }

  /** d_code */
  function DCode(distCode: seq<int>, dist: int): int
    requires |distCode| == 512 && 0 <= dist < 32768
  {
    if dist < 256 then distCode[dist] else distCode[256 + dist / 128]
  }

  /** The code of a distance is the one whose range it is in. */
  lemma {:induction false} DCodeRight(baseDist: seq<int>, distCode: seq<int>, dist: int)
    requires DistanceTables(baseDist, distCode) && 0 <= dist < 32768
    ensures var c := DCode(distCode, dist); 0 <= c < 30 && baseDist[c] <= dist && dist - baseDist[c] < Pow2(DExtra(c))
  {
    hide DStart, Pow2, DExtra;
    var c := DCode(distCode, dist);
    if dist >= 256 {
      var i := 256 + dist / 128;
      assert InDistanceRange(distCode[i], 128 * (i - 256), 128 * (i - 256) + 127);
    }
    DNext(c);
  }

  /** So is the code of a length. */
  lemma {:induction false} LCodeRight(baseLength: seq<int>, lengthCode: seq<int>, lc: int)
    requires LengthTables(baseLength, lengthCode) && 0 <= lc < 256
    ensures 0 <= lengthCode[lc] < 29
    ensures var c := lengthCode[lc];
      if c == 28 then lc == 255 else 0 <= lc - baseLength[c] < Pow2(LExtra(c))
  {
    hide LStart, Pow2, LExtra;
    if lc < 255 { LNext(lengthCode[lc]); }
  }
}

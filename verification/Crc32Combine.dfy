/** crc32_combine_: appending zero bytes as a linear operator, squared once per bit of the
    length. */
module Crc32Combine {
  import opened Bytes
  import opened Crc32

  // ---- matrices over GF(2) ----

  function Up1(c: bv32): bv32 { c << 1 }

  function Down1(c: bv32): bv32 { c >> 1 }

  function LowBit(c: bv32): bv32 { c & 1 }

  function UpBy(c: bv32, i: nat): bv32 {
    if i == 0 then c else Up1(UpBy(c, i - 1))
  }

  /** The i-th unit vector. */
  function Unit(i: nat): bv32 { UpBy(1, i) }

  /** The rows of the operator that shifts k bits through the register. */
  ghost predicate Operator(mat: seq<bv32>, k: nat) {
    |mat| == 32 && forall i :: 0 <= i < 32 ==> mat[i] == Shifts(Unit(i), k)
  }

  lemma {:induction false} UpByLinear(a: bv32, b: bv32, i: nat)
    ensures UpBy(Xor(a, b), i) == Xor(UpBy(a, i), UpBy(b, i))
  {
    hide Up1, Xor;
    if i > 0 {
      UpByLinear(a, b, i - 1);
      Up1Linear(UpBy(a, i - 1), UpBy(b, i - 1));
    }
  }

  lemma Up1Linear(a: bv32, b: bv32)
    ensures Up1(Xor(a, b)) == Xor(Up1(a), Up1(b))
  {
  }

  lemma {:induction false} UpByNext(c: bv32, i: nat)
    ensures UpBy(Up1(c), i) == UpBy(c, i + 1)
  {
    hide Up1;
    if i > 0 { UpByNext(c, i - 1); }
  }

  lemma {:induction false} UpByZero(i: nat)
    ensures UpBy(0, i) == 0
  {
    if i > 0 { UpByZero(i - 1); }
  }

  lemma {:induction false} ShiftsZero(k: nat)
    ensures Shifts(0, k) == 0
  {
    if k > 0 { ShiftsZero(k - 1); }
  }

  lemma LowAndRest(v: bv32)
    ensures Xor(LowBit(v), Up1(Down1(v))) == v && (LowBit(v) == 0 || LowBit(v) == 1)
  {
  }

  lemma XorZero(v: bv32)
    ensures Xor(v, 0) == v && Xor(0, v) == v
  {
  }

  /** The low bit of what is left selects the row of its position. */
  lemma {:induction false} RowStep(sum: bv32, v: bv32, i: nat, k: nat)
    ensures Xor(sum, Shifts(UpBy(v, i), k)) ==
            Xor(if LowBit(v) == 1 then Xor(sum, Shifts(Unit(i), k)) else sum, Shifts(UpBy(Down1(v), i + 1), k))
  {
    hide Up1, Down1, LowBit, Xor, Shifts, UpBy;
    var low, high := LowBit(v), Up1(Down1(v));
    LowAndRest(v);
    UpByLinear(low, high, i);
    ShiftsLinear(UpBy(low, i), UpBy(high, i), k);
    UpByNext(Down1(v), i);
    XorAssoc(sum, Shifts(UpBy(low, i), k), Shifts(UpBy(high, i), k));
    UpByZero(i);
    ShiftsZero(k);
    XorZero(sum);
  }

  /** The largest value of what is left after i bits. */
  function Mask(i: nat): bv32 {
    if i == 0 then 0xffff_ffff else Down1(Mask(i - 1))
  }

  lemma DownMonotone(a: bv32, b: bv32)
    requires a <= b
    ensures Down1(a) <= Down1(b)
  {
  }

  lemma MaskEnds()
    ensures Mask(32) == 0
  {
    assert Mask(6) == 0x3ff_ffff;
    assert Mask(12) == 0xf_ffff;
    assert Mask(18) == 0x3fff;
    assert Mask(24) == 0xff;
    assert Mask(30) == 0x3;
  }

  lemma NothingLeftOver(v: bv32, i: nat)
    requires v <= Mask(i) && v != 0 && i <= 32
    ensures i < 32
  {
    MaskEnds();
  }

  lemma MaskStart(v: bv32)
    ensures v <= Mask(0)
  {
  }

  lemma MaskNext(v: bv32, i: nat)
    requires v <= Mask(i)
    ensures Down1(v) <= Mask(i + 1)
  {
    DownMonotone(v, Mask(i));
  }

  /** gf2_matrix_times */
  method MatrixTimes(mat: array<bv32>, vec: bv32, ghost k: nat) returns (sum: bv32)
    requires Operator(mat[..], k)
    ensures sum == Shifts(vec, k)
  {
    hide Up1, Down1, LowBit, Xor, Shifts, UpBy, Unit, Mask;
    sum := 0;
    var v, i := vec, 0;
    StartRows(vec, k);
    MaskStart(vec);
    while v != 0
      invariant i <= 32 && v <= Mask(i) && Xor(sum, Shifts(UpBy(v, i), k)) == Shifts(vec, k)
      decreases 32 - i
    {
      NothingLeftOver(v, i);
      RowStep(sum, v, i, k);
      MaskNext(v, i);
      assert mat[i] == mat[..][i];
      if LowBit(v) == 1 { sum := Xor(sum, mat[i]); }
      v := Down1(v);
      i := i + 1;
    }
    EndRows(sum, i, k);
  }

  lemma {:induction false} StartRows(vec: bv32, k: nat)
    ensures Xor(0, Shifts(UpBy(vec, 0), k)) == Shifts(vec, k)
  {
    hide Shifts, Xor;
    XorZero(Shifts(vec, k));
  }

  lemma {:induction false} EndRows(sum: bv32, i: nat, k: nat)
    ensures Xor(sum, Shifts(UpBy(0, i), k)) == sum
  {
    hide Shifts, Xor, UpBy;
    UpByZero(i);
    ShiftsZero(k);
    XorZero(sum);
  }

  /** gf2_matrix_square: the operator for twice as many bits. */
  method MatrixSquare(square: array<bv32>, mat: array<bv32>, ghost k: nat)
    requires square != mat && square.Length == 32 && Operator(mat[..], k)
    modifies square
    ensures Operator(square[..], 2 * k)
  {
    hide Shifts, Unit;
    ghost var m := mat[..];
    for n := 0 to 32
      invariant mat[..] == m && forall i :: 0 <= i < n ==> square[i] == Shifts(Unit(i), 2 * k)
    {
      assert mat[n] == m[n];
      square[n] := MatrixTimes(mat, mat[n], k);
      ShiftsAdd(Unit(n), k, k);
    }
  }

  /** The operator for one zero bit. */
  method OneBit(odd: array<bv32>)
    requires odd.Length == 32
    modifies odd
    ensures Operator(odd[..], 1)
  {
    hide Up1, UpBy;
    odd[0] := 0xedb8_8320;
    var row: bv32 := 1;
    UnitStart();
    for n := 1 to 32
      invariant row == Unit(n - 1) && forall i :: 0 <= i < n ==> odd[i] == Shifts(Unit(i), 1)
    {
      odd[n] := row;
      UnitShift(n);
      row := Up1(row);
    }
  }

  lemma UnitStart()
    ensures Unit(0) == 1 && Shifts(Unit(0), 1) == 0xedb8_8320
  {
    assert Shifts(1, 1) == Shift(1);
  }

  /** A unit vector moves down one place. */
  lemma {:induction false} UnitShift(n: nat)
    requires 0 < n < 32
    ensures Unit(n) == Up1(Unit(n - 1)) && Shifts(Unit(n), 1) == Unit(n - 1)
  {
    hide Shift;
    UnitSmall(n - 1);
    ShiftUp(Unit(n - 1));
    assert Shifts(Unit(n), 1) == Shift(Shifts(Unit(n), 0));
  }

  lemma ShiftUp(v: bv32)
    requires v < 0x8000_0000
    ensures Shift(Up1(v)) == v
  {
  }

  lemma {:induction false} UnitSmall(i: nat)
    requires i < 31
    ensures Unit(i) < 0x8000_0000
  {
    UnitBelowMask(i);
    MaskDown(30 - i);
    DownSmall(Mask(30 - i));
  }

  lemma DownSmall(m: bv32)
    ensures Down1(m) < 0x8000_0000
  {
  }

  lemma UpBelow(x: bv32, m: bv32)
    requires x <= Down1(m)
    ensures Up1(x) <= m
  {
  }

  lemma {:induction false} UnitBelowMask(i: nat)
    requires i < 32
    ensures Unit(i) <= Mask(31 - i)
  {
    hide *;
    UnitNext(i);
    if i == 0 {
      LastMask();
    } else {
      MaskDown(31 - i);
      UnitBelowMask(i - 1);
      UpBelow(Unit(i - 1), Mask(31 - i));
    }
  }

  lemma UnitNext(i: nat)
    ensures Unit(0) == 1 && (i > 0 ==> Unit(i) == Up1(Unit(i - 1)))
  {
  }

  lemma MaskDown(i: nat)
    ensures Mask(i + 1) == Down1(Mask(i))
  {
  }

  lemma LastMask()
    ensures Mask(31) == 1
  {
    assert Mask(6) == 0x3ff_ffff;
    assert Mask(12) == 0xf_ffff;
    assert Mask(18) == 0x3fff;
    assert Mask(24) == 0xff;
    assert Mask(30) == 0x3;
  }

  // ---- concatenation ----

  /** The register is affine in its start. */
  lemma {:induction false} RegisterAffine(c: bv32, buf: seq<Byte>)
    ensures Register(c, buf) == Xor(Shifts(c, 8 * |buf|), Register(0, buf))
  {
    hide Xor, Shifts, Wide;
    if buf == [] {
      NoShifts(c);
      XorZero(c);
    } else {
      var m := |buf| - 1;
      var x := Wide(buf[m]);
      var z, r := Shifts(c, 8 * m), Register(0, buf[..m]);
      RegisterAffine(c, buf[..m]);
      XorAssoc(z, r, x);
      ShiftsLinear(z, Xor(r, x), 8);
      ShiftsAdd(c, 8 * m, 8);
    }
  }

  /** Shifting the first checksum past the second string and adding the second's. */
  lemma {:induction false} CrcJoined(a: seq<Byte>, b: seq<Byte>)
    ensures Xor(Shifts(Crc(0, a), 8 * |b|), Crc(0, b)) == Crc(0, a + b)
  {
    hide Xor, Shifts, Register, Not;
    var ones := Not(0);
    var ra, rb := Register(ones, a), Register(0, b);
    RegisterJoined(ones, a, b);
    RegisterAffine(ra, b);
    RegisterAffine(ones, b);
    NotIsXor(ra);
    NotIsXor(Xor(Shifts(ones, 8 * |b|), rb));
    NotIsXor(Xor(Shifts(ra, 8 * |b|), rb));
    ShiftsLinear(ra, ones, 8 * |b|);
    Cancel(Shifts(ra, 8 * |b|), Shifts(ones, 8 * |b|), rb, ones);
  }

  lemma NotIsXor(c: bv32)
    ensures Not(c) == Xor(c, Not(0))
  {
  }

  lemma Cancel(x: bv32, y: bv32, r: bv32, ones: bv32)
    ensures Xor(Xor(x, y), Xor(Xor(y, r), ones)) == Xor(Xor(x, r), ones)
  {
  }

  /** One bit of the length: the operator is applied or not, and then stands for twice as much. */
  lemma {:induction false} LengthStep(crc: bv32, e: nat, len: nat)
    ensures Shifts(if len % 2 == 1 then Shifts(crc, e) else crc, 2 * e * (len / 2)) == Shifts(crc, e * len)
  {
    hide Shifts;
    var half := len / 2;
    if len % 2 == 1 {
      ShiftsAdd(crc, e, 2 * e * half);
      OddProduct(e, half);
    } else {
      EvenProduct(e, half);
    }
  }

  lemma OddProduct(e: nat, half: nat)
    ensures e + 2 * e * half == e * (2 * half + 1)
  {
  }

  lemma EvenProduct(e: nat, half: nat)
    ensures 2 * e * half == e * (2 * half)
  {
  }

  lemma NoneLeft(e: nat)
    ensures e * 0 == 0
  {
  }

  /** Applies |len2| zero bytes to a checksum; odd and even take turns. */
  method ApplyZeros(crc0: bv32, len0: nat) returns (crc: bv32)
    requires len0 > 0
    ensures crc == Shifts(crc0, 8 * len0)
  {
    hide Operator, Shifts;
    var even, odd := new bv32[32], new bv32[32];
    OneBit(odd);
    MatrixSquare(even, odd, 1);
    MatrixSquare(odd, even, 2);
    var len2: nat := len0;
    crc := crc0;
    ghost var e: nat := 4;
    while true
      invariant Operator(odd[..], e) && Shifts(crc, 2 * e * len2) == Shifts(crc0, 8 * len0) && len2 > 0
      decreases len2
    {
      MatrixSquare(even, odd, e);
      LengthStep(crc, 2 * e, len2);
      if len2 % 2 == 1 { crc := MatrixTimes(even, crc, 2 * e); }
      len2 := len2 / 2;
      if len2 == 0 {
        NoShiftsLeft(crc, 2 * (2 * e));
        break;
      }
      MatrixSquare(odd, even, 2 * e);
      LengthStep(crc, 2 * (2 * e), len2);
      if len2 % 2 == 1 { crc := MatrixTimes(odd, crc, 2 * (2 * e)); }
      len2 := len2 / 2;
      e := 2 * (2 * e);
      if len2 == 0 {
        NoShiftsLeft(crc, 2 * e);
        break;
      }
    }
  }

  lemma NoShiftsLeft(crc: bv32, e: nat)
    ensures Shifts(crc, e * 0) == crc
  {
    NoneLeft(e);
  }

  /** crc32_combine_: the checksums of two strings give the checksum of their concatenation,
      also when the second is empty. */
  method Combine(crc1: bv32, crc2: bv32, len2: int) returns (crc: bv32)
    ensures len2 <= 0 ==> crc == crc1
    ensures forall a, b :: crc1 == Crc(0, a) && crc2 == Crc(0, b) && len2 == |b| ==> crc == Crc(0, a + b)
  {
    hide Crc, Shifts, Xor;
    if len2 <= 0 {
      forall a: seq<Byte>, b: seq<Byte> | crc1 == Crc(0, a) && len2 == |b| ensures crc1 == Crc(0, a + b) {
        assert a + b == a;
      }
      return crc1;
    }
    crc := ApplyZeros(crc1, len2);
    crc := Xor(crc, crc2);
    forall a, b | crc1 == Crc(0, a) && crc2 == Crc(0, b) && len2 == |b| ensures crc == Crc(0, a + b) {
      CrcJoined(a, b);
    }
  }
}

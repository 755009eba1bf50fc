/** The resumable limit/base/perm decoder of a block's symbols. */
module SymbolStream {
  import opened Bytes
  import opened Bits
  import opened Counting
  import opened Canonical
  import opened HuffmanTables
  import opened BitFields
  import opened BitStream
  import opened SymbolMeaning

  /** One coding table as the decoder holds it. */
  datatype DecodeTable = DecodeTable(limit: seq<int>, base: seq<int>, perm: seq<int>, minLen: int, ghost maxLen: int)

  ghost predicate Decodes(t: DecodeTable, lens: seq<Byte>) {
    DecodeTables(lens, t.limit, t.base, t.perm, t.minLen, t.maxLen)
  }

  datatype Label = Idle | Head | NextBit | Test
  datatype Outcome = Symbol(s: int) | NeedInput | DataError

  /** GET_MTF_VAL with its saved state.  Idle: between symbols.  Head: waiting for the
      first zn bits.  NextBit: zn - 1 bits were not enough, waiting for one more.
      Test: zn bits are in zvec; the reader never stops there. */
  class SymbolReader {
    const bits: BitReader
    const tables: seq<DecodeTable>
    const selector: seq<int>
    var groupNo: int
    var groupPos: int
    var gSel: int
    var zn: int
    var zvec: int
    var label_: Label
    ghost const lens: seq<seq<Byte>>
    ghost var partial: seq<bool>
    ghost var count: nat

    ghost predicate Shape() {
      && |lens| == |tables| && (forall t :: 0 <= t < |tables| ==> Decodes(tables[t], lens[t]))
      && Selects(selector, |tables|)
    }

    /** All bits from the start of the current symbol on, in this call and in later ones. */
    ghost function Stream(): seq<bool>
      reads this`partial, bits
    {
      partial + bits.Coming()
    }

    /** What these bits mean as the current symbol. */
    ghost function Next(): Read<int>
      requires Shape()
      reads this`partial, this`count, bits
    {
      NextAt(lens, selector, Stream(), count)
    }

    /** No code word is shorter than zn bits. */
    ghost predicate NoneYet()
      requires Shape() && 0 <= gSel < |tables| && 0 <= zn
      reads this, bits
    {
      Next() == SymbolFrom(lens[gSel], Stream(), zn)
    }

    /** Progress inside the current symbol: the bits taken are beyond all code words that short. */
    ghost predicate Partway()
      requires Shape() && 0 <= gSel < |tables|
      reads this, bits
    {
      var t := tables[gSel];
      && (label_ == Head ==> partial == [] && zn == t.minLen)
      && (label_ == NextBit ==> |partial| == zn - 1 && t.minLen <= zn - 1 <= MAX_CODE
                                && zvec == Val(partial) && Val(partial) >= End(lens[gSel], zn - 1) && NoneYet())
      && (label_ == Test ==> |partial| == zn && t.minLen <= zn <= MAX_CODE + 1
                             && zvec == Val(partial) && First(lens[gSel], zn) <= zvec && NoneYet())
    }

    ghost predicate Valid()
      reads this, bits
    {
      && Shape() && bits.Valid() && 0 <= groupPos < BZ_G_SIZE && -1 <= groupNo < |selector|
      && (label_ == Idle ==> partial == [] && count == BZ_G_SIZE * (groupNo + 1) - groupPos)
      && (label_ != Idle ==> count + 1 == BZ_G_SIZE * (groupNo + 1) - groupPos)
      && (groupNo >= 0 ==> gSel == selector[groupNo])
      && (label_ != Idle ==> groupNo >= 0 && Partway())
    }

    constructor (bits: BitReader, tables: seq<DecodeTable>, selector: seq<int>, ghost lens: seq<seq<Byte>>)
      requires bits.Valid() && |lens| == |tables|
      requires forall t :: 0 <= t < |tables| ==> Decodes(tables[t], lens[t])
      requires Selects(selector, |tables|)
      ensures Valid() && count == 0 && label_ == Idle && Stream() == bits.Coming()
      ensures this.bits == bits && this.lens == lens && this.selector == selector
    {
      hide Decodes, BitReader.Valid, BitReader.Coming;
      this.bits, this.tables, this.selector, this.lens := bits, tables, selector, lens;
      groupNo, groupPos, gSel, zn, zvec, label_ := -1, 0, 0, 0, 0, Idle;
      partial, count := [], 0;
    }

    /** Selects the next table when a group of 50 is used up. */
    method BeginSymbol() returns (ok: bool)
      requires Valid() && label_ == Idle
      modifies this
      ensures ok <==> count / BZ_G_SIZE < |selector|
      ensures count == old(count) && partial == old(partial) && bits.Valid()
      ensures ok ==> Valid() && label_ == Head
    {
      hide Decodes, BitReader.Valid, Val, First;
      GroupOf(count, groupNo, groupPos, true);
      if groupPos == 0 {
        groupNo := groupNo + 1;
        if groupNo >= |selector| { return false; }
        groupPos := BZ_G_SIZE;
        gSel := selector[groupNo];
      }
      groupPos := groupPos - 1;
      zn := tables[gSel].minLen;
      label_ := Head;
      ok := true;
    }

    /** Inside a symbol: its table, its position and its bits. */
    ghost predicate Within(n: nat, stream: seq<bool>)
      reads this, bits
    {
      && Valid() && label_ != Idle && count == n && n / BZ_G_SIZE < |selector| && Stream() == stream
      && gSel == selector[n / BZ_G_SIZE]
    }

    /** The meaning of the current symbol, from its place and bits alone. */
    ghost function Meant(n: nat, stream: seq<bool>): Read<int> {
      if Shape() then NextAt(lens, selector, stream, n) else Wild
    }

    lemma InGroup()
      requires Valid() && label_ != Idle
      ensures Within(count, Stream())
    {
      hide Decodes, BitReader.Valid, BitReader.Coming, Partway;
      GroupOf(count, groupNo, groupPos, false);
    }

    lemma MeantNow()
      requires Valid()
      ensures Next() == Meant(count, Stream())
    {
      hide Decodes, BitReader.Valid, BitReader.Coming, Partway, NextAt;
    }

    /** The first zn bits. */
    method FirstBits(ghost n: nat, ghost stream: seq<bool>) returns (ok: bool)
      requires Within(n, stream) && label_ == Head
      modifies this, bits`bsBuff, bits`bsLive, bits`nextIn, bits`pending
      ensures Within(n, stream)
      ensures ok ==> label_ == Test
      ensures !ok ==> label_ == Head && (bits.later == [] ==> Meant(n, stream) == Fail)
    {
      hide Val, Decodes, BitReader.Valid, BitReader.Remaining, Pow2, First, Count, SymbolFrom;
      ghost var now, more := bits.Remaining(), PieceBits(bits.later);
      ShapeOf(tables[gSel], lens[gSel]);
      NoPieces(bits.later);
      FromMinLen(n, stream);
      var v;
      ok, v := bits.GetBits(zn);
      if ok {
        assert now == now[..zn] + now[zn..];
        zvec, partial, label_ := v, now[..zn], Test;
        assert [] + (now + more) == now[..zn] + (now[zn..] + more);
      } else {
        EndsEarly(lens[gSel], stream, zn);
      }
    }

    /** One bit more. */
    method OneBit(ghost n: nat, ghost stream: seq<bool>) returns (ok: bool)
      requires Within(n, stream) && label_ == NextBit
      modifies this, bits`bsBuff, bits`bsLive, bits`nextIn, bits`pending
      ensures Within(n, stream) && zn == old(zn)
      ensures ok ==> label_ == Test
      ensures !ok ==> label_ == NextBit && (bits.later == [] ==> Meant(n, stream) == Fail)
    {
      hide Val, Decodes, BitReader.Valid, BitReader.Remaining, Pow2, First, Count, SymbolFrom, NextAt;
      ghost var now, more := bits.Remaining(), PieceBits(bits.later);
      NoPieces(bits.later);
      var zj;
      ok, zj := bits.GetBits(1);
      if ok {
        MoveBit(partial, now, more);
        BeyondEarlier(lens[gSel], partial, now[0]);
        zvec := zvec * 2 + zj;
        partial := partial + [now[0]];
        label_ := Test;
      } else {
        EndsEarly(lens[gSel], stream, zn);
      }
    }

    /** At the right length the symbol is found; before it, one more bit is asked for. */
    method TestLimit(ghost n: nat, ghost stream: seq<bool>) returns (o: Outcome)
      requires Within(n, stream) && label_ == Test
      modifies this
      ensures bits.Valid()
      ensures o.Symbol? ==> Valid() && label_ == Idle && count == n + 1 && Meant(n, stream) == Got(o.s, Stream())
      ensures o.NeedInput? ==> Within(n, stream) && label_ == NextBit && zn == old(zn) + 1 <= MAX_CODE + 1
      ensures o.DataError? ==> Meant(n, stream) == Fail
    {
      hide Decodes, Val, BitReader.Valid, BitReader.Coming, Pow2, First, Count, Coded, SymbolFrom, SymbolAt;
      ghost var t, l := tables[gSel], lens[gSel];
      ShapeOf(t, l);
      assert stream[..zn] == partial && stream[zn..] == bits.Coming();
      FromStep(l, stream, zn);
      o := DataError;
      if zn > 20 { return; }
      Decided(t, l, zn, zvec);
      if zvec <= tables[gSel].limit[zn] {
        var d := zvec - tables[gSel].base[zn];
        if d < 0 || d >= 258 { return; }
        o := Symbol(tables[gSel].perm[d]);
        assert [] + bits.Coming() == bits.Coming();
        label_, partial, count := Idle, [], count + 1;
      } else {
        zn := zn + 1;
        label_ := NextBit;
        o := NeedInput;
      }
    }

    /** What the current symbol means, read from its shortest length on. */
    lemma FromMinLen(n: nat, stream: seq<bool>)
      requires Within(n, stream)
      ensures Meant(n, stream) == SymbolFrom(lens[gSel], stream, tables[gSel].minLen)
    {
      hide Val, First, Count, BitReader.Valid, BitReader.Coming, SymbolFrom, Partway;
      FromShortest(lens[gSel], stream, tables[gSel].minLen, 1);
    }

    /** GET_MTF_VAL: returns the symbol whose code word comes next, however often the input ran dry
        in the middle of it, and an error only where no symbol can be meant. */
    method GetSymbol() returns (o: Outcome)
      requires Valid() && label_ != Test
      modifies this, bits`bsBuff, bits`bsLive, bits`nextIn, bits`pending
      ensures bits.Valid()
      ensures o.Symbol? ==>
        Valid() && label_ == Idle && count == old(count) + 1 && old(Next()) == Got(o.s, Stream())
      ensures o.NeedInput? ==>
        Valid() && label_ != Test && count == old(count) && Stream() == old(Stream())
        && (bits.later == [] ==> Next() == Fail)
      ensures o.DataError? ==> old(Next()) == Fail
    {
      hide Decodes, BitReader.Valid, BitReader.Coming, Val, Pow2, Shape, Partway, Next, NextAt, Meant;
      ghost var n, stream := count, Stream();
      MeantNow();
      GroupsLeft(n, stream);
      if label_ == Idle {
        var ok := BeginSymbol();
        if !ok { return DataError; }
      }
      InGroup();
      var ok;
      if label_ == Head {
        ok := FirstBits(n, stream);
      } else {
        ok := OneBit(n, stream);
      }
      if !ok { MeantNow(); return NeedInput; }
      while true
        invariant Within(n, stream) && label_ == Test
        decreases MAX_CODE + 1 - zn
      {
        o := TestLimit(n, stream);
        if !o.NeedInput? { return; }
        ok := OneBit(n, stream);
        if !ok { MeantNow(); return; }
      }
    }

    lemma GroupsLeft(n: nat, stream: seq<bool>)
      requires Shape()
      ensures n / BZ_G_SIZE >= |selector| ==> Meant(n, stream) == Fail
    {
    }
  }

  /** Why the input has not been enough: it ends before any code word does. */
  lemma {:induction false} EndsEarly(lens: seq<Byte>, stream: seq<bool>, n: nat)
    ensures |stream| < n ==> SymbolFrom(lens, stream, n) == Fail
  {
    hide IsCode;
  }

  lemma {:induction false} FromStep(lens: seq<Byte>, stream: seq<bool>, n: nat)
    requires n <= |stream|
    ensures n > MAX_CODE ==> SymbolFrom(lens, stream, n) == Fail
    ensures n <= MAX_CODE ==>
      SymbolFrom(lens, stream, n) ==
      if IsCode(lens, n, Val(stream[..n])) then Got(Coded(lens, n, Val(stream[..n])), stream[n..])
      else SymbolFrom(lens, stream, n + 1)
  {
    hide IsCode;
  }

  lemma {:induction false} NoPieces(later: seq<seq<Byte>>)
    ensures later == [] ==> PieceBits(later) == []
  {
  }

  /** Taking one bit from the input onto the bits already read. */
  lemma {:induction false} MoveBit(partial: seq<bool>, now: seq<bool>, more: seq<bool>)
    ensures now != [] ==> var q := partial + [now[0]];
      q + (now[1..] + more) == partial + (now + more) && Val(q) == 2 * Val(partial) + Val(now[..1])
  {
    if now != [] {
      ValSnoc(partial, now[0]);
      assert now[..1] == [] + [now[0]];
      ValSnoc([], now[0]);
    }
  }

  lemma {:induction false} ShapeOf(t: DecodeTable, lens: seq<Byte>)
    requires Decodes(t, lens)
    ensures |t.limit| == |t.base| == |t.perm| == 258 && 1 <= t.minLen <= 20
    ensures First(lens, t.minLen) == 0
  {
    NoneShorter(lens, t.minLen, t.minLen);
  }

  lemma Decided(t: DecodeTable, lens: seq<Byte>, n: nat, v: int)
    requires Decodes(t, lens) && t.minLen <= n <= MAX_CODE && First(lens, n) <= v
    ensures |t.limit| == |t.base| == |t.perm| == 258 && (v <= t.limit[n] <==> IsCode(lens, n, v))
    ensures v <= t.limit[n] ==> 0 <= v - t.base[n] < 258 && t.perm[v - t.base[n]] == Coded(lens, n, v)
  {
    LimitDecides(lens, t.limit, t.base, t.perm, t.minLen, t.maxLen, n, v);
  }

  /** Which group the current symbol belongs to. */
  lemma GroupOf(count: nat, groupNo: int, groupPos: int, idle: bool)
    requires 0 <= groupPos < BZ_G_SIZE
    requires count + (if idle then 0 else 1) == BZ_G_SIZE * (groupNo + 1) - groupPos
    ensures count / BZ_G_SIZE == if idle && groupPos == 0 then groupNo + 1 else groupNo
  {
  }
}

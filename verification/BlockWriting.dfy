/** The counting part of _tr_tally, and _tr_flush_block of trees.c: whatever form is chosen, the
    block that is sent is a valid one for the tokens. */
module BlockWriting {
  import opened Bytes
  import opened Wrappers
  import opened Bits
  import opened LsbBits
  import opened DeflateBits
  import opened Lz77
  import opened DeflateCodes
  import opened DeflateSymbols
  import opened LengthCodes
  import opened DeflateBody
  import GenBitlen
  import opened TreeBuilding
  import LengthRuns
  import opened TreeSender
  import opened StoredBlocks
  import opened FixedCodes
  import opened BlockForms
  import opened BlockLength

  /** The frequencies are those of the tokens and of the end of the block. */
  ghost predicate Tallied(t: StaticTables, lf: seq<int>, df: seq<int>, ts: seq<Token>) {
    && TablesOk(t) && AllValid(ts) && |lf| >= 286 && |df| >= 30
    && lf[..286] == LiteralCounts(t, ts) && df[..30] == DistanceCounts(t, ts)
  }

  lemma TalliedMore(t: StaticTables, lf: seq<int>, df: seq<int>, ts: seq<Token>, lf1: seq<int>, df1: seq<int>, x: Token)
    requires Tallied(t, lf, df, ts) && ValidToken(x)
    requires LiteralSymbol(t, x) < |lf| && lf1 == lf[LiteralSymbol(t, x) := lf[LiteralSymbol(t, x)] + 1]
    requires if x.Match? then MatchSymbol(t, x) < |df| && df1 == df[MatchSymbol(t, x) := df[MatchSymbol(t, x)] + 1]
      else df1 == df
    ensures Tallied(t, lf1, df1, ts + [x])
  {
    hide TablesOk, ValidToken, LiteralSymbol, MatchSymbol;
    assert (ts + [x])[..|ts + [x]| - 1] == ts;
    var a := LiteralSymbol(t, x);
    assert lf1[..286] == lf[..286][a := lf[a] + 1];
    if x.Match? {
      var b := MatchSymbol(t, x);
      assert df1[..30] == df[..30][b := df[b] + 1];
    }
  }

  /** The counting part of _tr_tally. */
  method TallyToken(t: StaticTables, lfc: array<int>, dfc: array<int>, x: Token, ghost ts: seq<Token>)
    requires TablesOk(t) && lfc != dfc && Tallied(t, lfc[..], dfc[..], ts) && ValidToken(x)
    modifies lfc, dfc
    ensures Tallied(t, lfc[..], dfc[..], ts + [x])
  {
    hide Tallied, LengthTables, DistanceTables, DCode, ValidToken;
    ghost var lf, df := lfc[..], dfc[..];
    TalliedSizes(t, lf, df, ts);
    SymbolRanges(t, x);
    TokenRange(x);
    match x {
      case Literal(b) =>
        lfc[b] := lfc[b] + 1;
      case Match(length, dist) =>
        lfc[t.lengthCode[length - 3] + LITERALS + 1] := lfc[t.lengthCode[length - 3] + LITERALS + 1] + 1;
        dfc[DCode(t.distCode, dist - 1)] := dfc[DCode(t.distCode, dist - 1)] + 1;
    }
    TalliedMore(t, lf, df, ts, lfc[..], dfc[..], x);
  }

  lemma TalliedSizes(t: StaticTables, lf: seq<int>, df: seq<int>, ts: seq<Token>)
    requires Tallied(t, lf, df, ts)
    ensures |lf| >= 286 && |df| >= 30 && Frequencies(lf, 286) && Frequencies(df, 30) && lf[256] > 0
    ensures (forall s :: 0 <= s < 286 ==> lf[s] >= 0) && (forall s :: 0 <= s < 30 ==> df[s] >= 0)
  {
    hide TablesOk, LiteralCounts, DistanceCounts;
    CountsPositive(t, ts, 0);
    forall s | 0 <= s < 286 ensures lf[s] >= 0 { assert lf[s] == lf[..286][s]; }
    forall s | 0 <= s < 30 ensures df[s] >= 0 { assert df[s] == df[..30][s]; }
    assert lf[256] == lf[..286][256];
  }

  lemma TokenCounted(t: StaticTables, lf: seq<int>, df: seq<int>, ts: seq<Token>, k: nat)
    requires Tallied(t, lf, df, ts) && k < |ts|
    ensures ValidToken(ts[k]) && lf[LiteralSymbol(t, ts[k])] > 0
    ensures ts[k].Match? ==> df[MatchSymbol(t, ts[k])] > 0
  {
    hide TablesOk, LiteralCounts, DistanceCounts, ValidToken, LiteralSymbol, MatchSymbol;
    CountsPositive(t, ts, k);
    assert lf[LiteralSymbol(t, ts[k])] == lf[..286][LiteralSymbol(t, ts[k])];
    if ts[k].Match? { assert df[MatchSymbol(t, ts[k])] == df[..30][MatchSymbol(t, ts[k])]; }
  }

  lemma TokenRange(x: Token)
    requires ValidToken(x)
    ensures x.Match? ==> 3 <= x.length <= 258 && 1 <= x.dist <= 32768
  {
  }

  // ---- the codes of a block ----

  lemma FixedCodable(t: StaticTables, ts: seq<Token>)
    requires TablesOk(t) && forall k :: 0 <= k < |ts| ==> ValidToken(ts[k])
    ensures AllCodable(FixedCoder(t), ts)
  {
    hide LengthTables, DistanceTables, FixedLens, FixedDists, Complete, DCode, ValidToken;
    var c := FixedCoder(t);
    FixedComplete();
    CompleteNotOver(FixedLens());
    CompleteNotOver(FixedDists());
    hide NotOver;
    assert ValidCoder(c);
    forall k | 0 <= k < |ts| ensures Codable(c, ts[k]) {
      SymbolRanges(t, ts[k]);
      TokenRange(ts[k]);
    }
  }

  lemma CompleteNotOver(lens: seq<int>)
    requires Complete(lens)
    ensures NotOver(lens)
  {
  }

  /** Lengths built from the counted frequencies serve the tokens. */
  lemma {:induction false} DynamicCodable(t: StaticTables, lf0: seq<int>, df0: seq<int>, lf: seq<int>, df: seq<int>,
      ll: seq<int>, dd: seq<int>, maxL: int, maxD: int, ts: seq<Token>)
    requires TablesOk(t) && Tallied(t, lf0, df0, ts) && Kept(lf0, lf, 286) && Kept(df0, df, 30)
    requires 1 <= maxL < 286 && 1 <= maxD < 30 && |ll| == maxL + 1 && |dd| == maxD + 1 && TreeCode(ll, lf, 15)
        && TreeCode(dd, df, 15)
    requires (forall x :: maxL < x < 286 ==> lf[x] == 0) && (forall x :: maxD < x < 30 ==> df[x] == 0)
    ensures 256 <= maxL && ll[256] > 0
    ensures AllCodable(Coder(t.baseLength, t.lengthCode, t.baseDist, t.distCode, ll, dd), ts)
  {
    hide LengthTables, DistanceTables, Complete, DCode, ValidToken, TreeBuilding.Occur;
    TalliedSizes(t, lf0, df0, ts);
    var c := Coder(t.baseLength, t.lengthCode, t.baseDist, t.distCode, ll, dd);
    CompleteNotOver(ll);
    CompleteNotOver(dd);
    hide NotOver;
    forall s | 0 <= s < 286 && lf0[s] > 0 ensures Used(ll, s) { assert lf[s] != 0; }
    forall s | 0 <= s < 30 && df0[s] > 0 ensures Used(dd, s) { assert df[s] != 0; }
    forall k | 0 <= k < |ts| ensures Codable(c, ts[k]) {
      TokenCounted(t, lf0, df0, ts, k);
      SymbolRanges(t, ts[k]);
      TokenRange(ts[k]);
    }
    assert Used(ll, 256);
  }

  lemma FixedReady(t: StaticTables, lcode: seq<int>, dcode: seq<int>)
    requires CodesFor(FixedLens(), lcode) && |dcode| == 30 && forall s :: 0 <= s < 30 ==>
      dcode[s] == Huff(FixedDists(), s)
    ensures CodesReady(FixedCoder(t), lcode, dcode)
  {
    hide FixedLens, FixedDists, Huff;
  }

  lemma DynamicReady(c: Coder, lcode: seq<int>, dcode: seq<int>)
    requires CodesFor(c.llens, lcode) && CodesFor(c.dlens, dcode)
    ensures CodesReady(c, lcode, dcode)
  {
    hide Huff;
  }

  // ---- the choice of the codes ----

  /** Guarded lengths up to the last symbol that has a code: those of a cheapest code for the counts. */
  ghost predicate Fitted(counts: seq<int>, l: seq<int>) {
    2 <= |l| <= |counts| + 1 && l[|l| - 2] > 0 && Chosen(counts, GenBitlen.PaddedTo(l[..|l| - 1], |counts|), 15)
  }

  /** The two trees are for the symbols of the tokens, and the code for their lengths is for the
      symbols by which these are sent. */
  ghost predicate BestTrees(t: StaticTables, l: seq<int>, d: seq<int>, bll: seq<int>, n: nat, ts: seq<Token>) {
    && TablesOk(t) && AllValid(ts) && HeaderReady(l, d, bll, n)
    && Fitted(LiteralCounts(t, ts), l) && Fitted(DistanceCounts(t, ts), d)
    && Chosen(UsesOf(LengthRuns.TreeTokens(l) + LengthRuns.TreeTokens(d)), bll, MAX_BL_BITS) && LastSent(bll, n)
  }

  lemma AreBest(t: StaticTables, lf: seq<int>, df: seq<int>, l: seq<int>, d: seq<int>, bll: seq<int>, n: nat,
      ts: seq<Token>)
    requires Tallied(t, lf, df, ts) && HeaderReady(l, d, bll, n) && Fitted(lf[..286], l) && Fitted(df[..30], d)
    requires Chosen(UsesOf(LengthRuns.TreeTokens(l) + LengthRuns.TreeTokens(d)), bll, MAX_BL_BITS) && LastSent(bll, n)
    ensures BestTrees(t, l, d, bll, n, ts)
  {
    hide Fitted, Chosen, LastSent, TablesOk, LiteralCounts, DistanceCounts, HeaderReady;
  }

  lemma IsFitted(counts: seq<int>, dl: seq<int>, maxCode: nat, l: seq<int>)
    requires 1 <= maxCode < |counts| <= |dl| && Chosen(counts, dl[..|counts|], 15) && dl[maxCode] > 0
    requires forall x :: maxCode < x < |counts| ==> dl[x] == 0
    requires |l| == maxCode + 2 && l[..maxCode + 1] == dl[..maxCode + 1]
    ensures Fitted(counts, l)
  {
    hide Chosen;
    var p, q := GenBitlen.PaddedTo(l[..|l| - 1], |counts|), dl[..|counts|];
    forall x | 0 <= x < |counts| ensures p[x] == q[x] {
      if x <= maxCode { assert l[..maxCode + 1][x] == dl[..maxCode + 1][x]; }
    }
    assert p == q;
    assert l[..maxCode + 1][maxCode] == dl[..maxCode + 1][maxCode];
  }

  // ---- the length of a block ----

  lemma NoExtraAtFirst()
    ensures NoExtraFirst(EXTRA_LBITS, LITERALS + 1) && NoExtraFirst(EXTRA_DBITS, 0)
    ensures |FixedLens()| == 288 && |FixedDists()| == 32
  {
  }

  /** What build_tree adds up for both trees is the length of the body. */
  lemma {:induction false} CountedCost(t: StaticTables, lf: seq<int>, df: seq<int>, ts: seq<Token>, ll: seq<int>,
      dd: seq<int>)
    requires Tallied(t, lf, df, ts) && |ll| >= 286 && |dd| >= 30
    ensures SymbolCost(lf, ll, EXTRA_LBITS, LITERALS + 1, 286) + SymbolCost(df, dd, EXTRA_DBITS, 0, 30) ==
            BodyCost(t, ts, ll, dd)
  {
    hide TablesOk, SymbolCost, LiteralCounts, DistanceCounts, EXTRA_LBITS, EXTRA_DBITS;
    forall s | 0 <= s < 286 ensures lf[s] == LiteralCounts(t, ts)[s] { assert lf[s] == lf[..286][s]; }
    forall s | 0 <= s < 30 ensures df[s] == DistanceCounts(t, ts)[s] { assert df[s] == df[..30][s]; }
    SameCost(lf, LiteralCounts(t, ts), ll, ll, EXTRA_LBITS, LITERALS + 1, 286);
    SameCost(df, DistanceCounts(t, ts), dd, dd, EXTRA_DBITS, 0, 30);
  }

  lemma {:induction false} BodyIs(t: StaticTables, lf: seq<int>, df: seq<int>, ts: seq<Token>, ll: seq<int>,
      dd: seq<int>, maxL: nat, maxD: nat, l: seq<int>, d: seq<int>)
    requires Tallied(t, lf, df, ts) && |ll| >= 286 && |dd| >= 30 && maxL < 286 && maxD < 30
    requires |l| == maxL + 2 && |d| == maxD + 2 && AllCodable(DynamicCoder(t, l, d), ts)
    requires l[..maxL + 1] == ll[..maxL + 1] && d[..maxD + 1] == dd[..maxD + 1]
    ensures |BodyBits(DynamicCoder(t, l, d), ts, 0)| ==
            SymbolCost(lf, ll, EXTRA_LBITS, LITERALS + 1, 286) + SymbolCost(df, dd, EXTRA_DBITS, 0, 30)
  {
    hide TablesOk, SymbolCost, LiteralCounts, DistanceCounts, EXTRA_LBITS, EXTRA_DBITS, AllCodable, BodyBits, BodyCost;
    CountedCost(t, lf, df, ts, ll, dd);
    var c := DynamicCoder(t, l, d);
    forall s | 0 <= s < |c.llens| ensures ll[s] == c.llens[s] { assert ll[..maxL + 1][s] == l[..maxL + 1][s]; }
    forall s | 0 <= s < |c.dlens| ensures dd[s] == c.dlens[s] { assert dd[..maxD + 1][s] == d[..maxD + 1][s]; }
    BodyLength(c, t, ts, ll, dd);
  }

  lemma {:induction false} StaticIs(t: StaticTables, lf: seq<int>, df: seq<int>, ts: seq<Token>)
    requires Tallied(t, lf, df, ts)
    ensures |lf| >= 286 && |df| >= 30 && |FixedLens()| == 288 && |FixedDists()| == 32
    ensures AllCodable(FixedCoder(t), ts) && |BodyBits(FixedCoder(t), ts, 0)| ==
            StaticSum(lf, Some(FixedLens()), EXTRA_LBITS, LITERALS + 1, 286)
            + StaticSum(df, Some(FixedDists()), EXTRA_DBITS, 0, 30)
  {
    hide TablesOk, SymbolCost, LiteralCounts, DistanceCounts, EXTRA_LBITS, EXTRA_DBITS, AllCodable, BodyBits, BodyCost,
      FixedLens, FixedDists, ValidToken;
    FixedCodable(t, ts);
    CountedCost(t, lf, df, ts, FixedLens(), FixedDists());
    BodyLength(FixedCoder(t), t, ts, FixedLens(), FixedDists());
  }

  /** The form is the shortest in whole bytes of those that can be sent: the block with its own codes,
      the one with the fixed codes, and the stored one.  A stored block is preferred if its bytes and
      their two lengths are no more than the others, and then the fixed codes. */
  ghost predicate Shortest(t: StaticTables, f: Form, own: Form, ts: seq<Token>, last: bool, buf: Option<seq<Byte>>,
      storedLen: int, fixed: bool)
  {
    && own.DynamicForm? && FormOk(t, own, ts) && FormOk(t, FixedForm, ts)
    && BestTrees(t, own.l, own.d, own.bll, own.n, ts)
    && var a, b := InBytes(|FormBits(t, own, ts, last)|), InBytes(|FormBits(t, FixedForm, ts, last)|);
       && (f.StoredForm? <==> buf.Some? && storedLen + 4 <= if b <= a then b else a)
       && (!f.StoredForm? ==> f == if fixed || b <= a then FixedForm else own)
  }

  function InBytes(bits: int): int { (bits + 7) / 8 }

  // ---- the state ----

  lemma TablesAre(t: StaticTables)
    requires LengthTables(t.baseLength, t.lengthCode) && DistanceTables(t.baseDist, t.distCode)
    ensures TablesOk(t)
  {
  }

  /** The fields of deflate_state that trees.c works on; the fc and dl parts of the trees are
      separate arrays. */
  class TreeState {
    const heap: array<int>
    const depth: array<int>
    const blCount: array<int>
    const lfc: array<int>
    const ldl: array<int>
    const dfc: array<int>
    const ddl: array<int>
    const bfc: array<int>
    const bdl: array<int>
    const slcode: array<int>
    const sdcode: array<int>
    const tables: StaticTables

    /** The arrays are different ones, of the sizes of deflate.h. */
    ghost predicate Apart() {
      && heap.Length == 573 && depth.Length == 573 && blCount.Length == 16
      && lfc.Length == 573 && ldl.Length == 573 && dfc.Length == 61 && ddl.Length == 61 && bfc.Length == 39
          && bdl.Length == 39
      && heap != depth && heap != blCount && heap != lfc && heap != ldl && heap != dfc && heap != ddl && heap != bfc
          && heap != bdl
      && depth != blCount && depth != lfc && depth != ldl && depth != dfc && depth != ddl && depth != bfc
          && depth != bdl
      && blCount != lfc && blCount != ldl && blCount != dfc && blCount != ddl && blCount != bfc && blCount != bdl
      && lfc != ldl && lfc != dfc && lfc != ddl && lfc != bfc && lfc != bdl
      && ldl != dfc && ldl != ddl && ldl != bfc && ldl != bdl && dfc != ddl && dfc != bfc && dfc != bdl && ddl != bfc
          && ddl != bdl && bfc != bdl
      && Unchanging(slcode) && Unchanging(sdcode)
    }

    /** An array that is none of those that change. */
    ghost predicate Unchanging(a: array<int>) {
      a != heap && a != depth && a != blCount && a != lfc && a != ldl && a != dfc && a != ddl && a != bfc && a != bdl
    }

    ghost predicate Static()
      reads slcode, sdcode
    {
      TablesOk(tables) && CodesFor(FixedLens(), slcode[..]) && sdcode.Length == 30 && forall s :: 0 <= s < 30 ==>
        sdcode[s] == Huff(FixedDists(), s)
    }

    ghost predicate Valid()
      reads slcode, sdcode
    {
      Apart() && Static()
    }

    /** What init_block leaves. */
    ghost predicate Cleared()
      reads lfc, dfc, bfc
    {
      && lfc.Length == 573 && dfc.Length == 61 && bfc.Length == 39
      && (forall s :: 0 <= s < 286 ==> lfc[s] == if s == 256 then 1 else 0) && (forall s :: 0 <= s < 30 ==> dfc[s] == 0)
      && forall s :: 0 <= s < 19 ==> bfc[s] == 0
    }

    constructor (tables: StaticTables, slcode: array<int>, sdcode: array<int>)
      requires TablesOk(tables) && CodesFor(FixedLens(), slcode[..]) && sdcode.Length == 30
          && forall s :: 0 <= s < 30 ==> sdcode[s] == Huff(FixedDists(), s)
      ensures Valid() && this.slcode == slcode && this.sdcode == sdcode
      ensures fresh(heap) && fresh(depth) && fresh(blCount) && fresh(lfc) && fresh(ldl) && fresh(dfc) && fresh(ddl)
          && fresh(bfc) && fresh(bdl)
    {
      hide TablesOk, CodesFor, FixedLens, FixedDists, Huff;
      this.tables, this.slcode, this.sdcode := tables, slcode, sdcode;
      heap, depth, blCount := new int[573], new int[573], new int[16];
      lfc, ldl, dfc, ddl, bfc, bdl := new int[573], new int[573], new int[61], new int[61], new int[39], new int[39];
    }

    /** init_block */
    method InitBlock()
      requires Apart()
      modifies lfc, dfc, bfc
      ensures Cleared()
    {
      hide *;
      Sizes();
      for n := 0 to 286
        modifies lfc
        invariant forall s :: 0 <= s < n ==> lfc[s] == 0
      {
        lfc[n] := 0;
      }
      for n := 0 to 30
        modifies dfc
        invariant forall s :: 0 <= s < n ==> dfc[s] == 0
      {
        dfc[n] := 0;
      }
      for n := 0 to 19
        modifies bfc
        invariant forall s :: 0 <= s < n ==> bfc[s] == 0
      {
        bfc[n] := 0;
      }
      lfc[256] := 1;
      IsCleared();
    }

    lemma Sizes()
      requires Apart()
      ensures lfc.Length == 573 && dfc.Length == 61 && bfc.Length == 39 && lfc != dfc && lfc != bfc && dfc != bfc
    {
    }

    lemma IsCleared()
      requires lfc.Length == 573 && dfc.Length == 61 && bfc.Length == 39 && lfc[256] == 1
      requires (forall s :: 0 <= s < 286 && s != 256 ==> lfc[s] == 0) && (forall s :: 0 <= s < 30 ==> dfc[s] == 0)
          && forall s :: 0 <= s < 19 ==> bfc[s] == 0
      ensures Cleared()
    {
    }

    lemma NothingTallied()
      requires Cleared() && TablesOk(tables)
      ensures Tallied(tables, lfc[..], dfc[..], [])
    {
      forall s | 0 <= s < 286 ensures lfc[..][..286][s] == LiteralCounts(tables, [])[s] {}
      forall s | 0 <= s < 30 ensures dfc[..][..30][s] == DistanceCounts(tables, [])[s] {}
      NoneValid();
    }

    /** All tokens of the block are tallied. */
    method CountTokens(ts: seq<Token>)
      requires Valid() && Cleared() && forall k :: 0 <= k < |ts| ==> ValidToken(ts[k])
      modifies lfc, dfc
      ensures Tallied(tables, lfc[..], dfc[..], ts) && forall s :: 0 <= s < 19 ==> bfc[s] == 0
    {
      hide Tallied, TablesOk, ValidToken, FixedLens, FixedDists, CodesFor, Huff;
      NothingTallied();
      assert ts[..0] == [];
      for k := 0 to |ts|
        invariant Tallied(tables, lfc[..], dfc[..], ts[..k])
      {
        TallyToken(tables, lfc, dfc, ts[k], ts[..k]);
        assert ts[..k] + [ts[k]] == ts[..k + 1];
      }
      assert ts[..|ts|] == ts;
    }

    /** Both trees and the code for their lengths, from the frequencies. */
    ghost predicate TreesBuilt(maxL: nat, maxD: nat, n: nat, ts: seq<Token>)
      reads lfc, ldl, dfc, ddl, bfc, bdl
    {
      && maxL + 2 <= ldl.Length && maxD + 2 <= ddl.Length && 19 <= bdl.Length
          && TreesOk(ldl[..maxL + 2], ddl[..maxD + 2], bdl[..19], n)
      && AllCodable(DynamicCoder(tables, ldl[..maxL + 2], ddl[..maxD + 2]), ts)
      && CodesFor(ldl[..maxL + 1], lfc[..]) && CodesFor(ddl[..maxD + 1], dfc[..]) && CodesFor(bdl[..19], bfc[..])
    }

    lemma ApartParts()
      requires Valid()
      ensures heap.Length == 573 && depth.Length == 573 && blCount.Length == 16 && TablesOk(tables)
      ensures lfc.Length == 573 && ldl.Length == 573 && dfc.Length == 61 && ddl.Length == 61 && bfc.Length == 39
          && bdl.Length == 39
      ensures heap != depth && heap != blCount && heap != lfc && heap != ldl && heap != dfc && heap != ddl
          && heap != bfc && heap != bdl
      ensures depth != blCount && depth != lfc && depth != ldl && depth != dfc && depth != ddl && depth != bfc
          && depth != bdl
      ensures blCount != lfc && blCount != ldl && blCount != dfc && blCount != ddl && blCount != bfc && blCount != bdl
      ensures lfc != ldl && lfc != dfc && lfc != ddl && lfc != bfc && lfc != bdl
      ensures ldl != dfc && ldl != ddl && ldl != bfc && ldl != bdl && dfc != ddl && dfc != bfc && dfc != bdl
          && ddl != bfc && ddl != bdl && bfc != bdl
      ensures slcode != heap && slcode != depth && slcode != blCount && slcode != lfc && slcode != ldl && slcode != dfc
          && slcode != ddl && slcode != bfc && slcode != bdl
      ensures sdcode != heap && sdcode != depth && sdcode != blCount && sdcode != lfc && sdcode != ldl && sdcode != dfc
          && sdcode != ddl && sdcode != bfc && sdcode != bdl
    {
      hide TablesOk, CodesFor, FixedLens, FixedDists, Huff;
    }

    /** What opt_len and static_len say: the bits of the block with its own codes, and with the fixed
        ones. */
    ghost predicate Measured(maxL: nat, maxD: nat, n: nat, ts: seq<Token>, optLen: int, staticLen: int)
      reads lfc, ldl, dfc, ddl, bfc, bdl
      requires TreesBuilt(maxL, maxD, n, ts)
    {
      && optLen == |HeaderBits(ldl[..maxL + 2], ddl[..maxD + 2], bdl[..19], n)|
          + |BodyBits(DynamicCoder(tables, ldl[..maxL + 2], ddl[..maxD + 2]), ts, 0)|
      && AllCodable(FixedCoder(tables), ts) && staticLen == |BodyBits(FixedCoder(tables), ts, 0)|
    }

    /** The two calls of build_tree, and build_bl_tree. */
    method BuildTrees(ts: seq<Token>) returns (maxL: nat, maxD: nat, maxBlindex: nat, optLen: int, staticLen: int)
      requires Valid() && Tallied(tables, lfc[..], dfc[..], ts) && forall s :: 0 <= s < 19 ==> bfc[s] == 0
      modifies heap, depth, blCount, lfc, ldl, dfc, ddl, bfc, bdl
      ensures TreesBuilt(maxL, maxD, maxBlindex + 1, ts)
          && Measured(maxL, maxD, maxBlindex + 1, ts, optLen, staticLen)
      ensures BestTrees(tables, ldl[..maxL + 2], ddl[..maxD + 2], bdl[..19], maxBlindex + 1, ts)
    {
      hide *;
      ApartParts();
      ghost var lf0, df0 := lfc[..], dfc[..];
      TalliedSizes(tables, lf0, df0, ts);
      TreeConstants();
      ghost var lf, df, bll;
      var l, d, b;
      NoExtraAtFirst();
      l, optLen, staticLen, lf := BuildTree(heap, lfc, depth, ldl, blCount, L_CODES, EXTRA_LBITS, LITERALS + 1,
          Some(FixedLens()), 15, 0, 0);
      ghost var ll, lcode, ldl1 := ldl[..l + 1], lfc[..], ldl[..];
      assert dfc[..] == df0;
      d, optLen, staticLen, df := BuildTree(heap, dfc, depth, ddl, blCount, D_CODES, EXTRA_DBITS, 0,
          Some(FixedDists()), 15, optLen, staticLen);
      ghost var dd, dcode, ddl1, body := ddl[..d + 1], dfc[..], ddl[..], optLen;
      assert ldl[..l + 1] == ll;
      maxL, maxD := l, d;
      DynamicCodable(tables, lf0, df0, lf, df, ll, dd, l, d, ts);
      TreeLengthRange(ll, lf);
      TreeLengthRange(dd, df);
      assert (forall i :: 0 <= i <= maxL ==> ldl[i] == ll[i]) && forall i :: 0 <= i <= maxD ==> ddl[i] == dd[i];
      b, optLen, bll := BuildBlTree(heap, depth, blCount, ldl, maxL, ddl, maxD, bfc, bdl, optLen);
      maxBlindex := b;
      assert lfc[..] == lcode && dfc[..] == dcode;
      BuiltTrees(tables, ldl[..maxL + 2], ddl[..maxD + 2], bll, maxBlindex + 1, ll, dd, lf, df, ts);
      assert ldl[..maxL + 2][..maxL + 1] == ldl[..maxL + 1] && ddl[..maxD + 2][..maxD + 1] == ddl[..maxD + 1];
      AreBuilt(maxL, maxD, maxBlindex + 1, ts);
      BodyIs(tables, lf0, df0, ts, ldl1, ddl1, l, d, ldl[..maxL + 2], ddl[..maxD + 2]);
      StaticIs(tables, lf0, df0, ts);
      AreMeasured(maxL, maxD, maxBlindex + 1, ts, optLen, staticLen);
      IsFitted(lf0[..286], ldl1, l, ldl[..maxL + 2]);
      IsFitted(df0[..30], ddl1, d, ddl[..maxD + 2]);
      AreBest(tables, lf0, df0, ldl[..maxL + 2], ddl[..maxD + 2], bll, maxBlindex + 1, ts);
    }

    lemma AreMeasured(maxL: nat, maxD: nat, n: nat, ts: seq<Token>, optLen: int, staticLen: int)
      requires TreesBuilt(maxL, maxD, n, ts)
          && HeaderReady(ldl[..maxL + 2], ddl[..maxD + 2], bdl[..19], n)
      requires optLen == |HeaderBits(ldl[..maxL + 2], ddl[..maxD + 2], bdl[..19], n)|
          + |BodyBits(DynamicCoder(tables, ldl[..maxL + 2], ddl[..maxD + 2]), ts, 0)|
      requires AllCodable(FixedCoder(tables), ts) && staticLen == |BodyBits(FixedCoder(tables), ts, 0)|
      ensures Measured(maxL, maxD, n, ts, optLen, staticLen)
    {
      hide TreesBuilt, HeaderReady, HeaderBits, BodyBits, AllCodable;
    }

    lemma AreBuilt(maxL: nat, maxD: nat, n: nat, ts: seq<Token>)
      requires maxL + 2 <= ldl.Length && maxD + 2 <= ddl.Length && 19 <= bdl.Length
          && TreesOk(ldl[..maxL + 2], ddl[..maxD + 2], bdl[..19], n)
      requires AllCodable(DynamicCoder(tables, ldl[..maxL + 2], ddl[..maxD + 2]), ts)
      requires CodesFor(ldl[..maxL + 1], lfc[..]) && CodesFor(ddl[..maxD + 1], dfc[..]) && CodesFor(bdl[..19], bfc[..])
      ensures TreesBuilt(maxL, maxD, n, ts)
    {
      hide TreesOk, AllCodable, CodesFor;
    }

    /** What a call leaves: the bits of a valid block of the given form, then padding if it was
        the last one. */
    ghost predicate Sent(f: Form, ts: seq<Token>, last: bool, end: nat, sent0: seq<bool>, sent: seq<bool>) {
      && FormOk(tables, f, ts) && end < 8 && sent == sent0 + FormBits(tables, f, ts, last) + LowBits(0, end)
      && (if last then |sent| % 8 == 0 else end == 0)
          && (f.StoredForm? ==> |sent0 + FormBits(tables, f, ts, last)| % 8 == 0)
    }

    /** A stored block. */
    method FlushStored(sink: BitSink, data: seq<Byte>, ts: seq<Token>, last: bool) returns (ghost f: Form)
      requires sink.Valid() && |data| <= 0xffff
      modifies sink
      ensures sink.Valid() && f.StoredForm? && f.data == data && FormOk(tables, f, ts) && |sink.Sent()| % 8 == 0
      ensures sink.Sent() == old(sink.Sent()) + FormBits(tables, f, ts, last)
    {
      hide *;
      ghost var s0 := sink.Sent();
      ghost var pad := StoredBlock(sink, data, last);
      f := StoredForm(pad, data);
      StoredFormIs(tables, pad, data, ts, last);
      Join3(s0, LowBits(Digit(last), 3), LowBits(0, pad), StoredBits(data));
    }

    /** A block with the fixed codes. */
    method FlushFixed(sink: BitSink, ts: seq<Token>, last: bool) returns (ghost f: Form)
      requires Valid() && sink.Valid() && forall k :: 0 <= k < |ts| ==> ValidToken(ts[k])
      modifies sink
      ensures sink.Valid() && f == FixedForm && FormOk(tables, f, ts)
          && sink.Sent() == old(sink.Sent()) + FormBits(tables, f, ts, last)
    {
      hide *;
      ghost var s0 := sink.Sent();
      StaticParts();
      FixedCodable(tables, ts);
      FixedReady(tables, slcode[..], sdcode[..]);
      TypeBits(2, last);
      sink.SendBits(2 + (if last then 1 else 0), 3);
      CompressBlock(sink, FixedCoder(tables), slcode, sdcode, ts);
      f := FixedForm;
      FixedFormIs(tables, ts, last);
      Join2(s0, LowBits(2 + Digit(last), 3), BodyBits(FixedCoder(tables), ts, 0));
    }

    lemma StaticParts()
      requires Valid()
      ensures TablesOk(tables) && CodesFor(FixedLens(), slcode[..]) && sdcode.Length == 30
          && forall s :: 0 <= s < 30 ==> sdcode[s] == Huff(FixedDists(), s)
    {
      hide TablesOk, CodesFor, FixedLens, FixedDists, Huff;
    }

    /** A block with its own codes. */
    method FlushDynamic(sink: BitSink, maxL: nat, maxD: nat, maxBlindex: nat, ts: seq<Token>, last: bool)
      returns (ghost f: Form)
      requires Valid() && sink.Valid() && TreesBuilt(maxL, maxD, maxBlindex + 1, ts)
      modifies sink
      ensures sink.Valid() && f == DynamicForm(ldl[..maxL + 2], ddl[..maxD + 2], bdl[..19], maxBlindex + 1)
      ensures FormOk(tables, f, ts)
          && sink.Sent() == old(sink.Sent()) + FormBits(tables, f, ts, last)
    {
      hide *;
      ApartParts();
      BuiltParts(maxL, maxD, maxBlindex + 1, ts);
      ghost var s0, l, d, bll := sink.Sent(), ldl[..maxL + 2], ddl[..maxD + 2], bdl[..19];
      TypeBits(4, last);
      TreeConstants();
      sink.SendBits(4 + (if last then 1 else 0), 3);
      SendAllTrees(sink, ldl, maxL + 1, ddl, maxD + 1, bfc, bdl, maxBlindex + 1, bll);
      var c := Coder(tables.baseLength, tables.lengthCode, tables.baseDist, tables.distCode, ldl[..maxL + 1],
          ddl[..maxD + 1]);
      CoderIs(tables, c, l, d);
      DynamicReady(c, lfc[..], dfc[..]);
      CompressBlock(sink, c, lfc, dfc, ts);
      f := DynamicForm(l, d, bll, maxBlindex + 1);
      DynamicFormIs(tables, l, d, bll, maxBlindex + 1, ts, last);
      Join3(s0, LowBits(4 + Digit(last), 3), HeaderBits(l, d, bll, maxBlindex + 1), BodyBits(c, ts, 0));
    }

    lemma BuiltParts(maxL: nat, maxD: nat, n: nat, ts: seq<Token>)
      requires TreesBuilt(maxL, maxD, n, ts)
      ensures maxL + 2 <= ldl.Length && maxD + 2 <= ddl.Length && 19 <= bdl.Length
          && TreesOk(ldl[..maxL + 2], ddl[..maxD + 2], bdl[..19], n)
      ensures AllCodable(DynamicCoder(tables, ldl[..maxL + 2], ddl[..maxD + 2]), ts)
          && HeaderReady(ldl[..maxL + 2], ddl[..maxD + 2], bdl[..19], n)
      ensures CodesFor(ldl[..maxL + 1], lfc[..]) && CodesFor(ddl[..maxD + 1], dfc[..]) && CodesFor(bdl[..19], bfc[..])
      ensures 256 <= maxL < 286 && 0 <= maxD < 30
    {
      hide AllCodable, CodesFor, HeaderReady, Complete;
    }

    /** _tr_flush_block, for the tokens of a block: what is sent is a valid block for those tokens, in
        the shortest form there is. */
    method FlushBlock(sink: BitSink, ts: seq<Token>, buf: Option<seq<Byte>>, storedLen: int, last: bool, fixed: bool)
      returns (ghost f: Form, ghost end: nat, ghost own: Form)
      requires Valid() && Cleared() && sink.Valid() && (forall k :: 0 <= k < |ts| ==> ValidToken(ts[k]))
          && (buf.Some? ==> |buf.value| <= 0xffff)
      modifies sink, heap, depth, blCount, lfc, ldl, dfc, ddl, bfc, bdl
      ensures Valid() && Cleared() && sink.Valid() && Sent(f, ts, last, end, old(sink.Sent()), sink.Sent())
      ensures f.StoredForm? ==> buf == Some(f.data)
      ensures Shortest(tables, f, own, ts, last, buf, storedLen, fixed)
    {
      hide *;
      ApartParts();
      StaticParts();
      ghost var s0 := sink.Sent();
      CountTokens(ts);
      var maxL, maxD, maxBlindex, optLen, staticLen := BuildTrees(ts);
      BuiltParts(maxL, maxD, maxBlindex + 1, ts);
      own := DynamicForm(ldl[..maxL + 2], ddl[..maxD + 2], bdl[..19], maxBlindex + 1);
      FormLengths(maxL, maxD, maxBlindex + 1, ts, optLen, staticLen, last);
      ghost var a, b := (optLen + 3 + 7) / 8, (staticLen + 3 + 7) / 8;
      var optLenb, staticLenb := (optLen + 3 + 7) / 8, (staticLen + 3 + 7) / 8;
      if staticLenb <= optLenb { optLenb := staticLenb; }
      if storedLen + 4 <= optLenb && buf.Some? {
        f := FlushStored(sink, buf.value, ts, last);
      } else if fixed || staticLenb == optLenb {
        f := FlushFixed(sink, ts, last);
      } else {
        f := FlushDynamic(sink, maxL, maxD, maxBlindex, ts, last);
      }
      IsShortest(f, own, ts, last, buf, storedLen, fixed, a, b);
      ghost var s1 := sink.Sent();
      ApartIs();
      InitBlock();
      end := 0;
      NoPad();
      assert s1 + [] == s1;
      if last {
        sink.Windup();
        end :| end < 8 && sink.Sent() == s1 + LowBits(0, end);
        WholeBytes(sink);
      }
      SentIs(f, ts, last, end, s0, s1, sink.Sent());
    }

    /** The lengths of the block that opt_len and static_len stand for. */
    lemma {:induction false} FormLengths(maxL: nat, maxD: nat, n: nat, ts: seq<Token>, optLen: int, staticLen: int,
        last: bool)
      requires TreesBuilt(maxL, maxD, n, ts) && Measured(maxL, maxD, n, ts, optLen, staticLen)
      ensures var own := DynamicForm(ldl[..maxL + 2], ddl[..maxD + 2], bdl[..19], n);
        && FormOk(tables, own, ts) && |FormBits(tables, own, ts, last)| == optLen + 3
        && FormOk(tables, FixedForm, ts) && |FormBits(tables, FixedForm, ts, last)| == staticLen + 3
    {
      hide TreesOk, AllCodable, CodesFor, BodyBits, HeaderBits, LowBits;
    }

    lemma IsShortest(f: Form, own: Form, ts: seq<Token>, last: bool, buf: Option<seq<Byte>>, storedLen: int,
        fixed: bool, a: int, b: int)
      requires own.DynamicForm? && FormOk(tables, own, ts) && FormOk(tables, FixedForm, ts)
          && BestTrees(tables, own.l, own.d, own.bll, own.n, ts)
      requires a == (|FormBits(tables, own, ts, last)| + 7) / 8
      requires b == (|FormBits(tables, FixedForm, ts, last)| + 7) / 8
      requires f.StoredForm? <==> buf.Some? && storedLen + 4 <= if b <= a then b else a
      requires !f.StoredForm? ==> f == if fixed || b <= a then FixedForm else own
      ensures Shortest(tables, f, own, ts, last, buf, storedLen, fixed)
    {
      hide FormOk, FormBits;
    }

    lemma ApartIs()
      requires Valid()
      ensures Apart()
    {
      hide Apart, Static;
    }

    lemma SentIs(f: Form, ts: seq<Token>, last: bool, end: nat, s0: seq<bool>, s1: seq<bool>, s2: seq<bool>)
      requires FormOk(tables, f, ts) && end < 8 && s1 == s0 + FormBits(tables, f, ts, last)
          && s2 == s1 + LowBits(0, end)
      requires (if last then |s2| % 8 == 0 else end == 0) && (f.StoredForm? ==> |s1| % 8 == 0)
      ensures Sent(f, ts, last, end, s0, s2)
    {
      hide FormOk, FormBits, LowBits;
    }
  }

  lemma TypeBits(kind: nat, last: bool)
    requires kind <= 4
    ensures 0 <= kind + Digit(last) < Pow2(3) && Digit(last) == (if last then 1 else 0)
  {
    Pow3();
  }

  lemma Join2(s: seq<bool>, a: seq<bool>, b: seq<bool>)
    ensures s + a + b == s + (a + b)
  {
  }

  lemma Join3(s: seq<bool>, a: seq<bool>, b: seq<bool>, c: seq<bool>)
    ensures s + a + b + c == s + (a + b + c)
  {
  }

  lemma StoredFormIs(t: StaticTables, pad: nat, data: seq<Byte>, ts: seq<Token>, last: bool)
    requires pad < 8 && |data| <= 0xffff
    ensures FormOk(t, StoredForm(pad, data), ts)
    ensures FormBits(t, StoredForm(pad, data), ts, last) == LowBits(Digit(last), 3) + LowBits(0, pad) + StoredBits(data)
  {
    hide LowBits, StoredBits;
  }

  lemma FixedFormIs(t: StaticTables, ts: seq<Token>, last: bool)
    requires AllCodable(FixedCoder(t), ts)
    ensures FormOk(t, FixedForm, ts)
        && FormBits(t, FixedForm, ts, last) == LowBits(2 + Digit(last), 3) + BodyBits(FixedCoder(t), ts, 0)
  {
    hide LowBits, AllCodable, FixedCoder, BodyBits;
  }

  lemma DynamicFormIs(t: StaticTables, l: seq<int>, d: seq<int>, bll: seq<int>, n: nat, ts: seq<Token>, last: bool)
    requires TreesOk(l, d, bll, n) && AllCodable(DynamicCoder(t, l, d), ts)
    ensures FormOk(t, DynamicForm(l, d, bll, n), ts) && HeaderReady(l, d, bll, n)
    ensures FormBits(t, DynamicForm(l, d, bll, n), ts, last) ==
            LowBits(4 + Digit(last), 3) + HeaderBits(l, d, bll, n) + BodyBits(DynamicCoder(t, l, d), ts, 0)
  {
    hide LowBits, AllCodable, DynamicCoder, BodyBits, HeaderBits, HeaderReady, Complete;
  }

  lemma CoderIs(t: StaticTables, c: Coder, l: seq<int>, d: seq<int>)
    requires |l| >= 1 && |d| >= 1
    requires c == Coder(t.baseLength, t.lengthCode, t.baseDist, t.distCode, l[..|l| - 1], d[..|d| - 1])
    ensures c == DynamicCoder(t, l, d) && c.llens == l[..|l| - 1] && c.dlens == d[..|d| - 1]
  {
  }

  lemma TreeConstants()
    ensures L_CODES == 286 && D_CODES == 30 && LITERALS == 256 && Pow2(15) == 32768
  {
    Powers();
  }

  lemma TreeLengthRange(lens: seq<int>, freq: seq<int>)
    requires TreeCode(lens, freq, 15)
    ensures forall i :: 0 <= i < |lens| ==> 0 <= lens[i] <= 15
  {
    hide Complete;
  }

  /** The two trees with their guards, and the coder of their lengths. */
  lemma BuiltTrees(t: StaticTables, l: seq<int>, d: seq<int>, bll: seq<int>, n: nat, ll: seq<int>, dd: seq<int>,
      lf: seq<int>, df: seq<int>, ts: seq<Token>)
    requires HeaderReady(l, d, bll, n) && 257 <= |ll| <= 286 && 2 <= |dd| <= 30 && |l| == |ll| + 1 && |d| == |dd| + 1
    requires l[..|ll|] == ll && d[..|dd|] == dd && ll[256] > 0 && TreeCode(ll, lf, 15) && TreeCode(dd, df, 15)
    requires AllCodable(Coder(t.baseLength, t.lengthCode, t.baseDist, t.distCode, ll, dd), ts)
    ensures TreesOk(l, d, bll, n) && AllCodable(DynamicCoder(t, l, d), ts)
  {
    hide HeaderReady, AllCodable, Complete;
    assert l[256] == ll[256];
  }

  /** _tr_init */
  method NewTreeState() returns (t: TreeState)
    ensures fresh(t) && t.Valid() && t.Cleared()
    ensures fresh(t.heap) && fresh(t.depth) && fresh(t.blCount) && fresh(t.lfc) && fresh(t.ldl) && fresh(t.dfc)
        && fresh(t.ddl) && fresh(t.bfc) && fresh(t.bdl)
    ensures fresh(t.slcode) && fresh(t.sdcode)
  {
    hide *;
    var bl, lc, bd, dc := StaticInit();
    var tables := StaticTables(bl[..], lc[..], bd[..], dc[..]);
    TablesAre(tables);
    var len, code := StaticLiterals();
    var code2 := StaticDistances();
    t := new TreeState(tables, code, code2);
    ApartOf(t);
    t.InitBlock();
  }

  lemma ApartOf(t: TreeState)
    requires t.Valid()
    ensures t.Apart()
  {
  }
}

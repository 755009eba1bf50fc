/** How many bits the body of a block takes: those of each symbol as often as it occurs. */
module BlockLength {
  import opened Bits
  import opened LsbBits
  import opened Lz77
  import opened LengthCodes
  import opened DeflateSymbols
  import opened DeflateBody
  import opened GenBitlen
  import opened TreeBuilding
  import opened BlockForms

  const LITERAL_CODES: nat := 286
  const DISTANCE_CODES: nat := 30

  ghost predicate AllValid(ts: seq<Token>) {
    forall k :: 0 <= k < |ts| ==> ValidToken(ts[k])
  }

  lemma SymbolRanges(t: StaticTables, x: Token)
    requires TablesOk(t) && ValidToken(x)
    ensures |t.lengthCode| == 256 && |t.distCode| == 512
    ensures x.Match? ==> 257 <= t.lengthCode[x.length - 3] + 257 < 286 && 0 <= DCode(t.distCode, x.dist - 1) < 30
  {
    hide LStart, DStart, Pow2, DCode;
    if x.Match? {
      LCodeRight(t.baseLength, t.lengthCode, x.length - 3);
      DCodeRight(t.baseDist, t.distCode, x.dist - 1);
    }
  }

  /** The symbol of the first tree that a token needs. */
  ghost function LiteralSymbol(t: StaticTables, x: Token): (s: nat)
    requires TablesOk(t) && ValidToken(x)
    ensures s < LITERAL_CODES
  {
    SymbolRanges(t, x);
    match x case Literal(b) => b case Match(length, _) => t.lengthCode[length - 3] + 257
  }

  /** The symbol of the second tree that a match needs. */
  ghost function MatchSymbol(t: StaticTables, x: Token): (s: nat)
    requires TablesOk(t) && ValidToken(x) && x.Match?
    ensures s < DISTANCE_CODES
  {
    SymbolRanges(t, x);
    DCode(t.distCode, x.dist - 1)
  }

  /** How often each symbol of the first tree occurs; the end of the block occurs once. */
  ghost function LiteralCounts(t: StaticTables, ts: seq<Token>): (f: seq<int>)
    requires TablesOk(t) && AllValid(ts)
    ensures |f| == LITERAL_CODES
  {
    if ts == [] then seq(LITERAL_CODES, s => if s == END_BLOCK then 1 else 0)
    else
      var x, f := ts[|ts| - 1], LiteralCounts(t, ts[..|ts| - 1]);
      f[LiteralSymbol(t, x) := f[LiteralSymbol(t, x)] + 1]
  }

  /** How often each symbol of the second tree occurs. */
  ghost function DistanceCounts(t: StaticTables, ts: seq<Token>): (f: seq<int>)
    requires TablesOk(t) && AllValid(ts)
    ensures |f| == DISTANCE_CODES
  {
    if ts == [] then seq(DISTANCE_CODES, s => 0)
    else
      var x, f := ts[|ts| - 1], DistanceCounts(t, ts[..|ts| - 1]);
      if x.Match? then f[MatchSymbol(t, x) := f[MatchSymbol(t, x)] + 1] else f
  }

  /** Symbols are counted, not uncounted. */
  lemma {:induction false} CountsPositive(t: StaticTables, ts: seq<Token>, k: nat)
    requires TablesOk(t) && AllValid(ts)
    ensures LiteralCounts(t, ts)[END_BLOCK] >= 1
    ensures (forall s :: 0 <= s < LITERAL_CODES ==> LiteralCounts(t, ts)[s] >= 0)
        && forall s :: 0 <= s < DISTANCE_CODES ==> DistanceCounts(t, ts)[s] >= 0
    ensures k < |ts| ==>
      ValidToken(ts[k]) && LiteralCounts(t, ts)[LiteralSymbol(t, ts[k])] > 0
      && (ts[k].Match? ==> DistanceCounts(t, ts)[MatchSymbol(t, ts[k])] > 0)
    decreases |ts|
  {
    hide TablesOk, LiteralSymbol, MatchSymbol, ValidToken;
    if ts != [] { CountsPositive(t, ts[..|ts| - 1], k); }
  }

  // ---- what the symbols cost ----

  /** Lengths for all symbols, of which a coder uses the first. */
  ghost predicate LengthsOf(c: Coder, t: StaticTables, ll: seq<int>, dd: seq<int>) {
    && c.baseLength == t.baseLength && c.lengthCode == t.lengthCode && c.baseDist == t.baseDist
    && c.distCode == t.distCode && |ll| >= LITERAL_CODES && |dd| >= DISTANCE_CODES
    && (forall s :: 0 <= s < |ll| && s < |c.llens| ==> ll[s] == c.llens[s])
    && forall s :: 0 <= s < |dd| && s < |c.dlens| ==> dd[s] == c.dlens[s]
  }

  /** What the tokens and the end of the block take, symbol by symbol. */
  ghost function BodyCost(t: StaticTables, ts: seq<Token>, ll: seq<int>, dd: seq<int>): int
    requires TablesOk(t) && AllValid(ts) && |ll| >= LITERAL_CODES && |dd| >= DISTANCE_CODES
  {
    SymbolCost(LiteralCounts(t, ts), ll, EXTRA_LBITS, LITERALS + 1, LITERAL_CODES)
    + SymbolCost(DistanceCounts(t, ts), dd, EXTRA_DBITS, 0, DISTANCE_CODES)
  }

  lemma LiteralExtra(s: int)
    requires 0 <= s < LITERAL_CODES
    ensures Extra(EXTRA_LBITS, LITERALS + 1, s) == if s < 257 then 0 else LExtra(s - 257)
  {
  }

  lemma DistanceExtra(s: int)
    requires 0 <= s < DISTANCE_CODES
    ensures Extra(EXTRA_DBITS, 0, s) == DExtra(s)
  {
  }

  /** The bits of a token are those of its symbols. */
  lemma TokenLength(c: Coder, t: StaticTables, x: Token, ll: seq<int>, dd: seq<int>)
    requires Codable(c, x) && LengthsOf(c, t, ll, dd) && TablesOk(t)
    ensures |TokenBits(c, x)| ==
            ll[LiteralSymbol(t, x)] + Extra(EXTRA_LBITS, LITERALS + 1, LiteralSymbol(t, x))
            + if x.Match? then dd[MatchSymbol(t, x)] + Extra(EXTRA_DBITS, 0, MatchSymbol(t, x)) else 0
  {
    hide LengthTables, DistanceTables, Extra, LExtra, DExtra, DCode, LowBits, Pow2, LStart, DStart;
    SymbolRanges(t, x);
    LiteralExtra(LiteralSymbol(t, x));
    if x.Match? {
      DistanceExtra(MatchSymbol(t, x));
      LExtraSmall(t.lengthCode[x.length - 3]);
      LCodeRight(c.baseLength, c.lengthCode, x.length - 3);
      DCodeRight(c.baseDist, c.distCode, x.dist - 1);
    }
  }

  lemma BodyCostMore(t: StaticTables, ts: seq<Token>, x: Token, ll: seq<int>, dd: seq<int>)
    requires TablesOk(t) && AllValid(ts) && ValidToken(x) && |ll| >= LITERAL_CODES && |dd| >= DISTANCE_CODES
    ensures AllValid(ts + [x])
    ensures BodyCost(t, ts + [x], ll, dd) == BodyCost(t, ts, ll, dd)
            + ll[LiteralSymbol(t, x)] + Extra(EXTRA_LBITS, LITERALS + 1, LiteralSymbol(t, x))
            + if x.Match? then dd[MatchSymbol(t, x)] + Extra(EXTRA_DBITS, 0, MatchSymbol(t, x)) else 0
  {
    hide TablesOk, SymbolCost, Extra, ValidToken, LiteralSymbol, MatchSymbol;
    assert (ts + [x])[..|ts + [x]| - 1] == ts;
    CostMore(LiteralCounts(t, ts), ll, EXTRA_LBITS, LITERALS + 1, LITERAL_CODES, LiteralSymbol(t, x));
    if x.Match? { CostMore(DistanceCounts(t, ts), dd, EXTRA_DBITS, 0, DISTANCE_CODES, MatchSymbol(t, x)); }
  }

  lemma NoTokens(t: StaticTables, ll: seq<int>, dd: seq<int>)
    requires TablesOk(t) && |ll| >= LITERAL_CODES && |dd| >= DISTANCE_CODES
    ensures BodyCost(t, [], ll, dd) == ll[END_BLOCK]
  {
    hide TablesOk, SymbolCost, Extra;
    var none := seq(LITERAL_CODES, s => 0);
    NoCost(none, ll, EXTRA_LBITS, LITERALS + 1, LITERAL_CODES);
    NoCost(DistanceCounts(t, []), dd, EXTRA_DBITS, 0, DISTANCE_CODES);
    CostMore(none, ll, EXTRA_LBITS, LITERALS + 1, LITERAL_CODES, END_BLOCK);
    assert LiteralCounts(t, []) == none[END_BLOCK := none[END_BLOCK] + 1];
    LiteralExtra(END_BLOCK);
  }

  /** The bits of the body from a token on, with what stands before. */
  lemma {:induction false} BodyFrom(c: Coder, t: StaticTables, ts: seq<Token>, ll: seq<int>, dd: seq<int>, k: nat)
    requires AllCodable(c, ts) && LengthsOf(c, t, ll, dd) && TablesOk(t) && AllValid(ts) && k <= |ts|
        && AllValid(ts[..k])
    ensures |BodyBits(c, ts, k)| + BodyCost(t, ts[..k], ll, dd) == BodyCost(t, ts, ll, dd) + ll[END_BLOCK]
    decreases |ts| - k
  {
    hide BodyCost, TokenBits, ValidToken, Codable, TablesOk, Extra, CodeBits, ValidCoder;
    if k == |ts| {
      assert ts[..k] == ts;
    } else {
      assert ts[..k + 1] == ts[..k] + [ts[k]];
      BodyCostMore(t, ts[..k], ts[k], ll, dd);
      BodyFrom(c, t, ts, ll, dd, k + 1);
      TokenLength(c, t, ts[k], ll, dd);
    }
  }

  /** The bits of the body are those that the symbols take. */
  lemma {:induction false} BodyLength(c: Coder, t: StaticTables, ts: seq<Token>, ll: seq<int>, dd: seq<int>)
    requires AllCodable(c, ts) && LengthsOf(c, t, ll, dd) && TablesOk(t) && AllValid(ts)
    ensures |BodyBits(c, ts, 0)| == BodyCost(t, ts, ll, dd)
  {
    hide *;
    NoneValid();
    assert ts[..0] == [];
    BodyFrom(c, t, ts, ll, dd, 0);
    LongEnough(c, t, ll, dd);
    NoTokens(t, ll, dd);
  }

  lemma NoneValid()
    ensures AllValid([])
  {
  }

  lemma LongEnough(c: Coder, t: StaticTables, ll: seq<int>, dd: seq<int>)
    requires LengthsOf(c, t, ll, dd)
    ensures |ll| >= LITERAL_CODES && |dd| >= DISTANCE_CODES
  {
  }
}

/** The body of a block: compress_block of trees.c, and that inflate turns it back into the text. */
module DeflateBody {
  import opened Bytes
  import opened Bits
  import opened LsbBits
  import opened Lz77
  import opened DeflateBits
  import opened DeflateCodes
  import opened DecodingTable
  import opened InflateTable
  import opened LengthCodes
  import opened DeflateSymbols
  import opened TableLookup
  import opened SymbolReading
  import opened InflateItems
  import opened InflateWindow
  import opened InflateCopy
  import opened InflateBlock

  const LITERALS: int := 256
  const END_BLOCK: int := 256

  /** The static tables and the two trees. */
  datatype Coder = Coder(baseLength: seq<int>, lengthCode: seq<int>, baseDist: seq<int>, distCode: seq<int>,
      llens: seq<int>, dlens: seq<int>)

  ghost predicate ValidCoder(c: Coder) {
    && LengthTables(c.baseLength, c.lengthCode) && DistanceTables(c.baseDist, c.distCode)
    && CodeLens(c.llens) && NotOver(c.llens) && CodeLens(c.dlens) && NotOver(c.dlens)
    && |c.llens| <= 288 && |c.dlens| <= 32
  }

  function LengthSymbol(c: Coder, length: int): int
    requires |c.lengthCode| == 256 && 3 <= length <= 258
  {
    c.lengthCode[length - 3] + LITERALS + 1
  }

  function DistanceSymbol(c: Coder, dist: int): int
    requires |c.distCode| == 512 && 1 <= dist <= 32768
  {
    DCode(c.distCode, dist - 1)
  }

  /** The trees have codes for what the token needs. */
  ghost predicate Codable(c: Coder, t: Token) {
    && ValidCoder(c) && ValidToken(t)
    && match t
       case Literal(b) => Used(c.llens, b)
       case Match(length, dist) => Used(c.llens, LengthSymbol(c, length)) && Used(c.dlens, DistanceSymbol(c, dist))
  }

  ghost predicate AllCodable(c: Coder, ts: seq<Token>) {
    ValidCoder(c) && Used(c.llens, END_BLOCK) && forall k :: 0 <= k < |ts| ==> Codable(c, ts[k])
  }

  /** Extra bits of a length: none for the code of 258. */
  ghost function LengthExtraBits(c: Coder, length: int): seq<bool>
    requires ValidCoder(c) && 3 <= length <= 258
  {
    LCodeRight(c.baseLength, c.lengthCode, length - 3);
    var code := c.lengthCode[length - 3];
    if code == 28 then [] else LowBits(length - 3 - c.baseLength[code], LExtra(code))
  }

  ghost function DistanceExtraBits(c: Coder, dist: int): seq<bool>
    requires ValidCoder(c) && 1 <= dist <= 32768
  {
    DCodeRight(c.baseDist, c.distCode, dist - 1);
    var code := DCode(c.distCode, dist - 1);
    LowBits(dist - 1 - c.baseDist[code], DExtra(code))
  }

  /** The bits of one token. */
  ghost function TokenBits(c: Coder, t: Token): seq<bool>
    requires Codable(c, t)
  {
    match t
    case Literal(b) => CodeBits(c.llens, b)
    case Match(length, dist) =>
      CodeBits(c.llens, LengthSymbol(c, length))
      + (LengthExtraBits(c, length) + (CodeBits(c.dlens, DistanceSymbol(c, dist)) + DistanceExtraBits(c, dist)))
  }

  /** The bits of the tokens from k on and of the end of the block. */
  ghost function BodyBits(c: Coder, ts: seq<Token>, k: nat): seq<bool>
    requires AllCodable(c, ts) && k <= |ts|
    decreases |ts| - k
  {
    if k == |ts| then CodeBits(c.llens, END_BLOCK) else TokenBits(c, ts[k]) + BodyBits(c, ts, k + 1)
  }

  // ---- sending ----

  /** The extra bits of a length; 258 has none. */
  method SendLengthExtra(sink: BitSink, c: Coder, length: int)
    requires sink.Valid() && ValidCoder(c) && 3 <= length <= 258
    modifies sink
    ensures sink.Valid() && sink.Sent() == old(sink.Sent()) + LengthExtraBits(c, length)
  {
    hide LowBits, Pow2, NotOver, LExtra, LengthTables, DistanceTables, DCode, BitSink.Valid, BitSink.Sent;
    var lc := length - 3;
    LCodeRight(c.baseLength, c.lengthCode, lc);
    CoderSizes(c);
    var code := c.lengthCode[lc];
    LExtraSmall(code);
    var extra := LExtra(code);
    assert sink.Sent() + [] == sink.Sent();
    if extra != 0 {
      sink.SendBits(lc - c.baseLength[code], extra);
    } else if code != 28 {
      NoPad();
      NoExtra(lc - c.baseLength[code]);
    }
  }

  lemma NoExtra(v: int)
    ensures v >= 0 ==> LowBits(v, 0) == []
  {
  }

  lemma LExtraSmall(c: nat)
    requires c < 29
    ensures LExtra(c) <= 5 && (c == 28 ==> LExtra(c) == 0)
  {
  }

  lemma DExtraSmall(c: nat)
    requires c < 30
    ensures DExtra(c) <= 13
  {
  }

  lemma CoderSizes(c: Coder)
    requires ValidCoder(c)
    ensures |c.baseLength| == 29 && |c.lengthCode| == 256 && |c.baseDist| == 30 && |c.distCode| == 512
  {
    hide NotOver, LStart, DStart;
  }

  method SendDistanceExtra(sink: BitSink, c: Coder, dist: int)
    requires sink.Valid() && ValidCoder(c) && 1 <= dist <= 32768
    modifies sink
    ensures sink.Valid() && sink.Sent() == old(sink.Sent()) + DistanceExtraBits(c, dist)
  {
    hide LowBits, Pow2, NotOver, DExtra, LengthTables, DistanceTables, DCode, BitSink.Valid, BitSink.Sent;
    DCodeRight(c.baseDist, c.distCode, dist - 1);
    CoderSizes(c);
    var code := DCode(c.distCode, dist - 1);
    DExtraSmall(code);
    var extra := DExtra(code);
    assert sink.Sent() + [] == sink.Sent();
    if extra != 0 {
      sink.SendBits(dist - 1 - c.baseDist[code], extra);
    } else {
      NoExtra(dist - 1 - c.baseDist[code]);
    }
  }

  /** The codes of the two trees are the canonical ones, as far as symbols can occur. */
  ghost predicate CodesReady(c: Coder, lcode: seq<int>, dcode: seq<int>) {
    CodesUpTo(c.llens, lcode, 286) && CodesUpTo(c.dlens, dcode, 30)
  }

  ghost predicate CodesUpTo(lens: seq<int>, code: seq<int>, n: int) {
    forall s :: Used(lens, s) && s < n ==> s < |code| && code[s] == Huff(lens, s)
  }

  lemma CodeUpTo(lens: seq<int>, code: seq<int>, n: int, s: int)
    requires CodesUpTo(lens, code, n) && Used(lens, s) && s < n
    ensures 0 <= s < |lens| && s < |code| && lens[s] >= 0 && code[s] == Huff(lens, s)
  {
    hide Huff;
  }

  lemma {:induction false} LiteralParts(c: Coder, b: Byte, lcode: seq<int>, dcode: seq<int>)
    requires Codable(c, Literal(b)) && CodesReady(c, lcode, dcode)
    ensures CodeLens(c.llens) && NotOver(c.llens) && Used(c.llens, b) && 0 <= b < |c.llens| && b < |lcode|
        && lcode[b] == Huff(c.llens, b)
    ensures TokenBits(c, Literal(b)) == CodeBits(c.llens, b)
  {
    hide Huff, NotOver, CodeBits, LengthTables, DistanceTables, CodesUpTo;
    CodeUpTo(c.llens, lcode, 286, b);
  }

  lemma {:induction false} MatchParts(c: Coder, length: int, dist: int, lcode: seq<int>, dcode: seq<int>)
    returns (ls: int, ds: int)
    requires Codable(c, Match(length, dist)) && CodesReady(c, lcode, dcode)
    ensures ValidCoder(c) && 3 <= length <= 258 && 1 <= dist <= 32768
    ensures |c.lengthCode| == 256 && |c.distCode| == 512 && ls == LengthSymbol(c, length)
        && ds == DistanceSymbol(c, dist)
    ensures CodeLens(c.llens) && NotOver(c.llens) && Used(c.llens, ls) && 0 <= ls < |c.llens| && ls < |lcode|
        && lcode[ls] == Huff(c.llens, ls)
    ensures CodeLens(c.dlens) && NotOver(c.dlens) && Used(c.dlens, ds) && 0 <= ds < |c.dlens| && ds < |dcode|
        && dcode[ds] == Huff(c.dlens, ds)
    ensures c.llens[ls] >= 0 && c.dlens[ds] >= 0
    ensures TokenBits(c, Match(length, dist)) ==
            CodeBits(c.llens, ls) + (LengthExtraBits(c, length) + (CodeBits(c.dlens, ds) + DistanceExtraBits(c, dist)))
  {
    hide Huff, NotOver, CodeBits, LengthExtraBits, DistanceExtraBits, LengthTables, DistanceTables, DCode;
    hide CodesUpTo;
    CoderSizes(c);
    ls, ds := LengthSymbol(c, length), DistanceSymbol(c, dist);
    LCodeRight(c.baseLength, c.lengthCode, length - 3);
    DCodeRight(c.baseDist, c.distCode, dist - 1);
    CodeUpTo(c.llens, lcode, 286, ls);
    CodeUpTo(c.dlens, dcode, 30, ds);
  }

  method SendMatch(sink: BitSink, c: Coder, lcode: array<int>, dcode: array<int>, length: int, dist: int)
    requires sink.Valid() && Codable(c, Match(length, dist)) && CodesReady(c, lcode[..], dcode[..])
    modifies sink
    ensures sink.Valid() && sink.Sent() == old(sink.Sent()) + TokenBits(c, Match(length, dist))
  {
    hide *;
    ghost var w := sink.Sent();
    ghost var ls, ds := MatchParts(c, length, dist, lcode[..], dcode[..]);
    SendCode(sink, lcode, c.llens, LengthSymbol(c, length));
    SendLengthExtra(sink, c, length);
    SendCode(sink, dcode, c.dlens, DistanceSymbol(c, dist));
    SendDistanceExtra(sink, c, dist);
    ghost var p, q := CodeBits(c.llens, ls), LengthExtraBits(c, length);
    ghost var r, s := CodeBits(c.dlens, ds), DistanceExtraBits(c, dist);
    assert w + p + q + r + s == w + (p + (q + (r + s)));
  }

  method SendToken(sink: BitSink, c: Coder, lcode: array<int>, dcode: array<int>, t: Token)
    requires sink.Valid() && Codable(c, t) && CodesReady(c, lcode[..], dcode[..])
    modifies sink
    ensures sink.Valid() && sink.Sent() == old(sink.Sent()) + TokenBits(c, t)
  {
    hide *;
    match t {
      case Literal(b) =>
        LiteralParts(c, b, lcode[..], dcode[..]);
        SendCode(sink, lcode, c.llens, b);
      case Match(length, dist) =>
        SendMatch(sink, c, lcode, dcode, length, dist);
    }
  }

  /** compress_block */
  method CompressBlock(sink: BitSink, c: Coder, lcode: array<int>, dcode: array<int>, ts: seq<Token>)
    requires sink.Valid() && AllCodable(c, ts) && CodesReady(c, lcode[..], dcode[..])
    modifies sink
    ensures sink.Valid() && sink.Sent() == old(sink.Sent()) + BodyBits(c, ts, 0)
  {
    hide *;
    ghost var w, lc, dc := sink.Sent(), lcode[..], dcode[..];
    for lx := 0 to |ts|
      invariant sink.Valid() && sink.Sent() + BodyBits(c, ts, lx) == w + BodyBits(c, ts, 0)
    {
      assert lcode[..] == lc && dcode[..] == dc;
      TokenAt(c, ts, lx);
      ghost var sent := sink.Sent();
      SendToken(sink, c, lcode, dcode, ts[lx]);
      assert sent + (TokenBits(c, ts[lx]) + BodyBits(c, ts, lx + 1)) == sent + TokenBits(c, ts[lx])
          + BodyBits(c, ts, lx + 1);
    }
    assert lcode[..] == lc && dcode[..] == dc;
    BodyEnd(c, ts, lc, dc);
    SendCode(sink, lcode, c.llens, END_BLOCK);
  }

  lemma TokenAt(c: Coder, ts: seq<Token>, k: nat)
    requires AllCodable(c, ts) && k < |ts|
    ensures Codable(c, ts[k]) && BodyBits(c, ts, k) == TokenBits(c, ts[k]) + BodyBits(c, ts, k + 1)
  {
    hide Codable, ValidCoder, TokenBits;
  }

  lemma BodyEnd(c: Coder, ts: seq<Token>, lcode: seq<int>, dcode: seq<int>)
    requires AllCodable(c, ts) && CodesReady(c, lcode, dcode)
    ensures END_BLOCK == 256 && CodeLens(c.llens) && NotOver(c.llens) && Used(c.llens, END_BLOCK)
    ensures END_BLOCK < |c.llens| && END_BLOCK < |lcode| && lcode[END_BLOCK] == Huff(c.llens, END_BLOCK)
        && c.llens[END_BLOCK] >= 0
    ensures BodyBits(c, ts, |ts|) == CodeBits(c.llens, END_BLOCK)
  {
    hide Codable, NotOver, LengthTables, DistanceTables, Huff, CodeBits, CodesUpTo;
    CodeUpTo(c.llens, lcode, 286, END_BLOCK);
  }

  // ---- receiving ----

  /** What the decoder has built: tables for both codes of the coder. */
  ghost predicate TablesFor(c: Coder, t: Tables) {
    && ValidCoder(c) && Accepted(c.llens) && Accepted(c.dlens)
    && ValidView(View(LENS, c.llens, t.lroot)) && Finished(View(LENS, c.llens, t.lroot), t.lens)
    && ValidView(View(DISTS, c.dlens, t.droot)) && Finished(View(DISTS, c.dlens, t.droot), t.dists)
  }

  lemma TablesAreGood(c: Coder, t: Tables)
    requires TablesFor(c, t)
    ensures Good(t)
  {
    hide NotOver, Finished, Accepted, LengthTables, DistanceTables;
    assert Built(View(LENS, c.llens, t.lroot), t.lens);
    assert Built(View(DISTS, c.dlens, t.droot), t.dists);
  }

  /** The entry for each kind of literal/length symbol. */
  lemma LiteralEntry(b: int)
    requires 0 <= b < 256
    ensures SymEntry(LENS, b, 0).op == 0 && SymEntry(LENS, b, 0).val == b
  {
  }

  lemma EndEntry()
    ensures SymEntry(LENS, END_BLOCK, 0).op == 96
  {
  }

  lemma {:induction false} LengthEntry(c: Coder, length: int)
    requires ValidCoder(c) && 3 <= length <= 258
    ensures |c.lengthCode| == 256 && 257 <= LengthSymbol(c, length) < 286 && |c.baseLength| == 29
    ensures var code, e := LengthSymbol(c, length) - 257, SymEntry(LENS, LengthSymbol(c, length), 0);
      e.op == 16 + LExtra(code) && (if code == 28 then e.val == length else e.val == c.baseLength[code] + 3)
  {
    hide *;
    LengthSymbolIs(c, length);
    var code := c.lengthCode[length - 3];
    if code < 28 {
      BaseIs(c, code);
      ShortEntry(code);
    } else {
      LastEntry();
    }
  }

  lemma LengthSymbolIs(c: Coder, length: int)
    requires ValidCoder(c) && 3 <= length <= 258
    ensures |c.lengthCode| == 256 && |c.baseLength| == 29
    ensures var code := c.lengthCode[length - 3];
      0 <= code < 29 && LengthSymbol(c, length) == 257 + code && (code == 28 ==> length == 258)
  {
    hide NotOver, CodeLens, DistanceTables;
    LCodeRight(c.baseLength, c.lengthCode, length - 3);
  }

  lemma ShortEntry(code: nat)
    requires code < 28
    ensures var e := SymEntry(LENS, 257 + code, 0); e.op == 16 + LExtra(code) && e.val == LStart(code) + 3
  {
    hide LStart, LExtra;
    LengthsAgree(code);
  }

  lemma LastEntry()
    ensures var e := SymEntry(LENS, 285, 0); e.op == 16 + LExtra(28) && e.val == 258
  {
    LastLength();
  }

  lemma BaseIs(c: Coder, code: nat)
    requires ValidCoder(c) && code < 28
    ensures |c.baseLength| == 29 && c.baseLength[code] == LStart(code)
  {
    hide NotOver, DistanceTables, LStart;
  }

  lemma LastLength()
    ensures LBASE[28] == 258 && LEXT[28] == 16 && LExtra(28) == 0
  {
  }

  lemma {:induction false} DistanceEntry(c: Coder, dist: int)
    requires ValidCoder(c) && 1 <= dist <= 32768
    ensures |c.distCode| == 512 && 0 <= DistanceSymbol(c, dist) < 30 && |c.baseDist| == 30
    ensures var code, e := DistanceSymbol(c, dist), SymEntry(DISTS, DistanceSymbol(c, dist), 0);
      e.op == 16 + DExtra(code) && e.val == c.baseDist[code] + 1
  {
    hide NotOver, LengthTables, DCode;
    DCodeRight(c.baseDist, c.distCode, dist - 1);
    var code := DCode(c.distCode, dist - 1);
    DistancesAgree(code);
    DBaseIs(c, code);
  }

  lemma DBaseIs(c: Coder, code: nat)
    requires ValidCoder(c) && code < 30
    ensures |c.baseDist| == 30 && c.baseDist[code] == DStart(code)
  {
    hide NotOver, LengthTables, DStart;
  }

  lemma {:induction false} FieldParts(v: nat, n: nat, rest: seq<bool>)
    requires v < Pow2(n)
    ensures |LowBits(v, n)| == n && (LowBits(v, n) + rest)[n..] == rest && LowVal((LowBits(v, n) + rest)[..n]) == v
    ensures n == 0 ==> v == 0 && LowBits(v, n) + rest == rest
  {
    ValOfLow(v, n);
    assert (LowBits(v, n) + rest)[..n] == LowBits(v, n);
  }

  lemma LengthExtraIs(c: Coder, length: int)
    requires ValidCoder(c) && 3 <= length <= 258
    ensures |c.lengthCode| == 256 && |c.baseLength| == 29 && 0 <= LengthSymbol(c, length) - 257 < 29
    ensures var code := LengthSymbol(c, length) - 257; var v := if code == 28 then 0
        else length - 3 - c.baseLength[code];
      0 <= v < Pow2(LExtra(code)) && LengthExtraBits(c, length) == LowBits(v, LExtra(code))
  {
    hide NotOver, DistanceTables, LengthTables, LowBits, Pow2, LExtra;
    CoderSizes(c);
    LCodeRight(c.baseLength, c.lengthCode, length - 3);
    LExtraSmall(LengthSymbol(c, length) - 257);
    NoExtra(0);
    PowAtLeastOne(LExtra(LengthSymbol(c, length) - 257));
  }

  lemma DistanceExtraIs(c: Coder, dist: int)
    requires ValidCoder(c) && 1 <= dist <= 32768
    ensures |c.distCode| == 512 && |c.baseDist| == 30 && 0 <= DistanceSymbol(c, dist) < 30
    ensures var code := DistanceSymbol(c, dist); var v := dist - 1 - c.baseDist[code];
      0 <= v < Pow2(DExtra(code)) && DistanceExtraBits(c, dist) == LowBits(v, DExtra(code))
  {
    hide NotOver, DistanceTables, LengthTables, LowBits, Pow2, DExtra, DCode;
    CoderSizes(c);
    DCodeRight(c.baseDist, c.distCode, dist - 1);
  }

  /** The symbol comes next in the stream. */
  ghost predicate Comes(e: Entry, kind: Kind, s: int, bits: int) {
    0 <= s < Symbols(kind) && e.bits == bits > 0 && e.op == SymEntry(kind, s, 0).op && e.val == SymEntry(kind, s, 0).val
  }

  /** The codes of a coder are read as its symbols. */
  lemma {:induction false} CoderReads(c: Coder, t: Tables, s: int, rest: seq<bool>)
    requires TablesFor(c, t)
    ensures Used(c.llens, s) ==> 0 <= s < |c.llens| && 0 < c.llens[s] == |CodeBits(c.llens, s)| && s < Symbols(LENS)
    ensures Used(c.llens, s) ==> Comes(Upcoming(t.lens, t.lroot, CodeBits(c.llens, s) + rest), LENS, s, c.llens[s])
    ensures Used(c.dlens, s) ==> 0 <= s < |c.dlens| && 0 < c.dlens[s] == |CodeBits(c.dlens, s)| && s < Symbols(DISTS)
    ensures Used(c.dlens, s) ==> Comes(Upcoming(t.dists, t.droot, CodeBits(c.dlens, s) + rest), DISTS, s, c.dlens[s])
  {
    hide Huff, Finished, NotOver, CodeBits, Accepted, LengthTables, DistanceTables, Upcoming, SymEntry;
    if Used(c.llens, s) {
      CodeIsRead(View(LENS, c.llens, t.lroot), t.lens, s, rest);
      SymbolParts(LENS, s, c.llens[s]);
    }
    if Used(c.dlens, s) {
      CodeIsRead(View(DISTS, c.dlens, t.droot), t.dists, s, rest);
      SymbolParts(DISTS, s, c.dlens[s]);
    }
  }

  lemma ComesParts(e: Entry, kind: Kind, s: int, bits: int)
    requires Comes(e, kind, s, bits)
    ensures 0 <= s < Symbols(kind) && e.bits == bits > 0 && e.op == SymEntry(kind, s, 0).op
        && e.val == SymEntry(kind, s, 0).val
  {
  }

  lemma CodeThenRest(code: seq<bool>, rest: seq<bool>)
    ensures (code + rest)[|code|..] == rest
  {
  }

  /** The distance of a match. */
  lemma {:induction false} DistanceRead(c: Coder, t: Tables, length: int, dist: int, rest: seq<bool>)
    requires TablesFor(c, t) && 1 <= dist <= 32768 && ValidCoder(c) && |c.distCode| == 512
        && Used(c.dlens, DistanceSymbol(c, dist))
    ensures c.dlens[DistanceSymbol(c, dist)] >= 0
    ensures ReadDistance(t, length,
        CodeBits(c.dlens, DistanceSymbol(c, dist)) + (DistanceExtraBits(c, dist) + rest)) ==
        Reading(Got(Match(length, dist)), rest)
  {
    hide *;
    var s := DistanceSymbol(c, dist);
    var after := DistanceExtraBits(c, dist) + rest;
    CoderReads(c, t, s, after);
    DistanceEntry(c, dist);
    DistanceExtraIs(c, dist);
    DExtraSmall(s);
    ComesParts(Upcoming(t.dists, t.droot, CodeBits(c.dlens, s) + after), DISTS, s, c.dlens[s]);
    CodeThenRest(CodeBits(c.dlens, s), after);
    FieldParts(dist - 1 - c.baseDist[s], DExtra(s), rest);
    DistanceCases(t, length, CodeBits(c.dlens, s) + after);
  }

  /** The length of a match. */
  lemma {:induction false} LengthRead(c: Coder, t: Tables, length: int, more: seq<bool>)
    requires TablesFor(c, t) && ValidCoder(c) && 3 <= length <= 258 && |c.lengthCode| == 256
        && Used(c.llens, LengthSymbol(c, length))
    ensures c.llens[LengthSymbol(c, length)] >= 0
    ensures ReadItem(t, CodeBits(c.llens, LengthSymbol(c, length)) + (LengthExtraBits(c, length) + more)) ==
        ReadDistance(t, length, more)
  {
    hide *;
    var s := LengthSymbol(c, length);
    var code := s - 257;
    LengthEntry(c, length);
    LengthExtraIs(c, length);
    LExtraSmall(code);
    var v := if code == 28 then 0 else length - 3 - c.baseLength[code];
    var after := LengthExtraBits(c, length) + more;
    CoderReads(c, t, s, after);
    ComesParts(Upcoming(t.lens, t.lroot, CodeBits(c.llens, s) + after), LENS, s, c.llens[s]);
    LengthOp(LExtra(code));
    CodeThenRest(CodeBits(c.llens, s), after);
    FieldParts(v, LExtra(code), more);
    ItemCases(t, CodeBits(c.llens, s) + after);
  }

  lemma LengthOp(extra: nat)
    requires extra <= 5
    ensures (16 + extra) / 32 % 2 == 0 && (16 + extra) / 64 % 2 == 0 && (16 + extra) % 16 == extra
  {
  }

  /** A match. */
  lemma {:induction false} MatchRead(c: Coder, t: Tables, length: int, dist: int, rest: seq<bool>)
    requires TablesFor(c, t) && Codable(c, Match(length, dist))
    ensures ReadItem(t, TokenBits(c, Match(length, dist)) + rest) == Reading(Got(Match(length, dist)), rest)
  {
    hide *;
    CodableMatch(c, length, dist);
    var p, q := CodeBits(c.llens, LengthSymbol(c, length)), LengthExtraBits(c, length);
    var r, x := CodeBits(c.dlens, DistanceSymbol(c, dist)), DistanceExtraBits(c, dist);
    LengthRead(c, t, length, r + (x + rest));
    DistanceRead(c, t, length, dist, rest);
    RegroupMatch(p, q, r, x, rest);
  }

  lemma RegroupMatch(p: seq<bool>, q: seq<bool>, r: seq<bool>, x: seq<bool>, rest: seq<bool>)
    ensures p + (q + (r + x)) + rest == p + (q + (r + (x + rest)))
  {
  }

  lemma CodableMatch(c: Coder, length: int, dist: int)
    requires Codable(c, Match(length, dist))
    ensures ValidCoder(c) && 3 <= length <= 258 && 1 <= dist <= 32768 && |c.lengthCode| == 256 && |c.distCode| == 512
    ensures Used(c.llens, LengthSymbol(c, length)) && Used(c.dlens, DistanceSymbol(c, dist))
    ensures 0 <= LengthSymbol(c, length) < |c.llens| && c.llens[LengthSymbol(c, length)] >= 0
    ensures 0 <= DistanceSymbol(c, dist) < |c.dlens| && c.dlens[DistanceSymbol(c, dist)] >= 0
    ensures TokenBits(c, Match(length, dist)) == CodeBits(c.llens, LengthSymbol(c, length))
      + (LengthExtraBits(c, length) + (CodeBits(c.dlens, DistanceSymbol(c, dist)) + DistanceExtraBits(c, dist)))
  {
    hide NotOver, LengthTables, DistanceTables, DCode, LengthExtraBits, DistanceExtraBits, CodeBits;
    CoderSizes(c);
  }

  /** A literal. */
  lemma {:induction false} LiteralRead(c: Coder, t: Tables, x: Byte, rest: seq<bool>)
    requires TablesFor(c, t) && Codable(c, Literal(x))
    ensures ReadItem(t, TokenBits(c, Literal(x)) + rest) == Reading(Got(Literal(x)), rest)
  {
    hide *;
    CodableLiteral(c, x);
    CoderReads(c, t, x, rest);
    LiteralEntry(x);
    ComesParts(Upcoming(t.lens, t.lroot, CodeBits(c.llens, x) + rest), LENS, x, c.llens[x]);
    CodeThenRest(CodeBits(c.llens, x), rest);
    ItemCases(t, CodeBits(c.llens, x) + rest);
    ByteOf(x);
  }

  lemma CodableLiteral(c: Coder, x: Byte)
    requires Codable(c, Literal(x))
    ensures Used(c.llens, x) && x < |c.llens| && c.llens[x] >= 0 && TokenBits(c, Literal(x)) == CodeBits(c.llens, x)
  {
    hide NotOver, LengthTables, DistanceTables, CodeBits;
  }

  /** The end of the block. */
  lemma {:induction false} EndRead(c: Coder, t: Tables, ts: seq<Token>, rest: seq<bool>)
    requires TablesFor(c, t) && AllCodable(c, ts)
    ensures ReadItem(t, BodyBits(c, ts, |ts|) + rest) == Reading(EndOfBlock, rest)
  {
    hide *;
    BodyLast(c, ts);
    EndUsed(c, ts);
    CoderReads(c, t, END_BLOCK, rest);
    EndEntry();
    ComesParts(Upcoming(t.lens, t.lroot, CodeBits(c.llens, END_BLOCK) + rest), LENS, END_BLOCK, c.llens[END_BLOCK]);
    CodeThenRest(CodeBits(c.llens, END_BLOCK), rest);
    ItemCases(t, CodeBits(c.llens, END_BLOCK) + rest);
  }

  lemma EndUsed(c: Coder, ts: seq<Token>)
    requires AllCodable(c, ts)
    ensures END_BLOCK == 256 && Used(c.llens, END_BLOCK)
  {
  }

  lemma BodyLast(c: Coder, ts: seq<Token>)
    requires AllCodable(c, ts)
    ensures 0 <= END_BLOCK < |c.llens| && c.llens[END_BLOCK] >= 0
        && BodyBits(c, ts, |ts|) == CodeBits(c.llens, END_BLOCK)
  {
    hide Codable, NotOver, LengthTables, DistanceTables, CodeBits;
  }

  // ---- the whole body ----

  /** No match reaches further back than the window. */
  ghost predicate Near(ts: seq<Token>, size: nat) {
    forall k :: 0 <= k < |ts| ==> NearToken(ts[k], size)
  }

  ghost predicate NearToken(t: Token, size: nat) {
    t.Match? ==> t.dist <= size
  }

  /** The text of the first tokens begins the text of all. */
  lemma {:induction false} PrefixExpands(ts: seq<Token>, text: seq<Byte>, k: nat) returns (n: nat)
    requires ExpandsTo(ts, text) && k <= |ts|
    ensures n <= |text| && ExpandsTo(ts[..k], text[..n])
    decreases |ts| - k
  {
    if k == |ts| {
      n := |text|;
      assert ts[..k] == ts && text[..n] == text;
    } else {
      var m := PrefixExpands(ts, text, k + 1);
      var t := ts[..k + 1][k];
      assert ts[..k + 1][..k] == ts[..k];
      match t {
        case Literal(x) => n := m - 1; assert text[..m][..n] == text[..n];
        case Match(length, dist) => n := m - length; assert text[..m][..n] == text[..n];
      }
    }
  }

  /** One token more. */
  lemma {:induction false} NextExpands(ts: seq<Token>, text: seq<Byte>, k: nat, now: seq<Byte>)
    requires ExpandsTo(ts, text) && k < |ts| && ExpandsTo(ts[..k], now)
    ensures ts[k].Literal? ==> ExpandsTo(ts[..k + 1], now + [ts[k].b])
    ensures ts[k].Match? ==>
      0 < ts[k].length && 1 <= ts[k].dist <= |now| && ExpandsTo(ts[..k + 1], Copied(now, ts[k].dist, ts[k].length))
  {
    hide Copied;
    var m := PrefixExpands(ts, text, k + 1);
    var r := text[..m];
    assert ts[..k + 1][..k] == ts[..k] && ts[..k + 1][k] == ts[k];
    match ts[k] {
      case Literal(x) =>
        ExpansionUnique(ts[..k], now, r[..m - 1]);
        assert r == now + [x];
      case Match(length, dist) =>
        ExpansionUnique(ts[..k], now, r[..m - length]);
        assert now <= r;
        RepeatsIsCopied(now, dist, r);
    }
  }

  /** The bits of a body mean the text that its tokens, after those of the blocks before, stand
      for. */
  lemma {:induction false} BodyRuns(c: Coder, t: Tables, before: seq<Token>, ts: seq<Token>, k: nat, now: seq<Byte>,
      text: seq<Byte>, rest: seq<bool>, size: nat)
    requires TablesFor(c, t) && Good(t) && AllCodable(c, ts) && k <= |ts| && Near(ts, size)
    requires ExpandsTo(before + ts, text) && ExpandsTo(before + ts[..k], now)
    ensures var r := Run(t, BodyBits(c, ts, k) + rest, now);
      r.end == Ended && r.text == text && r.rest == rest && r.farthest <= size
    decreases |ts| - k
  {
    hide ExpandsTo, ReadItem, Copied, TablesFor, Good, TokenBits, BodyBits, Codable, Run;
    var b := BodyBits(c, ts, k) + rest;
    if k == |ts| {
      EndRead(c, t, ts, rest);
      EndRuns(t, b, now);
      assert ts[..k] == ts;
      ExpansionUnique(before + ts, now, text);
    } else {
      TokenAt(c, ts, k);
      var more := BodyBits(c, ts, k + 1) + rest;
      assert b == TokenBits(c, ts[k]) + more;
      assert (before + ts)[..|before| + k] == before + ts[..k]
          && (before + ts)[..|before| + k + 1] == before + ts[..k + 1];
      assert (before + ts)[|before| + k] == ts[k];
      NextExpands(before + ts, text, |before| + k, now);
      assert NearToken(ts[k], size);
      match ts[k] {
        case Literal(x) =>
          LiteralRead(c, t, x, more);
          BodyRuns(c, t, before, ts, k + 1, now + [x], text, rest, size);
          LiteralRuns(t, b, now, x);
        case Match(length, dist) =>
          MatchRead(c, t, length, dist, more);
          BodyRuns(c, t, before, ts, k + 1, Copied(now, dist, length), text, rest, size);
          MatchRuns(t, b, now, length, dist);
      }
    }
  }

  lemma {:induction false} EndRuns(t: Tables, b: seq<bool>, text: seq<Byte>)
    requires Good(t) && ReadItem(t, b).item == EndOfBlock
    ensures Run(t, b, text) == Result(Ended, text, ReadItem(t, b).rest, 0)
  {
    hide ReadItem, Good, Copied;
  }

  lemma {:induction false} LiteralRuns(t: Tables, b: seq<bool>, text: seq<Byte>, x: Byte)
    requires Good(t) && ReadItem(t, b).item == Got(Literal(x))
    ensures Run(t, b, text) == Run(t, ReadItem(t, b).rest, text + [x])
  {
    hide ReadItem, Good, Copied;
    ItemProgress(t, b);
  }

  lemma {:induction false} MatchRuns(t: Tables, b: seq<bool>, text: seq<Byte>, length: int, dist: int)
    requires Good(t) && ReadItem(t, b).item == Got(Match(length, dist)) && 1 <= dist <= |text| && length > 0
    ensures var r := Run(t, ReadItem(t, b).rest, Copied(text, dist, length));
      Run(t, b, text) == r.(farthest := if r.farthest > dist then r.farthest else dist)
  {
    hide ReadItem, Good, Copied;
    ItemProgress(t, b);
  }

  /** What compress_block sends, inflate turns back into the text: with input and output in
      pieces of any size, by the fast loop and the states in any mixture. */
  method ReceiveBody(source: BitSource, h: History, k0: Sink, t: Tables, ghost c: Coder, ghost before: seq<Token>,
      ghost ts: seq<Token>, ghost text: seq<Byte>, ghost rest: seq<bool>)
    returns (finish: Finish, k: Sink)
    requires source.Valid() && source.bits < 8 && h.Valid() && ValidSink(k0, h)
    requires TablesFor(c, t) && AllCodable(c, ts) && Near(ts, h.size)
    requires ExpandsTo(before, Output(h, k0)) && ExpandsTo(before + ts, text)
        && source.Coming() == BodyBits(c, ts, 0) + rest
    modifies source, h`wsize, h`wnext, h`whave, h`done, h.window, k0.out
    ensures source.Valid() && h.Valid() && ValidSink(k, h) && (k.out == k0.out || fresh(k.out))
    ensures finish == Reached(Ended) || finish == Stalled
    ensures finish == Reached(Ended) ==> Output(h, k) == text && source.Coming() == rest && source.bits < 8
    ensures finish == Stalled ==> Output(h, k) < text
  {
    hide ExpandsTo, ReadItem, Copied, TablesFor, Good, TokenBits, BodyBits, Codable, Run, Near, Continues,
        BitSource.Valid, BitSource.Coming, History.Valid, Text;
    TablesAreGood(c, t);
    assert before + ts[..0] == before;
    BodyRuns(c, t, before, ts, 0, Output(h, k0), text, rest, h.size);
    finish, k := InflateBody(source, h, k0, t);
  }
}

/** Symbols in the stream: gen_codes and send_code of trees.c, and that lookups in the tables of
    inflate_table give them back. */
module DeflateSymbols {
  import opened Bits
  import opened BitReversal
  import opened LsbBits
  import opened DeflateBits
  import opened Counting
  import opened DeflateCodes
  import opened DecodingTable
  import opened InflateTable
  import opened TableLookup
  import opened SymbolReading

  /** The code of a symbol as bits of the stream: its highest bit first. */
  function CodeBits(lens: seq<int>, s: int): (b: seq<bool>)
    requires 0 <= s < |lens| && lens[s] >= 0
    ensures |b| == lens[s]
  {
    ToBits(Code(lens, s), lens[s])
  }

  lemma {:induction false} HuffIsCode(lens: seq<int>, s: int)
    requires 0 <= s < |lens| && lens[s] >= 0
    ensures LowBits(Huff(lens, s), lens[s]) == CodeBits(lens, s) && LowVal(CodeBits(lens, s)) == Huff(lens, s)
    ensures Huff(lens, s) < Pow2(lens[s])
  {
    hide Code, Rev, LowBits, LowVal, ToBits, Pow2;
    var c, l := Code(lens, s), lens[s];
    ReversedCode(c, l);
    RevBound(c, l);
    ValOfLow(Huff(lens, s), l);
  }

  // ---- gen_codes ----

  /** The counts of the lengths, as gen_bitlen leaves them. */
  ghost predicate LevelCounts(lens: seq<int>, bl: seq<int>) {
    |bl| == 16 && bl[0] == 0 && forall l :: 1 <= l <= 15 ==> bl[l] == Count(lens, l)
  }

  method FirstCodes(blCount: array<int>, ghost lens: seq<int>) returns (nextCode: array<int>)
    requires LevelCounts(lens, blCount[..])
    ensures fresh(nextCode) && nextCode.Length == 16 && forall l :: 1 <= l <= 15 ==> nextCode[l] == First(lens, l)
  {
    hide Count;
    ghost var bl := blCount[..];
    nextCode := new int[16];
    var code := 0;
    for bits := 1 to 16
      invariant blCount[..] == bl && code == (if bits == 1 then 0 else First(lens, bits - 1))
      invariant forall l :: 1 <= l < bits ==> nextCode[l] == First(lens, l)
    {
      assert blCount[bits - 1] == bl[bits - 1];
      code := (code + blCount[bits - 1]) * 2;
      nextCode[bits] := code;
    }
  }

  /** An array of codes holds the reversed canonical ones of a set of lengths. */
  ghost predicate CodesFor(lens: seq<int>, code: seq<int>) {
    |lens| <= |code| && forall s :: Used(lens, s) ==> code[s] == Huff(lens, s)
  }

  /** gen_codes: the reversed canonical code of every symbol that occurs. */
  method GenCodes(lens: seq<int>, blCount: array<int>, code: array<int>)
    requires CodeLens(lens) && LevelCounts(lens, blCount[..]) && |lens| <= code.Length && code != blCount
    modifies code
    ensures CodesFor(lens, code[..])
  {
    hide Count, Rev, LevelCounts;
    var nextCode := FirstCodes(blCount, lens);
    NoneCounted(lens);
    for n := 0 to |lens|
      modifies code, nextCode
      invariant forall l :: 1 <= l <= 15 ==> nextCode[l] == First(lens, l) + Count(lens[..n], l)
      invariant forall s :: 0 <= s < n && Used(lens, s) ==> code[s] == Huff(lens, s)
    {
      var len := lens[n];
      CountSnoc(lens, n);
      if len == 0 { continue; }
      var res := BiReverse(nextCode[len], len);
      code[n] := res;
      nextCode[len] := nextCode[len] + 1;
    }
  }

  lemma NoneCounted(lens: seq<int>)
    ensures forall l :: Count(lens[..0], l) == 0
  {
  }

  lemma CountSnoc(lens: seq<int>, n: nat)
    requires n < |lens|
    ensures forall l :: Count(lens[..n + 1], l) == Count(lens[..n], l) + if lens[n] == l then 1 else 0
  {
    assert lens[..n + 1][..n] == lens[..n];
  }

  /** send_code */
  method SendCode(sink: BitSink, code: array<int>, lens: seq<int>, c: int)
    requires sink.Valid() && CodeLens(lens) && NotOver(lens) && Used(lens, c) && c < code.Length
        && code[c] == Huff(lens, c)
    modifies sink
    ensures sink.Valid() && sink.Sent() == old(sink.Sent()) + CodeBits(lens, c)
  {
    hide Huff, LowBits, Pow2, NotOver, CodeBits, BitSink.Valid, BitSink.Sent;
    HuffIsCode(lens, c);
    sink.SendBits(code[c], lens[c]);
  }

  // ---- decoding ----

  /** A lookup in the table built for the code finds the symbol whose code comes next. */
  lemma {:induction false} CodeIsRead(v: View, t: seq<Entry>, s: int, rest: seq<bool>)
    requires ValidView(v) && Finished(v, t) && Used(v.lens, s)
    ensures s < Symbols(v.kind) && Upcoming(t, v.root, CodeBits(v.lens, s) + rest) == SymEntry(v.kind, s, v.lens[s])
  {
    hide Huff, NotOver, CodeBits, Pow2, LowVal, Finished, Look, Finds;
    var b := CodeBits(v.lens, s) + rest;
    HuffIsCode(v.lens, s);
    FirstBits(b, v.lens[s]);
    assert b[..v.lens[s]] == CodeBits(v.lens, s);
    LookupDecodes(v, t, s, LowVal(b));
    PowPositive(v.root);
    FoundIsLook(t, v.root, LowVal(b), SymEntry(v.kind, s, v.lens[s]));
  }
}

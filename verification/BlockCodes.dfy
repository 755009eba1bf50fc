/** Writing a block's symbols and reading them back, in groups of fifty, whatever the
    pieces in which the compressed bytes arrive. */
module BlockCodes {
  import opened Bytes
  import opened Bits
  import opened Canonical
  import opened BitStream
  import opened BitFields
  import opened SymbolMeaning
  import opened SymbolStream
  import opened MtfDecoder

  /** Each group of 50 symbols has a table that knows its symbols. */
  ghost predicate Codable(lens: seq<seq<Byte>>, selector: seq<int>, syms: seq<int>) {
    && |syms| <= BZ_G_SIZE * |selector|
    && (forall k :: 0 <= k < |selector| ==> 0 <= selector[k] < |lens|)
    && (forall t :: 0 <= t < |lens| ==> Lengths(lens[t]) && Fits(lens[t]))
    && forall j :: 0 <= j < |syms| ==> 0 <= syms[j] < |lens[selector[j / BZ_G_SIZE]]|
  }

  /** The code words of the symbols from position k on. */
  ghost function Encoded(lens: seq<seq<Byte>>, selector: seq<int>, syms: seq<int>, k: nat): (b: seq<bool>)
    requires Codable(lens, selector, syms) && k <= |syms|
    decreases |syms| - k
  {
    if k == |syms| then []
    else CodeBits(lens[selector[k / BZ_G_SIZE]], syms[k]) + Encoded(lens, selector, syms, k + 1)
  }

  /** The sending loop of sendMTFValues. */
  method SendCodes(w: BitWriter, syms: seq<int>, selector: seq<int>, lens: seq<seq<Byte>>, code: seq<seq<int>>)
    returns (selCtr: int)
    requires w.Valid() && Codable(lens, selector, syms) && |code| == |lens|
    requires forall t :: 0 <= t < |lens| ==>
      |code[t]| == |lens[t]| && forall i :: 0 <= i < |lens[t]| ==> code[t][i] == Code(lens[t], i)
    modifies w
    ensures |old(w.zbits)| <= |w.zbits|
    ensures w.Valid() && w.Written() == old(w.Written()) + Encoded(lens, selector, syms, 0)
    ensures selCtr == (|syms| + BZ_G_SIZE - 1) / BZ_G_SIZE
  {
    hide Encoded;
    selCtr := 0;
    var gs := 0;
    while true
      invariant w.Valid() && |old(w.zbits)| <= |w.zbits| && 0 <= gs <= |syms| && 0 <= selCtr
      invariant gs == BZ_G_SIZE * selCtr || (gs == |syms| && BZ_G_SIZE * (selCtr - 1) < gs <= BZ_G_SIZE * selCtr)
      invariant w.Written() + Encoded(lens, selector, syms, gs) == old(w.Written()) + Encoded(lens, selector, syms, 0)
      decreases |syms| - gs
    {
      if gs >= |syms| { break; }
      var ge := gs + BZ_G_SIZE - 1;
      if ge >= |syms| { ge := |syms| - 1; }
      SendGroup(w, syms, selector, lens, code, selCtr, gs, ge);
      gs := ge + 1;
      selCtr := selCtr + 1;
    }
    NothingLeft(lens, selector, syms);
  }

  method SendGroup(w: BitWriter, syms: seq<int>, selector: seq<int>, lens: seq<seq<Byte>>, code: seq<seq<int>>,
      selCtr: int, gs: int, ge: int)
    requires w.Valid() && Codable(lens, selector, syms) && |code| == |lens|
    requires forall t :: 0 <= t < |lens| ==>
      |code[t]| == |lens[t]| && forall i :: 0 <= i < |lens[t]| ==> code[t][i] == Code(lens[t], i)
    requires 0 <= selCtr && gs == BZ_G_SIZE * selCtr && gs <= ge < gs + BZ_G_SIZE && ge < |syms|
    modifies w
    ensures |old(w.zbits)| <= |w.zbits|
    ensures w.Valid()
    ensures w.Written() + Encoded(lens, selector, syms, ge + 1) == old(w.Written()) + Encoded(lens, selector, syms, gs)
  {
    hide Encoded;
    for i := gs to ge + 1
      invariant w.Valid() && |old(w.zbits)| <= |w.zbits|
      invariant w.Written() + Encoded(lens, selector, syms, i) == old(w.Written()) + Encoded(lens, selector, syms, gs)
    {
      var t, s := selector[selCtr], syms[i];
      CodeRange(lens[t], s);
      EncodedStep(lens, selector, syms, i, selCtr, w.Written());
      w.Write(lens[t][s], code[t][s]);
    }
  }

  lemma {:induction false} EncodedStep(lens: seq<seq<Byte>>, selector: seq<int>, syms: seq<int>, i: int, g: int,
      written: seq<bool>)
    requires Codable(lens, selector, syms) && BZ_G_SIZE * g <= i < BZ_G_SIZE * (g + 1) && 0 <= g && i < |syms|
    ensures g < |selector| && i / BZ_G_SIZE == g && syms[i] < |lens[selector[g]]|
    ensures written + Encoded(lens, selector, syms, i) ==
            written + ToBits(Code(lens[selector[g]], syms[i]), lens[selector[g]][syms[i]])
                + Encoded(lens, selector, syms, i + 1)
  {
  }

  lemma {:induction false} NothingLeft(lens: seq<seq<Byte>>, selector: seq<int>, syms: seq<int>)
    requires Codable(lens, selector, syms)
    ensures Encoded(lens, selector, syms, |syms|) == []
  {
  }

  /** Whole groups, the last one possibly short, each with a table that fits the alphabet. */
  ghost predicate InGroups(selector: seq<int>, syms: seq<int>) {
    |selector| == (|syms| + BZ_G_SIZE - 1) / BZ_G_SIZE
  }

  // ---- reading ----

  lemma {:induction false} OneSymbol(lens: seq<seq<Byte>>, selector: seq<int>, eob: int, bits: seq<bool>, k: nat,
      head: seq<int>)
    requires Selects(selector, |lens|)
    ensures var s := NextAt(lens, selector, bits, k); var m := Then(head, SymbolsAt(lens, selector, eob, bits, k));
      if !s.Got? then m == Fail
      else if s.value == eob then m == Got(head + [eob], s.rest)
      else m == Then(head + [s.value], SymbolsAt(lens, selector, eob, s.rest, k + 1))
  {
    hide NextAt;
    var s := NextAt(lens, selector, bits, k);
    if s.Got? && s.value != eob {
      ThenThen(head, [s.value], SymbolsAt(lens, selector, eob, s.rest, k + 1));
    }
  }

  /** The next call brings more input. */
  method Refill(r: SymbolReader)
    requires r.Valid() && r.label_ != Test && r.bits.later != []
    modifies r.bits
    ensures r.Valid() && r.Stream() == old(r.Stream()) && r.bits.later == old(r.bits.later)[1..]
  {
    hide Decodes, BitReader.Valid, BitReader.Coming, Val, First, NextAt, SymbolFrom;
    r.bits.NextCall();
  }

  /** Main result of the entropy stage: from whatever tables, selectors and bits, in whatever pieces
      they come, either the symbols up to the end-of-block one are found that the bits mean, and
      nothing behind them is taken, or the bits mean none. */
  method ReadSymbols(r: SymbolReader, eob: int) returns (ok: bool, out: seq<int>)
    requires r.Valid() && r.label_ == Idle && r.count == 0 && Selects(r.selector, |r.lens|)
    modifies r, r.bits
    ensures r.bits.Valid()
    ensures Reads(SymbolsAt(r.lens, r.selector, eob, old(r.Stream()), 0), ok, out, r.bits.Coming())
  {
    hide SymbolReader.Valid, BitReader.Valid, BitReader.Coming, NextAt, SymbolsAt;
    ghost var all := SymbolsAt(r.lens, r.selector, eob, r.Stream(), 0);
    out, ok := [], false;
    ThenNothing(all);
    while true
      invariant r.Valid() && r.label_ != Test && |out| == r.count
      invariant all == Then(out, SymbolsAt(r.lens, r.selector, eob, r.Stream(), r.count))
      decreases BZ_G_SIZE * |r.selector| - r.count, |r.bits.later|
    {
      OneSymbol(r.lens, r.selector, eob, r.Stream(), r.count, out);
      ghost var k := r.count;
      var o := r.GetSymbol();
      if o.DataError? { return; }
      if o.Symbol? {
        out := out + [o.s];
        NothingPartial(r);
        if o.s == eob { return true, out; }
      } else {
        if r.bits.later == [] { return; }
        Refill(r);
      }
    }
  }

  lemma NothingPartial(r: SymbolReader)
    requires r.Valid() && r.label_ == Idle
    ensures r.Stream() == r.bits.Coming()
  {
    hide BitReader.Valid, BitReader.Coming, Decodes;
    assert [] + r.bits.Coming() == r.bits.Coming();
  }

  // ---- symbols that were sent ----

  /** Any symbols up to the end-of-block one, any tables satisfying Kraft's inequality, and any
      selectors: what is sent means what was sent. */
  lemma {:induction false} SymbolsGiven(lens: seq<seq<Byte>>, selector: seq<int>, syms: seq<int>, eob: int, k: nat,
      rest: seq<bool>)
    requires Codable(lens, selector, syms) && BlockSymbols(syms, eob) && k < |syms| && Selects(selector, |lens|)
    ensures SymbolsAt(lens, selector, eob, Encoded(lens, selector, syms, k) + rest, k) == Got(syms[k..], rest)
    decreases |syms| - k
  {
    hide Codable, Encoded, SymbolsAt, NextAt, Selects, BlockSymbols;
    SymbolSent(lens, selector, syms, eob, k, rest);
    var more := Encoded(lens, selector, syms, k + 1) + rest;
    OneSymbol(lens, selector, eob, Encoded(lens, selector, syms, k) + rest, k, []);
    ThenNothing(SymbolsAt(lens, selector, eob, Encoded(lens, selector, syms, k) + rest, k));
    if k == |syms| - 1 {
      NothingLeft(lens, selector, syms);
      assert more == rest && syms[k..] == [eob] == [] + [eob];
    } else {
      SymbolsGiven(lens, selector, syms, eob, k + 1, rest);
      assert [syms[k]] + syms[k + 1..] == syms[k..] && [] + [syms[k]] == [syms[k]];
    }
  }

  lemma {:induction false} SymbolSent(lens: seq<seq<Byte>>, selector: seq<int>, syms: seq<int>, eob: int, k: nat,
      rest: seq<bool>)
    requires Codable(lens, selector, syms) && BlockSymbols(syms, eob) && k < |syms| && Selects(selector, |lens|)
    ensures NextAt(lens, selector, Encoded(lens, selector, syms, k) + rest, k)
         == Got(syms[k], Encoded(lens, selector, syms, k + 1) + rest)
    ensures syms[k] == eob <==> k == |syms| - 1
  {
    hide SymbolAt, CodeBits, Fits, Lengths;
    var code := CodeBits(lens[selector[k / BZ_G_SIZE]], syms[k]);
    var more := Encoded(lens, selector, syms, k + 1) + rest;
    assert Encoded(lens, selector, syms, k) + rest == code + more;
    SymbolGiven(lens[selector[k / BZ_G_SIZE]], syms[k], more);
  }
}

/** Compressing and decompressing a raw deflate stream: the sequence of blocks of the compressor
    is sent, and what inflate makes of it is the text. */
module RawRoundTrip {
  import opened Bytes
  import opened Wrappers
  import opened LsbBits
  import opened DeflateBits
  import opened Lz77
  import opened DecodingTable
  import opened DeflateBody
  import opened FastItems
  import opened InflateWindow
  import InflateCopy
  import opened InflateBlock
  import opened BlockForms
  import opened BlockWriting
  import opened InflateStream
  import opened LongestMatch
  import opened TableLookup
  import opened DeflateTally
  import MatchRules
  import opened Deflating
  import opened DeflateCalls
  import opened RawDeflate

  /** A block as it was sent: its form, its tokens, whether it is the last, and how many bits of
      padding follow it. */
  datatype SentBlock = SentBlock(form: Form, tokens: seq<Token>, last: bool, end: nat)

  ghost predicate SentOk(t: StaticTables, s: SentBlock) {
    FormOk(t, s.form, s.tokens) && s.end < 8 && (!s.last ==> s.end == 0)
  }

  ghost predicate AllSent(t: StaticTables, fs: seq<SentBlock>) {
    forall k :: 0 <= k < |fs| ==> SentOk(t, fs[k])
  }

  /** The bits of a block, before the padding and with it. */
  ghost function OwnBits(t: StaticTables, s: SentBlock): seq<bool>
    requires SentOk(t, s)
  {
    FormBits(t, s.form, s.tokens, s.last)
  }

  /** The bits of the first k blocks. */
  ghost function Before(t: StaticTables, fs: seq<SentBlock>, k: nat): seq<bool>
    requires AllSent(t, fs) && k <= |fs|
  {
    if k == 0 then [] else Before(t, fs, k - 1) + OwnBits(t, fs[k - 1]) + LowBits(0, fs[k - 1].end)
  }

  /** The bits of the blocks from k on. */
  ghost function After(t: StaticTables, fs: seq<SentBlock>, k: nat): seq<bool>
    requires AllSent(t, fs) && k <= |fs|
    decreases |fs| - k
  {
    if k == |fs| then [] else OwnBits(t, fs[k]) + (LowBits(0, fs[k].end) + After(t, fs, k + 1))
  }

  lemma {:induction false} BeforeAfter(t: StaticTables, fs: seq<SentBlock>, k: nat)
    requires AllSent(t, fs) && k <= |fs|
    ensures Before(t, fs, k) + After(t, fs, k) == Before(t, fs, |fs|)
    decreases |fs| - k
  {
    hide SentOk, OwnBits, LowBits;
    if k == |fs| {
      assert Before(t, fs, k) + [] == Before(t, fs, k);
    } else {
      BeforeAfter(t, fs, k + 1);
      var a, b, c, d := Before(t, fs, k), OwnBits(t, fs[k]), LowBits(0, fs[k].end), After(t, fs, k + 1);
      assert a + (b + (c + d)) == a + b + c + d;
    }
  }

  /** Stored bytes begin at a byte boundary, and so do they end; the whole is whole bytes. */
  ghost predicate Aligned(t: StaticTables, fs: seq<SentBlock>)
    requires AllSent(t, fs)
  {
    forall k :: 0 <= k < |fs| && fs[k].form.StoredForm? ==> |Before(t, fs, k) + OwnBits(t, fs[k])| % 8 == 0
  }

  /** What follows a stored block is whole bytes. */
  lemma {:induction false} AfterStored(t: StaticTables, fs: seq<SentBlock>, k: nat)
    requires AllSent(t, fs) && k < |fs| && |Before(t, fs, |fs|)| % 8 == 0
        && |Before(t, fs, k) + OwnBits(t, fs[k])| % 8 == 0
    ensures |LowBits(0, fs[k].end) + After(t, fs, k + 1)| % 8 == 0
  {
    hide SentOk, OwnBits, LowBits;
    BeforeAfter(t, fs, k);
  }

  // ---- the blocks and the text ----

  /** How much text the first k blocks stand for. */
  function TextEnd(bs: seq<Flushed>, k: nat): int
    requires k <= |bs|
  {
    if k == 0 then 0 else TextEnd(bs, k - 1) + bs[k - 1].storedLen
  }

  lemma {:induction false} TextEndPrefix(bs: seq<Flushed>, m: nat, k: nat)
    requires k <= m <= |bs|
    ensures TextEnd(bs[..m], k) == TextEnd(bs, k)
  {
    if k > 0 { TextEndPrefix(bs, m, k - 1); }
  }

  /** What the compressor says of each block. */
  ghost predicate BlockAt(bs: seq<Flushed>, text: seq<Byte>, k: nat)
    requires k < |bs|
  {
    var a, b := TextEnd(bs, k), TextEnd(bs, k + 1);
    && 0 <= a <= b <= |text| && ExpandsTo(Flat(bs[..k]), text[..a])
        && ExpandsTo(Flat(bs[..k]) + bs[k].tokens, text[..b])
    && (bs[k].stored.Some? ==> bs[k].stored.value == text[a..b] && |bs[k].stored.value| <= 0xffff)
    && (k < |bs| - 1 ==> !bs[k].last) && MarkOk(bs[k])
  }

  lemma {:induction false} EndIs(bs: seq<Flushed>, text: seq<Byte>, end: int)
    requires BlocksOk(bs, text, end)
    ensures end == TextEnd(bs, |bs|) && 0 <= end
    decreases |bs|
  {
    hide ExpandsTo, Flat;
    if bs != [] {
      EndIs(bs[..|bs| - 1], text, end - bs[|bs| - 1].storedLen);
      TextEndPrefix(bs, |bs| - 1, |bs| - 1);
    }
  }

  lemma {:induction false} PrefixOk(bs: seq<Flushed>, text: seq<Byte>, end: int, k: nat)
    requires BlocksOk(bs, text, end) && k <= |bs|
    ensures BlocksOk(bs[..k], text, TextEnd(bs, k))
    decreases |bs|
  {
    hide ExpandsTo, Flat;
    EndIs(bs, text, end);
    if k == |bs| {
      assert bs[..k] == bs;
    } else {
      var cs := bs[..|bs| - 1];
      PrefixOk(cs, text, end - bs[|bs| - 1].storedLen, k);
      assert cs[..k] == bs[..k];
      TextEndPrefix(bs, |bs| - 1, k);
    }
  }

  /** The tokens of all the blocks stand for the text up to their end. */
  lemma {:induction false} ExpandOk(bs: seq<Flushed>, text: seq<Byte>, end: int)
    requires BlocksOk(bs, text, end)
    ensures 0 <= end <= |text| && ExpandsTo(Flat(bs), text[..end])
  {
  }

  /** What is said of the last block. */
  lemma {:induction false} LastOk(bs: seq<Flushed>, text: seq<Byte>, end: int)
    requires BlocksOk(bs, text, end) && bs != []
    ensures var b := bs[|bs| - 1];
      && 0 <= b.storedLen <= end <= |text| && Flat(bs) == Flat(bs[..|bs| - 1]) + b.tokens
      && (b.stored.Some? ==> b.stored.value == text[end - b.storedLen..end] && |b.stored.value| <= 0xffff) && MarkOk(b)
  {
    hide ExpandsTo, MarkOk;
  }

  lemma {:induction false} BlockIs(bs: seq<Flushed>, text: seq<Byte>, end: int, k: nat)
    requires BlocksOk(bs, text, end) && k < |bs|
    ensures BlockAt(bs, text, k)
  {
    hide ExpandsTo, BlocksOk, Flat;
    PrefixOk(bs, text, end, k);
    PrefixOk(bs, text, end, k + 1);
    var cs := bs[..k + 1];
    assert cs[..|cs| - 1] == bs[..k] && cs[|cs| - 1] == bs[k];
    ExpandOk(bs[..k], text, TextEnd(bs, k));
    ExpandOk(cs, text, TextEnd(bs, k + 1));
    LastOk(cs, text, TextEnd(bs, k + 1));
    if k < |bs| - 1 { NotLast(bs, text, end, k); }
  }

  /** Only the last block may be marked as such. */
  lemma {:induction false} NotLast(bs: seq<Flushed>, text: seq<Byte>, end: int, k: nat)
    requires BlocksOk(bs, text, end) && k < |bs| - 1
    ensures !bs[k].last
  {
    hide ExpandsTo, Flat;
    PrefixOk(bs, text, end, k + 2);
    var cs := bs[..k + 2];
    assert cs[|cs| - 2] == bs[k];
  }

  lemma {:induction false} TokensOf(bs: seq<Flushed>, k: nat, j: nat, maxDist: int) returns (i: nat)
    requires k < |bs| && j < |bs[k].tokens|
    ensures i < |Flat(bs)| && Flat(bs)[i] == bs[k].tokens[j]
    decreases |bs|
  {
    var n := |bs| - 1;
    if k == n {
      i := |Flat(bs[..n])| + j;
    } else {
      i := TokensOf(bs[..n], k, j, maxDist);
    }
  }

  /** All tokens of the blocks can be sent, and are in reach. */
  lemma {:induction false} TokensInReach(bs: seq<Flushed>, k: nat, maxDist: int, size: nat)
    requires InReach(Flat(bs), maxDist) && k < |bs| && maxDist <= size
    ensures Near(bs[k].tokens, size) && forall j :: 0 <= j < |bs[k].tokens| ==> ValidToken(bs[k].tokens[j])
  {
    hide Flat, ValidToken;
    forall j | 0 <= j < |bs[k].tokens| ensures NearToken(bs[k].tokens[j], size) && ValidToken(bs[k].tokens[j]) {
      var i := TokensOf(bs, k, j, maxDist);
      assert DeflateTally.Reach(Flat(bs)[i], maxDist);
    }
  }

  // ---- sending ----

  /** The blocks that were sent are those of the compressor. */
  ghost predicate Matching(fs: seq<SentBlock>, bs: seq<Flushed>) {
    |fs| <= |bs| && forall k :: 0 <= k < |fs| ==> SameBlock(fs[k], bs[k])
  }

  ghost predicate SameBlock(s: SentBlock, b: Flushed) {
    && s.tokens == b.tokens && s.last == b.last && (s.form.StoredForm? ==> b.stored == Some(s.form.data))
    && (b.sender == TrAlign ==> s.form.FixedForm?) && (b.sender == TrStoredBlock ==> s.form.StoredForm?)
  }

  /** What the compressor must have said for the blocks to be sent. */
  ghost predicate CanSend(bs: seq<Flushed>) {
    && (forall k :: 0 <= k < |bs| ==> BlockCanSend(bs[k]))
    && forall k :: 0 <= k < |bs| - 1 ==> !bs[k].last
  }

  ghost predicate BlockCanSend(b: Flushed) {
    (forall j :: 0 <= j < |b.tokens| ==> ValidToken(b.tokens[j])) && (b.stored.Some? ==> |b.stored.value| <= 0xffff)
    && MarkOk(b)
  }

  lemma {:induction false} OneMore(t: StaticTables, fs: seq<SentBlock>, s: SentBlock, bs: seq<Flushed>, w: seq<bool>,
      w1: seq<bool>)
    requires AllSent(t, fs) && Aligned(t, fs) && Matching(fs, bs) && |fs| < |bs| && w == Before(t, fs, |fs|)
    requires SentOk(t, s) && SameBlock(s, bs[|fs|]) && w1 == w + OwnBits(t, s) + LowBits(0, s.end)
    requires s.form.StoredForm? ==> |w + OwnBits(t, s)| % 8 == 0
    ensures AllSent(t, fs + [s]) && Aligned(t, fs + [s]) && Matching(fs + [s], bs)
        && w1 == Before(t, fs + [s], |fs| + 1)
  {
    hide SentOk, OwnBits, LowBits, SameBlock, Before;
    var gs := fs + [s];
    forall k | 0 <= k < |gs| ensures SentOk(t, gs[k])
        && SameBlock(gs[k], bs[k]) { if k < |fs| { assert gs[k] == fs[k]; } }
    forall k | 0 <= k <= |fs| ensures Before(t, gs, k) == Before(t, fs, k) { SameBefore(t, fs, gs, k); }
    BeforeStep(t, gs, |fs|);
  }

  lemma BeforeStep(t: StaticTables, fs: seq<SentBlock>, k: nat)
    requires AllSent(t, fs) && k < |fs|
    ensures SentOk(t, fs[k]) && Before(t, fs, k + 1) == Before(t, fs, k) + OwnBits(t, fs[k]) + LowBits(0, fs[k].end)
  {
    hide SentOk, OwnBits, LowBits;
  }

  lemma {:induction false} SameBefore(t: StaticTables, fs: seq<SentBlock>, gs: seq<SentBlock>, k: nat)
    requires AllSent(t, fs) && AllSent(t, gs) && k <= |fs| <= |gs| && gs[..|fs|] == fs
    ensures Before(t, gs, k) == Before(t, fs, k)
  {
    hide SentOk, OwnBits, LowBits;
    if k > 0 {
      SameBefore(t, fs, gs, k - 1);
      assert gs[k - 1] == gs[..|fs|][k - 1];
    }
  }

  lemma SentIsOk(tree: TreeState, f: Form, ts: seq<Token>, last: bool, end: nat, w: seq<bool>, w1: seq<bool>)
    requires tree.Sent(f, ts, last, end, w, w1)
    ensures SentOk(tree.tables, SentBlock(f, ts, last, end))
        && w1 == w + OwnBits(tree.tables, SentBlock(f, ts, last, end)) + LowBits(0, end)
    ensures (f.StoredForm? ==> |w + OwnBits(tree.tables, SentBlock(f, ts, last, end))| % 8 == 0)
        && (last ==> |w1| % 8 == 0)
  {
    hide FormOk, FormBits, LowBits;
  }

  lemma BlockParts(bs: seq<Flushed>, k: nat)
    requires CanSend(bs) && k < |bs|
    ensures BlockCanSend(bs[k])
  {
    hide BlockCanSend;
  }

  /** The form of a block of tokens is the shortest, and its own codes the best for them. */
  ghost predicate BestForm(t: StaticTables, f: Form, b: Flushed, fixed: bool) {
    b.sender == TrFlushBlock ==>
      exists own :: Shortest(t, f, own, b.tokens, b.last, b.stored, b.storedLen, fixed)
  }

  lemma IsBestForm(t: StaticTables, f: Form, own: Form, b: Flushed, fixed: bool)
    requires Shortest(t, f, own, b.tokens, b.last, b.stored, b.storedLen, fixed)
    ensures BestForm(t, f, b, fixed)
  {
    hide Shortest;
  }

  lemma MarkIsBest(t: StaticTables, f: Form, b: Flushed, fixed: bool)
    requires b.sender != TrFlushBlock
    ensures BestForm(t, f, b, fixed)
  {
  }

  ghost predicate BestForms(t: StaticTables, fs: seq<SentBlock>, bs: seq<Flushed>, fixed: bool) {
    forall k :: 0 <= k < |fs| && k < |bs| ==> BestForm(t, fs[k].form, bs[k], fixed)
  }

  lemma NoForms(t: StaticTables, bs: seq<Flushed>, fixed: bool)
    ensures BestForms(t, [], bs, fixed)
  {
  }

  lemma MoreForms(t: StaticTables, fs: seq<SentBlock>, s: SentBlock, bs: seq<Flushed>, fixed: bool)
    requires BestForms(t, fs, bs, fixed) && |fs| < |bs| && BestForm(t, s.form, bs[|fs|], fixed)
    ensures BestForms(t, fs + [s], bs, fixed)
  {
    hide BestForm;
    forall k | 0 <= k < |fs + [s]| && k < |bs| ensures BestForm(t, (fs + [s])[k].form, bs[k], fixed) {
      if k < |fs| { assert (fs + [s])[k] == fs[k]; }
    }
  }

  /** A block is sent: by _tr_flush_block in whatever form is found to be the shortest, or as one
      of the empty blocks of _tr_align and _tr_stored_block. */
  method SendBlock(tree: TreeState, sink: BitSink, b: Flushed, fixed: bool)
    returns (ghost f: Form, ghost end: nat)
    requires tree.Valid() && tree.Cleared() && sink.Valid() && BlockCanSend(b)
    modifies sink, tree.heap, tree.depth, tree.blCount, tree.lfc, tree.ldl, tree.dfc, tree.ddl, tree.bfc, tree.bdl
    ensures tree.Valid() && tree.Cleared() && sink.Valid()
    ensures tree.Sent(f, b.tokens, b.last, end, old(sink.Sent()), sink.Sent())
        && (f.StoredForm? ==> b.stored == Some(f.data))
    ensures BestForm(tree.tables, f, b, fixed)
    ensures b.sender == TrAlign ==> f.FixedForm?
    ensures b.sender == TrStoredBlock ==> f.StoredForm?
  {
    hide *;
    PartsOf(b);
    ghost var w := sink.Sent();
    match b.sender {
      case TrFlushBlock =>
        ghost var own;
        f, end, own := tree.FlushBlock(sink, b.tokens, b.stored, b.storedLen, b.last, fixed);
        IsBestForm(tree.tables, f, own, b, fixed);
      case TrAlign =>
        f := tree.FlushFixed(sink, [], false);
        end := 0;
        MarkIsBest(tree.tables, f, b, fixed);
        EmptyIsSent(tree, f, w, sink.Sent());
      case TrStoredBlock =>
        f := tree.FlushStored(sink, [], [], false);
        end := 0;
        MarkIsBest(tree.tables, f, b, fixed);
        EmptyIsSent(tree, f, w, sink.Sent());
    }
  }

  lemma PartsOf(b: Flushed)
    requires BlockCanSend(b)
    ensures (forall j :: 0 <= j < |b.tokens| ==> ValidToken(b.tokens[j]))
        && (b.stored.Some? ==> |b.stored.value| <= 0xffff)
    ensures b.sender != TrFlushBlock ==> b.tokens == [] && b.stored == Some([]) && !b.last
  {
    hide ValidToken;
  }

  lemma EmptyIsSent(tree: TreeState, f: Form, w: seq<bool>, w1: seq<bool>)
    requires FormOk(tree.tables, f, []) && w1 == w + FormBits(tree.tables, f, [], false)
    requires f.StoredForm? ==> |w1| % 8 == 0
    ensures tree.Sent(f, [], false, 0, w, w1)
  {
    hide FormOk, FormBits;
    NoPad();
    assert w1 + [] == w1;
  }

  /** All blocks are sent. */
  method SendBlocks(tree: TreeState, sink: BitSink, bs: seq<Flushed>, fixed: bool)
    returns (ghost fs: seq<SentBlock>)
    requires tree.Valid() && tree.Cleared() && sink.Valid() && sink.Sent() == [] && CanSend(bs) && bs != []
        && bs[|bs| - 1].last
    modifies sink, tree.heap, tree.depth, tree.blCount, tree.lfc, tree.ldl, tree.dfc, tree.ddl, tree.bfc, tree.bdl
    ensures sink.Valid() && AllSent(tree.tables, fs) && Aligned(tree.tables, fs) && Matching(fs, bs) && |fs| == |bs|
    ensures StreamBits(sink.out) == Before(tree.tables, fs, |fs|) && BestForms(tree.tables, fs, bs, fixed)
  {
    hide *;
    fs := [];
    NothingSent(tree.tables, bs);
    NoForms(tree.tables, bs, fixed);
    for k := 0 to |bs|
      invariant tree.Valid() && tree.Cleared() && sink.Valid() && |fs| == k
      invariant AllSent(tree.tables, fs) && Aligned(tree.tables, fs) && Matching(fs, bs)
          && sink.Sent() == Before(tree.tables, fs, k)
      invariant k == |bs| ==> |sink.Sent()| % 8 == 0 && sink.biValid < 8
      invariant BestForms(tree.tables, fs, bs, fixed)
    {
      ghost var w := sink.Sent();
      var b := bs[k];
      BlockParts(bs, k);
      ghost var f, end := SendBlock(tree, sink, b, fixed);
      ghost var s := SentBlock(f, b.tokens, b.last, end);
      SentIsOk(tree, f, b.tokens, b.last, end, w, sink.Sent());
      SameIs(s, b, f);
      OneMore(tree.tables, fs, s, bs, w, sink.Sent());
      MoreForms(tree.tables, fs, s, bs, fixed);
      fs := fs + [s];
      sink.Flush();
    }
    NothingLeft(sink);
  }

  lemma NothingSent(t: StaticTables, bs: seq<Flushed>)
    ensures AllSent(t, []) && Aligned(t, []) && Matching([], bs) && Before(t, [], 0) == []
  {
  }

  lemma SameIs(s: SentBlock, b: Flushed, f: Form)
    requires s.form == f && s.tokens == b.tokens && s.last == b.last && (f.StoredForm? ==> b.stored == Some(f.data))
    requires (b.sender == TrAlign ==> f.FixedForm?) && (b.sender == TrStoredBlock ==> f.StoredForm?)
    ensures SameBlock(s, b)
  {
  }

  /** Whole bytes leave nothing in the bit buffer. */
  lemma {:induction false} NothingLeft(sink: BitSink)
    requires sink.Valid() && sink.biValid < 8 && |sink.Sent()| % 8 == 0
    ensures StreamBits(sink.out) == sink.Sent()
  {
    hide StreamBits, LowVal;
    StreamLength(sink.out);
    assert sink.live == [];
    assert StreamBits(sink.out) + [] == StreamBits(sink.out);
  }

  // ---- receiving ----

  /** Blocks that were sent for the text. */
  ghost predicate SentFor(t: StaticTables, fs: seq<SentBlock>, bs: seq<Flushed>, text: seq<Byte>, size: nat) {
    && AllSent(t, fs) && Aligned(t, fs) && Matching(fs, bs) && |fs| == |bs| > 0 && bs[|bs| - 1].last
        && TextEnd(bs, |bs|) == |text|
    && |Before(t, fs, |fs|)| % 8 == 0 && forall k :: 0 <= k < |bs| ==> BlockAt(bs, text, k) && Near(bs[k].tokens, size)
  }

  lemma BlockFacts(t: StaticTables, fs: seq<SentBlock>, bs: seq<Flushed>, text: seq<Byte>, size: nat, k: nat)
    requires SentFor(t, fs, bs, text, size) && k < |fs|
    ensures AllSent(t, fs) && |fs| == |bs| && SentOk(t, fs[k]) && SameBlock(fs[k], bs[k]) && BlockAt(bs, text, k)
        && Near(bs[k].tokens, size)
    ensures fs[k].form.StoredForm? ==> |Before(t, fs, k) + OwnBits(t, fs[k])| % 8 == 0
    ensures |Before(t, fs, |fs|)| % 8 == 0 && (fs[k].last <==> k == |fs| - 1)
  {
    hide BlockAt, Near, Before, OwnBits, SentOk, TextEnd;
    assert BlockAt(bs, text, k) && SameBlock(fs[k], bs[k]);
    if k < |bs| - 1 { NotLastAt(bs, text, k); }
  }

  lemma NotLastAt(bs: seq<Flushed>, text: seq<Byte>, k: nat)
    requires k < |bs| - 1 && BlockAt(bs, text, k)
    ensures !bs[k].last
  {
    hide ExpandsTo, Flat, TextEnd;
  }

  /** What stands behind a block. */
  ghost function Behind(t: StaticTables, fs: seq<SentBlock>, k: nat, extra: seq<bool>): seq<bool>
    requires AllSent(t, fs) && k < |fs|
  {
    LowBits(0, fs[k].end) + After(t, fs, k + 1) + extra
  }

  lemma {:induction false} FormFits(t: StaticTables, s: SentBlock, bs: seq<Flushed>, text: seq<Byte>, k: nat)
    requires k < |bs| && SentOk(t, s) && SameBlock(s, bs[k]) && BlockAt(bs, text, k)
    ensures 0 <= TextEnd(bs, k) <= TextEnd(bs, k + 1) <= |text|
    ensures FormTells(t, s.form, s.tokens, text[..TextEnd(bs, k)], text[..TextEnd(bs, k + 1)])
    ensures Tells(Flat(bs[..k]), s.tokens, text[..TextEnd(bs, k)], text[..TextEnd(bs, k + 1)])
  {
    hide ExpandsTo, Flat, TextEnd, FormOk;
    var a, b := TextEnd(bs, k), TextEnd(bs, k + 1);
    assert text[..b] == text[..a] + text[a..b];
  }

  /** Reading the block that comes next. */
  lemma {:induction false} OneRead(t: StaticTables, fs: seq<SentBlock>, bs: seq<Flushed>, text: seq<Byte>, size: nat,
      k: nat, extra: seq<bool>, r: BlockEnd, text1: seq<Byte>, rest: seq<bool>)
    requires SentFor(t, fs, bs, text, size) && AllSent(t, fs) && k < |fs| == |bs| && |extra| % 8 == 0
        && 0 <= TextEnd(bs, k) <= TextEnd(bs, k + 1) <= |text|
    requires BlockMeans(r, size, After(t, fs, k) + extra, text[..TextEnd(bs, k)], text1, rest)
    ensures ReadBack(r, fs[k].last, Behind(t, fs, k, extra), text[..TextEnd(bs, k + 1)], text1, rest)
  {
    hide *;
    BlockFacts(t, fs, bs, text, size, k);
    FormFits(t, fs[k], bs, text, k);
    var more := Behind(t, fs, k, extra);
    if fs[k].form.StoredForm? { AfterStored(t, fs, k); }
    BehindLength(t, fs, k, extra);
    AfterStep(t, fs, k, extra);
    SameTokens(fs[k], bs[k]);
    BlockIsRead(r, t, fs[k].form, size, Flat(bs[..k]), fs[k].tokens, fs[k].last, more, text[..TextEnd(bs, k)],
        text[..TextEnd(bs, k + 1)], text1, rest);
  }

  lemma SameTokens(s: SentBlock, b: Flushed)
    requires SameBlock(s, b)
    ensures s.tokens == b.tokens
  {
  }

  lemma BehindLength(t: StaticTables, fs: seq<SentBlock>, k: nat, extra: seq<bool>)
    requires AllSent(t, fs) && k < |fs| && |extra| % 8 == 0
    ensures |LowBits(0, fs[k].end) + After(t, fs, k + 1)| % 8 == 0 ==> |Behind(t, fs, k, extra)| % 8 == 0
  {
    hide LowBits, After, SentOk;
  }

  lemma AfterStep(t: StaticTables, fs: seq<SentBlock>, k: nat, extra: seq<bool>)
    requires AllSent(t, fs) && k < |fs| && SentOk(t, fs[k])
    ensures FormOk(t, fs[k].form, fs[k].tokens)
    ensures After(t, fs, k) + extra == FormBits(t, fs[k].form, fs[k].tokens, fs[k].last) + Behind(t, fs, k, extra)
  {
    hide LowBits, FormOk, FormBits;
  }

  lemma {:induction false} EndsInText(t: StaticTables, fs: seq<SentBlock>, bs: seq<Flushed>, text: seq<Byte>, size: nat,
      k: nat)
    requires SentFor(t, fs, bs, text, size) && k < |fs|
    ensures |fs| == |bs| && 0 <= TextEnd(bs, k) <= TextEnd(bs, k + 1) <= |text|
        && (k == |fs| - 1 ==> TextEnd(bs, k + 1) == |text|)
  {
    hide ExpandsTo, Flat, TextEnd, Before, OwnBits, SentOk, Near;
    assert BlockAt(bs, text, k);
  }

  /** The decoder stands between the blocks where the encoder did. */
  lemma {:induction false} TraceIs(t: StaticTables, fs: seq<SentBlock>, bs: seq<Flushed>, text: seq<Byte>, size: nat,
      extra: seq<bool>, tr: seq<Stand>, k: nat)
    requires SentFor(t, fs, bs, text, size) && AllSent(t, fs) && |fs| == |bs| > 0 && |extra| % 8 == 0
        && Steps(tr, size) && k < |tr|
    requires tr[0] == Stand(After(t, fs, 0) + extra, [])
    ensures k < |fs| && 0 <= TextEnd(bs, k) <= |text| && tr[k] == Stand(After(t, fs, k) + extra, text[..TextEnd(bs, k)])
  {
    hide SentFor, AllSent, After, BlockMeans, LowBits, Before, Step;
    if k == 0 {
      EndsInText(t, fs, bs, text, size, 0);
      assert text[..0] == [];
    } else {
      TraceIs(t, fs, bs, text, size, extra, tr, k - 1);
      EndsInText(t, fs, bs, text, size, k - 1);
      assert Step(tr[k - 1], tr[k], size);
      StepMeans(tr[k - 1], tr[k], size);
      OneRead(t, fs, bs, text, size, k - 1, extra, AllRead(false), tr[k].text, tr[k].b);
      BlockFacts(t, fs, bs, text, size, k - 1);
      ReadOn(t, fs, k - 1, extra, tr[k], text[..TextEnd(bs, k)]);
    }
  }

  lemma StepMeans(p: Stand, q: Stand, size: nat)
    requires Step(p, q, size)
    ensures BlockMeans(AllRead(false), size, p.b, p.text, q.text, q.b)
  {
    hide BlockMeans;
  }

  lemma ReadOn(t: StaticTables, fs: seq<SentBlock>, k: nat, extra: seq<bool>, q: Stand, next: seq<Byte>)
    requires AllSent(t, fs) && k < |fs| && SentOk(t, fs[k]) && (fs[k].last <==> k == |fs| - 1)
    requires ReadBack(AllRead(false), fs[k].last, Behind(t, fs, k, extra), next, q.text, q.b)
    ensures k + 1 < |fs| && q == Stand(After(t, fs, k + 1) + extra, next)
  {
    hide After, FormOk;
    NoPad();
    assert [] + After(t, fs, k + 1) == After(t, fs, k + 1);
  }

  /** The whole text, or the part of it that there was room for. */
  ghost predicate GotBack(r: BlockEnd, text: seq<Byte>, out: seq<Byte>) {
    (r == AllRead(true) && out == text) || (r == Broken(OutOfRoom) && out < text)
  }

  /** The result of reading: the whole text if there is room for it, and as much of it as there is
      room for otherwise. */
  ghost predicate Restored(r: BlockEnd, text: seq<Byte>, out: seq<Byte>, room: int) {
    if |text| <= room then r == AllRead(true) && out == text
    else 0 <= room && r == Broken(OutOfRoom) && out == text[..room]
  }

  lemma {:induction false} EndIsReached(t: StaticTables, fs: seq<SentBlock>, bs: seq<Flushed>, text: seq<Byte>,
      size: nat, extra: seq<bool>, tr: seq<Stand>, r: BlockEnd, out: seq<Byte>, rest: seq<bool>)
    requires SentFor(t, fs, bs, text, size) && AllSent(t, fs) && |fs| == |bs| > 0 && |extra| % 8 == 0 && |tr| > 0
        && Steps(tr, size)
    requires tr[0] == Stand(After(t, fs, 0) + extra, []) && r != AllRead(false)
    requires BlockMeans(r, size, tr[|tr| - 1].b, tr[|tr| - 1].text, out, rest)
    ensures GotBack(r, text, out) && (r == AllRead(true) ==> Align(rest) == extra)
  {
    hide *;
    var k := |tr| - 1;
    TraceIs(t, fs, bs, text, size, extra, tr, k);
    EndsInText(t, fs, bs, text, size, k);
    OneRead(t, fs, bs, text, size, k, extra, r, out, rest);
    BlockFacts(t, fs, bs, text, size, k);
    assert text[..|text|] == text;
    PrefixOf(out, text, TextEnd(bs, k + 1));
    RestoredBy(t, fs, k, extra, r, text, TextEnd(bs, k + 1), out, rest);
  }

  lemma PrefixOf(out: seq<Byte>, text: seq<Byte>, n: int)
    requires 0 <= n <= |text|
    ensures out < text[..n] ==> out < text
  {
  }

  lemma RestoredBy(t: StaticTables, fs: seq<SentBlock>, k: nat, extra: seq<bool>, r: BlockEnd, text: seq<Byte>, n: int,
      out: seq<Byte>, rest: seq<bool>)
    requires AllSent(t, fs) && k < |fs| && SentOk(t, fs[k]) && (fs[k].last <==> k == |fs| - 1) && r != AllRead(false)
        && 0 <= n <= |text| && |extra| % 8 == 0
    requires ReadBack(r, fs[k].last, Behind(t, fs, k, extra), text[..n], out, rest)
        && (out < text[..n] ==> out < text)
    requires k == |fs| - 1 ==> text[..n] == text
    ensures GotBack(r, text, out) && (r == AllRead(true) ==> Align(rest) == extra)
  {
    hide FormOk, LowBits;
    if r.AllRead? {
      var pad := LowBits(0, fs[k].end);
      assert rest == pad + [] + extra;
      assert |rest| % 8 == |pad| && rest[|pad|..] == extra;
    }
  }

  /** What was sent is read: the bits may come in pieces of any size and the text may go to
      buffers of any size. */
  method ReadBlocks(source: BitSource, h: History, k0: Sink, lens: array<int>, codes: array<Entry>, work: array<int>,
      ghost t: StaticTables, ghost fs: seq<SentBlock>, ghost bs: seq<Flushed>, ghost text: seq<Byte>,
      ghost extra: seq<bool>)
    returns (r: BlockEnd, k: Sink)
    requires source.Valid() && source.bits < 8 && h.Valid() && ValidSink(k0, h) && Output(h, k0) == []
    requires lens.Length >= 320 && codes.Length >= 1444 && work.Length >= 288 && lens != work
    requires SentFor(t, fs, bs, text, h.size) && AllSent(t, fs) && |extra| % 8 == 0
        && source.Coming() == Before(t, fs, |fs|) + extra
    modifies source, h`wsize, h`wnext, h`whave, h`done, h.window, k0.out, lens, codes, work
    ensures source.Valid() && h.Valid() && ValidSink(k, h) && (k.out == k0.out || fresh(k.out))
    ensures Restored(r, text, Output(h, k), old(Capacity(h, k0)))
    ensures r == AllRead(true) ==> source.Coming() == extra && source.bits == 0
  {
    hide SentFor, AllSent, BlockMeans, Before, After, Steps, GotBack, Restored, Capacity, BitSource.Valid,
        BitSource.Coming, History.Valid, InflateCopy.Text;
    SentSizes(t, fs, bs, text, h.size);
    BeforeAfter(t, fs, 0);
    NoneBefore(t, fs);
    assert [] + After(t, fs, 0) == After(t, fs, 0);
    ghost var tr, rest;
    r, k, tr, rest := Inflate(source, h, k0, lens, codes, work);
    EndIsReached(t, fs, bs, text, h.size, extra, tr, r, Output(h, k), rest);
    if r == Broken(OutOfRoom) { FullIs(h, k); }
    WithinCapacity(h, k);
    RoomIs(r, text, Output(h, k), old(Capacity(h, k0)));
  }

  lemma RoomIs(r: BlockEnd, text: seq<Byte>, out: seq<Byte>, room: int)
    requires GotBack(r, text, out) && |out| <= room && (r == Broken(OutOfRoom) ==> |out| == room)
    ensures Restored(r, text, out, room)
  {
  }

  lemma SentSizes(t: StaticTables, fs: seq<SentBlock>, bs: seq<Flushed>, text: seq<Byte>, size: nat)
    requires SentFor(t, fs, bs, text, size)
    ensures |fs| == |bs| > 0
  {
    hide BlockAt, Near, Before, OwnBits, SentOk, TextEnd;
  }

  lemma NoneBefore(t: StaticTables, fs: seq<SentBlock>)
    requires AllSent(t, fs)
    ensures Before(t, fs, 0) == []
  {
  }

  // ---- from the compressor to the text ----

  lemma {:induction false} SameEnd(ts: seq<Token>, text: seq<Byte>, e: int)
    requires 0 <= e <= |text| && ExpandsTo(ts, text[..e]) && ExpandsTo(ts, text)
    ensures e == |text|
  {
    hide ExpandsTo;
    ExpansionUnique(ts, text[..e], text);
  }

  /** Its blocks make up the text. */
  lemma {:induction false} FinishedBlocks(d: Deflater, size: nat)
    requires Finished(d) && MaxDist(d.m.wSize) <= size
    ensures TextEnd(d.blocks, |d.blocks|) == |d.m.text| && CanSend(d.blocks)
    ensures forall k :: 0 <= k < |d.blocks| ==> BlockAt(d.blocks, d.m.text, k) && Near(d.blocks[k].tokens, size)
  {
    hide ExpandsTo, BlocksOk, Flat, BlockAt, ValidToken, InReach, Near, TextEnd, MarkOk;
    var bs, text, end := d.blocks, d.m.text, d.m.base + d.m.blockStart;
    assert Flat(bs) + [] == Flat(bs) && text[..|text|] == text;
    EndIs(bs, text, end);
    ExpandOk(bs, text, end);
    SameEnd(Flat(bs), text, end);
    forall k | 0 <= k < |bs| ensures BlockAt(bs, text, k) && Near(bs[k].tokens, size) && BlockCanSend(bs[k])
        && (k < |bs| - 1 ==> !bs[k].last) {
      BlockIs(bs, text, end, k);
      TokensInReach(bs, k, MaxDist(d.m.wSize), size);
      if k < |bs| - 1 { NotLastAt(bs, text, k); }
      StoredFits(bs, text, k);
    }
  }

  lemma StoredFits(bs: seq<Flushed>, text: seq<Byte>, k: nat)
    requires k < |bs| && BlockAt(bs, text, k)
    ensures (bs[k].stored.Some? ==> |bs[k].stored.value| <= 0xffff) && MarkOk(bs[k])
  {
    hide ExpandsTo, Flat, TextEnd, MarkOk;
  }

  lemma SentForIs(d: Deflater, t: StaticTables, fs: seq<SentBlock>, size: nat)
    requires Finished(d) && MaxDist(d.m.wSize) <= size && AllSent(t, fs) && Aligned(t, fs) && Matching(fs, d.blocks)
        && |fs| == |d.blocks|
    requires |Before(t, fs, |fs|)| % 8 == 0
    ensures SentFor(t, fs, d.blocks, d.m.text, size)
  {
    hide BlockAt, Near, Before, AllSent, Aligned, Matching, TextEnd, CanSend;
    FinishedBlocks(d, size);
  }

  /** The input of inflate in pieces of the given sizes. */
  function CutUp(z: seq<Byte>, cuts: seq<nat>): seq<seq<Byte>>
    decreases |cuts|
  {
    if cuts == [] || cuts[0] > |z| then [z] else [z[..cuts[0]]] + CutUp(z[cuts[0]..], cuts[1..])
  }

  lemma {:induction false} CutKeeps(z: seq<Byte>, cuts: seq<nat>)
    ensures PieceStream(CutUp(z, cuts)) == StreamBits(z)
    decreases |cuts|
  {
    hide StreamBits;
    if cuts == [] || cuts[0] > |z| {
      assert [z][1..] == [];
      assert StreamBits(z) + [] == StreamBits(z);
    } else {
      var a, b := z[..cuts[0]], z[cuts[0]..];
      CutKeeps(b, cuts[1..]);
      assert z == a + b;
      StreamJoined(a, b);
      var p := CutUp(z, cuts);
      assert p[0] == a && p[1..] == CutUp(b, cuts[1..]);
    }
  }

  /** Sends the blocks of a compressor that has finished, whatever calls brought it there. */
  method SendAll(d: Deflater, fixed: bool)
    returns (z: seq<Byte>, tree: TreeState, ghost fs: seq<SentBlock>)
    requires Finished(d)
    ensures fresh(tree) && TablesOk(tree.tables) && AllSent(tree.tables, fs)
        && StreamBits(z) == Before(tree.tables, fs, |fs|) && BestForms(tree.tables, fs, d.blocks, fixed)
    ensures forall size: nat :: MaxDist(d.m.wSize) <= size ==> SentFor(tree.tables, fs, d.blocks, d.m.text, size)
  {
    hide *;
    tree := NewTreeState();
    tree.StaticParts();
    var sink := new BitSink();
    FinishedParts(d);
    FinishedBlocks(d, MaxDist(d.m.wSize));
    fs := SendBlocks(tree, sink, d.blocks, fixed);
    z := sink.out;
    StreamLength(z);
    forall size: nat | MaxDist(d.m.wSize) <= size ensures SentFor(tree.tables, fs, d.blocks, d.m.text, size) {
      SentForIs(d, tree.tables, fs, size);
    }
  }

  lemma FinishedParts(d: Deflater)
    requires Finished(d)
    ensures d.blocks != [] && d.blocks[|d.blocks| - 1].last && MaxDist(d.m.wSize) >= 0
  {
    hide Covered, BlocksOk;
  }

  /** Reads a stream of bytes, cut into pieces, into buffers of the given sizes. */
  method ReadAll(z: seq<Byte>, cuts: seq<nat>, rooms: seq<nat>, windowSize: nat, ghost t: StaticTables,
      ghost fs: seq<SentBlock>, ghost bs: seq<Flushed>, ghost text: seq<Byte>)
    returns (r: BlockEnd, h: History, k: Sink)
    requires windowSize > 0 && rooms != [] && SentFor(t, fs, bs, text, windowSize) && AllSent(t, fs)
        && StreamBits(z) == Before(t, fs, |fs|)
    ensures h.Valid() && ValidSink(k, h) && Restored(r, text, Output(h, k), Rooms(rooms))
  {
    hide *;
    var source := new BitSource(CutUp(z, cuts));
    CutKeeps(z, cuts);
    h := new History(windowSize);
    var out := new Byte[rooms[0]](_ => 0);
    var k0 := Sink(out, 0, rooms[1..]);
    var lens, codes, work := new int[320], new Entry[1444](_ => INVALID), new int[288];
    StartEmpty(h, k0, rooms);
    assert Before(t, fs, |fs|) + [] == Before(t, fs, |fs|);
    r, k := ReadBlocks(source, h, k0, lens, codes, work, t, fs, bs, text, []);
  }

  lemma StartEmpty(h: History, k: Sink, rooms: seq<nat>)
    requires h.done == [] && k.put == 0 && k.out != h.window && rooms != [] && k.out.Length == rooms[0]
        && k.rooms == rooms[1..]
    ensures ValidSink(k, h) && Output(h, k) == [] && Capacity(h, k) == Rooms(rooms)
  {
    assert k.out[..0] == [];
  }

  /** deflate and inflate: the bytes z are the blocks of the whole input, with the tokens that the
      rules of the level give and each in the shortest form, and from them the text comes back, for
      every input, every division of the input, of the compressed bytes and of the output into calls,
      every flush and every window that is large enough; or as much of it as there is room for. */
  method DeflateInflate(pieces: seq<seq<Byte>>, flushes: seq<Flush>, full: nat -> (nat -> bool), ends: seq<nat -> bool>,
      wSize: nat, hashBits: nat, config: Config, filtered: bool, litBufsize: int, lazy: bool, fixed: bool,
      cuts: seq<nat>, rooms: seq<nat>, windowSize: nat)
    returns (z: seq<Byte>, r: BlockEnd, h: History, k: Sink, ghost t: StaticTables, ghost fs: seq<SentBlock>,
      ghost bs: seq<Flushed>)
    requires 512 <= wSize <= 32768 && hashBits >= 8 && ValidConfig(config) && litBufsize >= 2 && rooms != []
        && windowSize >= wSize
    requires |flushes| == |pieces| && Finish !in flushes
    ensures TablesOk(t) && SentFor(t, fs, bs, Join(pieces), windowSize) && AllSent(t, fs)
        && StreamBits(z) == Before(t, fs, |fs|) && BestForms(t, fs, bs, fixed)
    ensures RunOver(MatchRules.Rules(lazy, hashBits, wSize, config, filtered), Join(pieces),
        FlushPlaces(pieces, flushes) + {|Join(pieces)|}, ResetPlaces(pieces, flushes), bs, litBufsize - 1)
    ensures h.Valid() && ValidSink(k, h) && Restored(r, Join(pieces), Output(h, k), Rooms(rooms))
  {
    hide Finished, SentFor, AllSent, Before, Restored, Join, TablesOk, RunOver, FlushPlaces,
      ResetPlaces, BestForms;
    var d := DeflateAll(pieces, flushes, full, ends, wSize, hashBits, config, filtered, litBufsize, lazy);
    var tree;
    z, tree, fs := SendAll(d, fixed);
    t, bs := tree.tables, d.blocks;
    r, h, k := ReadAll(z, cuts, rooms, windowSize, t, fs, bs, Join(pieces));
  }
}

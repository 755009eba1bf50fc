/** A whole raw deflate stream: the blocks of the compressor, sent one after another, are read
    back as the text, whatever forms the blocks take and however input and output are cut. */
module RawDeflate {
  import opened Bytes
  import opened Bits
  import opened LsbBits
  import opened Lz77
  import opened DeflateCodes
  import opened InflateTable
  import opened DeflateBody
  import opened InflateItems
  import opened InflateBlock
  import opened TreeSender
  import opened TreeReceiver
  import opened TreeRoundTrip
  import opened StoredBlocks
  import opened FixedCodes
  import opened BlockForms
  import opened InflateStream
  import BlockWriting
  import FastItems
  import opened LengthCodes

  // ---- one block is read ----

  /** Tables of inflate_table for complete codes. */
  lemma {:induction false} TablesOfCoder(c: Coder, ts: seq<Token>, t: Tables)
    requires AllCodable(c, ts) && Complete(c.llens) && Complete(c.dlens) && BuiltFor(t, c.llens, c.dlens)
    ensures TablesFor(c, t)
  {
    hide Finished, LengthTables, DistanceTables, Codable;
    CompleteNotEmpty(c.llens);
    CompleteNotEmpty(c.dlens);
    hide Complete, NotOver;
  }

  /** The text before and after a block of tokens. */
  ghost predicate Tells(before: seq<Token>, ts: seq<Token>, text: seq<Byte>, next: seq<Byte>) {
    ExpandsTo(before, text) && ExpandsTo(before + ts, next)
  }

  /** Any block that was sent is read back, or the room ended before. */
  ghost predicate ReadBack(r: BlockEnd, last: bool, more: seq<bool>, next: seq<Byte>, text1: seq<Byte>,
      rest: seq<bool>) {
    || (r == AllRead(last) && text1 == next && rest == more)
    || (r == Broken(OutOfRoom) && text1 < next)
  }

  /** The body of a block, read with such tables. */
  lemma {:induction false} BodyIsRead(r: BlockEnd, last: bool, size: nat, t: Tables, c: Coder, before: seq<Token>,
      ts: seq<Token>, more: seq<bool>, text: seq<Byte>, next: seq<Byte>, text1: seq<Byte>, rest: seq<bool>)
    requires TablesFor(c, t) && AllCodable(c, ts) && Near(ts, size) && Tells(before, ts, text, next)
    requires BodyMeans(r, last, size, t, BodyBits(c, ts, 0) + more, text, text1, rest)
    ensures ReadBack(r, last, more, next, text1, rest)
  {
    hide TablesFor, AllCodable, Near, ExpandsTo, Run, Good, BodyBits;
    TablesAreGood(c, t);
    assert before + ts[..0] == before;
    BodyRuns(c, t, before, ts, 0, text, next, more, size);
  }

  lemma KindOf(kind: nat, last: bool, more: seq<bool>)
    requires kind <= 4 && kind % 2 == 0
    ensures var b := LowBits(kind + Digit(last), 3) + more;
      |b| >= 3 && b[0] == last && LowVal(b[1..3]) == kind / 2 && b[3..] == more
  {
    var l := LowBits(kind + Digit(last), 3);
    var v := kind + Digit(last);
    assert l == [v % 2 == 1] + LowBits(v / 2, 2);
    assert v / 2 == kind / 2 && (v % 2 == 1 <==> last);
    assert (l + more)[1..3] == LowBits(v / 2, 2);
    assert Pow2(2) == 4;
    ValOfLow(v / 2, 2);
  }

  lemma {:induction false} FixedIsRead(r: BlockEnd, t: StaticTables, size: nat, before: seq<Token>, ts: seq<Token>,
      last: bool, more: seq<bool>, text: seq<Byte>, next: seq<Byte>, text1: seq<Byte>, rest: seq<bool>)
    requires AllCodable(FixedCoder(t), ts) && Near(ts, size) && Tells(before, ts, text, next)
    requires FixedBlockMeans(r, last, size, BodyBits(FixedCoder(t), ts, 0) + more, text, text1, rest)
    ensures ReadBack(r, last, more, next, text1, rest)
  {
    hide AllCodable, Near, Tells, BodyMeans, BodyBits, FixedLens, FixedDists, BuiltFor, Complete;
    var c := FixedCoder(t);
    var u: Tables :| BuiltFor(u, FixedLens(), FixedDists())
        && BodyMeans(r, last, size, u, BodyBits(c, ts, 0) + more, text, text1, rest);
    FixedComplete();
    TablesOfCoder(c, ts, u);
    BodyIsRead(r, last, size, u, c, before, ts, more, text, next, text1, rest);
  }

  lemma {:induction false} DynamicIsRead(r: BlockEnd, t: StaticTables, size: nat, l: seq<int>, d: seq<int>,
      bll: seq<int>, n: nat, before: seq<Token>, ts: seq<Token>, last: bool, more: seq<bool>, text: seq<Byte>,
      next: seq<Byte>, text1: seq<Byte>, rest: seq<bool>)
    requires TreesOk(l, d, bll, n) && AllCodable(DynamicCoder(t, l, d), ts) && Near(ts, size)
        && Tells(before, ts, text, next)
    requires TreeBlockMeans(r, last, size, HeaderBits(l, d, bll, n) + (BodyBits(DynamicCoder(t, l, d), ts, 0) + more),
        text, text1, rest)
    ensures ReadBack(r, last, more, next, text1, rest)
  {
    hide AllCodable, Near, Tells, BodyMeans, BodyBits, HeaderBits, BuiltFor, Complete, Means, HeaderReady;
    var c := DynamicCoder(t, l, d);
    var after := BodyBits(c, ts, 0) + more;
    var e: HeaderEnd, m: Header :| Means(HeaderBits(l, d, bll, n) + after, m) && Agrees(e, m)
        && TreeBodyMeans(r, last, size, e, m, text, text1, rest);
    HeaderIsRead(l, d, bll, n, after, m);
    if e == HeaderOk {
      var u: Tables :| BuiltFor(u, m.llens, m.dlens) && BodyMeans(r, last, size, u, m.rest, text, text1, rest);
      TablesOfCoder(c, ts, u);
      BodyIsRead(r, last, size, u, c, before, ts, more, text, next, text1, rest);
    }
  }

  lemma {:induction false} StoredLength(data: seq<Byte>)
    requires |data| <= 0xffff
    ensures |StoredBits(data)| % 8 == 0
  {
    hide StreamBits, LowBits;
    FastItems.StreamLength(data);
  }

  lemma {:induction false} StoredBlockIsRead(r: BlockEnd, pad: nat, data: seq<Byte>, last: bool, more: seq<bool>,
      text: seq<Byte>, text1: seq<Byte>, rest: seq<bool>)
    requires pad < 8 && |data| <= 0xffff && |more| % 8 == 0
    requires StoredBlockMeans(r, last, LowBits(0, pad) + (StoredBits(data) + more), text, text1, rest)
    ensures ReadBack(r, last, more, text + data, text1, rest)
  {
    hide StoredMeans, StoredBits, LowBits;
    StoredLength(data);
    var b := LowBits(0, pad) + (StoredBits(data) + more);
    assert |b| % 8 == pad;
    assert Align(b) == StoredBits(data) + more;
    var e: StoredEnd :| StoredMeans(e, Align(b), text, text1, rest) && r == OfStored(e, last);
    StoredIsRead(e, data, more, text, text1, rest);
  }

  /** A form goes with the text: stored bytes are those that the tokens add. */
  ghost predicate FormTells(t: StaticTables, f: Form, ts: seq<Token>, text: seq<Byte>, next: seq<Byte>) {
    FormOk(t, f, ts) && (f.StoredForm? ==> next == text + f.data) && text <= next
  }

  lemma {:induction false} BlockIsRead(r: BlockEnd, t: StaticTables, f: Form, size: nat, before: seq<Token>,
      ts: seq<Token>, last: bool, more: seq<bool>, text: seq<Byte>, next: seq<Byte>, text1: seq<Byte>, rest: seq<bool>)
    requires FormTells(t, f, ts, text, next) && Near(ts, size) && Tells(before, ts, text, next)
        && (f.StoredForm? ==> |more| % 8 == 0)
    requires BlockMeans(r, size, FormBits(t, f, ts, last) + more, text, text1, rest)
    ensures ReadBack(r, last, more, next, text1, rest)
  {
    hide AllCodable, Near, Tells, BodyBits, HeaderBits, TreesOk, HeaderReady, StoredBits, LowBits, LowVal,
        StoredBlockMeans, FixedBlockMeans, TreeBlockMeans, BlockMeans;
    var b := FormBits(t, f, ts, last) + more;
    match f {
      case StoredForm(pad, data) =>
        var after := LowBits(0, pad) + (StoredBits(data) + more);
        Digits(last);
        KindOf(0, last, after);
        assert b == LowBits(Digit(last), 3) + after;
        MeansByType(r, size, b, text, text1, rest);
        StoredBlockIsRead(r, pad, data, last, more, text, text1, rest);
      case FixedForm =>
        var after := BodyBits(FixedCoder(t), ts, 0) + more;
        KindOf(2, last, after);
        assert b == LowBits(2 + Digit(last), 3) + after;
        MeansByType(r, size, b, text, text1, rest);
        FixedIsRead(r, t, size, before, ts, last, more, text, next, text1, rest);
      case DynamicForm(l, d, bll, n) =>
        DynamicBlockIsRead(r, t, size, l, d, bll, n, before, ts, last, more, text, next, text1, rest);
    }
  }

  lemma Digits(last: bool)
    ensures 0 + Digit(last) == Digit(last)
  {
  }

  lemma {:induction false} DynamicBlockIsRead(r: BlockEnd, t: StaticTables, size: nat, l: seq<int>, d: seq<int>,
      bll: seq<int>, n: nat, before: seq<Token>, ts: seq<Token>, last: bool, more: seq<bool>, text: seq<Byte>,
      next: seq<Byte>, text1: seq<Byte>, rest: seq<bool>)
    requires TreesOk(l, d, bll, n) && AllCodable(DynamicCoder(t, l, d), ts) && Near(ts, size)
        && Tells(before, ts, text, next) && text <= next
    requires BlockMeans(r, size, FormBits(t, DynamicForm(l, d, bll, n), ts, last) + more, text, text1, rest)
    ensures ReadBack(r, last, more, next, text1, rest)
  {
    hide *;
    var c := DynamicCoder(t, l, d);
    BlockWriting.DynamicFormIs(t, l, d, bll, n, ts, last);
    TreeSizes(l, d, bll, n);
    var after := HeaderBits(l, d, bll, n) + (BodyBits(c, ts, 0) + more);
    KindOf(4, last, after);
    var b := FormBits(t, DynamicForm(l, d, bll, n), ts, last) + more;
    JoinParts(LowBits(4 + Digit(last), 3), HeaderBits(l, d, bll, n), BodyBits(c, ts, 0), more);
    MeansByType(r, size, b, text, text1, rest);
    DynamicIsRead(r, t, size, l, d, bll, n, before, ts, last, more, text, next, text1, rest);
  }

  lemma TreeSizes(l: seq<int>, d: seq<int>, bll: seq<int>, n: nat)
    requires TreesOk(l, d, bll, n)
    ensures |l| >= 1 && |d| >= 1
  {
    hide HeaderReady, Complete;
  }

  lemma JoinParts(a: seq<bool>, b: seq<bool>, c: seq<bool>, more: seq<bool>)
    ensures a + b + c + more == a + (b + (c + more))
  {
  }
}

/** The TYPE state of inflate.c and what follows it: a raw deflate stream, block after block. */
module InflateStream {
  import opened Bytes
  import opened Bits
  import opened LsbBits
  import opened DeflateBits
  import opened DecodingTable
  import opened FastItems
  import opened InflateItems
  import opened InflateWindow
  import opened InflateCopy
  import opened InflateBlock
  import opened StoredBlocks
  import opened TreeReceiver
  import opened FixedCodes
  import opened Lz77
  import InflateTable
  import LengthRuns

  /** Why a block is not read to its end. */
  datatype Why = BadType | BadStored | BadHeader(e: HeaderEnd) | BadBody(end: End) | OutOfInput | OutOfRoom

  datatype BlockEnd = AllRead(last: bool) | Broken(why: Why)

  /** The bits from the next byte boundary on. */
  function Align(b: seq<bool>): seq<bool> { b[|b| % 8..] }

  function OfStored(e: StoredEnd, last: bool): BlockEnd {
    match e
    case StoredOk => AllRead(last)
    case InvalidLengths => Broken(BadStored)
    case StoredStarved => Broken(OutOfInput)
    case StoredStalled => Broken(OutOfRoom)
  }

  function OfBody(f: Finish, last: bool): BlockEnd {
    match f
    case Stalled => Broken(OutOfRoom)
    case Reached(end) => if end == Ended then AllRead(last) else if end == Starved then Broken(OutOfInput)
        else Broken(BadBody(end))
  }

  /** The body of a block with the tables c. */
  ghost predicate BodyMeans(r: BlockEnd, last: bool, size: nat, c: Tables, b: seq<bool>, text: seq<Byte>,
      text1: seq<Byte>, rest: seq<bool>) {
    Good(c) && exists f: Finish :: Outcome(Run(c, b, text), size, f, text1, rest) && r == OfBody(f, last)
  }

  ghost predicate StoredBlockMeans(r: BlockEnd, last: bool, b: seq<bool>, text: seq<Byte>, text1: seq<Byte>,
      rest: seq<bool>) {
    exists e: StoredEnd :: StoredMeans(e, Align(b), text, text1, rest) && r == OfStored(e, last)
  }

  ghost predicate FixedBlockMeans(r: BlockEnd, last: bool, size: nat, b: seq<bool>, text: seq<Byte>, text1: seq<Byte>,
      rest: seq<bool>) {
    exists c: Tables :: BuiltFor(c, FixedLens(), FixedDists()) && BodyMeans(r, last, size, c, b, text, text1, rest)
  }

  /** A block with a header: one that is refused, or trees and a body. */
  ghost predicate TreeBlockMeans(r: BlockEnd, last: bool, size: nat, b: seq<bool>, text: seq<Byte>, text1: seq<Byte>,
      rest: seq<bool>) {
    exists e: HeaderEnd, m: Header :: Means(b, m) && Agrees(e, m)
        && TreeBodyMeans(r, last, size, e, m, text, text1, rest)
  }

  ghost predicate TreeBodyMeans(r: BlockEnd, last: bool, size: nat, e: HeaderEnd, m: Header, text: seq<Byte>,
      text1: seq<Byte>, rest: seq<bool>) {
    if e != HeaderOk then r == Broken(if e == HeaderShort then OutOfInput else BadHeader(e)) && text1 == text
    else m.Trees? && exists c: Tables ::
      BuiltFor(c, m.llens, m.dlens) && BodyMeans(r, last, size, c, m.rest, text, text1, rest)
  }

  /** What the bits b mean as one block, after the given text, to a decoder with a window of the
      given size: how it ends, the text then, and the bits behind. */
  ghost predicate BlockMeans(r: BlockEnd, size: nat, b: seq<bool>, text: seq<Byte>, text1: seq<Byte>, rest: seq<bool>) {
    if |b| < 3 then r == Broken(OutOfInput) && text1 == text
    else
      var last, kind, after := b[0], LowVal(b[1..3]), b[3..];
      if kind == 0 then StoredBlockMeans(r, last, after, text, text1, rest)
      else if kind == 1 then FixedBlockMeans(r, last, size, after, text, text1, rest)
      else if kind == 2 then TreeBlockMeans(r, last, size, after, text, text1, rest)
      else r == Broken(BadType) && text1 == text
  }

  // ---- one block ----

  lemma {:induction false} PieceBytes(pieces: seq<seq<Byte>>)
    ensures |PieceStream(pieces)| % 8 == 0
  {
    hide StreamBits;
    if pieces != [] {
      PieceBytes(pieces[1..]);
      StreamLength(pieces[0]);
    }
  }

  /** Input comes in whole bytes. */
  lemma {:induction false} BitsModEight(source: BitSource)
    requires source.Valid() && source.bits < 8
    ensures |source.Coming()| % 8 == source.bits
  {
    hide StreamBits, LowVal;
    PieceBytes(source.later);
    StreamLength(source.input[source.nextIn..]);
  }

  lemma TypeParts(b: seq<bool>, b1: seq<bool>, b3: seq<bool>)
    requires |b| >= 3 && b1 == b[1..] && b3 == b1[2..]
    ensures LowVal(b[..1]) == Digit(b[0]) && b1[..2] == b[1..3] && b3 == b[3..]
  {
    assert b[..1] == [b[0]] && b[..1][1..] == [];
  }

  lemma KindRange(b: seq<bool>)
    requires |b| == 2
    ensures 0 <= LowVal(b) <= 3
  {
    LowBound(b);
    assert Pow2(2) == 4;
  }

  lemma BodyIs(f: Finish, last: bool, size: nat, c: Tables, b: seq<bool>, text: seq<Byte>, text1: seq<Byte>,
      rest: seq<bool>)
    requires Good(c) && Outcome(Run(c, b, text), size, f, text1, rest)
    ensures BodyMeans(OfBody(f, last), last, size, c, b, text, text1, rest)
  {
    hide Good, Outcome, Run;
  }

  /** The body, once the tables are there. */
  method BodyOf(source: BitSource, h: History, k: Sink, c: Tables, last: bool) returns (r: BlockEnd, k1: Sink)
    requires source.Valid() && Good(c) && source.bits < 8 && h.Valid() && ValidSink(k, h)
    modifies source, h`wsize, h`wnext, h`whave, h`done, h.window, k.out
    ensures source.Valid() && h.Valid() && ValidSink(k1, h) && (k1.out == k.out || fresh(k1.out))
        && (r.AllRead? ==> source.bits < 8 && r.last == last)
    ensures BodyMeans(r, last, h.size, c, old(source.Coming()), old(Output(h, k)), Output(h, k1), source.Coming())
    ensures Capacity(h, k1) == old(Capacity(h, k)) && (r == Broken(OutOfRoom) ==> Full(k1))
  {
    hide BodyMeans, Outcome, Run, Good, Capacity, BitSource.Valid, BitSource.Coming, History.Valid, Text;
    ghost var b, text := source.Coming(), Output(h, k);
    var f;
    f, k1 := InflateBody(source, h, k, c);
    BodyIs(f, last, h.size, c, b, text, Output(h, k1), source.Coming());
    r := OfBody(f, last);
  }

  lemma FixedIs(r: BlockEnd, last: bool, size: nat, c: Tables, b: seq<bool>, text: seq<Byte>, text1: seq<Byte>,
      rest: seq<bool>)
    requires BuiltFor(c, FixedLens(), FixedDists()) && BodyMeans(r, last, size, c, b, text, text1, rest)
    ensures FixedBlockMeans(r, last, size, b, text, text1, rest)
  {
    hide BuiltFor, BodyMeans, FixedLens, FixedDists;
  }

  lemma TreeIs(r: BlockEnd, last: bool, size: nat, e: HeaderEnd, m: Header, b: seq<bool>, text: seq<Byte>,
      text1: seq<Byte>, rest: seq<bool>)
    requires Means(b, m) && Agrees(e, m) && TreeBodyMeans(r, last, size, e, m, text, text1, rest)
    ensures TreeBlockMeans(r, last, size, b, text, text1, rest)
  {
    hide Means, Agrees, TreeBodyMeans;
  }

  lemma StoredIs(e: StoredEnd, last: bool, b: seq<bool>, n: nat, text: seq<Byte>, text1: seq<Byte>, rest: seq<bool>)
    requires n == |b| % 8 && StoredMeans(e, b[n..], text, text1, rest)
    ensures StoredBlockMeans(OfStored(e, last), last, b, text, text1, rest)
  {
    hide StoredMeans;
    assert Align(b) == b[n..];
  }

  lemma BadHeaderIs(size: nat, last: bool, e: HeaderEnd, m: Header, text: seq<Byte>, rest: seq<bool>)
    requires e != HeaderOk
    ensures TreeBodyMeans(Broken(if e == HeaderShort then OutOfInput else BadHeader(e)), last, size, e, m, text, text,
        rest)
  {
  }

  lemma GoodHeaderIs(r: BlockEnd, last: bool, size: nat, e: HeaderEnd, m: Header, c: Tables, coming: seq<bool>,
      text: seq<Byte>, text1: seq<Byte>, rest: seq<bool>)
    requires HeaderDone(e, m, c, coming) && e == HeaderOk && BodyMeans(r, last, size, c, coming, text, text1, rest)
    ensures TreeBodyMeans(r, last, size, e, m, text, text1, rest)
  {
    hide BodyMeans, BuiltFor, Agrees, Good;
  }

  lemma DoneAgrees(e: HeaderEnd, m: Header, c: Tables, coming: seq<bool>)
    requires HeaderDone(e, m, c, coming)
    ensures Agrees(e, m) && (e == HeaderOk ==> Good(c))
  {
    hide Agrees, BuiltFor, Good;
  }

  /** A block with a header. */
  method TreeBlock(source: BitSource, h: History, k: Sink, lens: array<int>, codes: array<Entry>, work: array<int>,
      last: bool) returns (r: BlockEnd, k1: Sink)
    requires source.Valid() && source.bits < 8 && h.Valid() && ValidSink(k, h)
    requires lens.Length >= 320 && codes.Length >= 1444 && work.Length >= 288 && lens != work
    modifies source, h`wsize, h`wnext, h`whave, h`done, h.window, k.out, lens, codes, work
    ensures source.Valid() && h.Valid() && ValidSink(k1, h) && (k1.out == k.out || fresh(k1.out))
        && (r.AllRead? ==> source.bits < 8 && r.last == last)
    ensures TreeBlockMeans(r, last, h.size, old(source.Coming()), old(Output(h, k)), Output(h, k1), source.Coming())
    ensures Capacity(h, k1) == old(Capacity(h, k)) && (r == Broken(OutOfRoom) ==> Full(k1))
  {
    hide Capacity, TreeBlockMeans, TreeBodyMeans, BodyMeans, Means, HeaderDone, Agrees, Good, BitSource.Valid,
        BitSource.Coming, History.Valid, Text;
    ghost var b, text := source.Coming(), Output(h, k);
    var e, c;
    ghost var m;
    e, c, m := TableStates(source, lens, codes, work);
    DoneAgrees(e, m, c, source.Coming());
    if e != HeaderOk {
      k1 := k;
      r := Broken(if e == HeaderShort then OutOfInput else BadHeader(e));
      BadHeaderIs(h.size, last, e, m, text, source.Coming());
    } else {
      ghost var coming := source.Coming();
      r, k1 := BodyOf(source, h, k, c, last);
      GoodHeaderIs(r, last, h.size, e, m, c, coming, text, Output(h, k1), source.Coming());
    }
    TreeIs(r, last, h.size, e, m, b, text, Output(h, k1), source.Coming());
  }

  // ---- bits are used up ----

  lemma {:induction false} RunShrinks(c: Tables, b: seq<bool>, text: seq<Byte>)
    requires Good(c)
    ensures |Run(c, b, text).rest| <= |b|
    decreases |b|
  {
    hide Good, ReadItem, Copied;
    ItemProgress(c, b);
    var r := ReadItem(c, b);
    if r.item.Got? {
      match r.item.token {
        case Literal(x) => RunShrinks(c, r.rest, text + [x]);
        case Match(length, dist) => if dist <= |text| { RunShrinks(c, r.rest, Copied(text, dist, length)); }
      }
    }
  }

  lemma {:induction false} LengthsShrink(ct: seq<Entry>, croot: nat, have: seq<int>, total: nat, b: seq<bool>)
    ensures var r := ReadLengths(ct, croot, have, total, b); r.AllLengths? ==> |r.rest| <= |b|
    decreases |b|
  {
    hide ReadToken, LengthRuns.Accept;
    var r := ReadToken(ct, croot, b);
    if |have| < total && r.LengthReading? && |r.rest| < |b| && LengthRuns.Accept(have, r.t, total).More? {
      LengthsShrink(ct, croot, LengthRuns.Accept(have, r.t, total).lens, total, r.rest);
    }
  }

  lemma {:induction false} MeansShrinks(b: seq<bool>, m: Header)
    requires Means(b, m) && m.Trees?
    ensures |m.rest| <= |b|
  {
    hide Field, HasCode, CodeTable, InflateTable.Refused, ReadLengths, CodeLengthsOf;
    var ct: seq<Entry>, croot: nat :| m == Meaning(b, ct, croot);
    var nlen, ndist, ncode := Field(b, 0, 5) + 257, Field(b, 5, 5) + 1, Field(b, 10, 4) + 4;
    LengthsShrink(ct, croot, [], nlen + ndist, b[14 + 3 * ncode..]);
  }

  lemma {:induction false} BodyShrinks(r: BlockEnd, last: bool, size: nat, c: Tables, b: seq<bool>, text: seq<Byte>,
      text1: seq<Byte>, rest: seq<bool>)
    requires BodyMeans(r, last, size, c, b, text, text1, rest) && r.AllRead?
    ensures |rest| <= |b|
  {
    hide Good, Run;
    RunShrinks(c, b, text);
  }

  /** A block takes three bits at least. */
  lemma {:induction false} BlockShrinks(r: BlockEnd, size: nat, b: seq<bool>, text: seq<Byte>, text1: seq<Byte>,
      rest: seq<bool>)
    requires BlockMeans(r, size, b, text, text1, rest) && r.AllRead?
    ensures |rest| < |b|
  {
    hide BodyMeans, Means, Agrees, BuiltFor, StoredMeans, FixedLens, FixedDists, LowVal;
    var last, kind, after := b[0], LowVal(b[1..3]), b[3..];
    if kind == 0 {
      StoredShrinks(r, last, after, text, text1, rest);
    } else if kind == 1 {
      var c: Tables :| BuiltFor(c, FixedLens(), FixedDists()) && BodyMeans(r, last, size, c, after, text, text1, rest);
      BodyShrinks(r, last, size, c, after, text, text1, rest);
    } else if kind == 2 {
      TreeShrinks(r, last, size, after, text, text1, rest);
    }
  }

  lemma {:induction false} StoredShrinks(r: BlockEnd, last: bool, b: seq<bool>, text: seq<Byte>, text1: seq<Byte>,
      rest: seq<bool>)
    requires StoredBlockMeans(r, last, b, text, text1, rest) && r.AllRead?
    ensures |rest| <= |b|
  {
    hide LowVal, BytesOf;
    var e: StoredEnd :| StoredMeans(e, Align(b), text, text1, rest) && r == OfStored(e, last);
  }

  lemma {:induction false} TreeShrinks(r: BlockEnd, last: bool, size: nat, b: seq<bool>, text: seq<Byte>,
      text1: seq<Byte>, rest: seq<bool>)
    requires TreeBlockMeans(r, last, size, b, text, text1, rest) && r.AllRead?
    ensures |rest| <= |b|
  {
    hide BodyMeans, Means, Agrees, BuiltFor;
    var e: HeaderEnd, m: Header :| Means(b, m) && Agrees(e, m) && TreeBodyMeans(r, last, size, e, m, text, text1, rest);
    MeansShrinks(b, m);
    var c: Tables :| BuiltFor(c, m.llens, m.dlens) && BodyMeans(r, last, size, c, m.rest, text, text1, rest);
    BodyShrinks(r, last, size, c, m.rest, text, text1, rest);
  }

  // ---- the loop ----

  lemma ShortBlock(size: nat, b: seq<bool>, text: seq<Byte>, rest: seq<bool>)
    requires |b| < 3
    ensures BlockMeans(Broken(OutOfInput), size, b, text, text, rest)
  {
  }

  /** The cases of BlockMeans, for a block whose type is known. */
  lemma MeansByType(r: BlockEnd, size: nat, b: seq<bool>, text: seq<Byte>, text1: seq<Byte>, rest: seq<bool>)
    requires |b| >= 3
    ensures BlockMeans(r, size, b, text, text1, rest) <==>
            if LowVal(b[1..3]) == 0 then StoredBlockMeans(r, b[0], b[3..], text, text1, rest)
            else if LowVal(b[1..3]) == 1 then FixedBlockMeans(r, b[0], size, b[3..], text, text1, rest)
            else if LowVal(b[1..3]) == 2 then TreeBlockMeans(r, b[0], size, b[3..], text, text1, rest)
            else r == Broken(BadType) && text1 == text
  {
    hide LowVal, StoredBlockMeans, FixedBlockMeans, TreeBlockMeans;
  }

  /** TYPEDO and the block that follows. */
  method OneBlock(source: BitSource, h: History, k: Sink, lens: array<int>, codes: array<Entry>, work: array<int>)
    returns (r: BlockEnd, k1: Sink)
    requires source.Valid() && source.bits < 8 && h.Valid() && ValidSink(k, h)
    requires lens.Length >= 320 && codes.Length >= 1444 && work.Length >= 288 && lens != work
    modifies source, h`wsize, h`wnext, h`whave, h`done, h.window, k.out, lens, codes, work
    ensures source.Valid() && h.Valid() && ValidSink(k1, h) && (k1.out == k.out || fresh(k1.out))
        && (r.AllRead? ==> source.bits < 8)
    ensures BlockMeans(r, h.size, old(source.Coming()), old(Output(h, k)), Output(h, k1), source.Coming())
    ensures Capacity(h, k1) == old(Capacity(h, k)) && (r == Broken(OutOfRoom) ==> Full(k1))
  {
    hide Capacity, BlockMeans, StoredBlockMeans, FixedBlockMeans, TreeBlockMeans, StoredMeans, BodyMeans, Good,
        BuiltFor, BitSource.Valid, BitSource.Coming, History.Valid, Text, FixedLens, FixedDists, LowVal, OfStored;
    ghost var b, text := source.Coming(), Output(h, k);
    k1 := k;
    var ok := source.NeedBits(3);
    if !ok {
      ShortBlock(h.size, b, text, source.Coming());
      return Broken(OutOfInput), k1;
    }
    var lastBit := TakeLive(source, 1);
    ghost var b1 := source.Coming();
    var kind := TakeLive(source, 2);
    ghost var after := source.Coming();
    TypeParts(b, b1, after);
    KindRange(b[1..3]);
    var last := lastBit == 1;
    DigitIs(b[0]);
    BitsModEight(source);
    if kind == 0 {
      ghost var n := source.bits;
      var e;
      e, k1 := StoredState(source, h, k);
      StoredIs(e, last, after, n, text, Output(h, k1), source.Coming());
      r := OfStored(e, last);
      StoredWhole(e, last);
    } else if kind == 1 {
      var c := FixedTables(codes, work);
      r, k1 := BodyOf(source, h, k, c, last);
      FixedIs(r, last, h.size, c, after, text, Output(h, k1), source.Coming());
    } else if kind == 2 {
      r, k1 := TreeBlock(source, h, k, lens, codes, work, last);
    } else {
      r := Broken(BadType);
    }
    MeansByType(r, h.size, b, text, Output(h, k1), source.Coming());
  }

  lemma DigitIs(b: bool)
    ensures Digit(b) == 1 <==> b
  {
  }

  lemma StoredWhole(e: StoredEnd, last: bool)
    ensures (OfStored(e, last).AllRead? ==> e == StoredOk)
        && (OfStored(e, last) == Broken(OutOfRoom) ==> e == StoredStalled)
  {
  }

  /** A stand of the decoder between two blocks. */
  datatype Stand = Stand(b: seq<bool>, text: seq<Byte>)

  /** From one stand to the next, one block that is not the last. */
  ghost predicate Step(p: Stand, q: Stand, size: nat) {
    BlockMeans(AllRead(false), size, p.b, p.text, q.text, q.b)
  }

  /** The blocks that were read, one after another. */
  ghost predicate Steps(tr: seq<Stand>, size: nat) {
    |tr| > 0 && forall i, j :: 0 <= i < j < |tr| && j == i + 1 ==> Step(tr[i], tr[j], size)
  }

  lemma StepsStart(p: Stand, size: nat)
    ensures Steps([p], size)
  {
    hide Step;
  }

  lemma StepIs(p: Stand, q: Stand, size: nat)
    requires BlockMeans(AllRead(false), size, p.b, p.text, q.text, q.b)
    ensures Step(p, q, size)
  {
    hide BlockMeans;
  }

  lemma StepsMore(tr: seq<Stand>, q: Stand, size: nat)
    requires Steps(tr, size) && Step(tr[|tr| - 1], q, size)
    ensures Steps(tr + [q], size)
  {
    hide Step;
  }

  /** inflate on a raw stream: block after block until the last one, or until one cannot be read
      to its end; then the rest of the byte is dropped. */
  method Inflate(source: BitSource, h: History, k0: Sink, lens: array<int>, codes: array<Entry>, work: array<int>)
    returns (r: BlockEnd, k: Sink, ghost tr: seq<Stand>, ghost rest: seq<bool>)
    requires source.Valid() && source.bits < 8 && h.Valid() && ValidSink(k0, h)
    requires lens.Length >= 320 && codes.Length >= 1444 && work.Length >= 288 && lens != work
    modifies source, h`wsize, h`wnext, h`whave, h`done, h.window, k0.out, lens, codes, work
    ensures source.Valid() && h.Valid() && ValidSink(k, h) && (k.out == k0.out || fresh(k.out))
    ensures |tr| > 0 && Steps(tr, h.size) && tr[0] == Stand(old(source.Coming()), old(Output(h, k0)))
        && r != AllRead(false)
    ensures BlockMeans(r, h.size, tr[|tr| - 1].b, tr[|tr| - 1].text, Output(h, k), rest)
    ensures r.AllRead? ==> source.Coming() == Align(rest) && source.bits == 0
    ensures Capacity(h, k) == old(Capacity(h, k0)) && (r == Broken(OutOfRoom) ==> Full(k))
  {
    hide Capacity, BlockMeans, Step, Steps, Align, BitSource.Valid, BitSource.Coming, History.Valid, Text;
    k := k0;
    StepsStart(Stand(source.Coming(), Output(h, k)), h.size);
    tr := [Stand(source.Coming(), Output(h, k))];
    while true
      invariant source.Valid() && source.bits < 8 && h.Valid() && ValidSink(k, h) && (k.out == k0.out || fresh(k.out))
      invariant |tr| > 0 && Steps(tr, h.size) && tr[0] == Stand(old(source.Coming()), old(Output(h, k0)))
          && tr[|tr| - 1] == Stand(source.Coming(), Output(h, k))
      invariant Capacity(h, k) == old(Capacity(h, k0))
      decreases |source.Coming()|
    {
      ghost var b, text := source.Coming(), Output(h, k);
      r, k := OneBlock(source, h, k, lens, codes, work);
      rest := source.Coming();
      if r != AllRead(false) { break; }
      BlockShrinks(r, h.size, b, text, Output(h, k), rest);
      StepIs(tr[|tr| - 1], Stand(rest, Output(h, k)), h.size);
      StepsMore(tr, Stand(rest, Output(h, k)), h.size);
      tr := tr + [Stand(rest, Output(h, k))];
    }
    if r.AllRead? { DropRest(source); }
  }

  /** BYTEBITS, after the last block. */
  method DropRest(source: BitSource)
    requires source.Valid() && source.bits < 8
    modifies source
    ensures source.Valid() && source.bits == 0 && source.Coming() == Align(old(source.Coming()))
  {
    hide BitSource.Valid, BitSource.Coming, Align;
    ghost var rest := source.Coming();
    BitsModEight(source);
    source.LiveFirst();
    source.DropBits(source.bits % 8);
    AlignIs(rest, source.Coming());
  }

  lemma AlignIs(b: seq<bool>, b1: seq<bool>)
    requires b == b[..|b| % 8] + b1
    ensures b1 == Align(b)
  {
  }
}

/** What a full flush is for: the bytes behind it are a raw deflate stream of their own, which
    inflate reads without anything that stands before. */
module RestartPoints {
  import opened Bytes
  import opened LsbBits
  import opened DeflateBits
  import opened Lz77
  import opened DeflateBody
  import FastItems
  import opened InflateWindow
  import opened InflateBlock
  import opened BlockForms
  import opened InflateStream
  import opened LongestMatch
  import opened DeflateTally
  import opened Deflating
  import opened DeflateCalls
  import opened RawRoundTrip

  // ---- tokens and the text they stand for ----

  /** How many bytes tokens stand for. */
  function Span(ts: seq<Token>): int {
    if ts == [] then 0
    else Span(ts[..|ts| - 1]) + match ts[|ts| - 1] case Literal(_) => 1 case Match(length, _) => length
  }

  lemma {:induction false} SpanJoined(ts: seq<Token>, us: seq<Token>)
    ensures Span(ts + us) == Span(ts) + Span(us)
  {
    if us == [] {
      assert ts + us == ts;
    } else {
      SpanJoined(ts, us[..|us| - 1]);
      assert (ts + us)[..|ts + us| - 1] == ts + us[..|us| - 1];
    }
  }

  lemma {:induction false} SpanIs(ts: seq<Token>, text: seq<Byte>)
    requires ExpandsTo(ts, text)
    ensures Span(ts) == |text|
  {
    if ts != [] {
      match ts[|ts| - 1] {
        case Literal(b) => SpanIs(ts[..|ts| - 1], text[..|text| - 1]);
        case Match(length, dist) => SpanIs(ts[..|ts| - 1], text[..|text| - length]);
      }
    }
  }

  /** What tokens stand for begins with what the first of them stand for. */
  lemma {:induction false} FirstOf(ts: seq<Token>, us: seq<Token>, text: seq<Byte>)
    requires ExpandsTo(ts + us, text)
    ensures 0 <= Span(us) <= |text| && ExpandsTo(ts, text[..|text| - Span(us)])
  {
    var all := ts + us;
    if us == [] {
      assert all == ts && text[..|text|] == text;
    } else {
      var vs := us[..|us| - 1];
      assert all[..|all| - 1] == ts + vs && all[|all| - 1] == us[|us| - 1];
      match us[|us| - 1] {
        case Literal(b) =>
          var shorter := text[..|text| - 1];
          FirstOf(ts, vs, shorter);
          assert shorter[..|shorter| - Span(vs)] == text[..|text| - Span(us)];
        case Match(length, dist) =>
          var shorter := text[..|text| - length];
          FirstOf(ts, vs, shorter);
          assert shorter[..|shorter| - Span(vs)] == text[..|text| - Span(us)];
      }
    }
  }

  lemma {:induction false} FlatJoined(bs: seq<Flushed>, cs: seq<Flushed>)
    ensures Flat(bs + cs) == Flat(bs) + Flat(cs)
  {
    if cs == [] {
      assert bs + cs == bs && Flat(bs) + [] == Flat(bs);
    } else {
      var n := |cs| - 1;
      FlatJoined(bs, cs[..n]);
      assert (bs + cs)[..|bs + cs| - 1] == bs + cs[..n];
      assert Flat(bs) + Flat(cs[..n]) + cs[n].tokens == Flat(bs) + (Flat(cs[..n]) + cs[n].tokens);
    }
  }

  // ---- the bits behind a block ----

  lemma {:induction false} BehindBefore(t: StaticTables, fs: seq<SentBlock>, k: nat, j: nat)
    requires AllSent(t, fs) && k + j <= |fs| && AllSent(t, fs[k..])
    ensures Before(t, fs, k + j) == Before(t, fs, k) + Before(t, fs[k..], j)
  {
    hide SentOk, OwnBits, LowBits;
    if j == 0 {
      assert Before(t, fs, k) + [] == Before(t, fs, k);
    } else {
      BehindBefore(t, fs, k, j - 1);
      BeforeStep(t, fs, k + j - 1);
      BeforeStep(t, fs[k..], j - 1);
      var s := fs[k + j - 1];
      assert fs[k..][j - 1] == s;
      var a, b, c, d := Before(t, fs, k), Before(t, fs[k..], j - 1), OwnBits(t, s), LowBits(0, s.end);
      assert a + b + c + d == a + (b + c + d);
    }
  }

  /** A stored block that is not the last one ends at a byte boundary. */
  lemma {:induction false} MarkAligned(t: StaticTables, fs: seq<SentBlock>, k: nat)
    requires AllSent(t, fs) && Aligned(t, fs) && 0 < k <= |fs| && fs[k - 1].form.StoredForm? && !fs[k - 1].last
    ensures |Before(t, fs, k)| % 8 == 0
  {
    hide OwnBits, LowBits;
    BeforeStep(t, fs, k - 1);
    assert SentOk(t, fs[k - 1]);
    NoPad();
    assert Before(t, fs, k) == Before(t, fs, k - 1) + OwnBits(t, fs[k - 1]) + [];
  }

  // ---- the text behind a full flush ----

  lemma {:induction false} EndsAdd(bs: seq<Flushed>, k: nat, j: nat)
    requires k + j <= |bs|
    ensures TextEnd(bs, k + j) == TextEnd(bs, k) + TextEnd(bs[k..], j)
  {
    if j > 0 {
      EndsAdd(bs, k, j - 1);
      assert bs[k..][j - 1] == bs[k + j - 1];
    }
  }

  /** Each block ends where its tokens do. */
  lemma {:induction false} EndIsSpan(bs: seq<Flushed>, text: seq<Byte>, k: nat)
    requires k <= |bs| && forall i :: 0 <= i < |bs| ==> BlockAt(bs, text, i)
    ensures TextEnd(bs, k) == Span(Flat(bs[..k])) && 0 <= TextEnd(bs, k)
  {
    hide ExpandsTo, Flat, TextEnd, Span;
    if k == 0 {
      NoneSpan(bs);
      assert bs[..0] == [];
    } else {
      assert BlockAt(bs, text, k - 1);
      FlatMore(bs[..k - 1], bs[k - 1]);
      assert bs[..k] == bs[..k - 1] + [bs[k - 1]];
      SpanIs(Flat(bs[..k]), text[..TextEnd(bs, k)]);
    }
  }

  lemma NoneSpan(bs: seq<Flushed>)
    ensures TextEnd(bs, 0) == 0 && Flat([]) == [] && Span([]) == 0
  {
  }

  /** Tokens that stand by themselves stand for the text from where the others end. */
  lemma {:induction false} StandsFrom(bs: seq<Flushed>, text: seq<Byte>, k: nat, j: nat, rest: seq<Byte>)
    requires k + j <= |bs| && forall i :: 0 <= i < |bs| ==> BlockAt(bs, text, i)
    requires ExpandsTo(Flat(bs[k..]), rest)
    ensures 0 <= TextEnd(bs[k..], j) <= |rest| && ExpandsTo(Flat(bs[k..][..j]), rest[..TextEnd(bs[k..], j)])
  {
    hide ExpandsTo, Flat, TextEnd, Span, BlockAt;
    var cs := bs[k..];
    assert cs == cs[..j] + cs[j..];
    FlatJoined(cs[..j], cs[j..]);
    FirstOf(Flat(cs[..j]), Flat(cs[j..]), rest);
    SpanIs(Flat(cs[..j]), rest[..|rest| - Span(Flat(cs[j..]))]);
    EndIsSpan(bs, text, k);
    EndIsSpan(bs, text, k + j);
    EndsAdd(bs, k, j);
    assert bs[..k + j] == bs[..k] + cs[..j];
    FlatJoined(bs[..k], cs[..j]);
    SpanJoined(Flat(bs[..k]), Flat(cs[..j]));
  }

  /** What is said of a block, said of the blocks behind a full flush. */
  lemma {:induction false} BlockBehind(bs: seq<Flushed>, text: seq<Byte>, k: nat, j: nat, pos: nat)
    requires k + j < |bs| && (forall i :: 0 <= i < |bs| ==> BlockAt(bs, text, i)) && pos <= |text|
    requires TextEnd(bs, k) == pos && ExpandsTo(Flat(bs[k..]), text[pos..])
    ensures BlockAt(bs[k..], text[pos..], j)
  {
    hide ExpandsTo, Flat, TextEnd, BlockAt;
    var cs, rest := bs[k..], text[pos..];
    StandsFrom(bs, text, k, j, rest);
    StandsFrom(bs, text, k, j + 1, rest);
    EndsAdd(bs, k, j);
    EndsAdd(bs, k, j + 1);
    FlatMore(cs[..j], cs[j]);
    assert cs[..j + 1] == cs[..j] + [cs[j]];
    EndIsSpan(bs, text, k + j);
    assert cs[j] == bs[k + j];
    StoredBehind(bs, text, k, j, pos);
  }

  lemma {:induction false} StoredBehind(bs: seq<Flushed>, text: seq<Byte>, k: nat, j: nat, pos: nat)
    requires k + j < |bs| && BlockAt(bs, text, k + j) && pos <= |text| && bs[k..][j] == bs[k + j]
    requires TextEnd(bs, k + j) == pos + TextEnd(bs[k..], j) && TextEnd(bs, k + j + 1) == pos + TextEnd(bs[k..], j + 1)
    requires 0 <= TextEnd(bs[k..], j) <= |text[pos..]| && 0 <= TextEnd(bs[k..], j + 1) <= |text[pos..]|
    requires ExpandsTo(Flat(bs[k..][..j]), text[pos..][..TextEnd(bs[k..], j)])
    requires ExpandsTo(Flat(bs[k..][..j]) + bs[k..][j].tokens, text[pos..][..TextEnd(bs[k..], j + 1)])
    ensures BlockAt(bs[k..], text[pos..], j)
  {
    hide ExpandsTo, Flat, TextEnd, MarkOk;
    var a, b := TextEnd(bs[k..], j), TextEnd(bs[k..], j + 1);
    if 0 <= a <= b { assert text[pos..][a..b] == text[pos + a..pos + b]; }
  }

  /** The whole text is what all tokens stand for. */
  lemma {:induction false} AllExpands(bs: seq<Flushed>, text: seq<Byte>)
    requires bs != [] && BlockAt(bs, text, |bs| - 1) && TextEnd(bs, |bs|) == |text|
    ensures ExpandsTo(Flat(bs), text)
  {
    hide ExpandsTo, TextEnd;
    assert text[..|text|] == text;
  }

  /** Where a full flush was, the blocks before it end. */
  lemma {:induction false} FlushEnds(bs: seq<Flushed>, text: seq<Byte>, p: FlushPoint, maxDist: int)
    requires bs != [] && (forall i :: 0 <= i < |bs| ==> BlockAt(bs, text, i)) && TextEnd(bs, |bs|) == |text|
    requires Alone(p, bs, [], text, |text|, maxDist)
    ensures p.blocks <= |bs| && 0 <= p.pos <= |text| && TextEnd(bs, p.blocks) == p.pos
    ensures ExpandsTo(Flat(bs[p.blocks..]), text[p.pos..])
  {
    hide ExpandsTo, Flat, TextEnd, BlockAt, Span, InReach;
    var k := p.blocks;
    assert Flat(bs[k..]) + [] == Flat(bs[k..]) && text[p.pos..][..|text| - p.pos] == text[p.pos..];
    SpanIs(Flat(bs[k..]), text[p.pos..]);
    AllExpands(bs, text);
    SpanIs(Flat(bs), text);
    assert bs == bs[..k] + bs[k..];
    FlatJoined(bs[..k], bs[k..]);
    SpanJoined(Flat(bs[..k]), Flat(bs[k..]));
    EndIsSpan(bs, text, k);
  }

  /** The last block of the stream stands behind every full flush. */
  lemma {:induction false} NotTheLast(bs: seq<Flushed>, text: seq<Byte>, p: FlushPoint, maxDist: int)
    requires bs != [] && (forall i :: 0 <= i < |bs| ==> BlockAt(bs, text, i)) && bs[|bs| - 1].last
    requires Alone(p, bs, [], text, |text|, maxDist)
    ensures 0 < p.blocks < |bs| && bs[p.blocks - 1].sender == TrStoredBlock && !bs[p.blocks - 1].last
  {
    hide ExpandsTo, Flat, TextEnd, Covered;
    assert BlockAt(bs, text, p.blocks - 1);
  }

  /** The blocks behind a full flush were sent for the text behind it. */
  lemma {:induction false} SentFromFlush(t: StaticTables, fs: seq<SentBlock>, bs: seq<Flushed>, text: seq<Byte>,
      size: nat, p: FlushPoint, maxDist: int)
    requires SentFor(t, fs, bs, text, size) && Alone(p, bs, [], text, |text|, maxDist)
    ensures p.blocks < |fs| == |bs| && 0 <= p.pos <= |text| && AllSent(t, fs) && AllSent(t, fs[p.blocks..])
    ensures SentFor(t, fs[p.blocks..], bs[p.blocks..], text[p.pos..], size)
    ensures |Before(t, fs, p.blocks)| % 8 == 0
        && Before(t, fs, |fs|) == Before(t, fs, p.blocks) + Before(t, fs[p.blocks..], |fs| - p.blocks)
  {
    hide BlockAt, Near, Before, OwnBits, SentOk, TextEnd, ExpandsTo, Flat, SameBlock, Alone;
    NotTheLast(bs, text, p, maxDist);
    FlushEnds(bs, text, p, maxDist);
    var k := p.blocks;
    var gs, cs, rest := fs[k..], bs[k..], text[p.pos..];
    assert SameBlock(fs[k - 1], bs[k - 1]);
    SameForm(fs[k - 1], bs[k - 1]);
    MarkAligned(t, fs, k);
    forall j: nat | j < |gs| ensures SentOk(t, gs[j]) && SameBlock(gs[j], cs[j]) && Near(cs[j].tokens, size)
        && BlockAt(cs, rest, j) {
      assert gs[j] == fs[k + j] && cs[j] == bs[k + j];
      BlockBehind(bs, text, k, j, p.pos);
    }
    AlignedBehind(t, fs, k);
    EndsAdd(bs, k, |cs|);
    BehindBefore(t, fs, k, |gs|);
  }

  lemma SameForm(s: SentBlock, b: Flushed)
    requires SameBlock(s, b) && b.sender == TrStoredBlock && !b.last
    ensures s.form.StoredForm? && !s.last
  {
  }

  lemma {:induction false} AlignedBehind(t: StaticTables, fs: seq<SentBlock>, k: nat)
    requires AllSent(t, fs) && Aligned(t, fs) && k <= |fs| && AllSent(t, fs[k..]) && |Before(t, fs, k)| % 8 == 0
    ensures Aligned(t, fs[k..])
  {
    hide Before, OwnBits, SentOk;
    var gs := fs[k..];
    forall j: nat | j < |gs| && gs[j].form.StoredForm? ensures |Before(t, gs, j) + OwnBits(t, gs[j])| % 8 == 0 {
      BehindBefore(t, fs, k, j);
      assert gs[j] == fs[k + j];
      assert |Before(t, fs, k + j) + OwnBits(t, fs[k + j])| % 8 == 0;
    }
  }

  // ---- streams ----

  /** The bytes are a raw deflate stream that stands for the text, for a window of some size. */
  ghost predicate StreamFor(z: seq<Byte>, text: seq<Byte>, size: nat) {
    exists t: StaticTables, fs: seq<SentBlock>, bs: seq<Flushed> :: StreamIs(z, t, fs, bs, text, size)
  }

  ghost predicate StreamIs(z: seq<Byte>, t: StaticTables, fs: seq<SentBlock>, bs: seq<Flushed>, text: seq<Byte>,
      size: nat) {
    SentFor(t, fs, bs, text, size) && AllSent(t, fs) && StreamBits(z) == Before(t, fs, |fs|)
  }

  /** From some byte on they are a stream that stands for this text. */
  ghost predicate ResumesWith(z: seq<Byte>, text: seq<Byte>, size: nat) {
    exists at :: 0 <= at <= |z| && StreamFor(z[at..], text, size)
  }

  /** Bits that begin with whole bytes. */
  lemma {:induction false} BytesBehind(z: seq<Byte>, a: seq<bool>, b: seq<bool>)
    requires StreamBits(z) == a + b && |a| % 8 == 0
    ensures |a| / 8 <= |z| && StreamBits(z[|a| / 8..]) == b
  {
    hide StreamBits;
    var n := |a| / 8;
    FastItems.StreamLength(z);
    FastItems.StreamLength(z[..n]);
    StreamJoined(z[..n], z[n..]);
    assert z == z[..n] + z[n..];
    assert (a + b)[|a|..] == b;
  }

  /** Behind every full flush a stream begins that stands for the text behind it. */
  lemma {:induction false} StreamBehind(z: seq<Byte>, t: StaticTables, fs: seq<SentBlock>, bs: seq<Flushed>,
      text: seq<Byte>, size: nat, p: FlushPoint, maxDist: int)
    requires StreamIs(z, t, fs, bs, text, size) && Alone(p, bs, [], text, |text|, maxDist)
    ensures 0 <= p.pos <= |text| && ResumesWith(z, text[p.pos..], size)
  {
    hide SentFor, AllSent, Before, Alone;
    SentFromFlush(t, fs, bs, text, size, p, maxDist);
    var a, b := Before(t, fs, p.blocks), Before(t, fs[p.blocks..], |fs| - p.blocks);
    BytesBehind(z, a, b);
    assert StreamIs(z[|a| / 8..], t, fs[p.blocks..], bs[p.blocks..], text[p.pos..], size);
  }

  // ---- deflate and inflate ----

  /** The calls with a full flush that had room for it: behind each of them the stream can be taken
      up again, for the pieces that came later. */
  ghost predicate Restartable(z: seq<Byte>, pieces: seq<seq<Byte>>, flushes: seq<Flush>, full: nat -> (nat -> bool),
      size: nat)
    requires |flushes| == |pieces|
  {
    forall i: nat :: i < |flushes| && flushes[i] == FullFlush && (forall n :: !full(i)(n)) ==>
      ResumesWith(z, Join(pieces[i + 1..]), size)
  }

  lemma {:induction false} JoinSplit(pieces: seq<seq<Byte>>, i: nat)
    requires i <= |pieces|
    ensures Join(pieces) == Join(pieces[..i]) + Join(pieces[i..])
    decreases |pieces| - i
  {
    if i == |pieces| {
      assert pieces[..i] == pieces;
      assert Join(pieces) + [] == Join(pieces);
    } else {
      JoinSplit(pieces, i + 1);
      JoinSnoc(pieces[..i], pieces[i]);
      assert pieces[..i + 1] == pieces[..i] + [pieces[i]];
      assert pieces[i..][0] == pieces[i] && pieces[i..][1..] == pieces[i + 1..];
      assert Join(pieces[..i]) + pieces[i] + Join(pieces[i + 1..])
          == Join(pieces[..i]) + (pieces[i] + Join(pieces[i + 1..]));
    }
  }

  lemma {:induction false} FlushesStand(d: Deflater, k: nat)
    requires Finished(d) && k < |d.marks|
    ensures Alone(d.marks[k], d.blocks, [], d.m.text, |d.m.text|, MaxDist(d.m.wSize))
  {
    hide Covered, BlocksOk, Alone;
    assert Alone(d.marks[k], d.blocks, d.lastLit, d.m.text, |d.m.text|, MaxDist(d.m.wSize));
  }

  lemma {:induction false} IsRestartable(d: Deflater, z: seq<Byte>, t: StaticTables, fs: seq<SentBlock>,
      pieces: seq<seq<Byte>>, flushes: seq<Flush>, full: nat -> (nat -> bool), size: nat)
    requires Finished(d) && StreamIs(z, t, fs, d.blocks, d.m.text, size) && d.m.text == Join(pieces)
    requires |flushes| == |pieces| && AllFlushed(d.marks, pieces, flushes, full)
    ensures Restartable(z, pieces, flushes, full, size)
  {
    hide Finished, StreamIs, Join, ResumesWith;
    forall i: nat | i < |flushes| && flushes[i] == FullFlush && (forall n :: !full(i)(n))
      ensures ResumesWith(z, Join(pieces[i + 1..]), size)
    {
      var k :| 0 <= k < |d.marks| && d.marks[k].pos == |Join(pieces[..i + 1])|;
      FlushesStand(d, k);
      StreamBehind(z, t, fs, d.blocks, d.m.text, size, d.marks[k], MaxDist(d.m.wSize));
      JoinSplit(pieces, i + 1);
      assert Join(pieces)[|Join(pieces[..i + 1])|..] == Join(pieces[i + 1..]);
    }
  }

  /** deflate: the bytes stand for the input, and behind every full flush that was completed they
      stand by themselves for the input that came later. */
  method DeflateFlushed(pieces: seq<seq<Byte>>, flushes: seq<Flush>, full: nat -> (nat -> bool),
      ends: seq<nat -> bool>, wSize: nat, hashBits: nat, config: Config, filtered: bool, litBufsize: int, lazy: bool,
      fixed: bool, ghost windowSize: nat)
    returns (z: seq<Byte>)
    requires 512 <= wSize <= 32768 && hashBits >= 8 && ValidConfig(config) && litBufsize >= 2 && windowSize >= wSize
    requires |flushes| == |pieces| && Finish !in flushes
    ensures StreamFor(z, Join(pieces), windowSize) && Restartable(z, pieces, flushes, full, windowSize)
  {
    hide Finished, SentFor, AllSent, Before, Join, Restartable, AllFlushed;
    var d := DeflateAll(pieces, flushes, full, ends, wSize, hashBits, config, filtered, litBufsize, lazy);
    var tree;
    ghost var fs;
    z, tree, fs := SendAll(d, fixed);
    assert StreamIs(z, tree.tables, fs, d.blocks, d.m.text, windowSize);
    IsRestartable(d, z, tree.tables, fs, pieces, flushes, full, windowSize);
  }

  /** inflate, begun anew at any byte from which the rest is a stream for some text, gives that
      text. */
  method InflateFrom(z: seq<Byte>, at: nat, cuts: seq<nat>, rooms: seq<nat>, windowSize: nat, ghost text: seq<Byte>)
    returns (r: BlockEnd, h: History, k: Sink)
    requires at <= |z| && StreamFor(z[at..], text, windowSize) && windowSize > 0 && rooms != []
    ensures h.Valid() && ValidSink(k, h) && Restored(r, text, Output(h, k), Rooms(rooms))
  {
    hide SentFor, AllSent, Before, Restored;
    ghost var t: StaticTables, fs: seq<SentBlock>, bs: seq<Flushed> :| StreamIs(z[at..], t, fs, bs, text, windowSize);
    r, h, k := ReadAll(z[at..], cuts, rooms, windowSize, t, fs, bs, text);
  }
}

/** What the functions of deflate.c have tallied: the blocks and the tokens behind them stand for the
    input passed over, from its beginning and from each full flush on; and what a round of the
    matcher is to find. */
module DeflateTally {
  import opened Bytes
  import opened Wrappers
  import opened Lz77
  import opened HashChains
  import opened LongestMatch
  import opened DeflateState

  const TOO_FAR: int := 4096

  /** Which function of trees.c sends a block: the one for the tokens of a block, or one of those
      that send an empty block when a flush is complete. */
  datatype Sender = TrFlushBlock | TrAlign | TrStoredBlock

  /** What it is given: the tokens since the last block, the same bytes if they are still in the
      window, and how many they are. */
  datatype Flushed = Flushed(sender: Sender, tokens: seq<Token>, stored: Option<seq<Byte>>, storedLen: int, last: bool)

  /** The block that completes a flush is empty. */
  ghost predicate MarkOk(b: Flushed) {
    b.sender != TrFlushBlock ==> b.tokens == [] && b.stored == Some([]) && !b.last
  }

  datatype BlockState = NeedMore | BlockDone | FinishStarted | FinishDone

  datatype Flush = NoFlush | PartialFlush | SyncFlush | FullFlush | BlockFlush | Finish

  function Flat(bs: seq<Flushed>): seq<Token> {
    if bs == [] then [] else Flat(bs[..|bs| - 1]) + bs[|bs| - 1].tokens
  }

  /** The blocks follow one another through the text: each ends where its tokens, after those of
      all blocks before, end, and its stored bytes are the same bytes, few enough for a stored
      block; and only the last of them may be marked so. */
  ghost predicate BlocksOk(bs: seq<Flushed>, text: seq<Byte>, end: int) {
    if bs == [] then end == 0
    else
      var b := bs[|bs| - 1];
      && 0 <= b.storedLen <= end <= |text| && ExpandsTo(Flat(bs), text[..end])
      && (b.stored.Some? ==> b.stored.value == text[end - b.storedLen..end] && |b.stored.value| <= 0xffff)
      && (|bs| >= 2 ==> !bs[|bs| - 2].last) && MarkOk(b)
      && BlocksOk(bs[..|bs| - 1], text, end - b.storedLen)
  }

  /** All tokens can be sent, and none reaches further back than allowed. */
  ghost predicate InReach(ts: seq<Token>, maxDist: int) {
    forall k :: 0 <= k < |ts| ==> Reach(ts[k], maxDist)
  }

  ghost predicate Reach(t: Token, maxDist: int) {
    ValidToken(t) && (t.Match? ==> t.dist <= maxDist)
  }

  /** The tokens stand for the text up to a position. */
  ghost predicate Covered(ts: seq<Token>, text: seq<Byte>, upTo: int, maxDist: int) {
    0 <= upTo <= |text| && ExpandsTo(ts, text[..upTo]) && InReach(ts, maxDist)
  }

  /** A match at a position of the text that does not reach back beyond another. */
  ghost predicate MatchOk(text: seq<Byte>, since: int, at: int, dist: int, len: int, maxDist: int) {
    && 1 <= dist <= maxDist && 0 <= since && dist <= at - since && at + len <= |text| && MIN_MATCH <= len <= MAX_MATCH
    && forall i :: at <= i < at + len ==> text[i] == text[i - dist]
  }

  /** A full flush: how many blocks there were, and where in the text. */
  datatype FlushPoint = FlushPoint(blocks: nat, pos: int)

  /** A full flush forgets the history: the tokens behind it stand by themselves for the text behind
      it, and the block before it is the mark. */
  ghost predicate Alone(p: FlushPoint, bs: seq<Flushed>, ts: seq<Token>, text: seq<Byte>, upTo: int, maxDist: int) {
    && 0 < p.blocks <= |bs| && bs[p.blocks - 1].sender == TrStoredBlock && 0 <= p.pos <= upTo <= |text|
    && Covered(Flat(bs[p.blocks..]) + ts, text[p.pos..], upTo - p.pos, maxDist)
  }

  ghost predicate AllAlone(marks: seq<FlushPoint>, bs: seq<Flushed>, ts: seq<Token>, text: seq<Byte>, upTo: int,
      maxDist: int) {
    forall k :: 0 <= k < |marks| ==> Alone(marks[k], bs, ts, text, upTo, maxDist)
  }

  /** Where the last full flush was. */
  function Since(marks: seq<FlushPoint>): int {
    if marks == [] then 0 else marks[|marks| - 1].pos
  }

  /** What the window holds was read after the last full flush. */
  ghost predicate Behind(marks: seq<FlushPoint>, base: int) {
    0 <= Since(marks) <= base && forall k :: 0 <= k < |marks| ==> 0 <= marks[k].pos <= Since(marks)
  }

  /** No block has more tokens than the buffer holds. */
  ghost predicate Buffered(bs: seq<Flushed>, ts: seq<Token>, limit: int) {
    |ts| <= limit && forall k :: 0 <= k < |bs| ==> |bs[k].tokens| <= limit
  }

  /** The blocks and the tokens behind them stand for the text up to a position, from its beginning
      and from each full flush on. */
  ghost predicate Told(marks: seq<FlushPoint>, bs: seq<Flushed>, ts: seq<Token>, text: seq<Byte>, base: int, end: int,
      upTo: int, maxDist: int, limit: int) {
    && Covered(Flat(bs) + ts, text, upTo, maxDist) && BlocksOk(bs, text, end) && 0 <= end <= upTo
    && AllAlone(marks, bs, ts, text, upTo, maxDist) && Behind(marks, base) && Buffered(bs, ts, limit)
  }

  /** A block of tokens is as full as it can be, unless it was ended by a flush. */
  ghost predicate OnlyFull(bs: seq<Flushed>, end: int, limit: int, cuts: set<int>) {
    bs == [] ||
      var b := bs[|bs| - 1];
      (b.sender == TrFlushBlock ==> |b.tokens| == limit || end in cuts)
      && OnlyFull(bs[..|bs| - 1], end - b.storedLen, limit, cuts)
  }

  lemma {:induction false} OnlyFullAdd(bs: seq<Flushed>, end: int, limit: int, cuts: set<int>, b: Flushed)
    requires OnlyFull(bs, end, limit, cuts)
    requires b.sender == TrFlushBlock ==> |b.tokens| == limit || end + b.storedLen in cuts
    ensures OnlyFull(bs + [b], end + b.storedLen, limit, cuts)
  {
    assert (bs + [b])[..|bs|] == bs;
  }

  lemma {:induction false} OnlyFullMore(bs: seq<Flushed>, end: int, limit: int, cuts: set<int>, cuts1: set<int>)
    requires OnlyFull(bs, end, limit, cuts) && cuts <= cuts1
    ensures OnlyFull(bs, end, limit, cuts1)
  {
    if bs != [] { OnlyFullMore(bs[..|bs| - 1], end - bs[|bs| - 1].storedLen, limit, cuts, cuts1); }
  }

  /** A token was added; the buffer that it filled became a block. */
  ghost predicate Grown(bs: seq<Flushed>, ts: seq<Token>, t: Token, limit: int, bs1: seq<Flushed>, ts1: seq<Token>) {
    if |ts| + 1 == limit then Emitted(bs, ts + [t], bs1, false) && ts1 == [] else bs1 == bs && ts1 == ts + [t]
  }

  /** One more block, of these tokens. */
  ghost predicate Emitted(bs: seq<Flushed>, ts: seq<Token>, bs1: seq<Flushed>, last: bool) {
    && |bs1| == |bs| + 1 && bs1[..|bs|] == bs
    && bs1[|bs|].sender == TrFlushBlock && bs1[|bs|].tokens == ts && bs1[|bs|].last == last
  }

  lemma {:induction false} CoverLiteral(ts: seq<Token>, text: seq<Byte>, upTo: int, maxDist: int)
    requires Covered(ts, text, upTo, maxDist) && upTo < |text|
    ensures Covered(ts + [Literal(text[upTo])], text, upTo + 1, maxDist)
  {
    hide ExpandsTo;
    AddLiteral(ts, text[..upTo], text[upTo]);
    assert text[..upTo + 1] == text[..upTo] + [text[upTo]];
  }

  lemma {:induction false} CoverMatch(ts: seq<Token>, text: seq<Byte>, upTo: int, maxDist: int, since: int, dist: int,
      len: int)
    requires Covered(ts, text, upTo, maxDist) && MatchOk(text, since, upTo, dist, len, maxDist) && maxDist <= 32768
    ensures Covered(ts + [Match(len, dist)], text, upTo + len, maxDist)
  {
    hide ExpandsTo;
    AddMatch(ts, text, upTo, len, dist);
  }

  /** More text behind changes nothing. */
  lemma {:induction false} CoverMoreText(ts: seq<Token>, text: seq<Byte>, upTo: int, maxDist: int, text1: seq<Byte>)
    requires Covered(ts, text, upTo, maxDist) && text <= text1
    ensures Covered(ts, text1, upTo, maxDist)
  {
    hide ExpandsTo;
    assert text1[..upTo] == text[..upTo];
  }

  lemma {:induction false} BlocksMoreText(bs: seq<Flushed>, text: seq<Byte>, end: int, text1: seq<Byte>)
    requires BlocksOk(bs, text, end) && text <= text1
    ensures BlocksOk(bs, text1, end)
  {
    hide ExpandsTo;
    if bs != [] {
      var b := bs[|bs| - 1];
      BlocksMoreText(bs[..|bs| - 1], text, end - b.storedLen, text1);
      assert text1[..end] == text[..end];
      assert text1[end - b.storedLen..end] == text[end - b.storedLen..end];
    }
  }

  lemma {:induction false} BlocksAdd(bs: seq<Flushed>, text: seq<Byte>, end: int, b: Flushed, upTo: int, maxDist: int)
    requires BlocksOk(bs, text, end) && Covered(Flat(bs) + b.tokens, text, upTo, maxDist) && b.storedLen == upTo - end
        && 0 <= end <= upTo
    requires b.stored.Some? ==> b.stored.value == text[end..upTo] && |b.stored.value| <= 0xffff
    requires (bs != [] ==> !bs[|bs| - 1].last) && MarkOk(b)
    ensures BlocksOk(bs + [b], text, upTo) && Flat(bs + [b]) == Flat(bs) + b.tokens
  {
    hide ExpandsTo;
    assert (bs + [b])[..|bs|] == bs;
  }

  // ---- from the beginning, and from each full flush on ----

  lemma AddToFlat(a: seq<Token>, ts: seq<Token>, t: Token)
    ensures a + (ts + [t]) == a + ts + [t]
  {
  }

  lemma {:induction false} FlatMore(bs: seq<Flushed>, b: Flushed)
    ensures Flat(bs + [b]) == Flat(bs) + b.tokens
  {
    assert (bs + [b])[..|bs|] == bs;
  }

  lemma {:induction false} ToldLiteral(marks: seq<FlushPoint>, bs: seq<Flushed>, ts: seq<Token>, text: seq<Byte>,
      base: int, end: int, upTo: int, maxDist: int, limit: int)
    requires Told(marks, bs, ts, text, base, end, upTo, maxDist, limit) && 0 <= upTo < |text| && |ts| < limit
    ensures Told(marks, bs, ts + [Literal(text[upTo])], text, base, end, upTo + 1, maxDist, limit)
  {
    hide Covered, BlocksOk, Flat;
    var t := Literal(text[upTo]);
    AddToFlat(Flat(bs), ts, t);
    CoverLiteral(Flat(bs) + ts, text, upTo, maxDist);
    forall k | 0 <= k < |marks| ensures Alone(marks[k], bs, ts + [t], text, upTo + 1, maxDist) {
      var p := marks[k];
      assert Alone(p, bs, ts, text, upTo, maxDist);
      AddToFlat(Flat(bs[p.blocks..]), ts, t);
      CoverLiteral(Flat(bs[p.blocks..]) + ts, text[p.pos..], upTo - p.pos, maxDist);
    }
  }

  /** A match behind a position is a match in the text from there on. */
  lemma MatchBehind(text: seq<Byte>, since: int, at: int, dist: int, len: int, maxDist: int, pos: int)
    requires MatchOk(text, since, at, dist, len, maxDist) && 0 <= pos <= since
    ensures pos <= |text| && MatchOk(text[pos..], 0, at - pos, dist, len, maxDist)
  {
    var rest := text[pos..];
    forall i | at - pos <= i < at - pos + len ensures rest[i] == rest[i - dist] {
      assert text[i + pos] == text[i + pos - dist];
    }
  }

  lemma {:induction false} ToldMatch(marks: seq<FlushPoint>, bs: seq<Flushed>, ts: seq<Token>, text: seq<Byte>,
      base: int, end: int, upTo: int, maxDist: int, limit: int, dist: int, len: int)
    requires Told(marks, bs, ts, text, base, end, upTo, maxDist, limit) && maxDist <= 32768 && |ts| < limit
    requires MatchOk(text, Since(marks), upTo, dist, len, maxDist)
    ensures Told(marks, bs, ts + [Match(len, dist)], text, base, end, upTo + len, maxDist, limit)
  {
    hide Covered, BlocksOk, Flat, MatchOk, Since;
    var t := Match(len, dist);
    AddToFlat(Flat(bs), ts, t);
    MatchLength(text, Since(marks), upTo, dist, len, maxDist);
    CoverMatch(Flat(bs) + ts, text, upTo, maxDist, Since(marks), dist, len);
    forall k | 0 <= k < |marks| ensures Alone(marks[k], bs, ts + [t], text, upTo + len, maxDist) {
      var p := marks[k];
      assert Alone(p, bs, ts, text, upTo, maxDist);
      AddToFlat(Flat(bs[p.blocks..]), ts, t);
      MatchBehind(text, Since(marks), upTo, dist, len, maxDist, p.pos);
      CoverMatch(Flat(bs[p.blocks..]) + ts, text[p.pos..], upTo - p.pos, maxDist, 0, dist, len);
    }
  }

  lemma MatchLength(text: seq<Byte>, since: int, at: int, dist: int, len: int, maxDist: int)
    requires MatchOk(text, since, at, dist, len, maxDist)
    ensures MIN_MATCH <= len <= MAX_MATCH && at + len <= |text|
  {
  }

  /** More text, and a window that has moved on. */
  lemma {:induction false} ToldMoreText(marks: seq<FlushPoint>, bs: seq<Flushed>, ts: seq<Token>, text: seq<Byte>,
      base: int, end: int, upTo: int, maxDist: int, limit: int, text1: seq<Byte>, base1: int)
    requires Told(marks, bs, ts, text, base, end, upTo, maxDist, limit) && text <= text1 && base <= base1
    ensures Told(marks, bs, ts, text1, base1, end, upTo, maxDist, limit)
  {
    hide Covered, BlocksOk, Flat;
    CoverMoreText(Flat(bs) + ts, text, upTo, maxDist, text1);
    BlocksMoreText(bs, text, end, text1);
    forall k | 0 <= k < |marks| ensures Alone(marks[k], bs, ts, text1, upTo, maxDist) {
      var p := marks[k];
      assert Alone(p, bs, ts, text, upTo, maxDist);
      assert text[p.pos..] <= text1[p.pos..];
      CoverMoreText(Flat(bs[p.blocks..]) + ts, text[p.pos..], upTo - p.pos, maxDist, text1[p.pos..]);
    }
  }

  /** The tokens become a block. */
  lemma {:induction false} ToldBlock(marks: seq<FlushPoint>, bs: seq<Flushed>, ts: seq<Token>, text: seq<Byte>,
      base: int, end: int, upTo: int, maxDist: int, limit: int, b: Flushed)
    requires Told(marks, bs, ts, text, base, end, upTo, maxDist, limit) && b.tokens == ts && b.storedLen == upTo - end
    requires 0 <= end <= upTo <= |text| &&
      (b.stored.Some? ==> b.stored.value == text[end..upTo] && |b.stored.value| <= 0xffff)
    requires (bs != [] ==> !bs[|bs| - 1].last) && MarkOk(b)
    ensures Told(marks, bs + [b], [], text, base, upTo, upTo, maxDist, limit)
  {
    hide Covered, BlocksOk, Flat, MarkOk;
    BlocksAdd(bs, text, end, b, upTo, maxDist);
    assert Flat(bs) + b.tokens + [] == Flat(bs) + b.tokens;
    forall k | 0 <= k < |marks| ensures Alone(marks[k], bs + [b], [], text, upTo, maxDist) {
      var p := marks[k];
      assert Alone(p, bs, ts, text, upTo, maxDist);
      assert (bs + [b])[p.blocks..] == bs[p.blocks..] + [b];
      FlatMore(bs[p.blocks..], b);
      assert Flat(bs[p.blocks..]) + b.tokens + [] == Flat(bs[p.blocks..]) + b.tokens;
    }
  }

  /** Where everything is sent and marked the history can be forgotten: nothing is nothing. */
  lemma {:induction false} ToldFlush(marks: seq<FlushPoint>, bs: seq<Flushed>, text: seq<Byte>, base: int, upTo: int,
      maxDist: int, limit: int)
    requires Told(marks, bs, [], text, base, upTo, upTo, maxDist, limit) && base <= upTo
    requires bs != [] && bs[|bs| - 1].sender == TrStoredBlock
    ensures Told(marks + [FlushPoint(|bs|, upTo)], bs, [], text, upTo, upTo, upTo, maxDist, limit)
  {
    hide BlocksOk, Flat;
    FlatOfNone();
    NothingExpands();
    var p := FlushPoint(|bs|, upTo);
    assert bs[|bs|..] == [] && text[upTo..][..0] == [] && Flat([]) + [] == [];
    assert Alone(p, bs, [], text, upTo, maxDist);
    forall k | 0 <= k < |marks| + 1 ensures Alone((marks + [p])[k], bs, [], text, upTo, maxDist) {
      if k < |marks| { assert Alone(marks[k], bs, [], text, upTo, maxDist); }
    }
  }

  lemma FlatOfNone()
    ensures Flat([]) == []
  {
  }

  lemma {:induction false} EmittedFlat(bs: seq<Flushed>, ts: seq<Token>, bs1: seq<Flushed>, last: bool)
    requires Emitted(bs, ts, bs1, last)
    ensures Flat(bs1) + [] == Flat(bs) + ts
  {
    hide Flat;
    assert bs1 == bs + [bs1[|bs|]];
    FlatMore(bs, bs1[|bs|]);
  }

  lemma {:induction false} GrownFlat(bs: seq<Flushed>, ts: seq<Token>, t: Token, limit: int, bs1: seq<Flushed>,
      ts1: seq<Token>)
    requires Grown(bs, ts, t, limit, bs1, ts1)
    ensures Flat(bs1) + ts1 == Flat(bs) + ts + [t]
  {
    hide Flat, Emitted;
    AddToFlat(Flat(bs), ts, t);
    if |ts| + 1 == limit { EmittedFlat(bs, ts + [t], bs1, false); }
  }

  // ---- the search of a round ----

  /** No string alike is filed before a position, or it is too far back. */
  ghost predicate NothingAlike(bits: nat, w: seq<Byte>, ins: set<int>, wSize: nat, at: int)
    requires 0 <= at
  {
    || at + MIN_MATCH > |w|
    || (InData(w, ins)
        && exists h :: Latest(bits, w, ins, KeyAt(bits, w, at), at, h) && (h == 0 || at - h > MaxDist(wSize)))
  }

  /** The best match at a position, along the chain that begins at the last string alike. */
  ghost predicate BestAlike(bits: nat, w: seq<Byte>, ins: set<int>, wSize: nat, at: int, prevLen: int, config: Config,
      len: int, start: int)
    requires 0 <= at
  {
    && at + MIN_MATCH <= |w| && InData(w, ins)
    && exists h :: Latest(bits, w, ins, KeyAt(bits, w, at), at, h)
         && Best(bits, w, ins, wSize, at, prevLen, config, h, len, start)
  }

  /** What deflate_slow finds at a position: it does not search when the previous match is long, and
      drops short matches that are far away, or that a filter makes unlikely. */
  ghost predicate SlowFinds(bits: nat, w: seq<Byte>, ins: set<int>, wSize: nat, at: int, prevLen: int, config: Config,
      filtered: bool, len: int, start: int)
    requires 0 <= at
  {
    if prevLen >= config.maxLazy || NothingAlike(bits, w, ins, wSize, at) then len == MIN_MATCH - 1
    else
      exists n :: BestAlike(bits, w, ins, wSize, at, prevLen, config, n, start)
        && len == if Dropped(filtered, n, at - start) then MIN_MATCH - 1 else n
  }

  predicate Dropped(filtered: bool, n: int, dist: int) {
    n <= 5 && (filtered || (n == MIN_MATCH && dist > TOO_FAR))
  }

  /** What deflate_fast finds. */
  ghost predicate FastFinds(bits: nat, w: seq<Byte>, ins: set<int>, wSize: nat, at: int, config: Config, len: int,
      start: int)
    requires 0 <= at
  {
    if NothingAlike(bits, w, ins, wSize, at) then len < MIN_MATCH
    else BestAlike(bits, w, ins, wSize, at, MIN_MATCH - 1, config, len, start)
  }

  /** There is only one last string alike. */
  lemma {:induction false} AlikeIs(bits: nat, w: seq<Byte>, ins: set<int>, wSize: nat, at: int, h: int)
    requires 0 <= at && at + MIN_MATCH <= |w| && InData(w, ins) && Latest(bits, w, ins, KeyAt(bits, w, at), at, h)
    ensures NothingAlike(bits, w, ins, wSize, at) <==> h == 0 || at - h > MaxDist(wSize)
  {
    hide KeyAt;
    forall g | Latest(bits, w, ins, KeyAt(bits, w, at), at, g) ensures g == h {}
  }

  lemma {:induction false} FoundInText(win: seq<Byte>, text: seq<Byte>, base: int, strstart: int, lookahead: int,
      wSize: nat, matchStart: int, len: int, since: int)
    requires DataOk(win, text, base, strstart, lookahead, wSize) && Found(win, wSize, strstart, matchStart, len)
    requires MIN_MATCH <= len <= MAX_MATCH && len <= lookahead && 0 <= since <= base
    ensures MatchOk(text, since, base + strstart, strstart - matchStart, len, MaxDist(wSize))
  {
    hide DataOk;
    DataSizes(win, text, base, strstart, lookahead, wSize);
    var d := strstart - matchStart;
    forall i | base + strstart <= i < base + strstart + len ensures text[i] == text[i - d] {
      assert win[i - base] == text[base + (i - base)] && win[i - base - d] == text[base + (i - base - d)];
    }
  }

  lemma NothingExpands()
    ensures ExpandsTo([], [])
  {
  }

  lemma MatchMoreText(text: seq<Byte>, since: int, at: int, dist: int, len: int, maxDist: int, text1: seq<Byte>)
    requires MatchOk(text, since, at, dist, len, maxDist) && text <= text1
    ensures MatchOk(text1, since, at, dist, len, maxDist)
  {
    forall i | at <= i < at + len ensures text1[i] == text1[i - dist] { assert text[i] == text[i - dist]; }
  }
}

/** deflate_fast and deflate_slow of deflate.c: whatever the calls and flushes, the tokens
    tallied stand for exactly the input passed over. */
module Deflating {
  import opened Bytes
  import opened Wrappers
  import opened Lz77
  import opened HashChains
  import opened LongestMatch
  import opened DeflateState
  import opened DeflateWindow
  import opened DeflateTally
  import opened MatchRules

  class Deflater {
    const m: Matcher
    const config: Config
    const filtered: bool
    const litBufsize: int
    var matchLength: int
    var prevLength: int
    var prevMatch: int
    var matchAvailable: bool
    var lastLit: seq<Token>
    var blocks: seq<Flushed>
    ghost var marks: seq<FlushPoint>
    ghost var log: seq<Event>
    ghost var cuts: set<int>

    /** What the tokens stand for so far; blocks end when they are full, or at a flush. */
    ghost predicate Tallied(upTo: int)
      reads this`marks, this`lastLit, this`blocks, this`cuts, m`text, m`base, m`blockStart
    {
      && Told(marks, blocks, lastLit, m.text, m.base, m.base + m.blockStart, upTo, MaxDist(m.wSize), litBufsize - 1)
      && OnlyFull(blocks, m.base + m.blockStart, litBufsize - 1, cuts)
    }

    /** There is room for one more token. */
    ghost predicate Roomy()
      reads this`lastLit
    {
      |lastLit| < litBufsize - 1
    }

    ghost predicate Fixed()
    {
      ValidConfig(config) && litBufsize >= 2
    }

    /** The last block has not been sent. */
    ghost predicate Open()
      reads this`blocks
    {
      blocks != [] ==> !blocks[|blocks| - 1].last
    }

    /** A new stream. */
    constructor (wSize: nat, hashBits: nat, config: Config, filtered: bool, litBufsize: int, input: seq<Byte>)
      requires 512 <= wSize <= 32768 && hashBits >= 8 && ValidConfig(config) && litBufsize >= 2
      ensures Slow() && Fast() && fresh(m) && fresh(m.window) && fresh(m.head) && fresh(m.prev)
      ensures m.text == [] && m.availIn == input && blocks == [] && lastLit == [] && Open() && m.wSize == wSize
          && marks == [] && log == [] && cuts == {}
      ensures m.hashBits == hashBits && this.config == config && this.filtered == filtered
          && this.litBufsize == litBufsize
    {
      m := new Matcher(wSize, hashBits, input);
      this.config, this.filtered, this.litBufsize := config, filtered, litBufsize;
      matchLength, prevLength, prevMatch, matchAvailable := MIN_MATCH - 1, MIN_MATCH - 1, 0, false;
      lastLit, blocks, marks, log, cuts := [], [], [], [], {};
      new;
      Begins();
    }

    // ---- the states between rounds ----

    function Deferred(): int
      reads this`matchAvailable
    {
      if matchAvailable then 1 else 0
    }

    /** Everything tallied. */
    ghost function Sent(): seq<Token>
      reads this`lastLit, this`blocks
    {
      Flat(blocks) + lastLit
    }

    /** Where history begins: after full flushes. */
    ghost function Resets(): set<int>
      reads this`marks
    {
      set p | p in marks :: p.pos
    }

    /** Every round has seen enough of the text, and so will the next one. */
    ghost predicate Sighted()
      reads this`log, this`marks, this`cuts, m`base, m`strstart
    {
      AllSee(m.wSize, log, Resets(), cuts) && ReachesBack(m.wSize, m.base, m.base + m.strstart, Resets())
    }

    ghost function RulesFor(lazy: bool): Rules {
      Rules(lazy, m.hashBits, m.wSize, config, filtered)
    }

    /** The tokens are those of lazy evaluation. */
    ghost predicate Slow()
      reads this, m, m.window, m.head, m.prev
    {
      SlowState() && SlowLog()
    }

    ghost predicate SlowLog()
      reads this, m
    {
      && IsRun(RulesFor(true), log, m.text, cuts, Sent())
      && StandsAt(RulesFor(true), log, Held(matchLength, m.strstart - 1 - m.matchStart, matchAvailable),
          m.base + m.strstart, m.base, m.ins) && Sighted()
    }

    /** The tokens are those of greedy evaluation. */
    ghost predicate Fast()
      reads this, m, m.window, m.head, m.prev
    {
      FastState() && FastLog()
    }

    ghost predicate FastLog()
      reads this, m
    {
      && IsRun(RulesFor(false), log, m.text, cuts, Sent())
      && StandsAt(RulesFor(false), log, NOTHING_HELD, m.base + m.strstart, m.base, m.ins) && Sighted()
    }

    lemma Begins()
      requires log == [] && blocks == [] && lastLit == [] && matchLength == MIN_MATCH - 1 && !matchAvailable
          && m.base == 0 && m.strstart == 0
      ensures SlowLog() && FastLog()
    {
      hide IsRun, StandsAt, Resets;
      assert Sent() == [];
      NothingRun(RulesFor(true), m.text, cuts, m.base, m.ins);
      NothingRun(RulesFor(false), m.text, cuts, m.base, m.ins);
      StandsSame(RulesFor(true), log, NOTHING_HELD, Held(matchLength, m.strstart - 1 - m.matchStart, matchAvailable),
          0, m.base, m.ins);
    }

    /** Of deflate_slow: one byte may be deferred, and a match may begin at it. */
    ghost predicate SlowState()
      reads this`matchLength, this`matchAvailable, this`lastLit, this`blocks, this`marks, this`cuts, m, m.window,
          m.head, m.prev
    {
      && Fixed() && m.Valid() && 0 < matchLength <= MAX_MATCH && (matchAvailable ==> m.strstart >= 1)
      && Tallied(m.base + m.strstart - Deferred()) && Roomy()
      && (matchLength >= MIN_MATCH ==>
            (matchAvailable && MatchOk(m.text, Since(marks), m.base + m.strstart - 1, m.strstart - 1 - m.matchStart,
                matchLength, MaxDist(m.wSize))))
    }

    /** Of deflate_fast: nothing is deferred. */
    ghost predicate FastState()
      reads this`matchLength, this`prevLength, this`matchAvailable, this`lastLit, this`blocks, this`marks, this`cuts,
          m, m.window, m.head, m.prev
    {
      && Fixed() && m.Valid() && prevLength == MIN_MATCH - 1 && matchLength < MIN_MATCH && !matchAvailable
          && Tallied(m.base + m.strstart) && Roomy()
    }

    /** _tr_tally_lit and _tr_tally_dist: true when the buffer is full. */
    method Tally(t: Token) returns (bflush: bool)
      modifies this`lastLit
      ensures lastLit == old(lastLit) + [t] && bflush == (|lastLit| == litBufsize - 1)
    {
      lastLit := lastLit + [t];
      bflush := |lastLit| == litBufsize - 1;
    }

    /** FLUSH_BLOCK_ONLY: the tokens become a block, with its bytes if they are still in the window. */
    method FlushBlockOnly(last: bool)
      requires m.Fixed() && m.Data() && Tallied(m.base + m.strstart) && Open() && m.strstart < m.window.Length
      requires |lastLit| == litBufsize - 1 || m.base + m.strstart in cuts
      modifies this`lastLit, this`blocks, m`blockStart
      ensures !last ==> Open()
      ensures Tallied(m.base + m.strstart) && lastLit == [] && m.blockStart == m.strstart
      ensures Emitted(old(blocks), old(lastLit), blocks, last)
          && (blocks[|old(blocks)|].stored.Some? <==> old(m.blockStart) >= 0)
      ensures old(m.Valid()) ==> m.Valid()
    {
      hide *;
      TalliedEnd(m.base + m.strstart);
      WindowIsText();
      var stored := None;
      if m.blockStart >= 0 {
        stored := Some(m.window[m.blockStart..m.strstart]);
        StillThere();
      }
      var b := Flushed(TrFlushBlock, lastLit, stored, m.strstart - m.blockStart, last);
      BlockTold(b);
      EmittedBlock(blocks, lastLit, b);
      blocks := blocks + [b];
      lastLit := [];
      m.blockStart := m.strstart;
      IsTallied(m.base + m.strstart);
      OpenIs();
    }

    /** The bytes of the block are still in the window. */
    lemma StillThere()
      requires m.Fixed() && m.Data() && 0 <= m.blockStart <= m.strstart < m.window.Length
      ensures m.strstart - m.blockStart <= 0xffff && m.base + m.strstart <= |m.text|
      ensures m.window[m.blockStart..m.strstart] == m.text[m.base + m.blockStart..m.base + m.strstart]
    {
      DataSizes(m.window[..], m.text, m.base, m.strstart, m.lookahead, m.wSize);
    }

    /** All tokens tallied have become a block. */
    lemma BlockTold(b: Flushed)
      requires Tallied(m.base + m.strstart) && Open() && b.sender == TrFlushBlock && b.tokens == lastLit
      requires 0 <= m.base + m.blockStart <= m.base + m.strstart <= |m.text| && b.storedLen == m.strstart - m.blockStart
      requires b.stored.Some? ==>
        |b.stored.value| <= 0xffff && b.stored.value == m.text[m.base + m.blockStart..m.base + m.strstart]
      requires |lastLit| == litBufsize - 1 || m.base + m.strstart in cuts
      ensures Told(marks, blocks + [b], [], m.text, m.base, m.base + m.strstart, m.base + m.strstart,
          MaxDist(m.wSize), litBufsize - 1)
      ensures OnlyFull(blocks + [b], m.base + m.strstart, litBufsize - 1, cuts)
    {
      hide Told, OnlyFull;
      ToldBlock(marks, blocks, lastLit, m.text, m.base, m.base + m.blockStart, m.base + m.strstart, MaxDist(m.wSize),
          litBufsize - 1, b);
      OnlyFullAdd(blocks, m.base + m.blockStart, litBufsize - 1, cuts, b);
    }

    lemma IsTallied(upTo: int)
      requires Told(marks, blocks, lastLit, m.text, m.base, m.base + m.blockStart, upTo, MaxDist(m.wSize),
          litBufsize - 1)
      requires OnlyFull(blocks, m.base + m.blockStart, litBufsize - 1, cuts)
      ensures Tallied(upTo)
    {
      hide Told, OnlyFull;
    }

    lemma OpenIs()
      ensures Open() == (blocks != [] ==> !blocks[|blocks| - 1].last)
    {
    }

    lemma EmittedBlock(bs: seq<Flushed>, ts: seq<Token>, b: Flushed)
      requires b.sender == TrFlushBlock && b.tokens == ts
      ensures Emitted(bs, ts, bs + [b], b.last) && (bs + [b])[|bs|] == b
    {
    }

    lemma TalliedEnd(upTo: int)
      requires Tallied(upTo)
      ensures 0 <= m.base + m.blockStart <= upTo <= |m.text| && 0 <= Since(marks) <= m.base
    {
      hide ExpandsTo, BlocksOk, AllAlone, OnlyFull;
    }

    /** Nothing is tallied: the blocks end at the current position. */
    lemma BlocksEnd(upTo: int)
      requires Tallied(upTo) && lastLit == []
      ensures m.base + m.blockStart == upTo && 0 <= upTo <= |m.text|
    {
      hide ExpandsTo, AllAlone, Behind, Buffered, OnlyFull;
      var bs, end := blocks, m.base + m.blockStart;
      assert Flat(bs) + [] == Flat(bs);
      if bs == [] { assert m.text[..0] == []; NothingExpands(); } else { assert ExpandsTo(Flat(bs), m.text[..end]); }
      ExpansionUnique(Flat(bs), m.text[..end], m.text[..upTo]);
    }

    /** An empty block behind a flush that is complete: _tr_align, or _tr_stored_block with no
        bytes. */
    method Mark(sender: Sender)
      requires Tallied(m.base + m.strstart) && lastLit == [] && Open() && sender != TrFlushBlock
      modifies this`blocks
      ensures Tallied(m.base + m.strstart) && Open()
          && blocks == old(blocks) + [Flushed(sender, [], Some([]), 0, false)]
    {
      hide Told, OnlyFull;
      BlocksEnd(m.base + m.strstart);
      var b := Flushed(sender, [], Some([]), 0, false);
      var end := m.base + m.blockStart;
      assert m.text[end..end] == [];
      ToldBlock(marks, blocks, [], m.text, m.base, end, end, MaxDist(m.wSize), litBufsize - 1, b);
      OnlyFullAdd(blocks, end, litBufsize - 1, cuts, b);
      blocks := blocks + [b];
    }

    /** CLEAR_HASH, and the window is begun afresh: nothing from before will be matched again. */
    method Forget()
      requires m.Valid() && Tallied(m.base + m.strstart) && lastLit == [] && m.lookahead == 0
      requires blocks != [] && blocks[|blocks| - 1].sender == TrStoredBlock
      modifies this`marks, m`strstart, m`blockStart, m`insert, m`base, m`ins, m`top, m.head
      ensures m.Valid() && Tallied(m.base + m.strstart)
      ensures marks == old(marks) + [FlushPoint(|blocks|, m.base + m.strstart)]
      ensures m.base + m.strstart == old(m.base + m.strstart) && m.strstart == 0 && m.ins == {}
    {
      hide Told, Matcher.Valid, OnlyFull;
      BlocksEnd(m.base + m.strstart);
      StrstartFits();
      ToldFlush(marks, blocks, m.text, m.base, m.base + m.strstart, MaxDist(m.wSize), litBufsize - 1);
      marks := marks + [FlushPoint(|blocks|, m.base + m.strstart)];
      m.ForgetHistory();
    }

    lemma StrstartFits()
      requires m.Valid()
      ensures 0 <= m.strstart
    {
      hide Matcher.Table, Matcher.Hash, DataOk;
      DataSizes(m.window[..], m.text, m.base, m.strstart, m.lookahead, m.wSize);
    }

    // ---- searching ----

    /** The search of a round. */
    method Search(hashHead: int, prevLen: int) returns (len: int)
      requires Fixed() && m.Filed() && 1 <= prevLen <= MAX_MATCH && m.strstart + MIN_LOOKAHEAD <= m.window.Length
      requires hashHead != 0 && m.lookahead >= MIN_MATCH && m.LastAlike(m.strstart, hashHead)
          && m.strstart - hashHead <= MaxDist(m.wSize) && 0 <= Since(marks) <= m.base
      modifies m`matchStart
      ensures m.Filed() && 0 < len <= m.lookahead && len <= MAX_MATCH
      ensures len > prevLen && len >= MIN_MATCH ==>
        MatchOk(m.text, Since(marks), m.base + m.strstart, m.strstart - m.matchStart, len, MaxDist(m.wSize))
      ensures m.lookahead >= MIN_MATCH && 0 <= m.strstart && BestAlike(m.hashBits,
          m.window[..m.strstart + m.lookahead], m.ins, m.wSize, m.strstart, prevLen, config, len, m.matchStart)
    {
      hide DataOk, Chains, Ready, Found, MatchOk, Best;
      ghost var win := m.window[..];
      DataSizes(win, m.text, m.base, m.strstart, m.lookahead, m.wSize);
      var start;
      len, start := Longest(m.hashBits, m.window, m.prev, m.wSize, m.strstart, m.lookahead, prevLen, config, hashHead,
          m.matchStart, m.head[..], m.ins);
      m.matchStart := start;
      if len > prevLen && len >= MIN_MATCH {
        FoundInText(win, m.text, m.base, m.strstart, m.lookahead, m.wSize, start, len, Since(marks));
      }
    }

    // ---- deflate_slow ----

    /** In a round of deflate_slow, when the search is over. */
    ghost predicate Decided()
      reads this, m, m.window, m.head, m.prev
    {
      && Fixed() && m.Filed() && 0 < matchLength <= MAX_MATCH && (matchAvailable ==> m.strstart >= 1)
      && Tallied(m.base + m.strstart - Deferred()) && Roomy()
      && (prevLength >= MIN_MATCH ==>
            (matchAvailable && MatchOk(m.text, Since(marks), m.base + m.strstart - 1, m.strstart - 1 - prevMatch,
                prevLength, MaxDist(m.wSize))))
      && (matchLength >= MIN_MATCH && matchLength > prevLength ==>
            MatchOk(m.text, Since(marks), m.base + m.strstart, m.strstart - m.matchStart, matchLength,
                MaxDist(m.wSize)))
    }

    /** What is found at the current position after the previous match. */
    ghost predicate SlowFound()
      reads this, m, m.window
    {
      0 <= m.strstart && m.strstart + m.lookahead <= m.window.Length && 0 <= m.lookahead
      && SlowFinds(m.hashBits, m.window[..m.strstart + m.lookahead], m.ins, m.wSize, m.strstart, prevLength, config,
          filtered, matchLength, m.matchStart)
    }

    /** Files the current string and looks for a match that begins at it. */
    method LookFor()
      requires SlowState() && m.lookahead >= 1 && m.strstart + MIN_LOOKAHEAD <= m.window.Length
      modifies this`matchLength, this`prevLength, this`prevMatch, m`insH, m`ins, m`top, m`matchStart, m.head, m.prev
      ensures Decided() && SlowFound() && prevLength == old(matchLength) && prevMatch == old(m.matchStart)
      ensures FiledOn(old(m.ins), m.ins, m.strstart, m.strstart + 1, m.strstart + m.lookahead)
    {
      hide Matcher.Valid, Matcher.Filed, Matcher.Fixed, MatchOk, Tallied, SlowFinds, Latest, FiledOn;
      var hashHead := m.FileString();
      prevLength, prevMatch := matchLength, m.matchStart;
      matchLength := MIN_MATCH - 1;
      assert Decided();
      if hashHead != 0 && prevLength < config.maxLazy
          && m.strstart - hashHead <= MaxDist(m.wSize) {
        Improve(hashHead);
      } else {
        NotSought(hashHead);
      }
    }

    /** There is nothing to search for. */
    lemma NotSought(hashHead: int)
      requires Decided() && matchLength == MIN_MATCH - 1
      requires if m.lookahead >= MIN_MATCH then m.LastAlike(m.strstart, hashHead) else hashHead == 0
      requires hashHead == 0 || prevLength >= config.maxLazy || m.strstart - hashHead > MaxDist(m.wSize)
      ensures SlowFound()
    {
      hide Tallied, MatchOk, DataOk, Chains, Ready, BestAlike, Latest, KeyAt;
      DataSizes(m.window[..], m.text, m.base, m.strstart, m.lookahead, m.wSize);
    }

    /** Looks for a match longer than the previous one; a short match that is far away is dropped. */
    method Improve(hashHead: int)
      requires Decided() && m.strstart + MIN_LOOKAHEAD <= m.window.Length && matchLength == MIN_MATCH - 1
          && 1 <= prevLength < config.maxLazy && prevLength <= MAX_MATCH
      requires hashHead != 0 && m.lookahead >= MIN_MATCH && m.LastAlike(m.strstart, hashHead)
          && m.strstart - hashHead <= MaxDist(m.wSize)
      modifies this`matchLength, m`matchStart
      ensures Decided() && SlowFound()
    {
      hide Matcher.Filed, MatchOk, Tallied, SlowFinds, BestAlike, Latest;
      TalliedEnd(m.base + m.strstart - Deferred());
      DecidedFiled();
      m.FiledParts();
      matchLength := Search(hashHead, prevLength);
      Sought(hashHead, matchLength);
      if matchLength <= 5 && (filtered || (matchLength == MIN_MATCH && m.strstart - m.matchStart > TOO_FAR)) {
        matchLength := MIN_MATCH - 1;
      }
    }

    lemma Sought(hashHead: int, n: int)
      requires m.LastAlike(m.strstart, hashHead) && hashHead != 0 && m.strstart - hashHead <= MaxDist(m.wSize)
      requires prevLength < config.maxLazy && BestAlike(m.hashBits, m.window[..m.strstart + m.lookahead], m.ins,
          m.wSize, m.strstart, prevLength, config, n, m.matchStart)
      ensures SlowFinds(m.hashBits, m.window[..m.strstart + m.lookahead], m.ins, m.wSize, m.strstart, prevLength,
          config, filtered, if Dropped(filtered, n, m.strstart - m.matchStart) then MIN_MATCH - 1 else n, m.matchStart)
    {
      hide BestAlike, KeyAt, Latest, NothingAlike;
      AlikeIs(m.hashBits, m.window[..m.strstart + m.lookahead], m.ins, m.wSize, m.strstart, hashHead);
    }

    /** The previous match, which begins one position back. */
    method TallyMatch() returns (bflush: bool)
      requires Decided() && prevLength >= MIN_MATCH
      modifies this`lastLit
      ensures Tallied(m.base + m.strstart - 1 + prevLength) && prevLength - 1 <= m.lookahead && prevLength <= MAX_MATCH
      ensures lastLit == old(lastLit) + [Match(prevLength, m.strstart - 1 - prevMatch)]
          && bflush == (|lastLit| == litBufsize - 1)
    {
      hide DataOk, Chains, Ready, Found, Told, BlocksOk, ExpandsTo, OnlyFull;
      ghost var a, d, n := m.base + m.strstart, m.strstart - 1 - prevMatch, prevLength;
      DataSizes(m.window[..], m.text, m.base, m.strstart, m.lookahead, m.wSize);
      ToldMatch(marks, blocks, lastLit, m.text, m.base, m.base + m.blockStart, a - 1, MaxDist(m.wSize),
          litBufsize - 1, d, n);
      bflush := Tally(Match(prevLength, m.strstart - 1 - prevMatch));
    }

    lemma DecidedFiled()
      requires Decided()
      ensures Fixed() && m.Filed() && m.Fixed()
    {
      hide Matcher.Data, Matcher.Table, Tallied, MatchOk, Ready;
    }

    /** The previous match was not improved: it is tallied, and its other strings are filed. */
    method EmitMatch() returns (bflush: bool)
      requires Decided() && prevLength >= MIN_MATCH && Open() && m.strstart + MIN_LOOKAHEAD <= m.window.Length
      modifies this, m`insH, m`ins, m`top, m`strstart, m`lookahead, m`blockStart, m.head, m.prev
      ensures Open() && SlowState() && m.base + m.strstart > old(m.base + m.strstart) && m.lookahead < old(m.lookahead)
      ensures Grown(old(blocks), old(lastLit), Match(old(prevLength), old(m.strstart) - 1 - old(prevMatch)),
          litBufsize - 1, blocks, lastLit) && bflush == (lastLit == [])
      ensures marks == old(marks) && log == old(log) && cuts == old(cuts)
      ensures m.strstart == old(m.strstart) - 1 + old(prevLength) && !matchAvailable && matchLength == MIN_MATCH - 1
      ensures FiledOn(old(m.ins), m.ins, old(m.strstart) + 1, m.strstart, old(m.strstart + m.lookahead))
    {
      hide Decided, SlowState, Tallied, Matcher.Filed, Matcher.Valid, Matcher.Fixed, Matcher.Data, FiledOn, ValidConfig;
      DecidedFiled();
      DecidedMatch();
      bflush := TallyMatch();
      m.Skip(prevLength - 2);
      prevLength, matchAvailable, matchLength := 0, false, MIN_MATCH - 1;
      m.ValidParts();
      if bflush { FlushBlockOnly(false); }
      NothingFound();
    }

    lemma NothingFound()
      requires Fixed() && m.Valid() && matchLength == MIN_MATCH - 1 && !matchAvailable && Tallied(m.base + m.strstart)
          && Roomy()
      ensures SlowState()
    {
      hide Tallied, Matcher.Valid;
    }

    /** The byte before the current position. */
    method TallyByte() returns (bflush: bool)
      requires Decided() && matchAvailable
      modifies this`lastLit
      ensures Tallied(m.base + m.strstart) && 0 <= m.base + m.strstart - 1 < |m.text|
      ensures lastLit == old(lastLit) + [Literal(m.text[m.base + m.strstart - 1])]
          && bflush == (|lastLit| == litBufsize - 1)
    {
      hide DataOk, Chains, Ready, Found, Told, BlocksOk, ExpandsTo, OnlyFull, MatchOk;
      ghost var a := m.base + m.strstart;
      DataSizes(m.window[..], m.text, m.base, m.strstart, m.lookahead, m.wSize);
      ToldLiteral(marks, blocks, lastLit, m.text, m.base, m.base + m.blockStart, a - 1, MaxDist(m.wSize),
          litBufsize - 1);
      bflush := Tally(Literal(m.window[m.strstart - 1]));
    }

    /** The match found is deferred to the next round. */
    lemma NowDeferred(dist: int)
      requires Fixed() && m.Valid() && matchAvailable && m.strstart >= 1 && Tallied(m.base + m.strstart - 1)
          && 0 < matchLength <= MAX_MATCH && Roomy()
      requires matchLength >= MIN_MATCH
          ==> MatchOk(m.text, Since(marks), m.base + m.strstart - 1, dist, matchLength, MaxDist(m.wSize))
      requires dist == m.strstart - 1 - m.matchStart
      ensures SlowState()
    {
      hide Tallied, Matcher.Valid, MatchOk;
    }

    lemma DecidedMatch()
      requires Decided()
      ensures 0 < matchLength <= MAX_MATCH && (matchAvailable ==> m.strstart >= 1) && m.lookahead >= 1
      ensures matchLength >= MIN_MATCH && matchLength > prevLength ==>
        MatchOk(m.text, Since(marks), m.base + m.strstart, m.strstart - m.matchStart, matchLength, MaxDist(m.wSize))
      ensures 0 <= m.strstart && Fixed() && Roomy()
    {
      hide Tallied, Matcher.Fixed, Matcher.Table, Ready, MatchOk, DataOk;
      DataSizes(m.window[..], m.text, m.base, m.strstart, m.lookahead, m.wSize);
    }

    /** A single byte, because nothing matched or because the next match is longer. */
    method EmitLiteral()
      requires Decided() && matchAvailable && (prevLength < MIN_MATCH || matchLength > prevLength)
      requires Open() && m.strstart + MIN_LOOKAHEAD <= m.window.Length
      modifies this`lastLit, this`blocks, m`strstart, m`lookahead, m`blockStart
      ensures Open() && SlowState() && m.strstart == old(m.strstart) + 1 && m.lookahead < old(m.lookahead)
      ensures 0 <= m.base + m.strstart - 2 < |m.text| && Grown(old(blocks), old(lastLit),
          Literal(m.text[m.base + m.strstart - 2]), litBufsize - 1, blocks, lastLit)
    {
      hide Decided, SlowState, Tallied, MatchOk, Matcher.Filed, Matcher.Valid, Matcher.Fixed, Matcher.Data;
      DecidedFiled();
      DecidedMatch();
      m.FiledParts();
      var bflush := TallyByte();
      if bflush { FlushBlockOnly(false); }
      m.Advance();
      NowDeferred(old(m.strstart - m.matchStart));
    }

    /** There is no previous match to compare with: the next round decides. */
    method Defer()
      requires Decided() && !matchAvailable
      modifies this`matchAvailable, m`strstart, m`lookahead
      ensures SlowState() && matchAvailable && m.strstart == old(m.strstart) + 1 && m.lookahead < old(m.lookahead)
    {
      hide DataOk, Chains, Ready, Told, BlocksOk, ExpandsTo, OnlyFull, MatchOk;
      DataSizes(m.window[..], m.text, m.base, m.strstart, m.lookahead, m.wSize);
      matchAvailable := true;
      m.Advance();
    }

    /** One round of deflate_slow; `ask` when the output has to be looked at.  It finds a match of len
        bytes at start; a match is adopted only if the next position has no better one, and otherwise
        the byte before that position is sent, or deferred. */
    method SlowStep() returns (ask: bool, ghost len: int, ghost start: int, ghost filed: set<int>)
      requires Open() && SlowState() && m.lookahead >= 1 && m.strstart + MIN_LOOKAHEAD <= m.window.Length
      modifies this, m`insH, m`ins, m`top, m`matchStart, m`strstart, m`lookahead, m`blockStart, m.head, m.prev
      ensures Open() && SlowState() && m.base + m.strstart > old(m.base + m.strstart) && m.lookahead < old(m.lookahead)
      ensures marks == old(marks) && log == old(log) && cuts == old(cuts)
      ensures 0 <= old(m.strstart) <= old(m.strstart + m.lookahead) <= m.window.Length
      ensures FiledOn(old(m.ins), filed, old(m.strstart), old(m.strstart) + 1, old(m.strstart + m.lookahead))
      ensures SlowFinds(m.hashBits, old(m.window[..m.strstart + m.lookahead]), filed, m.wSize, old(m.strstart),
          old(matchLength), config, filtered, len, start)
      ensures if old(matchLength) >= MIN_MATCH && len <= old(matchLength) then
          Grown(old(blocks), old(lastLit), Match(old(matchLength), old(m.strstart) - 1 - old(m.matchStart)),
            litBufsize - 1, blocks, lastLit) && ask == (lastLit == [])
          && m.strstart == old(m.strstart) - 1 + old(matchLength) && !matchAvailable && matchLength == MIN_MATCH - 1
          && FiledOn(filed, m.ins, old(m.strstart) + 1, m.strstart, old(m.strstart + m.lookahead))
        else
          m.strstart == old(m.strstart) + 1 && matchAvailable && matchLength == len && m.matchStart == start
          && m.ins == filed && ask == old(matchAvailable)
          && if old(matchAvailable) then
               0 <= m.base + m.strstart - 2 < |m.text| && Grown(old(blocks), old(lastLit),
                 Literal(m.text[m.base + m.strstart - 2]), litBufsize - 1, blocks, lastLit)
             else blocks == old(blocks) && lastLit == old(lastLit)
    {
      hide *;
      LookFor();
      FoundParts();
      len, start, filed := matchLength, m.matchStart, m.ins;
      if prevLength >= MIN_MATCH && matchLength <= prevLength {
        ask := EmitMatch();
      } else if matchAvailable {
        EmitLiteral();
        ask := true;
      } else {
        Defer();
        ask := false;
      }
    }

    lemma SlowIs()
      requires Slow()
      ensures SlowState() && SlowLog()
    {
      hide SlowState, SlowLog;
    }

    lemma IsSlow()
      requires SlowState() && SlowLog()
      ensures Slow()
    {
      hide SlowState, SlowLog;
    }

    lemma SlowLogParts()
      requires SlowLog()
      ensures IsRun(RulesFor(true), log, m.text, cuts, Sent())
      ensures StandsAt(RulesFor(true), log, Held(matchLength, m.strstart - 1 - m.matchStart, matchAvailable),
          m.base + m.strstart, m.base, m.ins) && Sighted()
    {
      hide IsRun, StandsAt, RulesFor, Sent, Sighted;
    }

    lemma SlowLogIs(ts: seq<Token>)
      requires IsRun(RulesFor(true), log, m.text, cuts, ts) && ts == Sent()
      requires StandsAt(RulesFor(true), log, Held(matchLength, m.strstart - 1 - m.matchStart, matchAvailable),
          m.base + m.strstart, m.base, m.ins) && Sighted()
      ensures SlowLog()
    {
      hide IsRun, StandsAt, RulesFor, Sent, Sighted;
    }

    /** The window, as far as the lookahead goes, is the text from its beginning on. */
    lemma WindowIsText()
      requires m.Data()
      ensures 0 <= m.base && 0 <= m.strstart && 0 <= m.lookahead && m.strstart + m.lookahead <= m.window.Length
      ensures |m.text| == m.base + m.strstart + m.lookahead
          && m.window[..m.strstart + m.lookahead] == m.text[m.base..|m.text|]
    {
    }

    lemma RulesAre(lazy: bool)
      ensures var s := RulesFor(lazy);
        s.lazy == lazy && s.bits == m.hashBits && s.wSize == m.wSize && s.config == config && s.filtered == filtered
      ensures Sent() == Flat(blocks) + lastLit
    {
      hide Flat;
    }

    lemma SightedParts()
      requires Sighted()
      ensures AllSee(m.wSize, log, Resets(), cuts) && ReachesBack(m.wSize, m.base, m.base + m.strstart, Resets())
    {
      hide AllSee, ReachesBack, Resets;
    }

    /** A round was seen, and it has gone on within the window. */
    lemma SightedLooked(log0: seq<Event>, r: Round)
      requires AllSee(m.wSize, log0, Resets(), cuts) && log == log0 + [Looked(r)]
      requires ReachesBack(m.wSize, r.base, r.at, Resets()) && (r.end - r.at >= MIN_LOOKAHEAD || r.end in cuts)
      requires m.base == r.base && m.base + m.strstart >= r.at
      ensures Sighted()
    {
      hide Resets, AllSee;
      SeesMore(m.wSize, log0, Looked(r), Resets(), cuts);
    }

    lemma SightedPassed(log0: seq<Event>, at: int)
      requires AllSee(m.wSize, log0, Resets(), cuts) && log == log0 + [Passed(at)]
      requires ReachesBack(m.wSize, m.base, m.base + m.strstart, Resets())
      ensures Sighted()
    {
      hide Resets, AllSee;
      SeesMore(m.wSize, log0, Passed(at), Resets(), cuts);
    }

    lemma SightedFilled(p: Position)
      requires AllSee(m.wSize, log, Resets(), cuts)
      requires ReachesBack(m.wSize, p.base, p.base + p.strstart, Resets()) && Filled(p, m.Here())
      ensures Sighted()
    {
      hide Resets, AllSee, KeptOn;
    }

    lemma SightedForgot(marks0: seq<FlushPoint>)
      requires marks0 <= marks && |marks| == |marks0| + 1 && marks[|marks0|].pos == m.base
      requires AllSee(m.wSize, log, set p | p in marks0 :: p.pos, cuts)
      ensures Sighted()
    {
      hide AllSee;
      var resets := set p | p in marks0 :: p.pos;
      forall x | x in resets ensures x in Resets() {
        var p :| p in marks0 && p.pos == x;
        assert p in marks;
      }
      assert marks[|marks0|] in marks;
      SeesStill(m.wSize, log, resets, cuts, Resets(), cuts);
    }

    lemma ResetsAre()
      ensures Resets() == set p | p in marks :: p.pos
    {
    }

    /** One round of deflate_slow, as part of a run. */
    method SlowRound() returns (ask: bool)
      requires Open() && Slow() && m.lookahead >= 1 && m.strstart + MIN_LOOKAHEAD <= m.window.Length
      requires m.lookahead >= MIN_LOOKAHEAD || |m.text| in cuts
      modifies this, m`insH, m`ins, m`top, m`matchStart, m`strstart, m`lookahead, m`blockStart, m.head, m.prev
      ensures Open() && Slow() && Ahead() < old(Ahead()) && All() == old(All())
      ensures marks == old(marks) && cuts == old(cuts)
    {
      hide *;
      AllAre();
      SlowIs();
      SlowParts();
      WindowIsText();
      SlowLogParts();
      SightedParts();
      RulesAre(true);
      ghost var s, text, base, at, end := RulesFor(true), m.text, m.base, m.strstart, m.strstart + m.lookahead;
      ghost var held, ts, ins := Held(matchLength, at - 1 - m.matchStart, matchAvailable), Sent(), m.ins;
      ghost var len, start, filed;
      ask, len, start, filed := SlowStep();
      ghost var r := Round(base + at, base, base + end, filed, len, at - start);
      ghost var held1 := Held(matchLength, m.strstart - 1 - m.matchStart, matchAvailable);
      assert text[r.base..r.end] == text[base..|text|];
      SlowFollows(s, held, r, text, m.ins, m.base + m.strstart, held1, old(blocks), old(lastLit), blocks, lastLit,
          litBufsize - 1);
      Looks(s, log, text, cuts, ts, held, base + at, base, ins, r, m.ins);
      StandsSame(s, log + [Looked(r)], HeldNext(s, held, Looked(r)), held1, base + m.strstart, base, m.ins);
      RulesAre(true);
      ghost var log0 := log;
      log := log + [Looked(r)];
      SightedLooked(log0, r);
      SlowLogIs(ts + TokenOf(s, held, Looked(r), text));
      IsSlow();
      AllAre();
    }

    lemma AllAre()
      ensures All() == m.text + m.availIn && Ahead() == |m.text| + |m.availIn| - (m.base + m.strstart)
    {
    }

    lemma FoundParts()
      requires SlowFound()
      ensures 0 <= m.strstart <= m.strstart + m.lookahead <= m.window.Length
      ensures SlowFinds(m.hashBits, m.window[..m.strstart + m.lookahead], m.ins, m.wSize, m.strstart, prevLength,
          config, filtered, matchLength, m.matchStart)
    {
      hide SlowFinds;
    }

    /** The window is filled up; what was tallied and found stays as it is. */
    method RefillState()
      requires SlowState() && m.lookahead < MIN_LOOKAHEAD
      modifies m, m.window, m.head, m.prev
      ensures SlowState() && Filled(old(m.Here()), m.Here()) && m.strstart + MIN_LOOKAHEAD <= m.window.Length
      ensures m.lookahead >= MIN_LOOKAHEAD || m.availIn == []
    {
      hide m.Valid, Told, BlocksOk, ExpandsTo, OnlyFull, MatchOk, KeptOn;
      ghost var t0, base0 := m.text, m.base;
      ghost var a, d, end := m.base + m.strstart, m.strstart - 1 - m.matchStart, m.base + m.blockStart;
      m.FillWindow();
      ToldMoreText(marks, blocks, lastLit, t0, base0, end, a - Deferred(), MaxDist(m.wSize), litBufsize - 1, m.text,
          m.base);
      if matchLength >= MIN_MATCH {
        MatchMoreText(t0, Since(marks), a - 1, d, matchLength, MaxDist(m.wSize), m.text);
      }
    }

    /** The window is filled up, as part of a run. */
    method Refill()
      requires Slow() && m.lookahead < MIN_LOOKAHEAD
      modifies m, m.window, m.head, m.prev
      ensures Slow() && Filled(old(m.Here()), m.Here()) && m.strstart + MIN_LOOKAHEAD <= m.window.Length
      ensures (m.lookahead >= MIN_LOOKAHEAD || m.availIn == []) && All() == old(All()) && Ahead() == old(Ahead())
    {
      hide *;
      AllAre();
      SlowIs();
      SlowLogParts();
      SightedParts();
      ghost var p, s, ts := m.Here(), RulesFor(true), Sent();
      ghost var held, at := Held(matchLength, m.strstart - 1 - m.matchStart, matchAvailable), m.base + m.strstart;
      PositionParts();
      RefillState();
      PositionParts();
      RunFilled(s, log, cuts, ts, held, at, p, m.Here());
      FilledText(p, m.Here());
      AllAre();
      SightedFilled(p);
      SlowLogIs(ts);
      IsSlow();
    }

    lemma FilledText(p: Position, q: Position)
      requires Filled(p, q)
      ensures p.text + p.availIn == q.text + q.availIn && p.base + p.strstart == q.base + q.strstart
      ensures |p.text| + |p.availIn| == |q.text| + |q.availIn|
    {
      hide KeptOn;
      assert |p.text + p.availIn| == |q.text + q.availIn|;
    }

    lemma PositionParts()
      ensures var p := m.Here();
        p.base == m.base && p.strstart == m.strstart && p.matchBack == m.strstart - m.matchStart && p.ins == m.ins
        && p.text == m.text && p.availIn == m.availIn && p.lookahead == m.lookahead
    {
    }

    /** Nothing is deferred any more. */
    ghost predicate Ending()
      reads this`matchLength, this`matchAvailable, this`lastLit, this`blocks, this`marks, this`cuts, m, m.window,
          m.head, m.prev
    {
      Fixed() && m.Valid() && 0 < matchLength < MIN_MATCH && !matchAvailable && Tallied(m.base + m.strstart)
    }

    /** What is left when no lookahead is: the deferred byte. */
    method Finishing()
      requires SlowState() && m.lookahead == 0
      modifies this`lastLit, this`matchAvailable, m`insert
      ensures Ending() && m.base + m.strstart == |m.text|
      ensures if old(matchAvailable) then
          0 <= |m.text| - 1 && lastLit == old(lastLit) + [Literal(m.text[|m.text| - 1])]
        else lastLit == old(lastLit)
    {
      hide DataOk, Chains, Ready, Told, BlocksOk, ExpandsTo, OnlyFull;
      ghost var a := m.base + m.strstart;
      DataSizes(m.window[..], m.text, m.base, m.strstart, m.lookahead, m.wSize);
      if matchAvailable {
        ToldLiteral(marks, blocks, lastLit, m.text, m.base, m.base + m.blockStart, a - 1, MaxDist(m.wSize),
            litBufsize - 1);
        var _ := Tally(Literal(m.window[m.strstart - 1]));
        matchAvailable := false;
      }
      m.KeepLast();
    }

    /** All that there is: read or still waiting. */
    ghost function All(): seq<Byte>
      reads m
    {
      m.text + m.availIn
    }

    /** How much of it is still ahead. */
    ghost function Ahead(): int
      reads m
    {
      |m.text| + |m.availIn| - (m.base + m.strstart)
    }

    lemma AheadIs()
      requires m.Data()
      ensures Ahead() == m.lookahead + |m.availIn| && 0 <= m.lookahead && m.strstart + m.lookahead <= m.window.Length
      ensures MIN_LOOKAHEAD == 262
      ensures |m.text| == m.base + m.strstart + m.lookahead
    {
      hide DataOk;
      DataSizes(m.window[..], m.text, m.base, m.strstart, m.lookahead, m.wSize);
    }

    /** The end of either function: the last block, and what is reported. */
    method Close(flush: Flush, full: bool) returns (state: BlockState)
      requires m.Fixed() && m.Data() && m.Valid() && Tallied(m.base + m.strstart) && Open()
          && m.strstart < m.window.Length && m.base + m.strstart in cuts
      modifies this`lastLit, this`blocks, m`blockStart
      ensures flush != Finish ==> Open()
      ensures m.Valid() && Tallied(m.base + m.strstart) && lastLit == [] && Sent() == old(Sent())
      ensures flush == Finish ==>
        state == (if full then FinishStarted else FinishDone) && Emitted(old(blocks), old(lastLit), blocks, true)
      ensures flush != Finish ==>
        if old(lastLit) == [] then state == BlockDone && blocks == old(blocks)
        else state == (if full then NeedMore else BlockDone) && Emitted(old(blocks), old(lastLit), blocks, false)
    {
      hide Matcher.Valid, Matcher.Fixed, Matcher.Data, Tallied, Emitted, Flat;
      if flush == Finish {
        FlushBlockOnly(true);
        EmittedFlat(old(blocks), old(lastLit), blocks, true);
        return if full then FinishStarted else FinishDone;
      }
      if lastLit != [] {
        FlushBlockOnly(false);
        EmittedFlat(old(blocks), old(lastLit), blocks, false);
        if full { return NeedMore; }
      }
      state := BlockDone;
    }

    /** Reported when all input is passed over. */
    ghost predicate Over(state: BlockState)
      reads this, m
    {
      state != NeedMore ==>
        m.availIn == [] && !matchAvailable && lastLit == [] && m.base + m.strstart == |m.text|
    }

    /** deflate_slow: one call.  `full` tells each time it is asked whether the output buffer is
        used up. */
    method DeflateSlow(flush: Flush, full: nat -> bool) returns (state: BlockState)
      requires Slow() && Open()
      modifies this, m, m.window, m.head, m.prev
      ensures state == NeedMore || state == BlockDone ==> Open()
      ensures flush == Finish ==> state != BlockDone && ((forall n :: !full(n)) ==> state == FinishDone)
      ensures flush != Finish && flush != NoFlush && (forall n :: !full(n)) ==> state == BlockDone
      ensures flush == NoFlush ==>
        state == NeedMore && ((forall n :: !full(n)) ==> m.availIn == [] && m.lookahead < MIN_LOOKAHEAD)
      ensures Slow() && All() == old(All()) && marks == old(marks) && Over(state)
      ensures CutsAdded(old(cuts), flush)
      ensures state == FinishDone || state == FinishStarted ==>
        flush == Finish && blocks != [] && blocks[|blocks| - 1].last
    {
      hide *;
      if flush != NoFlush { CutHere(); }
      AllAre();
      CutsAre(old(cuts), old(All()), flush);
      var asked: nat := 0;
      while true
        invariant Slow() && Open() && All() == old(All()) && marks == old(marks)
        invariant cuts == old(cuts) + if flush == NoFlush then {} else {|old(All())|}
        decreases Ahead()
      {
        SlowParts();
        AheadIs();
        if m.lookahead < MIN_LOOKAHEAD {
          Refill();
          SlowParts();
          AheadIs();
          CutsAre(old(cuts), old(All()), flush);
          if m.lookahead < MIN_LOOKAHEAD && flush == NoFlush { return NeedMore; }
          if m.availIn == [] { AllRead(old(All())); }
          if m.lookahead == 0 { break; }
        }
        var ask := SlowRound();
        if ask {
          var stop := full(asked);
          asked := asked + 1;
          CutsAre(old(cuts), old(All()), flush);
          if stop { return NeedMore; }
        }
      }
      state := EndSlow(flush, full(asked));
      CutsAre(old(cuts), old(All()), flush);
    }

    /** Only a flush ends a run, and a block that is not full. */
    ghost predicate CutsAdded(cuts0: set<int>, flush: Flush)
      reads this`cuts, m`text, m`availIn
    {
      cuts == cuts0 + if flush == NoFlush then {} else {|m.text| + |m.availIn|}
    }

    lemma CutsAre(cuts0: set<int>, all: seq<Byte>, flush: Flush)
      requires All() == all && cuts == cuts0 + if flush == NoFlush then {} else {|all|}
      ensures CutsAdded(cuts0, flush) && Over(NeedMore)
    {
      assert |m.text + m.availIn| == |all|;
    }

    /** At the end of the input that was brought the text is all of it. */
    lemma AllRead(all: seq<Byte>)
      requires m.availIn == [] && All() == all
      ensures m.text == all
    {
      assert m.text + [] == m.text;
    }

    lemma IsOver(state: BlockState)
      requires m.availIn == [] && !matchAvailable && lastLit == [] && m.base + m.strstart == |m.text|
      ensures Over(state)
    {
    }

    /** The deferred byte is sent, as part of a run. */
    method PassAll()
      requires Slow() && m.lookahead == 0 && m.base + m.strstart in cuts
      modifies this`lastLit, this`matchAvailable, this`log, m`insert
      ensures Ending() && SlowLog() && m.base + m.strstart == |m.text|
    {
      hide *;
      SlowIs();
      SlowLogParts();
      SlowParts();
      WindowIsText();
      RulesAre(true);
      ghost var s, text, ts, base, ins := RulesFor(true), m.text, Sent(), m.base, m.ins;
      ghost var held, at := Held(matchLength, m.strstart - 1 - m.matchStart, matchAvailable), m.base + m.strstart;
      Passes(s, log, text, cuts, ts, held, at, base, ins);
      ghost var ts0 := lastLit;
      Finishing();
      EndingLength();
      PassedToken(s, held, at, text, Flat(blocks), ts0, lastLit);
      RulesAre(true);
      SightedParts();
      ghost var log0 := log;
      log := log + [Passed(at)];
      SightedPassed(log0, at);
      SlowLogIs(ts + TokenOf(s, held, Passed(at), text));
    }

    /** All input is passed over: the deferred byte, and the last block. */
    method EndSlow(flush: Flush, full: bool) returns (state: BlockState)
      requires Slow() && m.lookahead == 0 && Open() && m.strstart < m.window.Length && m.availIn == []
          && |m.text| in cuts
      ensures flush == Finish ==> state == (if full then FinishStarted else FinishDone)
      ensures flush != Finish ==> state == BlockDone || (state == NeedMore && full)
      modifies this`lastLit, this`blocks, this`matchAvailable, this`log, m`insert, m`blockStart
      ensures state == NeedMore || state == BlockDone ==> Open()
      ensures Slow() && Over(state) && All() == old(All())
      ensures state == FinishDone || state == FinishStarted ==>
        flush == Finish && blocks != [] && blocks[|blocks| - 1].last
    {
      hide *;
      AllAre();
      SlowParts();
      AheadIs();
      PassAll();
      EndingParts();
      EndingLength();
      SlowLogParts();
      ghost var ts, bs0, ts0 := Sent(), blocks, lastLit;
      state := Close(flush, full);
      if flush == Finish { LastOf(bs0, ts0, blocks); }
      NothingIsDeferred();
      SlowLogIs(ts);
      IsSlow();
      IsOver(state);
      AllAre();
    }

    /** A flush: blocks and runs may end at the end of what was brought. */
    ghost method CutHere()
      modifies this`cuts
      ensures cuts == old(cuts) + {|All()|}
      ensures (old(Slow()) ==> Slow()) && (old(Fast()) ==> Fast())
    {
      hide Told, OnlyFull, IsRun, StandsAt, Matcher.Valid, MatchOk, Flat, Fixed, AllSee, ReachesBack, Resets;
      ghost var at := |All()|;
      if AllSee(m.wSize, log, Resets(), cuts) {
        SeesStill(m.wSize, log, Resets(), cuts, Resets(), cuts + {at});
      }
      if OnlyFull(blocks, m.base + m.blockStart, litBufsize - 1, cuts) {
        OnlyFullMore(blocks, m.base + m.blockStart, litBufsize - 1, cuts, cuts + {at});
      }
      if IsRun(RulesFor(true), log, m.text, cuts, Sent()) {
        RunMoreText(RulesFor(true), log, m.text, cuts, Sent(), m.text, cuts + {at});
      }
      if IsRun(RulesFor(false), log, m.text, cuts, Sent()) {
        RunMoreText(RulesFor(false), log, m.text, cuts, Sent(), m.text, cuts + {at});
      }
      cuts := cuts + {at};
    }

    lemma EndingLength()
      requires Ending()
      ensures 0 < matchLength < MIN_MATCH && !matchAvailable && Fixed()
    {
      hide Tallied, Matcher.Valid, Fixed;
    }

    lemma EndingParts()
      requires Ending()
      ensures m.Fixed() && m.Data() && m.Valid() && Tallied(m.base + m.strstart)
    {
      hide Tallied, Matcher.Fixed, Matcher.Data, Matcher.Table, Matcher.Hash;
    }

    lemma NothingIsDeferred()
      requires Fixed() && m.Valid() && 0 < matchLength < MIN_MATCH && !matchAvailable && Tallied(m.base + m.strstart)
          && lastLit == []
      ensures SlowState()
    {
      hide Tallied, Matcher.Valid;
    }

    lemma SlowParts()
      requires Slow()
      ensures m.Fixed() && m.Data() && m.Valid() && Tallied(m.base + m.strstart - Deferred())
    {
      hide Matcher.Fixed, Matcher.Data, Matcher.Table, Matcher.Hash, Tallied, MatchOk;
    }

    /** The caller brings more input for the next call. */
    method Feed(more: seq<Byte>)
      modifies m`availIn
      ensures All() == old(All()) + more && (old(Slow()) ==> Slow()) && (old(Fast()) ==> Fast())
      ensures m.availIn == old(m.availIn) + more
    {
      hide DataOk, Chains, HashOk, Told, MatchOk, IsRun, StandsAt, OnlyFull;
      ghost var t, a := m.text, m.availIn;
      m.availIn := m.availIn + more;
      assert t + (a + more) == t + a + more;
    }

    // ---- deflate_fast ----

    /** In a round of deflate_fast, when the search is over. */
    ghost predicate FastDecided()
      reads this, m, m.window, m.head, m.prev
    {
      && Fixed() && m.Filed() && prevLength == MIN_MATCH - 1 && !matchAvailable && Tallied(m.base + m.strstart)
      && Roomy() && (matchLength >= MIN_MATCH ==>
            (m.lookahead >= MIN_MATCH && matchLength <= m.lookahead && MatchOk(m.text, Since(marks),
                m.base + m.strstart, m.strstart - m.matchStart, matchLength, MaxDist(m.wSize))))
    }

    /** What is found at the current position. */
    ghost predicate FastFound()
      reads this, m, m.window
    {
      0 <= m.strstart && m.strstart + m.lookahead <= m.window.Length && 0 <= m.lookahead
      && FastFinds(m.hashBits, m.window[..m.strstart + m.lookahead], m.ins, m.wSize, m.strstart, config, matchLength,
          m.matchStart)
    }

    method FastLookFor()
      requires FastState() && m.lookahead >= 1 && m.strstart + MIN_LOOKAHEAD <= m.window.Length
      modifies this`matchLength, m`insH, m`ins, m`top, m`matchStart, m.head, m.prev
      ensures FastDecided() && FastFound()
      ensures FiledOn(old(m.ins), m.ins, m.strstart, m.strstart + 1, m.strstart + m.lookahead)
    {
      hide Matcher.Valid, Matcher.Filed, Matcher.Fixed, MatchOk, Tallied, FastFinds, BestAlike, Latest, FiledOn;
      TalliedEnd(m.base + m.strstart);
      var hashHead := m.FileString();
      if hashHead != 0 && m.strstart - hashHead <= MaxDist(m.wSize) {
        matchLength := Search(hashHead, prevLength);
        FastSought(hashHead);
      } else {
        FastNotSought(hashHead);
      }
    }

    lemma FastSought(hashHead: int)
      requires m.LastAlike(m.strstart, hashHead) && hashHead != 0 && m.strstart - hashHead <= MaxDist(m.wSize)
      requires BestAlike(m.hashBits, m.window[..m.strstart + m.lookahead], m.ins, m.wSize, m.strstart, MIN_MATCH - 1,
          config, matchLength, m.matchStart) && m.lookahead >= MIN_MATCH
      ensures FastFound()
    {
      hide BestAlike, KeyAt, Latest, NothingAlike;
      AlikeIs(m.hashBits, m.window[..m.strstart + m.lookahead], m.ins, m.wSize, m.strstart, hashHead);
    }

    lemma FastNotSought(hashHead: int)
      requires Fixed() && m.Filed() && matchLength < MIN_MATCH
      requires if m.lookahead >= MIN_MATCH then m.LastAlike(m.strstart, hashHead) else hashHead == 0
      requires hashHead == 0 || m.strstart - hashHead > MaxDist(m.wSize)
      ensures FastFound()
    {
      hide DataOk, Chains, Ready, BestAlike, Latest, KeyAt;
      DataSizes(m.window[..], m.text, m.base, m.strstart, m.lookahead, m.wSize);
    }

    lemma FiledSize()
      requires m.Filed()
      ensures 512 <= m.wSize <= 32768
    {
      hide DataOk, Chains, Ready;
    }

    /** A match: its strings are filed if it is short, and passed over otherwise. */
    method FastMatch() returns (bflush: bool)
      requires FastDecided() && matchLength >= MIN_MATCH && m.strstart + MIN_LOOKAHEAD <= m.window.Length
      modifies this`lastLit, this`matchLength, m`insH, m`ins, m`top, m`strstart, m`lookahead, m.head, m.prev
      ensures Fixed() && m.Valid() && prevLength == MIN_MATCH - 1 && !matchAvailable && Tallied(m.base + m.strstart)
      ensures matchLength == 0 && bflush == (|lastLit| == litBufsize - 1) && (!bflush ==> Roomy())
      ensures lastLit == old(lastLit) + [Match(old(matchLength), old(m.strstart - m.matchStart))]
      ensures m.strstart == old(m.strstart + matchLength) && m.lookahead == old(m.lookahead - matchLength)
          && old(matchLength) <= MAX_MATCH
      ensures FiledOn(old(m.ins), m.ins, old(m.strstart) + 1,
          old(m.strstart) + FiledLength(config, old(matchLength), old(m.lookahead)), old(m.strstart + m.lookahead))
    {
      hide DataOk, Chains, Ready, Found, Told, BlocksOk, ExpandsTo, OnlyFull, Matcher.Valid, Matcher.Filed, FiledOn;
      ghost var a, d, n := m.base + m.strstart, m.strstart - m.matchStart, matchLength;
      FiledSize();
      NoneFiled(m.ins, m.strstart + 1, m.strstart + m.lookahead);
      ToldMatch(marks, blocks, lastLit, m.text, m.base, m.base + m.blockStart, a, MaxDist(m.wSize), litBufsize - 1,
          d, n);
      bflush := Tally(Match(matchLength, m.strstart - m.matchStart));
      if matchLength <= config.maxLazy && m.lookahead - matchLength >= MIN_MATCH {
        m.Skip(matchLength - 1);
      } else {
        m.Jump(matchLength);
      }
      matchLength := 0;
    }

    method FastLiteral() returns (bflush: bool)
      requires FastDecided() && matchLength < MIN_MATCH
      modifies this`lastLit, m`strstart, m`lookahead
      ensures Fixed() && m.Valid() && prevLength == MIN_MATCH - 1 && !matchAvailable && Tallied(m.base + m.strstart)
      ensures bflush == (|lastLit| == litBufsize - 1) && (!bflush ==> Roomy())
      ensures m.strstart == old(m.strstart) + 1 && m.lookahead == old(m.lookahead) - 1
      ensures 0 <= m.base + m.strstart - 1 < |m.text|
          && lastLit == old(lastLit) + [Literal(m.text[m.base + m.strstart - 1])]
    {
      hide DataOk, Chains, Ready, Told, BlocksOk, ExpandsTo, OnlyFull, MatchOk;
      ghost var a := m.base + m.strstart;
      DataSizes(m.window[..], m.text, m.base, m.strstart, m.lookahead, m.wSize);
      ToldLiteral(marks, blocks, lastLit, m.text, m.base, m.base + m.blockStart, a, MaxDist(m.wSize), litBufsize - 1);
      bflush := Tally(Literal(m.window[m.strstart]));
      m.Advance();
    }

    lemma FastParts()
      requires Fast()
      ensures m.Fixed() && m.Data() && m.Valid() && Tallied(m.base + m.strstart)
    {
      hide Matcher.Fixed, Matcher.Data, Matcher.Table, Matcher.Hash, Tallied;
    }

    method FastRefillState()
      requires FastState() && m.lookahead < MIN_LOOKAHEAD
      modifies m, m.window, m.head, m.prev
      ensures FastState() && Filled(old(m.Here()), m.Here())
      ensures m.strstart + MIN_LOOKAHEAD <= m.window.Length && (m.lookahead >= MIN_LOOKAHEAD || m.availIn == [])
    {
      hide m.Valid, Told, BlocksOk, ExpandsTo, OnlyFull, KeptOn;
      ghost var t0, base0, a, end := m.text, m.base, m.base + m.strstart, m.base + m.blockStart;
      m.FillWindow();
      ToldMoreText(marks, blocks, lastLit, t0, base0, end, a, MaxDist(m.wSize), litBufsize - 1, m.text, m.base);
    }

    /** One round of deflate_fast; `stop` when the output buffer is used up.  It finds a match of len
        bytes at start, and sends it, or the byte if there is none. */
    method FastStep(full: bool) returns (stop: bool, asked: bool, ghost len: int, ghost start: int,
      ghost filed: set<int>)
      requires Open() && FastState() && m.lookahead >= 1 && m.strstart + MIN_LOOKAHEAD <= m.window.Length
      modifies this`matchLength, this`lastLit, this`blocks, m`insH, m`ins, m`top, m`matchStart, m`strstart,
        m`lookahead, m`blockStart, m.head, m.prev
      ensures Open() && FastState() && m.base + m.strstart > old(m.base + m.strstart) && m.lookahead < old(m.lookahead)
      ensures stop == (asked && full) && asked == (lastLit == [])
      ensures 0 <= old(m.strstart) <= old(m.strstart + m.lookahead) <= m.window.Length
      ensures FiledOn(old(m.ins), filed, old(m.strstart), old(m.strstart) + 1, old(m.strstart + m.lookahead))
      ensures FastFinds(m.hashBits, old(m.window[..m.strstart + m.lookahead]), filed, m.wSize, old(m.strstart),
          config, len, start)
      ensures if len >= MIN_MATCH then
          Grown(old(blocks), old(lastLit), Match(len, old(m.strstart) - start), litBufsize - 1, blocks, lastLit)
          && m.strstart == old(m.strstart) + len && FiledOn(filed, m.ins, old(m.strstart) + 1,
            old(m.strstart) + FiledLength(config, len, old(m.lookahead)), old(m.strstart + m.lookahead))
        else
          m.strstart == old(m.strstart) + 1 && m.ins == filed && 0 <= m.base + m.strstart - 1 < |m.text|
          && Grown(old(blocks), old(lastLit), Literal(m.text[m.base + m.strstart - 1]), litBufsize - 1, blocks, lastLit)
    {
      hide *;
      Constants();
      FastLookFor();
      FastFoundParts();
      len, start, filed := matchLength, m.matchStart, m.ins;
      if matchLength >= MIN_MATCH {
        asked := FastMatch();
      } else {
        asked := FastLiteral();
      }
      stop := false;
      m.ValidParts();
      ghost var t := lastLit[|lastLit| - 1];
      if asked {
        FlushBlockOnly(false);
        stop := full;
      }
      IsGrown(old(blocks), old(lastLit), t, litBufsize - 1, blocks, lastLit);
      RoomAgain();
      NothingFast();
    }

    lemma Constants()
      ensures MIN_MATCH == 3 && MAX_MATCH == 258 && MIN_LOOKAHEAD == 262
    {
    }

    lemma IsGrown(bs: seq<Flushed>, ts: seq<Token>, t: Token, limit: int, bs1: seq<Flushed>, ts1: seq<Token>)
      requires if |ts| + 1 == limit then Emitted(bs, ts + [t], bs1, false) && ts1 == []
        else bs1 == bs && ts1 == ts + [t]
      ensures Grown(bs, ts, t, limit, bs1, ts1)
    {
      hide Emitted;
    }

    /** A buffer that was full has become a block. */
    lemma RoomAgain()
      requires Fixed()
      ensures lastLit == [] ==> Roomy()
    {
      hide ValidConfig;
    }

    lemma FastFoundParts()
      requires FastFound() && FastDecided()
      ensures 0 <= m.strstart <= m.strstart + m.lookahead <= m.window.Length && Fixed() && 1 <= m.lookahead
      ensures FastFinds(m.hashBits, m.window[..m.strstart + m.lookahead], m.ins, m.wSize, m.strstart, config,
          matchLength, m.matchStart)
    {
      hide FastFinds, Tallied, MatchOk, DataOk, Chains, Ready;
    }

    lemma NothingFast()
      requires Fixed() && m.Valid() && prevLength == MIN_MATCH - 1 && matchLength < MIN_MATCH && !matchAvailable
          && Tallied(m.base + m.strstart) && Roomy()
      ensures FastState()
    {
      hide Tallied, Matcher.Valid;
    }

    lemma FastIs()
      requires Fast()
      ensures FastState() && FastLog()
    {
      hide FastState, FastLog;
    }

    lemma IsFast()
      requires FastState() && FastLog()
      ensures Fast()
    {
      hide FastState, FastLog;
    }

    lemma FastLogParts()
      requires FastLog()
      ensures IsRun(RulesFor(false), log, m.text, cuts, Sent())
      ensures StandsAt(RulesFor(false), log, NOTHING_HELD, m.base + m.strstart, m.base, m.ins) && Sighted()
    {
      hide IsRun, StandsAt, RulesFor, Sent, Sighted;
    }

    lemma FastLogIs(ts: seq<Token>)
      requires IsRun(RulesFor(false), log, m.text, cuts, ts) && ts == Sent()
      requires StandsAt(RulesFor(false), log, NOTHING_HELD, m.base + m.strstart, m.base, m.ins) && Sighted()
      ensures FastLog()
    {
      hide IsRun, StandsAt, RulesFor, Sent, Sighted;
    }

    /** One round of deflate_fast, as part of a run. */
    method FastRound(full: bool) returns (stop: bool, asked: bool)
      requires Open() && Fast() && m.lookahead >= 1 && m.strstart + MIN_LOOKAHEAD <= m.window.Length
      requires m.lookahead >= MIN_LOOKAHEAD || |m.text| in cuts
      modifies this, m`insH, m`ins, m`top, m`matchStart, m`strstart, m`lookahead, m`blockStart, m.head, m.prev
      ensures Open() && Fast() && Ahead() < old(Ahead()) && All() == old(All())
      ensures stop == (asked && full) && marks == old(marks) && cuts == old(cuts)
    {
      hide *;
      AllAre();
      FastIs();
      FastParts();
      WindowIsText();
      FastLogParts();
      SightedParts();
      RulesAre(false);
      ghost var s, text, base, at, end := RulesFor(false), m.text, m.base, m.strstart, m.strstart + m.lookahead;
      ghost var ts, ins := Sent(), m.ins;
      ghost var len, start, filed;
      stop, asked, len, start, filed := FastStep(full);
      ghost var r := Round(base + at, base, base + end, filed, len, at - start);
      assert text[r.base..r.end] == text[base..|text|];
      FastFollows(s, r, text, m.ins, m.base + m.strstart, old(blocks), old(lastLit), blocks, lastLit, litBufsize - 1);
      Looks(s, log, text, cuts, ts, NOTHING_HELD, base + at, base, ins, r, m.ins);
      RulesAre(false);
      ghost var log0 := log;
      log := log + [Looked(r)];
      SightedLooked(log0, r);
      FastLogIs(ts + TokenOf(s, NOTHING_HELD, Looked(r), text));
      IsFast();
      AllAre();
    }

    /** The window is filled up, as part of a run. */
    method FastRefill()
      requires Fast() && m.lookahead < MIN_LOOKAHEAD
      modifies m, m.window, m.head, m.prev
      ensures Fast() && Filled(old(m.Here()), m.Here()) && m.strstart + MIN_LOOKAHEAD <= m.window.Length
      ensures (m.lookahead >= MIN_LOOKAHEAD || m.availIn == []) && All() == old(All()) && Ahead() == old(Ahead())
    {
      hide *;
      AllAre();
      FastIs();
      FastLogParts();
      SightedParts();
      ghost var p, s, ts, at := m.Here(), RulesFor(false), Sent(), m.base + m.strstart;
      PositionParts();
      FastRefillState();
      PositionParts();
      RunFilled(s, log, cuts, ts, NOTHING_HELD, at, p, m.Here());
      FilledText(p, m.Here());
      AllAre();
      SightedFilled(p);
      FastLogIs(ts);
      IsFast();
    }

    /** deflate_fast: one call. */
    method DeflateFast(flush: Flush, full: nat -> bool) returns (state: BlockState)
      requires Fast() && Open()
      modifies this, m, m.window, m.head, m.prev
      ensures state == NeedMore || state == BlockDone ==> Open()
      ensures flush == Finish ==> state != BlockDone && ((forall n :: !full(n)) ==> state == FinishDone)
      ensures flush != Finish && flush != NoFlush && (forall n :: !full(n)) ==> state == BlockDone
      ensures flush == NoFlush ==>
        state == NeedMore && ((forall n :: !full(n)) ==> m.availIn == [] && m.lookahead < MIN_LOOKAHEAD)
      ensures Fast() && All() == old(All()) && marks == old(marks) && Over(state)
      ensures CutsAdded(old(cuts), flush)
      ensures state == FinishDone || state == FinishStarted ==>
        flush == Finish && blocks != [] && blocks[|blocks| - 1].last
    {
      hide *;
      if flush != NoFlush { CutHere(); }
      AllAre();
      CutsAre(old(cuts), old(All()), flush);
      var times: nat := 0;
      while true
        invariant Fast() && Open() && All() == old(All()) && marks == old(marks)
        invariant cuts == old(cuts) + if flush == NoFlush then {} else {|old(All())|}
        decreases Ahead()
      {
        FastParts();
        AheadIs();
        if m.lookahead < MIN_LOOKAHEAD {
          FastRefill();
          FastParts();
          AheadIs();
          CutsAre(old(cuts), old(All()), flush);
          if m.lookahead < MIN_LOOKAHEAD && flush == NoFlush { return NeedMore; }
          if m.availIn == [] { AllRead(old(All())); }
          if m.lookahead == 0 { break; }
        }
        var stop, asked := FastRound(full(times));
        if asked { times := times + 1; }
        CutsAre(old(cuts), old(All()), flush);
        if stop { return NeedMore; }
      }
      state := EndFast(flush, full(times));
      CutsAre(old(cuts), old(All()), flush);
    }

    /** Nothing is deferred: the run may end. */
    ghost method PassAllFast()
      requires Fast() && m.lookahead == 0 && m.base + m.strstart in cuts
      modifies this`log
      ensures FastState() && FastLog() && m.base + m.strstart == |m.text|
    {
      hide *;
      FastIs();
      FastLogParts();
      FastParts();
      WindowIsText();
      RulesAre(false);
      FastLengths();
      var s, text, ts, at := RulesFor(false), m.text, Sent(), m.base + m.strstart;
      Passes(s, log, text, cuts, ts, NOTHING_HELD, at, m.base, m.ins);
      PassedToken(s, NOTHING_HELD, at, text, Flat(blocks), lastLit, lastLit);
      SightedParts();
      ghost var log0 := log;
      log := log + [Passed(at)];
      SightedPassed(log0, at);
      FastLogIs(ts + TokenOf(s, NOTHING_HELD, Passed(at), text));
    }

    /** All input is passed over: the last block. */
    method EndFast(flush: Flush, full: bool) returns (state: BlockState)
      requires Fast() && m.lookahead == 0 && Open() && m.strstart < m.window.Length && m.availIn == []
          && |m.text| in cuts
      ensures flush == Finish ==> state == (if full then FinishStarted else FinishDone)
      ensures flush != Finish ==> state == BlockDone || (state == NeedMore && full)
      modifies this`lastLit, this`blocks, this`log, m`insert, m`blockStart
      ensures state == NeedMore || state == BlockDone ==> Open()
      ensures Fast() && Over(state) && All() == old(All())
      ensures state == FinishDone || state == FinishStarted ==>
        flush == Finish && blocks != [] && blocks[|blocks| - 1].last
    {
      hide *;
      AllAre();
      FastParts();
      AheadIs();
      PassAllFast();
      FastLengths();
      FastStateParts();
      FastLogParts();
      m.KeepLast();
      StillFixed();
      ghost var ts, bs0, ts0 := Sent(), blocks, lastLit;
      state := Close(flush, full);
      if flush == Finish { LastOf(bs0, ts0, blocks); }
      EmptyIsRoomy();
      NothingFast();
      FastLogIs(ts);
      IsFast();
      IsOver(state);
      AllAre();
    }

    lemma FastStateParts()
      requires FastState()
      ensures m.Fixed() && m.Data() && m.Valid() && Tallied(m.base + m.strstart)
    {
      hide Matcher.Fixed, Matcher.Data, Matcher.Table, Matcher.Hash, Tallied;
    }

    lemma FastLengths()
      requires FastState()
      ensures Fixed() && prevLength == MIN_MATCH - 1 && matchLength < MIN_MATCH && !matchAvailable
      ensures NOTHING_HELD == NOTHING_HELD.(deferred := false) && !NOTHING_HELD.deferred
    {
      hide Tallied, Matcher.Valid, Fixed;
    }

    lemma StillFixed()
      requires m.Valid()
      ensures m.Fixed() && m.Data()
    {
      hide Matcher.Fixed, Matcher.Data, Matcher.Table, Matcher.Hash;
    }

    lemma EmptyIsRoomy()
      requires Fixed() && lastLit == []
      ensures Roomy()
    {
      hide ValidConfig;
    }

    // ---- between calls ----

    /** Between calls of either function. */
    ghost predicate Ready(lazy: bool)
      reads this, m, m.window, m.head, m.prev
    {
      if lazy then Slow() else Fast()
    }

    /** Nothing is deferred, and all tokens are in blocks. */
    lemma FlushedParts(lazy: bool)
      requires Ready(lazy) && !matchAvailable && lastLit == []
      ensures m.Fixed() && m.Data() && m.Valid() && Tallied(m.base + m.strstart) && Fixed() && matchLength < MIN_MATCH
      ensures if lazy then 0 < matchLength && SlowLog() else prevLength == MIN_MATCH - 1 && FastLog()
    {
      hide Slow, Fast, SlowLog, FastLog, Matcher.Valid, Matcher.Fixed, Matcher.Data, Tallied, MatchOk, Fixed;
      if lazy {
        SlowIs();
        SlowParts();
      } else {
        FastIs();
        FastParts();
      }
    }

    lemma FlushedReady(lazy: bool, ts: seq<Token>)
      requires m.Valid() && Tallied(m.base + m.strstart) && Fixed() && matchLength < MIN_MATCH && !matchAvailable
          && lastLit == []
      requires if lazy then 0 < matchLength else prevLength == MIN_MATCH - 1
      requires IsRun(RulesFor(lazy), log, m.text, cuts, ts) && ts == Sent()
      requires StandsAt(RulesFor(lazy), log, HeldNow(lazy), m.base + m.strstart, m.base, m.ins) && Sighted()
      ensures Ready(lazy)
    {
      hide *;
      if lazy {
        NothingIsDeferred();
        HeldIs(lazy);
        SlowLogIs(ts);
        IsSlow();
      } else {
        EmptyIsRoomy();
        NothingFast();
        HeldIs(lazy);
        FastLogIs(ts);
        IsFast();
      }
      ReadyIs(lazy);
    }

    /** The match held. */
    ghost function HeldNow(lazy: bool): Held
      reads this`matchLength, this`matchAvailable, m`strstart, m`matchStart
    {
      if lazy then Held(matchLength, m.strstart - 1 - m.matchStart, matchAvailable) else NOTHING_HELD
    }

    lemma HeldIs(lazy: bool)
      ensures HeldNow(lazy) ==
          if lazy then Held(matchLength, m.strstart - 1 - m.matchStart, matchAvailable) else NOTHING_HELD
    {
    }

    lemma ReadyIs(lazy: bool)
      ensures Ready(lazy) == if lazy then Slow() else Fast()
    {
      hide Slow, Fast;
    }

    lemma LogParts(lazy: bool)
      requires if lazy then SlowLog() else FastLog()
      ensures IsRun(RulesFor(lazy), log, m.text, cuts, Sent())
      ensures StandsAt(RulesFor(lazy), log, HeldNow(lazy), m.base + m.strstart, m.base, m.ins) && Sighted()
    {
      hide *;
      HeldIs(lazy);
      if lazy { SlowLogParts(); } else { FastLogParts(); }
    }

    /** An empty block behind a flush, between calls. */
    method MarkFlush(sender: Sender, ghost lazy: bool)
      requires Ready(lazy) && lastLit == [] && !matchAvailable && Open() && sender != TrFlushBlock
      modifies this`blocks
      ensures Ready(lazy) && Open() && blocks == old(blocks) + [Flushed(sender, [], Some([]), 0, false)]
    {
      hide *;
      FlushedParts(lazy);
      LogParts(lazy);
      RulesAre(lazy);
      ghost var ts := Sent();
      Mark(sender);
      FlatMore(old(blocks), Flushed(sender, [], Some([]), 0, false));
      RulesAre(lazy);
      assert Flat(old(blocks)) + [] + [] == Flat(old(blocks)) + [];
      FlushedReady(lazy, ts);
    }

    /** A full flush, between calls. */
    method ForgetFlush(ghost lazy: bool)
      requires Ready(lazy) && lastLit == [] && !matchAvailable && m.base + m.strstart == |m.text|
      requires blocks != [] && blocks[|blocks| - 1].sender == TrStoredBlock
      modifies this`marks, m`strstart, m`blockStart, m`insert, m`base, m`ins, m`top, m.head
      ensures Ready(lazy) && marks == old(marks) + [FlushPoint(|blocks|, |m.text|)]
      ensures m.base + m.strstart == |m.text|
    {
      hide *;
      FlushedParts(lazy);
      AheadIs();
      LogParts(lazy);
      HeldIs(lazy);
      SightedParts();
      ResetsAre();
      ghost var marks0 := marks;
      ghost var s, ts, base, ins, held, at := RulesFor(lazy), Sent(), m.base, m.ins, HeldNow(lazy), m.base + m.strstart;
      Forget();
      StandsForgot(s, log, held, at, base, ins, m.ins);
      HeldIs(lazy);
      HeldLess(held, lazy);
      StandsSame(s, log, held, HeldNow(lazy), at, at, m.ins);
      SightedForgot(marks0);
      RulesAre(lazy);
      FlushedReady(lazy, ts);
    }

    lemma HeldLess(held: Held, lazy: bool)
      requires matchLength < MIN_MATCH && held.len == HeldNow(lazy).len && held.deferred == HeldNow(lazy).deferred
      ensures SameHeld(held, HeldNow(lazy))
    {
    }
  }
}

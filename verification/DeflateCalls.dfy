/** deflate() of deflate.c for raw streams: any number of calls, with any flush, that bring the
    input in pieces and may end early; the empty blocks that complete a flush; and the end. */
module DeflateCalls {
  import opened Bytes
  import opened LongestMatch
  import opened DeflateWindow
  import opened DeflateTally
  import opened MatchRules
  import opened Deflating

  /** The compressor has passed over all its input, and its last block is closed. */
  ghost predicate Finished(d: Deflater)
    reads d, d.m
  {
    && d.Tallied(|d.m.text|) && d.lastLit == [] && d.blocks != [] && d.blocks[|d.blocks| - 1].last && d.m.availIn == []
    && 512 <= d.m.wSize <= 32768
  }

  /** The tokens of all blocks are those of a run of the rules over the whole text, in which history
      only begins anew at the resets, and a block that is not full ends at one of the places. */
  ghost predicate RunOver(s: Rules, text: seq<Byte>, places: set<int>, resets: set<int>, bs: seq<Flushed>, limit: int) {
    && OnlyFull(bs, |text|, limit, places)
    && exists log ::
      IsRun(s, log, text, places, Flat(bs)) && PlaceAfter(s, log) == |text| && AllSee(s.wSize, log, resets, places)
  }

  lemma IsRunOver(d: Deflater, lazy: bool, places: set<int>, resets: set<int>)
    requires Finished(d) && d.Ready(lazy) && !d.matchAvailable && d.m.base + d.m.strstart == |d.m.text|
        && d.cuts <= places && d.Resets() <= resets
    ensures RunOver(d.RulesFor(lazy), d.m.text, places, resets, d.blocks, d.litBufsize - 1)
  {
    hide Told, IsRun, TableHasAll, OnlyFull, Deflater.Ready, Deflater.SlowLog, Deflater.FastLog, AllSee,
      Deflater.Resets, Deflater.Sighted;
    d.FlushedParts(lazy);
    d.LogParts(lazy);
    d.SightedParts();
    SeesStill(d.m.wSize, d.log, d.Resets(), d.cuts, resets, places);
    d.BlocksEnd(|d.m.text|);
    assert Flat(d.blocks) + [] == Flat(d.blocks);
    RunMoreText(d.RulesFor(lazy), d.log, d.m.text, d.cuts, Flat(d.blocks), d.m.text, places);
    OnlyFullMore(d.blocks, |d.m.text|, d.litBufsize - 1, d.cuts, places);
  }

  /** Where runs may end, and blocks that are not full: after the calls with a flush. */
  ghost function FlushPlaces(pieces: seq<seq<Byte>>, flushes: seq<Flush>): set<int>
    requires |flushes| <= |pieces|
  {
    set i | 0 <= i < |flushes| && flushes[i] != NoFlush :: |Join(pieces[..i + 1])|
  }

  /** Where history may begin anew: after the calls with a full flush. */
  ghost function ResetPlaces(pieces: seq<seq<Byte>>, flushes: seq<Flush>): set<int>
    requires |flushes| <= |pieces|
  {
    set i | 0 <= i < |flushes| && flushes[i] == FullFlush :: |Join(pieces[..i + 1])|
  }

  lemma MoreResets(pieces: seq<seq<Byte>>, flushes: seq<Flush>, i: nat)
    requires i < |flushes| <= |pieces|
    ensures ResetPlaces(pieces, flushes[..i]) <= ResetPlaces(pieces, flushes[..i + 1])
    ensures flushes[i] == FullFlush ==> |Join(pieces[..i + 1])| in ResetPlaces(pieces, flushes[..i + 1])
  {
    hide Join;
    forall p | p in ResetPlaces(pieces, flushes[..i]) ensures p in ResetPlaces(pieces, flushes[..i + 1]) {
      var j :| 0 <= j < i && flushes[..i][j] == FullFlush && p == |Join(pieces[..j + 1])|;
      assert flushes[..i + 1][j] == FullFlush;
    }
    assert flushes[..i + 1][i] == flushes[i];
  }

  lemma MorePlaces(pieces: seq<seq<Byte>>, flushes: seq<Flush>, i: nat)
    requires i < |flushes| <= |pieces|
    ensures FlushPlaces(pieces, flushes[..i]) <= FlushPlaces(pieces, flushes[..i + 1])
    ensures flushes[i] != NoFlush ==> |Join(pieces[..i + 1])| in FlushPlaces(pieces, flushes[..i + 1])
  {
    hide Join;
    forall p | p in FlushPlaces(pieces, flushes[..i]) ensures p in FlushPlaces(pieces, flushes[..i + 1]) {
      var j :| 0 <= j < i && flushes[..i][j] != NoFlush && p == |Join(pieces[..j + 1])|;
      assert flushes[..i + 1][j] != NoFlush;
    }
    assert flushes[..i + 1][i] == flushes[i];
  }

  /** There was a full flush at a position of the text. */
  ghost predicate FlushedAt(marks: seq<FlushPoint>, pos: int) {
    exists k :: 0 <= k < |marks| && marks[k].pos == pos
  }

  /** Every call with a full flush that had room for it left a point from which the blocks behind it
      stand by themselves. */
  ghost predicate AllFlushed(marks: seq<FlushPoint>, pieces: seq<seq<Byte>>, flushes: seq<Flush>,
      full: nat -> (nat -> bool))
    requires |flushes| <= |pieces|
  {
    forall i: nat :: i < |flushes| && flushes[i] == FullFlush && (forall n :: !full(i)(n)) ==>
      FlushedAt(marks, |Join(pieces[..i + 1])|)
  }

  lemma {:induction false} OneFlushed(marks: seq<FlushPoint>, pieces: seq<seq<Byte>>, flushes: seq<Flush>,
      full: nat -> (nat -> bool), i: nat, marks1: seq<FlushPoint>)
    requires i < |flushes| <= |pieces| && AllFlushed(marks, pieces, flushes[..i], full) && marks <= marks1
    requires flushes[i] == FullFlush && (forall n :: !full(i)(n)) ==>
      FlushedAt(marks1, |Join(pieces[..i + 1])|)
    ensures AllFlushed(marks1, pieces, flushes[..i + 1], full)
  {
    hide Join;
    forall j: nat | j < i + 1 && flushes[..i + 1][j] == FullFlush && (forall n :: !full(j)(n))
      ensures FlushedAt(marks1, |Join(pieces[..j + 1])|)
    {
      if j < i {
        assert flushes[..i][j] == FullFlush;
        var k :| 0 <= k < |marks| && marks[k].pos == |Join(pieces[..j + 1])|;
        assert marks1[k] == marks[k];
      }
    }
  }

  /** What deflate() returns. */
  datatype Return = Ok | StreamEnd | StreamError | BufError

  class Compressor {
    const d: Deflater
    const lazy: bool
    /** The status FINISH_STATE. */
    var finishing: bool

    /** Between calls. */
    ghost predicate Valid()
      reads this, d, d.m, d.m.window, d.m.head, d.m.prev
    {
      && d.Ready(lazy) && 512 <= d.m.wSize <= 32768
      && if finishing then Closed() else d.Open()
    }

    /** The last block is closed, and stands for all that was read. */
    ghost predicate Closed()
      reads d, d.m`text, d.m`base, d.m`strstart
    {
      d.m.base + d.m.strstart == |d.m.text| && !d.matchAvailable && d.lastLit == [] && d.blocks != []
      && d.blocks[|d.blocks| - 1].last
    }

    /** All that was brought is in the blocks. */
    ghost predicate Drained()
      reads d, d.m`text, d.m`base, d.m`strstart, d.m`availIn
    {
      d.m.base + d.m.strstart == |d.m.text| && !d.matchAvailable && d.lastLit == [] && d.m.availIn == []
    }

    /** The empty block that completes a flush. */
    ghost predicate Marked(flush: Flush)
      reads d`blocks
    {
      match flush
      case PartialFlush => d.blocks != [] && d.blocks[|d.blocks| - 1].sender == TrAlign
      case SyncFlush => d.blocks != [] && d.blocks[|d.blocks| - 1].sender == TrStoredBlock
      case FullFlush => d.blocks != [] && d.blocks[|d.blocks| - 1].sender == TrStoredBlock
      case _ => true
    }

    /** deflateInit2 for a raw stream; `lazy` for the levels of deflate_slow. */
    constructor (wSize: nat, hashBits: nat, config: Config, filtered: bool, litBufsize: int, lazy: bool)
      requires 512 <= wSize <= 32768 && hashBits >= 8 && ValidConfig(config) && litBufsize >= 2
      ensures Valid() && fresh(d) && fresh(d.m) && fresh(d.m.window) && fresh(d.m.head) && fresh(d.m.prev)
      ensures d.All() == [] && d.m.wSize == wSize && !finishing && d.marks == [] && d.cuts == {}
      ensures this.lazy == lazy && d.RulesFor(lazy) == Rules(lazy, hashBits, wSize, config, filtered)
          && d.litBufsize == litBufsize
    {
      hide Deflater.Slow, Deflater.Fast;
      d := new Deflater(wSize, hashBits, config, filtered, litBufsize, []);
      this.lazy, finishing := lazy, false;
    }

    /** The caller brings more input. */
    method Feed(more: seq<Byte>)
      requires Valid()
      modifies d.m`availIn
      ensures Valid() && d.All() == old(d.All()) + more && d.m.availIn == old(d.m.availIn) + more
    {
      hide Deflater.Slow, Deflater.Fast, Deflater.All;
      d.Feed(more);
    }

    /** The compression function of the level. */
    method Compress(flush: Flush, full: nat -> bool) returns (state: BlockState)
      requires Valid() && !finishing
      modifies d, d.m, d.m.window, d.m.head, d.m.prev
      ensures d.Ready(lazy) && d.All() == old(d.All()) && d.marks == old(d.marks)
      ensures state == NeedMore || state == BlockDone ==> d.Open()
      ensures flush == NoFlush ==> state == NeedMore && ((forall n :: !full(n)) ==> d.m.availIn == [])
      ensures state == FinishStarted || state == FinishDone ==> flush == Finish && Closed()
      ensures state != NeedMore ==> Drained()
      ensures flush == Finish ==> state != BlockDone && ((forall n :: !full(n)) ==> state == FinishDone)
      ensures flush != Finish && flush != NoFlush && (forall n :: !full(n)) ==> state == BlockDone
      ensures d.CutsAdded(old(d.cuts), flush)
    {
      hide Deflater.Slow, Deflater.Fast, Deflater.All, Deflater.Open, Deflater.CutsAdded;
      if lazy {
        state := d.DeflateSlow(flush, full);
      } else {
        state := d.DeflateFast(flush, full);
      }
    }

    /** A flush is complete: an empty block marks it, and a full flush forgets the history. */
    method Complete(flush: Flush)
      requires d.Ready(lazy) && d.Open() && Drained()
      modifies d`blocks, d`marks, d.m`strstart, d.m`blockStart, d.m`insert, d.m`base, d.m`ins, d.m`top, d.m.head
      ensures d.Ready(lazy) && d.Open() && Drained() && Marked(flush)
          && d.m.text == old(d.m.text)
      ensures d.marks == if flush == FullFlush then
          old(d.marks) + [FlushPoint(|d.blocks|, |d.m.text|)] else old(d.marks)
      ensures if flush == BlockFlush then d.blocks == old(d.blocks)
        else |d.blocks| == |old(d.blocks)| + 1 && d.blocks[..|old(d.blocks)|] == old(d.blocks)
    {
      hide Deflater.Ready, Deflater.Open;
      if flush == PartialFlush {
        d.MarkFlush(TrAlign, lazy);
      } else if flush != BlockFlush {
        d.MarkFlush(TrStoredBlock, lazy);
        if flush == FullFlush { d.ForgetFlush(lazy); }
      }
    }

    /** One call of deflate(). */
    method Deflate(flush: Flush, full: nat -> bool) returns (r: Return)
      requires Valid()
      modifies this`finishing, d, d.m, d.m.window, d.m.head, d.m.prev
      ensures Valid() && d.All() == old(d.All())
      ensures r == StreamError <==> old(finishing) && flush != Finish
      ensures r == BufError <==> old(finishing) && flush == Finish && old(d.m.availIn) != []
      ensures old(finishing) ==> finishing && d.m.availIn == old(d.m.availIn) && d.blocks == old(d.blocks)
      ensures finishing && !old(finishing) ==> flush == Finish && d.m.availIn == []
      ensures r == StreamEnd ==> flush == Finish && finishing && d.m.availIn == []
      ensures flush == Finish && (forall n :: !full(n)) && r != BufError ==> r == StreamEnd
      ensures flush != NoFlush && !old(finishing) && (forall n :: !full(n)) ==> Drained() && Marked(flush)
      ensures flush == NoFlush && (forall n :: !full(n)) && !old(finishing) ==> d.m.availIn == []
      ensures d.marks == old(d.marks) || (flush == FullFlush && Drained()
          && d.marks == old(d.marks) + [FlushPoint(|d.blocks|, |d.m.text|)])
      ensures flush == FullFlush && !old(finishing) && (forall n :: !full(n)) ==>
        d.marks == old(d.marks) + [FlushPoint(|d.blocks|, |d.m.text|)]
      ensures d.cuts == old(d.cuts) || d.CutsAdded(old(d.cuts), flush)
    {
      hide Deflater.Ready, Deflater.Open, Deflater.CutsAdded, Closed, Drained, Marked;
      if finishing && flush != Finish { return StreamError; }
      if finishing && d.m.availIn != [] { return BufError; }
      if finishing { NothingAhead(); }
      if d.m.availIn != [] || d.m.lookahead != 0 || (flush != NoFlush && !finishing) {
        var state := Compress(flush, full);
        if state != NeedMore { DrainedParts(); }
        if state == FinishStarted || state == FinishDone { finishing := true; }
        if state == NeedMore || state == FinishStarted { return Ok; }
        if state == BlockDone { Complete(flush); }
      }
      if flush == Finish { NoMark(); }
      r := if flush == Finish then StreamEnd else Ok;
    }

    lemma NoMark()
      ensures Marked(Finish)
    {
    }

    lemma DrainedParts()
      requires Drained()
      ensures d.m.availIn == []
    {
    }

    lemma NothingAhead()
      requires Valid() && finishing
      ensures d.m.lookahead == 0
    {
      hide Matcher.Fixed, Matcher.Table, Matcher.Hash, Deflater.Tallied, MatchOk, Deflater.Ready;
      d.FlushedParts(lazy);
      d.AheadIs();
    }

    /** All that was brought is in the blocks. */
    lemma ClosedIs()
      requires Valid() && finishing && d.m.availIn == []
      ensures Finished(d) && d.m.text == d.All() && d.Ready(lazy) && !d.matchAvailable
          && d.m.base + d.m.strstart == |d.m.text|
    {
      hide Matcher.Valid, Deflater.Tallied, Deflater.Ready, MatchOk;
      d.FlushedParts(lazy);
      assert d.m.text + [] == d.m.text;
    }
  }

  lemma NoneFlushed(marks: seq<FlushPoint>, pieces: seq<seq<Byte>>, full: nat -> (nat -> bool))
    ensures AllFlushed(marks, pieces, [], full)
  {
  }

  lemma CutsKept(c: Compressor, cuts0: set<int>, flush: Flush, places0: set<int>, places1: set<int>)
    requires (c.d.cuts == cuts0 || c.d.CutsAdded(cuts0, flush)) && cuts0 <= places0 <= places1
    requires flush != NoFlush ==> |c.d.All()| in places1
    ensures c.d.cuts <= places1
  {
  }

  /** A call leaves the marks, or a full flush adds one at the end of what was brought. */
  lemma ResetsKept(c: Compressor, marks0: seq<FlushPoint>, flush: Flush, resets0: set<int>, resets1: set<int>, n: nat)
    requires (set p | p in marks0 :: p.pos) <= resets0 <= resets1
    requires c.d.marks == marks0 || (flush == FullFlush && c.Drained()
        && c.d.marks == marks0 + [FlushPoint(n, |c.d.m.text|)])
    requires flush == FullFlush ==> |c.d.All()| in resets1
    ensures c.d.Resets() <= resets1
  {
    assert c.d.m.text + [] == c.d.m.text;
    forall x | x in c.d.Resets() ensures x in resets1 {
      var p :| p in c.d.marks && p.pos == x;
      if p in marks0 { assert x in set q | q in marks0 :: q.pos; }
    }
  }

  /** After a full flush. */
  lemma FlushIsHere(c: Compressor, flush: Flush, n: nat)
    ensures c.Drained() && c.d.marks != [] && c.d.marks[|c.d.marks| - 1] == FlushPoint(n, |c.d.m.text|) ==>
      FlushedAt(c.d.marks, |c.d.All()|)
  {
    assert c.d.m.text + [] == c.d.m.text;
  }

  /** Compresses an input that comes in pieces, one piece a call, each with any flush but the last
      one; then the stream is finished, by calls that may end early and one that has room. */
  method DeflateAll(pieces: seq<seq<Byte>>, flushes: seq<Flush>, full: nat -> (nat -> bool), ends: seq<nat -> bool>,
      wSize: nat, hashBits: nat, config: Config, filtered: bool, litBufsize: int, lazy: bool)
    returns (d: Deflater)
    requires 512 <= wSize <= 32768 && hashBits >= 8 && ValidConfig(config) && litBufsize >= 2
    requires |flushes| == |pieces| && Finish !in flushes
    ensures Finished(d) && d.m.text == Join(pieces) && d.m.wSize == wSize
    ensures AllFlushed(d.marks, pieces, flushes, full)
    ensures RunOver(Rules(lazy, hashBits, wSize, config, filtered), Join(pieces),
        FlushPlaces(pieces, flushes) + {|Join(pieces)|}, ResetPlaces(pieces, flushes), d.blocks, litBufsize - 1)
  {
    hide *;
    var c := new Compressor(wSize, hashBits, config, filtered, litBufsize, lazy);
    d := c.d;
    JoinNothing();
    assert pieces[..0] == [] && flushes[..0] == [];
    NoneFlushed(d.marks, pieces, full);
    d.ResetsAre();
    for i := 0 to |pieces|
      invariant c.Valid() && !c.finishing && d.All() == Join(pieces[..i])
      invariant AllFlushed(d.marks, pieces, flushes[..i], full) && d.cuts <= FlushPlaces(pieces, flushes[..i])
      invariant d.Resets() <= ResetPlaces(pieces, flushes[..i])
      invariant fresh(c) && fresh(d) && fresh(d.m) && fresh(d.m.window) && fresh(d.m.head) && fresh(d.m.prev)
    {
      c.Feed(pieces[i]);
      assert pieces[..i + 1] == pieces[..i] + [pieces[i]];
      JoinSnoc(pieces[..i], pieces[i]);
      d.ResetsAre();
      ghost var marks, cuts := d.marks, d.cuts;
      var r := c.Deflate(flushes[i], full(i));
      assert flushes[i] in flushes;
      FlushIsHere(c, flushes[i], |d.blocks|);
      OneFlushed(marks, pieces, flushes, full, i, d.marks);
      MorePlaces(pieces, flushes, i);
      MoreResets(pieces, flushes, i);
      ResetsKept(c, marks, flushes[i], ResetPlaces(pieces, flushes[..i]), ResetPlaces(pieces, flushes[..i + 1]),
          |d.blocks|);
      CutsKept(c, cuts, flushes[i], FlushPlaces(pieces, flushes[..i]), FlushPlaces(pieces, flushes[..i + 1]));
    }
    assert pieces[..|pieces|] == pieces && flushes[..|pieces|] == flushes;
    ghost var marks, places := d.marks, FlushPlaces(pieces, flushes) + {|Join(pieces)|};
    var r, k := Ok, 0;
    while r != StreamEnd
      invariant c.Valid() && d.All() == Join(pieces) && (c.finishing ==> d.m.availIn == []) && 0 <= k
      invariant (r == StreamEnd ==> c.finishing) && d.marks == marks && d.cuts <= places
      invariant d.Resets() <= ResetPlaces(pieces, flushes)
      invariant fresh(c) && fresh(d) && fresh(d.m) && fresh(d.m.window) && fresh(d.m.head) && fresh(d.m.prev)
      decreases r != StreamEnd, |ends| - k
    {
      ghost var cuts := d.cuts;
      d.ResetsAre();
      r := c.Deflate(Finish, if k < |ends| then ends[k] else _ => false);
      CutsKept(c, cuts, Finish, places, places);
      d.ResetsAre();
      k := k + 1;
    }
    c.ClosedIs();
    IsRunOver(d, lazy, places, ResetPlaces(pieces, flushes));
  }
}

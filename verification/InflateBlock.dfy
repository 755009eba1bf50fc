/** The body of a block in inflate: what a bit string means to the tables, and that the fast loop
    of inffast.c and the states of inflate.c, in any mixture and over any number of calls, both
    write just that. */
module InflateBlock {
  import opened Bytes
  import opened LsbBits
  import opened Lz77
  import opened DeflateBits
  import opened InflateItems
  import opened FastItems
  import opened InflateWindow
  import opened InflateCopy

  /** How the body of a block ends: properly, with an error, or with the input. */
  datatype End = Ended | InvalidLength | InvalidDistance | TooFarBack | Starved

  /** The end, the text with all that the block adds, the bits behind, and the farthest
      distance of its matches. */
  datatype Result = Result(end: End, text: seq<Byte>, rest: seq<bool>, farthest: nat)

  /** What the bits mean, after the given text. */
  ghost function Run(c: Tables, b: seq<bool>, text: seq<Byte>): Result
    requires Good(c)
    decreases |b|
  {
    ItemProgress(c, b);
    var r := ReadItem(c, b);
    match r.item
    case Got(t) =>
      (match t
       case Literal(x) => Run(c, r.rest, text + [x])
       case Match(length, dist) =>
         if dist > |text| then Result(TooFarBack, text, r.rest, 0)
         else
           var more := Run(c, r.rest, Copied(text, dist, length));
           more.(farthest := if more.farthest > dist then more.farthest else dist))
    case EndOfBlock => Result(Ended, text, r.rest, 0)
    case BadLength => Result(InvalidLength, text, r.rest, 0)
    case BadDistance => Result(InvalidDistance, text, r.rest, 0)
    case Short => Result(Starved, text, [], 0)
  }

  /** The text only grows, and distances are those of the format. */
  lemma {:induction false} RunGrows(c: Tables, b: seq<bool>, text: seq<Byte>)
    requires Good(c)
    ensures text <= Run(c, b, text).text && Run(c, b, text).farthest <= 32768
    decreases |b|
  {
    hide Good, ReadItem, Copied;
    ItemProgress(c, b);
    var r := ReadItem(c, b);
    if r.item.Got? {
      match r.item.token {
        case Literal(x) =>
          RunGrows(c, r.rest, text + [x]);
        case Match(length, dist) =>
          if dist <= |text| {
            CopiedRepeats(text, dist, length);
            RunGrows(c, r.rest, Copied(text, dist, length));
          }
      }
    }
  }

  /** r is what is left to do of r0. */
  ghost predicate Continues(r0: Result, r: Result) {
    r.end == r0.end && r.text == r0.text && r.rest == r0.rest && r.farthest <= r0.farthest
  }

  /** A byte. */
  lemma {:induction false} LiteralStep(c: Tables, b: seq<bool>, text: seq<Byte>, x: Byte)
    requires Good(c) && ReadItem(c, b).item == Got(Literal(x))
    ensures Continues(Run(c, b, text), Run(c, ReadItem(c, b).rest, text + [x]))
  {
    hide Good, ReadItem, Copied;
    ItemProgress(c, b);
  }

  /** A match. */
  lemma {:induction false} MatchStep(c: Tables, b: seq<bool>, text: seq<Byte>, length: int, dist: int)
    requires Good(c) && ReadItem(c, b).item == Got(Match(length, dist))
    ensures 3 <= length <= 258 && 1 <= dist
    ensures dist <= |text| ==>
      && dist <= Run(c, b, text).farthest
      && Continues(Run(c, b, text), Run(c, ReadItem(c, b).rest, Copied(text, dist, length)))
    ensures dist > |text| ==> Run(c, b, text) == Result(TooFarBack, text, ReadItem(c, b).rest, 0)
  {
    hide Good, ReadItem, Copied;
    ItemProgress(c, b);
  }

  /** The end, by an item other than a token. */
  function EndOf(item: Item): End {
    match item
    case EndOfBlock => Ended
    case BadLength => InvalidLength
    case BadDistance => InvalidDistance
    case _ => Starved
  }

  lemma {:induction false} EndStep(c: Tables, b: seq<bool>, text: seq<Byte>)
    requires Good(c) && !ReadItem(c, b).item.Got?
    ensures Run(c, b, text).end == EndOf(ReadItem(c, b).item) && Run(c, b, text).text == text
    ensures ReadItem(c, b).item != Short ==> Run(c, b, text).rest == ReadItem(c, b).rest
  {
    hide Good, ReadItem, Copied;
    ItemProgress(c, b);
  }

  // ---- how far back matches reach ----

  /** A distance that goes back behind all the text is refused; no other one is, unless it is
      larger than the window. */
  lemma Reach(h: History, out: array<Byte>, put: nat, dist: int)
    requires h.Valid() && put <= out.Length
    ensures dist > |Text(h, out, put)| ==> dist > put + h.whave
    ensures dist > put + h.whave && dist <= |Text(h, out, put)| ==> dist > h.size
  {
    h.HowMuch();
  }

  // ---- the fast loop ----

  /** Going on, or the end. */
  datatype Mode = LEN | Stop(end: End)

  /** The end of a block: the one that the bits mean; or a match that reaches further back than
      the window was refused before. */
  ghost predicate Ends(r0: Result, size: nat, end: End, text: seq<Byte>, b: seq<bool>) {
    || (r0.end == end && r0.text == text && (end != Starved ==> r0.rest == b))
    || (end == TooFarBack && r0.farthest > size && text <= r0.text)
  }

  /** Where a decoder stands: still at work on what the bits mean, or at the end of it. */
  ghost predicate Stands(r0: Result, size: nat, mode: Mode, c: Tables, b: seq<bool>, text: seq<Byte>)
    requires Good(c)
  {
    match mode
    case LEN => Continues(r0, Run(c, b, text))
    case Stop(end) => Ends(r0, size, end, text, b)
  }

  /** A match is refused that the window cannot serve. */
  lemma {:induction false} RefusedFar(r0: Result, size: nat, c: Tables, b: seq<bool>, text: seq<Byte>, length: int,
      dist: int, text1: seq<Byte>, b1: seq<bool>)
    requires Good(c) && Continues(r0, Run(c, b, text)) && ReadItem(c, b).item == Got(Match(length, dist))
        && size < dist <= |text|
    requires 1 <= dist && 3 <= length && Partial(text, dist, length, text1)
    ensures Ends(r0, size, TooFarBack, text1, b1)
  {
    hide Good, ReadItem, Copied, Run, Partial;
    MatchStep(c, b, text, length, dist);
    StalledInMatch(r0, c, b, text, length, dist, text1);
  }

  lemma TextSnoc(h: History, out: array<Byte>, put: nat, before: seq<Byte>, x: Byte)
    requires put < out.Length && out[..put] == before && out[put] == x
    ensures Text(h, out, put + 1) == h.done + before + [x]
  {
    assert out[..put + 1] == before + [x];
    assert h.done + (before + [x]) == h.done + before + [x];
  }

  /** One item of the fast loop, and its bytes. */
  method FastRound(source: BitSource, h: History, out: array<Byte>, put: nat, c: Tables, ghost r0: Result,
      ghost head: seq<bool>, ghost at: nat)
    returns (mode: Mode, put1: nat)
    requires source.Valid() && Good(c) && source.bits <= 30 && Held(source, head, at)
        && source.nextIn + 6 <= |source.input|
    requires h.Valid() && out != h.window && put + 258 <= out.Length
    requires Stands(r0, h.size, LEN, c, source.Coming(), Text(h, out, put))
    modifies source`hold, source`bits, source`nextIn, source`live, out
    ensures source.Valid() && Held(source, head, at) && 0 <= source.bits <= 30
    ensures h.Valid() && put <= put1 <= out.Length && Stands(r0, h.size, mode, c, source.Coming(), Text(h, out, put1))
    ensures mode.Stop? ==> mode.end != Starved
    ensures mode == LEN ==> put < put1
  {
    hide Good, ReadItem, Copied, Run, BitSource.Valid, BitSource.Coming, Held, History.Valid, Text;
    ghost var b, text := source.Coming(), Text(h, out, put);
    put1 := put;
    var item := FastItem(source, c, head, at);
    match item {
      case Got(t) =>
        match t {
          case Literal(x) =>
            LiteralStep(c, b, text, x);
            PutByte(h, out, put, x);
            put1 := put + 1;
            mode := LEN;
          case Match(length, dist) =>
            MatchStep(c, b, text, length, dist);
            Reach(h, out, put, dist);
            var bad := FastCopy(h, out, put, length, dist);
            if bad {
              if dist <= |text| {
                PartialStart(text, dist, length);
                RefusedFar(r0, h.size, c, b, text, length, dist, text, source.Coming());
              }
              return Stop(TooFarBack), put;
            }
            put1 := put + length;
            mode := LEN;
        }
      case EndOfBlock =>
        EndStep(c, b, text);
        mode := Stop(Ended);
      case BadLength =>
        EndStep(c, b, text);
        mode := Stop(InvalidLength);
      case BadDistance =>
        EndStep(c, b, text);
        mode := Stop(InvalidDistance);
    }
  }

  /** *out++ = x */
  method PutByte(h: History, out: array<Byte>, put: nat, x: Byte)
    requires h.Valid() && out != h.window && put < out.Length
    modifies out
    ensures h.Valid() && Text(h, out, put + 1) == old(Text(h, out, put)) + [x]
  {
    ghost var before := out[..put];
    out[put] := x;
    TextSnoc(h, out, put, before, x);
  }

  /** inflate_fast. */
  method InflateFast(source: BitSource, h: History, out: array<Byte>, put: nat, c: Tables, ghost r0: Result)
    returns (mode: Mode, put1: nat)
    requires source.Valid() && Good(c) && source.bits < 8 && source.nextIn + 6 <= |source.input|
    requires h.Valid() && out != h.window && put + 258 <= out.Length
    requires Stands(r0, h.size, LEN, c, source.Coming(), Text(h, out, put))
    modifies source`hold, source`bits, source`nextIn, source`live, out
    ensures source.Valid() && source.bits < 8 && source.nextIn >= old(source.nextIn)
    ensures h.Valid() && put <= put1 <= out.Length && Stands(r0, h.size, mode, c, source.Coming(), Text(h, out, put1))
    ensures mode.Stop? ==> mode.end != Starved
    ensures mode == LEN ==> put < put1
  {
    hide Good, ReadItem, Copied, Run, BitSource.Valid, BitSource.Coming, Held, History.Valid, Text, Stands;
    HeldAtStart(source);
    ghost var head, at := source.live, source.nextIn;
    var last, end := |source.input| - 5, out.Length - 257;
    put1 := put;
    while true
      invariant source.Valid() && source.bits <= 30 && Held(source, head, at) && source.nextIn < last
      invariant h.Valid() && put <= put1 < end && Stands(r0, h.size, LEN, c, source.Coming(), Text(h, out, put1))
      decreases out.Length - put1
    {
      mode, put1 := FastRound(source, h, out, put1, c, r0, head, at);
      if mode.Stop? || !(source.nextIn < last && put1 < end) { break; }
    }
    GiveBack(source, head, at);
  }

  lemma HeldAtStart(source: BitSource)
    requires source.Valid()
    ensures 0 <= source.nextIn && Held(source, source.live, source.nextIn) && |source.live| == source.bits
  {
    hide StreamBits, LowVal;
    assert source.input[source.nextIn..source.nextIn] == [];
    NoStream();
    assert source.live + [] == source.live;
  }

  // ---- the states of inflate, over many calls ----

  /** Where output goes: the buffer of this call, how far it is filled, and the sizes of the
      buffers of the later calls. */
  datatype Sink = Sink(out: array<Byte>, put: nat, rooms: seq<nat>)

  ghost predicate ValidSink(k: Sink, h: History) {
    k.put <= k.out.Length && k.out != h.window
  }

  /** All output so far. */
  ghost function Output(h: History, k: Sink): seq<Byte>
    requires k.put <= k.out.Length
    reads h, k.out
  {
    Text(h, k.out, k.put)
  }

  /** How much room is left, for termination. */
  function Room(k: Sink): int { k.out.Length - k.put }

  ghost predicate Smaller(k: Sink, k0: Sink) {
    |k.rooms| < |k0.rooms| || (k.rooms == k0.rooms && Room(k) < Room(k0))
  }

  function Rooms(rooms: seq<nat>): nat { if rooms == [] then 0 else rooms[0] + Rooms(rooms[1..]) }

  /** How much output there can be in all. */
  ghost function Capacity(h: History, k: Sink): int
    reads h`done
  {
    |h.done| + k.out.Length + Rooms(k.rooms)
  }

  /** Every buffer is full. */
  ghost predicate Full(k: Sink) { k.put == k.out.Length && k.rooms == [] }

  lemma FullIs(h: History, k: Sink)
    requires ValidSink(k, h) && Full(k)
    ensures |Output(h, k)| == Capacity(h, k)
  {
  }

  lemma {:induction false} WithinCapacity(h: History, k: Sink)
    requires ValidSink(k, h)
    ensures |Output(h, k)| <= Capacity(h, k)
  {
  }

  /** The buffer is full: inflate saves the end of it in the window and returns, and is called
      again with the next one. */
  method NextOutput(h: History, k: Sink) returns (k1: Sink)
    requires h.Valid() && ValidSink(k, h) && k.rooms != [] && k.put == k.out.Length
    modifies h`wsize, h`wnext, h`whave, h`done, h.window
    ensures h.Valid() && ValidSink(k1, h) && fresh(k1.out) && k1.rooms == k.rooms[1..] && k1.put == 0
    ensures Output(h, k1) == old(Output(h, k)) && Capacity(h, k1) == old(Capacity(h, k))
  {
    if h.wsize != 0 || k.put != 0 {
      h.UpdateWindow(k.out, k.put, k.put);
    } else {
      assert k.out[..0] == [];
    }
    var next := new Byte[k.rooms[0]](_ => 0);
    k1 := Sink(next, 0, k.rooms[1..]);
    assert next[..0] == [];
    assert k.out[0..k.put] == k.out[..k.put];
  }

  /** Room for one byte at least, or false if there is none in any later call. */
  method MakeRoom(h: History, k: Sink) returns (ok: bool, k1: Sink)
    requires h.Valid() && ValidSink(k, h)
    modifies h`wsize, h`wnext, h`whave, h`done, h.window
    ensures h.Valid() && ValidSink(k1, h) && (k1.out == k.out || fresh(k1.out))
    ensures Output(h, k1) == old(Output(h, k)) && (ok ==> Room(k1) > 0) && (k1 == k || |k1.rooms| < |k.rooms|)
    ensures Capacity(h, k1) == old(Capacity(h, k)) && (!ok ==> Full(k1))
  {
    hide History.Valid, Text, Capacity;
    k1 := k;
    while k1.put == k1.out.Length
      invariant h.Valid() && ValidSink(k1, h) && (k1.out == k.out || fresh(k1.out))
      invariant Capacity(h, k1) == old(Capacity(h, k))
      invariant Output(h, k1) == old(Output(h, k)) && (k1 == k || |k1.rooms| < |k.rooms|)
      decreases |k1.rooms|
    {
      if k1.rooms == [] { return false, k1; }
      k1 := NextOutput(h, k1);
    }
    ok := true;
  }

  /** LIT */
  method LiteralState(h: History, k: Sink, x: Byte) returns (ok: bool, k1: Sink)
    requires h.Valid() && ValidSink(k, h)
    modifies h`wsize, h`wnext, h`whave, h`done, h.window, k.out
    ensures h.Valid() && ValidSink(k1, h) && (k1.out == k.out || fresh(k1.out))
    ensures Output(h, k1) == old(Output(h, k)) + (if ok then [x] else []) && (ok ==> Smaller(k1, k))
    ensures Capacity(h, k1) == old(Capacity(h, k)) && (!ok ==> Full(k1))
  {
    hide History.Valid, Text;
    ok, k1 := MakeRoom(h, k);
    if ok {
      PutByte(h, k1.out, k1.put, x);
      k1 := k1.(put := k1.put + 1);
    }
  }

  /** How a match in the output ended. */
  datatype Writing = Whole | Refused | NoRoom

  /** MATCH, visited again until the match is written. */
  method MatchStates(h: History, k: Sink, length: nat, offset: nat) returns (m: Writing, k1: Sink)
    requires h.Valid() && ValidSink(k, h) && length > 0 && offset >= 1
    modifies h`wsize, h`wnext, h`whave, h`done, h.window, k.out
    ensures h.Valid() && ValidSink(k1, h) && (k1.out == k.out || fresh(k1.out))
    ensures m == Whole ==>
      offset <= |old(Output(h, k))| && Output(h, k1) == Copied(old(Output(h, k)), offset, length) && Smaller(k1, k)
    ensures m == Refused ==> Partial(old(Output(h, k)), offset, length, Output(h, k1))
    ensures m == Refused && offset <= |old(Output(h, k))| ==> offset > h.size
    ensures m == Refused && offset > |old(Output(h, k))| ==> Output(h, k1) == old(Output(h, k))
    ensures m == NoRoom ==> Partial(old(Output(h, k)), offset, length, Output(h, k1))
    ensures Capacity(h, k1) == old(Capacity(h, k)) && (m == NoRoom ==> Full(k1))
  {
    hide History.Valid, Text, Copied;
    ghost var text := Output(h, k);
    k1 := k;
    var left: nat := length;
    PartialStart(text, offset, length);
    while left > 0
      invariant h.Valid() && ValidSink(k1, h) && (k1.out == k.out || fresh(k1.out)) && left <= length
      invariant Capacity(h, k1) == old(Capacity(h, k))
      invariant left == length ==> Output(h, k1) == text && (k1 == k || |k1.rooms| < |k.rooms|)
      invariant left < length ==>
        offset <= |text| && Output(h, k1) == Copied(text, offset, length - left) && Smaller(k1, k)
      decreases |k1.rooms|, Room(k1)
    {
      var ok;
      ok, k1 := MakeRoom(h, k1);
      if !ok {
        if left < length { assert Partial(text, offset, length, Output(h, k1)); }
        return NoRoom, k1;
      }
      ReachNow(h, k1, offset, text, length - left);
      var bad, put1, left1 := MatchState(h, k1.out, k1.put, left, offset);
      if bad {
        if left < length { assert Partial(text, offset, length, Output(h, k1)); }
        return Refused, k1;
      }
      if left < length { CopiedTwice(text, offset, length - left, put1 - k1.put); }
      left := left1;
      k1 := k1.(put := put1);
    }
    m := Whole;
  }

  /** Not all of the match. */
  ghost predicate Partial(text: seq<Byte>, dist: nat, length: nat, text1: seq<Byte>) {
    text1 == text || (1 <= dist <= |text| && exists n: nat :: n < length && text1 == Copied(text, dist, n))
  }

  lemma PartialStart(text: seq<Byte>, dist: nat, length: nat)
    ensures Partial(text, dist, length, text)
  {
  }

  /** What can be refused, at the start of a match or within it. */
  lemma ReachNow(h: History, k: Sink, dist: nat, text: seq<Byte>, n: nat)
    requires h.Valid() && ValidSink(k, h)
    requires if n == 0 then Output(h, k) == text else 1 <= dist <= |text| && Output(h, k) == Copied(text, dist, n)
    ensures dist > k.put + h.whave && dist <= |text| ==> dist > h.size
    ensures n == 0 && dist > |text| ==> dist > k.put + h.whave
  {
    hide History.Valid, Text, Copied;
    Reach(h, k.out, k.put, dist);
  }

  /** How a block ended: as the bits say, or for want of room for output. */
  datatype Finish = Reached(end: End) | Stalled

  /** The output is what the bits mean, or the part of it that there was room for: the room never
      ends where nothing is left to write, unless at a match that would be refused. */
  ghost predicate Outcome(r0: Result, size: nat, finish: Finish, text: seq<Byte>, b: seq<bool>) {
    match finish
    case Reached(end) => Ends(r0, size, end, text, b)
    case Stalled => text <= r0.text && (text == r0.text ==> r0.end == TooFarBack)
  }

  lemma {:induction false} StalledBefore(r0: Result, c: Tables, b: seq<bool>, text: seq<Byte>, x: Byte)
    requires Good(c) && Continues(r0, Run(c, b, text + [x]))
    ensures text <= r0.text && text != r0.text
  {
    RunGrows(c, b, text + [x]);
  }

  lemma {:induction false} StalledInMatch(r0: Result, c: Tables, b: seq<bool>, text: seq<Byte>, length: int, dist: int,
      text1: seq<Byte>)
    requires Good(c) && Continues(r0, Run(c, b, text)) && ReadItem(c, b).item == Got(Match(length, dist))
    requires 1 <= dist && 3 <= length && Partial(text, dist, length, text1)
    ensures text1 <= r0.text && (text1 == r0.text ==> r0.end == TooFarBack)
  {
    hide Good, ReadItem, Copied, Run;
    RunGrows(c, b, text);
    MatchStep(c, b, text, length, dist);
    if dist <= |text| {
      var n: nat := 0;
      CopiedNothing(text, dist);
      if text1 != text { n :| n < length && text1 == Copied(text, dist, n); }
      CopiedTwice(text, dist, n, length - n);
      CopiedRepeats(Copied(text, dist, n), dist, length - n);
      RunGrows(c, ReadItem(c, b).rest, Copied(text, dist, length));
    }
  }

  lemma CopiedNothing(text: seq<Byte>, dist: int)
    requires 1 <= dist <= |text|
    ensures Copied(text, dist, 0) == text
  {
  }

  /** The token that the states have read is written. */
  method TokenStates(h: History, k: Sink, t: Token, ghost c: Tables, ghost b: seq<bool>, ghost r0: Result)
    returns (m: Writing, k1: Sink)
    requires h.Valid() && ValidSink(k, h) && Good(c) && ReadItem(c, b).item == Got(t)
    requires Continues(r0, Run(c, b, Output(h, k)))
    modifies h`wsize, h`wnext, h`whave, h`done, h.window, k.out
    ensures h.Valid() && ValidSink(k1, h) && (k1.out == k.out || fresh(k1.out))
    ensures m == Whole ==> Continues(r0, Run(c, ReadItem(c, b).rest, Output(h, k1))) && Smaller(k1, k)
    ensures m == Refused ==> Outcome(r0, h.size, Reached(TooFarBack), Output(h, k1), ReadItem(c, b).rest)
    ensures m == NoRoom ==> Outcome(r0, h.size, Stalled, Output(h, k1), ReadItem(c, b).rest)
    ensures Capacity(h, k1) == old(Capacity(h, k)) && (m == NoRoom ==> Full(k1))
  {
    hide Good, ReadItem, Copied, Run, History.Valid, Text, Partial, Capacity;
    ghost var text := Output(h, k);
    match t {
      case Literal(x) =>
        LiteralStep(c, b, text, x);
        StalledBefore(r0, c, ReadItem(c, b).rest, text, x);
        var ok;
        ok, k1 := LiteralState(h, k, x);
        assert text + [] == text;
        m := if ok then Whole else NoRoom;
      case Match(length, dist) =>
        MatchStep(c, b, text, length, dist);
        m, k1 := MatchStates(h, k, length, dist);
        if m == NoRoom { StalledInMatch(r0, c, b, text, length, dist, Output(h, k1)); }
        if m == Refused && dist <= |text| { RefusedFar(r0, h.size, c, b, text, length, dist, Output(h, k1),
            ReadItem(c, b).rest); }
    }
  }

  /** The states LEN to MATCH and LIT of inflate, with inflate_fast whenever there is enough
      input and room: over any number of calls, with input and output in pieces of any size, the
      output is exactly what the bits mean, unless a match is refused that reaches further back
      than the window. */
  method InflateBody(source: BitSource, h: History, k0: Sink, c: Tables) returns (finish: Finish, k: Sink)
    requires source.Valid() && Good(c) && source.bits < 8 && h.Valid() && ValidSink(k0, h)
    modifies source, h`wsize, h`wnext, h`whave, h`done, h.window, k0.out
    ensures source.Valid() && h.Valid() && ValidSink(k, h) && (k.out == k0.out || fresh(k.out))
    ensures Outcome(old(Run(c, source.Coming(), Output(h, k0))), h.size, finish, Output(h, k), source.Coming())
    ensures finish.Reached? && finish.end != Starved ==> source.bits < 8
    ensures Capacity(h, k) == old(Capacity(h, k0)) && (finish == Stalled ==> Full(k))
  {
    hide Good, ReadItem, Copied, Run, History.Valid, Text, BitSource.Valid, BitSource.Coming;
    ghost var r0 := Run(c, source.Coming(), Output(h, k0));
    k := k0;
    while true
      invariant source.Valid() && source.bits < 8 && h.Valid() && ValidSink(k, h) && (k.out == k0.out || fresh(k.out))
      invariant Continues(r0, Run(c, source.Coming(), Output(h, k))) && Capacity(h, k) == old(Capacity(h, k0))
      decreases |k.rooms|, Room(k)
    {
      if |source.input| - source.nextIn >= 6 && k.out.Length - k.put >= 258 {
        var mode, put1 := InflateFast(source, h, k.out, k.put, c, r0);
        k := k.(put := put1);
        if mode.Stop? { return Reached(mode.end), k; }
      } else {
        ghost var b, text := source.Coming(), Output(h, k);
        var item := ItemStates(source, c);
        if !item.Got? {
          EndStep(c, b, text);
          return Reached(EndOf(item)), k;
        }
        var m;
        m, k := TokenStates(h, k, item.token, c, b, r0);
        if m == Refused { return Reached(TooFarBack), k; }
        if m == NoRoom { return Stalled, k; }
      }
    }
  }
}

/** Stored blocks, section 3.2.4 of RFC 1951: _tr_stored_block of trees.c, and the states STORED
    and COPY of inflate.c. */
module StoredBlocks {
  import opened Bytes
  import opened Bits
  import opened LsbBits
  import opened DeflateBits
  import opened FastItems
  import opened InflateWindow
  import opened InflateCopy
  import opened InflateBlock

  /** The length, its complement and the bytes. */
  ghost function StoredBits(data: seq<Byte>): seq<bool>
    requires |data| <= 0xffff
  {
    LowBits(|data|, 16) + LowBits(0xffff - |data|, 16) + StreamBits(data)
  }

  // ---- sending ----

  lemma {:induction false} TwoBytes(v: nat)
    requires v < WORD16
    ensures StreamBits([v % 0x100, v / 0x100]) == LowBits(v, 16)
  {
    hide LowBits;
    Pow16();
    LowBitsSplit(v % 0x100, v / 0x100, 8, 8);
    var a, b := v % 0x100, v / 0x100;
    StreamOne(a);
    StreamOne(b);
    StreamJoined([a], [b]);
    assert [a] + [b] == [a, b];
    assert a + Pow2(8) * b == v;
  }

  /** put_short */
  method PutWord(sink: BitSink, w: int)
    requires sink.Valid() && sink.biValid == 0 && 0 <= w < WORD16
    modifies sink`out
    ensures sink.Valid() && sink.Sent() == old(sink.Sent()) + LowBits(w, 16)
  {
    hide LowBits, StreamBits;
    TwoBytes(w);
    StreamJoined(sink.out, [w % 0x100, w / 0x100]);
    sink.out := sink.out + [w % 0x100, w / 0x100];
    assert StreamBits(sink.out) + [] == StreamBits(sink.out);
  }

  /** The bytes go to the pending output as they are. */
  method PutBytes(sink: BitSink, data: seq<Byte>)
    requires sink.Valid() && sink.biValid == 0
    modifies sink`out
    ensures sink.Valid() && sink.Sent() == old(sink.Sent()) + StreamBits(data)
  {
    hide StreamBits;
    StreamJoined(sink.out, data);
    sink.out := sink.out + data;
    assert sink.live == [];
  }

  /** _tr_stored_block */
  method StoredBlock(sink: BitSink, data: seq<Byte>, last: bool) returns (ghost pad: nat)
    requires sink.Valid() && |data| <= 0xffff
    modifies sink
    ensures sink.Valid() && pad < 8 && |sink.Sent()| % 8 == 0
    ensures sink.Sent() == old(sink.Sent()) + LowBits(Digit(last), 3) + LowBits(0, pad) + StoredBits(data)
  {
    hide LowBits, StreamBits, BitSink.Sent;
    ghost var s0 := sink.Sent();
    assert Pow2(3) == 8;
    hide Pow2;
    sink.SendBits(if last then 1 else 0, 3);
    ghost var s1 := sink.Sent();
    sink.Windup();
    pad :| pad < 8 && sink.Sent() == s1 + LowBits(0, pad);
    ghost var s2 := sink.Sent();
    PutWord(sink, |data|);
    PutWord(sink, 0xffff - |data|);
    PutBytes(sink, data);
    assert s2 + LowBits(|data|, 16) + LowBits(0xffff - |data|, 16) + StreamBits(data) == s2 + StoredBits(data);
    WholeBytes(sink);
  }

  lemma {:induction false} WholeBytes(sink: BitSink)
    requires sink.Valid() && sink.biValid == 0
    ensures |sink.Sent()| % 8 == 0
  {
    hide StreamBits;
    StreamLength(sink.out);
  }

  // ---- receiving ----

  /** The first n bytes of a bit string. */
  ghost function BytesOf(b: seq<bool>, n: nat): (z: seq<Byte>)
    requires 8 * n <= |b|
    ensures |z| == n
    decreases n
  {
    if n == 0 then [] else
      ByteRange(b[..8]);
      [LowVal(b[..8])] + BytesOf(b[8..], n - 1)
  }

  lemma {:induction false} ByteRange(b: seq<bool>)
    requires |b| == 8
    ensures 0 <= LowVal(b) < 0x100
  {
    LowBound(b);
    Pow16();
  }

  /** Bytes that were stored come back. */
  lemma {:induction false} BytesBack(data: seq<Byte>, rest: seq<bool>)
    ensures |StreamBits(data)| == 8 * |data| && BytesOf(StreamBits(data) + rest, |data|) == data
    decreases |data|
  {
    hide StreamBits, LowVal;
    StreamLength(data);
    if data != [] {
      var x, more := data[0], data[1..];
      assert data == [x] + more;
      StreamJoined([x], more);
      StreamOne(x);
      StreamLength([x]);
      StreamLength(more);
      Pow16();
      ValOfLow(x, 8);
      BytesBack(more, rest);
      var b := StreamBits(data) + rest;
      assert b[..8] == LowBits(x, 8) && b[8..] == StreamBits(more) + rest;
    }
  }

  lemma {:induction false} BytesJoined(b: seq<bool>, m: nat, n: nat)
    requires 8 * (m + n) <= |b|
    ensures BytesOf(b, m + n) == BytesOf(b, m) + BytesOf(b[8 * m..], n)
    decreases m
  {
    hide LowVal;
    if m == 0 {
      assert b[0..] == b;
    } else {
      BytesJoined(b[8..], m - 1, n);
      assert b[8..][8 * (m - 1)..] == b[8 * m..];
    }
  }

  /** Whole bytes of input are these bytes. */
  lemma {:induction false} InputBytes(input: seq<Byte>, at: nat, n: nat, later: seq<bool>)
    requires at + n <= |input|
    ensures var b := StreamBits(input[at..]) + later;
      8 * n <= |b| && BytesOf(b, n) == input[at..at + n] && b[8 * n..] == StreamBits(input[at + n..]) + later
  {
    hide StreamBits;
    var head, tail := input[at..at + n], input[at + n..];
    assert input[at..] == head + tail;
    StreamJoined(head, tail);
    BytesBack(head, StreamBits(tail) + later);
    assert StreamBits(head) + StreamBits(tail) + later == StreamBits(head) + (StreamBits(tail) + later);
  }

  /** How copying ended. */
  datatype Copying = Done | NoInput | NoOutput

  lemma NoBits(source: BitSource)
    requires source.Valid() && source.bits == 0
    ensures source.Coming() == StreamBits(source.input[source.nextIn..]) + PieceStream(source.later)
  {
    hide StreamBits;
    assert source.live == [];
    assert [] + StreamBits(source.input[source.nextIn..]) == StreamBits(source.input[source.nextIn..]);
  }

  /** Copies from the input to the output, both in pieces of any size. */
  method CopyInput(source: BitSource, h: History, k: Sink, n: nat) returns (k1: Sink)
    requires source.Valid() && source.bits == 0 && h.Valid() && ValidSink(k, h)
    requires source.nextIn + n <= |source.input| && k.put + n <= k.out.Length
    modifies source`nextIn, k.out
    ensures source.Valid() && source.bits == 0 && h.Valid() && ValidSink(k1, h) && k1 == k.(put := k.put + n)
    ensures 8 * n <= |old(source.Coming())| && source.Coming() == old(source.Coming())[8 * n..]
    ensures Output(h, k1) == old(Output(h, k)) + BytesOf(old(source.Coming()), n)
    ensures source.nextIn == old(source.nextIn) + n
  {
    hide StreamBits, LowVal, BytesOf, History.Valid;
    ghost var done, head := h.done, k.out[..k.put];
    NoBits(source);
    InputBytes(source.input, source.nextIn, n, PieceStream(source.later));
    for i := 0 to n
      modifies k.out
      invariant k.out[..k.put + i] == head + source.input[source.nextIn..source.nextIn + i] && h.Valid()
    {
      k.out[k.put + i] := source.input[source.nextIn + i];
      assert k.out[..k.put + i + 1] == k.out[..k.put + i] + [source.input[source.nextIn + i]];
    }
    k1 := k.(put := k.put + n);
    source.nextIn := source.nextIn + n;
    NoBits(source);
    assert done + (head + source.input[source.nextIn - n..source.nextIn]) == done + head
        + source.input[source.nextIn - n..source.nextIn];
  }

  /** A whole stored text, or the part that was copied before input or room ended. */
  ghost predicate Stored(how: Copying, b: seq<bool>, length: nat, text: seq<Byte>, text1: seq<Byte>, rest: seq<bool>) {
    match how
    case Done => 8 * length <= |b| && text1 == text + BytesOf(b, length) && rest == b[8 * length..]
    case NoInput => |b| < 8 * length
    case NoOutput => exists n: nat :: n < length && 8 * n <= |b| && text1 == text + BytesOf(b, n)
  }

  lemma ShortCopy(b: seq<bool>, length: nat, n: nat, text: seq<Byte>, text1: seq<Byte>)
    requires n < length && 8 * n <= |b| && text1 == text + BytesOf(b, n)
    ensures Stored(NoOutput, b, length, text, text1, [])
  {
  }

  lemma Progress(b: seq<bool>, m: nat, n: nat, text: seq<Byte>, text1: seq<Byte>, text2: seq<Byte>)
    requires 8 * m <= |b| && text1 == text + BytesOf(b, m) && 8 * n <= |b[8 * m..]|
        && text2 == text1 + BytesOf(b[8 * m..], n)
    ensures 8 * (m + n) <= |b| && text2 == text + BytesOf(b, m + n) && b[8 * m..][8 * n..] == b[8 * (m + n)..]
  {
    hide BytesOf;
    BytesJoined(b, m, n);
  }

  lemma NothingCopied(b: seq<bool>, text: seq<Byte>)
    ensures text == text + BytesOf(b, 0) && b[0..] == b
  {
  }

  /** No byte left anywhere. */
  lemma NoMoreInput(source: BitSource)
    requires source.Valid() && source.bits == 0 && source.nextIn == |source.input| && source.later == []
    ensures source.Coming() == []
  {
    NoBits(source);
    assert source.input[source.nextIn..] == [];
  }

  /** COPY */
  method CopyState(source: BitSource, h: History, k: Sink, length: nat) returns (how: Copying, k1: Sink)
    requires source.Valid() && source.bits == 0 && h.Valid() && ValidSink(k, h)
    modifies source, h`wsize, h`wnext, h`whave, h`done, h.window, k.out
    ensures source.Valid() && source.bits == 0 && h.Valid() && ValidSink(k1, h) && (k1.out == k.out || fresh(k1.out))
    ensures Stored(how, old(source.Coming()), length, old(Output(h, k)), Output(h, k1), source.Coming())
    ensures Capacity(h, k1) == old(Capacity(h, k)) && (how == NoOutput ==> Full(k1))
  {
    hide BitSource.Valid, BitSource.Coming, History.Valid, Text, BytesOf, Stored, StreamBits, LowVal;
    ghost var b, text := source.Coming(), Output(h, k);
    k1 := k;
    var left := length;
    ghost var n := 0;
    NothingCopied(b, text);
    while left > 0
      invariant source.Valid() && source.bits == 0 && h.Valid() && ValidSink(k1, h)
          && (k1.out == k.out || fresh(k1.out))
      invariant Capacity(h, k1) == old(Capacity(h, k))
      invariant 0 <= left && n == length - left && 8 * n <= |b| && source.Coming() == b[8 * n..]
          && Output(h, k1) == text + BytesOf(b, n)
      decreases left, |source.later|, |k1.rooms|
    {
      SourceSizes(source);
      var copy := left;
      if copy > |source.input| - source.nextIn { copy := |source.input| - source.nextIn; }
      if copy > k1.out.Length - k1.put { copy := k1.out.Length - k1.put; }
      if copy == 0 {
        if source.nextIn == |source.input| {
          if source.later == [] {
            NoMoreInput(source);
            StoredShort(b, length, n, text, Output(h, k1), source.Coming());
            return NoInput, k1;
          }
          source.NextCall();
        } else {
          if k1.rooms == [] {
            ShortCopy(b, length, n, text, Output(h, k1));
            StoredAny(b, length, text, Output(h, k1), source.Coming());
            return NoOutput, k1;
          }
          k1 := NextOutput(h, k1);
        }
      } else {
        ghost var text1 := Output(h, k1);
        k1 := CopyInput(source, h, k1, copy);
        Progress(b, n, copy, text, text1, Output(h, k1));
        left := left - copy;
        n := n + copy;
      }
    }
    StoredDone(b, length, text, Output(h, k1), source.Coming());
    how := Done;
  }

  lemma StoredDone(b: seq<bool>, length: nat, text: seq<Byte>, text1: seq<Byte>, rest: seq<bool>)
    requires 8 * length <= |b| && text1 == text + BytesOf(b, length) && rest == b[8 * length..]
    ensures Stored(Done, b, length, text, text1, rest)
  {
  }

  lemma StoredShort(b: seq<bool>, length: nat, n: nat, text: seq<Byte>, text1: seq<Byte>, rest: seq<bool>)
    requires n < length && 8 * n <= |b| && rest == b[8 * n..] && rest == []
    ensures Stored(NoInput, b, length, text, text1, rest)
  {
  }

  lemma StoredAny(b: seq<bool>, length: nat, text: seq<Byte>, text1: seq<Byte>, rest: seq<bool>)
    requires Stored(NoOutput, b, length, text, text1, [])
    ensures Stored(NoOutput, b, length, text, text1, rest)
  {
    hide BytesOf;
  }

  lemma SourceSizes(source: BitSource)
    requires source.Valid()
    ensures 0 <= source.nextIn <= |source.input|
  {
  }

  // ---- the STORED state ----

  /** NEEDBITS(32) at a byte boundary. */
  method NeedWord(source: BitSource) returns (ok: bool)
    requires source.Valid() && source.bits == 0
    modifies source
    ensures source.Valid() && source.Coming() == old(source.Coming()) && (ok <==> |source.Coming()| >= 32)
        && (ok ==> source.bits == 32)
  {
    hide BitSource.Coming, LowVal, StreamBits;
    source.LiveFirst();
    while source.bits < 32
      invariant source.Valid() && source.Coming() == old(source.Coming()) && source.bits <= |source.Coming()|
          && source.bits <= 32 && source.bits % 8 == 0
      decreases 32 - source.bits
    {
      ok := source.PullByte();
      source.LiveFirst();
      if !ok { return; }
    }
    ok := true;
  }

  datatype StoredEnd = StoredOk | InvalidLengths | StoredStarved | StoredStalled

  /** What the bits behind the byte boundary mean as a stored block. */
  ghost predicate StoredMeans(e: StoredEnd, b: seq<bool>, text: seq<Byte>, text1: seq<Byte>, rest: seq<bool>) {
    if |b| < 32 then e == StoredStarved
    else if LowVal(b[..16]) != 0xffff - LowVal(b[16..32]) then e == InvalidLengths
    else
      match e
      case StoredOk => Stored(Done, b[32..], LowVal(b[..16]), text, text1, rest)
      case StoredStarved => Stored(NoInput, b[32..], LowVal(b[..16]), text, text1, rest)
      case StoredStalled => Stored(NoOutput, b[32..], LowVal(b[..16]), text, text1, rest)
      case InvalidLengths => false
  }

  /** The two halves of the word that is held. */
  lemma {:induction false} WordParts(live: seq<bool>, b: seq<bool>)
    requires |live| == 32 && live <= b
    ensures LowVal(live) % WORD16 == LowVal(b[..16]) && LowVal(live) / WORD16 == LowVal(b[16..32])
        && 0 <= LowVal(b[16..32]) <= 0xffff
  {
    hide LowVal;
    Pow16();
    LowSplit(live, 16);
    assert live[..16] == b[..16] && live[16..] == b[16..32];
    LowBound(b[16..32]);
  }

  /** The complement of a 16-bit value. */
  function Complement(v: int): int { 0xffff - v }

  lemma ComplementIs(v: int)
    ensures Complement(v) == 0xffff - v
  {
  }

  /** STORED */
  method StoredState(source: BitSource, h: History, k: Sink) returns (e: StoredEnd, k1: Sink)
    requires source.Valid() && source.bits < 8 && h.Valid() && ValidSink(k, h)
    modifies source, h`wsize, h`wnext, h`whave, h`done, h.window, k.out
    ensures source.Valid() && h.Valid() && ValidSink(k1, h) && (k1.out == k.out || fresh(k1.out))
    ensures old(source.bits) <= |old(source.Coming())|
        && StoredMeans(e, old(source.Coming())[old(source.bits)..], old(Output(h, k)), Output(h, k1), source.Coming())
    ensures e == StoredOk ==> source.bits == 0
    ensures Capacity(h, k1) == old(Capacity(h, k)) && (e == StoredStalled ==> Full(k1))
  {
    hide BitSource.Valid, BitSource.Coming, History.Valid, Text, Stored, StreamBits, LowVal, Complement;
    k1 := k;
    ghost var c, text := source.Coming(), Output(h, k);
    source.LiveFirst();
    source.DropBits(source.bits % 8);
    ghost var b := source.Coming();
    assert b == c[old(source.bits)..];
    var ok := NeedWord(source);
    if !ok { return StoredStarved, k1; }
    source.LiveFirst();
    WordParts(source.live, b);
    ComplementIs(source.hold / 0x10000);
    if source.hold % 0x10000 != Complement(source.hold / 0x10000) { return InvalidLengths, k1; }
    var length := source.hold % 0x10000;
    source.DropBits(32);
    assert source.Coming() == b[32..];
    var how;
    how, k1 := CopyState(source, h, k, length);
    e := match how case Done => StoredOk case NoInput => StoredStarved case NoOutput => StoredStalled;
  }

  /** A block that was stored comes back, or the part of it that there was room for. */
  lemma {:induction false} StoredIsRead(e: StoredEnd, data: seq<Byte>, more: seq<bool>, text: seq<Byte>,
      text1: seq<Byte>, rest: seq<bool>)
    requires |data| <= 0xffff && StoredMeans(e, StoredBits(data) + more, text, text1, rest)
    ensures e == StoredOk || e == StoredStalled
    ensures e == StoredOk ==> text1 == text + data && rest == more
    ensures e == StoredStalled ==> text1 < text + data
  {
    hide StreamBits, LowVal, LowBits, BytesOf;
    var b := StoredBits(data) + more;
    Pow16();
    ValOfLow(|data|, 16);
    ValOfLow(0xffff - |data|, 16);
    assert b[..16] == LowBits(|data|, 16) && b[16..32] == LowBits(0xffff - |data|, 16)
        && b[32..] == StreamBits(data) + more;
    BytesBack(data, more);
    if e == StoredOk { assert b[32..][8 * |data|..] == more; }
    if e == StoredStalled {
      var n: nat :| n < |data| && 8 * n <= |b[32..]| && text1 == text + BytesOf(b[32..], n);
      BytesJoined(b[32..], n, |data| - n);
      assert text + data == text + BytesOf(b[32..], n) + BytesOf(b[32..][8 * n..], |data| - n);
    }
  }
}

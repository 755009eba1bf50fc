/** Whole streams: BZ2_bzCompress from input calls to compressed bytes, BZ2_bzDecompress from
    compressed pieces to output buffers, and their agreement. */
module StreamCodec {
  import opened Bytes
  import opened Bits
  import opened BitStream
  import opened BitFields
  import opened BlockFormat
  import opened BlockMeaning
  import opened BlockReceiver
  import opened BlockDecoder
  import opened InverseBwt
  import opened SmallDecoder
  import opened RunLength
  import opened StreamFormat
  import opened StreamMeaning
  import opened StreamCompressor
  import opened RunDecoder

  // ---- compression ----

  /** What the caller wants compressed next, and whether the data so far is to be flushed, or the
      stream finished, with it. */
  datatype Request = Request(action: Action, data: seq<Byte>)

  function Input(requests: seq<Request>): seq<Byte> {
    if requests == [] then [] else Input(requests[..|requests| - 1]) + requests[|requests| - 1].data
  }

  /** Requests that finish the stream with the last one, and not before. */
  ghost predicate Finishing(requests: seq<Request>) {
    && requests != [] && requests[|requests| - 1].action == Finish
    && forall i :: 0 <= i < |requests| - 1 ==> requests[i].action != Finish
  }

  /** The lengths of the input at which it is flushed or ends. */
  ghost function CutsOf(requests: seq<Request>): set<int> {
    if requests == [] then {}
    else
      CutsOf(requests[..|requests| - 1])
      + if requests[|requests| - 1].action == Run then {} else {|Input(requests)|}
  }

  lemma {:induction false} CutsUpTo(requests: seq<Request>, i: int, before: set<int>, after: set<int>)
    requires 0 <= i < |requests| && before <= CutsOf(requests[..i])
    requires CutsOn(before, after, requests[i].action == Run, |Input(requests[..i + 1])|)
    ensures after <= CutsOf(requests[..i + 1])
  {
    hide Input;
    assert requests[..i + 1][..i] == requests[..i];
  }

  lemma {:induction false} NoCutsYet(requests: seq<Request>)
    requires requests == []
    ensures {} <= CutsOf(requests)
  {
  }

  /** Calls BZ2_bzCompress, each time with the room given, until the action is done. */
  method Perform(c: Compressor, action: Action, rooms: nat -> nat, call0: nat) returns (out: seq<Byte>, call: nat)
    requires c.Ready() && c.mode == RUNNING && forall k :: rooms(k) > 0
    modifies c, c.s, c.s.block, c.s.inUse, c.w
    ensures c.Ready() && Onward(old(c.At()), c.At(), out) && c.availIn == []
    ensures CutsOn(old(c.cuts), c.cuts, action == Run, |old(c.taken + c.availIn)|)
    ensures action != Finish ==> c.mode == RUNNING
    ensures action == Flush ==> c.Flushed()
    ensures action == Finish ==> c.ended && c.outPos == |c.w.zbits|
  {
    hide *;
    out, call := [], call0;
    c.ReadyParts();
    c.PointIs();
    NotMoved(c.At());
    ghost var a, n, running := c.At(), |c.taken + c.availIn|, action == Run;
    NoCut(c.cuts, running, n);
    var done := action == Run && c.availIn == [];
    c.RefusedIs(action);
    c.RankIs();
    while !done
      invariant c.Ready() && Onward(a, c.At(), out)
      invariant CutsOn(old(c.cuts), c.cuts, running, n)
      invariant 0 <= c.Rank() && 0 <= c.outPos <= |c.w.zbits|
      invariant !done ==> !c.Refused(action) && (action == Run ==> c.availIn != [])
      invariant done ==> c.availIn == [] && (action != Finish ==> c.mode == RUNNING)
      invariant done && action == Flush ==> c.Flushed()
      invariant done && action == Finish ==> c.ended && c.outPos == |c.w.zbits|
      decreases !done, |c.availIn|, c.Rank(), |c.w.zbits| - c.outPos
    {
      ghost var b, cuts := c.At(), c.cuts;
      c.PointIs();
      var ret, more := c.BzCompress(action, rooms(call));
      c.PointIs();
      c.RankIs();
      AllSame(a, b, c.At(), out, more);
      CutsTwice(old(c.cuts), cuts, c.cuts, running, n);
      OnwardTwice(a, b, c.At(), out, more);
      LessToDo(b, c.At(), more);
      c.FlushedParts();
      out, call := out + more, call + 1;
      done := if action == Run then c.availIn == [] else ret == RunOk || ret == StreamEnd;
      c.RefusedIs(action);
    }
  }

  /** BZ2_bzCompress over a whole run: any input in any pieces, any flushes, any room for output
      in each call, any work factor; the last request finishes the stream. Blocks are full but where
      a flush or the end comes, and nothing follows the trailer but bits up to the next byte. */
  method Compress(blockSize100k: int, workFactor: int, requests: seq<Request>, rooms: nat -> nat)
    returns (zbits: seq<Byte>)
    requires 1 <= blockSize100k <= 9 && Finishing(requests) && forall k :: rooms(k) > 0
    ensures Encodes(zbits, blockSize100k, Input(requests), CutsOf(requests))
  {
    hide *;
    var c := new Compressor(blockSize100k, workFactor);
    zbits := [];
    var call: nat := 0;
    NoInput(requests[..0]);
    NoCutsYet(requests[..0]);
    NotEmpty(requests);
    assert c.w.zbits[..c.outPos] == [];
    for i := 0 to |requests|
      invariant c.Ready() && fresh(c) && fresh(c.s) && fresh(c.s.block) && fresh(c.s.inUse) && fresh(c.w)
      invariant 0 <= c.outPos <= |c.w.zbits| && zbits == c.w.zbits[..c.outPos] && c.availIn == []
      invariant c.blockSize100k == blockSize100k && c.cuts <= CutsOf(requests[..i])
      invariant c.taken == Input(requests[..i]) && (i < |requests| ==> c.mode == RUNNING)
      invariant i == |requests| ==> c.ended && c.outPos == |c.w.zbits|
    {
      InputUpTo(requests, i);
      ActionOf(requests, i);
      c.Feed(requests[i].data);
      ghost var a, cuts := c.At(), c.cuts;
      c.PointIs();
      var out;
      out, call := Perform(c, requests[i].action, rooms, call);
      c.PointIs();
      HandedOut(a, c.At(), zbits, out);
      CutsUpTo(requests, i, cuts, c.cuts);
      zbits := zbits + out;
      assert c.taken + [] == c.taken;
    }
    assert requests[..|requests|] == requests && c.w.zbits[..c.outPos] == c.w.zbits;
    c.ReadyParts();
    c.ValidParts();
    c.EndedParts();
    EncodesMore(zbits, blockSize100k, Input(requests), c.cuts, CutsOf(requests));
  }

  lemma {:induction false} NoInput(requests: seq<Request>)
    requires requests == []
    ensures Input(requests) == []
  {
  }

  lemma {:induction false} InputUpTo(requests: seq<Request>, i: int)
    requires 0 <= i < |requests|
    ensures Input(requests[..i + 1]) == Input(requests[..i]) + requests[i].data
  {
    assert requests[..i + 1][..i] == requests[..i];
  }

  lemma ActionOf(requests: seq<Request>, i: int)
    requires Finishing(requests) && 0 <= i < |requests|
    ensures requests[i].action == Finish <==> i == |requests| - 1
  {
  }

  lemma NotEmpty(requests: seq<Request>)
    requires Finishing(requests)
    ensures requests != []
  {
  }

  lemma HandedOut(a: Point, b: Point, zbits: seq<Byte>, out: seq<Byte>)
    requires Onward(a, b, out) && a.outPos <= |a.zbits| && zbits == a.zbits[..a.outPos]
    ensures 0 <= b.outPos <= |b.zbits| && zbits + out == b.zbits[..b.outPos] && a.all == b.all
  {
    SliceOfLonger(a.zbits, b.zbits, 0, a.outPos);
    SlicesJoined(b.zbits, 0, a.outPos, b.outPos);
    assert b.zbits[0..b.outPos] == b.zbits[..b.outPos] && b.zbits[0..a.outPos] == a.zbits[..a.outPos];
  }

  // ---- decompression ----

  lemma {:induction false} ExpectStep(bits: seq<bool>, magic: seq<Byte>, i: nat)
    requires i < |magic|
    ensures var uc := FieldAt(bits, 8);
      Expect(bits, magic[i..]) == if uc.Got? && uc.value == magic[i] then Expect(uc.rest, magic[i + 1..]) else Fail
  {
    hide FieldAt;
    assert magic[i..][1..] == magic[i + 1..];
  }

  lemma {:induction false} NothingExpected(bits: seq<bool>, magic: seq<Byte>)
    ensures Expect(bits, magic[|magic|..]) == Got((), bits)
  {
    assert magic[|magic|..] == [];
  }

  /** Compares the bytes of a magic number from position i0 on. */
  method ReadMagic(r: BitReader, magic: seq<Byte>, i0: int) returns (ok: bool)
    requires r.Valid() && 0 <= i0 <= |magic|
    modifies r
    ensures r.Valid() && Reads(Expect(old(r.Coming()), magic[i0..]), ok, (), r.Coming())
  {
    hide FieldAt, Expect, BitReader.Valid, BitReader.Coming;
    ghost var all := Expect(r.Coming(), magic[i0..]);
    ok := true;
    for i := i0 to |magic|
      invariant r.Valid() && ok && all == Expect(r.Coming(), magic[i..])
    {
      ExpectStep(r.Coming(), magic, i);
      var uc;
      ok, uc := ReadByte(r);
      if !ok { return; }
      if uc != magic[i] { return false; }
    }
    NothingExpected(r.Coming(), magic);
  }

  /** The stream header; the two storage layouts are allocated as it demands. */
  method ReadHeader(r: BitReader, small: bool)
    returns (ok: bool, blockSize100k: int, fast: FastUnsorter?, sm: SmallUnsorter?)
    requires r.Valid()
    modifies r
    ensures r.Valid() && (!ok ==> StreamAt(old(r.Coming())) == Fail)
    ensures ok ==> 1 <= blockSize100k <= 9 && fast != null && sm != null && fresh(fast) && fresh(fast.tt)
    ensures ok ==> fresh(sm) && fresh(sm.ll16) && fresh(sm.ll4) && Room(small, fast, sm, 100_000 * blockSize100k)
    ensures ok ==> StreamAt(old(r.Coming())) == PiecesAt(r.Coming(), 100_000 * blockSize100k, 0)
  {
    hide FieldAt, Expect, PiecesAt, BitReader.Valid, BitReader.Coming;
    fast, sm, blockSize100k := null, null, 0;
    ok := ReadMagic(r, [0x42, 0x5a, 0x68], 0);
    assert [0x42, 0x5a, 0x68][0..] == [0x42, 0x5a, 0x68];
    if !ok { return; }
    ok, blockSize100k := ReadField(r, 8);
    if !ok { return; }
    ok := 0x30 + 1 <= blockSize100k <= 0x30 + 9;
    if !ok { return; }
    blockSize100k := blockSize100k - 0x30;
    fast := new FastUnsorter(if small then 0 else blockSize100k);
    sm := new SmallUnsorter(if small then blockSize100k else 0);
  }

  lemma PieceIs(bits: seq<bool>, max: int)
    ensures PieceAt(bits, max) != Wild ==> BodyAt(bits, max) != Wild
  {
    hide BodyAt, Checked, Text;
  }

  /** When no block is found, or one that its bytes or its checksum show to be wrong. */
  lemma BodyIs(bits: seq<bool>, max: int, ok: bool, crc: bv32, stage: OutputStage?, coming: seq<bool>)
    requires PieceAt(bits, max) != Wild && Reads(BodyAt(bits, max), ok, Body(crc, BytesOf(stage)), coming)
    ensures !ok ==> PieceAt(bits, max) == Fail
    ensures ok && stage != null ==>
      PieceAt(bits, max) ==
      if Checked(Body(crc, stage.block)) then Got(Piece(Text(stage.block), crc), coming) else Fail
  {
    hide BodyAt, Checked, Text;
  }

  lemma CheckedIs(crc: bv32, bytes: seq<Byte>)
    ensures Checked(Body(crc, bytes)) <==> Complete(bytes) && crc == !CrcOf(Text(bytes))
  {
    hide Complete, CrcOf, Text;
  }

  lemma NoPiece(m: Read<Piece>, v: Piece, coming: seq<bool>)
    ensures m == Fail ==> Reads(m, false, v, coming)
    ensures m == Got(v, coming) ==> Reads(m, true, v, coming)
  {
  }

  /** One block: decoding, output through the caller's buffers, and both checksums. */
  method DecompressBlock(r: BitReader, blockSize100k: int, small: bool, fast: FastUnsorter, sm: SmallUnsorter,
      sizes: nat -> nat, call0: nat, combined0: bv32)
    returns (ok: bool, piece: seq<Byte>, call: nat, combined: bv32, ghost crc: bv32)
    requires r.Valid() && 1 <= blockSize100k <= 9 && Room(small, fast, sm, 100_000 * blockSize100k)
    requires PieceAt(r.Coming(), 100_000 * blockSize100k) != Wild && forall k :: sizes(k) > 0
    modifies r, fast, fast.tt, sm, sm.ll16, sm.ll4
    ensures r.Valid()
    ensures Reads(PieceAt(old(r.Coming()), 100_000 * blockSize100k), ok, Piece(piece, crc), r.Coming())
    ensures ok ==> combined == Combine(combined0, crc)
  {
    hide *;
    piece, call, combined, crc := [], call0, combined0, 0;
    ghost var bits := r.Coming();
    PieceIs(bits, 100_000 * blockSize100k);
    var stage, storedBlockCRC;
    ok, stage, storedBlockCRC := ReceiveBlock(r, blockSize100k, small, fast, sm);
    BodyIs(bits, 100_000 * blockSize100k, ok, storedBlockCRC, stage, r.Coming());
    if !ok { NoPiece(PieceAt(bits, 100_000 * blockSize100k), Piece(piece, crc), r.Coming()); return; }
    CheckedIs(storedBlockCRC, stage.block);
    var corrupt;
    piece, corrupt, call := stage.Drain(sizes, call0);
    if corrupt {
      NoPiece(PieceAt(bits, 100_000 * blockSize100k), Piece(piece, crc), r.Coming());
      return false, piece, call, combined, crc;
    }
    var calculatedBlockCRC := !stage.calculatedBlockCRC;
    crc := storedBlockCRC;
    NoPiece(PieceAt(bits, 100_000 * blockSize100k), Piece(piece, crc), r.Coming());
    if calculatedBlockCRC != storedBlockCRC { return false, piece, call, combined, crc; }
    combined := Combine(combined, calculatedBlockCRC);
  }

  /** The end of the stream and the check of the combined checksum. */
  method ReadTrailer(r: BitReader, combined: bv32) returns (ok: bool)
    requires r.Valid()
    modifies r
    ensures r.Valid() && Reads(EndAt(old(r.Coming()), combined), ok, [], r.Coming())
  {
    hide WordAt, Expect, BitReader.Valid, BitReader.Coming;
    ok := ReadMagic(r, END_MAGIC, 1);
    if !ok { return; }
    var storedCombinedCRC;
    ok, storedCombinedCRC := ReadWord(r);
    if !ok { return; }
    ok := combined == storedCombinedCRC;
  }

  /** What comes next: the end, a block, or neither. */
  lemma {:induction false} PiecesStep(bits: seq<bool>, max: int, combined: bv32, head: seq<Byte>)
    ensures var uc := FieldAt(bits, 8); var m := Then(head, PiecesAt(bits, max, combined));
      if !uc.Got? then m == Fail
      else if uc.value == 0x17 then
        var e := EndAt(uc.rest, combined);
        if e.Got? then e.value == [] && m == Got(head, e.rest) else m == Fail
      else if uc.value != 0x31 then m == Fail
      else
        var h := Expect(uc.rest, BLOCK_MAGIC[1..]);
        if !h.Got? then m == Fail
        else
          var p := PieceAt(h.rest, max);
          if !p.Got? then m == Miss(p)
          else m == Then(head + p.value.text, PiecesAt(p.rest, max, Combine(combined, p.value.crc)))
  {
    hide FieldAt, Expect, PieceAt, Combine, WordAt;
    assert head + [] == head;
    var uc := FieldAt(bits, 8);
    if uc.Got? && uc.value == 0x31 {
      var h := Expect(uc.rest, BLOCK_MAGIC[1..]);
      if h.Got? {
        var p := PieceAt(h.rest, max);
        if p.Got? { ThenThen(head, p.value.text, PiecesAt(p.rest, max, Combine(combined, p.value.crc))); }
      }
    }
  }

  method DecompressBlocks(r: BitReader, blockSize100k: int, small: bool, fast: FastUnsorter, sm: SmallUnsorter,
      sizes: nat -> nat)
    returns (ok: bool, out: seq<Byte>)
    requires r.Valid() && 1 <= blockSize100k <= 9 && Room(small, fast, sm, 100_000 * blockSize100k)
    requires PiecesAt(r.Coming(), 100_000 * blockSize100k, 0) != Wild && forall k :: sizes(k) > 0
    modifies r, fast, fast.tt, sm, sm.ll16, sm.ll4
    ensures r.Valid() && Reads(PiecesAt(old(r.Coming()), 100_000 * blockSize100k, 0), ok, out, r.Coming())
  {
    hide PiecesAt, PieceAt, EndAt, Expect, FieldAt, Room, Combine, BitReader.Valid, BitReader.Coming;
    ghost var all := PiecesAt(r.Coming(), 100_000 * blockSize100k, 0);
    ok, out := true, [];
    var call: nat, calculatedCombinedCRC: bv32 := 0, 0;
    ThenNothing(all);
    while true
      invariant r.Valid() && ok
      invariant all == Then(out, PiecesAt(r.Coming(), 100_000 * blockSize100k, calculatedCombinedCRC))
      decreases |r.Coming()|
    {
      PiecesStep(r.Coming(), 100_000 * blockSize100k, calculatedCombinedCRC, out);
      var uc;
      ok, uc := ReadByte(r);
      if !ok { return; }
      if uc == 0x17 {
        ok := ReadTrailer(r, calculatedCombinedCRC);
        return;
      }
      if uc != 0x31 { return false, out; }
      ok := ReadMagic(r, BLOCK_MAGIC, 1);
      if !ok { return; }
      var piece;
      ghost var crc;
      ok, piece, call, calculatedCombinedCRC, crc :=
        DecompressBlock(r, blockSize100k, small, fast, sm, sizes, call, calculatedCombinedCRC);
      if !ok { return; }
      out := out + piece;
    }
  }

  lemma {:induction false} JoinBits(pieces: seq<seq<Byte>>)
    ensures PieceBits(pieces) == BytesBits(Join(pieces))
  {
    hide BytesBits;
    if pieces == [] {
    } else {
      JoinBits(pieces[1..]);
      BytesBitsConcat(pieces[0], Join(pieces[1..]));
    }
  }

  /** BZ2_bzDecompress over a whole run, on any bytes: whatever pieces they come in, whatever room
      each call offers and whichever storage layout is chosen, it gets to the end of the stream just
      when the bytes mean a stream, and has then given out its text. It has to be left out only that
      a block lists more selectors than the decoder has room for. */
  method Decompress(pieces: seq<seq<Byte>>, small: bool, sizes: nat -> nat) returns (ok: bool, out: seq<Byte>)
    requires StreamAt(BytesBits(Join(pieces))) != Wild && forall k :: sizes(k) > 0
    ensures ok <==> StreamAt(BytesBits(Join(pieces))).Got?
    ensures ok ==> out == StreamAt(BytesBits(Join(pieces))).value
    ensures forall text :: Represents(Join(pieces), text) ==> ok && out == text
  {
    hide *;
    JoinBits(pieces);
    var r := new BitReader(pieces);
    ghost var all := StreamAt(r.Coming());
    forall text | Represents(Join(pieces), text) ensures all.Got? && all.value == text {
      RepresentedIsMeant(Join(pieces), text);
    }
    out := [];
    var blockSize100k, fast, sm;
    ok, blockSize100k, fast, sm := ReadHeader(r, small);
    if !ok { return; }
    ok, out := DecompressBlocks(r, blockSize100k, small, fast, sm, sizes);
    ReadsIs(all, ok, out, r.Coming());
  }

  lemma ReadsIs<T>(m: Read<T>, ok: bool, v: T, coming: seq<bool>)
    requires Reads(m, ok, v, coming)
    ensures ok <==> m.Got?
    ensures ok ==> m.value == v && m.rest == coming
  {
  }

  /** Compressing and decompressing gives the input back: for every block size and work factor,
      every sequence of requests and flushes that ends by finishing, all output buffer sizes of the
      compressor, every cutting of the compressed bytes into pieces, both storage layouts and all
      output buffer sizes of the decompressor. */
  method RoundTrip(blockSize100k: int, workFactor: int, requests: seq<Request>, rooms: nat -> nat, chunk: nat -> nat,
      small: bool, sizes: nat -> nat)
    returns (ok: bool, out: seq<Byte>)
    requires 1 <= blockSize100k <= 9 && Finishing(requests) && forall k :: rooms(k) > 0
    requires forall k :: sizes(k) > 0
    requires forall k :: chunk(k) > 0
    ensures ok && out == Input(requests)
  {
    hide *;
    var zbits := Compress(blockSize100k, workFactor, requests, rooms);
    var pieces := CutUp(zbits, chunk);
    EncodesRepresents(zbits, blockSize100k, Input(requests), CutsOf(requests));
    RepresentedIsMeant(zbits, Input(requests));
    ok, out := Decompress(pieces, small, sizes);
  }

  /** Cuts a byte string into pieces of the given sizes. */
  method CutUp(zbits: seq<Byte>, chunk: nat -> nat) returns (pieces: seq<seq<Byte>>)
    requires forall k :: chunk(k) > 0
    ensures Join(pieces) == zbits
  {
    hide Join;
    pieces := [];
    var pos, k: nat := 0, 0;
    JoinNothing();
    while pos < |zbits|
      invariant 0 <= pos <= |zbits| && Join(pieces) == zbits[..pos]
    {
      var end := if pos + chunk(k) <= |zbits| then pos + chunk(k) else |zbits|;
      JoinSnoc(pieces, zbits[pos..end]);
      assert zbits[..pos] + zbits[pos..end] == zbits[..end];
      pieces, pos, k := pieces + [zbits[pos..end]], end, k + 1;
    }
    assert zbits[..pos] == zbits;
  }
}

/** What any bytes mean as a bzip2 stream, and that a stream which represents a text means this text. */
module StreamMeaning {
  import opened Bytes
  import opened Bits
  import opened BitFields
  import opened RunLength
  import opened InverseBwt
  import opened BlockFormat
  import opened BlockMeaning
  import opened StreamFormat

  /** Bytes that have to come next. */
  ghost function Expect(bits: seq<bool>, magic: seq<Byte>): (m: Read<()>)
    ensures m != Wild && Leaves(m, bits)
    decreases magic
  {
    var uc := FieldAt(bits, 8);
    if magic == [] then Got((), bits)
    else if uc.Got? && uc.value == magic[0] then Expect(uc.rest, magic[1..]) else Fail
  }

  /** A block's text, and the checksum it has been sent with. */
  datatype Piece = Piece(text: seq<Byte>, crc: bv32)

  /** Bytes that do not stop where a count should be, and whose text has the checksum stored. */
  ghost predicate Checked(b: Body) {
    Complete(b.bytes) && b.crc == !CrcOf(Text(b.bytes))
  }

  ghost function PieceAt(bits: seq<bool>, max: int): (m: Read<Piece>)
    ensures Leaves(m, bits)
  {
    var b := BodyAt(bits, max);
    if !b.Got? then Miss(b)
    else if Checked(b.value) then Got(Piece(Text(b.value.bytes), b.value.crc), b.rest)
    else Fail
  }

  /** One block after another, up to the end of the stream and the combined checksum. */
  ghost function PiecesAt(bits: seq<bool>, max: int, combined: bv32): (m: Read<seq<Byte>>)
    ensures Leaves(m, bits)
    decreases |bits|
  {
    var uc := FieldAt(bits, 8);
    if !uc.Got? then Fail
    else if uc.value == 0x17 then EndAt(uc.rest, combined)
    else if uc.value != 0x31 then Fail
    else
      var h := Expect(uc.rest, BLOCK_MAGIC[1..]);
      if !h.Got? then Fail
      else
        var p := PieceAt(h.rest, max);
        if p.Got? then Then(p.value.text, PiecesAt(p.rest, max, Combine(combined, p.value.crc))) else Miss(p)
  }

  ghost function EndAt(bits: seq<bool>, combined: bv32): (m: Read<seq<Byte>>)
    ensures m != Wild && Leaves(m, bits)
  {
    var h := Expect(bits, END_MAGIC[1..]);
    if !h.Got? then Fail
    else
      var w := WordAt(h.rest, 0, 4);
      if w.Got? && w.value == combined then Got([], w.rest) else Fail
  }

  /** A whole stream: its text, and the bits behind it. */
  ghost function StreamAt(bits: seq<bool>): Read<seq<Byte>> {
    var h := Expect(bits, [0x42, 0x5a, 0x68]);
    if !h.Got? then Fail
    else
      var level := FieldAt(h.rest, 8);
      if level.Got? && 0x30 + 1 <= level.value <= 0x30 + 9 then
        PiecesAt(level.rest, 100_000 * (level.value - 0x30), 0)
      else Fail
  }

  // ---- streams that represent a text ----

  lemma {:induction false} ExpectGiven(magic: seq<Byte>, rest: seq<bool>)
    ensures Expect(BytesBits(magic) + rest, magic) == Got((), rest)
    decreases magic
  {
    hide BytesBits, FieldAt;
    if magic == [] {
      NoBits(rest);
    } else {
      FirstByte(magic, rest);
      ExpectGiven(magic[1..], rest);
    }
  }

  /** The text of the blocks from k on, read from the front. */
  ghost function TextFrom(loads: seq<Load>, k: nat): seq<Byte>
    requires k <= |loads|
    decreases |loads| - k
  {
    if k == |loads| then [] else Text(loads[k].bytes) + TextFrom(loads, k + 1)
  }

  lemma {:induction false} TextInParts(loads: seq<Load>, k: nat)
    requires k <= |loads|
    ensures TextOf(loads) == TextOf(loads[..k]) + TextFrom(loads, k)
    decreases |loads| - k
  {
    hide Text;
    if k == |loads| {
      assert loads[..k] == loads;
    } else {
      TextInParts(loads, k + 1);
      TextAndCrcUpTo(loads, k);
      assert TextOf(loads[..k]) + Text(loads[k].bytes) + TextFrom(loads, k + 1) ==
             TextOf(loads[..k]) + (Text(loads[k].bytes) + TextFrom(loads, k + 1));
    }
  }

  lemma {:induction false} TextAndCrcUpTo(loads: seq<Load>, k: int)
    requires 0 <= k < |loads|
    ensures TextOf(loads[..k + 1]) == TextOf(loads[..k]) + Text(loads[k].bytes)
    ensures CombinedCrc(BlocksOf(loads[..k + 1])) == Combine(CombinedCrc(BlocksOf(loads[..k])), loads[k].block.crc)
  {
    hide Text, Combine;
    assert loads[..k + 1][..k] == loads[..k];
    assert BlocksOf(loads[..k + 1])[..k] == BlocksOf(loads[..k]);
  }

  /** What the stream still holds when k blocks are done. */
  ghost function After(loads: seq<Load>, k: nat, pad: seq<bool>): seq<bool>
    requires k <= |loads|
  {
    BlocksBits(loads, k) + (TrailerBits(loads) + pad)
  }

  lemma {:induction false} NextBlock(loads: seq<Load>, k: nat, pad: seq<bool>, max: int)
    requires k < |loads| && Loaded(loads, max)
    ensures Carries(loads[k].block, loads[k].bytes, loads[k].column, max) && Sendable(loads[k].block)
    ensures After(loads, k, pad) == BytesBits(BLOCK_MAGIC) + (BodyBits(loads[k].block) + After(loads, k + 1, pad))
  {
    hide BytesBits, BodyBits, Sendable, StandsFor, Complete, CrcOf, Text, Unsorted, CombinedCrc, BlocksOf, WordBytes;
    var m, body := BytesBits(BLOCK_MAGIC), BodyBits(loads[k].block);
    var bits, trailer := BlocksBits(loads, k + 1), TrailerBits(loads) + pad;
    assert m + body + bits + trailer == m + (body + (bits + trailer));
  }

  lemma {:induction false} OnlyTrailer(loads: seq<Load>, pad: seq<bool>)
    ensures After(loads, |loads|, pad) ==
      BytesBits(END_MAGIC) + (BytesBits(WordBytes(CombinedCrc(BlocksOf(loads)))) + pad)
  {
    hide BytesBits, CombinedCrc, BlocksOf, WordBytes;
    var m, word := BytesBits(END_MAGIC), BytesBits(WordBytes(CombinedCrc(BlocksOf(loads))));
    assert [] + (m + word + pad) == m + (word + pad);
  }

  lemma {:induction false} PiecesGiven(loads: seq<Load>, k: nat, pad: seq<bool>, max: int)
    requires k <= |loads| && Loaded(loads, max)
    ensures PiecesAt(After(loads, k, pad), max, CombinedCrc(BlocksOf(loads[..k]))) == Got(TextFrom(loads, k), pad)
    decreases |loads| - k
  {
    hide *;
    var combined := CombinedCrc(BlocksOf(loads[..k]));
    NoTextLeft(loads);
    if k == |loads| {
      assert loads[..k] == loads;
      var word := BytesBits(WordBytes(combined)) + pad;
      OnlyTrailer(loads, pad);
      CrcGiven(combined, pad);
      EndGiven(combined, word, pad);
      EndFound(After(loads, k, pad), max, combined, word, pad);
    } else {
      var more := After(loads, k + 1, pad);
      NextBlock(loads, k, pad, max);
      var body := BodyBits(loads[k].block) + more;
      PieceGiven(loads[k], max, more);
      PiecesGiven(loads, k + 1, pad, max);
      TextAndCrcUpTo(loads, k);
      PieceFound(After(loads, k, pad), max, combined, body, loads[k], more);
      TextStep(loads, k, pad);
    }
  }

  lemma {:induction false} NoTextLeft(loads: seq<Load>)
    ensures TextFrom(loads, |loads|) == []
  {
  }

  lemma {:induction false} TextStep(loads: seq<Load>, k: nat, pad: seq<bool>)
    requires k < |loads|
    ensures Then(Text(loads[k].bytes), Got(TextFrom(loads, k + 1), pad)) == Got(TextFrom(loads, k), pad)
  {
    hide Text;
  }

  lemma PieceGiven(l: Load, max: int, rest: seq<bool>)
    requires Sendable(l.block) && Carries(l.block, l.bytes, l.column, max)
    ensures PieceAt(BodyBits(l.block) + rest, max) == Got(Piece(Text(l.bytes), l.block.crc), rest)
  {
    hide Sendable, BodyBits, BodyAt, StandsFor, Unsorted, Complete, CrcOf, Text;
    BodyGiven(l.block, l.bytes, l.column, max, rest);
  }

  lemma EndGiven(combined: bv32, bits: seq<bool>, pad: seq<bool>)
    requires WordAt(bits, 0, 4) == Got(combined, pad)
    ensures EndAt(BytesBits(END_MAGIC[1..]) + bits, combined) == Got([], pad)
  {
    hide WordAt, BytesBits, Expect;
    ExpectGiven(END_MAGIC[1..], bits);
  }

  lemma {:induction false} EndFound(bits: seq<bool>, max: int, combined: bv32, word: seq<bool>, pad: seq<bool>)
    requires bits == BytesBits(END_MAGIC) + word
    requires EndAt(BytesBits(END_MAGIC[1..]) + word, combined) == Got([], pad)
    ensures PiecesAt(bits, max, combined) == Got([], pad)
  {
    hide EndAt, BytesBits, FieldAt, Expect, PieceAt, Combine;
    FirstByte(END_MAGIC, word);
  }

  lemma {:induction false} PieceFound(bits: seq<bool>, max: int, combined: bv32, body: seq<bool>, l: Load,
      more: seq<bool>)
    requires bits == BytesBits(BLOCK_MAGIC) + body && PieceAt(body, max) == Got(Piece(Text(l.bytes), l.block.crc), more)
    ensures PiecesAt(bits, max, combined) == Then(Text(l.bytes), PiecesAt(more, max, Combine(combined, l.block.crc)))
  {
    hide EndAt, BytesBits, FieldAt, Expect, PieceAt, Combine, Text;
    FirstByte(BLOCK_MAGIC, body);
    ExpectGiven(BLOCK_MAGIC[1..], body);
  }

  lemma HeaderGiven(level: int, rest: seq<bool>)
    requires 1 <= level <= 9
    ensures StreamAt(BytesBits(Header(level)) + rest) == PiecesAt(rest, 100_000 * level, 0)
  {
    hide BytesBits, FieldAt, Expect, PiecesAt;
    var h, last: Byte := [0x42, 0x5a, 0x68], 0x30 + level;
    assert Header(level) == h + [last];
    BytesBitsConcat(h, [last]);
    assert BytesBits(h) + BytesBits([last]) + rest == BytesBits(h) + (BytesBits([last]) + rest);
    ExpectGiven(h, BytesBits([last]) + rest);
    FirstByte([last], rest);
    NoBits(rest);
    assert [last][1..] == [];
  }

  /** Main result for streams of the format: what represents a text means it. */
  lemma RepresentedIsMeant(zbits: seq<Byte>, text: seq<Byte>)
    requires Represents(zbits, text)
    ensures StreamAt(BytesBits(zbits)).Got? && StreamAt(BytesBits(zbits)).value == text
  {
    hide *;
    var level, loads, pad := StreamParts(zbits, text);
    HeaderGiven(level, After(loads, 0, pad));
    NoLoads(100_000 * level);
    assert loads[..0] == [];
    PiecesGiven(loads, 0, pad, 100_000 * level);
    TextInParts(loads, 0);
    assert [] + TextFrom(loads, 0) == TextFrom(loads, 0);
  }

  /** No bytes represent two texts. */
  lemma OneText(zbits: seq<Byte>, text1: seq<Byte>, text2: seq<Byte>)
    requires Represents(zbits, text1) && Represents(zbits, text2)
    ensures text1 == text2
  {
    hide *;
    RepresentedIsMeant(zbits, text1);
    RepresentedIsMeant(zbits, text2);
  }

  lemma StreamParts(zbits: seq<Byte>, text: seq<Byte>) returns (level: int, loads: seq<Load>, pad: seq<bool>)
    requires Represents(zbits, text)
    ensures 1 <= level <= 9 && Loaded(loads, 100_000 * level) && TextOf(loads) == text
    ensures BytesBits(zbits) == BytesBits(Header(level)) + After(loads, 0, pad)
  {
    hide BytesBits, Header, BlocksBits, TrailerBits, Loaded, TextOf;
    level, loads, pad :| IsStream(BytesBits(zbits), level, loads, pad) && TextOf(loads) == text;
  }
}

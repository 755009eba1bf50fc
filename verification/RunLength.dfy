/** The initial run-length stage: the meaning of a block, and the block checksum. */
module RunLength {
  import opened Bytes
  import opened ZeroRuns

  /** A reader of the block format: text so far, and how many equal bytes it has just
      seen.  After four the next byte is a repeat count. */
  datatype Scan = Scan(text: seq<Byte>, ch: Byte, seen: nat)

  function Accept(s: Scan, x: Byte): Scan {
    if s.seen == 4 then Scan(s.text + Rep(s.ch, x), s.ch, 0)
    else if s.seen > 0 && x == s.ch then Scan(s.text + [x], x, s.seen + 1)
    else Scan(s.text + [x], x, 1)
  }

  function ScanOf(b: seq<Byte>): (s: Scan)
    ensures s.seen <= 4
  {
    if b == [] then Scan([], 0, 0) else Accept(ScanOf(b[..|b| - 1]), b[|b| - 1])
  }

  /** A block that does not stop where a count should be. */
  predicate Complete(b: seq<Byte>) { ScanOf(b).seen != 4 }

  /** The text a block stands for. */
  function Text(b: seq<Byte>): seq<Byte> { ScanOf(b).text }

  lemma {:induction false} ScanSnoc(b: seq<Byte>, x: Byte)
    ensures ScanOf(b + [x]) == Accept(ScanOf(b), x)
  {
    assert (b + [x])[..|b|] == b;
  }

  /** How a run of ch is written: up to three copies, or four and a count. */
  function Pair(ch: Byte, len: int): (p: seq<Byte>)
    requires 1 <= len <= 255
  {
    if len < 4 then Rep(ch, len) else Rep(ch, 4) + [len - 4]
  }

  /** A run of ch may start here without joining an unfinished one. */
  ghost predicate Clear(s: Scan, ch: Byte) {
    s.seen != 4 && (s.seen == 0 || s.ch != ch)
  }

  lemma {:induction false} ScanCopies(b: seq<Byte>, ch: Byte, k: nat)
    requires Clear(ScanOf(b), ch) && 1 <= k <= 4
    ensures ScanOf(b + Rep(ch, k)) == Scan(Text(b) + Rep(ch, k), ch, k)
  {
    if k == 1 {
      assert Rep(ch, 1) == [ch];
      ScanSnoc(b, ch);
    } else {
      ScanCopies(b, ch, k - 1);
      ScanSnoc(b + Rep(ch, k - 1), ch);
      assert b + Rep(ch, k) == b + Rep(ch, k - 1) + [ch];
      assert Text(b) + Rep(ch, k) == Text(b) + Rep(ch, k - 1) + [ch];
    }
  }

  /** Reading a pair after a clear point adds exactly its run. */
  lemma {:induction false} ScanPair(b: seq<Byte>, ch: Byte, len: int)
    requires Clear(ScanOf(b), ch) && 1 <= len <= 255
    ensures Text(b + Pair(ch, len)) == Text(b) + Rep(ch, len)
    ensures var s := ScanOf(b + Pair(ch, len)); if len < 4 then s.ch == ch && s.seen == len else s.seen == 0
  {
    hide ScanOf;
    if len < 4 {
      ScanCopies(b, ch, len);
      assert b + Pair(ch, len) == b + Rep(ch, len);
    } else {
      var c: Byte := len - 4;
      ScanCopies(b, ch, 4);
      ScanSnoc(b + Rep(ch, 4), c);
      assert b + Pair(ch, len) == b + Rep(ch, 4) + [c];
      assert ScanOf(b + Pair(ch, len)) == Scan(Text(b) + Rep(ch, 4) + Rep(ch, c), ch, 0);
      assert Text(b) + Rep(ch, len) == Text(b) + Rep(ch, 4) + Rep(ch, c);
    }
  }

  // ---- the runs of a text ----

  datatype TextRun = TextRun(ch: Byte, len: int)

  ghost predicate Runs(runs: seq<TextRun>) {
    forall k :: 0 <= k < |runs| ==> 1 <= runs[k].len <= 255
  }

  /** The runs of a text, each as long as it can be, up to 255. */
  ghost function RunsOf(text: seq<Byte>): (runs: seq<TextRun>)
    ensures Runs(runs)
  {
    if text == [] then []
    else
      var r, x := RunsOf(text[..|text| - 1]), text[|text| - 1];
      if r != [] && r[|r| - 1].ch == x && r[|r| - 1].len < 255 then r[|r| - 1 := TextRun(x, r[|r| - 1].len + 1)]
      else r + [TextRun(x, 1)]
  }

  /** How runs are written. */
  ghost function PairsOf(runs: seq<TextRun>): seq<Byte>
    requires Runs(runs)
  {
    if runs == [] then []
    else PairsOf(runs[..|runs| - 1]) + Pair(runs[|runs| - 1].ch, runs[|runs| - 1].len)
  }

  /** The block is what the longest runs of its text are written as. */
  ghost predicate Tight(b: seq<Byte>) {
    b == PairsOf(RunsOf(Text(b)))
  }

  /** A run of ch after b is not part of the last run of b. */
  ghost predicate Apart(b: seq<Byte>, ch: int) {
    var r := RunsOf(Text(b));
    r == [] || r[|r| - 1].ch != ch || r[|r| - 1].len == 255
  }

  lemma {:induction false} RunsSnoc(text: seq<Byte>, x: Byte)
    ensures var r := RunsOf(text);
      RunsOf(text + [x]) ==
      if r != [] && r[|r| - 1].ch == x && r[|r| - 1].len < 255 then r[|r| - 1 := TextRun(x, r[|r| - 1].len + 1)]
      else r + [TextRun(x, 1)]
  {
    assert (text + [x])[..|text|] == text;
  }

  lemma {:induction false} RunsAppend(text: seq<Byte>, ch: Byte, len: int)
    requires 1 <= len <= 255
    requires var r := RunsOf(text); r == [] || r[|r| - 1].ch != ch || r[|r| - 1].len == 255
    ensures RunsOf(text + Rep(ch, len)) == RunsOf(text) + [TextRun(ch, len)]
    decreases len
  {
    hide RunsOf;
    var less := text + Rep(ch, len - 1);
    assert text + Rep(ch, len) == less + [ch];
    RunsSnoc(less, ch);
    if len > 1 {
      RunsAppend(text, ch, len - 1);
      assert (RunsOf(text) + [TextRun(ch, len - 1)])[|RunsOf(text)| := TextRun(ch, len)]
          == RunsOf(text) + [TextRun(ch, len)];
    } else {
      assert less == text;
    }
  }

  lemma {:induction false} TightPair(b: seq<Byte>, ch: Byte, len: int)
    requires Tight(b) && Apart(b, ch) && Clear(ScanOf(b), ch) && 1 <= len <= 255
    ensures Tight(b + Pair(ch, len))
    ensures forall x :: x != ch || len == 255 ==> Apart(b + Pair(ch, len), x)
  {
    hide ScanOf, RunsOf, Pair;
    ScanPair(b, ch, len);
    RunsAppend(Text(b), ch, len);
    var r := RunsOf(Text(b)) + [TextRun(ch, len)];
    assert r[..|r| - 1] == RunsOf(Text(b));
  }

  lemma {:induction false} NoRuns()
    ensures Tight([]) && forall ch :: Apart([], ch)
  {
  }

  // ---- the same meaning, read from the front ----

  /** Output still to come from position i, given the last byte and how often it was seen. */
  function Tail(b: seq<Byte>, i: nat, ch: Byte, seen: nat): (t: seq<Byte>)
    requires i <= |b|
    decreases |b| - i
  {
    if i == |b| then []
    else if seen == 4 then Rep(ch, b[i]) + Tail(b, i + 1, ch, 0)
    else if seen > 0 && b[i] == ch then [b[i]] + Tail(b, i + 1, ch, seen + 1)
    else [b[i]] + Tail(b, i + 1, b[i], 1)
  }

  lemma {:induction false} TextSplit(b: seq<Byte>, i: nat)
    requires i <= |b|
    ensures var s := ScanOf(b[..i]); Text(b) == s.text + Tail(b, i, s.ch, s.seen)
    decreases |b| - i
  {
    hide ScanOf;
    if i == |b| {
      assert b[..i] == b;
    } else {
      TextSplit(b, i + 1);
      assert b[..i + 1] == b[..i] + [b[i]];
      ScanSnoc(b[..i], b[i]);
    }
  }

  /** How the scan ends when continued from position i. */
  function EndsComplete(b: seq<Byte>, i: nat, ch: Byte, seen: nat): bool
    requires i <= |b|
    decreases |b| - i
  {
    if i == |b| then seen != 4
    else if seen == 4 then EndsComplete(b, i + 1, ch, 0)
    else if seen > 0 && b[i] == ch then EndsComplete(b, i + 1, ch, seen + 1)
    else EndsComplete(b, i + 1, b[i], 1)
  }

  lemma {:induction false} CompleteSplit(b: seq<Byte>, i: nat)
    requires i <= |b|
    ensures var s := ScanOf(b[..i]); Complete(b) == EndsComplete(b, i, s.ch, s.seen)
    decreases |b| - i
  {
    hide ScanOf;
    if i == |b| {
      assert b[..i] == b;
    } else {
      CompleteSplit(b, i + 1);
      assert b[..i + 1] == b[..i] + [b[i]];
      ScanSnoc(b[..i], b[i]);
    }
  }

  /** Output and ending from a position where a fresh run starts. */
  function Rest(b: seq<Byte>, i: nat): seq<Byte>
    requires i <= |b|
  {
    Tail(b, i, 0, 0)
  }

  predicate RestOk(b: seq<Byte>, i: nat)
    requires i <= |b|
  {
    EndsComplete(b, i, 0, 0)
  }

  lemma {:induction false} RestFromStart(b: seq<Byte>)
    ensures Rest(b, 0) == Text(b) && (RestOk(b, 0) <==> Complete(b))
  {
    TextSplit(b, 0);
    CompleteSplit(b, 0);
    assert b[..0] == [];
  }

  /** After k < 4 equal bytes and something else, a fresh run starts. */
  lemma {:induction false} RunBreaks(b: seq<Byte>, i: nat, ch: Byte, seen: nat)
    requires i <= |b| && 0 < seen < 4 && (i < |b| ==> b[i] != ch)
    ensures Tail(b, i, ch, seen) == Rest(b, i)
    ensures EndsComplete(b, i, ch, seen) == RestOk(b, i)
  {
  }

  /** The four ways a run can begin at i, with the output each one stands for. */
  lemma {:induction false} ShortRun(b: seq<Byte>, i: nat, k: nat)
    requires 1 <= k <= 3 && i + k <= |b| && (forall j :: i <= j < i + k ==> b[j] == b[i])
    requires i + k < |b| ==> b[i + k] != b[i]
    ensures Rest(b, i) == Rep(b[i], k) + Rest(b, i + k)
    ensures RestOk(b, i) == RestOk(b, i + k)
  {
    RunBreaks(b, i + k, b[i], k);
    if k == 1 {
      RunPrefix(b, i, 1);
    } else if k == 2 {
      RunPrefix(b, i, 2);
    } else {
      RunPrefix(b, i, 3);
    }
  }

  lemma {:induction false} RunPrefix(b: seq<Byte>, i: nat, k: nat)
    requires 1 <= k <= 4 && i + k <= |b| && (forall j :: i <= j < i + k ==> b[j] == b[i])
    ensures Rest(b, i) == Rep(b[i], k) + Tail(b, i + k, b[i], k)
    ensures RestOk(b, i) == EndsComplete(b, i + k, b[i], k)
  {
    if k == 1 {
      assert Rep(b[i], 1) == [b[i]];
    } else {
      RunPrefix(b, i, k - 1);
      assert Tail(b, i + k - 1, b[i], k - 1) == [b[i + k - 1]] + Tail(b, i + k, b[i], k);
      assert Rep(b[i], k - 1) + ([b[i]] + Tail(b, i + k, b[i], k)) == Rep(b[i], k) + Tail(b, i + k, b[i], k);
    }
  }

  lemma {:induction false} LongRun(b: seq<Byte>, i: nat)
    requires i + 4 < |b| && (forall j :: i <= j < i + 4 ==> b[j] == b[i])
    ensures Rest(b, i) == Rep(b[i], 4 + (b[i + 4] as int)) + Rest(b, i + 5)
    ensures RestOk(b, i) == RestOk(b, i + 5)
  {
    RunPrefix(b, i, 4);
    FreshAfterCount(b, i + 5, b[i]);
    var c: int := b[i + 4];
    assert Rep(b[i], 4) + (Rep(b[i], c) + Rest(b, i + 5)) == Rep(b[i], c + 4) + Rest(b, i + 5);
  }

  lemma {:induction false} FreshAfterCount(b: seq<Byte>, i: nat, ch: Byte)
    requires i <= |b|
    ensures Tail(b, i, ch, 0) == Rest(b, i) && EndsComplete(b, i, ch, 0) == RestOk(b, i)
  {
  }

  /** Four equal bytes at the very end: the count is missing. */
  lemma {:induction false} CutRun(b: seq<Byte>, i: nat)
    requires i + 4 == |b| && (forall j :: i <= j < i + 4 ==> b[j] == b[i])
    ensures !RestOk(b, i)
  {
    RunPrefix(b, i, 4);
  }

  // ---- checksum ----

  /** One entry of BZ2_crc32Table, from the polynomial that generates it. */
  function CrcShift(c: bv32, rounds: nat): bv32
    decreases rounds
  {
    if rounds == 0 then c
    else CrcShift(if c & 0x8000_0000 != 0 then (c << 1) ^ 0x04c1_1db7 else c << 1, rounds - 1)
  }

  function CrcTable(i: bv32): bv32 { CrcShift(i << 24, 8) }

  /** BZ_UPDATE_CRC */
  function UpdateCrc(crc: bv32, ch: Byte): bv32 {
    (crc << 8) ^ CrcTable((crc >> 24) ^ (ch as bv32))
  }

  /** From BZ_INITIALISE_CRC through all bytes of a text. */
  function CrcOf(text: seq<Byte>): bv32 {
    if text == [] then 0xffff_ffff else UpdateCrc(CrcOf(text[..|text| - 1]), text[|text| - 1])
  }

  lemma {:induction false} CrcSnoc(text: seq<Byte>, ch: Byte)
    ensures CrcOf(text + [ch]) == UpdateCrc(CrcOf(text), ch)
  {
    hide UpdateCrc;
    assert (text + [ch])[..|text|] == text;
  }
}

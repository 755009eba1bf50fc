/** The items of a block as the tables read them: a byte, a match, the end, or an error; and
    the states LEN, LENEXT, DIST and DISTEXT of inflate.c. */
module InflateItems {
  import opened Bytes
  import opened Bits
  import opened LsbBits
  import opened Lz77
  import opened DeflateBits
  import opened DecodingTable
  import opened TableLookup
  import opened SymbolReading

  /** lencode, lenbits, distcode and distbits. */
  datatype Tables = Tables(lens: seq<Entry>, lroot: nat, dists: seq<Entry>, droot: nat)

  /** The table was built for some code. */
  ghost predicate TableOf(kind: Kind, t: seq<Entry>, root: nat) {
    exists lens: seq<int> :: Built(View(kind, lens, root), t)
  }

  ghost predicate Good(c: Tables) {
    TableOf(LENS, c.lens, c.lroot) && TableOf(DISTS, c.dists, c.droot)
  }

  datatype Item = Got(token: Token) | EndOfBlock | BadLength | BadDistance | Short

  /** An item and the bits behind it. */
  datatype Reading = Reading(item: Item, rest: seq<bool>)

  function AsByte(x: int): Byte { if 0 <= x < 256 then x else 0 }

  /** What comes after the length: the distance. */
  ghost function ReadDistance(c: Tables, length: int, b: seq<bool>): Reading {
    var e := Upcoming(c.dists, c.droot, b);
    if !(0 <= e.bits <= |b|) then Reading(Short, [])
    else if e.op / 64 % 2 == 1 then Reading(BadDistance, b[e.bits..])
    else
      var after, extra := b[e.bits..], e.op % 16;
      if extra > |after| then Reading(Short, [])
      else Reading(Got(Match(length, e.val + LowVal(after[..extra]))), after[extra..])
  }

  /** The next item of the bit string. */
  ghost function ReadItem(c: Tables, b: seq<bool>): Reading {
    var e := Upcoming(c.lens, c.lroot, b);
    if !(0 <= e.bits <= |b|) then Reading(Short, [])
    else
      var after := b[e.bits..];
      if e.op == 0 then Reading(Got(Literal(AsByte(e.val))), after)
      else if e.op / 32 % 2 == 1 then Reading(EndOfBlock, after)
      else if e.op / 64 % 2 == 1 then Reading(BadLength, after)
      else
        var extra := e.op % 16;
        if extra > |after| then Reading(Short, [])
        else ReadDistance(c, e.val + LowVal(after[..extra]), after[extra..])
  }

  /** What the entries of the length table can say, for the tests of both decoders. */
  lemma {:induction false} LengthOps(c: Tables, b: seq<bool>)
    requires Good(c)
    ensures var e := Upcoming(c.lens, c.lroot, b);
      && 0 < e.bits <= 15
      && (e.op == 0 ==> 0 <= e.val < 256)
      && (e.op != 0 && e.op / 32 % 2 == 0 && e.op / 64 % 2 == 0 <==> e.op / 16 % 2 == 1)
      && (e.op / 32 % 2 == 1 <==> e.op == 96)
      && (e.op / 16 % 2 == 1 ==> e.op % 16 <= 5 && 3 <= e.val && e.val + Pow2(e.op % 16) - 1 <= 258)
  {
    hide Look, Built, LengthMeaning, Pow2;
    var lens: seq<int> :| Built(View(LENS, lens, c.lroot), c.lens);
    var v := View(LENS, lens, c.lroot);
    LookShaped(v, c.lens, LowVal(b));
    LookMeans(v, c.lens, LowVal(b));
    LengthBitsOf(Upcoming(c.lens, c.lroot, b));
  }

  lemma LengthBitsOf(e: Entry)
    requires LengthMeaning(e)
    ensures e.op == 0 ==> 0 <= e.val < 256
    ensures e.op != 0 && e.op / 32 % 2 == 0 && e.op / 64 % 2 == 0 <==> e.op / 16 % 2 == 1
    ensures e.op / 32 % 2 == 1 <==> e.op == 96
    ensures e.op / 16 % 2 == 1 ==> e.op % 16 <= 5 && 3 <= e.val && e.val + Pow2(e.op % 16) - 1 <= 258
  {
    hide Pow2;
    if 16 <= e.op <= 21 { TopOfOp(e.op); }
  }

  lemma TopOfOp(op: int)
    requires 16 <= op < 32
    ensures op / 16 % 2 == 1 && op % 16 == op - 16 && op / 32 % 2 == 0 && op / 64 % 2 == 0
  {
  }

  lemma {:induction false} DistanceOps(c: Tables, b: seq<bool>)
    requires Good(c)
    ensures var e := Upcoming(c.dists, c.droot, b);
      && 0 < e.bits <= 15
      && (e.op / 64 % 2 == 0 <==> e.op / 16 % 2 == 1)
      && (e.op / 16 % 2 == 1 ==> e.op % 16 <= 13 && 1 <= e.val && e.val + Pow2(e.op % 16) - 1 <= 32768)
  {
    hide Look, Built, Pow2;
    var lens: seq<int> :| Built(View(DISTS, lens, c.droot), c.dists);
    var v := View(DISTS, lens, c.droot);
    LookShaped(v, c.dists, LowVal(b));
    LookMeans(v, c.dists, LowVal(b));
    var op := Upcoming(c.dists, c.droot, b).op;
    if 16 <= op <= 29 { TopOfOp(op); }
  }

  lemma {:induction false} ExtraFits(b: seq<bool>, n: nat)
    requires n <= |b|
    ensures 0 <= LowVal(b[..n]) < Pow2(n)
  {
    LowBound(b[..n]);
  }

  /** Every item takes at least one bit, and every token is a valid one. */
  lemma {:induction false} ItemProgress(c: Tables, b: seq<bool>)
    requires Good(c)
    ensures var r := ReadItem(c, b); (r.item != Short ==> |r.rest| < |b|) && (r.item.Got? ==> ValidToken(r.item.token))
  {
    hide Look, Upcoming, Pow2, LowVal;
    LengthOps(c, b);
    var e := Upcoming(c.lens, c.lroot, b);
    if e.bits <= |b| {
      var after := b[e.bits..];
      if e.op % 16 <= |after| {
        ExtraFits(after, e.op % 16);
        var more := after[e.op % 16..];
        DistanceOps(c, more);
        var d := Upcoming(c.dists, c.droot, more);
        if d.bits <= |more| && d.op % 16 <= |more[d.bits..]| { ExtraFits(more[d.bits..], d.op % 16); }
      }
    }
  }

  // ---- the states of inflate ----

  /** LENEXT and DISTEXT: the extra bits, if there are any. */
  method AddExtra(source: BitSource, value: int, extra: nat) returns (ok: bool, r: int)
    requires source.Valid() && extra <= 15
    modifies source
    ensures source.Valid() && (ok <==> extra <= |old(source.Coming())|)
    ensures ok ==>
      r == value + LowVal(old(source.Coming())[..extra]) && source.Coming() == old(source.Coming())[extra..]
    ensures ok && old(source.bits) < 8 ==> source.bits < 8
  {
    hide *;
    ok, r := true, value;
    if extra != 0 {
      var x;
      ok, x := source.Take(extra);
      r := r + x;
    } else {
      NoExtraBits(source.Coming());
    }
  }

  lemma NoExtraBits(b: seq<bool>)
    ensures b[0..] == b && LowVal(b[..0]) == 0
  {
  }

  /** DIST and DISTEXT */
  method DistanceStates(source: BitSource, c: Tables, length: int) returns (item: Item)
    requires source.Valid() && Good(c)
    modifies source
    ensures source.Valid() && item == ReadDistance(c, length, old(source.Coming())).item
    ensures item != Short ==> source.Coming() == ReadDistance(c, length, old(source.Coming())).rest
    ensures item != Short && old(source.bits) < 8 ==> source.bits < 8
  {
    hide *;
    ghost var v := ViewOf(DISTS, c.dists, c.droot, c);
    ghost var stream := source.Coming();
    DistanceOps(c, stream);
    DistanceCases(c, length, stream);
    var ok, here := ReadSymbol(source, c.dists, c.droot, DISTS, v);
    if !ok { return Short; }
    if here.op / 64 % 2 == 1 { return BadDistance; }
    var offset;
    ok, offset := AddExtra(source, here.val, here.op % 16);
    item := if ok then Got(Match(length, offset)) else Short;
  }

  lemma ViewOf(kind: Kind, t: seq<Entry>, root: nat, c: Tables) returns (v: View)
    requires Good(c) && ((kind == LENS && t == c.lens && root == c.lroot)
        || (kind == DISTS && t == c.dists && root == c.droot))
    ensures v.kind == kind != CODES && v.root == root && Built(v, t)
  {
    var lens: seq<int> :| Built(View(kind, lens, root), t);
    v := View(kind, lens, root);
  }

  /** ReadDistance, case by case. */
  lemma DistanceCases(c: Tables, length: int, b: seq<bool>)
    ensures var e := Upcoming(c.dists, c.droot, b); var r := ReadDistance(c, length, b);
      if !(0 <= e.bits <= |b|) then r.item == Short
      else if e.op / 64 % 2 == 1 then r == Reading(BadDistance, b[e.bits..])
      else if e.op % 16 > |b[e.bits..]| then r.item == Short
      else r == Reading(Got(Match(length, e.val + LowVal(b[e.bits..][..e.op % 16]))), b[e.bits..][e.op % 16..])
  {
    hide Upcoming, LowVal;
  }

  /** ReadItem, case by case. */
  lemma ItemCases(c: Tables, b: seq<bool>)
    ensures var e := Upcoming(c.lens, c.lroot, b); var r := ReadItem(c, b);
      if !(0 <= e.bits <= |b|) then r.item == Short
      else if e.op == 0 then r == Reading(Got(Literal(AsByte(e.val))), b[e.bits..])
      else if e.op / 32 % 2 == 1 then r == Reading(EndOfBlock, b[e.bits..])
      else if e.op / 64 % 2 == 1 then r == Reading(BadLength, b[e.bits..])
      else if e.op % 16 > |b[e.bits..]| then r.item == Short
      else r == ReadDistance(c, e.val + LowVal(b[e.bits..][..e.op % 16]), b[e.bits..][e.op % 16..])
  {
    hide Upcoming, LowVal, ReadDistance;
  }

  lemma ByteOf(x: int)
    requires 0 <= x < 256
    ensures AsByte(x) == x
  {
  }

  /** One round of the states LEN, LENEXT, DIST and DISTEXT, whatever pieces the input comes
      in: the item that comes next. */
  method ItemStates(source: BitSource, c: Tables) returns (item: Item)
    requires source.Valid() && Good(c)
    modifies source
    ensures source.Valid() && item == ReadItem(c, old(source.Coming())).item
    ensures item != Short ==> source.Coming() == ReadItem(c, old(source.Coming())).rest
    ensures item != Short && old(source.bits) < 8 ==> source.bits < 8
  {
    hide *;
    ghost var v := ViewOf(LENS, c.lens, c.lroot, c);
    ghost var stream := source.Coming();
    LengthOps(c, stream);
    ItemCases(c, stream);
    var ok, here := ReadSymbol(source, c.lens, c.lroot, LENS, v);
    if !ok { return Short; }
    if here.op == 0 {
      ByteOf(here.val);
      return Got(Literal(here.val));
    }
    if here.op / 32 % 2 == 1 { return EndOfBlock; }
    if here.op / 64 % 2 == 1 { return BadLength; }
    var length;
    ok, length := AddExtra(source, here.val, here.op % 16);
    if !ok { return Short; }
    item := DistanceStates(source, c, length);
  }
}

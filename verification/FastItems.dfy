/** The bit reading of inffast.c: six bytes of input are enough for any item, so nothing is
    checked, and the bytes read too many are given back at the end. */
module FastItems {
  import opened Bytes
  import opened Bits
  import opened LsbBits
  import opened Lz77
  import opened DeflateBits
  import opened DecodingTable
  import opened TableLookup
  import opened SymbolReading
  import opened InflateItems

  /** The bits that are held are the last ones of the bits held at the start and the bytes read
      since. */
  ghost predicate Held(source: BitSource, head: seq<bool>, at: nat)
    reads source
  {
    && at <= source.nextIn <= |source.input|
    && IsSuffix(source.live, head + StreamBits(source.input[at..source.nextIn]))
  }

  ghost predicate IsSuffix(a: seq<bool>, b: seq<bool>) {
    |a| <= |b| && a == b[|b| - |a|..]
  }

  lemma {:induction false} HeldGrows(live: seq<bool>, head: seq<bool>, input: seq<Byte>, at: nat, n: nat)
    requires at <= n < |input| && IsSuffix(live, head + StreamBits(input[at..n]))
    ensures IsSuffix(live + LowBits(input[n], 8), head + StreamBits(input[at..n + 1]))
  {
    hide StreamBits, LowBits;
    assert input[at..n + 1] == input[at..n] + [input[n]];
    StreamSnoc(input[at..n], input[n]);
    var b, x := head + StreamBits(input[at..n]), LowBits(input[n], 8);
    assert head + (StreamBits(input[at..n]) + x) == b + x;
    assert (b + x)[|b + x| - |live + x|..] == live + x;
  }

  lemma SuffixDrop(live: seq<bool>, b: seq<bool>, n: nat)
    requires n <= |live| && IsSuffix(live, b)
    ensures IsSuffix(live[n..], b)
  {
  }

  /** hold += (unsigned long)(*in++) << bits; bits += 8; */
  method FastByte(source: BitSource, ghost head: seq<bool>, ghost at: nat)
    requires source.Valid() && source.bits <= 24 && source.nextIn < |source.input| && Held(source, head, at)
    modifies source`hold, source`bits, source`nextIn, source`live
    ensures source.Valid() && source.Coming() == old(source.Coming()) && Held(source, head, at)
    ensures source.bits == old(source.bits) + 8 && source.nextIn == old(source.nextIn) + 1
  {
    hide StreamBits, LowBits, LowVal, BitSource.Coming, IsSuffix;
    HeldGrows(source.live, head, source.input, at, source.nextIn);
    source.NextByte();
  }

  /** The bits at hand, and what it took to get them. */
  ghost predicate Account(bits0: int, in0: int, bits: int, in1: int, used: int) {
    8 * (in1 - in0) == used + bits - bits0
  }

  /** Two bytes, if there are fewer than fifteen bits. */
  method Refill(source: BitSource, ghost head: seq<bool>, ghost at: nat)
    requires source.Valid() && source.bits <= 30 && Held(source, head, at)
    requires source.bits < 15 ==> source.nextIn + 2 <= |source.input|
    modifies source`hold, source`bits, source`nextIn, source`live
    ensures source.Valid() && source.Coming() == old(source.Coming()) && Held(source, head, at)
        && 15 <= source.bits <= 30
    ensures Account(old(source.bits), old(source.nextIn), source.bits, source.nextIn, 0)
  {
    hide BitSource.Coming, Held, BitSource.Valid;
    HeldRange(source);
    if source.bits < 15 {
      FastByte(source, head, at);
      FastByte(source, head, at);
    }
  }

  /** The low bits of hold, which are then dropped. */
  method TakeHeld(source: BitSource, n: nat, ghost head: seq<bool>, ghost at: nat) returns (x: int)
    requires source.Valid() && n <= source.bits && Held(source, head, at)
    modifies source`hold, source`bits, source`live
    ensures source.Valid() && Held(source, head, at) && source.bits == old(source.bits) - n
    ensures n <= |old(source.Coming())| && x == LowVal(old(source.Coming())[..n])
        && source.Coming() == old(source.Coming())[n..]
  {
    hide StreamBits, LowVal, Pow2, BitSource.Coming, IsSuffix;
    source.LiveFirst();
    ghost var c, l := source.Coming(), source.live;
    LowSplit(l, n);
    SuffixDrop(l, head + StreamBits(source.input[at..source.nextIn]), n);
    x := source.hold % Pow2(n);
    source.DropBits(n);
    assert c[..n] == l[..n];
    assert c[n..] == source.Coming();
  }

  /** The extra bits of a length; one byte more is enough. */
  method FastLength(source: BitSource, value: int, extra: nat, ghost head: seq<bool>, ghost at: nat) returns (len: int)
    requires source.Valid() && source.bits <= 30 && Held(source, head, at) && extra <= 8
    requires 8 * (|source.input| - source.nextIn) + source.bits >= extra
    modifies source`hold, source`bits, source`nextIn, source`live
    ensures source.Valid() && Held(source, head, at) && extra <= |old(source.Coming())|
    ensures len == value + LowVal(old(source.Coming())[..extra]) && source.Coming() == old(source.Coming())[extra..]
    ensures 0 <= source.bits <= 30 && Account(old(source.bits), old(source.nextIn), source.bits, source.nextIn, extra)
  {
    hide StreamBits, LowVal, Pow2, BitSource.Coming, Held;
    len := value;
    NoExtraBits(source.Coming());
    if extra != 0 {
      if source.bits < extra { FastByte(source, head, at); }
      var x := TakeHeld(source, extra, head, at);
      len := len + x;
    }
  }

  /** The extra bits of a distance; two bytes more are enough. */
  method FastDistance(source: BitSource, value: int, extra: nat, ghost head: seq<bool>, ghost at: nat)
    returns (dist: int)
    requires source.Valid() && source.bits <= 30 && Held(source, head, at) && extra <= 15
    requires 8 * (|source.input| - source.nextIn) + source.bits >= extra
    modifies source`hold, source`bits, source`nextIn, source`live
    ensures source.Valid() && Held(source, head, at) && extra <= |old(source.Coming())|
    ensures dist == value + LowVal(old(source.Coming())[..extra]) && source.Coming() == old(source.Coming())[extra..]
    ensures 0 <= source.bits <= 30 && Account(old(source.bits), old(source.nextIn), source.bits, source.nextIn, extra)
  {
    hide StreamBits, LowVal, Pow2, BitSource.Coming, Held;
    if source.bits < extra {
      FastByte(source, head, at);
      if source.bits < extra { FastByte(source, head, at); }
    }
    var x := TakeHeld(source, extra, head, at);
    dist := value + x;
  }

  lemma {:induction false} HeldDrop(source: BitSource, live: seq<bool>, n: nat, head: seq<bool>, at: nat)
    requires at <= source.nextIn <= |source.input| && n <= |live| && source.live == live[n..]
    requires IsSuffix(live, head + StreamBits(source.input[at..source.nextIn]))
    ensures Held(source, head, at)
  {
    hide StreamBits;
  }

  /** A symbol, with the account of the bits. */
  method HeldSymbol(source: BitSource, t: seq<Entry>, root: nat, kind: Kind, ghost v: View, ghost head: seq<bool>,
      ghost at: nat) returns (here: Entry)
    requires source.Valid() && Built(v, t) && v.root == root && v.kind == kind != CODES && 15 <= source.bits <= 30
        && Held(source, head, at)
    modifies source`hold, source`bits, source`live
    ensures source.Valid() && Held(source, head, at)
    ensures var e := Upcoming(t, root, old(source.Coming()));
      && 0 < e.bits <= 15 && e.bits <= |old(source.Coming())| && here.op == e.op && here.val == e.val
      && source.Coming() == old(source.Coming())[e.bits..] && source.bits == old(source.bits) - e.bits
  {
    hide StreamBits, LowVal, Pow2, BitSource.Coming, IsSuffix, Upcoming, Built;
    ghost var live := source.live;
    source.LiveFirst();
    ghost var e := Upcoming(t, root, source.Coming());
    here := FastSymbol(source, t, root, kind, v);
    HeldDrop(source, live, e.bits, head, at);
  }

  /** The distance part. */
  method FastMatch(source: BitSource, c: Tables, length: int, ghost head: seq<bool>, ghost at: nat) returns (item: Item)
    requires source.Valid() && Good(c) && 15 <= source.bits <= 30 && Held(source, head, at)
    requires 8 * (|source.input| - source.nextIn) + source.bits >= 28
    modifies source`hold, source`bits, source`nextIn, source`live
    ensures source.Valid() && Held(source, head, at) && item != Short && 0 <= source.bits <= 30
    ensures Reading(item, source.Coming()) == ReadDistance(c, length, old(source.Coming()))
  {
    hide *;
    ghost var v := ViewOf(DISTS, c.dists, c.droot, c);
    ghost var stream := source.Coming();
    DistanceOps(c, stream);
    DistanceCases(c, length, stream);
    var here := HeldSymbol(source, c.dists, c.droot, DISTS, v, head, at);
    if here.op / 16 % 2 == 1 {
      var dist := FastDistance(source, here.val, here.op % 16, head, at);
      return Got(Match(length, dist));
    }
    HeldRange(source);
    item := BadDistance;
  }

  lemma HeldRange(source: BitSource)
    requires source.Valid()
    ensures 0 <= source.bits
  {
  }

  lemma Accounts(b0: int, i0: int, b: int, i: int, used: int, size: int)
    requires Account(b0, i0, b, i, used) && 0 <= b0 && i0 + 6 <= size
    ensures 8 * (size - i) + b >= 48 - used
    ensures b < 15 && used <= 20 ==> i + 2 <= size
  {
  }

  lemma AccountJoin(b0: int, i0: int, b1: int, i1: int, u1: int, b2: int, i2: int, u2: int)
    requires Account(b0, i0, b1, i1, u1) && Account(b1, i1, b2, i2, u2)
    ensures Account(b0, i0, b2, i2, u1 + u2)
  {
  }

  lemma AccountDrop(b: int, i: int, n: int)
    ensures Account(b, i, b - n, i, n)
  {
  }

  /** One round of the fast loop up to the copying: the same item that the states of inflate
      read, from six bytes without any check for their end. */
  method FastItem(source: BitSource, c: Tables, ghost head: seq<bool>, ghost at: nat) returns (item: Item)
    requires source.Valid() && Good(c) && source.bits <= 30 && Held(source, head, at)
        && source.nextIn + 6 <= |source.input|
    modifies source`hold, source`bits, source`nextIn, source`live
    ensures source.Valid() && Held(source, head, at) && item != Short && 0 <= source.bits <= 30
    ensures Reading(item, source.Coming()) == ReadItem(c, old(source.Coming()))
  {
    hide *;
    ghost var v := ViewOf(LENS, c.lens, c.lroot, c);
    ghost var stream, b0, i0, size := source.Coming(), source.bits, source.nextIn, |source.input|;
    HeldRange(source);
    LengthOps(c, stream);
    ItemCases(c, stream);
    Refill(source, head, at);
    ghost var b1 := source.bits;
    var here := HeldSymbol(source, c.lens, c.lroot, LENS, v, head, at);
    HeldRange(source);
    if here.op == 0 {
      ByteOf(here.val);
      return Got(Literal(here.val));
    }
    if here.op / 16 % 2 == 1 {
      ghost var used := b1 - source.bits;
      AccountDrop(b1, source.nextIn, used);
      AccountJoin(b0, i0, b1, source.nextIn, 0, source.bits, source.nextIn, used);
      Accounts(b0, i0, source.bits, source.nextIn, used, size);
      ghost var b2, i2 := source.bits, source.nextIn;
      var length := FastLength(source, here.val, here.op % 16, head, at);
      AccountJoin(b0, i0, b2, i2, used, source.bits, source.nextIn, here.op % 16);
      used := used + here.op % 16;
      Accounts(b0, i0, source.bits, source.nextIn, used, size);
      b2, i2 := source.bits, source.nextIn;
      Refill(source, head, at);
      AccountJoin(b0, i0, b2, i2, used, source.bits, source.nextIn, 0);
      Accounts(b0, i0, source.bits, source.nextIn, used, size);
      item := FastMatch(source, c, length, head, at);
      return;
    }
    item := if here.op / 32 % 2 == 1 then EndOfBlock else BadLength;
  }

  // ---- giving bytes back ----

  lemma {:induction false} LastBytes(live: seq<bool>, head: seq<bool>, input: seq<Byte>, at: nat, n: nat, k: nat)
    requires at <= n <= |input| && IsSuffix(live, head + StreamBits(input[at..n])) && |head| < 8 && k == |live| / 8
    ensures at + k <= n && live[|live| - 8 * k..] == StreamBits(input[n - k..n])
  {
    hide StreamBits;
    StreamLength(input[at..n]);
    assert input[at..n] == input[at..n - k] + input[n - k..n];
    StreamJoined(input[at..n - k], input[n - k..n]);
    StreamLength(input[n - k..n]);
    var b := head + StreamBits(input[at..n]);
    assert b == head + StreamBits(input[at..n - k]) + StreamBits(input[n - k..n]);
  }

  lemma {:induction false} StreamLength(z: seq<Byte>)
    ensures |StreamBits(z)| == 8 * |z|
  {
    hide LowBits;
    if z != [] { StreamLength(z[..|z| - 1]); }
  }

  lemma {:induction false} FewerBits(live: seq<bool>, m: nat)
    requires m <= |live|
    ensures Pow2(m) > 0 && LowVal(live) % Pow2(m) == LowVal(live[..m])
  {
    LowSplit(live, m);
  }

  /** Return of the unused bytes: the input still to come is the same. */
  method GiveBack(source: BitSource, ghost head: seq<bool>, ghost at: nat)
    requires source.Valid() && Held(source, head, at) && |head| < 8
    modifies source`hold, source`bits, source`nextIn, source`live
    ensures source.Valid() && source.Coming() == old(source.Coming()) && source.bits < 8 && at <= source.nextIn
  {
    hide StreamBits, LowVal, Pow2, IsSuffix;
    var len := source.bits / 8;
    ghost var live, m := source.live, source.bits - 8 * len;
    LastBytes(live, head, source.input, at, source.nextIn, len);
    FewerBits(live, m);
    assert live == live[..m] + live[m..];
    assert source.input[source.nextIn - len..] == source.input[source.nextIn - len..source.nextIn]
        + source.input[source.nextIn..];
    StreamJoined(source.input[source.nextIn - len..source.nextIn], source.input[source.nextIn..]);
    source.nextIn := source.nextIn - len;
    source.bits := source.bits - 8 * len;
    source.hold := source.hold % Pow2(source.bits);
    source.live := live[..m];
    assert live[..m] + (live[m..] + StreamBits(source.input[source.nextIn + len..])) ==
        live + StreamBits(source.input[source.nextIn + len..]);
  }
}

/** Fields of a bit string, and reading them over as many calls as the input needs: whatever the
    bits are, either the field is there and taken, or the input has ended. */
module BitFields {
  import opened Bytes
  import opened Bits
  import opened BitStream

  /** What some bits mean: a value, and the bits behind it; nothing that can be accepted; or
      something that takes the program out of its arrays. */
  datatype Read<T> = Got(value: T, rest: seq<bool>) | Fail | Wild

  /** A reader found what the bits mean. */
  ghost predicate Reads<T>(m: Read<T>, ok: bool, v: T, coming: seq<bool>) {
    match m
    case Got(x, rest) => ok && v == x && coming == rest
    case Fail => !ok
    case Wild => false
  }

  /** Nothing found stays nothing found. */
  ghost function Miss<S, T>(m: Read<S>): Read<T> {
    if m.Wild? then Wild else Fail
  }

  /** What a reading leaves is a part of what it had. */
  ghost predicate Leaves<T>(m: Read<T>, bits: seq<bool>) {
    m.Got? ==> |m.rest| <= |bits|
  }

  /** Some items, and then more of them. */
  ghost function Then<T>(head: seq<T>, m: Read<seq<T>>): Read<seq<T>> {
    match m
    case Got(v, rest) => Got(head + v, rest)
    case Fail => Fail
    case Wild => Wild
  }

  lemma ThenThen<T>(a: seq<T>, b: seq<T>, m: Read<seq<T>>)
    ensures Then(a, Then(b, m)) == Then(a + b, m)
  {
    if m.Got? { assert a + (b + m.value) == a + b + m.value; }
  }

  lemma ThenNothing<T>(m: Read<seq<T>>)
    ensures Then([], m) == m
  {
    if m.Got? { assert [] + m.value == m.value; }
  }

  ghost function FieldAt(bits: seq<bool>, n: nat): (m: Read<int>)
    ensures m != Wild && Leaves(m, bits) && (m.Got? <==> |bits| >= n)
    ensures m.Got? ==> 0 <= m.value < Pow2(n) && |m.rest| == |bits| - n
  {
    if |bits| < n then Fail else Got(Val(bits[..n]), bits[n..])
  }

  ghost function BitsAt(bits: seq<bool>, n: nat): (m: Read<seq<bool>>)
    ensures m != Wild && Leaves(m, bits)
  {
    if |bits| < n then Fail else Got(bits[..n], bits[n..])
  }

  /** A field that was written is there. */
  lemma FieldGiven(v: nat, n: nat, rest: seq<bool>)
    requires v < Pow2(n)
    ensures FieldAt(ToBits(v, n) + rest, n) == Got(v as int, rest)
  {
    hide Val, ToBits, Pow2;
    ValOfBits(v, n);
    assert (ToBits(v, n) + rest)[..n] == ToBits(v, n) && (ToBits(v, n) + rest)[n..] == rest;
  }

  /** GET_BITS */
  method ReadField(r: BitReader, n: nat) returns (ok: bool, v: int)
    requires r.Valid() && n <= 24
    modifies r
    ensures r.Valid() && Reads(FieldAt(old(r.Coming()), n), ok, v, r.Coming())
    ensures !ok ==> |old(r.Coming())| < n
  {
    hide Val, Pow2, BitReader.Valid, BitReader.Remaining;
    ghost var bits := r.Coming();
    while true
      invariant r.Valid() && r.Coming() == bits
      decreases |r.later|
    {
      ghost var now, more := r.Remaining(), PieceBits(r.later);
      ok, v := r.GetBits(n);
      if ok {
        FieldNow(now, more, n);
        return;
      }
      NoFieldNow(now, r.later, n);
      if r.later == [] { return; }
      r.NextCall();
    }
  }

  lemma FieldNow(now: seq<bool>, more: seq<bool>, n: nat)
    requires n <= |now|
    ensures FieldAt(now + more, n) == Got(Val(now[..n]) as int, now[n..] + more)
  {
    assert (now + more)[..n] == now[..n] && (now + more)[n..] == now[n..] + more;
  }

  lemma NoFieldNow(now: seq<bool>, later: seq<seq<Byte>>, n: nat)
    requires |now| < n
    ensures later == [] ==> |now + PieceBits(later)| < n
  {
  }

  /** GET_BIT */
  method ReadBit(r: BitReader) returns (ok: bool, b: bool)
    requires r.Valid()
    modifies r
    ensures r.Valid() && (ok <==> old(r.Coming()) != [])
    ensures ok ==> b == old(r.Coming())[0] && r.Coming() == old(r.Coming())[1..]
    ensures !ok ==> r.Coming() == []
  {
    hide Val, Pow2, BitReader.Valid, BitReader.Remaining;
    ghost var bits := r.Coming();
    while true
      invariant r.Valid() && r.Coming() == bits
      decreases |r.later|
    {
      ghost var now, more := r.Remaining(), PieceBits(r.later);
      var v;
      ok, v := r.GetBits(1);
      if ok {
        OneBit(now, more);
        b := v == 1;
        return;
      }
      NoFieldNow(now, r.later, 1);
      if r.later == [] { return false, false; }
      r.NextCall();
    }
  }

  lemma OneBit(now: seq<bool>, more: seq<bool>)
    requires |now| >= 1
    ensures (Val(now[..1]) == 1) == now[0] && (now + more)[0] == now[0] && (now + more)[1..] == now[1..] + more
  {
    assert now[..1] == [now[0]];
    assert Val([now[0]]) == if now[0] then 1 else 0;
  }

  /** A run of GET_BITs. */
  method ReadBits(r: BitReader, n: nat) returns (ok: bool, b: seq<bool>)
    requires r.Valid()
    modifies r
    ensures r.Valid() && Reads(BitsAt(old(r.Coming()), n), ok, b, r.Coming())
  {
    hide BitReader.Valid, BitReader.Coming;
    ghost var bits := r.Coming();
    b, ok := [], true;
    assert bits[0..] == bits;
    for i := 0 to n
      invariant r.Valid() && i <= |bits| && b == bits[..i] && r.Coming() == bits[i..] && ok
    {
      var x;
      ok, x := ReadBit(r);
      if !ok { return; }
      assert bits[i..][0] == bits[i] && bits[i..][1..] == bits[i + 1..];
      b := b + [x];
    }
  }

  /** GET_UCHAR */
  method ReadByte(r: BitReader) returns (ok: bool, uc: Byte)
    requires r.Valid()
    modifies r
    ensures r.Valid() && Reads(FieldAt(old(r.Coming()), 8), ok, uc, r.Coming())
  {
    hide BitReader.Valid, BitReader.Coming, Val, Pow2;
    Pow2Values();
    uc := 0;
    var v;
    ok, v := ReadField(r, 8);
    if ok { uc := v; }
  }
}

/** The hash chains of deflate.c: UPDATE_HASH, INSERT_STRING and slide_hash, for any number of hash
    bits. */
module HashChains {
  import opened Bytes
  import opened Bits
  import opened LsbBits

  /** A hash value of hash_bits bits, lowest first. */
  type Hash = seq<bool>

  function HashSize(bits: nat): nat { Pow2(bits) }

  /** hash_shift: after three updates nothing is left of what was hashed before. */
  function HashShift(bits: nat): nat { (bits + 2) / 3 }

  // ---- the hash of three bytes ----

  /** A byte as a hash value. */
  function Start(bits: nat, c: Byte): (h: Hash)
    ensures |h| == bits
  {
    LowBits(c, bits)
  }

  /** A bit of a hash value that is shifted. */
  function Shifted(bits: nat, h: Hash, i: int): bool {
    HashShift(bits) <= i < HashShift(bits) + |h| && h[i - HashShift(bits)]
  }

  /** UPDATE_HASH: shift, exclusive or, and mask. */
  function UpdateHash(bits: nat, h: Hash, c: Byte): (g: Hash)
    ensures |g| == bits
    ensures forall i :: 0 <= i < bits ==> g[i] == (Shifted(bits, h, i) != Start(bits, c)[i])
  {
    seq(bits, i requires 0 <= i < bits => Shifted(bits, h, i) != Start(bits, c)[i])
  }

  function Hash3(bits: nat, a: Byte, b: Byte, c: Byte): (h: Hash)
    ensures |h| == bits
  {
    UpdateHash(bits, UpdateHash(bits, Start(bits, a), b), c)
  }

  /** The index into head. */
  function Index(bits: nat, h: Hash): (i: int)
    requires |h| == bits
    ensures 0 <= i < HashSize(bits)
  {
    LowBound(h);
    LowVal(h)
  }

  lemma IndexInjective(bits: nat, g: Hash, h: Hash)
    requires |g| == |h| == bits && Index(bits, g) == Index(bits, h)
    ensures g == h
  {
    LowOfVal(g);
    LowOfVal(h);
  }

  /** Three updates leave nothing of what was hashed before. */
  lemma Rolling(bits: nat, h: Hash, a: Byte, b: Byte, c: Byte)
    ensures UpdateHash(bits, UpdateHash(bits, UpdateHash(bits, h, a), b), c) == Hash3(bits, a, b, c)
  {
    hide Start;
    var x, y := UpdateHash(bits, h, a), UpdateHash(bits, UpdateHash(bits, h, a), b);
    var u := UpdateHash(bits, Start(bits, a), b);
    var s := HashShift(bits);
    assert s + s + s >= bits;
    forall i | 0 <= i < bits ensures UpdateHash(bits, y, c)[i] == UpdateHash(bits, u, c)[i] {
      if s <= i {
        if s <= i - s { assert i - s - s < s && x[i - s - s] == Start(bits, a)[i - s - s]; }
        assert y[i - s] == u[i - s];
      }
    }
  }

  /** With equal hashes and equal first two bytes the third bytes are equal, when a hash has at
      least the bits of a byte: this is why they need not be compared. */
  lemma ThirdByte(bits: nat, a: Byte, b: Byte, c: Byte, d: Byte)
    requires bits >= 8 && Hash3(bits, a, b, c) == Hash3(bits, a, b, d)
    ensures c == d
  {
    hide Shifted;
    var h := UpdateHash(bits, Start(bits, a), b);
    forall i | 0 <= i < bits ensures Start(bits, c)[i] == Start(bits, d)[i] {
      assert UpdateHash(bits, h, c)[i] == UpdateHash(bits, h, d)[i];
    }
    assert Start(bits, c) == Start(bits, d);
    ByteFits(bits);
    ValOfLow(c, bits);
    ValOfLow(d, bits);
  }

  lemma {:induction false} ByteFits(bits: nat)
    requires bits >= 8
    ensures Pow2(bits) >= 256
  {
    if bits == 8 { Pow2Values(); } else { ByteFits(bits - 1); }
  }

  // ---- the chains ----

  /** The key under which position p is filed. */
  function KeyAt(bits: nat, w: seq<Byte>, p: int): (k: int)
    requires 0 <= p && p + 2 < |w|
    ensures 0 <= k < HashSize(bits)
  {
    Index(bits, Hash3(bits, w[p], w[p + 1], w[p + 2]))
  }

  /** Every position in the table has its three bytes in the data; position 0 stands for none. */
  ghost predicate InData(w: seq<Byte>, ins: set<int>) {
    forall q :: q in ins ==> 0 < q && q + 2 < |w|
  }

  /** The last of the positions filed under a key before some point; 0 if there is none. */
  ghost predicate Latest(bits: nat, w: seq<Byte>, ins: set<int>, key: int, before: int, q: int)
    requires InData(w, ins)
  {
    && (q == 0 || (q in ins && q < before && KeyAt(bits, w, q) == key))
    && forall r :: r in ins && q < r < before ==> KeyAt(bits, w, r) != key
  }

  /** The link of p leads to the last position before it with its key. */
  ghost predicate LinkOk(bits: nat, w: seq<Byte>, prev: seq<int>, ins: set<int>, wSize: nat, p: int)
    requires InData(w, ins) && 0 < p && p + 2 < |w| && 0 < wSize == |prev|
  {
    Latest(bits, w, ins, KeyAt(bits, w, p), p, prev[p % wSize])
  }

  /** The positions in the table lie in the data and none is above top; each head leads to the last
      position with its key, and so on along the links of all positions less than a window back. */
  ghost predicate Chains(bits: nat, w: seq<Byte>, head: seq<int>, prev: seq<int>, ins: set<int>, wSize: nat, top: int) {
    && |head| == HashSize(bits) && 0 < wSize == |prev|
    && InData(w, ins) && (forall p :: p in ins ==> p <= top)
    && (forall h :: 0 <= h < HashSize(bits) ==> Latest(bits, w, ins, h, |w|, head[h]))
    && (forall p :: p in ins && p > top - wSize ==> LinkOk(bits, w, prev, ins, wSize, p))
  }

  /** Slots of positions less than a window apart are different. */
  lemma OtherSlot(p: int, q: int, n: nat)
    requires n > 0 && 0 <= p < q < p + n
    ensures p % n != q % n
  {
    if p % n == q % n {
      var a, b := p / n, q / n;
      assert q - p == (b - a) * n;
      BetweenZeroAndOne(b - a, n);
    }
  }

  lemma BetweenZeroAndOne(d: int, n: nat)
    requires n > 0
    ensures !(0 < d * n < n)
  {
    Multiple(d, n);
  }

  lemma InRangeSlot(p: int, n: nat)
    requires n > 0
    ensures 0 <= p % n < n
  {
  }

  /** The latest position with one more position filed behind all others. */
  lemma {:induction false} LatestInsert(bits: nat, w: seq<Byte>, ins: set<int>, key: int, q: int, top: int, str: int)
    requires InData(w, ins) && (forall p :: p in ins ==> p <= top) && top < str && 0 < str && str + 2 < |w|
    requires Latest(bits, w, ins, key, |w|, q)
    ensures InData(w, ins + {str}) && Latest(bits, w, ins, key, str, q) && Latest(bits, w, ins + {str}, key, str, q)
    ensures key != KeyAt(bits, w, str) ==> Latest(bits, w, ins + {str}, key, |w|, q)
    ensures key == KeyAt(bits, w, str) ==> Latest(bits, w, ins + {str}, key, |w|, str)
  {
    hide KeyAt;
  }

  /** Positions filed behind do not matter. */
  lemma {:induction false} LatestBefore(bits: nat, w: seq<Byte>, ins: set<int>, key: int, before: int, q: int, str: int)
    requires InData(w, ins) && Latest(bits, w, ins, key, before, q) && before <= str && 0 < str && str + 2 < |w|
    ensures InData(w, ins + {str}) && Latest(bits, w, ins + {str}, key, before, q)
  {
    hide KeyAt;
  }

  /** INSERT_STRING keeps the chains; position 0 is never found again. */
  lemma {:induction false} Insert(bits: nat, w: seq<Byte>, head: seq<int>, prev: seq<int>, ins: set<int>, wSize: nat,
      top: int, str: int)
    requires Chains(bits, w, head, prev, ins, wSize, top) && top < str && 0 <= str && str + 2 < |w|
    ensures 0 <= str % wSize < wSize
    ensures Chains(bits, w, head[KeyAt(bits, w, str) := str], prev[str % wSize := head[KeyAt(bits, w, str)]],
        if str == 0 then ins else ins + {str}, wSize, str)
  {
    hide KeyAt, Latest;
    InRangeSlot(str, wSize);
    var k := KeyAt(bits, w, str);
    if str == 0 {
      InsertFirst(bits, w, head, prev, ins, wSize, top);
    } else {
      var head1, prev1, ins1 := head[k := str], prev[str % wSize := head[k]], ins + {str};
      forall h | 0 <= h < HashSize(bits) ensures InData(w, ins1) && Latest(bits, w, ins1, h, |w|, head1[h]) {
        LatestInsert(bits, w, ins, h, head[h], top, str);
      }
      LatestInsert(bits, w, ins, k, head[k], top, str);
      forall p | p in ins1 && p > str - wSize ensures LinkOk(bits, w, prev1, ins1, wSize, p) {
        if p != str {
          OtherSlot(p, str, wSize);
          InRangeSlot(p, wSize);
          assert LinkOk(bits, w, prev, ins, wSize, p);
          LatestBefore(bits, w, ins, KeyAt(bits, w, p), p, prev[p % wSize], str);
        }
      }
    }
  }

  /** The first position of all is filed as none. */
  lemma {:induction false} InsertFirst(bits: nat, w: seq<Byte>, head: seq<int>, prev: seq<int>, ins: set<int>,
      wSize: nat, top: int)
    requires Chains(bits, w, head, prev, ins, wSize, top) && top < 0 && 2 < |w|
    ensures 0 <= 0 % wSize < wSize
    ensures Chains(bits, w, head[KeyAt(bits, w, 0) := 0], prev[0 % wSize := head[KeyAt(bits, w, 0)]], ins, wSize, 0)
  {
    hide KeyAt;
    InRangeSlot(0, wSize);
    forall p ensures p !in ins {}
  }

  /** More data behind changes nothing. */
  lemma {:induction false} MoreData(bits: nat, w: seq<Byte>, head: seq<int>, prev: seq<int>, ins: set<int>, wSize: nat,
      top: int, w1: seq<Byte>)
    requires Chains(bits, w, head, prev, ins, wSize, top) && w <= w1
    ensures Chains(bits, w1, head, prev, ins, wSize, top)
  {
    hide KeyAt, Latest;
    forall h | 0 <= h < HashSize(bits) ensures InData(w1, ins) && Latest(bits, w1, ins, h, |w1|, head[h]) {
      LatestMore(bits, w, ins, h, |w|, head[h], w1, |w1|);
    }
    forall p | p in ins && p > top - wSize ensures LinkOk(bits, w1, prev, ins, wSize, p) {
      InRangeSlot(p, wSize);
      assert LinkOk(bits, w, prev, ins, wSize, p);
      SameKey(bits, w, w1, p);
      LatestMore(bits, w, ins, KeyAt(bits, w, p), p, prev[p % wSize], w1, p);
    }
  }

  lemma SameKey(bits: nat, w: seq<Byte>, w1: seq<Byte>, p: int)
    requires 0 <= p && p + 2 < |w| && w <= w1
    ensures KeyAt(bits, w1, p) == KeyAt(bits, w, p)
  {
  }

  lemma {:induction false} LatestMore(bits: nat, w: seq<Byte>, ins: set<int>, key: int, before: int, q: int,
      w1: seq<Byte>, before1: int)
    requires InData(w, ins) && Latest(bits, w, ins, key, before, q) && w <= w1
    requires before1 == before || (before == |w| && before1 == |w1|)
    ensures InData(w1, ins) && Latest(bits, w1, ins, key, before1, q)
  {
    hide KeyAt;
    forall p | p in ins ensures 0 < p && p + 2 < |w| && KeyAt(bits, w1, p) == KeyAt(bits, w, p) {
      SameKey(bits, w, w1, p);
    }
  }

  /** The table holds what it held before, and those positions from one on up to another that have
      their three bytes before the end. */
  ghost predicate FiledOn(ins: set<int>, ins1: set<int>, from: int, to: int, end: int) {
    forall p :: p in ins1 <==> p in ins || (from <= p < to && 0 < p && p + 2 < end)
  }

  // ---- sliding ----

  /** One entry of slide_hash. */
  function Slid(m: int, wSize: nat): int { if m >= wSize then m - wSize else 0 }

  function SlidAll(s: seq<int>, wSize: nat): (t: seq<int>)
    ensures |t| == |s| && forall i :: 0 <= i < |s| ==> t[i] == Slid(s[i], wSize)
  {
    seq(|s|, i requires 0 <= i < |s| => Slid(s[i], wSize))
  }

  ghost function SlidSet(ins: set<int>, wSize: nat): set<int> {
    set p | p in ins && p > wSize :: p - wSize
  }

  lemma SlotAfterSlide(p: int, n: nat)
    requires n > 0
    ensures (p - n) % n == p % n
  {
    assert p - n == (p / n - 1) * n + p % n;
    DivModUnique(p - n, n, p / n - 1, p % n);
  }

  lemma {:induction false} SlidIn(bits: nat, w: seq<Byte>, ins: set<int>, wSize: nat, w1: seq<Byte>, p: int)
    requires wSize <= |w| && w1 == w[wSize..] && p in ins && 0 < p && p + 2 < |w| && p > wSize
    ensures p - wSize in SlidSet(ins, wSize) && p - wSize + 2 < |w1| && KeyAt(bits, w1, p - wSize) == KeyAt(bits, w, p)
  {
    hide Hash3, Index;
  }

  lemma SlidOut(ins: set<int>, wSize: nat, q: int)
    requires q in SlidSet(ins, wSize)
    ensures q + wSize in ins && q > 0
  {
  }

  /** Every position that stays lies in the data that stays. */
  lemma {:induction false} SlidWithin(w: seq<Byte>, ins: set<int>, wSize: nat, w1: seq<Byte>)
    requires wSize <= |w| && w1 == w[wSize..] && InData(w, ins)
    ensures InData(w1, SlidSet(ins, wSize))
  {
    hide SlidSet;
    forall q | q in SlidSet(ins, wSize) ensures 0 < q && q + 2 < |w1| { SlidOut(ins, wSize, q); }
  }

  /** The latest position is the same one, or has left the window with all before it. */
  lemma {:induction false} SlidLatest(bits: nat, w: seq<Byte>, ins: set<int>, key: int, before: int, q: int, wSize: nat,
      w1: seq<Byte>)
    requires wSize <= |w| && w1 == w[wSize..] && InData(w, ins) && Latest(bits, w, ins, key, before, q)
    ensures InData(w1, SlidSet(ins, wSize))
        && Latest(bits, w1, SlidSet(ins, wSize), key, before - wSize, Slid(q, wSize))
  {
    hide KeyAt, SlidSet;
    SlidWithin(w, ins, wSize, w1);
    if q > wSize { SlidIn(bits, w, ins, wSize, w1, q); }
    forall r | r in SlidSet(ins, wSize) && Slid(q, wSize) < r < before - wSize ensures KeyAt(bits, w1, r) != key {
      SlidOut(ins, wSize, r);
      SlidIn(bits, w, ins, wSize, w1, r + wSize);
    }
  }

  lemma {:induction false} SlidLink(bits: nat, w: seq<Byte>, prev: seq<int>, ins: set<int>, wSize: nat,
      w1: seq<Byte>, p: int)
    requires 0 < wSize == |prev| && wSize <= |w| && w1 == w[wSize..] && InData(w, ins)
    requires p in ins && p > wSize && LinkOk(bits, w, prev, ins, wSize, p)
    ensures p - wSize + 2 < |w1| && InData(w1, SlidSet(ins, wSize))
    ensures LinkOk(bits, w1, SlidAll(prev, wSize), SlidSet(ins, wSize), wSize, p - wSize)
  {
    hide KeyAt, SlidSet, Latest;
    SlidIn(bits, w, ins, wSize, w1, p);
    SlotAfterSlide(p, wSize);
    InRangeSlot(p, wSize);
    SlidLatest(bits, w, ins, KeyAt(bits, w, p), p, prev[p % wSize], wSize, w1);
  }

  /** slide_hash with the window moved down by its size: the same chains, less those that have
      left the window. */
  lemma {:induction false} Slide(bits: nat, w: seq<Byte>, head: seq<int>, prev: seq<int>, ins: set<int>, wSize: nat,
      top: int, w1: seq<Byte>)
    requires Chains(bits, w, head, prev, ins, wSize, top) && wSize <= |w| && w1 == w[wSize..]
    ensures Chains(bits, w1, SlidAll(head, wSize), SlidAll(prev, wSize), SlidSet(ins, wSize), wSize, top - wSize)
  {
    hide KeyAt, SlidSet, LinkOk, Latest;
    var head1, ins1 := SlidAll(head, wSize), SlidSet(ins, wSize);
    SlidWithin(w, ins, wSize, w1);
    forall h | 0 <= h < HashSize(bits) ensures Latest(bits, w1, ins1, h, |w1|, head1[h]) {
      SlidLatest(bits, w, ins, h, |w|, head[h], wSize, w1);
    }
    forall q | q in ins1 ensures q <= top - wSize { SlidOut(ins, wSize, q); }
    forall q | q in ins1 && q > top - wSize - wSize ensures LinkOk(bits, w1, SlidAll(prev, wSize), ins1, wSize, q) {
      SlidOut(ins, wSize, q);
      SlidLink(bits, w, prev, ins, wSize, w1, q + wSize);
    }
  }

  /** The table holds what it held before, as far as it is still in the window, and those places of
      the text from one on up to another that have their three bytes before the end. */
  ghost predicate KeptOn(ins: set<int>, base: int, ins1: set<int>, base1: int, from: int, to: int, end: int) {
    forall p :: p in ins1 <==>
      p > 0 && ((p + (base1 - base)) in ins || (from <= p + base1 < to && p + base1 + 2 < end))
  }
}

/** The matcher of deflate.c: the sliding window, its hash table, and what has been tallied. */
module DeflateState {
  import opened Bytes
  import opened HashChains
  import opened LongestMatch

  // ---- the window ----

  /** The window holds the last part of everything read, as far as the lookahead goes. */
  ghost predicate DataOk(win: seq<Byte>, text: seq<Byte>, base: int, strstart: int, lookahead: int, wSize: nat) {
    && 512 <= wSize <= 32768 && |win| == 2 * wSize && 0 <= base && 0 <= strstart && 0 <= lookahead
        && strstart + lookahead <= 2 * wSize
    && |text| == base + strstart + lookahead && win[..strstart + lookahead] == text[base..]
  }

  /** The running hash is right for the next three bytes. */
  ghost predicate Ready(bits: nat, h: Hash, a: Byte, b: Byte) {
    forall c: Byte {:trigger UpdateHash(bits, h, c)} :: UpdateHash(bits, h, c) == Hash3(bits, a, b, c)
  }

  lemma ReadyFresh(bits: nat, a: Byte, b: Byte)
    ensures Ready(bits, UpdateHash(bits, Start(bits, a), b), a, b)
  {
    hide UpdateHash, Start;
  }

  lemma ReadyNext(bits: nat, a: Byte, b: Byte, c: Byte)
    ensures Ready(bits, Hash3(bits, a, b, c), b, c)
  {
    hide UpdateHash, Start;
    forall d: Byte ensures UpdateHash(bits, Hash3(bits, a, b, c), d) == Hash3(bits, b, c, d) {
      Rolling(bits, Start(bits, a), b, c, d);
    }
  }

  ghost predicate HashOk(bits: nat, h: Hash, win: seq<Byte>, strstart: int, lookahead: int, insert: int) {
    lookahead >= MIN_MATCH ==>
      insert == 0 && 0 <= strstart && strstart + 1 < |win| && Ready(bits, h, win[strstart], win[strstart + 1])
  }

  lemma DataBounds(win: seq<Byte>, text: seq<Byte>, base: int, strstart: int, lookahead: int, wSize: nat)
    requires DataOk(win, text, base, strstart, lookahead, wSize)
    ensures 512 <= wSize <= 32768 && |win| == 2 * wSize && 0 <= base && 0 <= strstart && 0 <= lookahead
    ensures strstart + lookahead <= 2 * wSize && |text| == base + strstart + lookahead
  {
  }

  lemma DataSizes(win: seq<Byte>, text: seq<Byte>, base: int, strstart: int, lookahead: int, wSize: nat)
    requires DataOk(win, text, base, strstart, lookahead, wSize)
    ensures 512 <= wSize <= 32768 && |win| == 2 * wSize && 0 <= base && 0 <= strstart && 0 <= lookahead
    ensures strstart + lookahead <= 2 * wSize && |text| == base + strstart + lookahead
    ensures forall i :: 0 <= i < strstart + lookahead ==> win[i] == text[base + i]
  {
    forall i | 0 <= i < strstart + lookahead ensures win[i] == text[base + i] {
      assert win[..strstart + lookahead][i] == text[base..][i];
    }
  }

  /** zmemcpy of the upper half over the lower one. */
  method MoveDown(window: array<Byte>, wSize: nat, count: nat)
    requires wSize + count <= window.Length && count <= wSize
    modifies window
    ensures window[..count] == old(window[wSize..wSize + count])
    ensures forall i :: count <= i < window.Length ==> window[i] == old(window[i])
  {
    ghost var w := window[..];
    for i := 0 to count
      invariant forall k :: 0 <= k < i ==> window[k] == w[wSize + k]
      invariant forall k :: i <= k < window.Length ==> window[k] == w[k]
    {
      window[i] := window[wSize + i];
    }
  }

  /** One half of slide_hash. */
  method SlideEntries(table: array<int>, wSize: nat)
    modifies table
    ensures table[..] == SlidAll(old(table[..]), wSize)
  {
    ghost var t := table[..];
    var n := table.Length;
    while n != 0
      invariant 0 <= n <= table.Length && forall k :: n <= k < table.Length ==> table[k] == Slid(t[k], wSize)
      invariant forall k :: 0 <= k < n ==> table[k] == t[k]
    {
      n := n - 1;
      var m := table[n];
      table[n] := if m >= wSize then m - wSize else 0;
    }
  }

  /** Sliding the window leaves everything where it was in the text. */
  lemma {:induction false} SlideKeeps(bits: nat, win: seq<Byte>, text: seq<Byte>, base: int, strstart: int,
      lookahead: int, wSize: nat, win1: seq<Byte>, head: seq<int>, prev: seq<int>, ins: set<int>, top: int)
    requires DataOk(win, text, base, strstart, lookahead, wSize)
    requires 0 <= strstart + lookahead <= |win|
        && Chains(bits, win[..strstart + lookahead], head, prev, ins, wSize, top)
    requires wSize <= strstart && |win1| == |win| && 0 <= lookahead && strstart + lookahead - wSize <= |win1|
    requires win1[..strstart + lookahead - wSize] == win[wSize..strstart + lookahead]
    ensures DataOk(win1, text, base + wSize, strstart - wSize, lookahead, wSize)
    ensures Chains(bits, win1[..strstart + lookahead - wSize], SlidAll(head, wSize), SlidAll(prev, wSize),
        SlidSet(ins, wSize), wSize, top - wSize)
  {
    hide Chains, SlidAll, SlidSet;
    var end := strstart + lookahead;
    assert win[wSize..end] == win[..end][wSize..] == text[base..][wSize..] == text[base + wSize..];
    Slide(bits, win[..end], head, prev, ins, wSize, top, win[..end][wSize..]);
    assert win1[..end - wSize] == win[..end][wSize..];
  }
}

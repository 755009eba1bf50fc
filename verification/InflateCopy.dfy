/** Copying a match: the MATCH state of inflate.c, and the copying of inffast.c.  Part of it may
    lie in the circular window, which may wrap, and the rest in the output of this call, which
    may be still to be written. */
module InflateCopy {
  import opened Bytes
  import opened InflateWindow

  /** The text with a match of n bytes at distance dist behind it (section 3.2.3 of RFC 1951). */
  ghost function Copied(text: seq<Byte>, dist: nat, n: nat): (r: seq<Byte>)
    requires 1 <= dist <= |text|
    ensures |r| == |text| + n
    decreases n
  {
    if n == 0 then text else Copied(text + [text[|text| - dist]], dist, n - 1)
  }

  /** Every byte from `start` on is the one dist before it. */
  ghost predicate Repeating(text: seq<Byte>, start: nat, dist: nat) {
    1 <= dist <= start <= |text| && forall i :: start <= i < |text| ==> text[i] == text[i - dist]
  }

  /** That is what a match is. */
  lemma {:induction false} CopiedRepeats(text: seq<Byte>, dist: nat, n: nat)
    requires 1 <= dist <= |text|
    ensures text <= Copied(text, dist, n) && Repeating(Copied(text, dist, n), |text|, dist)
    decreases n
  {
    if n > 0 {
      var t := text + [text[|text| - dist]];
      CopiedRepeats(t, dist, n - 1);
      var r := Copied(text, dist, n);
      assert r[|text|] == t[|text|] && r[|text| - dist] == t[|text| - dist];
    }
  }

  /** And nothing else is. */
  lemma {:induction false} RepeatsIsCopied(text: seq<Byte>, dist: nat, r: seq<Byte>)
    requires 1 <= dist <= |text| && text <= r && Repeating(r, |text|, dist)
    ensures r == Copied(text, dist, |r| - |text|)
    decreases |r| - |text|
  {
    if |r| > |text| {
      var t := text + [text[|text| - dist]];
      assert r[|text| - dist] == text[|text| - dist];
      assert t <= r;
      RepeatsIsCopied(t, dist, r);
    }
  }

  /** A match can be made piece by piece. */
  lemma {:induction false} CopiedTwice(text: seq<Byte>, dist: nat, m: nat, n: nat)
    requires 1 <= dist <= |text|
    ensures Copied(Copied(text, dist, m), dist, n) == Copied(text, dist, m + n)
    decreases m
  {
    if m > 0 { CopiedTwice(text + [text[|text| - dist]], dist, m - 1, n); }
  }

  // ---- where the bytes are ----

  /** Where the byte stands that is `back` behind the text of the earlier calls. */
  function Slot(back: nat, next: nat, size: nat): int {
    if back <= next then next - back else size + next - back
  }

  /** How many bytes stand there without a break. */
  function Unbroken(back: nat, next: nat): nat {
    if back <= next then back else back - next
  }

  lemma SliceOfSlice(s: seq<Byte>, lo: int, hi: int, at: int, n: int)
    requires 0 <= lo <= hi <= |s| && 0 <= at && 0 <= n && at + n <= hi - lo
    ensures s[lo..hi][at..at + n] == s[lo + at..lo + at + n]
  {
    var a, b := s[lo..hi][at..at + n], s[lo + at..lo + at + n];
    forall i | 0 <= i < n ensures a[i] == b[i] { assert a[i] == s[lo..hi][at + i]; }
    assert a == b;
  }

  lemma KeptLength(w: seq<Byte>, next: nat, have: nat, done: seq<Byte>)
    requires Keeps(w, next, have, done)
    ensures have <= |done|
  {
  }

  /** A full window is the only one with bytes behind the write index. */
  lemma KeepsFull(w: seq<Byte>, next: nat, have: nat, done: seq<Byte>, back: nat)
    requires Keeps(w, next, have, done) && next < back <= have
    ensures have == |w| && Keeps(w, next, |w|, done)
  {
    hide InOrder, Last;
  }

  /** Bytes before the write index. */
  lemma BeforeNext(w: seq<Byte>, next: nat, have: nat, done: seq<Byte>, at: nat, n: nat)
    requires Keeps(w, next, have, done) && at + n <= next
    ensures next < |w| && next <= |done| && w[at..at + n] == done[|done| - next + at..|done| - next + at + n]
  {
    KeepsBounds(w, next, have, done);
    EndOfText(w, next, have, done);
    hide Keeps;
    SliceOfSlice(w, 0, next, at, n);
    SliceOfSlice(done, |done| - next, |done|, at, n);
    assert w[..next] == w[0..next] && Last(done, next) == done[|done| - next..|done|];
  }

  /** Bytes behind it. */
  lemma BehindNext(w: seq<Byte>, next: nat, done: seq<Byte>, at: nat, n: nat)
    requires Keeps(w, next, |w|, done) && next <= at && at + n <= |w|
    ensures |w| <= |done| && w[at..at + n] == done[|done| - |w| - next + at..|done| - |w| - next + at + n]
  {
    KeepsBounds(w, next, |w|, done);
    StartOfText(w, next, done);
    hide Keeps;
    SliceOfSlice(w, next, |w|, at - next, n);
    SliceOfSlice(done, |done| - |w|, |done| - next, at - next, n);
    assert w[next..|w|] == w[next..];
    assert Last(done, |w|)[..|w| - next] == done[|done| - |w|..|done| - next];
  }

  lemma {:induction false} SlotHolds(w: seq<Byte>, next: nat, have: nat, done: seq<Byte>, back: nat, n: nat)
    requires Keeps(w, next, have, done) && 1 <= back <= have && n <= Unbroken(back, next)
    ensures 0 <= Slot(back, next, |w|) && Slot(back, next, |w|) + n <= |w| && |done| >= back
    ensures w[Slot(back, next, |w|)..Slot(back, next, |w|) + n] == done[|done| - back..|done| - back + n]
  {
    KeepsBounds(w, next, have, done);
    KeptLength(w, next, have, done);
    hide Keeps;
    if back <= next {
      BeforeNext(w, next, have, done, next - back, n);
    } else {
      KeepsFull(w, next, have, done, back);
      BehindNext(w, next, done, |w| + next - back, n);
    }
  }

  /** A piece from the window goes on with the match. */
  lemma {:induction false} WindowPiece(w: seq<Byte>, next: nat, have: nat, done: seq<Byte>, b: seq<Byte>, dist: nat,
      n: nat, b1: seq<Byte>)
    requires Keeps(w, next, have, done) && |b| < dist <= |b| + have && n <= Unbroken(dist - |b|, next)
    requires 0 <= Slot(dist - |b|, next, |w|) && Slot(dist - |b|, next, |w|) + n <= |w|
    requires b1 == b + w[Slot(dist - |b|, next, |w|)..Slot(dist - |b|, next, |w|) + n]
    ensures dist <= |done + b| && done + b1 == Copied(done + b, dist, n)
  {
    hide Keeps, Slot, Copied;
    KeepsBounds(w, next, have, done);
    SlotHolds(w, next, have, done, dist - |b|, n);
    var r, k := done + b1, |done| + |b|;
    assert done + b <= r;
    forall i | k <= i < |r| ensures r[i] == r[i - dist] {
      var piece := done[|done| - (dist - |b|)..|done| - (dist - |b|) + n];
      assert r[i] == piece[i - k] == done[i - dist];
    }
    RepeatsIsCopied(done + b, dist, r);
  }

  /** A piece from this call's own output goes on with it too. */
  lemma {:induction false} OutputPiece(done: seq<Byte>, b: seq<Byte>, dist: nat, b1: seq<Byte>)
    requires 1 <= dist <= |b| && b <= b1 && Repeating(b1, |b|, dist)
    ensures done + b1 == Copied(done + b, dist, |b1| - |b|)
  {
    hide Copied;
    var r := done + b1;
    assert done + b <= r;
    forall i | |done + b| <= i < |r| ensures r[i] == r[i - dist] {
      assert r[i] == b1[i - |done|] && r[i - dist] == b1[i - |done| - dist];
    }
    RepeatsIsCopied(done + b, dist, r);
  }

  // ---- the loops ----

  /** n bytes were copied one by one from one place to a later one, or from another array. */
  ghost predicate Moved(src: seq<Byte>, from: nat, dst0: seq<Byte>, dst: seq<Byte>, put: nat, n: nat) {
    && |dst| == |dst0| && put + n <= |dst| && from + n <= |src|
    && (forall i :: put <= i < put + n ==> dst[i] == src[i - put + from])
    && (forall i :: 0 <= i < |dst| && !(put <= i < put + n) ==> dst[i] == dst0[i])
  }

  /** do { *put++ = *from++; } while (--copy); */
  method CopyBytes(src: array<Byte>, from: nat, out: array<Byte>, put: nat, n: nat)
    requires n > 0 && put + n <= out.Length && from + n <= src.Length && (src == out ==> from < put)
    modifies out
    ensures Moved(src[..], from, old(out[..]), out[..], put, n)
  {
    var copy := n;
    while true
      invariant 0 < copy <= n
      invariant forall i :: put <= i < put + (n - copy) ==> out[i] == src[i - put + from]
      invariant forall i :: 0 <= i < out.Length && !(put <= i < put + (n - copy)) ==> out[i] == old(out[i])
      decreases copy
    {
      out[put + (n - copy)] := src[from + (n - copy)];
      copy := copy - 1;
      if copy == 0 { break; }
    }
  }

  /** Three at a time, then the rest. */
  method CopyThrees(src: array<Byte>, from: nat, out: array<Byte>, put: nat, n: nat)
    requires put + n <= out.Length && from + n <= src.Length && (src == out ==> from < put)
    modifies out
    ensures Moved(src[..], from, old(out[..]), out[..], put, n)
  {
    var len, k := n, 0;
    while len > 2
      invariant 0 <= k <= n && len == n - k
      invariant forall i :: put <= i < put + k ==> out[i] == src[i - put + from]
      invariant forall i :: 0 <= i < out.Length && !(put <= i < put + k) ==> out[i] == old(out[i])
    {
      out[put + k] := src[from + k];
      out[put + k + 1] := src[from + k + 1];
      out[put + k + 2] := src[from + k + 2];
      len := len - 3;
      k := k + 3;
    }
    if len > 0 {
      out[put + k] := src[from + k];
      if len > 1 {
        out[put + k + 1] := src[from + k + 1];
      }
    }
  }

  lemma {:induction false} MovedWindow(w: seq<Byte>, next: nat, have: nat, done: seq<Byte>, o: seq<Byte>, o1: seq<Byte>,
      put: nat, dist: nat, from: nat, n: nat)
    requires Keeps(w, next, have, done) && put < dist <= put + have && n <= Unbroken(dist - put, next)
        && from == Slot(dist - put, next, |w|)
    requires Moved(w, from, o, o1, put, n)
    ensures dist <= |done + o[..put]| && done + o1[..put + n] == Copied(done + o[..put], dist, n)
        && o1[put + n..] == o[put + n..]
  {
    hide Keeps, Copied;
    assert o1[..put + n] == o[..put] + w[from..from + n];
    WindowPiece(w, next, have, done, o[..put], dist, n, o1[..put + n]);
  }

  lemma {:induction false} MovedOutput(done: seq<Byte>, o: seq<Byte>, o1: seq<Byte>, put: nat, dist: nat, n: nat)
    requires 1 <= dist <= put && Moved(o1, put - dist, o, o1, put, n)
    ensures done + o1[..put + n] == Copied(done + o[..put], dist, n) && o1[put + n..] == o[put + n..]
  {
    hide Copied;
    assert o[..put] <= o1[..put + n];
    OutputPiece(done, o[..put], dist, o1[..put + n]);
  }

  // ---- the MATCH state ----

  /** The text so far: the output of earlier calls and of this one. */
  ghost function Text(h: History, out: array<Byte>, put: nat): seq<Byte>
    requires put <= out.Length
    reads h, out
  {
    h.done + out[..put]
  }

  /** Copy from the window: one stretch of it. */
  method MatchFromWindow(h: History, out: array<Byte>, put: nat, length: nat, offset: nat) returns (copy: nat)
    requires h.Valid() && out != h.window && put < out.Length && length > 0 && put < offset <= put + h.whave
    modifies out
    ensures 0 < copy <= length && put + copy <= out.Length
    ensures offset <= |old(Text(h, out, put))|
        && Text(h, out, put + copy) == Copied(old(Text(h, out, put)), offset, copy)
  {
    hide Keeps, Copied, Moved;
    ghost var o, back := out[..], offset - put;
    copy := offset - put;
    InUse(h, copy);
    KeepsBounds(h.window[..], h.wnext, h.whave, h.done);
    var from;
    if copy > h.wnext {
      copy := copy - h.wnext;
      from := h.wsize - copy;
    } else {
      from := h.wnext - copy;
    }
    if copy > length { copy := length; }
    if copy > out.Length - put { copy := out.Length - put; }
    SlotHolds(h.window[..], h.wnext, h.whave, h.done, back, copy);
    CopyBytes(h.window, from, out, put, copy);
    MovedWindow(h.window[..], h.wnext, h.whave, h.done, o, out[..], put, offset, from, copy);
  }

  /** Copy from the output of this call. */
  method MatchFromOutput(h: History, out: array<Byte>, put: nat, length: nat, offset: nat) returns (copy: nat)
    requires out != h.window && put < out.Length && length > 0 && 1 <= offset <= put
    modifies out
    ensures 0 < copy <= length && put + copy <= out.Length
    ensures offset <= |old(Text(h, out, put))|
        && Text(h, out, put + copy) == Copied(old(Text(h, out, put)), offset, copy)
  {
    hide Copied, Moved;
    ghost var o := out[..];
    copy := length;
    if copy > out.Length - put { copy := out.Length - put; }
    CopyBytes(out, put - offset, out, put, copy);
    MovedOutput(h.done, o, out[..], put, offset, copy);
  }

  /** One visit to the MATCH state, with room left in the output: as much of the match as one
      stretch of memory and the room allow. */
  method MatchState(h: History, out: array<Byte>, put: nat, length: nat, offset: nat)
    returns (bad: bool, put1: nat, length1: nat)
    requires h.Valid() && out != h.window && put < out.Length && length > 0 && offset >= 1
    modifies out
    ensures bad <==> offset > put + h.whave
    ensures bad ==>
      put1 == put && length1 == length && out[..] == old(out[..]) && Text(h, out, put) == old(Text(h, out, put))
    ensures !bad ==> put < put1 <= out.Length && length1 == length - (put1 - put) >= 0
    ensures !bad ==>
      offset <= |old(Text(h, out, put))| && Text(h, out, put1) == Copied(old(Text(h, out, put)), offset, put1 - put)
  {
    hide Copied, Text, History.Valid;
    var copy;
    if offset > put {
      if offset - put > h.whave { return true, put, length; }
      copy := MatchFromWindow(h, out, put, length, offset);
    } else {
      copy := MatchFromOutput(h, out, put, length, offset);
    }
    bad, put1, length1 := false, put + copy, length - copy;
  }

  lemma InUse(h: History, copy: int)
    requires h.Valid() && 0 < copy <= h.whave
    ensures h.wsize == h.size == h.window.Length && Keeps(h.window[..], h.wnext, h.whave, h.done)
  {
  }

  // ---- the copying of inflate_fast ----

  /** Some from the window: a piece that does not complete the match. */
  method SomeFromWindow(h: History, from: nat, out: array<Byte>, put: nat, op: nat, ghost dist: nat,
      ghost base: seq<Byte>, ghost k: nat)
    requires h.Valid() && out != h.window && op > 0 && put + op <= out.Length && put < dist <= put + h.whave
    requires from == Slot(dist - put, h.wnext, h.wsize) && op == Unbroken(dist - put, h.wnext)
    requires 1 <= dist <= |base| && Text(h, out, put) == Copied(base, dist, k)
    modifies out
    ensures Text(h, out, put + op) == Copied(base, dist, k + op)
  {
    hide Keeps, Copied, Moved;
    ghost var o := out[..];
    InUse(h, dist - put);
    SlotHolds(h.window[..], h.wnext, h.whave, h.done, dist - put, op);
    CopyBytes(h.window, from, out, put, op);
    MovedWindow(h.window[..], h.wnext, h.whave, h.done, o, out[..], put, dist, from, op);
    CopiedTwice(base, dist, k, op);
  }

  /** The last piece, from the window. */
  method RestFromWindow(h: History, from: nat, out: array<Byte>, put: nat, len: nat, ghost dist: nat,
      ghost base: seq<Byte>, ghost k: nat)
    requires h.Valid() && out != h.window && put + len <= out.Length && put < dist <= put + h.whave
    requires from == Slot(dist - put, h.wnext, h.wsize) && len <= Unbroken(dist - put, h.wnext)
    requires 1 <= dist <= |base| && Text(h, out, put) == Copied(base, dist, k)
    modifies out
    ensures Text(h, out, put + len) == Copied(base, dist, k + len)
  {
    hide Keeps, Copied, Moved;
    ghost var o := out[..];
    InUse(h, dist - put);
    SlotHolds(h.window[..], h.wnext, h.whave, h.done, dist - put, len);
    CopyThrees(h.window, from, out, put, len);
    MovedWindow(h.window[..], h.wnext, h.whave, h.done, o, out[..], put, dist, from, len);
    CopiedTwice(base, dist, k, len);
  }

  /** The last piece, from the output. */
  method RestFromOutput(h: History, out: array<Byte>, put: nat, len: nat, dist: nat, ghost base: seq<Byte>,
      ghost k: nat)
    requires out != h.window && put + len <= out.Length && 1 <= dist <= put
    requires dist <= |base| && Text(h, out, put) == Copied(base, dist, k)
    modifies out
    ensures Text(h, out, put + len) == Copied(base, dist, k + len)
  {
    hide Copied, Moved;
    ghost var o := out[..];
    CopyThrees(out, put - dist, out, put, len);
    MovedOutput(h.done, o, out[..], put, dist, len);
    CopiedTwice(base, dist, k, len);
  }

  lemma {:induction false} CopiedNone(base: seq<Byte>, dist: nat)
    requires 1 <= dist <= |base|
    ensures Copied(base, dist, 0) == base
  {
  }

  /** A match that reaches into the window, in up to three pieces. */
  method FastFromWindow(h: History, out: array<Byte>, put0: nat, length: nat, dist: nat)
    requires h.Valid() && out != h.window && put0 + length <= out.Length && put0 < dist <= put0 + h.whave
    modifies out
    ensures dist <= |old(Text(h, out, put0))|
        && Text(h, out, put0 + length) == Copied(old(Text(h, out, put0)), dist, length)
  {
    hide Keeps, Copied, Text, History.Valid;
    ghost var base := Text(h, out, put0);
    TextReaches(h, out, put0, dist);
    CopiedNone(base, dist);
    var put, len, op := put0, length, dist - put0;
    var wsize, wnext := h.wsize, h.wnext;
    if wnext == 0 {
      var from := wsize - op;
      if op < len {
        len := len - op;
        SomeFromWindow(h, from, out, put, op, dist, base, 0);
        put := put + op;
        RestFromOutput(h, out, put, len, dist, base, op);
      } else {
        RestFromWindow(h, from, out, put, len, dist, base, 0);
      }
    } else if wnext < op {
      var from := wsize + wnext - op;
      op := op - wnext;
      if op < len {
        len := len - op;
        SomeFromWindow(h, from, out, put, op, dist, base, 0);
        put := put + op;
        if wnext < len {
          len := len - wnext;
          SomeFromWindow(h, 0, out, put, wnext, dist, base, op);
          put := put + wnext;
          RestFromOutput(h, out, put, len, dist, base, op + wnext);
        } else {
          RestFromWindow(h, 0, out, put, len, dist, base, op);
        }
      } else {
        RestFromWindow(h, from, out, put, len, dist, base, 0);
      }
    } else {
      var from := wnext - op;
      if op < len {
        len := len - op;
        SomeFromWindow(h, from, out, put, op, dist, base, 0);
        put := put + op;
        RestFromOutput(h, out, put, len, dist, base, op);
      } else {
        RestFromWindow(h, from, out, put, len, dist, base, 0);
      }
    }
  }

  lemma TextReaches(h: History, out: array<Byte>, put: nat, dist: nat)
    requires h.Valid() && put <= out.Length && put < dist <= put + h.whave
    ensures dist <= |Text(h, out, put)| && h.wsize > 0 && h.wnext < h.wsize && dist - put <= h.wsize
  {
    h.HowMuch();
  }

  /** The copying of inflate_fast: the whole match at once. */
  method FastCopy(h: History, out: array<Byte>, put: nat, length: nat, dist: nat) returns (bad: bool)
    requires h.Valid() && out != h.window && put + length <= out.Length && dist >= 1
    modifies out
    ensures bad <==> dist > put + h.whave
    ensures bad ==> out[..] == old(out[..]) && Text(h, out, put) == old(Text(h, out, put))
    ensures !bad ==>
      dist <= |old(Text(h, out, put))| && Text(h, out, put + length) == Copied(old(Text(h, out, put)), dist, length)
  {
    hide Keeps, Copied;
    bad := false;
    if dist > put {
      if dist - put > h.whave { return true; }
      FastFromWindow(h, out, put, length, dist);
    } else {
      ghost var base := Text(h, out, put);
      CopiedNone(base, dist);
      RestFromOutput(h, out, put, length, dist, base, 0);
    }
  }
}

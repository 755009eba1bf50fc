/** updatewindow of inflate.c: the circular window that keeps the last output. */
module InflateWindow {
  import opened Bytes

  /** w with x written over it at a place. */
  function Written(w: seq<Byte>, at: nat, x: seq<Byte>): (r: seq<Byte>)
    requires at + |x| <= |w|
    ensures |r| == |w|
  {
    w[..at] + x + w[at + |x|..]
  }

  /** zmemcpy */
  method Memcpy(dst: array<Byte>, at: nat, src: array<Byte>, from: nat, n: nat)
    requires dst != src && at + n <= dst.Length && from + n <= src.Length
    modifies dst
    ensures dst[..] == Written(old(dst[..]), at, src[from..from + n])
  {
    ghost var w := dst[..];
    for i := 0 to n
      invariant dst[..] == Written(w, at, src[from..from + i])
    {
      dst[at + i] := src[from + i];
      assert Written(w, at, src[from..from + i])[at + i := src[from + i]] == Written(w, at, src[from..from + i + 1]);
    }
  }

  /** What is still kept of the text, oldest byte first. */
  function InOrder(w: seq<Byte>, next: nat, have: nat): seq<Byte>
    requires next <= |w| && have <= |w|
  {
    if have < |w| then w[..have] else w[next..] + w[..next]
  }

  /** The last n bytes. */
  function Last(text: seq<Byte>, n: nat): seq<Byte>
    requires n <= |text|
  {
    text[|text| - n..]
  }

  /** The window holds the end of the text: all of it, or as much as fits. */
  ghost predicate Keeps(w: seq<Byte>, next: nat, have: nat, text: seq<Byte>) {
    && |w| > 0 && next < |w| && have <= |w| && have <= |text|
    && (have < |w| ==> next == have == |text|)
    && InOrder(w, next, have) == Last(text, have)
  }

  // ---- adding output ----

  /** More output than the window holds. */
  lemma KeepsAll(w: seq<Byte>, text: seq<Byte>, more: seq<Byte>)
    requires 0 < |w| <= |more| && w == Last(more, |w|)
    ensures Keeps(w, 0, |w|, text + more)
  {
    assert w[0..] + w[..0] == w;
  }

  /** Output that ends before the end of the window, or just there. */
  lemma KeepsOn(w: seq<Byte>, next: nat, have: nat, text: seq<Byte>, more: seq<Byte>)
    requires Keeps(w, next, have, text) && |more| < |w| && next + |more| <= |w|
    ensures Keeps(Written(w, next, more), if next + |more| == |w| then 0 else next + |more|, if have < |w|
        then have + |more| else have, text + more)
  {
    var n, w1 := next + |more|, Written(w, next, more);
    if have < |w| {
      assert w1[..n] == w[..next] + more;
      assert (text + more)[0..] == text + more && text[0..] == text;
      if n == |w| { assert w1[0..] + w1[..0] == w1; }
    } else {
      assert w[next..] + w[..next] == Last(text, |w|);
      assert w1[n..] + w1[..n] == w[n..] + w[..next] + more;
      assert w[n..] == w[next..][|more|..];
      assert Last(text + more, |w|) == Last(text, |w| - |more|) + more;
      assert Last(text, |w| - |more|) == Last(text, |w|)[|more|..];
      if n == |w| { assert w1[0..] + w1[..0] == w1 == w1[n..] + w1[..n]; }
    }
  }

  /** Output that goes on at the start of the window. */
  lemma KeepsRound(w: seq<Byte>, next: nat, have: nat, text: seq<Byte>, a: seq<Byte>, b: seq<Byte>)
    requires Keeps(w, next, have, text) && next + |a| == |w| && 0 < |b| < next
    ensures Keeps(Written(Written(w, next, a), 0, b), |b|, |w|, text + a + b)
  {
    var left, w1 := |b|, Written(Written(w, next, a), 0, b);
    assert w1 == b + w[left..next] + a;
    assert w1[left..] + w1[..left] == w[left..next] + (a + b);
    assert w[left..next] == w[..next][left..];
    EndOfText(w, next, have, text);
    assert Last(text + a + b, |w|) == Last(text, next - left) + (a + b);
    assert Last(text, next)[left..] == Last(text, next - left);
  }

  /** What stands before the write index is the very end of the text. */
  lemma EndOfText(w: seq<Byte>, next: nat, have: nat, text: seq<Byte>)
    requires Keeps(w, next, have, text)
    ensures next <= |text| && w[..next] == Last(text, next)
  {
    if have < |w| {
      assert Last(text, have) == text;
    } else {
      assert Last(text, |w|)[|w| - next..] == Last(text, next);
      assert (w[next..] + w[..next])[|w| - next..] == w[..next];
    }
  }

  /** What stands behind it, when the window is full. */
  lemma StartOfText(w: seq<Byte>, next: nat, text: seq<Byte>)
    requires Keeps(w, next, |w|, text)
    ensures |w| <= |text| && w[next..] == Last(text, |w|)[..|w| - next]
  {
    assert (w[next..] + w[..next])[..|w| - next] == w[next..];
  }

  /** window, wsize, wnext and whave of the state; `done` is all output of earlier calls. */
  class History {
    const size: nat
    const window: array<Byte>
    var wsize: nat
    var wnext: nat
    var whave: nat
    ghost var done: seq<Byte>

    ghost predicate Valid()
      reads this, window
    {
      && window.Length == size > 0
      && if wsize == 0 then wnext == 0 && whave == 0 && done == []
         else wsize == size && Keeps(window[..], wnext, whave, done)
    }

    constructor (size: nat)
      requires size > 0
      ensures Valid() && done == [] && this.size == size && fresh(window)
    {
      this.size := size;
      window := new Byte[size](_ => 0);
      wsize, wnext, whave, done := 0, 0, 0, [];
    }

    /** The window holds as much of the output as it can. */
    lemma HowMuch()
      requires Valid()
      ensures whave == (if |done| < wsize then |done| else wsize) && (wsize == 0 ==> done == []) && wsize <= size
    {
    }

    /** updatewindow: the last `copy` bytes before `end` were written in this call. */
    method UpdateWindow(out: array<Byte>, end: nat, copy: nat)
      requires Valid() && copy <= end <= out.Length && out != window
      modifies this`wsize, this`wnext, this`whave, this`done, window
      ensures Valid() && wsize == size && done == old(done) + out[end - copy..end]
    {
      hide Keeps;
      ghost var more := out[end - copy..end];
      if wsize == 0 {
        wsize, wnext, whave := size, 0, 0;
        KeepsNothing(window[..]);
      }
      if copy >= wsize {
        CopyAll(window, out, end, copy, done);
        wnext := 0;
        whave := wsize;
      } else {
        wnext, whave := CopyPart(window, wnext, whave, out, end, copy, done);
      }
      done := done + more;
    }
  }

  /** The window is written anew. */
  method CopyAll(window: array<Byte>, out: array<Byte>, end: nat, copy: nat, ghost text: seq<Byte>)
    requires 0 < window.Length <= copy <= end <= out.Length && out != window
    modifies window
    ensures Keeps(window[..], 0, window.Length, text + out[end - copy..end])
  {
    hide Keeps;
    Memcpy(window, 0, out, end - window.Length, window.Length);
    LastOf(out[end - copy..end], out[..], end, copy, window.Length);
    KeepsAll(window[..], text, out[end - copy..end]);
  }

  /** The window is written from the write index on, and around its end. */
  method CopyPart(window: array<Byte>, wnext: nat, whave: nat, out: array<Byte>, end: nat, copy: nat,
      ghost text: seq<Byte>)
    returns (wnext1: nat, whave1: nat)
    requires Keeps(window[..], wnext, whave, text) && copy < window.Length && copy <= end <= out.Length && out != window
    modifies window
    ensures Keeps(window[..], wnext1, whave1, text + out[end - copy..end])
  {
    hide Keeps, Written;
    ghost var more := out[end - copy..end];
    KeepsBounds(window[..], wnext, whave, text);
    var wsize := window.Length;
    wnext1, whave1 := wnext, whave;
    var dist := wsize - wnext;
    if dist > copy { dist := copy; }
    ghost var w := window[..];
    Memcpy(window, wnext, out, end - copy, dist);
    var left := copy - dist;
    if left > 0 {
      Memcpy(window, 0, out, end - left, left);
      wnext1 := left;
      whave1 := wsize;
      KeepsRound(w, wnext, whave, text, out[end - copy..end - left], out[end - left..end]);
      TwoParts(text, out[..], end - copy, end - left, end);
    } else {
      KeepsOn(w, wnext, whave, text, more);
      wnext1 := wnext1 + dist;
      if wnext1 == wsize { wnext1 := 0; }
      if whave1 < wsize { whave1 := whave1 + dist; }
    }
  }

  lemma TwoParts(text: seq<Byte>, out: seq<Byte>, i: nat, j: nat, k: nat)
    requires i <= j <= k <= |out|
    ensures text + out[i..j] + out[j..k] == text + out[i..k]
  {
    assert out[i..j] + out[j..k] == out[i..k];
  }

  lemma KeepsNothing(w: seq<Byte>)
    requires |w| > 0
    ensures Keeps(w, 0, 0, [])
  {
  }

  lemma KeepsBounds(w: seq<Byte>, next: nat, have: nat, text: seq<Byte>)
    requires Keeps(w, next, have, text)
    ensures next < |w| && have <= |w|
  {
  }

  lemma LastOf(more: seq<Byte>, out: seq<Byte>, end: nat, copy: nat, n: nat)
    requires n <= copy <= end <= |out| && more == out[end - copy..end]
    ensures out[end - n..end] == Last(more, n)
  {
  }
}

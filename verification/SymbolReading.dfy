/** Reading one symbol: the lookups of the LEN and DIST states of inflate.c, which work with
    however few bits are at hand, and those of inffast.c, which have fifteen. */
module SymbolReading {
  import opened Bits
  import opened LsbBits
  import opened DeflateBits
  import opened DeflateCodes
  import opened DecodingTable
  import InflateTable
  import opened TableLookup

  lemma {:induction false} FirstBits(b: seq<bool>, n: nat)
    requires n <= |b|
    ensures Pow2(n) > 0 && LowVal(b[..n]) == LowVal(b) % Pow2(n)
  {
    LowSplit(b, n);
  }

  /** Two streams that begin alike have values that agree. */
  lemma {:induction false} SameFirst(a: seq<bool>, b: seq<bool>, n: nat)
    requires a <= b && n <= |a|
    ensures Pow2(n) > 0 && LowVal(a) % Pow2(n) == LowVal(b) % Pow2(n)
  {
    hide LowVal, Pow2;
    FirstBits(a, n);
    FirstBits(b, n);
    assert a[..n] == b[..n];
  }

  /** The symbol that comes next in a stream, zeros standing for what is behind its end. */
  ghost function Upcoming(t: seq<Entry>, root: nat, stream: seq<bool>): Entry {
    Look(t, root, LowVal(stream))
  }

  /** The entry at the root for the bits at hand. */
  lemma {:induction false} RootPeek(v: View, t: seq<Entry>, live: seq<bool>, stream: seq<bool>)
    requires Built(v, t) && live <= stream
    ensures Pow2(v.root) > 0 && 0 <= LowVal(live) % Pow2(v.root) < |t|
    ensures var here := t[LowVal(live) % Pow2(v.root)];
      && 0 < here.bits <= 15
      && (here.bits <= |live| && !Link(here) ==> here == Upcoming(t, v.root, stream))
      && (Link(here) ==> here.bits == v.root)
      && (|live| < here.bits ==> Upcoming(t, v.root, stream).bits > |live|)
  {
    hide LowVal, Pow2, Look, Built;
    LookShaped(v, t, LowVal(live));
    RootPositive(v, t);
    var here := t[LowVal(live) % Pow2(v.root)];
    if here.bits <= |live| && !Link(here) {
      SameFirst(live, stream, here.bits);
      Steady(v, t, LowVal(live), LowVal(stream));
    }
    NotYet(v, t, live, stream);
  }

  /** Too few bits for the symbol found with them are too few for the symbol that comes. */
  lemma {:induction false} NotYet(v: View, t: seq<Entry>, live: seq<bool>, stream: seq<bool>)
    requires Built(v, t) && live <= stream
    ensures Look(t, v.root, LowVal(live)).bits > |live| ==> Upcoming(t, v.root, stream).bits > |live|
  {
    hide LowVal, Pow2, Look, Built;
    var e := Upcoming(t, v.root, stream);
    LookShaped(v, t, LowVal(stream));
    if e.bits <= |live| {
      SameFirst(live, stream, e.bits);
      Steady(v, t, LowVal(stream), LowVal(live));
    }
  }

  lemma RootPositive(v: View, t: seq<Entry>)
    requires Built(v, t)
    ensures 1 <= v.root <= 15
  {
    hide NotOver, Accepted, InflateTable.Finished;
  }

  /** The entry in the sub-table for the bits at hand. */
  lemma {:induction false} SubPeek(v: View, t: seq<Entry>, live: seq<bool>, stream: seq<bool>, last: Entry)
    requires Built(v, t) && live <= stream && v.root <= |live| && Pow2(v.root) > 0
    requires 0 <= LowVal(live) % Pow2(v.root) < |t| && last == t[LowVal(live) % Pow2(v.root)] && Link(last)
    ensures last.bits == v.root && Pow2(v.root + last.op) > 0
    ensures 0 <= last.val + LowVal(live) % Pow2(v.root + last.op) / Pow2(v.root) < |t|
    ensures var here := t[last.val + LowVal(live) % Pow2(v.root + last.op) / Pow2(v.root)];
      && 0 < here.bits && last.bits + here.bits <= 15
      && (last.bits + here.bits <= |live|
          ==> Upcoming(t, v.root, stream) == Entry(here.op, last.bits + here.bits, here.val))
      && (|live| < last.bits + here.bits ==> Upcoming(t, v.root, stream).bits > |live|)
  {
    hide LowVal, Pow2, Look, Built;
    LookShaped(v, t, LowVal(live));
    var e := Look(t, v.root, LowVal(live));
    if e.bits <= |live| {
      SameFirst(live, stream, e.bits);
      Steady(v, t, LowVal(live), LowVal(stream));
    }
    NotYet(v, t, live, stream);
  }

  /** One more byte keeps the first bits. */
  lemma SameRoot(a: seq<bool>, b: seq<bool>, stream: seq<bool>, root: nat)
    requires a <= stream && b <= stream && root <= |a| && root <= |b|
    ensures Pow2(root) > 0 && LowVal(a) % Pow2(root) == LowVal(b) % Pow2(root)
  {
    hide LowVal, Pow2;
    SameFirst(a, stream, root);
    SameFirst(b, stream, root);
  }

  /** The first loop of the LEN and DIST states. */
  method FindRoot(source: BitSource, t: seq<Entry>, root: nat, ghost v: View) returns (ok: bool, here: Entry)
    requires source.Valid() && v.root == root && Built(v, t)
    modifies source
    ensures source.Valid() && source.Coming() == old(source.Coming())
    ensures !ok ==> Upcoming(t, root, source.Coming()).bits > |source.Coming()|
    ensures ok ==>
      && Pow2(root) > 0 && 0 <= source.hold % Pow2(root) < |t| && here == t[source.hold % Pow2(root)]
      && 0 < here.bits <= source.bits
    ensures ok && !Link(here) ==> here == Upcoming(t, root, source.Coming())
    ensures ok && Link(here) ==> here.bits == root
    ensures source.bits == old(source.bits) || Upcoming(t, root, source.Coming()).bits > source.bits - 8
  {
    hide *;
    while true
      invariant source.Valid() && source.Coming() == old(source.Coming())
      invariant source.bits == old(source.bits) || Upcoming(t, root, source.Coming()).bits > source.bits - 8
      decreases 32 - source.bits
    {
      source.LiveFirst();
      RootPeek(v, t, source.live, source.Coming());
      here := t[source.hold % Pow2(root)];
      if here.bits <= source.bits { return true, here; }
      ok := source.PullByte();
      if !ok { return; }
    }
  }

  /** The second loop. */
  method FindSub(source: BitSource, t: seq<Entry>, last: Entry, ghost v: View) returns (ok: bool, here: Entry)
    requires source.Valid() && Built(v, t) && v.root <= source.bits && Link(last)
    requires Pow2(v.root) > 0 && 0 <= source.hold % Pow2(v.root) < |t| && last == t[source.hold % Pow2(v.root)]
    modifies source
    ensures source.Valid() && source.Coming() == old(source.Coming()) && last.bits == v.root
    ensures !ok ==> Upcoming(t, v.root, source.Coming()).bits > |source.Coming()|
    ensures ok ==> 0 < here.bits && last.bits + here.bits <= source.bits
    ensures ok ==> Upcoming(t, v.root, source.Coming()) == Entry(here.op, last.bits + here.bits, here.val)
    ensures source.bits == old(source.bits) || Upcoming(t, v.root, source.Coming()).bits > source.bits - 8
  {
    hide *;
    ghost var stream, first := source.Coming(), source.hold % Pow2(v.root);
    while true
      invariant source.Valid() && source.Coming() == stream && v.root <= source.bits
      invariant source.hold % Pow2(v.root) == first
      invariant source.bits == old(source.bits) || Upcoming(t, v.root, stream).bits > source.bits - 8
      decreases 32 - source.bits
    {
      source.LiveFirst();
      SubPeek(v, t, source.live, stream, last);
      LinkPositive(last);
      here := t[last.val + source.hold % Pow2(last.bits + last.op) / Pow2(last.bits)];
      if last.bits + here.bits <= source.bits { return true, here; }
      ghost var live := source.live;
      ok := source.PullByte();
      if !ok { return; }
      source.LiveFirst();
      SameRoot(live, source.live, stream, v.root);
    }
  }

  lemma LinkPositive(e: Entry)
    ensures Link(e) <==> 0 < e.op < 16
  {
  }

  /** Whether the op says that a second lookup is needed: the LEN state also asks for an op
      other than zero. */
  predicate Second(kind: Kind, op: int) {
    (kind != LENS || op != 0) && op / 16 == 0
  }

  lemma {:induction false} SecondIsLink(v: View, t: seq<Entry>, w: nat)
    requires Built(v, t) && v.kind != CODES
    ensures Pow2(v.root) > 0 && w % Pow2(v.root) < |t|
        && (Second(v.kind, t[w % Pow2(v.root)].op) <==> Link(t[w % Pow2(v.root)]))
  {
    hide Look, Built, Pow2, LEXT, LBASE, DEXT, DBASE;
    LookShaped(v, t, w);
    LookMeans(v, t, w);
  }

  /** A lookup of the LEN or DIST state: false if the input ends within the symbol, otherwise
      the symbol that comes next is found and exactly its bits are dropped. */
  method ReadSymbol(source: BitSource, t: seq<Entry>, root: nat, kind: Kind, ghost v: View)
    returns (ok: bool, here: Entry)
    requires source.Valid() && Built(v, t) && v.root == root && v.kind == kind != CODES
    modifies source
    ensures source.Valid() && (ok <==> 0 <= Upcoming(t, root, old(source.Coming())).bits <= |old(source.Coming())|)
    ensures ok ==> var e := Upcoming(t, root, old(source.Coming()));
      here.op == e.op && here.val == e.val && source.Coming() == old(source.Coming())[e.bits..]
    ensures ok && old(source.bits) < 8 ==> source.bits < 8
  {
    hide *;
    ghost var stream := source.Coming();
    ok, here := FindRoot(source, t, root, v);
    if !ok { return; }
    HoldAtLeast(source);
    SecondIsLink(v, t, source.hold);
    source.LiveFirst();
    if Second(kind, here.op) {
      var last := here;
      ok, here := FindSub(source, t, last, v);
      if !ok { return; }
      source.LiveFirst();
      source.DropBits(last.bits);
      ghost var middle := source.Coming();
      source.LiveFirst();
      source.DropBits(here.bits);
      DroppedTwice(stream, middle, source.Coming(), last.bits, here.bits);
    } else {
      source.DropBits(here.bits);
      DroppedTwice(stream, stream, source.Coming(), 0, here.bits);
    }
  }

  lemma HoldAtLeast(source: BitSource)
    requires source.Valid()
    ensures source.hold >= 0
  {
  }

  lemma DroppedTwice(stream: seq<bool>, middle: seq<bool>, now: seq<bool>, m: nat, n: nat)
    requires m <= |stream| && stream == stream[..m] + middle && n <= |middle| && middle == middle[..n] + now
    ensures m + n <= |stream| && now == stream[m + n..]
  {
    assert now == middle[n..];
    assert middle == stream[m..];
  }

  // ---- fifteen bits at hand ----

  predicate FastSecond(kind: Kind, op: int) {
    (kind != LENS || op != 0) && op / 16 % 2 == 0 && op / 64 % 2 == 0
  }

  lemma {:induction false} FastPeek(v: View, t: seq<Entry>, live: seq<bool>, stream: seq<bool>)
    requires Built(v, t) && v.kind != CODES && live <= stream && 15 <= |live|
    ensures Shaped(t, v.root, LowVal(live)) && Look(t, v.root, LowVal(live)) == Upcoming(t, v.root, stream)
    ensures 0 < v.root <= 15 && (FastSecond(v.kind, t[LowVal(live) % Pow2(v.root)].op)
        <==> Link(t[LowVal(live) % Pow2(v.root)]))
    ensures !Link(Upcoming(t, v.root, stream)) && !FastSecond(v.kind, Upcoming(t, v.root, stream).op)
  {
    hide Look, Built, Pow2, LowVal, LEXT, LBASE, DEXT, DBASE;
    hide LengthMeaning, DistanceMeaning, FastSecond, Link;
    LookShaped(v, t, LowVal(live));
    LookMeans(v, t, LowVal(live));
    RootPositive(v, t);
    var e := Look(t, v.root, LowVal(live));
    NeverSecond(v.kind, e);
    LinksAreSecond(v.kind, t[LowVal(live) % Pow2(v.root)]);
    SameFirst(live, stream, e.bits);
    Steady(v, t, LowVal(live), LowVal(stream));
  }

  lemma NeverSecond(kind: Kind, e: Entry)
    requires (kind == LENS ==> LengthMeaning(e)) && (kind == DISTS ==> DistanceMeaning(e)) && kind != CODES
    ensures !FastSecond(kind, e.op)
  {
    hide Pow2;
    if e.op >= 16 { HighOps(e.op); }
  }

  lemma HighOps(op: int)
    requires 16 <= op < 32 || op == 64 || op == 77 || op == 96 || op == 202
    ensures op / 16 % 2 == 1 || op / 64 % 2 == 1
  {
  }

  lemma LinksAreSecond(kind: Kind, e: Entry)
    ensures Link(e) ==> FastSecond(kind, e.op)
  {
  }

  /** The labels dolen and dodist: fifteen bits decide every symbol without a check. */
  method FastSymbol(source: BitSource, t: seq<Entry>, root: nat, kind: Kind, ghost v: View) returns (here: Entry)
    requires source.Valid() && Built(v, t) && v.root == root && v.kind == kind != CODES && source.bits >= 15
    modifies source`hold, source`bits, source`live
    ensures source.Valid()
    ensures var e := Upcoming(t, root, old(source.Coming()));
      && 0 < e.bits <= 15 && e.bits <= |old(source.Coming())| && here.op == e.op && here.val == e.val
      && source.Coming() == old(source.Coming())[e.bits..] && source.bits == old(source.bits) - e.bits
          && source.live == old(source.live)[e.bits..]
  {
    hide *;
    ghost var stream, live := source.Coming(), source.live;
    ghost var e := Upcoming(t, root, stream);
    source.LiveFirst();
    FastPeek(v, t, live, stream);
    ShapedParts(t, root, LowVal(live));
    here := t[source.hold % Pow2(root)];
    ghost var n: nat := here.bits;
    source.DropBits(here.bits);
    DroppedTwice(stream, stream, source.Coming(), 0, n);
    LinkBits(live, here, root);
    source.LiveFirst();
    while FastSecond(kind, here.op)
      invariant source.Valid() && n <= 15 && n <= |stream| && n <= |live|
      invariant source.Coming() == stream[n..] && source.live == live[n..] && source.bits == |live| - n
      invariant FastSecond(kind, here.op) ==>
        n == root && Link(here) && here == t[LowVal(live) % Pow2(root)] && source.hold == LowVal(live) / Pow2(root)
      invariant !FastSecond(kind, here.op) ==> here.op == e.op && here.val == e.val && n == e.bits
      decreases FastSecond(kind, here.op)
    {
      ghost var middle := source.Coming();
      LinkPositive(here);
      source.LiveFirst();
      here := t[here.val + source.hold % Pow2(here.op)];
      source.DropBits(here.bits);
      DroppedTwice(stream, middle, source.Coming(), n, here.bits);
      assert live[n..][here.bits..] == live[n + here.bits..];
      n := n + here.bits;
    }
  }

  lemma {:induction false} LinkBits(live: seq<bool>, e: Entry, root: nat)
    requires e.bits >= 0 && e.bits <= |live| && (Link(e) ==> e.bits == root)
    ensures Link(e) ==> Pow2(root) > 0 && LowVal(live[e.bits..]) == LowVal(live) / Pow2(root)
  {
    hide LowVal, Pow2;
    LowSplit(live, e.bits);
  }

  lemma {:induction false} ShapedParts(t: seq<Entry>, root: nat, w: nat)
    requires Shaped(t, root, w)
    ensures Pow2(root) > 0 && 0 <= w % Pow2(root) < |t| && 1 <= Look(t, root, w).bits <= 15
    ensures var last := t[w % Pow2(root)];
      if Link(last) then
        && last.bits == root && Pow2(last.op) > 0 && 0 <= last.val + w / Pow2(root) % Pow2(last.op) < |t|
        && var e := t[last.val + w / Pow2(root) % Pow2(last.op)];
           e.op == Look(t, root, w).op && e.bits == Look(t, root, w).bits - root && e.bits > 0
               && e.val == Look(t, root, w).val
      else last == Look(t, root, w)
  {
    hide Look, Pow2;
  }
}

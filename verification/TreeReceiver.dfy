/** The states TABLE, LENLENS and CODELENS of inflate.c: the header of a dynamic block. */
module TreeReceiver {
  import opened Bits
  import opened LsbBits
  import opened DeflateBits
  import opened DeflateCodes
  import opened DecodingTable
  import opened TableSteps
  import opened InflateTable
  import opened TableSpace
  import opened TableLookup
  import opened SymbolReading
  import opened InflateItems
  import opened LengthRuns
  import opened TreeSender

  // ---- what a header says ----

  /** Three bits each. */
  ghost function Triples(b: seq<bool>, n: nat): (v: seq<int>)
    requires 3 * n <= |b|
    ensures |v| == n
  {
    if n == 0 then [] else Triples(b[..3 * (n - 1)], n - 1) + [LowVal(b[3 * (n - 1)..3 * n])]
  }

  /** The lengths of the bit length code, back from their order. */
  ghost function Unordered(v: seq<int>): (bll: seq<int>)
    ensures |bll| == 19
  {
    seq(19, s requires 0 <= s < 19 => if RankOf(s) < |v| then v[RankOf(s)] else 0)
  }

  /** One symbol of the bit length code and its extra bits. */
  datatype LengthReading = LengthReading(t: Token, rest: seq<bool>) | ShortReading

  ghost function ReadToken(ct: seq<Entry>, croot: nat, b: seq<bool>): LengthReading {
    var e := Upcoming(ct, croot, b);
    if !(0 < e.bits <= |b|) then ShortReading
    else
      var after, extra := b[e.bits..], ExtraBits(e.val);
      if extra > |after| then ShortReading
      else LengthReading(Token(e.val, LowVal(after[..extra])), after[extra..])
  }

  datatype Lengths = AllLengths(lens: seq<int>, rest: seq<bool>) | InvalidRepeat | ShortLengths

  /** The code lengths of both trees, in one run. */
  ghost function ReadLengths(ct: seq<Entry>, croot: nat, have: seq<int>, total: nat, b: seq<bool>): Lengths
    decreases |b|
  {
    if |have| >= total then AllLengths(have, b)
    else match ReadToken(ct, croot, b)
      case ShortReading => ShortLengths
      case LengthReading(t, rest) =>
        if |rest| >= |b| then ShortLengths
        else match Accept(have, t, total)
          case More(more) => ReadLengths(ct, croot, more, total, rest)
          case Bad => InvalidRepeat
  }

  datatype HeaderEnd = HeaderOk | TooManySymbols | BadCodeLengths | RepeatRefused | MissingEnd | BadLiteralSet
    | BadDistanceSet | HeaderShort

  /** The lengths that a header describes, or why it is refused. */
  datatype Header = Trees(llens: seq<int>, dlens: seq<int>, rest: seq<bool>) | NoTrees(why: HeaderEnd)

  ghost function Field(b: seq<bool>, from: nat, n: nat): int
    requires from + n <= |b|
  {
    LowVal(b[from..from + n])
  }

  /** The lengths of the bit length code of a header. */
  ghost function CodeLengthsOf(b: seq<bool>): (bll: seq<int>)
    requires |b| >= 14 && 14 + 3 * (Field(b, 10, 4) + 4) <= |b| && 0 <= Field(b, 10, 4)
    ensures |bll| == 19
  {
    Unordered(Triples(b[14..], Field(b, 10, 4) + 4))
  }

  ghost function AfterLengths(nlen: nat, r: Lengths): Header {
    match r
    case ShortLengths => NoTrees(HeaderShort)
    case InvalidRepeat => NoTrees(RepeatRefused)
    case AllLengths(all, rest) =>
      if |all| < nlen || nlen <= 256 || all[256] == 0 then NoTrees(MissingEnd)
      else if Refused(LENS, all[..nlen]) then NoTrees(BadLiteralSet)
      else if Refused(DISTS, all[nlen..]) then NoTrees(BadDistanceSet)
      else Trees(all[..nlen], all[nlen..], rest)
  }

  /** What the bits mean as a header, when ct is the table of its bit length code. */
  ghost function Meaning(b: seq<bool>, ct: seq<Entry>, croot: nat): Header {
    if |b| < 14 then NoTrees(HeaderShort)
    else
      var nlen, ndist, ncode := Field(b, 0, 5) + 257, Field(b, 5, 5) + 1, Field(b, 10, 4) + 4;
      if nlen > 286 || ndist > 30 || nlen < 0 || ndist < 0 || ncode < 4 then NoTrees(TooManySymbols)
      else if 14 + 3 * ncode > |b| then NoTrees(HeaderShort)
      else if Refused(CODES, CodeLengthsOf(b)) then NoTrees(BadCodeLengths)
      else AfterLengths(nlen, ReadLengths(ct, croot, [], nlen + ndist, b[14 + 3 * ncode..]))
  }

  /** ct is that table. */
  ghost predicate CodeTable(bll: seq<int>, ct: seq<Entry>, croot: nat) {
    Built(View(CODES, bll, croot), ct) && forall s :: 0 <= s < |bll| ==> 0 <= bll[s] <= 7 && bll[s] <= croot
  }

  // ---- looking up bit length symbols ----

  /** The table has one level. */
  lemma {:induction false} OneLevel(bll: seq<int>, ct: seq<Entry>, croot: nat, w: nat)
    requires CodeTable(bll, ct, croot)
    ensures Pow2(croot) > 0 && w % Pow2(croot) < |ct| && !Link(ct[w % Pow2(croot)])
    ensures var e := Look(ct, croot, w); 0 < e.bits <= 7 && 0 <= e.val <= 18
  {
    hide Look, Pow2, Built;
    var v := View(CODES, bll, croot);
    LookShaped(v, ct, w);
    var s := LookGives(v, ct, w);
    if s >= 0 { SymbolParts(CODES, s, bll[s]); }
  }

  /** A symbol and its extra bits. */
  method LengthSymbol(source: BitSource, ct: seq<Entry>, croot: nat, ghost bll: seq<int>) returns (ok: bool, t: Token)
    requires source.Valid() && CodeTable(bll, ct, croot)
    modifies source
    ensures source.Valid()
    ensures var r := ReadToken(ct, croot, old(source.Coming()));
      (ok <==> r.LengthReading?) && (ok ==>
        t == r.t && source.Coming() == r.rest && |r.rest| < |old(source.Coming())| && 0 <= t.sym <= 18 && t.extra >= 0)
    ensures ok && old(source.bits) < 8 ==> source.bits < 8
  {
    hide *;
    ghost var stream := source.Coming();
    t := Token(0, 0);
    CodeView(bll, ct, croot);
    ReadTokenCases(ct, croot, stream);
    OneLevelAt(bll, ct, croot, stream);
    var here;
    ok, here := FindRoot(source, ct, croot, View(CODES, bll, croot));
    if !ok { return; }
    HoldAtLeast(source);
    OneLevel(bll, ct, croot, source.hold);
    var extra := ExtraBits(here.val);
    ExtraSmall(here.val);
    ghost var b0 := source.bits;
    ok := source.NeedBits(here.bits + extra);
    if !ok { return; }
    source.LiveFirst();
    ghost var now := source.bits;
    source.DropBits(here.bits);
    DroppedTwice(stream, stream, source.Coming(), 0, here.bits);
    source.LiveFirst();
    var x := source.hold % Pow2(extra);
    LowSplit(source.live, extra);
    ghost var middle := source.Coming();
    assert middle[..extra] == source.live[..extra];
    LowNotNegative(source.live[..extra]);
    source.DropBits(extra);
    DroppedTwice(middle, middle, source.Coming(), 0, extra);
    t := Token(here.val, x);
  }

  lemma LowNotNegative(b: seq<bool>)
    ensures LowVal(b) >= 0
  {
  }

  lemma CodeView(bll: seq<int>, ct: seq<Entry>, croot: nat)
    requires CodeTable(bll, ct, croot)
    ensures Built(View(CODES, bll, croot), ct)
  {
  }

  lemma ExtraSmall(sym: int)
    ensures 0 <= ExtraBits(sym) <= 7
  {
  }

  lemma {:induction false} OneLevelAt(bll: seq<int>, ct: seq<Entry>, croot: nat, stream: seq<bool>)
    requires CodeTable(bll, ct, croot)
    ensures var e := Upcoming(ct, croot, stream); 0 < e.bits <= 7 && 0 <= e.val <= 18
  {
    hide Look, Pow2, Built;
    OneLevel(bll, ct, croot, LowVal(stream));
  }

  lemma ReadTokenCases(ct: seq<Entry>, croot: nat, b: seq<bool>)
    ensures var e := Upcoming(ct, croot, b); var r := ReadToken(ct, croot, b);
      if !(0 < e.bits <= |b|) then r == ShortReading
      else if e.bits + ExtraBits(e.val) > |b| then r == ShortReading
      else r == LengthReading(Token(e.val, LowVal(b[e.bits..][..ExtraBits(e.val)])), b[e.bits..][ExtraBits(e.val)..])
  {
    hide Upcoming, LowVal;
  }

  lemma ReadLengthsStep(ct: seq<Entry>, croot: nat, have: seq<int>, total: nat, b: seq<bool>)
    requires |have| < total
    ensures var r := ReadToken(ct, croot, b); var all := ReadLengths(ct, croot, have, total, b);
      if r == ShortReading || |r.rest| >= |b| then all == ShortLengths
      else if Accept(have, r.t, total) == Accepted.Bad then all == InvalidRepeat
      else all == ReadLengths(ct, croot, Accept(have, r.t, total).lens, total, r.rest)
  {
    hide ReadToken, Accept;
  }

  lemma ReadLengthsEnd(ct: seq<Entry>, croot: nat, have: seq<int>, total: nat, b: seq<bool>)
    requires |have| >= total
    ensures ReadLengths(ct, croot, have, total, b) == AllLengths(have, b)
  {
  }

  /** Accept, case by case. */
  lemma AcceptCases(have: seq<int>, t: Token, total: nat)
    requires 0 <= t.sym <= 18 && t.extra >= 0
    ensures t.sym < 16 ==> Accept(have, t, total) == More(have + [t.sym])
    ensures t.sym == 16 && have == [] ==> Accept(have, t, total) == Accepted.Bad
    ensures t.sym == 16 && have != [] ==> Accept(have, t, total) == Copying(have, have[|have| - 1], 3 + t.extra, total)
    ensures t.sym == 17 ==> Accept(have, t, total) == Copying(have, 0, 3 + t.extra, total)
    ensures t.sym == 18 ==> Accept(have, t, total) == Copying(have, 0, 11 + t.extra, total)
  {
  }

  function Copying(have: seq<int>, len: int, copy: nat, total: nat): Accepted {
    if |have| + copy > total then Accepted.Bad else More(have + Copies(len, copy))
  }

  /** The CODELENS loop. */
  method CodeLensState(source: BitSource, ct: seq<Entry>, croot: nat, lens: array<int>, total: nat,
      ghost bll: seq<int>) returns (e: HeaderEnd)
    requires source.Valid() && CodeTable(bll, ct, croot) && total <= lens.Length
    modifies source, lens
    ensures source.Valid() && (e == HeaderOk || e == RepeatRefused || e == HeaderShort)
    ensures var r := ReadLengths(ct, croot, [], total, old(source.Coming()));
      && (e == HeaderOk ==> r == AllLengths(lens[..total], source.Coming()))
      && (e == RepeatRefused ==> r == InvalidRepeat) && (e == HeaderShort ==> r == ShortLengths)
    ensures e == HeaderOk && old(source.bits) < 8 ==> source.bits < 8
  {
    hide *;
    ghost var r0 := ReadLengths(ct, croot, [], total, source.Coming());
    var have := 0;
    assert lens[..0] == [];
    while have < total
      invariant source.Valid() && 0 <= have <= total
          && r0 == ReadLengths(ct, croot, lens[..have], total, source.Coming())
      invariant old(source.bits) < 8 ==> source.bits < 8
      decreases |source.Coming()|
    {
      ghost var l := lens[..have];
      ReadLengthsStep(ct, croot, l, total, source.Coming());
      var ok, here := LengthSymbol(source, ct, croot, bll);
      if !ok { return HeaderShort; }
      AcceptCases(l, here, total);
      if here.sym < 16 {
        lens[have] := here.sym;
        have := have + 1;
        assert lens[..have] == l + [here.sym];
      } else {
        var len, copy := 0, 0;
        if here.sym == 16 {
          if have == 0 { return RepeatRefused; }
          len := lens[have - 1];
          copy := 3 + here.extra;
        } else if here.sym == 17 {
          copy := 3 + here.extra;
        } else {
          copy := 11 + here.extra;
        }
        CopyingCases(l, len, copy, total);
        if have + copy > total { return RepeatRefused; }
        FillLengths(lens, have, copy, len);
        have := have + copy;
        RunFilled(l, lens[..have], len, copy);
      }
    }
    ReadLengthsEnd(ct, croot, lens[..have], total, source.Coming());
    e := HeaderOk;
  }

  lemma CopyingCases(have: seq<int>, len: int, copy: nat, total: nat)
    ensures |have| + copy > total ==> Copying(have, len, copy, total) == Accepted.Bad
    ensures |have| + copy <= total ==> Copying(have, len, copy, total) == More(have + Copies(len, copy))
  {
  }

  lemma RunFilled(l: seq<int>, l1: seq<int>, len: int, copy: nat)
    requires |l1| == |l| + copy && forall j :: 0 <= j < |l1| ==> l1[j] == if |l| <= j < |l| + copy then len else l[j]
    ensures l1 == l + Copies(len, copy)
  {
  }

  // ---- the bit length code ----

  lemma {:induction false} TriplesNext(b: seq<bool>, n: nat)
    requires 3 * (n + 1) <= |b|
    ensures Triples(b, n + 1) == Triples(b, n) + [LowVal(b[3 * n..][..3])]
  {
    TriplesPrefix(b, n, 3 * n);
    assert b[3 * n..3 * (n + 1)] == b[3 * n..][..3];
  }

  lemma {:induction false} TriplesPrefix(b: seq<bool>, n: nat, m: nat)
    requires 3 * n <= m <= |b|
    ensures Triples(b[..m], n) == Triples(b, n)
    decreases n
  {
    if n > 0 {
      TriplesPrefix(b, n - 1, 3 * (n - 1));
      TriplesPrefix(b[..m], n - 1, 3 * (n - 1));
      assert b[..m][..3 * (n - 1)] == b[..3 * (n - 1)];
      assert b[..m][3 * (n - 1)..3 * n] == b[3 * (n - 1)..3 * n];
    }
  }

  /** The first lengths are where the order puts them. */
  ghost predicate Placed(lens: seq<int>, v: seq<int>) {
    |lens| >= 19 && |v| <= 19 && forall s :: 0 <= s < 19 && RankOf(s) < |v| ==> lens[s] == v[RankOf(s)]
  }

  lemma PlaceNext(lens: seq<int>, v: seq<int>, x: int)
    requires Placed(lens, v) && |v| < 19
    ensures |BL_ORDER| == 19 && 0 <= BL_ORDER[|v|] < 19 && Placed(lens[BL_ORDER[|v|] := x], v + [x])
  {
    hide BL_ORDER, RankOf;
    OrderSize();
    RankInverts(|v|);
    var lens1 := lens[BL_ORDER[|v|] := x];
    forall s | 0 <= s < 19 && RankOf(s) < |v| + 1 ensures lens1[s] == (v + [x])[RankOf(s)] { RankInverts(s); }
  }

  lemma PlacedAll(lens: seq<int>, v: seq<int>, k: nat, zeros: seq<int>)
    requires Placed(lens, zeros) && |zeros| == 19 && k == |v| <= 19 && zeros[..k] == v && forall i :: k <= i < 19 ==>
      zeros[i] == 0
    ensures lens[..19] == Unordered(v)
  {
    hide RankOf;
  }

  /** The LENLENS loops. */
  method LenLensState(source: BitSource, lens: array<int>, ncode: nat) returns (ok: bool)
    requires source.Valid() && lens.Length >= 19 && ncode <= 19
    modifies source, lens
    ensures source.Valid() && (ok <==> 3 * ncode <= |old(source.Coming())|)
    ensures ok ==>
      && lens[..19] == Unordered(Triples(old(source.Coming()), ncode))
      && source.Coming() == old(source.Coming())[3 * ncode..]
    ensures ok && old(source.bits) < 8 ==> source.bits < 8
  {
    hide *;
    ghost var b := source.Coming();
    var have := 0;
    ghost var v: seq<int> := [];
    LenLensStart(b, lens[..]);
    while have < ncode
      invariant source.Valid() && 0 <= have <= ncode && 3 * have <= |b| && source.Coming() == b[3 * have..]
          && (old(source.bits) < 8 ==> source.bits < 8)
      invariant v == Triples(b, have) && |v| == have && Placed(lens[..], v)
    {
      var x;
      ok, x := source.Take(3);
      if !ok { return; }
      TriplesNext(b, have);
      PlaceNext(lens[..], v, x);
      OrderSize();
      ghost var l := lens[..];
      lens[BL_ORDER[have]] := x;
      assert lens[..] == l[BL_ORDER[have] := x];
      have := have + 1;
      v := v + [x];
      assert b[3 * (have - 1)..][3..] == b[3 * have..];
    }
    ghost var w := v;
    while have < 19
      modifies lens
      invariant ncode <= have <= 19 && |w| == have && w[..ncode] == v && (forall i :: ncode <= i < have ==> w[i] == 0)
          && Placed(lens[..], w)
    {
      PlaceNext(lens[..], w, 0);
      OrderSize();
      ghost var l := lens[..];
      lens[BL_ORDER[have]] := 0;
      assert lens[..] == l[BL_ORDER[have] := 0];
      have := have + 1;
      w := w + [0];
    }
    PlacedAll(lens[..], v, ncode, w);
    ok := true;
  }

  lemma LenLensStart(b: seq<bool>, lens: seq<int>)
    requires |lens| >= 19
    ensures b[0..] == b && Triples(b, 0) == [] && Placed(lens, [])
  {
  }

  // ---- the header ----

  /** The table of the bit length code. */
  method CodesTable(lens: array<int>, codes: array<Entry>, work: array<int>) returns (ok: bool, next: nat, root: nat)
    requires lens.Length >= 19 && codes.Length >= 1444 && work.Length >= 288 && lens != work
        && (forall s :: 0 <= s < 19 ==> 0 <= lens[s] <= 7)
    modifies codes, work
    ensures ok <==> !Refused(CODES, lens[..19])
    ensures ok ==> next <= codes.Length && CodeTable(lens[..19], codes[..next], root)
  {
    hide *;
    var l := lens[..19];
    CodesReady(l, codes.Length);
    var ret;
    ret, next, root := InflateTable.InflateTable(CODES, l, codes, 0, 7, work);
    ok := ret == 0;
    if ok { CodesBuilt(l, codes[..next], root, codes[0..next]); }
  }

  lemma CodesReady(l: seq<int>, room: nat)
    requires room >= 1444 && |l| == 19 && forall s :: 0 <= s < 19 ==> 0 <= l[s] <= 7
    ensures CodeLens(l) && |l| <= Symbols(CODES) && HasRoom(CODES, l, 7, room)
  {
    SmallTree();
  }

  lemma {:induction false} CodesBuilt(l: seq<int>, t: seq<Entry>, root: nat, t1: seq<Entry>)
    requires |l| == 19 && (forall s :: 0 <= s < 19 ==> 0 <= l[s] <= 7) && CodeLens(l) && !Refused(CODES, l) && t == t1
    requires Longest(l) > 0 ==> 1 <= root <= 15 && Finished(View(CODES, l, root), t1)
    requires Longest(l) == 0 ==> root == 1 && t1 == [Entry(64, 1, 0), Entry(64, 1, 0)]
    requires 0 < Longest(l) <= 7 ==> root == Longest(l)
    ensures CodeTable(l, t, root)
  {
    hide Finished, Longest, Refused, Built;
    LongestBounds(l);
    LongestSmall(l, 7);
    TableBuilt(View(CODES, l, root), t);
    assert forall s :: 0 <= s < 19 ==> l[s] <= Longest(l);
  }

  lemma {:induction false} LongestSmall(l: seq<int>, m: nat)
    requires forall s :: 0 <= s < |l| ==> l[s] <= m
    ensures Longest(l) <= m
  {
    if l != [] { LongestSmall(l[..|l| - 1], m); }
  }

  /** The tables of both codes. */
  ghost predicate BuiltFor(c: Tables, llens: seq<int>, dlens: seq<int>) {
    Built(View(LENS, llens, c.lroot), c.lens) && Built(View(DISTS, dlens, c.droot), c.dists)
  }

  /** The tables are small enough: the constants suffice, or no code is longer than the root. */
  ghost predicate SmallEnough(kind: Kind, lens: seq<int>, bits: nat) {
    Enough(kind, |lens|, bits) || (kind == LENS && bits <= 9 && Longest(lens) <= bits)
    || (kind == DISTS && bits <= 6 && Longest(lens) <= bits)
  }

  /** The two calls of inflate_table at the end. */
  method BothTables(llens: seq<int>, dlens: seq<int>, lbits: nat, dbits: nat, codes: array<Entry>, work: array<int>)
    returns (e: HeaderEnd, c: Tables)
    requires CodeLens(llens) && CodeLens(dlens) && |llens| <= 288 && |dlens| <= 32
        && codes.Length >= 1444 && work.Length >= 288
    requires SmallEnough(LENS, llens, lbits) && SmallEnough(DISTS, dlens, dbits)
    modifies codes, work
    ensures e == if Refused(LENS, llens) then BadLiteralSet else if Refused(DISTS, dlens) then BadDistanceSet
        else HeaderOk
    ensures e == HeaderOk ==> BuiltFor(c, llens, dlens) && Good(c)
  {
    hide *;
    c := Tables([], 0, [], 0);
    LensReady(llens, dlens, lbits, dbits, 0, codes.Length);
    BitsSmall(llens, lbits, dlens, dbits);
    var ret, next, root := InflateTable.InflateTable(LENS, llens, codes, 0, lbits, work);
    NeverLarge(LENS, llens, lbits, root, ret);
    if ret != 0 { return BadLiteralSet, c; }
    var lt := codes[0..next];
    TableIsBuilt(LENS, llens, root, lt);
    LensReady(llens, dlens, lbits, dbits, next, codes.Length);
    var ret2, next2, root2 := InflateTable.InflateTable(DISTS, dlens, codes, next, dbits, work);
    NeverLarge(DISTS, dlens, dbits, root2, ret2);
    if ret2 != 0 { return BadDistanceSet, c; }
    var dt := codes[next..next2];
    assert codes[0..next] == lt;
    TableIsBuilt(DISTS, dlens, root2, dt);
    c := Tables(lt, root, dt, root2);
    BothBuilt(c, llens, dlens);
    e := HeaderOk;
  }

  lemma BothBuilt(c: Tables, llens: seq<int>, dlens: seq<int>)
    requires Built(View(LENS, llens, c.lroot), c.lens) && Built(View(DISTS, dlens, c.droot), c.dists)
    ensures BuiltFor(c, llens, dlens) && Good(c)
  {
    hide Built;
  }

  lemma LensReady(llens: seq<int>, dlens: seq<int>, lbits: nat, dbits: nat, next: nat, room: nat)
    requires |llens| <= 288 && |dlens| <= 32 && room >= 1444
    ensures |llens| <= Symbols(LENS) && |dlens| <= Symbols(DISTS) && HasRoom(LENS, llens, lbits, room)
    ensures !TooLarge(LENS, next) ==> HasRoom(DISTS, dlens, dbits, room - next)
  {
  }

  lemma BitsSmall(llens: seq<int>, lbits: nat, dlens: seq<int>, dbits: nat)
    requires SmallEnough(LENS, llens, lbits) && SmallEnough(DISTS, dlens, dbits)
    ensures lbits <= 15 && dbits <= 15
  {
    hide Longest;
  }

  lemma {:induction false} NeverLarge(kind: Kind, lens: seq<int>, bits: nat, root: nat, ret: int)
    requires CodeLens(lens) && SmallEnough(kind, lens, bits) && (ret == -1 || ret == 0 || ret == 1)
    requires ret == 1 ==> !Enough(kind, |lens|, bits) && (root < Longest(lens) || TooLarge(kind, Pow2(root)))
    requires (ret == -1 <==> Refused(kind, lens)) && (0 < Longest(lens) <= bits ==> root == Longest(lens))
        && (ret == 1 ==> Longest(lens) > 0)
    ensures ret == if Refused(kind, lens) then -1 else 0
  {
    hide Longest, Refused, Pow2;
    if ret == 1 { RootSmall(kind, root); }
  }

  lemma RootSmall(kind: Kind, root: nat)
    requires root <= (if kind == LENS then 9 else 6)
    ensures !TooLarge(kind, Pow2(root))
  {
    PowMonotone(root, if kind == LENS then 9 else 6);
    FourteenBits();
  }

  lemma {:induction false} TableIsBuilt(kind: Kind, lens: seq<int>, root: nat, t: seq<Entry>)
    requires CodeLens(lens) && !Refused(kind, lens) && |lens| <= Symbols(kind)
    requires Longest(lens) > 0 ==> 1 <= root <= 15 && Finished(View(kind, lens, root), t)
    requires Longest(lens) == 0 ==> root == 1 && t == [Entry(64, 1, 0), Entry(64, 1, 0)]
    ensures Built(View(kind, lens, root), t)
  {
    hide Finished, Longest, Refused, Built;
    TableBuilt(View(kind, lens, root), t);
  }

  /** The header is whole and good up to the lengths of its bit length code. */
  ghost predicate HasCode(b: seq<bool>) {
    && |b| >= 14 && Field(b, 0, 5) + 257 <= 286 && Field(b, 5, 5) + 1 <= 30 && 0 <= Field(b, 10, 4)
    && 14 + 3 * (Field(b, 10, 4) + 4) <= |b| && !Refused(CODES, CodeLengthsOf(b))
  }

  /** The meaning of the bits, with a table of inflate_table for the bit length code. */
  ghost predicate Means(b: seq<bool>, m: Header) {
    exists ct: seq<Entry>, croot: nat :: m == Meaning(b, ct, croot)
        && (HasCode(b) ==> CodeTable(CodeLengthsOf(b), ct, croot))
  }

  lemma {:induction false} FieldRange(b: seq<bool>, from: nat, n: nat)
    requires from + n <= |b|
    ensures 0 <= Field(b, from, n) < Pow2(n)
  {
    LowBound(b[from..from + n]);
  }

  lemma SplitCounts(b: seq<bool>, b5: seq<bool>, b10: seq<bool>, b14: seq<bool>)
    requires |b| >= 14 && b5 == b[5..] && b10 == b5[5..] && b14 == b10[4..]
    ensures LowVal(b[..5]) == Field(b, 0, 5) && LowVal(b5[..5]) == Field(b, 5, 5)
        && LowVal(b10[..4]) == Field(b, 10, 4) && b14 == b[14..]
  {
    assert b[..5] == b[0..5] && b5[..5] == b[5..10] && b10[..4] == b[10..14];
  }

  /** The lengths read are code lengths. */
  lemma {:induction false} LengthsInRange(bll: seq<int>, ct: seq<Entry>, croot: nat, have: seq<int>, total: nat,
      b: seq<bool>)
    requires CodeTable(bll, ct, croot) && CodeLens(have) && |have| <= total
    ensures var r := ReadLengths(ct, croot, have, total, b); r.AllLengths? ==> CodeLens(r.lens) && |r.lens| == total
    decreases |b|
  {
    hide CodeTable, Upcoming, LowVal;
    OneLevelAt(bll, ct, croot, b);
    var r := ReadToken(ct, croot, b);
    if |have| < total && r.LengthReading? && |r.rest| < |b| && Accept(have, r.t, total).More? {
      ExtraNotNegative(ct, croot, b);
      AcceptInRange(have, r.t, total);
      LengthsInRange(bll, ct, croot, Accept(have, r.t, total).lens, total, r.rest);
    }
  }

  lemma ExtraNotNegative(ct: seq<Entry>, croot: nat, b: seq<bool>)
    ensures ReadToken(ct, croot, b).LengthReading? ==> ReadToken(ct, croot, b).t.extra >= 0
  {
    hide Upcoming, LowVal;
  }

  lemma AcceptInRange(have: seq<int>, t: Token, total: nat)
    requires CodeLens(have) && |have| < total && 0 <= t.sym <= 18 && t.extra >= 0 && Accept(have, t, total).More?
    ensures CodeLens(Accept(have, t, total).lens) && |Accept(have, t, total).lens| <= total
  {
  }

  lemma MeaningCases(b: seq<bool>, ct: seq<Entry>, croot: nat)
    requires |b| >= 14 && 0 <= Field(b, 0, 5) && 0 <= Field(b, 5, 5) && 0 <= Field(b, 10, 4)
    ensures var nlen, ndist, ncode := Field(b, 0, 5) + 257, Field(b, 5, 5) + 1, Field(b, 10, 4) + 4;
      if nlen > 286 || ndist > 30 then Meaning(b, ct, croot) == NoTrees(TooManySymbols)
      else if 14 + 3 * ncode > |b| then Meaning(b, ct, croot) == NoTrees(HeaderShort)
      else if Refused(CODES, CodeLengthsOf(b)) then Meaning(b, ct, croot) == NoTrees(BadCodeLengths)
      else Meaning(b, ct, croot) == AfterLengths(nlen, ReadLengths(ct, croot, [], nlen + ndist, b[14 + 3 * ncode..]))
    ensures 14 + 3 * (Field(b, 10, 4) + 4) <= |b|
        ==> CodeLengthsOf(b) == Unordered(Triples(b[14..], Field(b, 10, 4) + 4))
  {
    hide Field, Refused, ReadLengths, AfterLengths, Unordered, Triples;
  }

  lemma MeansWith(b: seq<bool>, ct: seq<Entry>, croot: nat)
    requires HasCode(b) ==> CodeTable(CodeLengthsOf(b), ct, croot)
    ensures Means(b, Meaning(b, ct, croot))
  {
    hide Meaning, HasCode, CodeTable;
  }

  lemma ShortMeans(b: seq<bool>, ct: seq<Entry>, croot: nat)
    requires |b| < 14
    ensures Meaning(b, ct, croot) == NoTrees(HeaderShort) && !HasCode(b)
  {
  }

  lemma HasCodeIs(b: seq<bool>)
    requires |b| >= 14
    ensures HasCode(b) <==>
      && Field(b, 0, 5) + 257 <= 286 && Field(b, 5, 5) + 1 <= 30 && 0 <= Field(b, 10, 4)
      && 14 + 3 * (Field(b, 10, 4) + 4) <= |b| && !Refused(CODES, CodeLengthsOf(b))
  {
    hide Field, Refused;
  }

  /** The counts of the TABLE state. */
  method CountsState(source: BitSource) returns (ok: bool, nlen: int, ndist: int, ncode: int)
    requires source.Valid()
    modifies source
    ensures source.Valid() && (ok <==> |old(source.Coming())| >= 14)
    ensures ok ==> var b := old(source.Coming());
      && nlen == Field(b, 0, 5) + 257 && ndist == Field(b, 5, 5) + 1 && ncode == Field(b, 10, 4) + 4
          && source.Coming() == b[14..]
    ensures ok && old(source.bits) < 8 ==> source.bits < 8
  {
    hide *;
    ghost var b := source.Coming();
    nlen, ndist, ncode := 0, 0, 0;
    ghost var b0 := source.bits;
    ok := source.NeedBits(14);
    if !ok { return; }
    source.LiveFirst();
    ghost var n := source.bits;
    nlen := TakeLive(source, 5);
    ghost var b5 := source.Coming();
    ndist := TakeLive(source, 5);
    ghost var b10 := source.Coming();
    ncode := TakeLive(source, 4);
    SplitCounts(b, b5, b10, source.Coming());
    nlen, ndist, ncode := nlen + 257, ndist + 1, ncode + 4;
  }

  /** BITS and DROPBITS of bits that are at hand. */
  method TakeLive(source: BitSource, n: nat) returns (x: int)
    requires source.Valid() && n <= source.bits
    modifies source`hold, source`bits, source`live
    ensures source.Valid() && source.bits == old(source.bits) - n && n <= |old(source.Coming())|
    ensures x == LowVal(old(source.Coming())[..n]) && source.Coming() == old(source.Coming())[n..]
  {
    hide *;
    source.LiveFirst();
    ghost var c, l := source.Coming(), source.live;
    LowSplit(l, n);
    x := source.hold % Pow2(n);
    assert c[..n] == l[..n];
    source.DropBits(n);
    DroppedTwice(c, c, source.Coming(), 0, n);
  }

  /** What may stand behind the lengths. */
  lemma AfterCases(nlen: nat, all: seq<int>, rest: seq<bool>)
    requires 257 <= nlen <= |all|
    ensures var r := AfterLengths(nlen, AllLengths(all, rest));
      if all[256] == 0 then r == NoTrees(MissingEnd)
      else if Refused(LENS, all[..nlen]) then r == NoTrees(BadLiteralSet)
      else if Refused(DISTS, all[nlen..]) then r == NoTrees(BadDistanceSet)
      else r == Trees(all[..nlen], all[nlen..], rest)
    ensures AfterLengths(nlen, InvalidRepeat) == NoTrees(RepeatRefused)
        && AfterLengths(nlen, ShortLengths) == NoTrees(HeaderShort)
  {
    hide Refused;
  }

  lemma PartsInRange(all: seq<int>, nlen: nat)
    requires CodeLens(all) && nlen <= |all|
    ensures CodeLens(all[..nlen]) && CodeLens(all[nlen..])
  {
  }

  /** The outcome is that of the meaning. */
  ghost predicate Agrees(e: HeaderEnd, m: Header) {
    match m
    case NoTrees(why) => e == why
    case Trees(llens, dlens, rest) => e == HeaderOk
  }

  lemma {:induction false} TablesAgree(nlen: nat, all: seq<int>, rest: seq<bool>, e: HeaderEnd)
    requires 257 <= nlen <= |all| && all[256] != 0
    requires e == if Refused(LENS, all[..nlen]) then BadLiteralSet
        else if Refused(DISTS, all[nlen..]) then BadDistanceSet
        else HeaderOk
    ensures Agrees(e, AfterLengths(nlen, AllLengths(all, rest)))
    ensures e == HeaderOk ==> AfterLengths(nlen, AllLengths(all, rest)) == Trees(all[..nlen], all[nlen..], rest)
  {
    hide Refused;
    AfterCases(nlen, all, rest);
  }

  /** What the header leaves behind. */
  ghost predicate HeaderDone(e: HeaderEnd, m: Header, c: Tables, coming: seq<bool>) {
    Agrees(e, m) && (e == HeaderOk ==> m.Trees? && BuiltFor(c, m.llens, m.dlens) && Good(c) && coming == m.rest)
  }

  lemma DoneBad(e: HeaderEnd, c: Tables, coming: seq<bool>)
    requires e != HeaderOk
    ensures HeaderDone(e, NoTrees(e), c, coming)
  {
  }

  lemma DoneGood(e: HeaderEnd, m: Header, c: Tables, llens: seq<int>, dlens: seq<int>, rest: seq<bool>)
    requires Agrees(e, m) && (e == HeaderOk ==> m == Trees(llens, dlens, rest) && BuiltFor(c, llens, dlens) && Good(c))
    ensures HeaderDone(e, m, c, rest)
  {
    hide Agrees, BuiltFor, Good;
  }

  /** The rest of the header, behind the lengths of the bit length code. */
  method LengthsState(source: BitSource, lens: array<int>, codes: array<Entry>, work: array<int>, ct: seq<Entry>,
      croot: nat, nlen: nat, ndist: nat, ghost bll: seq<int>)
    returns (e: HeaderEnd, c: Tables)
    requires source.Valid() && CodeTable(bll, ct, croot) && 257 <= nlen <= 286 && 1 <= ndist <= 30
    requires lens.Length >= 320 && codes.Length >= 1444 && work.Length >= 288 && lens != work
    modifies source, lens, codes, work
    ensures source.Valid() && (e == HeaderOk && old(source.bits) < 8 ==> source.bits < 8)
    ensures HeaderDone(e, AfterLengths(nlen, ReadLengths(ct, croot, [], nlen + ndist, old(source.Coming()))), c,
        source.Coming())
  {
    hide *;
    ghost var b := source.Coming();
    c := Tables([], 0, [], 0);
    NoLengths();
    LengthsInRange(bll, ct, croot, [], nlen + ndist, b);
    e := CodeLensState(source, ct, croot, lens, nlen + ndist, bll);
    ghost var all, rest := lens[..nlen + ndist], source.Coming();
    AfterCases(nlen, all, rest);
    if e != HeaderOk { DoneBad(e, c, rest); return; }
    assert all[256] == lens[256];
    if lens[256] == 0 { DoneBad(MissingEnd, c, rest); return MissingEnd, c; }
    PartsInRange(all, nlen);
    var llens, dlens := lens[..nlen], lens[nlen..nlen + ndist];
    assert llens == all[..nlen] && dlens == all[nlen..];
    FewEnough(llens, dlens);
    e, c := BothTables(llens, dlens, 9, 6, codes, work);
    TablesAgree(nlen, all, rest, e);
    DoneGood(e, AfterLengths(nlen, AllLengths(all, rest)), c, llens, dlens, rest);
  }

  lemma FewEnough(llens: seq<int>, dlens: seq<int>)
    requires |llens| <= 286 && |dlens| <= 30
    ensures SmallEnough(LENS, llens, 9) && SmallEnough(DISTS, dlens, 6)
  {
    hide Longest;
  }

  lemma NoLengths()
    ensures CodeLens([])
  {
  }

  lemma SmallCodes(b: seq<bool>, n: nat, bll: seq<int>)
    requires 3 * n <= |b| && bll == Unordered(Triples(b, n))
    ensures |bll| == 19 && forall s :: 0 <= s < 19 ==> 0 <= bll[s] <= 7
  {
    hide RankOf, Triples;
    forall r | 0 <= r < n ensures 0 <= Triples(b, n)[r] <= 7 { TripleRange(b, n, r); }
  }

  lemma {:induction false} TripleRange(b: seq<bool>, n: nat, r: nat)
    requires 3 * n <= |b| && r < n
    ensures 0 <= Triples(b, n)[r] <= 7
  {
    Pow3();
    LowBound(b[3 * (n - 1)..3 * n]);
    if r < n - 1 { TripleRange(b[..3 * (n - 1)], n - 1, r); }
  }

  /** The states TABLE, LENLENS and CODELENS. */
  method TableStates(source: BitSource, lens: array<int>, codes: array<Entry>, work: array<int>)
    returns (e: HeaderEnd, c: Tables, ghost m: Header)
    requires source.Valid() && lens.Length >= 320 && codes.Length >= 1444 && work.Length >= 288 && lens != work
    modifies source, lens, codes, work
    ensures source.Valid() && (e == HeaderOk && old(source.bits) < 8 ==> source.bits < 8)
    ensures Means(old(source.Coming()), m) && HeaderDone(e, m, c, source.Coming())
  {
    hide *;
    ghost var b := source.Coming();
    c := Tables([], 0, [], 0);
    var ok, nlen, ndist, ncode := CountsState(source);
    if !ok {
      ShortMeans(b, [], 0);
      MeansWith(b, [], 0);
      DoneBad(HeaderShort, c, source.Coming());
      return HeaderShort, c, NoTrees(HeaderShort);
    }
    FieldRange(b, 0, 5);
    FieldRange(b, 5, 5);
    FieldRange(b, 10, 4);
    Pow3();
    MeaningCases(b, [], 0);
    HasCodeIs(b);
    if nlen > 286 || ndist > 30 {
      MeansWith(b, [], 0);
      DoneBad(TooManySymbols, c, source.Coming());
      return TooManySymbols, c, NoTrees(TooManySymbols);
    }
    ok := LenLensState(source, lens, ncode);
    if !ok {
      MeansWith(b, [], 0);
      DoneBad(HeaderShort, c, source.Coming());
      return HeaderShort, c, NoTrees(HeaderShort);
    }
    ghost var bll := lens[..19];
    SmallCodes(b[14..], ncode, bll);
    assert b[14..][3 * ncode..] == b[14 + 3 * ncode..];
    assert forall s :: 0 <= s < 19 ==> lens[s] == bll[s];
    var next, croot;
    ok, next, croot := CodesTable(lens, codes, work);
    if !ok {
      MeansWith(b, [], 0);
      DoneBad(BadCodeLengths, c, source.Coming());
      return BadCodeLengths, c, NoTrees(BadCodeLengths);
    }
    var ct := codes[..next];
    MeaningCases(b, ct, croot);
    MeansWith(b, ct, croot);
    m := Meaning(b, ct, croot);
    e, c := LengthsState(source, lens, codes, work, ct, croot, nlen, ndist, bll);
  }
}

/** The part of sendMTFValues that settles on coding tables: four passes that give each
    group of fifty symbols its cheapest table and rebuild the tables from what they got. */
module CodingTables {
  import opened Bytes
  import opened Bits
  import opened Canonical
  import opened CodeLengths
  import opened SymbolMeaning

  const N_ITERS: int := 4

  /** Length tables for an alphabet, as the passes keep them. */
  ghost predicate Tables(lens: seq<seq<Byte>>, nGroups: int, alphaSize: int) {
    |lens| == nGroups && forall t :: 0 <= t < nGroups ==> |lens[t]| == alphaSize
  }

  /** Tables fit to send: lengths 1..17 that fill the code space exactly. */
  ghost predicate FullTables(lens: seq<seq<Byte>>, nGroups: int, alphaSize: int) {
    Tables(lens, nGroups, alphaSize) && forall t :: 0 <= t < nGroups ==> FullTable(lens[t])
  }

  ghost predicate FullTable(lens: seq<Byte>) {
    (forall i :: 0 <= i < |lens| ==> 1 <= lens[i] <= 17) && Kraft(lens, 17) == Pow2(17)
  }

  /** A group's size in bits under one table. */
  function Cost(lens: seq<Byte>, group: seq<int>): (c: nat)
    requires forall k :: 0 <= k < |group| ==> 0 <= group[k] < |lens|
    ensures c <= 255 * |group|
  {
    if group == [] then 0 else Cost(lens, group[..|group| - 1]) + lens[group[|group| - 1]]
  }

  ghost predicate InAlphabet(syms: seq<int>, alphaSize: int) {
    forall k :: 0 <= k < |syms| ==> 0 <= syms[k] < alphaSize
  }

  method CostOf(lens: seq<Byte>, group: seq<int>) returns (cost: int)
    requires InAlphabet(group, |lens|)
    ensures cost == Cost(lens, group)
  {
    cost := 0;
    for i := 0 to |group|
      invariant cost == Cost(lens, group[..i])
    {
      assert group[..i + 1][..i] == group[..i];
      cost := cost + lens[group[i]];
    }
    assert group[..|group|] == group;
  }

  /** The first of the cheapest tables for a group. */
  ghost predicate PicksBest(lens: seq<seq<Byte>>, nGroups: int, alphaSize: int, group: seq<int>, bt: int)
    requires Tables(lens, nGroups, alphaSize) && InAlphabet(group, alphaSize)
  {
    && 0 <= bt < nGroups
    && (forall t :: 0 <= t < nGroups ==> Cost(lens[bt], group) <= Cost(lens[t], group))
    && forall t :: 0 <= t < bt ==> Cost(lens[bt], group) < Cost(lens[t], group)
  }

  /** The first of the cheapest tables.  Fifty lengths cannot overflow the 16-bit costs. */
  method PickTable(lens: seq<seq<Byte>>, nGroups: int, alphaSize: int, group: seq<int>) returns (bt: int)
    requires 2 <= nGroups <= 6 && Tables(lens, nGroups, alphaSize)
    requires |group| <= BZ_G_SIZE && InAlphabet(group, alphaSize)
    ensures PicksBest(lens, nGroups, alphaSize, group, bt)
    ensures forall t :: 0 <= t < nGroups ==> Cost(lens[t], group) < 0x1_0000
  {
    hide Cost;
    var bc := 999_999_999;
    bt := -1;
    for t := 0 to nGroups
      invariant if t == 0 then bt == -1 && bc == 999_999_999 else 0 <= bt < t && bc == Cost(lens[bt], group)
      invariant forall u :: 0 <= u < t ==> bc <= Cost(lens[u], group) < 0x1_0000
      invariant forall u :: 0 <= u < bt ==> bc < Cost(lens[u], group)
    {
      var cost := CostOf(lens[t], group);
      if cost < bc { bc, bt := cost, t; }
    }
  }

  // ---- frequencies ----

  lemma {:induction false} FreqSumBump(freq: seq<int>, s: int, k: nat)
    requires k <= |freq| && 0 <= s < |freq| && 0 <= freq[s]
    ensures FreqSum(freq[s := freq[s] + 1], k) <= FreqSum(freq, k) + 1
    ensures k <= s ==> FreqSum(freq[s := freq[s] + 1], k) == FreqSum(freq, k)
  {
    if k > 0 { FreqSumBump(freq, s, k - 1); }
  }

  lemma {:induction false} FreqSumZero(freq: seq<int>, k: nat)
    requires k <= |freq| && forall i :: 0 <= i < k ==> freq[i] == 0
    ensures FreqSum(freq, k) == k
  {
    if k > 0 { FreqSumZero(freq, k - 1); }
  }

  /** Frequencies gathered from at most n symbols. */
  ghost predicate Gathered(freq: seq<int>, alphaSize: int, n: int) {
    |freq| == alphaSize && (forall i :: 0 <= i < alphaSize ==> 0 <= freq[i])
        && FreqSum(freq, alphaSize) <= alphaSize + n
  }

  ghost predicate AllGathered(rfreq: seq<seq<int>>, nGroups: int, alphaSize: int, n: int) {
    |rfreq| == nGroups && forall t :: 0 <= t < nGroups ==> Gathered(rfreq[t], alphaSize, n)
  }

  /** The positions before n where a symbol stands in a group that has selected a table. */
  ghost function Seen(syms: seq<int>, selector: seq<Byte>, t: int, v: int, n: nat): set<int> {
    set i | 0 <= i < n && i < |syms| && syms[i] == v && i / BZ_G_SIZE < |selector| && selector[i / BZ_G_SIZE] == t
  }

  /** How often each symbol stands there. */
  ghost function Uses(syms: seq<int>, selector: seq<Byte>, t: int, alphaSize: nat, n: nat): (f: seq<int>)
    ensures |f| == alphaSize && forall v :: 0 <= v < alphaSize ==> f[v] == |Seen(syms, selector, t, v, n)|
  {
    seq(alphaSize, v => |Seen(syms, selector, t, v, n)|)
  }

  lemma {:induction false} SeenNext(syms: seq<int>, selector: seq<Byte>, t: int, v: int, n: nat)
    requires n < |syms| && n / BZ_G_SIZE < |selector|
    ensures |Seen(syms, selector, t, v, n + 1)| ==
            |Seen(syms, selector, t, v, n)| + if syms[n] == v && selector[n / BZ_G_SIZE] == t then 1 else 0
  {
    var a, b := Seen(syms, selector, t, v, n), Seen(syms, selector, t, v, n + 1);
    assert n !in a;
    assert b == if syms[n] == v && selector[n / BZ_G_SIZE] == t then a + {n} else a;
  }

  /** One more position. */
  lemma {:induction false} UsesNext(syms: seq<int>, selector: seq<Byte>, t: int, alphaSize: nat, n: nat)
    requires n < |syms| && n / BZ_G_SIZE < |selector| && 0 <= syms[n] < alphaSize
    ensures Uses(syms, selector, t, alphaSize, n + 1) ==
            if selector[n / BZ_G_SIZE] == t then
              Uses(syms, selector, t, alphaSize, n)[syms[n] := Uses(syms, selector, t, alphaSize, n)[syms[n]] + 1]
            else Uses(syms, selector, t, alphaSize, n)
  {
    hide Seen;
    forall v | 0 <= v < alphaSize { SeenNext(syms, selector, t, v, n); }
  }

  /** Positions of groups that have not selected yet do not count. */
  lemma {:induction false} UsesKept(syms: seq<int>, selector: seq<Byte>, bt: Byte, t: int, alphaSize: nat, n: nat)
    requires n <= BZ_G_SIZE * |selector|
    ensures Uses(syms, selector + [bt], t, alphaSize, n) == Uses(syms, selector, t, alphaSize, n)
  {
    forall v | 0 <= v < alphaSize ensures Seen(syms, selector + [bt], t, v, n) == Seen(syms, selector, t, v, n) {}
  }

  lemma {:induction false} NoUses(syms: seq<int>, t: int, alphaSize: nat)
    ensures Uses(syms, [], t, alphaSize, 0) == seq(alphaSize, _ => 0)
  {
    forall v | 0 <= v < alphaSize ensures Seen(syms, [], t, v, 0) == {} {}
  }

  /** The symbols of one group, for the table that it has selected. */
  method CountGroup(freq0: seq<int>, syms: seq<int>, gs: nat, ge: nat, alphaSize: nat, ghost selector: seq<Byte>,
      ghost t: int)
    returns (freq: seq<int>)
    requires gs <= ge <= |syms| && InAlphabet(syms, alphaSize) && Gathered(freq0, alphaSize, gs)
    requires freq0 == Uses(syms, selector, t, alphaSize, gs)
    requires forall i :: gs <= i < ge ==> Selected(selector, i, t)
    ensures Gathered(freq, alphaSize, ge) && freq == Uses(syms, selector, t, alphaSize, ge)
  {
    hide FreqSum, Uses;
    freq := freq0;
    for i := gs to ge
      invariant Gathered(freq, alphaSize, i) && freq == Uses(syms, selector, t, alphaSize, i)
    {
      assert Selected(selector, i, t);
      UsesNext(syms, selector, t, alphaSize, i);
      FreqSumBump(freq, syms[i], alphaSize);
      freq := freq[syms[i] := freq[syms[i]] + 1];
    }
  }

  /** The group of a position has selected a table. */
  ghost predicate Selected(selector: seq<Byte>, i: nat, t: int) {
    i / BZ_G_SIZE < |selector| && selector[i / BZ_G_SIZE] == t
  }

  /** A group that has selected another table. */
  lemma {:induction false} OtherUses(syms: seq<int>, selector: seq<Byte>, t: int, u: int, alphaSize: nat, gs: nat,
      ge: nat)
    requires gs <= ge <= |syms| && InAlphabet(syms, alphaSize) && t != u
    requires forall i :: gs <= i < ge ==> Selected(selector, i, u)
    ensures Uses(syms, selector, t, alphaSize, ge) == Uses(syms, selector, t, alphaSize, gs)
    decreases ge
  {
    hide Uses;
    if ge > gs {
      OtherUses(syms, selector, t, u, alphaSize, gs, ge - 1);
      assert Selected(selector, ge - 1, u);
      UsesNext(syms, selector, t, alphaSize, ge - 1);
    }
  }

  method NoFrequencies(nGroups: int, alphaSize: int) returns (rfreq: seq<seq<int>>)
    requires 0 <= nGroups && 0 <= alphaSize
    ensures |rfreq| == nGroups && AllGathered(rfreq, nGroups, alphaSize, 0)
        && forall t :: 0 <= t < nGroups ==> rfreq[t] == seq(alphaSize, _ => 0)
  {
    hide FreqSum;
    var none := seq(alphaSize, _ => 0);
    FreqSumZero(none, alphaSize);
    rfreq := seq(nGroups, _ => none);
  }

  lemma GatheredMore(rfreq: seq<seq<int>>, nGroups: int, alphaSize: int, n: int, t: int, freq: seq<int>, m: nat)
    requires AllGathered(rfreq, nGroups, alphaSize, n) && 0 <= t < nGroups && Gathered(freq, alphaSize, n + m)
    ensures AllGathered(rfreq[t := freq], nGroups, alphaSize, n + m)
  {
    hide FreqSum;
  }

  /** The symbols of a group. */
  function GroupAt(syms: seq<int>, k: nat): seq<int>
    requires BZ_G_SIZE * k < |syms|
  {
    if BZ_G_SIZE * (k + 1) <= |syms| then syms[BZ_G_SIZE * k..BZ_G_SIZE * (k + 1)] else syms[BZ_G_SIZE * k..]
  }

  /** Each group has selected its best table. */
  ghost predicate BestSelectors(syms: seq<int>, lens: seq<seq<Byte>>, nGroups: int, alphaSize: int,
      selector: seq<Byte>)
    requires Tables(lens, nGroups, alphaSize) && InAlphabet(syms, alphaSize)
  {
    BZ_G_SIZE * (|selector| - 1) < |syms| && forall k :: 0 <= k < |selector| ==>
      selector[k] < nGroups && BestAt(syms, lens, nGroups, alphaSize, k, selector[k])
  }

  ghost predicate BestAt(syms: seq<int>, lens: seq<seq<Byte>>, nGroups: int, alphaSize: int, k: nat, bt: int)
    requires Tables(lens, nGroups, alphaSize) && InAlphabet(syms, alphaSize) && BZ_G_SIZE * k < |syms|
  {
    PicksBest(lens, nGroups, alphaSize, GroupAt(syms, k), bt)
  }

  /** The frequencies of each table are those of the groups that have selected it. */
  ghost predicate AllCounted(rfreq: seq<seq<int>>, syms: seq<int>, selector: seq<Byte>, nGroups: int, alphaSize: nat,
      n: nat) {
    |rfreq| == nGroups && forall t :: 0 <= t < nGroups ==> rfreq[t] == Uses(syms, selector, t, alphaSize, n)
  }

  /** The selector of one group; its symbols are counted for the table selected. */
  method OneGroup(syms: seq<int>, lens: seq<seq<Byte>>, nGroups: int, alphaSize: int, gs: nat, ge: nat,
      rfreq0: seq<seq<int>>, ghost selector: seq<Byte>)
    returns (bt: Byte, rfreq: seq<seq<int>>)
    requires 2 <= nGroups <= 6 && 0 <= alphaSize && Tables(lens, nGroups, alphaSize) && InAlphabet(syms, alphaSize)
    requires gs == BZ_G_SIZE * |selector| < |syms|
        && ge == if gs + BZ_G_SIZE <= |syms| then gs + BZ_G_SIZE else |syms|
    requires AllGathered(rfreq0, nGroups, alphaSize, gs) && AllCounted(rfreq0, syms, selector, nGroups, alphaSize, gs)
    requires BestSelectors(syms, lens, nGroups, alphaSize, selector)
    ensures AllGathered(rfreq, nGroups, alphaSize, ge)
        && AllCounted(rfreq, syms, selector + [bt], nGroups, alphaSize, ge)
    ensures BestSelectors(syms, lens, nGroups, alphaSize, selector + [bt])
  {
    hide *;
    GroupIs(syms, gs, ge, |selector|, alphaSize);
    var best := PickTable(lens, nGroups, alphaSize, syms[gs..ge]);
    IsPicked(lens, nGroups, alphaSize, syms[gs..ge], best);
    bt := best;
    BestMore(syms, lens, nGroups, alphaSize, selector, bt);
    GatheredTable(rfreq0, nGroups, alphaSize, gs, bt);
    CountedTable(rfreq0, syms, selector, nGroups, alphaSize, gs, bt);
    AllSelected(selector, bt, gs, ge);
    UsesKept(syms, selector, bt, bt, alphaSize, gs);
    var freq := CountGroup(rfreq0[bt], syms, gs, ge, alphaSize, selector + [bt], bt);
    CountedMore(rfreq0, syms, selector, nGroups, alphaSize, gs, ge, bt, freq);
    GatheredMore(rfreq0, nGroups, alphaSize, gs, bt, freq, ge - gs);
    rfreq := rfreq0[bt := freq];
  }

  lemma GroupIs(syms: seq<int>, gs: nat, ge: nat, k: nat, alphaSize: int)
    requires gs == BZ_G_SIZE * k < |syms| && ge == if gs + BZ_G_SIZE <= |syms| then gs + BZ_G_SIZE else |syms|
    requires InAlphabet(syms, alphaSize)
    ensures gs <= ge <= |syms| && syms[gs..ge] == GroupAt(syms, k) && InAlphabet(syms[gs..ge], alphaSize)
    ensures ge - gs <= BZ_G_SIZE == 50
  {
  }

  /** One pass: a selector for every group, and the frequencies each table sees. */
  method OnePass(syms: seq<int>, lens: seq<seq<Byte>>, nGroups: int, alphaSize: int)
    returns (selector: seq<Byte>, rfreq: seq<seq<int>>)
    requires 2 <= nGroups <= 6 && 0 <= alphaSize && Tables(lens, nGroups, alphaSize) && InAlphabet(syms, alphaSize)
    ensures |selector| == (|syms| + BZ_G_SIZE - 1) / BZ_G_SIZE
        && BestSelectors(syms, lens, nGroups, alphaSize, selector)
    ensures AllGathered(rfreq, nGroups, alphaSize, |syms|)
        && AllCounted(rfreq, syms, selector, nGroups, alphaSize, |syms|)
  {
    hide AllGathered, Cost, Uses, PicksBest, AllCounted, BestSelectors;
    selector := [];
    rfreq := NoFrequencies(nGroups, alphaSize);
    PassBegins(syms, lens, nGroups, alphaSize, rfreq);
    var gs := 0;
    while true
      invariant 0 <= gs <= |syms|
      invariant gs == BZ_G_SIZE * |selector|
          || (gs == |syms| && BZ_G_SIZE * (|selector| - 1) < gs <= BZ_G_SIZE * |selector|)
      invariant AllGathered(rfreq, nGroups, alphaSize, gs)
      invariant AllCounted(rfreq, syms, selector, nGroups, alphaSize, gs)
      invariant BestSelectors(syms, lens, nGroups, alphaSize, selector)
      decreases |syms| - gs
    {
      if gs >= |syms| { break; }
      var ge := gs + BZ_G_SIZE - 1;
      if ge >= |syms| { ge := |syms| - 1; }
      var bt;
      bt, rfreq := OneGroup(syms, lens, nGroups, alphaSize, gs, ge + 1, rfreq, selector);
      selector := selector + [bt];
      gs := ge + 1;
    }
  }

  lemma PassBegins(syms: seq<int>, lens: seq<seq<Byte>>, nGroups: int, alphaSize: nat, rfreq: seq<seq<int>>)
    requires Tables(lens, nGroups, alphaSize) && InAlphabet(syms, alphaSize) && |rfreq| == nGroups
    requires forall t :: 0 <= t < nGroups ==> rfreq[t] == seq(alphaSize, _ => 0)
    ensures AllCounted(rfreq, syms, [], nGroups, alphaSize, 0) && BestSelectors(syms, lens, nGroups, alphaSize, [])
  {
    hide Uses;
    forall t | 0 <= t < nGroups ensures rfreq[t] == Uses(syms, [], t, alphaSize, 0) { NoUses(syms, t, alphaSize); }
  }

  lemma IsPicked(lens: seq<seq<Byte>>, nGroups: int, alphaSize: int, group: seq<int>, bt: int)
    requires Tables(lens, nGroups, alphaSize) && InAlphabet(group, alphaSize)
    requires PicksBest(lens, nGroups, alphaSize, group, bt)
    ensures 0 <= bt < nGroups
  {
    hide Cost;
  }

  lemma BestMore(syms: seq<int>, lens: seq<seq<Byte>>, nGroups: int, alphaSize: int, selector: seq<Byte>, bt: Byte)
    requires Tables(lens, nGroups, alphaSize) && InAlphabet(syms, alphaSize)
    requires BestSelectors(syms, lens, nGroups, alphaSize, selector) && BZ_G_SIZE * |selector| < |syms| && bt < nGroups
    requires InAlphabet(GroupAt(syms, |selector|), alphaSize)
    requires PicksBest(lens, nGroups, alphaSize, GroupAt(syms, |selector|), bt)
    ensures BestSelectors(syms, lens, nGroups, alphaSize, selector + [bt])
  {
    hide PicksBest;
    forall k | 0 <= k < |selector| + 1 ensures (selector + [bt])[k] < nGroups
        && BestAt(syms, lens, nGroups, alphaSize, k, (selector + [bt])[k]) {
      if k < |selector| { assert BestAt(syms, lens, nGroups, alphaSize, k, selector[k]); }
    }
  }

  lemma CountedTable(rfreq: seq<seq<int>>, syms: seq<int>, selector: seq<Byte>, nGroups: int, alphaSize: nat, n: nat,
      t: int)
    requires AllCounted(rfreq, syms, selector, nGroups, alphaSize, n) && 0 <= t < nGroups
    ensures |rfreq| == nGroups && rfreq[t] == Uses(syms, selector, t, alphaSize, n)
  {
    hide Uses;
  }

  lemma AllSelected(selector: seq<Byte>, bt: Byte, gs: nat, ge: nat)
    requires gs == BZ_G_SIZE * |selector| && ge <= gs + BZ_G_SIZE
    ensures forall i :: gs <= i < ge ==> Selected(selector + [bt], i, bt)
  {
    forall i | gs <= i < ge ensures i / BZ_G_SIZE == |selector| {}
  }

  lemma {:induction false} CountedMore(rfreq: seq<seq<int>>, syms: seq<int>, selector: seq<Byte>, nGroups: int,
      alphaSize: nat, gs: nat, ge: nat, bt: Byte, freq: seq<int>)
    requires AllCounted(rfreq, syms, selector, nGroups, alphaSize, gs) && bt < nGroups && gs <= ge <= |syms|
    requires InAlphabet(syms, alphaSize) && gs == BZ_G_SIZE * |selector| && ge <= gs + BZ_G_SIZE
    requires freq == Uses(syms, selector + [bt], bt, alphaSize, ge)
    ensures AllCounted(rfreq[bt := freq], syms, selector + [bt], nGroups, alphaSize, ge)
  {
    hide Uses;
    AllSelected(selector, bt, gs, ge);
    forall t | 0 <= t < nGroups ensures rfreq[bt := freq][t] == Uses(syms, selector + [bt], t, alphaSize, ge) {
      if t != bt {
        UsesKept(syms, selector, bt, t, alphaSize, gs);
        OtherUses(syms, selector + [bt], t, bt, alphaSize, gs, ge);
      }
    }
  }

  lemma GatheredTable(rfreq: seq<seq<int>>, nGroups: int, alphaSize: int, n: int, t: int)
    requires AllGathered(rfreq, nGroups, alphaSize, n) && 0 <= t < nGroups
    ensures |rfreq| == nGroups && Gathered(rfreq[t], alphaSize, n)
  {
  }

  method BuildTable(freq: seq<int>, alphaSize: int, ghost n: int) returns (lens: seq<Byte>)
    requires 2 <= alphaSize <= 258 && Gathered(freq, alphaSize, n) && n <= 900_001
    ensures |lens| == alphaSize && FullTable(lens) && CheapestWithin(freq, lens, 17)
  {
    hide FreqSum, Kraft, CheapestWithin;
    var len, f := new Byte[258], new int[alphaSize](i requires 0 <= i < alphaSize => freq[i]);
    assert f[..] == freq;
    MakeCodeLengths(len, f, alphaSize, 17);
    lens := len[..alphaSize];
    assert f[..alphaSize] == freq;
  }

  // ---- the starting partition ----

  function NumGroups(nMTF: int): (n: int)
    ensures 2 <= n <= 6
  {
    if nMTF < 200 then 2 else if nMTF < 600 then 3 else if nMTF < 1200 then 4 else if nMTF < 2400 then 5 else 6
  }

  /** Total of the frequencies from v on. */
  function RestSum(freq: seq<int>, v: nat): int
    requires v <= |freq|
    decreases |freq| - v
  {
    if v == |freq| then 0 else freq[v] + RestSum(freq, v + 1)
  }

  lemma {:induction false} RestSumBump(freq: seq<int>, s: int, v: nat)
    requires v <= |freq| && 0 <= s < |freq|
    ensures RestSum(freq[s := freq[s] + 1], v) == RestSum(freq, v) + if v <= s then 1 else 0
    decreases |freq| - v
  {
    if v < |freq| { RestSumBump(freq, s, v + 1); }
  }

  lemma {:induction false} RestSumNatural(freq: seq<int>, v: nat)
    requires v <= |freq| && forall k :: 0 <= k < |freq| ==> 0 <= freq[k]
    ensures 0 <= RestSum(freq, v)
    decreases |freq| - v
  {
    if v < |freq| { RestSumNatural(freq, v + 1); }
  }

  lemma {:induction false} RestSumZero(freq: seq<int>, v: nat)
    requires v <= |freq| && forall k :: 0 <= k < |freq| ==> freq[k] == 0
    ensures RestSum(freq, v) == 0
    decreases |freq| - v
  {
    if v < |freq| { RestSumZero(freq, v + 1); }
  }

  /** mtfFreq */
  method CountSymbols(syms: seq<int>, alphaSize: int) returns (mtfFreq: seq<int>)
    requires 0 <= alphaSize && InAlphabet(syms, alphaSize)
    ensures mtfFreq == Counts(syms, alphaSize) && RestSum(mtfFreq, 0) == |syms|
  {
    hide RestSum;
    mtfFreq := seq(alphaSize, _ => 0);
    RestSumZero(mtfFreq, 0);
    assert syms[..0] == [];
    for i := 0 to |syms|
      invariant mtfFreq == Counts(syms[..i], alphaSize) && RestSum(mtfFreq, 0) == i
    {
      RestSumBump(mtfFreq, syms[i], 0);
      assert syms[..i + 1] == syms[..i] + [syms[i]];
      mtfFreq := mtfFreq[syms[i] := mtfFreq[syms[i]] + 1];
    }
    assert syms[..|syms|] == syms;
  }

  /** How often each symbol of the alphabet occurs. */
  function Counts(syms: seq<int>, alphaSize: nat): (f: seq<int>)
    ensures |f| == alphaSize && forall v :: 0 <= v < alphaSize ==> f[v] == multiset(syms)[v]
  {
    seq(alphaSize, v => multiset(syms)[v])
  }

  const LESSER_ICOST: Byte := 0
  const GREATER_ICOST: Byte := 15

  /** The shortest part from gs on that holds tFreq of the symbols, or all there is. */
  ghost predicate Share(freq: seq<int>, gs: int, tFreq: int, end: int) {
    && 0 <= gs <= end <= |freq| && (RestSum(freq, gs) - RestSum(freq, end) >= tFreq || end == |freq|)
    && forall k :: gs <= k < end ==> RestSum(freq, gs) - RestSum(freq, k) < tFreq
  }

  /** The end of a part; it may be one symbol shorter, if it has more than one. */
  ghost predicate PartEnds(freq: seq<int>, gs: int, tFreq: int, stepBack: bool, end: int) {
    exists e :: Share(freq, gs, tFreq, e) && end == if stepBack && e > gs + 1 then e - 1 else e
  }

  /** The end of one part of the alphabet, holding about tFreq of the symbols. */
  method PartEnd(mtfFreq: seq<int>, gs: int, tFreq: int, stepBack: bool) returns (ge: int, aFreq: int)
    requires 0 <= gs <= |mtfFreq|
    ensures gs - 1 <= ge < |mtfFreq| && aFreq == RestSum(mtfFreq, gs) - RestSum(mtfFreq, ge + 1)
    ensures PartEnds(mtfFreq, gs, tFreq, stepBack, ge + 1)
  {
    ge, aFreq := gs - 1, 0;
    while aFreq < tFreq && ge < |mtfFreq| - 1
      invariant gs - 1 <= ge < |mtfFreq| && aFreq == RestSum(mtfFreq, gs) - RestSum(mtfFreq, ge + 1)
      invariant forall k :: gs <= k <= ge ==> RestSum(mtfFreq, gs) - RestSum(mtfFreq, k) < tFreq
      decreases |mtfFreq| - ge
    {
      ge := ge + 1;
      aFreq := aFreq + mtfFreq[ge];
    }
    assert Share(mtfFreq, gs, tFreq, ge + 1);
    if ge > gs && stepBack {
      aFreq := aFreq - mtfFreq[ge];
      ge := ge - 1;
    }
  }

  /** The first parts of an alphabet that is shared out among the tables, by where they begin and where
      the last one ends: each is to hold its share of what remains, and every other one steps back. */
  ghost predicate Parts(freq: seq<int>, nGroups: int, b: seq<int>) {
    && 1 <= |b| <= nGroups + 1 && b[0] == 0 && (forall p :: 0 <= p < |b| ==> 0 <= b[p] <= |freq|)
    && forall p :: 0 < p < |b| ==> PartAt(freq, nGroups, b, p)
  }

  ghost predicate PartAt(freq: seq<int>, nGroups: int, b: seq<int>, p: int)
    requires 0 < p < |b| <= nGroups + 1 && 0 <= b[p - 1] <= |freq|
  {
    PartEnds(freq, b[p - 1], RestSum(freq, b[p - 1]) / (nGroups + 1 - p),
      p != 1 && p != nGroups && p % 2 == 0, b[p])
  }

  lemma PartsMore(freq: seq<int>, nGroups: int, b: seq<int>, end: int)
    requires Parts(freq, nGroups, b) && |b| <= nGroups && 0 <= end <= |freq|
    requires PartEnds(freq, b[|b| - 1], RestSum(freq, b[|b| - 1]) / (nGroups + 1 - |b|),
      |b| != 1 && |b| != nGroups && |b| % 2 == 0, end)
    ensures Parts(freq, nGroups, b + [end])
  {
    hide PartEnds, RestSum;
    forall p | 0 < p < |b + [end]| ensures PartAt(freq, nGroups, b + [end], p) {
      if p < |b| { assert PartAt(freq, nGroups, b, p); }
    }
  }

  /** A symbol is cheap in the table of its part, and dear in the others; the first part has the last
      table. */
  ghost predicate PartTables(lens: seq<seq<Byte>>, b: seq<int>) {
    |lens| == |b| - 1 && forall t, v :: 0 <= t < |lens| && 0 <= v < |lens[t]| ==>
      lens[t][v] == if b[|lens| - 1 - t] <= v < b[|lens| - t] then LESSER_ICOST else GREATER_ICOST
  }

  lemma PartTablesMore(lens: seq<seq<Byte>>, b: seq<int>, end: int, table: seq<Byte>)
    requires PartTables(lens, b)
    requires forall v :: 0 <= v < |table| ==>
      table[v] == if b[|b| - 1] <= v < end then LESSER_ICOST else GREATER_ICOST
    ensures PartTables([table] + lens, b + [end])
  {
    var lens1, b1 := [table] + lens, b + [end];
    forall t, v | 0 <= t < |lens1| && 0 <= v < |lens1[t]|
      ensures lens1[t][v] == if b1[|lens1| - 1 - t] <= v < b1[|lens1| - t] then LESSER_ICOST else GREATER_ICOST
    {
      if t > 0 { assert lens1[t] == lens[t - 1]; }
    }
  }

  /** The tables at the beginning: each symbol is cheap in one of them. */
  ghost predicate Parted(freq: seq<int>, nGroups: int, lens: seq<seq<Byte>>) {
    exists b :: Parts(freq, nGroups, b) && |b| == nGroups + 1 && PartTables(lens, b)
  }

  /** Cuts the alphabet into parts of about equal use, one for each table; what remains to
      be shared out never goes below zero. */
  method InitialTables(nMTF: int, nGroups: int, mtfFreq: seq<int>) returns (lens: seq<seq<Byte>>)
    requires 0 < nGroups && RestSum(mtfFreq, 0) == nMTF && forall v :: 0 <= v < |mtfFreq| ==> 0 <= mtfFreq[v]
    ensures Tables(lens, nGroups, |mtfFreq|) && Parted(mtfFreq, nGroups, lens)
  {
    hide RestSum, PartEnds, Parts, PartTables;
    var nPart, remF, gs := nGroups, nMTF, 0;
    lens := [];
    ghost var b := [0];
    NoParts(mtfFreq, nGroups);
    while nPart > 0
      invariant 0 <= nPart <= nGroups && 0 <= gs <= |mtfFreq| && remF == RestSum(mtfFreq, gs)
      invariant |lens| == nGroups - nPart && forall t :: 0 <= t < |lens| ==> |lens[t]| == |mtfFreq|
      invariant Parts(mtfFreq, nGroups, b) && |b| == |lens| + 1 && b[|b| - 1] == gs && PartTables(lens, b)
    {
      RestSumNatural(mtfFreq, gs);
      var tFreq := remF / nPart;
      var ge, aFreq := PartEnd(mtfFreq, gs, tFreq, nPart != nGroups && nPart != 1 && (nGroups - nPart) % 2 == 1);
      var table := seq(|mtfFreq|, v => if gs <= v <= ge then LESSER_ICOST else GREATER_ICOST);
      PartsMore(mtfFreq, nGroups, b, ge + 1);
      PartTablesMore(lens, b, ge + 1, table);
      b := b + [ge + 1];
      lens := [table] + lens;
      nPart := nPart - 1;
      gs := ge + 1;
      remF := remF - aFreq;
    }
  }

  lemma NoParts(freq: seq<int>, nGroups: int)
    requires 0 < nGroups
    ensures Parts(freq, nGroups, [0]) && PartTables([], [0])
  {
  }

  /** A pass: each group selects its best table, and each table becomes a cheapest code for the groups
      that have selected it. */
  ghost predicate Passed(syms: seq<int>, lens: seq<seq<Byte>>, nGroups: int, alphaSize: nat, selector: seq<Byte>,
      lens1: seq<seq<Byte>>) {
    && Tables(lens, nGroups, alphaSize) && Tables(lens1, nGroups, alphaSize) && InAlphabet(syms, alphaSize)
    && |selector| == (|syms| + BZ_G_SIZE - 1) / BZ_G_SIZE && BestSelectors(syms, lens, nGroups, alphaSize, selector)
    && forall t :: 0 <= t < nGroups ==> CheapestFor(syms, selector, t, alphaSize, lens1[t])
  }

  ghost predicate CheapestFor(syms: seq<int>, selector: seq<Byte>, t: int, alphaSize: nat, table: seq<Byte>) {
    CheapestWithin(Uses(syms, selector, t, alphaSize, |syms|), table, 17)
  }

  /** Tables that n passes can make of those that share out the alphabet. */
  ghost predicate Reached(n: nat, syms: seq<int>, nGroups: int, alphaSize: nat, lens: seq<seq<Byte>>) {
    if n == 0 then Tables(lens, nGroups, alphaSize) && Parted(Counts(syms, alphaSize), nGroups, lens)
    else
      exists lens0, selector ::
        Passed(syms, lens0, nGroups, alphaSize, selector, lens) && Reached(n - 1, syms, nGroups, alphaSize, lens0)
  }

  /** The selectors and tables of the last of all passes. */
  ghost predicate Settled(syms: seq<int>, nGroups: int, alphaSize: nat, selector: seq<Byte>, lens: seq<seq<Byte>>) {
    exists lens0 ::
      Passed(syms, lens0, nGroups, alphaSize, selector, lens)
      && Reached(N_ITERS - 1, syms, nGroups, alphaSize, lens0)
  }

  /** From the symbols to the tables and selectors they are sent with. */
  method ChooseTables(syms: seq<int>, nGroups: int, alphaSize: int) returns (selector: seq<Byte>, lens: seq<seq<Byte>>)
    requires 2 <= nGroups <= 6 && 2 <= alphaSize <= 258 && InAlphabet(syms, alphaSize) && |syms| <= 900_001
    ensures |selector| == (|syms| + BZ_G_SIZE - 1) / BZ_G_SIZE && forall k :: 0 <= k < |selector| ==>
      selector[k] < nGroups
    ensures FullTables(lens, nGroups, alphaSize) && Settled(syms, nGroups, alphaSize, selector, lens)
  {
    hide FullTable, Gathered, RestSum, Reached, BestSelectors, CheapestWithin, Uses, Parted, Passed, Settled;
    var mtfFreq := CountSymbols(syms, alphaSize);
    lens := InitialTables(|syms|, nGroups, mtfFreq);
    selector := [];
    ghost var lens0 := lens;
    NonePassed(syms, nGroups, alphaSize, lens);
    for iter := 0 to N_ITERS
      invariant Tables(lens, nGroups, alphaSize) && Reached(iter, syms, nGroups, alphaSize, lens)
      invariant iter > 0 ==>
        Passed(syms, lens0, nGroups, alphaSize, selector, lens) && Reached(iter - 1, syms, nGroups, alphaSize, lens0)
      invariant iter > 0 ==> FullTables(lens, nGroups, alphaSize)
      invariant iter > 0 ==> |selector| == (|syms| + BZ_G_SIZE - 1) / BZ_G_SIZE
      invariant forall k :: 0 <= k < |selector| ==> selector[k] < nGroups
    {
      var rfreq;
      lens0 := lens;
      selector, rfreq := OnePass(syms, lens, nGroups, alphaSize);
      SelectorsInRange(syms, lens, nGroups, alphaSize, selector);
      lens := [];
      for t := 0 to nGroups
        invariant FullTables(lens, t, alphaSize)
        invariant forall u :: 0 <= u < t ==> CheapestFor(syms, selector, u, alphaSize, lens[u])
      {
        CountedTable(rfreq, syms, selector, nGroups, alphaSize, |syms|, t);
        var table := BuildTable(rfreq[t], alphaSize, |syms|);
        lens := lens + [table];
      }
      PassedIs(syms, lens0, nGroups, alphaSize, selector, lens);
      OneMorePass(iter, syms, nGroups, alphaSize, lens0, selector, lens);
    }
    IsSettled(syms, nGroups, alphaSize, lens0, selector, lens);
  }

  lemma NonePassed(syms: seq<int>, nGroups: int, alphaSize: nat, lens: seq<seq<Byte>>)
    requires Tables(lens, nGroups, alphaSize) && Parted(Counts(syms, alphaSize), nGroups, lens)
    ensures Reached(0, syms, nGroups, alphaSize, lens)
  {
  }

  lemma PassedIs(syms: seq<int>, lens: seq<seq<Byte>>, nGroups: int, alphaSize: nat, selector: seq<Byte>,
      lens1: seq<seq<Byte>>)
    requires Tables(lens, nGroups, alphaSize) && FullTables(lens1, nGroups, alphaSize) && InAlphabet(syms, alphaSize)
    requires |selector| == (|syms| + BZ_G_SIZE - 1) / BZ_G_SIZE
        && BestSelectors(syms, lens, nGroups, alphaSize, selector)
    requires forall t :: 0 <= t < nGroups ==> CheapestFor(syms, selector, t, alphaSize, lens1[t])
    ensures Passed(syms, lens, nGroups, alphaSize, selector, lens1)
  {
    hide FullTable, CheapestFor, BestSelectors;
  }

  lemma OneMorePass(n: nat, syms: seq<int>, nGroups: int, alphaSize: nat, lens: seq<seq<Byte>>, selector: seq<Byte>,
      lens1: seq<seq<Byte>>)
    requires Reached(n, syms, nGroups, alphaSize, lens) && Passed(syms, lens, nGroups, alphaSize, selector, lens1)
    ensures Reached(n + 1, syms, nGroups, alphaSize, lens1)
  {
    hide Passed;
  }

  lemma IsSettled(syms: seq<int>, nGroups: int, alphaSize: nat, lens0: seq<seq<Byte>>, selector: seq<Byte>,
      lens: seq<seq<Byte>>)
    requires Passed(syms, lens0, nGroups, alphaSize, selector, lens)
        && Reached(N_ITERS - 1, syms, nGroups, alphaSize, lens0)
    ensures Settled(syms, nGroups, alphaSize, selector, lens)
  {
    hide Passed, Reached;
  }

  lemma SelectorsInRange(syms: seq<int>, lens: seq<seq<Byte>>, nGroups: int, alphaSize: int, selector: seq<Byte>)
    requires Tables(lens, nGroups, alphaSize) && InAlphabet(syms, alphaSize)
    requires BestSelectors(syms, lens, nGroups, alphaSize, selector)
    ensures forall k :: 0 <= k < |selector| ==> selector[k] < nGroups
  {
    hide BestAt;
  }

  // ---- what full tables are good for ----

  lemma {:induction false} KraftScale(lens: seq<Byte>, m: nat, k: nat)
    requires forall i :: 0 <= i < |lens| ==> lens[i] <= m
    ensures Kraft(lens, m + k) == Kraft(lens, m) * Pow2(k)
  {
    if lens != [] {
      var t, x := lens[..|lens| - 1], lens[|lens| - 1];
      KraftScale(t, m, k);
      Pow2Add(m - x, k);
      Distribute(Kraft(t, m), Pow2(m - x), Pow2(k));
    }
  }

  lemma {:induction false} FullTableFits(lens: seq<Byte>)
    requires 1 <= |lens| <= 258 && FullTable(lens)
    ensures Lengths(lens) && Fits(lens)
  {
    hide Kraft, Fits, Pow2;
    KraftScale(lens, 17, 3);
    Pow2Add(17, 3);
    FitsIffKraft(lens);
  }
}

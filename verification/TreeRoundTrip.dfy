/** The header that send_all_trees writes means exactly the lengths of the two trees. */
module TreeRoundTrip {
  import opened Bits
  import opened LsbBits
  import Counting
  import opened DeflateCodes
  import opened DecodingTable
  import opened TableSteps
  import opened InflateTable
  import opened TableLookup
  import opened SymbolReading
  import opened DeflateSymbols
  import opened LengthRuns
  import opened TreeSender
  import opened TreeReceiver

  /** A token that was sent is read. */
  lemma {:induction false} TokenIsRead(bll: seq<int>, ct: seq<Entry>, croot: nat, t: Token, rest: seq<bool>)
    requires CodeTable(bll, ct, croot) && |bll| == 19 && Complete(bll) && TokenOk(bll, t)
    ensures ReadToken(ct, croot, LengthTokenBits(bll, t) + rest) == LengthReading(t, rest)
        && |LengthTokenBits(bll, t)| > 0
  {
    hide Upcoming, LowVal, LowBits, CodeBits, Pow2, Complete, Finished, Built;
    var v, x := View(CODES, bll, croot), ExtraBits(t.sym);
    FinishedTable(bll, ct, croot);
    var code, extra := CodeBits(bll, t.sym), LowBits(t.extra, x);
    CodeIsRead(v, ct, t.sym, extra + rest);
    SymbolParts(CODES, t.sym, bll[t.sym]);
    var b := LengthTokenBits(bll, t) + rest;
    assert b == code + (extra + rest);
    assert b[bll[t.sym]..] == extra + rest;
    ExtraRange(t);
    ValOfLow(t.extra, x);
    assert (extra + rest)[..x] == extra && (extra + rest)[x..] == rest;
    ReadTokenCases(ct, croot, b);
  }

  lemma ExtraRange(t: Token)
    requires Sendable(t)
    ensures 0 <= t.extra < Pow2(ExtraBits(t.sym)) && 0 <= t.sym <= 18
  {
    Pow3();
    SmallTree();
    assert Pow2(2) == 4 && Pow2(0) == 1;
  }

  /** A complete code is not empty, so its table is a finished one. */
  lemma {:induction false} FinishedTable(bll: seq<int>, ct: seq<Entry>, croot: nat)
    requires CodeTable(bll, ct, croot) && Complete(bll)
    ensures ValidView(View(CODES, bll, croot)) && Finished(View(CODES, bll, croot), ct)
  {
    hide Finished;
    CompleteNotEmpty(bll);
  }

  lemma {:induction false} CompleteNotEmpty(lens: seq<int>)
    requires Complete(lens)
    ensures Longest(lens) > 0
  {
    PowPositive(15);
    if Longest(lens) == 0 { EmptySpace(lens, 16); }
  }

  lemma {:induction false} EmptySpace(lens: seq<int>, n: nat)
    requires n <= 16 && Longest(lens) == 0
    ensures Space(lens, n) == 0
  {
    hide Longest, Pow2;
    if n > 1 {
      EmptySpace(lens, n - 1);
      NoneSoLong(lens, n - 1);
      SpaceNext(lens, n - 1);
    }
  }

  lemma {:induction false} NoneSoLong(lens: seq<int>, l: int)
    requires Longest(lens) == 0 && l > 0
    ensures Counting.Count(lens, l) == 0
  {
    if lens != [] { NoneSoLong(lens[..|lens| - 1], l); }
  }

  /** All tokens of both trees, and nothing behind them. */
  lemma {:induction false} LengthsAreRead(bll: seq<int>, ct: seq<Entry>, croot: nat, ts: seq<Token>, k: nat,
      have: seq<int>, total: nat, lens: seq<int>, rest: seq<bool>)
    requires CodeTable(bll, ct, croot) && |bll| == 19 && Complete(bll) && AllTokensOk(bll, ts) && k <= |ts|
    requires Expand(have, ts[k..], total) == Lengths(lens, [])
    ensures ReadLengths(ct, croot, have, total, LengthTokensBits(bll, ts, k) + rest) == AllLengths(lens, rest)
    decreases |ts| - k
  {
    hide CodeTable, Complete, TokenOk, ReadToken, LengthTokenBits, Accept, Sendable;
    var b := LengthTokensBits(bll, ts, k) + rest;
    if |have| >= total {
      assert ts[k..] == [];
      assert [] + rest == rest;
    } else {
      assert k < |ts|;
      var more := LengthTokensBits(bll, ts, k + 1) + rest;
      assert ts[k..][0] == ts[k] && ts[k..][1..] == ts[k + 1..];
      assert b == LengthTokenBits(bll, ts[k]) + more;
      TokenIsRead(bll, ct, croot, ts[k], more);
      ReadLengthsStep(ct, croot, have, total, b);
      LengthsAreRead(bll, ct, croot, ts, k + 1, Accept(have, ts[k], total).lens, total, lens, rest);
    }
  }

  // ---- the lengths of the bit length code ----

  lemma {:induction false} OrderIsRead(bll: seq<int>, n: nat, rest: seq<bool>)
    requires |bll| == 19 && n <= 19 && forall s :: 0 <= s < 19 ==> 0 <= bll[s] <= 7
    ensures var v := Triples(OrderBits(bll, n) + rest, n); |BL_ORDER| == 19 && forall r :: 0 <= r < n ==>
      0 <= BL_ORDER[r] < 19 && v[r] == bll[BL_ORDER[r]]
  {
    hide BL_ORDER, LowBits, LowVal;
    OrderSize();
    if n > 0 {
      OrderRange(n - 1);
      OrderIsRead(bll, n - 1, LowBits(bll[BL_ORDER[n - 1]], 3) + rest);
      OrderStep(bll, n - 1);
      Pow3();
      ValOfLow(bll[BL_ORDER[n - 1]], 3);
      var a, x := OrderBits(bll, n - 1), LowBits(bll[BL_ORDER[n - 1]], 3);
      var b := OrderBits(bll, n) + rest;
      assert b == a + (x + rest);
      assert b[3 * (n - 1)..3 * n] == x;
      TriplesPrefix(b, n - 1, 3 * (n - 1));
    }
  }

  lemma UnorderedIs(bll: seq<int>, n: nat, v: seq<int>)
    requires |bll| == 19 && |v| == n <= 19 && |BL_ORDER| == 19 && forall r :: 0 <= r < n ==>
      0 <= BL_ORDER[r] < 19 && v[r] == bll[BL_ORDER[r]]
    requires forall s :: 0 <= s < 19 && RankOf(s) >= n ==> bll[s] == 0
    ensures Unordered(v) == bll
  {
    hide BL_ORDER, RankOf;
    forall s | 0 <= s < 19 ensures Unordered(v)[s] == bll[s] { RankInverts(s); }
  }

  // ---- the header ----

  lemma FieldsOf(p: nat, q: nat, r: nat, more: seq<bool>)
    requires p < 32 && q < 32 && r < 16
    ensures var b := LowBits(p, 5) + LowBits(q, 5) + LowBits(r, 4) + more;
      |b| >= 14 && Field(b, 0, 5) == p && Field(b, 5, 5) == q && Field(b, 10, 4) == r && b[14..] == more
  {
    hide LowBits, LowVal;
    Pow3();
    ValOfLow(p, 5);
    ValOfLow(q, 5);
    ValOfLow(r, 4);
    var b := LowBits(p, 5) + LowBits(q, 5) + LowBits(r, 4) + more;
    assert b[0..5] == LowBits(p, 5) && b[5..10] == LowBits(q, 5) && b[10..14] == LowBits(r, 4);
  }

  lemma NotRefused(kind: Kind, lens: seq<int>)
    requires Complete(lens)
    ensures !Refused(kind, lens)
  {
    hide Longest, Space;
    RefusedMeans(kind, lens);
  }

  lemma ReadyOrder(l: seq<int>, d: seq<int>, bll: seq<int>, n: nat)
    requires HeaderReady(l, d, bll, n)
    ensures Complete(bll) && |bll| == 19 && 4 <= n <= 19 && (forall s :: 0 <= s < 19 ==> 0 <= bll[s] <= 7)
        && forall s :: 0 <= s < 19 && RankOf(s) >= n ==> bll[s] == 0
  {
    hide Guarded, Complete, TokenOk, RankOf;
  }

  /** The bits of a header, taken apart. */
  lemma {:induction false} HeaderSplit(l: seq<int>, d: seq<int>, bll: seq<int>, n: nat, rest: seq<bool>)
    requires HeaderReady(l, d, bll, n) && |l| - 1 <= 286 && |d| - 1 <= 30
    ensures AllTokensOk(bll, TreeTokens(l) + TreeTokens(d)) && 258 <= |l| && 2 <= |d| && 4 <= n <= 19 && |bll| == 19
    ensures var b := HeaderBits(l, d, bll, n) + rest; var more := LengthTokensBits(bll, TreeTokens(l) + TreeTokens(d),
        0) + rest;
      && |b| >= 14 + 3 * n && Field(b, 0, 5) == |l| - 258 && Field(b, 5, 5) == |d| - 2 && Field(b, 10, 4) == n - 4
      && CodeLengthsOf(b) == bll && b[14 + 3 * n..] == more
  {
    hide *;
    HeaderParts(l, d, bll, n);
    ReadyParts(l, d, bll, n);
    ReadyOrder(l, d, bll, n);
    var ts := LengthTokensBits(bll, TreeTokens(l) + TreeTokens(d), 0);
    var o := OrderBits(bll, n);
    var more := o + (ts + rest);
    var b := HeaderBits(l, d, bll, n) + rest;
    FieldsOf(|l| - 258, |d| - 2, n - 4, more);
    Reassociate(LowBits(|l| - 258, 5), LowBits(|d| - 2, 5), LowBits(n - 4, 4), o, ts, rest);
    assert b[14 + 3 * n..] == b[14..][3 * n..] == ts + rest;
    OrderIsRead(bll, n, ts + rest);
    UnorderedIs(bll, n, Triples(more, n));
    MeaningCases(b, [], 0);
  }

  lemma Reassociate(p: seq<bool>, q: seq<bool>, r: seq<bool>, o: seq<bool>, t: seq<bool>, rest: seq<bool>)
    ensures p + q + r + o + t + rest == p + q + r + (o + (t + rest))
  {
  }

  /** Whatever table of inflate_table reads it, the header means the two trees. */
  lemma {:induction false} HeaderIsRead(l: seq<int>, d: seq<int>, bll: seq<int>, n: nat, rest: seq<bool>, m: Header)
    requires HeaderReady(l, d, bll, n) && |l| - 1 <= 286 && |d| - 1 <= 30 && l[256] != 0
    requires Complete(l[..|l| - 1]) && Complete(d[..|d| - 1]) && Means(HeaderBits(l, d, bll, n) + rest, m)
    ensures m == Trees(l[..|l| - 1], d[..|d| - 1], rest)
  {
    hide *;
    var b := HeaderBits(l, d, bll, n) + rest;
    HeaderSplit(l, d, bll, n, rest);
    ReadyParts(l, d, bll, n);
    ReadyOrder(l, d, bll, n);
    NotRefused(CODES, bll);
    NotRefused(LENS, l[..|l| - 1]);
    NotRefused(DISTS, d[..|d| - 1]);
    HasCodeIs(b);
    var ct, croot := MeansTable(b, m);
    MeaningCases(b, ct, croot);
    var ts := TreeTokens(l) + TreeTokens(d);
    var total := |l| - 1 + (|d| - 1);
    TwoTrees(l, d, []);
    assert ts + [] == ts && ts[0..] == ts;
    var all := l[..|l| - 1] + d[..|d| - 1];
    LengthsAreRead(bll, ct, croot, ts, 0, [], total, all, rest);
    AfterCases(|l| - 1, all, rest);
    assert all[256] == l[256] && all[..|l| - 1] == l[..|l| - 1] && all[|l| - 1..] == d[..|d| - 1];
  }

  lemma MeansTable(b: seq<bool>, m: Header) returns (ct: seq<Entry>, croot: nat)
    requires Means(b, m)
    ensures m == Meaning(b, ct, croot) && (HasCode(b) ==> CodeTable(CodeLengthsOf(b), ct, croot))
  {
    hide Meaning, CodeTable, Refused;
    ct, croot :| m == Meaning(b, ct, croot) && (HasCode(b) ==> CodeTable(CodeLengthsOf(b), ct, croot));
  }
}

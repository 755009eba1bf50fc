/** The header of a dynamic block: build_bl_tree and send_all_trees of trees.c. */
module TreeSender {
  import opened Bits
  import opened LsbBits
  import opened DeflateBits
  import opened Counting
  import opened DeflateCodes
  import opened DeflateSymbols
  import opened LengthRuns
  import opened GenBitlen
  import opened TreeBuilding
  import opened Wrappers

  const BL_CODES: nat := 19
  const L_CODES: nat := 286
  const D_CODES: nat := 30
  const MAX_BL_BITS: nat := 7

  /** bl_order: the lengths of the bit length codes in order of decreasing probability. */
  const BL_ORDER: seq<int> := [16, 17, 18, 0, 8, 7, 9, 6, 10, 5, 11, 4, 12, 3, 13, 2, 14, 1, 15]

  const EXTRA_BLBITS: seq<int> := [0, 0, 0, 0, 0, 0, 0, 0, 0, 0, 0, 0, 0, 0, 0, 0, 2, 3, 7]

  lemma OrderRange(r: int)
    requires 0 <= r < 19
    ensures 0 <= BL_ORDER[r] < 19
  {
    if r < 6 {
    } else if r < 12 {
    } else {
    }
  }

  /** Every symbol has its place in the order. */
  function RankOf(s: int): (r: int)
    requires 0 <= s < 19
    ensures 0 <= r < 19
  {
    [3, 17, 15, 13, 11, 9, 7, 5, 4, 6, 8, 10, 12, 14, 16, 18, 0, 1, 2][s]
  }

  lemma RankInverts(r: int)
    requires 0 <= r < 19
    ensures 0 <= BL_ORDER[r] < 19 && RankOf(BL_ORDER[r]) == r && BL_ORDER[RankOf(r)] == r
  {
    if r < 5 {
    } else if r < 10 {
    } else if r < 15 {
    } else {
    }
  }

  // ---- a code with more symbols that do not occur ----

  lemma {:induction false} CountPadded(lens: seq<int>, m: nat, n: nat, l: int)
    requires m <= n <= |lens| && l > 0 && forall x :: m <= x < |lens| ==> lens[x] == 0
    ensures Count(lens[..n], l) == Count(lens[..m], l)
  {
    if n > m {
      CountPadded(lens, m, n - 1, l);
      assert lens[..n][..n - 1] == lens[..n - 1];
    }
  }

  lemma {:induction false} FirstPadded(lens: seq<int>, m: nat, n: nat)
    requires m <= |lens| && forall x :: m <= x < |lens| ==> lens[x] == 0
    ensures First(lens, n) == First(lens[..m], n)
  {
    hide Count;
    if n > 1 {
      FirstPadded(lens, m, n - 1);
      CountPadded(lens, m, |lens|, n - 1);
      assert lens[..|lens|] == lens;
    }
  }

  lemma {:induction false} SpacePadded(lens: seq<int>, m: nat, n: nat)
    requires m <= |lens| && n <= 16 && forall x :: m <= x < |lens| ==> lens[x] == 0
    ensures Space(lens, n) == Space(lens[..m], n)
  {
    hide Count, Pow2;
    if n > 1 {
      SpacePadded(lens, m, n - 1);
      CountPadded(lens, m, |lens|, n - 1);
      assert lens[..|lens|] == lens;
    }
  }

  /** Symbols of length zero at the end change nothing. */
  lemma {:induction false} Padded(lens: seq<int>, m: nat)
    requires m <= |lens| && CodeLens(lens[..m]) && forall x :: m <= x < |lens| ==> lens[x] == 0
    ensures CodeLens(lens) && (Complete(lens[..m]) ==> Complete(lens))
    ensures forall s :: Used(lens, s) ==> s < m && Used(lens[..m], s) && Huff(lens, s) == Huff(lens[..m], s)
  {
    hide First, Count, Space;
    SpacePadded(lens, m, 16);
    forall x | 0 <= x < |lens| ensures 0 <= lens[x] <= 15 { if x < m { assert lens[x] == lens[..m][x]; } }
    forall s | Used(lens, s) ensures s < m && Used(lens[..m], s) && Huff(lens, s) == Huff(lens[..m], s) {
      FirstPadded(lens, m, lens[s]);
      assert lens[..m][..s] == lens[..s];
    }
  }

  // ---- the bit length tree ----

  ghost predicate TokenOk(bll: seq<int>, t: Token) {
    Used(bll, t.sym) && Sendable(t)
  }

  /** A token of the bit length code: the code of its symbol and its extra bits. */
  ghost function LengthTokenBits(bll: seq<int>, t: Token): seq<bool>
    requires TokenOk(bll, t)
  {
    CodeBits(bll, t.sym) + LowBits(t.extra, ExtraBits(t.sym))
  }

  ghost predicate AllTokensOk(bll: seq<int>, ts: seq<Token>) {
    forall k :: 0 <= k < |ts| ==> TokenOk(bll, ts[k])
  }

  /** The bits of the tokens from k on. */
  ghost function LengthTokensBits(bll: seq<int>, ts: seq<Token>, k: nat): seq<bool>
    requires AllTokensOk(bll, ts) && k <= |ts|
    decreases |ts| - k
  {
    if k == |ts| then [] else LengthTokenBits(bll, ts[k]) + LengthTokensBits(bll, ts, k + 1)
  }

  /** The lengths of the bit length code, three bits each, in order. */
  ghost function OrderBits(bll: seq<int>, n: nat): (b: seq<bool>)
    requires |bll| >= 19 && n <= 19 && forall s :: 0 <= s < 19 ==> 0 <= bll[s]
    ensures |b| == 3 * n
  {
    if n == 0 then []
    else
      OrderRange(n - 1);
      OrderBits(bll, n - 1) + LowBits(bll[BL_ORDER[n - 1]], 3)
  }

  /** A code for the tokens of both trees. */
  ghost predicate BitLengthCode(bll: seq<int>, ts: seq<Token>, n: nat) {
    && |bll| == 19 && CodeLens(bll) && Complete(bll) && (forall s :: 0 <= s < 19 ==> 0 <= bll[s] <= 7)
        && AllTokensOk(bll, ts)
    && 4 <= n <= 19 && forall s :: 0 <= s < 19 && RankOf(s) >= n ==> bll[s] == 0
  }

  /** Two guarded trees, and a code for their tokens. */
  ghost predicate HeaderReady(l: seq<int>, d: seq<int>, bll: seq<int>, n: nat) {
    Guarded(l) && Guarded(d) && 258 <= |l| && BitLengthCode(bll, TreeTokens(l) + TreeTokens(d), n)
  }

  /** The whole header. */
  ghost function HeaderBits(l: seq<int>, d: seq<int>, bll: seq<int>, n: nat): seq<bool>
    requires HeaderReady(l, d, bll, n)
  {
    LowBits(|l| - 1 - 257, 5) + LowBits(|d| - 1 - 1, 5) + LowBits(n - 4, 4) + OrderBits(bll, n)
    + LengthTokensBits(bll, TreeTokens(l) + TreeTokens(d), 0)
  }

  lemma {:induction false} UsedSymbol(ts: seq<Token>, k: nat)
    requires k < |ts|
    ensures Uses(ts, ts[k].sym) > 0
  {
    if k < |ts| - 1 {
      UsedSymbol(ts[..|ts| - 1], k);
    }
  }

  /** The frequencies that the two scans have counted are those of the tokens. */
  ghost predicate Counted(freq: seq<int>, ts: seq<Token>) {
    |freq| >= 19 && forall s :: 0 <= s < 19 ==> freq[s] == Uses(ts, s)
  }

  lemma {:induction false} SumCounted(freq: seq<int>, a: seq<Token>, b: seq<Token>)
    requires |freq| >= 19 && forall s :: 0 <= s < 19 ==> freq[s] == Uses(a, s) + Uses(b, s)
    ensures Counted(freq, a + b)
  {
    hide Uses;
    forall s | 0 <= s < 19 ensures freq[s] == Uses(a + b, s) { UsesJoined(a, b, s); }
  }

  /** All tokens can be sent with the code of their frequencies. */
  lemma {:induction false} TokensHaveCodes(freq0: seq<int>, freq: seq<int>, bll: seq<int>, maxCode: int, ts: seq<Token>)
    requires Counted(freq0, ts) && Kept(freq0, freq, 19) && 0 <= maxCode < 19 && |bll| == 19
        && TreeCode(bll[..maxCode + 1], freq, 7)
    requires (forall x :: maxCode < x < 19 ==> bll[x] == 0 && freq[x] == 0) && forall k :: 0 <= k < |ts| ==>
      Sendable(ts[k])
    ensures CodeLens(bll) && Complete(bll) && AllTokensOk(bll, ts) && forall s :: 0 <= s < 19 ==> 0 <= bll[s] <= 7
  {
    hide Uses, Complete, Occur;
    Padded(bll, maxCode + 1);
    forall k | 0 <= k < |ts| ensures TokenOk(bll, ts[k]) {
      UsedSymbol(ts, k);
      var s := ts[k].sym;
      assert Sendable(ts[k]) && freq0[s] > 0 && freq[s] != 0;
      assert bll[..maxCode + 1][s] > 0;
    }
    forall s | 0 <= s < 19 ensures 0 <= bll[s] <= 7 { if s <= maxCode { assert bll[..maxCode + 1][s] == bll[s]; } }
  }

  lemma {:induction false} SmallTree()
    ensures Pow2(7) == 128
  {
  }

  lemma TreesSendable(l: seq<int>, d: seq<int>)
    requires Guarded(l) && Guarded(d)
    ensures forall k :: 0 <= k < |TreeTokens(l) + TreeTokens(d)| ==> Sendable((TreeTokens(l) + TreeTokens(d))[k])
  {
    hide TreeTokens;
    TreeSendable(l);
    TreeSendable(d);
  }

  lemma CountedFrequencies(freq: seq<int>, ts: seq<Token>)
    requires Counted(freq, ts)
    ensures Frequencies(freq, 19)
  {
    hide Uses;
  }

  lemma CountedUses(freq: seq<int>, ts: seq<Token>)
    requires Counted(freq, ts)
    ensures |freq| >= 19 && freq[..19] == UsesOf(ts)
  {
    hide Uses;
  }

  /** The scans of both trees. */
  method ScanBoth(ltree: array<int>, maxL: nat, dtree: array<int>, maxD: nat, freq: array<int>)
    requires ltree != dtree && ltree != freq && dtree != freq && maxL + 1 < ltree.Length && maxD + 1 < dtree.Length
        && freq.Length >= 19
    requires (forall i :: 0 <= i <= maxL ==> 0 <= ltree[i] <= 15)
        && (forall i :: 0 <= i <= maxD ==> 0 <= dtree[i] <= 15)
    requires forall s :: 0 <= s < 19 ==> freq[s] == 0
    modifies ltree, dtree, freq
    ensures Guarded(ltree[..maxL + 2]) && Guarded(dtree[..maxD + 2])
    ensures ltree[..maxL + 1] == old(ltree[..maxL + 1]) && dtree[..maxD + 1] == old(dtree[..maxD + 1])
    ensures Counted(freq[..], TreeTokens(ltree[..maxL + 2]) + TreeTokens(dtree[..maxD + 2]))
  {
    hide Guarded, TreeTokens, Uses, Counted;
    ScanTree(ltree, maxL, freq);
    ghost var l := ltree[..maxL + 2];
    assert forall i :: 0 <= i <= maxD ==> dtree[i] == old(dtree[i]);
    ScanTree(dtree, maxD, freq);
    assert ltree[..maxL + 2] == l;
    assert ltree[..maxL + 1] == l[..maxL + 1];
    SumCounted(freq[..], TreeTokens(l), TreeTokens(dtree[..maxD + 2]));
  }

  /** Repeats and zeros alone give zeros alone. */
  lemma {:induction false} OnlyZeros(have: seq<int>, ts: seq<Token>, total: nat)
    requires (forall k :: 0 <= k < |ts| ==> ts[k].sym >= 16) && forall i :: 0 <= i < |have| ==> have[i] == 0
    ensures var r := Expand(have, ts, total); r.Lengths? ==> forall i :: 0 <= i < |r.lens| ==> r.lens[i] == 0
    decreases |ts|
  {
    hide Sendable;
    if |have| < total && ts != [] && Accept(have, ts[0], total).More? {
      OnlyZeros(Accept(have, ts[0], total).lens, ts[1..], total);
    }
  }

  /** A tree with a code has a length that is sent as such. */
  lemma {:induction false} SomeLength(l: seq<int>, d: seq<int>, bll: seq<int>, x: int)
    requires Guarded(l) && Guarded(d) && AllTokensOk(bll, TreeTokens(l) + TreeTokens(d)) && 0 <= x < |l| - 1
        && l[x] != 0
    ensures exists s :: 0 <= s < 16 && s < |bll| && bll[s] != 0
  {
    hide TreeTokens, Expand;
    var ts, all := TreeTokens(l) + TreeTokens(d), l[..|l| - 1] + d[..|d| - 1];
    assert ts + [] == ts && all[x] == l[x];
    TwoTrees(l, d, []);
    if forall k :: 0 <= k < |ts| ==> ts[k].sym >= 16 {
      OnlyZeros([], ts, |l| - 1 + (|d| - 1));
    } else {
      var k :| 0 <= k < |ts| && ts[k].sym < 16;
      assert TokenOk(bll, ts[k]);
    }
  }

  lemma RankOfLength(s: int)
    requires 0 <= s < 19
    ensures s < 16 <==> RankOf(s) >= 3
  {
  }

  /** The last length that is sent is not zero. */
  ghost predicate LastSent(bll: seq<int>, n: nat) {
    exists s :: 0 <= s < 19 && s < |bll| && RankOf(s) == n - 1 && bll[s] != 0
  }

  lemma IsLastSent(bll: seq<int>, n: nat, s: int)
    requires 0 <= s < 19 == |bll| && RankOf(s) == n - 1 && bll[s] != 0
    ensures LastSent(bll, n)
  {
  }

  /** The last length to send, at the head of the list of lengths. */
  method LastIndex(bll: array<int>) returns (maxBlindex: int)
    requires bll.Length >= 19 && exists s :: 0 <= s < 16 && bll[s] != 0
    ensures 3 <= maxBlindex <= 18 && forall s :: 0 <= s < 19 && RankOf(s) > maxBlindex ==> bll[s] == 0
    ensures LastSent(bll[..19], maxBlindex + 1)
  {
    hide BL_ORDER, RankOf, LastSent;
    ghost var some :| 0 <= some < 16 && bll[some] != 0;
    RankOfLength(some);
    maxBlindex := 18;
    while maxBlindex >= 3
      invariant 2 <= maxBlindex <= 18 && forall s :: 0 <= s < 19 && RankOf(s) > maxBlindex ==> bll[s] == 0
    {
      RankInverts(maxBlindex);
      OrderSize();
      if bll[BL_ORDER[maxBlindex]] != 0 {
        IsLastSent(bll[..19], maxBlindex + 1, BL_ORDER[maxBlindex]);
        return;
      }
      forall s | 0 <= s < 19 && RankOf(s) > maxBlindex - 1 ensures bll[s] == 0 { RankInverts(s); }
      maxBlindex := maxBlindex - 1;
    }
  }

  lemma OrderSize()
    ensures |BL_ORDER| == 19
  {
  }

  // ---- the header ----

  /** How often each symbol is used. */
  ghost function UsesOf(ts: seq<Token>): (f: seq<int>)
    ensures |f| == 19 && forall s :: 0 <= s < 19 ==> f[s] == Uses(ts, s)
  {
    seq(19, s => Uses(ts, s))
  }

  /** The bits of all tokens with this symbol. */
  ghost function TokensCost(bll: seq<int>, ts: seq<Token>): int
    requires |bll| == 19
  {
    SymbolCost(UsesOf(ts), bll, EXTRA_BLBITS, 0, 19)
  }

  lemma ExtraIs(s: int)
    requires 0 <= s < 19
    ensures Extra(EXTRA_BLBITS, 0, s) == ExtraBits(s)
  {
    if s < 10 {
    } else {
    }
  }

  lemma {:induction false} TokensCostMore(bll: seq<int>, ts: seq<Token>, t: Token)
    requires |bll| == 19 && TokenOk(bll, t)
    ensures TokensCost(bll, ts + [t]) == TokensCost(bll, ts) + |LengthTokenBits(bll, t)|
  {
    hide SymbolCost, Extra, EXTRA_BLBITS, ExtraBits, CodeBits, LowBits;
    var s := t.sym;
    assert (ts + [t])[..|ts + [t]| - 1] == ts;
    assert UsesOf(ts + [t]) == UsesOf(ts)[s := UsesOf(ts)[s] + 1];
    CostMore(UsesOf(ts), bll, EXTRA_BLBITS, 0, 19, s);
    ExtraIs(s);
  }

  lemma NoTokensCost(bll: seq<int>)
    requires |bll| == 19
    ensures TokensCost(bll, []) == 0
  {
    hide SymbolCost;
    NoCost(UsesOf([]), bll, EXTRA_BLBITS, 0, 19);
  }

  /** The bits of all tokens are those that their symbols take. */
  lemma {:induction false} TokensLength(bll: seq<int>, ts: seq<Token>, k: nat)
    requires |bll| == 19 && AllTokensOk(bll, ts) && k <= |ts|
    ensures |LengthTokensBits(bll, ts, k)| + TokensCost(bll, ts[..k]) == TokensCost(bll, ts)
    decreases |ts| - k
  {
    hide TokensCost, LengthTokenBits;
    if k == |ts| {
      assert ts[..k] == ts;
    } else {
      TokensLength(bll, ts, k + 1);
      assert TokenOk(bll, ts[k]);
      TokensCostMore(bll, ts[..k], ts[k]);
      assert ts[..k + 1] == ts[..k] + [ts[k]];
    }
  }

  /** The bits of the header. */
  lemma {:induction false} HeaderLength(l: seq<int>, d: seq<int>, bll: seq<int>, n: nat, freq: seq<int>, dl: seq<int>)
    requires HeaderReady(l, d, bll, n) && Counted(freq, TreeTokens(l) + TreeTokens(d)) && |dl| >= 19 && bll == dl[..19]
    ensures |HeaderBits(l, d, bll, n)| == 14 + 3 * n + SymbolCost(freq, dl, EXTRA_BLBITS, 0, 19)
  {
    hide SymbolCost, LengthTokensBits, EXTRA_BLBITS, TreeTokens, OrderBits, AllTokensOk;
    HeaderParts(l, d, bll, n);
    var ts := TreeTokens(l) + TreeTokens(d);
    TokensLength(bll, ts, 0);
    assert ts[..0] == [];
    NoTokensCost(bll);
    SameCost(freq, UsesOf(ts), dl, bll, EXTRA_BLBITS, 0, 19);
  }

  lemma BlExtra()
    ensures NoExtraFirst(EXTRA_BLBITS, 0)
  {
    forall x | 0 <= x <= 2 ensures Extra(EXTRA_BLBITS, 0, x) == 0 { ExtraIs(x); }
  }

  /** build_bl_tree: a code for the tokens of both trees, and how many of its lengths to send; opt_len
      grows by the bits of the header. */
  method BuildBlTree(heap: array<int>, depth: array<int>, blCount: array<int>, ltree: array<int>, maxL: nat,
      dtree: array<int>, maxD: nat, fc: array<int>, dl: array<int>, optLen0: int)
    returns (maxBlindex: int, optLen: int, ghost bll: seq<int>)
    requires heap != fc && heap != depth && heap != dl && fc != depth && fc != dl && depth != dl && blCount != heap
        && blCount != fc && blCount != dl && blCount != depth
    requires ltree != heap && ltree != depth && ltree != blCount && ltree != fc && ltree != dl && ltree != dtree
    requires dtree != heap && dtree != depth && dtree != blCount && dtree != fc && dtree != dl
    requires blCount.Length == 16 && fc.Length == dl.Length == 39 && 39 <= depth.Length && 39 <= heap.Length
    requires 256 <= maxL && maxL + 1 < ltree.Length && maxD + 1 < dtree.Length
    requires (forall i :: 0 <= i <= maxL ==> 0 <= ltree[i] <= 15)
        && (forall i :: 0 <= i <= maxD ==> 0 <= dtree[i] <= 15) && ltree[256] != 0
    requires forall s :: 0 <= s < 19 ==> fc[s] == 0
    modifies heap, depth, blCount, ltree, dtree, fc, dl
    ensures ltree[..maxL + 1] == old(ltree[..maxL + 1]) && dtree[..maxD + 1] == old(dtree[..maxD + 1])
    ensures 3 <= maxBlindex <= 18 && bll == dl[..19]
        && HeaderReady(ltree[..maxL + 2], dtree[..maxD + 2], bll, maxBlindex + 1)
    ensures CodesFor(bll, fc[..])
    ensures optLen == optLen0 + |HeaderBits(ltree[..maxL + 2], dtree[..maxD + 2], bll, maxBlindex + 1)|
    ensures Chosen(UsesOf(TreeTokens(ltree[..maxL + 2]) + TreeTokens(dtree[..maxD + 2])), bll, MAX_BL_BITS)
        && LastSent(bll, maxBlindex + 1)
  {
    hide *;
    ScanBoth(ltree, maxL, dtree, maxD, fc);
    ghost var l, d, freq0 := ltree[..maxL + 2], dtree[..maxD + 2], fc[..];
    ghost var ts := TreeTokens(l) + TreeTokens(d);
    TreesSendable(l, d);
    CountedFrequencies(freq0, ts);
    CountedUses(freq0, ts);
    SmallTree();
    BlConstants();
    BlExtra();
    var maxCode, staticLen;
    ghost var freq;
    maxCode, optLen, staticLen, freq := BuildTree(heap, fc, depth, dl, blCount, BL_CODES, EXTRA_BLBITS, 0, None,
        MAX_BL_BITS, optLen0, 0);
    bll := dl[..19];
    assert bll[..maxCode + 1] == dl[..maxCode + 1] && ltree[..maxL + 2] == l && dtree[..maxD + 2] == d;
    TokensHaveCodes(freq0, freq, bll, maxCode, ts);
    assert l[256] == ltree[..maxL + 1][256];
    SomeLength(l, d, bll, 256);
    SomeInArray(bll, dl[..]);
    maxBlindex := LastIndex(dl);
    optLen := optLen + 3 * (maxBlindex + 1) + 5 + 5 + 4;
    CodeForTokens(bll, ts, dl[..], maxBlindex);
    BlCodes(bll, maxCode, freq, fc[..]);
    ReadyFrom(l, d, bll, maxBlindex + 1);
    HeaderLength(l, d, bll, maxBlindex + 1, freq0, dl[..]);
  }

  lemma ReadyFrom(l: seq<int>, d: seq<int>, bll: seq<int>, n: nat)
    requires Guarded(l) && Guarded(d) && 258 <= |l| && BitLengthCode(bll, TreeTokens(l) + TreeTokens(d), n)
    ensures HeaderReady(l, d, bll, n)
  {
    hide Guarded, BitLengthCode;
  }

  lemma BlConstants()
    ensures BL_CODES == 19 && MAX_BL_BITS == 7
  {
  }

  lemma SomeInArray(bll: seq<int>, dl: seq<int>)
    requires |dl| >= 19 && bll == dl[..19] && exists s :: 0 <= s < 16 && s < |bll| && bll[s] != 0
    ensures exists s :: 0 <= s < 16 && dl[s] != 0
  {
    var s :| 0 <= s < 16 && s < |bll| && bll[s] != 0;
    assert dl[s] != 0;
  }

  lemma CodeForTokens(bll: seq<int>, ts: seq<Token>, dl: seq<int>, maxBlindex: int)
    requires |dl| >= 19 && bll == dl[..19] && CodeLens(bll) && Complete(bll) && AllTokensOk(bll, ts)
        && (forall s :: 0 <= s < 19 ==> 0 <= bll[s] <= 7)
    requires 3 <= maxBlindex <= 18 && forall s :: 0 <= s < 19 && RankOf(s) > maxBlindex ==> dl[s] == 0
    ensures BitLengthCode(bll, ts, maxBlindex + 1)
  {
    hide RankOf, Complete, TokenOk;
  }

  lemma {:induction false} BlCodes(bll: seq<int>, maxCode: int, freq: seq<int>, fc: seq<int>)
    requires |bll| == 19 && 0 <= maxCode < 19 && TreeCode(bll[..maxCode + 1], freq, 7)
        && forall x :: maxCode < x < 19 ==> bll[x] == 0
    requires |fc| >= 19 && CodesFor(bll[..maxCode + 1], fc)
    ensures CodesFor(bll, fc)
  {
    hide Huff, Complete;
    Padded(bll, maxCode + 1);
  }

  /** The lengths of the bit length code. */
  method SendOrder(sink: BitSink, dl: array<int>, blcodes: nat, ghost bll: seq<int>)
    requires sink.Valid() && dl.Length >= 19 && bll == dl[..19] && blcodes <= 19 && forall s :: 0 <= s < 19 ==>
      0 <= bll[s] <= 7
    modifies sink
    ensures sink.Valid() && sink.Sent() == old(sink.Sent()) + OrderBits(bll, blcodes)
  {
    hide *;
    ghost var w := sink.Sent();
    NoOrder(bll);
    assert w + [] == w;
    for rank := 0 to blcodes
      invariant sink.Valid() && dl[..19] == bll && sink.Sent() == w + OrderBits(bll, rank)
    {
      OrderStep(bll, rank);
      OrderSize();
      OrderRange(rank);
      Pow3();
      assert dl[BL_ORDER[rank]] == dl[..19][BL_ORDER[rank]];
      sink.SendBits(dl[BL_ORDER[rank]], 3);
      assert w + OrderBits(bll, rank) + LowBits(bll[BL_ORDER[rank]], 3) ==
          w + (OrderBits(bll, rank) + LowBits(bll[BL_ORDER[rank]], 3));
    }
  }

  lemma Pow3()
    ensures Pow2(3) == 8 && Pow2(5) == 32 && Pow2(4) == 16
  {
  }

  lemma NoOrder(bll: seq<int>)
    requires |bll| >= 19 && forall s :: 0 <= s < 19 ==> 0 <= bll[s]
    ensures OrderBits(bll, 0) == []
  {
  }

  lemma OrderStep(bll: seq<int>, n: nat)
    requires |bll| >= 19 && n < 19 && forall s :: 0 <= s < 19 ==> 0 <= bll[s]
    ensures |BL_ORDER| == 19 && 0 <= BL_ORDER[n] < 19
        && OrderBits(bll, n + 1) == OrderBits(bll, n) + LowBits(bll[BL_ORDER[n]], 3)
  {
    hide BL_ORDER, LowBits;
    OrderSize();
    OrderRange(n);
  }

  /** The tokens, with their codes and extra bits. */
  method SendLengthTokens(sink: BitSink, fc: array<int>, bll: seq<int>, ts: seq<Token>)
    requires sink.Valid() && CodeLens(bll) && NotOver(bll) && AllTokensOk(bll, ts) && CodesFor(bll, fc[..])
    modifies sink
    ensures sink.Valid() && sink.Sent() == old(sink.Sent()) + LengthTokensBits(bll, ts, 0)
  {
    hide *;
    ghost var w, codes := sink.Sent(), fc[..];
    for k := 0 to |ts|
      invariant sink.Valid() && fc[..] == codes
          && sink.Sent() + LengthTokensBits(bll, ts, k) == w + LengthTokensBits(bll, ts, 0)
    {
      LengthTokenParts(bll, ts, k);
      CodeIs(bll, codes, ts[k].sym);
      ghost var sent := sink.Sent();
      SendCode(sink, fc, bll, ts[k].sym);
      var extra := ExtraBits(ts[k].sym);
      assert sent + CodeBits(bll, ts[k].sym) + [] == sent + CodeBits(bll, ts[k].sym);
      if extra != 0 { sink.SendBits(ts[k].extra, extra); }
      TokenRegroup(sent, CodeBits(bll, ts[k].sym), LowBits(ts[k].extra, extra), LengthTokensBits(bll, ts, k + 1));
    }
    LengthTokensEnd(bll, ts);
    assert sink.Sent() + [] == sink.Sent();
  }

  lemma CodeIs(lens: seq<int>, code: seq<int>, s: int)
    requires CodesFor(lens, code) && Used(lens, s)
    ensures 0 <= s < |lens| <= |code| && lens[s] >= 0 && code[s] == Huff(lens, s)
  {
    hide Huff;
  }

  lemma TokenRegroup(sent: seq<bool>, code: seq<bool>, extra: seq<bool>, more: seq<bool>)
    ensures sent + (code + extra + more) == sent + code + extra + more
  {
  }

  lemma LengthTokensEnd(bll: seq<int>, ts: seq<Token>)
    requires AllTokensOk(bll, ts)
    ensures LengthTokensBits(bll, ts, |ts|) == []
  {
  }

  lemma {:induction false} LengthTokenParts(bll: seq<int>, ts: seq<Token>, k: nat)
    requires AllTokensOk(bll, ts) && k < |ts|
    ensures TokenOk(bll, ts[k]) && Used(bll, ts[k].sym) && 0 <= ts[k].sym < |bll| && bll[ts[k].sym] >= 0
    ensures 0 <= ts[k].extra < Pow2(ExtraBits(ts[k].sym)) && ExtraBits(ts[k].sym) <= 7
    ensures ExtraBits(ts[k].sym) == 0 ==> LowBits(ts[k].extra, 0) == []
    ensures LengthTokensBits(bll, ts, k) == CodeBits(bll, ts[k].sym) + LowBits(ts[k].extra, ExtraBits(ts[k].sym))
        + LengthTokensBits(bll, ts, k + 1)
  {
    hide CodeBits;
    assert TokenOk(bll, ts[k]);
    Pow3();
    SmallTree();
    assert Pow2(2) == 4 && Pow2(0) == 1;
  }

  /** send_all_trees */
  method SendAllTrees(sink: BitSink, ltree: array<int>, lcodes: nat, dtree: array<int>, dcodes: nat, fc: array<int>,
      dl: array<int>, blcodes: nat, ghost bll: seq<int>)
    requires sink.Valid() && lcodes < ltree.Length && dcodes < dtree.Length
        && HeaderReady(ltree[..lcodes + 1], dtree[..dcodes + 1], bll, blcodes)
    requires 257 <= lcodes <= L_CODES && 1 <= dcodes <= D_CODES && dl.Length >= 19 && fc.Length >= 19 && bll == dl[..19]
    requires CodesFor(bll, fc[..])
    modifies sink
    ensures sink.Valid() && sink.Sent() == old(sink.Sent()) + HeaderBits(ltree[..lcodes + 1], dtree[..dcodes + 1], bll,
        blcodes)
  {
    hide *;
    ghost var w, l, d := sink.Sent(), ltree[..lcodes + 1], dtree[..dcodes + 1];
    ghost var ts := TreeTokens(l) + TreeTokens(d);
    CodeCounts();
    ReadyParts(l, d, bll, blcodes);
    CodeParts(bll, ts, blcodes);
    Pow3();
    sink.SendBits(lcodes - 257, 5);
    sink.SendBits(dcodes - 1, 5);
    sink.SendBits(blcodes - 4, 4);
    ghost var w1 := sink.Sent();
    SendOrder(sink, dl, blcodes, bll);
    var lens := dl[..19];
    var a := SendTree(ltree, lcodes - 1);
    var b := SendTree(dtree, dcodes - 1);
    SendLengthTokens(sink, fc, lens, a + b);
    HeaderParts(l, d, bll, blcodes);
    HeaderRegroup(w, LowBits(lcodes - 257, 5), LowBits(dcodes - 1, 5), LowBits(blcodes - 4, 4),
        OrderBits(bll, blcodes), LengthTokensBits(bll, ts, 0));
  }

  lemma CodeCounts()
    ensures L_CODES == 286 && D_CODES == 30
  {
  }

  lemma CodeParts(bll: seq<int>, ts: seq<Token>, n: nat)
    requires BitLengthCode(bll, ts, n)
    ensures |bll| == 19 && CodeLens(bll) && NotOver(bll) && Complete(bll)
        && (forall s :: 0 <= s < 19 ==> 0 <= bll[s] <= 7) && AllTokensOk(bll, ts) && 4 <= n <= 19
  {
    hide Space, TokenOk, RankOf;
  }

  lemma ReadyParts(l: seq<int>, d: seq<int>, bll: seq<int>, n: nat)
    requires HeaderReady(l, d, bll, n)
    ensures Guarded(l) && Guarded(d) && 258 <= |l| && BitLengthCode(bll, TreeTokens(l) + TreeTokens(d), n)
  {
    hide Guarded, BitLengthCode;
  }

  lemma HeaderParts(l: seq<int>, d: seq<int>, bll: seq<int>, n: nat)
    requires HeaderReady(l, d, bll, n)
    ensures |bll| == 19 && n <= 19 && (forall s :: 0 <= s < 19 ==> 0 <= bll[s]) && 4 <= n && 2 <= |d|
        && AllTokensOk(bll, TreeTokens(l) + TreeTokens(d))
    ensures HeaderBits(l, d, bll, n) == LowBits(|l| - 1 - 257, 5) + LowBits(|d| - 1 - 1, 5) + LowBits(n - 4, 4)
        + OrderBits(bll, n)
      + LengthTokensBits(bll, TreeTokens(l) + TreeTokens(d), 0)
  {
    hide LowBits, OrderBits, LengthTokensBits, TreeTokens, TokenOk, Complete, RankOf;
  }

  lemma HeaderRegroup(w: seq<bool>, a: seq<bool>, b: seq<bool>, c: seq<bool>, o: seq<bool>, t: seq<bool>)
    ensures w + a + b + c + o + t == w + (a + b + c + o + t)
  {
  }
}

/** The run coding of code lengths, section 3.2.7 of RFC 1951: scan_tree and send_tree of
    trees.c, and what the CODELENS state of inflate.c makes of their symbols. */
module LengthRuns {
  const REP_3_6: int := 16
  const REPZ_3_10: int := 17
  const REPZ_11_138: int := 18

  /** A symbol of the bit length tree and the value of its extra bits. */
  datatype Token = Token(sym: int, extra: int)

  /** How many extra bits a symbol has. */
  function ExtraBits(sym: int): nat {
    if sym == REP_3_6 then 2 else if sym == REPZ_3_10 then 3 else if sym == REPZ_11_138 then 7 else 0
  }

  /** The extra value fits its bits: below 1, 4, 8 or 128. */
  predicate Sendable(t: Token) {
    0 <= t.sym <= 18 && 0 <= t.extra < (if t.sym == REP_3_6 then 4 else if t.sym == REPZ_3_10 then 8
        else if t.sym == REPZ_11_138 then 128 else 1)
  }

  function Copies(x: int, n: nat): (s: seq<int>)
    ensures |s| == n && forall i :: 0 <= i < n ==> s[i] == x
  {
    seq(n, i => x)
  }

  // ---- decoding ----

  /** The lengths and the tokens after them, or what went wrong. */
  datatype Decoded = Lengths(lens: seq<int>, unread: seq<Token>) | BadRepeat | NeedMore

  datatype Accepted = More(lens: seq<int>) | Bad

  /** One token read after the lengths have, of which there will be total. */
  function Accept(have: seq<int>, t: Token, total: nat): Accepted {
    if t.sym < 16 then More(have + [t.sym])
    else if t.sym == REP_3_6 && have == [] then Bad
    else
      var len := if t.sym == REP_3_6 then have[|have| - 1] else 0;
      var copy := (if t.sym == REPZ_11_138 then 11 else 3) + t.extra;
      if copy < 0 || |have| + copy > total then Bad else More(have + Copies(len, copy))
  }

  /** All lengths, from as many tokens as they need. */
  function Expand(have: seq<int>, ts: seq<Token>, total: nat): Decoded
    decreases |ts|
  {
    if |have| >= total then Lengths(have, ts)
    else if ts == [] then NeedMore
    else match Accept(have, ts[0], total)
      case More(more) => Expand(more, ts[1..], total)
      case Bad => BadRepeat
  }

  /** The repeated lengths. */
  method FillLengths(lens: array<int>, have: nat, copy: nat, len: int)
    requires have + copy <= lens.Length
    modifies lens
    ensures forall i :: 0 <= i < lens.Length ==> lens[i] == if have <= i < have + copy then len else old(lens[i])
  {
    for i := 0 to copy
      invariant forall j :: 0 <= j < lens.Length ==> lens[j] == if have <= j < have + i then len else old(lens[j])
    {
      lens[have + i] := len;
    }
  }

  // ---- encoding ----

  /** Limits of the run whose length is next, after the length cur. */
  function MaxCount(cur: int, next: int): nat {
    if next == 0 then 138 else if cur == next then 6 else 7
  }

  function MinCount(cur: int, next: int): nat {
    if next == 0 then 3 else if cur == next then 3 else 4
  }

  /** What is sent for a finished run. */
  function RunTokens(cur: int, prev: int, count: nat, min: nat): seq<Token> {
    if count < min then seq(count, i => Token(cur, 0))
    else if cur != 0 then
      if cur != prev then [Token(cur, 0), Token(REP_3_6, count - 1 - 3)] else [Token(REP_3_6, count - 3)]
    else if count <= 10 then [Token(REPZ_3_10, count - 3)]
    else [Token(REPZ_11_138, count - 11)]
  }

  /** The tokens from position n on, when count lengths equal to l[n] are still unsent. */
  function TokensFrom(l: seq<int>, n: nat, prev: int, count: nat, max: nat, min: nat): seq<Token>
    requires n < |l|
    decreases |l| - n
  {
    if n == |l| - 1 then []
    else if count + 1 < max && l[n] == l[n + 1] then TokensFrom(l, n + 1, prev, count + 1, max, min)
    else RunTokens(l[n], prev, count + 1, min) + TokensFrom(l, n + 1, l[n], 0, MaxCount(l[n], l[n + 1]),
        MinCount(l[n], l[n + 1]))
  }

  /** The lengths of a tree followed by the guard. */
  function TreeTokens(l: seq<int>): seq<Token>
    requires l != []
  {
    TokensFrom(l, 0, -1, 0, MaxCount(-1, l[0]), MinCount(-1, l[0]))
  }

  /** Lengths of symbols, then a guard that is no length. */
  ghost predicate Guarded(l: seq<int>) {
    |l| >= 2 && l[|l| - 1] == 0xffff && forall i :: 0 <= i < |l| - 1 ==> 0 <= l[i] <= 15
  }

  /** The scan at position n: the last count lengths equal the next one and are unsent. */
  ghost predicate Scanning(l: seq<int>, n: nat, prev: int, count: nat, max: nat, min: nat) {
    && n < |l| && count <= n && (count > 0 ==> n < |l| - 1)
    && (forall i :: n - count <= i < n ==> l[i] == l[n])
    && prev == (if n == count then -1 else l[n - count - 1])
    && max == MaxCount(prev, l[n]) && min == MinCount(prev, l[n]) && count < max
  }

  lemma RunSendable(cur: int, prev: int, count: nat, max: nat, min: nat)
    requires 0 <= cur <= 15 && max == MaxCount(prev, cur) && min == MinCount(prev, cur) && 0 < count <= max
    ensures forall k :: 0 <= k < |RunTokens(cur, prev, count, min)| ==> Sendable(RunTokens(cur, prev, count, min)[k])
  {
  }

  /** Single lengths expand to themselves. */
  lemma {:induction false} ExpandSingles(have: seq<int>, cur: int, count: nat, rest: seq<Token>, total: nat)
    requires 0 <= cur <= 15 && |have| + count <= total
    ensures Expand(have, seq(count, i => Token(cur, 0)) + rest, total) == Expand(have + Copies(cur, count), rest, total)
    decreases count
  {
    var s := seq(count, i => Token(cur, 0));
    if count == 0 {
      assert s + rest == rest;
      assert have + Copies(cur, 0) == have;
    } else {
      ExpandSingles(have + [cur], cur, count - 1, rest, total);
      assert (s + rest)[0] == Token(cur, 0);
      assert (s + rest)[1..] == seq(count - 1, i => Token(cur, 0)) + rest;
      assert have + [cur] + Copies(cur, count - 1) == have + Copies(cur, count);
    }
  }

  lemma {:induction false} ExpandOne(have: seq<int>, t: Token, rest: seq<Token>, total: nat)
    requires |have| < total && Accept(have, t, total).More?
    ensures Expand(have, [t] + rest, total) == Expand(Accept(have, t, total).lens, rest, total)
  {
    assert ([t] + rest)[0] == t && ([t] + rest)[1..] == rest;
  }

  /** The tokens of a run expand to the run. */
  lemma {:induction false} ExpandRun(have: seq<int>, cur: int, prev: int, count: nat, max: nat, min: nat,
      rest: seq<Token>, total: nat)
    requires 0 <= cur <= 15 && max == MaxCount(prev, cur) && min == MinCount(prev, cur) && 0 < count <= max
    requires |have| + count <= total && (prev == cur ==> have != [] && have[|have| - 1] == cur)
    ensures Expand(have, RunTokens(cur, prev, count, min) + rest, total) ==
        Expand(have + Copies(cur, count), rest, total)
  {
    hide Expand;
    var ts := RunTokens(cur, prev, count, min);
    if count < min {
      ExpandSingles(have, cur, count, rest, total);
    } else if cur != 0 && cur != prev {
      assert ts + rest == [ts[0]] + ([ts[1]] + rest);
      ExpandOne(have, ts[0], [ts[1]] + rest, total);
      ExpandOne(have + [cur], ts[1], rest, total);
      assert have + [cur] + Copies(cur, count - 1) == have + Copies(cur, count);
    } else {
      ExpandOne(have, ts[0], rest, total);
    }
  }

  lemma {:induction false} ExpandFrom(l: seq<int>, n: nat, prev: int, count: nat, max: nat, min: nat, prefix: seq<int>,
      rest: seq<Token>, total: nat)
    requires Guarded(l) && Scanning(l, n, prev, count, max, min) && |prefix| + |l| - 1 <= total
    ensures Expand(prefix + l[..n - count], TokensFrom(l, n, prev, count, max, min) + rest, total) ==
        Expand(prefix + l[..|l| - 1], rest, total)
    decreases |l| - n
  {
    hide Expand, RunTokens;
    if n == |l| - 1 {
      assert [] + rest == rest;
    } else if count + 1 < max && l[n] == l[n + 1] {
      ExpandFrom(l, n + 1, prev, count + 1, max, min, prefix, rest, total);
    } else {
      var have := prefix + l[..n - count];
      var max1, min1 := MaxCount(l[n], l[n + 1]), MinCount(l[n], l[n + 1]);
      var later := TokensFrom(l, n + 1, l[n], 0, max1, min1);
      ExpandFrom(l, n + 1, l[n], 0, max1, min1, prefix, rest, total);
      ExpandRun(have, l[n], prev, count + 1, max, min, later + rest, total);
      assert have + Copies(l[n], count + 1) == prefix + l[..n + 1];
      assert RunTokens(l[n], prev, count + 1, min) + later + rest == RunTokens(l[n], prev, count + 1, min)
          + (later + rest);
    }
  }

  /** Decoding the tokens of a tree after any other lengths appends exactly its lengths. */
  lemma {:induction false} ExpandTree(l: seq<int>, prefix: seq<int>, rest: seq<Token>, total: nat)
    requires Guarded(l) && |prefix| + |l| - 1 <= total
    ensures Expand(prefix, TreeTokens(l) + rest, total) == Expand(prefix + l[..|l| - 1], rest, total)
  {
    hide Expand, TokensFrom;
    assert prefix + l[..0] == prefix;
    ExpandFrom(l, 0, -1, 0, MaxCount(-1, l[0]), MinCount(-1, l[0]), prefix, rest, total);
  }

  /** Both trees one after the other: the decoder, which does not know where the first ends,
      restores both and reads no further. */
  lemma {:induction false} TwoTrees(ltree: seq<int>, dtree: seq<int>, rest: seq<Token>)
    requires Guarded(ltree) && Guarded(dtree)
    ensures Expand([], TreeTokens(ltree) + TreeTokens(dtree) + rest, |ltree| - 1 + (|dtree| - 1)) ==
            Lengths(ltree[..|ltree| - 1] + dtree[..|dtree| - 1], rest)
  {
    hide TreeTokens;
    var total := |ltree| - 1 + (|dtree| - 1);
    assert TreeTokens(ltree) + TreeTokens(dtree) + rest == TreeTokens(ltree) + (TreeTokens(dtree) + rest);
    ExpandTree(ltree, [], TreeTokens(dtree) + rest, total);
    assert [] + ltree[..|ltree| - 1] == ltree[..|ltree| - 1];
    ExpandTree(dtree, ltree[..|ltree| - 1], rest, total);
  }

  /** Every token fits the symbols and extra bits it is sent with. */
  lemma {:induction false} AllSendable(l: seq<int>, n: nat, prev: int, count: nat, max: nat, min: nat)
    requires Guarded(l) && Scanning(l, n, prev, count, max, min)
    ensures forall k :: 0 <= k < |TokensFrom(l, n, prev, count, max, min)| ==>
      Sendable(TokensFrom(l, n, prev, count, max, min)[k])
    decreases |l| - n
  {
    hide RunTokens;
    if n == |l| - 1 {
    } else if count + 1 < max && l[n] == l[n + 1] {
      AllSendable(l, n + 1, prev, count + 1, max, min);
    } else {
      RunSendable(l[n], prev, count + 1, max, min);
      AllSendable(l, n + 1, l[n], 0, MaxCount(l[n], l[n + 1]), MinCount(l[n], l[n + 1]));
    }
  }

  lemma {:induction false} TreeSendable(l: seq<int>)
    requires Guarded(l)
    ensures forall k :: 0 <= k < |TreeTokens(l)| ==> Sendable(TreeTokens(l)[k])
  {
    AllSendable(l, 0, -1, 0, MaxCount(-1, l[0]), MinCount(-1, l[0]));
  }

  // ---- the two passes over a tree ----

  /** Tokens with symbol s. */
  function Uses(ts: seq<Token>, s: int): nat {
    if ts == [] then 0 else Uses(ts[..|ts| - 1], s) + if ts[|ts| - 1].sym == s then 1 else 0
  }

  lemma {:induction false} UsesJoined(a: seq<Token>, b: seq<Token>, s: int)
    ensures Uses(a + b, s) == Uses(a, s) + Uses(b, s)
    decreases |b|
  {
    if b == [] {
      assert a + b == a;
    } else {
      UsesJoined(a, b[..|b| - 1], s);
      assert (a + b)[..|a + b| - 1] == a + b[..|b| - 1];
    }
  }

  lemma {:induction false} UsesSingles(cur: int, count: nat, s: int)
    ensures Uses(seq(count, i => Token(cur, 0)), s) == if s == cur then count else 0
  {
    if count > 0 {
      UsesSingles(cur, count - 1, s);
      assert seq(count, i => Token(cur, 0))[..count - 1] == seq(count - 1, i => Token(cur, 0));
    }
  }

  lemma {:induction false} UsesRun(cur: int, prev: int, count: nat, min: nat, s: int)
    requires 0 < count && min >= 3
    ensures Uses(RunTokens(cur, prev, count, min), s) ==
            if count < min then (if s == cur then count else 0)
            else if cur != 0 then (if s == cur && cur != prev then 1 else 0) + (if s == REP_3_6 then 1 else 0)
            else if count <= 10 then (if s == REPZ_3_10 then 1 else 0)
            else if s == REPZ_11_138 then 1 else 0
  {
    var ts := RunTokens(cur, prev, count, min);
    if count < min {
      UsesSingles(cur, count, s);
    } else if cur != 0 && cur != prev {
      assert ts[..1] == [ts[0]] && [ts[0]][..0] == [];
      assert Uses([ts[0]], s) == if s == cur then 1 else 0;
    } else {
      assert ts[..0] == [];
    }
  }

  /** The frequencies when all but the tokens to come are counted. */
  ghost predicate Counting(freq: seq<int>, freq0: seq<int>, all: seq<Token>, later: seq<Token>) {
    |freq| == |freq0| && |freq| >= 19 && forall s :: 0 <= s < 19 ==> freq[s] + Uses(later, s) == freq0[s] + Uses(all, s)
  }

  /** One finished run in scan_tree. */
  method CountRun(freq: array<int>, curlen: int, prevlen: int, count: nat, min: nat, ghost freq0: seq<int>,
      ghost all: seq<Token>, ghost later: seq<Token>)
    requires freq.Length >= 19 && 0 <= curlen <= 15 && 0 < count && min >= 3
    requires Counting(freq[..], freq0, all, RunTokens(curlen, prevlen, count, min) + later)
    modifies freq
    ensures Counting(freq[..], freq0, all, later) && forall x :: 19 <= x < freq.Length ==> freq[x] == old(freq[x])
  {
    hide RunTokens, Uses;
    ghost var before := freq[..];
    if count < min {
      freq[curlen] := freq[curlen] + count;
    } else if curlen != 0 {
      if curlen != prevlen { freq[curlen] := freq[curlen] + 1; }
      freq[REP_3_6] := freq[REP_3_6] + 1;
    } else if count <= 10 {
      freq[REPZ_3_10] := freq[REPZ_3_10] + 1;
    } else {
      freq[REPZ_11_138] := freq[REPZ_11_138] + 1;
    }
    forall s | 0 <= s < 19 ensures freq[s] + Uses(later, s) == freq0[s] + Uses(all, s) {
      UsesJoined(RunTokens(curlen, prevlen, count, min), later, s);
      UsesRun(curlen, prevlen, count, min, s);
      assert before[s] + Uses(RunTokens(curlen, prevlen, count, min) + later, s) == freq0[s] + Uses(all, s);
    }
  }

  /** scan_tree: sets the guard and adds to each frequency exactly the tokens that send_tree
      will send with that symbol. */
  method ScanTree(tree: array<int>, maxCode: nat, freq: array<int>)
    requires tree != freq && maxCode + 1 < tree.Length && freq.Length >= 19
    requires forall i :: 0 <= i <= maxCode ==> 0 <= tree[i] <= 15
    modifies tree, freq
    ensures Guarded(tree[..maxCode + 2]) && tree[..maxCode + 1] == old(tree[..maxCode + 1])
    ensures forall i :: maxCode + 2 <= i < tree.Length ==> tree[i] == old(tree[i])
    ensures forall s :: 0 <= s < 19 ==> freq[s] == old(freq[s]) + Uses(TreeTokens(tree[..maxCode + 2]), s)
    ensures forall x :: 19 <= x < freq.Length ==> freq[x] == old(freq[x])
  {
    hide RunTokens, Uses, Counting;
    var prevlen, nextlen, count := -1, tree[0], 0;
    var maxCount, minCount := 7, 4;
    if nextlen == 0 { maxCount, minCount := 138, 3; }
    tree[maxCode + 1] := 0xffff;
    ghost var l, freq0 := tree[..maxCode + 2], freq[..];
    ghost var all := TreeTokens(l);
    CountingStart(freq0, all);
    var n := 0;
    while n <= maxCode
      modifies freq
      invariant n <= maxCode + 1 && nextlen == l[n] && Scanning(l, n, prevlen, count, maxCount, minCount)
      invariant Counting(freq[..], freq0, all, TokensFrom(l, n, prevlen, count, maxCount, minCount))
      invariant forall x :: 19 <= x < freq.Length ==> freq[x] == old(freq[x])
    {
      var curlen := nextlen;
      nextlen := tree[n + 1];
      assert nextlen == l[n + 1];
      count := count + 1;
      n := n + 1;
      if count < maxCount && curlen == nextlen {
        continue;
      }
      CountRun(freq, curlen, prevlen, count, minCount, freq0, all,
               TokensFrom(l, n, curlen, 0, MaxCount(curlen, nextlen), MinCount(curlen, nextlen)));
      count, prevlen := 0, curlen;
      maxCount, minCount := NextLimits(curlen, nextlen);
    }
    CountingEnd(freq[..], freq0, all);
    assert tree[..maxCode + 2] == l;
    assert forall s :: 0 <= s < 19 ==> freq0[s] == old(freq[s]);
  }

  method NextLimits(curlen: int, nextlen: int) returns (maxCount: nat, minCount: nat)
    ensures maxCount == MaxCount(curlen, nextlen) && minCount == MinCount(curlen, nextlen)
  {
    if nextlen == 0 {
      maxCount, minCount := 138, 3;
    } else if curlen == nextlen {
      maxCount, minCount := 6, 3;
    } else {
      maxCount, minCount := 7, 4;
    }
  }

  lemma CountingStart(freq0: seq<int>, all: seq<Token>)
    requires |freq0| >= 19
    ensures Counting(freq0, freq0, all, all)
  {
  }

  lemma CountingEnd(freq: seq<int>, freq0: seq<int>, all: seq<Token>)
    requires Counting(freq, freq0, all, [])
    ensures |freq| == |freq0| && |freq| >= 19 && forall s :: 0 <= s < 19 ==> freq[s] == freq0[s] + Uses(all, s)
  {
    assert forall s :: Uses([], s) == 0;
  }

  /** One finished run in send_tree, token by token. */
  method SendRun(out: seq<Token>, curlen: int, prevlen: int, count0: nat, min: nat) returns (more: seq<Token>)
    requires 0 < count0 && (curlen != 0 ==> count0 >= min ==> (count0 >= 3 && (curlen != prevlen ==> count0 >= 4)))
    ensures more == out + RunTokens(curlen, prevlen, count0, min)
  {
    var count: int := count0;
    more := out;
    if count < min {
      while count != 0
        invariant 0 <= count <= count0 && more == out + seq(count0 - count, i => Token(curlen, 0))
      {
        more := more + [Token(curlen, 0)];
        count := count - 1;
      }
    } else if curlen != 0 {
      if curlen != prevlen {
        more := more + [Token(curlen, 0)];
        count := count - 1;
      }
      more := more + [Token(REP_3_6, count - 3)];
    } else if count <= 10 {
      more := more + [Token(REPZ_3_10, count - 3)];
    } else {
      more := more + [Token(REPZ_11_138, count - 11)];
    }
  }

  /** send_tree */
  method SendTree(tree: array<int>, maxCode: nat) returns (out: seq<Token>)
    requires maxCode + 1 < tree.Length && Guarded(tree[..maxCode + 2])
    ensures out == TreeTokens(tree[..maxCode + 2])
  {
    hide RunTokens;
    ghost var l := tree[..maxCode + 2];
    var prevlen, nextlen, count := -1, tree[0], 0;
    var maxCount, minCount := 7, 4;
    if nextlen == 0 { maxCount, minCount := 138, 3; }
    out := [];
    assert [] + TreeTokens(l) == TreeTokens(l);
    var n := 0;
    while n <= maxCode
      invariant n <= maxCode + 1 && nextlen == l[n] && Scanning(l, n, prevlen, count, maxCount, minCount)
      invariant out + TokensFrom(l, n, prevlen, count, maxCount, minCount) == TreeTokens(l)
    {
      var curlen := nextlen;
      nextlen := tree[n + 1];
      assert nextlen == l[n + 1];
      count := count + 1;
      n := n + 1;
      if count < maxCount && curlen == nextlen {
        continue;
      }
      ghost var run := RunTokens(curlen, prevlen, count, minCount);
      ghost var later := TokensFrom(l, n, curlen, 0, MaxCount(curlen, nextlen), MinCount(curlen, nextlen));
      assert out + (run + later) == out + run + later;
      out := SendRun(out, curlen, prevlen, count, minCount);
      count, prevlen := 0, curlen;
      maxCount, minCount := NextLimits(curlen, nextlen);
    }
    assert out + [] == out;
  }
}

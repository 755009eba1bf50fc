/** longest_match of deflate.c. */
module LongestMatch {
  import opened Bytes
  import opened HashChains

  const MIN_MATCH: int := 3
  const MAX_MATCH: int := 258
  const MIN_LOOKAHEAD: int := 262

  function MaxDist(wSize: int): int { wSize - MIN_LOOKAHEAD }

  /** n bytes from position p repeat at position q. */
  ghost predicate Repeats(w: seq<Byte>, p: int, q: int, n: int) {
    0 <= p < q && q + n <= |w| && forall j :: q <= j < q + n ==> w[j] == w[j - (q - p)]
  }

  /** The level's parameters. */
  datatype Config = Config(goodMatch: int, maxLazy: int, niceMatch: int, maxChain: int)

  ghost predicate ValidConfig(c: Config) {
    c.maxLazy >= MIN_MATCH && 4 <= c.maxChain <= 4096 && 0 <= c.niceMatch <= MAX_MATCH && 0 <= c.goodMatch
  }

  /** There the bytes do not repeat further than n, or not further than any match may go. */
  ghost predicate NoLonger(w: seq<Byte>, p: int, q: int, n: int) {
    n >= MAX_MATCH || !Repeats(w, p, q, n + 1)
  }

  ghost predicate NoneLonger(w: seq<Byte>, ps: set<int>, q: int, n: int) {
    forall p :: p in ps ==> NoLonger(w, p, q, n)
  }

  /** The comparison loop, from the fourth byte on, up to the first byte that differs; it may look
      one byte beyond the longest match, and beyond the data, but never beyond the window. */
  method Compare(window: array<Byte>, curMatch: int, strstart: int) returns (len: int)
    requires 0 <= curMatch < strstart && strstart + MAX_MATCH < window.Length
        && Repeats(window[..], curMatch, strstart, 3)
    ensures 3 <= len <= MAX_MATCH && Repeats(window[..], curMatch, strstart, len)
    ensures NoLonger(window[..], curMatch, strstart, len)
  {
    len := 2;
    while true
      invariant 2 <= len < MAX_MATCH && Repeats(window[..], curMatch, strstart, len + 1)
      decreases MAX_MATCH - len
    {
      len := len + 1;
      if window[strstart + len] != window[curMatch + len] {
        Differs(window[..], curMatch, strstart, len);
        break;
      }
      if len >= MAX_MATCH { break; }
    }
  }

  /** A byte that differs ends every match. */
  lemma Differs(w: seq<Byte>, p: int, q: int, n: int)
    requires 0 <= p < q && 0 <= n && (q + n < |w| ==> w[p + n] != w[q + n])
    ensures NoLonger(w, p, q, n)
  {
    if q + n < |w| { assert w[q + n - (q - p)] == w[p + n]; }
  }

  lemma NoLongerThan(w: seq<Byte>, p: int, q: int, n: int, k: int)
    requires NoLonger(w, p, q, n) && n <= k
    ensures NoLonger(w, p, q, k)
  {
  }

  lemma NoneLongerThan(w: seq<Byte>, ps: set<int>, q: int, n: int, k: int)
    requires NoneLonger(w, ps, q, n) && n <= k
    ensures NoneLonger(w, ps, q, k)
  {
    hide NoLonger;
    forall p | p in ps ensures NoLonger(w, p, q, k) { NoLongerThan(w, p, q, n, k); }
  }

  /** A position on the chain of strstart, not too far away. */
  ghost predicate Candidate(bits: nat, w: seq<Byte>, ins: set<int>, wSize: int, strstart: int, p: int) {
    && p in ins && 0 < p < strstart && strstart - p <= MaxDist(wSize) && strstart + 2 < |w|
    && KeyAt(bits, w, p) == KeyAt(bits, w, strstart)
  }

  /** Equal first bytes on one chain: the third byte is equal too. */
  lemma ThreeRepeat(bits: nat, w: seq<Byte>, ins: set<int>, wSize: int, strstart: int, p: int)
    requires Candidate(bits, w, ins, wSize, strstart, p) && w[p] == w[strstart] && w[p + 1] == w[strstart + 1]
        && bits >= 8
    ensures Repeats(w, p, strstart, 3)
  {
    hide Hash3;
    IndexInjective(bits, Hash3(bits, w[p], w[p + 1], w[p + 2]),
        Hash3(bits, w[strstart], w[strstart + 1], w[strstart + 2]));
    ThirdByte(bits, w[p], w[p + 1], w[p + 2], w[strstart + 2]);
  }

  // ---- the search ----

  /** The positions with the key of q that were filed after p and not after c. */
  ghost function Nearer(bits: nat, w: seq<Byte>, ins: set<int>, q: int, p: int, c: int): set<int>
    requires InData(w, ins) && 0 <= q && q + 2 < |w|
  {
    set r | r in ins && p < r <= c && KeyAt(bits, w, r) == KeyAt(bits, w, q)
  }

  /** Where a search may look that begins at c: at c, and at so many of the positions with the same
      key before it, the nearest first, down to the limit. */
  ghost function Reachable(bits: nat, w: seq<Byte>, ins: set<int>, q: int, c: int, limit: int, chain: int): set<int>
    requires InData(w, ins) && 0 <= q && q + 2 < |w|
  {
    set p | p in ins && p <= c && (p == c || p > limit) && KeyAt(bits, w, p) == KeyAt(bits, w, q)
      && |Nearer(bits, w, ins, q, p, c)| < chain
  }

  /** The least position that may be looked at is one above. */
  function Limit(wSize: int, strstart: int): int {
    if strstart > MaxDist(wSize) then strstart - MaxDist(wSize) else 0
  }

  /** How many positions may be looked at. */
  function ChainLength(config: Config, prevLength: int): int {
    if prevLength >= config.goodMatch then config.maxChain / 4 else config.maxChain
  }

  /** A match that is long enough to stop at. */
  function Nice(config: Config, lookahead: int): int {
    if config.niceMatch > lookahead then lookahead else config.niceMatch
  }

  /** All the positions where longest_match may look. */
  ghost function Searched(bits: nat, w: seq<Byte>, ins: set<int>, wSize: int, strstart: int, prevLength: int,
      config: Config, curMatch0: int): set<int>
    requires InData(w, ins) && 0 <= strstart && strstart + 2 < |w|
  {
    Reachable(bits, w, ins, strstart, curMatch0, Limit(wSize, strstart), ChainLength(config, prevLength))
  }

  /** What the search has found: a longer match within reach. */
  ghost predicate Found(w: seq<Byte>, wSize: int, strstart: int, matchStart: int, len: int) {
    0 < matchStart && strstart - matchStart <= MaxDist(wSize) && Repeats(w, matchStart, strstart, len)
  }

  /** The best match: it begins where the search may look, and no position nearer to strstart has one
      as long; there is none longer unless it is long enough. */
  ghost predicate Best(bits: nat, w: seq<Byte>, ins: set<int>, wSize: int, strstart: int, prevLength: int,
      config: Config, curMatch0: int, len: int, matchStart: int)
    requires InData(w, ins) && 0 <= strstart && strstart + 2 < |w|
  {
    var ps := Searched(bits, w, ins, wSize, strstart, prevLength, config, curMatch0);
    && (len > prevLength ==>
          (matchStart in ps
           && NoneLonger(w, Nearer(bits, w, ins, strstart, matchStart, curMatch0), strstart, len - 1)))
    && ((len > prevLength && len >= Nice(config, |w| - strstart)) || NoneLonger(w, ps, strstart, len))
  }

  /** The next position on the chain, if it is not beyond the limit: with the one before it are all
      that are nearer. */
  lemma {:induction false} NextCandidate(bits: nat, w: seq<Byte>, head: seq<int>, prev: seq<int>, ins: set<int>,
      wSize: nat, strstart: int, p: int, c: int)
    requires Chains(bits, w, head, prev, ins, wSize, strstart) && Candidate(bits, w, ins, wSize, strstart, p) && p <= c
    ensures 0 <= p % wSize < |prev| && var q := prev[p % wSize]; q <= p - 1
    ensures var q := prev[p % wSize];
      q > 0 && strstart - q <= MaxDist(wSize) ==> Candidate(bits, w, ins, wSize, strstart, q)
    ensures InData(w, ins) && p !in Nearer(bits, w, ins, strstart, p, c)
    ensures Nearer(bits, w, ins, strstart, prev[p % wSize], c) == Nearer(bits, w, ins, strstart, p, c) + {p}
  {
    hide KeyAt;
    InRangeSlot(p, wSize);
    assert LinkOk(bits, w, prev, ins, wSize, p);
  }

  /** A search that has come to the limit, or that may look at no more positions, has looked
      at all. */
  lemma {:induction false} AllSeen(bits: nat, w: seq<Byte>, ins: set<int>, q: int, c: int, limit: int, chain: int,
      p: int)
    requires InData(w, ins) && 0 <= q && q + 2 < |w| && p < c
    requires p <= limit || |Nearer(bits, w, ins, q, p, c)| >= chain
    ensures Reachable(bits, w, ins, q, c, limit, chain) <= Nearer(bits, w, ins, q, p, c)
  {
    hide KeyAt, Nearer;
    forall r | r in Reachable(bits, w, ins, q, c, limit, chain) ensures r in Nearer(bits, w, ins, q, p, c) {
      if r <= p { Wider(bits, w, ins, q, r, p, c); }
      IsNearer(bits, w, ins, q, p, c, r);
    }
  }

  lemma {:induction false} Wider(bits: nat, w: seq<Byte>, ins: set<int>, q: int, r: int, p: int, c: int)
    requires InData(w, ins) && 0 <= q && q + 2 < |w| && r <= p
    ensures |Nearer(bits, w, ins, q, p, c)| <= |Nearer(bits, w, ins, q, r, c)|
  {
    hide KeyAt;
    var a, b := Nearer(bits, w, ins, q, p, c), Nearer(bits, w, ins, q, r, c);
    assert b == a + (b - a);
  }

  lemma IsNearer(bits: nat, w: seq<Byte>, ins: set<int>, q: int, p: int, c: int, r: int)
    requires InData(w, ins) && 0 <= q && q + 2 < |w|
    ensures r in Nearer(bits, w, ins, q, p, c) <==>
            r in ins && p < r <= c && KeyAt(bits, w, r) == KeyAt(bits, w, q)
  {
    hide KeyAt;
  }

  /** The state of the search before it looks at curMatch. */
  ghost predicate Searching(bits: nat, w: seq<Byte>, ins: set<int>, strstart: int, prevLength: int, nice: int, c: int,
      curMatch: int, seen: int, bestLen: int, matchStart: int, ps: set<int>)
    requires InData(w, ins) && 0 <= strstart && strstart + 2 < |w|
  {
    && curMatch <= c && |Nearer(bits, w, ins, strstart, curMatch, c)| == seen
    && NoneLonger(w, Nearer(bits, w, ins, strstart, curMatch, c), strstart, bestLen)
    && prevLength <= bestLen && (bestLen == prevLength || bestLen < nice)
    && (bestLen > prevLength ==>
          (matchStart in ps && NoneLonger(w, Nearer(bits, w, ins, strstart, matchStart, c), strstart, bestLen - 1)))
  }

  lemma {:induction false} SearchBegins(bits: nat, w: seq<Byte>, ins: set<int>, strstart: int, prevLength: int,
      nice: int, c: int, matchStart: int, ps: set<int>)
    requires InData(w, ins) && 0 <= strstart && strstart + 2 < |w|
    ensures Searching(bits, w, ins, strstart, prevLength, nice, c, c, 0, prevLength, matchStart, ps)
  {
    hide KeyAt;
    assert Nearer(bits, w, ins, strstart, c, c) == {};
  }

  /** A better match at curMatch. */
  lemma {:induction false} Better(bits: nat, w: seq<Byte>, ins: set<int>, strstart: int, prevLength: int, nice: int,
      c: int, curMatch: int, seen: int, bestLen: int, matchStart: int, ps: set<int>, n: int)
    requires InData(w, ins) && 0 <= strstart && strstart + 2 < |w|
    requires Searching(bits, w, ins, strstart, prevLength, nice, c, curMatch, seen, bestLen, matchStart, ps)
    requires bestLen < n < nice && curMatch in ps
    ensures Searching(bits, w, ins, strstart, prevLength, nice, c, curMatch, seen, n, curMatch, ps)
  {
    hide KeyAt, Nearer, NoneLonger;
    var near := Nearer(bits, w, ins, strstart, curMatch, c);
    NoneLongerThan(w, near, strstart, bestLen, n - 1);
    NoneLongerThan(w, near, strstart, bestLen, n);
  }

  /** Nothing better at curMatch than what is known: the next position. */
  lemma {:induction false} NoBetter(bits: nat, w: seq<Byte>, ins: set<int>, strstart: int, prevLength: int, nice: int,
      c: int, curMatch: int, seen: int, bestLen: int, matchStart: int, ps: set<int>, q: int)
    requires InData(w, ins) && 0 <= strstart && strstart + 2 < |w| && q < curMatch
    requires Searching(bits, w, ins, strstart, prevLength, nice, c, curMatch, seen, bestLen, matchStart, ps)
    requires NoLonger(w, curMatch, strstart, bestLen) && curMatch !in Nearer(bits, w, ins, strstart, curMatch, c)
    requires Nearer(bits, w, ins, strstart, q, c) == Nearer(bits, w, ins, strstart, curMatch, c) + {curMatch}
    ensures Searching(bits, w, ins, strstart, prevLength, nice, c, q, seen + 1, bestLen, matchStart, ps)
  {
    hide KeyAt, Nearer, NoLonger;
  }

  lemma {:induction false} GoesOn(bits: nat, w: seq<Byte>, head: seq<int>, prev: seq<int>, ins: set<int>, wSize: nat,
      strstart: int, prevLength: int, nice: int, c: int, curMatch: int, seen: int, bestLen: int, matchStart: int,
      ps: set<int>)
    returns (q: int)
    requires Chains(bits, w, head, prev, ins, wSize, strstart) && Candidate(bits, w, ins, wSize, strstart, curMatch)
    requires InData(w, ins) && 0 <= strstart && strstart + 2 < |w|
    requires Searching(bits, w, ins, strstart, prevLength, nice, c, curMatch, seen, bestLen, matchStart, ps)
    requires NoLonger(w, curMatch, strstart, bestLen)
    ensures 0 <= curMatch % wSize < |prev| && q == prev[curMatch % wSize] && q < curMatch
    ensures q > 0 && strstart - q <= MaxDist(wSize) ==> Candidate(bits, w, ins, wSize, strstart, q)
    ensures Searching(bits, w, ins, strstart, prevLength, nice, c, q, seen + 1, bestLen, matchStart, ps)
  {
    hide *;
    ChainSize(bits, w, head, prev, ins, wSize, strstart);
    SearchingParts(bits, w, ins, strstart, prevLength, nice, c, curMatch, seen, bestLen, matchStart, ps);
    NextCandidate(bits, w, head, prev, ins, wSize, strstart, curMatch, c);
    q := prev[curMatch % wSize];
    NoBetter(bits, w, ins, strstart, prevLength, nice, c, curMatch, seen, bestLen, matchStart, ps, q);
  }

  /** Beyond the data nothing repeats. */
  lemma {:induction false} NoneBeyond(w: seq<Byte>, ps: set<int>, q: int)
    ensures NoneLonger(w, ps, q, |w| - q)
  {
  }

  /** A match to stop at. */
  lemma {:induction false} StopsNice(bits: nat, w: seq<Byte>, ins: set<int>, wSize: int, strstart: int,
      prevLength: int, config: Config, c: int, curMatch: int, seen: int, bestLen: int, matchStart: int, n: int,
      len: int)
    requires InData(w, ins) && 0 <= strstart && strstart + 2 < |w|
    requires var ps := Searched(bits, w, ins, wSize, strstart, prevLength, config, c);
      Searching(bits, w, ins, strstart, prevLength, Nice(config, |w| - strstart), c, curMatch, seen, bestLen,
          matchStart, ps)
    requires curMatch in Searched(bits, w, ins, wSize, strstart, prevLength, config, c)
    requires bestLen < n && n >= Nice(config, |w| - strstart)
        && len == if n <= |w| - strstart then n else |w| - strstart
    ensures Best(bits, w, ins, wSize, strstart, prevLength, config, c, len, curMatch)
  {
    hide KeyAt, Nearer, NoneLonger, Searched;
    var near := Nearer(bits, w, ins, strstart, curMatch, c);
    if len > prevLength {
      NoneLongerThan(w, near, strstart, bestLen, len - 1);
    } else {
      NoneBeyond(w, Searched(bits, w, ins, wSize, strstart, prevLength, config, c), strstart);
    }
  }

  /** The search is over: all positions are looked at. */
  lemma {:induction false} SearchEnds(bits: nat, w: seq<Byte>, ins: set<int>, wSize: int, strstart: int,
      prevLength: int, config: Config, c: int, q: int, seen: int, bestLen: int, matchStart: int, len: int)
    requires InData(w, ins) && 0 <= strstart && strstart + 2 < |w| && q < c
    requires var ps := Searched(bits, w, ins, wSize, strstart, prevLength, config, c);
      Searching(bits, w, ins, strstart, prevLength, Nice(config, |w| - strstart), c, q, seen, bestLen, matchStart, ps)
    requires q <= Limit(wSize, strstart) || seen >= ChainLength(config, prevLength)
    requires len == if bestLen <= |w| - strstart then bestLen else |w| - strstart
    ensures Best(bits, w, ins, wSize, strstart, prevLength, config, c, len, matchStart)
  {
    hide KeyAt, Nearer, NoLonger, Reachable, Limit, ChainLength;
    AllSeen(bits, w, ins, strstart, c, Limit(wSize, strstart), ChainLength(config, prevLength), q);
    NoneBeyond(w, Searched(bits, w, ins, wSize, strstart, prevLength, config, c), strstart);
  }

  lemma {:induction false} IsSearched(bits: nat, w: seq<Byte>, ins: set<int>, wSize: int, strstart: int,
      prevLength: int, config: Config, c: int, p: int)
    requires InData(w, ins) && Candidate(bits, w, ins, wSize, strstart, p) && p <= c
    requires p == c || p > Limit(wSize, strstart)
    requires |Nearer(bits, w, ins, strstart, p, c)| < ChainLength(config, prevLength)
    ensures p in Searched(bits, w, ins, wSize, strstart, prevLength, config, c)
  {
    hide KeyAt, Nearer, Limit, ChainLength;
  }

  lemma Parameters(config: Config, wSize: int, strstart: int, lookahead: int, prevLength: int)
    requires ValidConfig(config)
    ensures MIN_LOOKAHEAD == 262 && MAX_MATCH == 258 && MaxDist(wSize) == wSize - 262
    ensures Limit(wSize, strstart) == if strstart > MaxDist(wSize) then strstart - MaxDist(wSize) else 0
    ensures 0 < ChainLength(config, prevLength) ==
              if prevLength >= config.goodMatch then config.maxChain / 4 else config.maxChain
    ensures Nice(config, lookahead) == if config.niceMatch > lookahead then lookahead else config.niceMatch
  {
  }

  /** One look at a position: how far the bytes repeat there, if further than bestLen. */
  method Look(bits: nat, window: array<Byte>, wSize: nat, strstart: nat, lookahead: nat, curMatch: int, bestLen: int,
      scanEnd1: Byte, scanEnd: Byte, ghost ins: set<int>)
    returns (n: int)
    requires strstart + MIN_LOOKAHEAD <= window.Length && strstart + lookahead <= window.Length
    requires Candidate(bits, window[..strstart + lookahead], ins, wSize, strstart, curMatch) && bits >= 8
    requires 1 <= bestLen <= MAX_MATCH && 0 < curMatch < strstart
    requires scanEnd1 == window[strstart + bestLen - 1] && scanEnd == window[strstart + bestLen]
    ensures n <= MAX_MATCH && (n > bestLen ==> Repeats(window[..], curMatch, strstart, n))
    ensures NoLonger(window[..strstart + lookahead], curMatch, strstart, if n > bestLen then n else bestLen)
  {
    hide Candidate, Repeats, NoLonger;
    ghost var w := window[..strstart + lookahead];
    n := 0;
    if window[curMatch + bestLen] == scanEnd && window[curMatch + bestLen - 1] == scanEnd1
      && window[curMatch] == window[strstart] && window[curMatch + 1] == window[strstart + 1]
    {
      CandidateParts(bits, w, ins, wSize, strstart, curMatch);
      assert w[curMatch] == w[strstart] && w[curMatch + 1] == w[strstart + 1];
      ThreeRepeat(bits, w, ins, wSize, strstart, curMatch);
      RepeatsInAll(w, window[..], curMatch, strstart, 3);
      n := Compare(window, curMatch, strstart);
      NoLongerThan(window[..], curMatch, strstart, n, if n > bestLen then n else bestLen);
      NoLongerHere(w, window[..], curMatch, strstart, if n > bestLen then n else bestLen);
    } else {
      DiffersAt(window[..], curMatch, strstart, bestLen);
      NoLongerHere(w, window[..], curMatch, strstart, bestLen);
    }
  }

  lemma NoLongerHere(w: seq<Byte>, all: seq<Byte>, p: int, q: int, n: int)
    requires NoLonger(all, p, q, n) && w <= all
    ensures NoLonger(w, p, q, n)
  {
    if Repeats(w, p, q, n + 1) { RepeatsInAll(w, all, p, q, n + 1); }
  }

  lemma DiffersAt(w: seq<Byte>, p: int, q: int, n: int)
    requires 0 <= p < q && 1 <= n && q + n < |w|
    requires w[p + n] != w[q + n] || w[p + n - 1] != w[q + n - 1] || w[p] != w[q] || w[p + 1] != w[q + 1]
    ensures NoLonger(w, p, q, n)
  {
    assert w[q + n - (q - p)] == w[p + n] && w[q + n - 1 - (q - p)] == w[p + n - 1];
    assert w[q - (q - p)] == w[p] && w[q + 1 - (q - p)] == w[p + 1];
  }

  /** longest_match: the result is not greater than the lookahead; a result greater than prevLength
      is a match of that length at matchStart; and it is the best one. */
  method Longest(bits: nat, window: array<Byte>, prev: array<int>, wSize: nat, strstart: nat, lookahead: nat,
      prevLength: int, config: Config, curMatch0: int, matchStart0: int, ghost head: seq<int>, ghost ins: set<int>)
    returns (len: int, matchStart: int)
    requires ValidConfig(config) && 1 <= prevLength <= MAX_MATCH && MIN_MATCH <= lookahead && 512 <= wSize && bits >= 8
    requires strstart + MIN_LOOKAHEAD <= window.Length && strstart + lookahead <= window.Length
    requires Chains(bits, window[..strstart + lookahead], head, prev[..], ins, wSize, strstart)
    requires Candidate(bits, window[..strstart + lookahead], ins, wSize, strstart, curMatch0)
    ensures 0 <= len <= lookahead && len <= MAX_MATCH
        && (len > prevLength ==> Found(window[..], wSize, strstart, matchStart, len))
    ensures len >= prevLength || len == lookahead
    ensures InData(window[..strstart + lookahead], ins) && Best(bits, window[..strstart + lookahead], ins, wSize,
        strstart, prevLength, config, curMatch0, len, matchStart)
  {
    hide *;
    ghost var w := window[..strstart + lookahead];
    ChainSize(bits, w, head, prev[..], ins, wSize, strstart);
    CandidateParts(bits, w, ins, wSize, strstart, curMatch0);
    Parameters(config, wSize, strstart, lookahead, prevLength);
    var chain, bestLen, nice, curMatch := config.maxChain, prevLength, config.niceMatch, curMatch0;
    matchStart := matchStart0;
    var limit := if strstart > MaxDist(wSize) then strstart - MaxDist(wSize) else 0;
    if prevLength >= config.goodMatch { chain := chain / 4; }
    if nice > lookahead { nice := lookahead; }
    var scanEnd1, scanEnd := window[strstart + bestLen - 1], window[strstart + bestLen];
    ghost var chain0, seen, ps := chain, 0, Searched(bits, w, ins, wSize, strstart, prevLength, config, curMatch0);
    SearchBegins(bits, w, ins, strstart, prevLength, nice, curMatch0, matchStart, ps);
    while true
      invariant Candidate(bits, w, ins, wSize, strstart, curMatch) && prevLength <= bestLen <= MAX_MATCH
      invariant bestLen > prevLength ==> Found(window[..], wSize, strstart, matchStart, bestLen)
      invariant Searching(bits, w, ins, strstart, prevLength, nice, curMatch0, curMatch, seen, bestLen, matchStart, ps)
      invariant 0 < chain == chain0 - seen && (curMatch == curMatch0 || curMatch > limit)
      invariant scanEnd1 == window[strstart + bestLen - 1] && scanEnd == window[strstart + bestLen]
      decreases curMatch
    {
      CandidateParts(bits, w, ins, wSize, strstart, curMatch);
      SearchingParts(bits, w, ins, strstart, prevLength, nice, curMatch0, curMatch, seen, bestLen, matchStart, ps);
      var n := Look(bits, window, wSize, strstart, lookahead, curMatch, bestLen, scanEnd1, scanEnd, ins);
      if n > bestLen {
        IsSearched(bits, w, ins, wSize, strstart, prevLength, config, curMatch0, curMatch);
        ghost var was, start := bestLen, matchStart;
        FoundAt(window[..], wSize, strstart, curMatch, n);
        matchStart, bestLen := curMatch, n;
        if n >= nice {
          StopsNice(bits, w, ins, wSize, strstart, prevLength, config, curMatch0, curMatch, seen, was, start, n,
              if n <= lookahead then n else lookahead);
          break;
        }
        Better(bits, w, ins, strstart, prevLength, nice, curMatch0, curMatch, seen, was, start, ps, n);
        scanEnd1, scanEnd := window[strstart + bestLen - 1], window[strstart + bestLen];
      }
      ghost var q := GoesOn(bits, w, head, prev[..], ins, wSize, strstart, prevLength, nice, curMatch0, curMatch, seen,
          bestLen, matchStart, ps);
      seen := seen + 1;
      curMatch := prev[curMatch % wSize];
      chain := if chain == 0 then 0xffff_ffff else chain - 1;
      if curMatch <= limit || chain == 0 {
        SearchEnds(bits, w, ins, wSize, strstart, prevLength, config, curMatch0, curMatch, seen, bestLen, matchStart,
            if bestLen <= lookahead then bestLen else lookahead);
      }
      if curMatch <= limit { break; }
      if chain == 0 { break; }
    }
    len := if bestLen <= lookahead then bestLen else lookahead;
    if len > prevLength { FoundShorter(window[..], wSize, strstart, matchStart, bestLen, len); }
  }

  lemma {:induction false} SearchingParts(bits: nat, w: seq<Byte>, ins: set<int>, strstart: int, prevLength: int,
      nice: int, c: int, curMatch: int, seen: int, bestLen: int, matchStart: int, ps: set<int>)
    requires InData(w, ins) && 0 <= strstart && strstart + 2 < |w|
    requires Searching(bits, w, ins, strstart, prevLength, nice, c, curMatch, seen, bestLen, matchStart, ps)
    ensures curMatch <= c && |Nearer(bits, w, ins, strstart, curMatch, c)| == seen
  {
    hide KeyAt, NoneLonger;
  }

  lemma ChainSize(bits: nat, w: seq<Byte>, head: seq<int>, prev: seq<int>, ins: set<int>, wSize: nat, top: int)
    requires Chains(bits, w, head, prev, ins, wSize, top)
    ensures |prev| == wSize > 0 && |head| == HashSize(bits) && InData(w, ins)
  {
    hide KeyAt, LinkOk;
  }

  lemma CandidateParts(bits: nat, w: seq<Byte>, ins: set<int>, wSize: int, strstart: int, p: int)
    requires Candidate(bits, w, ins, wSize, strstart, p)
    ensures 0 < p < strstart && strstart - p <= MaxDist(wSize) && strstart + 2 < |w|
  {
    hide KeyAt;
  }

  lemma RepeatsInAll(w: seq<Byte>, all: seq<Byte>, p: int, q: int, n: int)
    requires Repeats(w, p, q, n) && w <= all
    ensures Repeats(all, p, q, n)
  {
    forall j | q <= j < q + n ensures all[j] == all[j - (q - p)] { assert w[j] == w[j - (q - p)]; }
  }

  lemma FoundAt(w: seq<Byte>, wSize: int, strstart: int, p: int, n: int)
    requires 0 < p && strstart - p <= MaxDist(wSize) && Repeats(w, p, strstart, n)
    ensures Found(w, wSize, strstart, p, n)
  {
  }

  lemma FoundShorter(w: seq<Byte>, wSize: int, strstart: int, p: int, n: int, k: int)
    requires Found(w, wSize, strstart, p, n) && k <= n
    ensures Found(w, wSize, strstart, p, k)
  {
  }
}

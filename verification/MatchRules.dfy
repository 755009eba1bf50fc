/** The rules by which deflate_slow and deflate_fast turn what their rounds find into tokens, over
    whole runs: lazy evaluation, where a match is adopted only if the next position has no better
    one, and greedy evaluation, where it is adopted at once. */
module MatchRules {
  import opened Bytes
  import opened Lz77
  import opened HashChains
  import opened LongestMatch
  import opened DeflateTally
  import opened DeflateWindow

  /** A round at a position of the text: where the window began and how far the text was read, the
      positions in the hash table (counted from the beginning of the window), and the match found. */
  datatype Round = Round(at: int, base: int, end: int, seen: set<int>, len: int, dist: int)

  /** A round, or the end of what was brought when a flush is asked for. */
  datatype Event = Looked(round: Round) | Passed(at: int)

  /** What the search depends on; `lazy` for deflate_slow. */
  datatype Rules = Rules(lazy: bool, bits: nat, wSize: nat, config: Config, filtered: bool)

  /** The match found last, and whether the byte where it begins is deferred. */
  datatype Held = Held(len: int, dist: int, deferred: bool)

  const NOTHING_HELD: Held := Held(MIN_MATCH - 1, 0, false)

  function ByteAt(text: seq<Byte>, i: int): Byte { if 0 <= i < |text| then text[i] else 0 }

  /** A match is adopted: lazily the one held, unless this round has found a better one, and
      greedily the one just found. */
  predicate Adopts(s: Rules, h: Held, r: Round) {
    if s.lazy then h.len >= MIN_MATCH && r.len <= h.len else r.len >= MIN_MATCH
  }

  function HeldNext(s: Rules, h: Held, e: Event): Held {
    match e
    case Looked(r) => if !s.lazy || Adopts(s, h, r) then NOTHING_HELD else Held(r.len, r.dist, true)
    case Passed(_) => h.(deferred := false)
  }

  /** The token sent, if any: a match that is adopted, or the byte that is deferred or passed over. */
  function TokenOf(s: Rules, h: Held, e: Event, text: seq<Byte>): seq<Token> {
    match e
    case Looked(r) =>
      if s.lazy then
        if Adopts(s, h, r) then [Match(h.len, h.dist)] else if h.deferred then [Literal(ByteAt(text, r.at - 1))] else []
      else if Adopts(s, h, r) then [Match(r.len, r.dist)] else [Literal(ByteAt(text, r.at))]
    case Passed(at) => if h.deferred then [Literal(ByteAt(text, at - 1))] else []
  }

  /** Where the next round is. */
  function GoesTo(s: Rules, h: Held, e: Event): int {
    match e
    case Looked(r) => if !Adopts(s, h, r) then r.at + 1 else if s.lazy then r.at - 1 + h.len else r.at + r.len
    case Passed(at) => at
  }

  /** Up to where the strings are filed: deflate_fast does not file those of a long match. */
  function FilesTo(s: Rules, h: Held, e: Event): int {
    match e
    case Looked(r) =>
      if s.lazy || !Adopts(s, h, r) then GoesTo(s, h, e) else r.at + FiledLength(s.config, r.len, r.end - r.at)
    case Passed(at) => at
  }

  /** How many strings of a match deflate_fast files: all of them if it is short, and only the first
      one otherwise. */
  function FiledLength(config: Config, len: int, lookahead: int): int {
    if len <= config.maxLazy && lookahead - len >= MIN_MATCH then len else 1
  }

  // ---- runs ----

  function HeldAfter(s: Rules, log: seq<Event>): Held {
    if log == [] then NOTHING_HELD else HeldNext(s, HeldAfter(s, log[..|log| - 1]), log[|log| - 1])
  }

  function TokensOf(s: Rules, log: seq<Event>, text: seq<Byte>): seq<Token> {
    if log == [] then []
    else TokensOf(s, log[..|log| - 1], text) + TokenOf(s, HeldAfter(s, log[..|log| - 1]), log[|log| - 1], text)
  }

  function PlaceAfter(s: Rules, log: seq<Event>): int {
    if log == [] then 0 else GoesTo(s, HeldAfter(s, log[..|log| - 1]), log[|log| - 1])
  }

  /** The string at a place was filed in a round. */
  ghost predicate FiledIn(s: Rules, log: seq<Event>, k: nat, a: int)
    requires k < |log|
  {
    log[k].Looked? && log[k].round.at <= a < FilesTo(s, HeldAfter(s, log[..k]), log[k]) && a + 2 < log[k].round.end
  }

  /** What was filed is in the hash table as long as it is in the window. */
  ghost predicate TableHas(s: Rules, log: seq<Event>, k: nat, base: int, ins: set<int>)
    requires k < |log|
  {
    forall p {:trigger p in ins} :: p > 0 && FiledIn(s, log, k, base + p) ==> p in ins
  }

  ghost predicate TableHasAll(s: Rules, log: seq<Event>, base: int, ins: set<int>) {
    forall k :: 0 <= k < |log| ==> TableHas(s, log, k, base, ins)
  }

  /** What the search of a round is to find. */
  ghost predicate Finds(s: Rules, w: seq<Byte>, seen: set<int>, at: nat, held: int, len: int, start: int) {
    if s.lazy then SlowFinds(s.bits, w, seen, s.wSize, at, held, s.config, s.filtered, len, start)
    else FastFinds(s.bits, w, seen, s.wSize, at, s.config, len, start)
  }

  /** Each round is where the one before it has led, has in the hash table what was filed, and finds
      what it is to find; and only flushes end a run. */
  ghost predicate EventRight(s: Rules, log: seq<Event>, k: nat, text: seq<Byte>, cuts: set<int>)
    requires k < |log|
  {
    match log[k]
    case Looked(r) =>
      && r.at == PlaceAfter(s, log[..k]) && 0 <= r.base <= r.at < r.end <= |text|
      && TableHasAll(s, log[..k], r.base, r.seen) && (r.at > r.base && r.at + 2 < r.end ==> r.at - r.base in r.seen)
      && Finds(s, text[r.base..r.end], r.seen, r.at - r.base, HeldAfter(s, log[..k]).len, r.len,
          r.at - r.base - r.dist)
    case Passed(at) => at == PlaceAfter(s, log[..k]) && 0 <= at <= |text| && at in cuts
  }

  /** A run: the tokens are those that the rules give. */
  ghost predicate IsRun(s: Rules, log: seq<Event>, text: seq<Byte>, cuts: set<int>, ts: seq<Token>) {
    (forall k :: 0 <= k < |log| ==> EventRight(s, log, k, text, cuts)) && ts == TokensOf(s, log, text)
  }

  /** How a run stands now. */
  ghost predicate StandsAt(s: Rules, log: seq<Event>, held: Held, at: int, base: int, ins: set<int>) {
    && SameHeld(HeldAfter(s, log), held) && PlaceAfter(s, log) == at && TableHasAll(s, log, base, ins)
    && forall k :: 0 <= k < |log| ==> FiledBefore(s, log, k, at)
  }

  /** The distance matters only of a match. */
  ghost predicate SameHeld(a: Held, b: Held) {
    a.len == b.len && a.deferred == b.deferred && (a.len >= MIN_MATCH ==> a.dist == b.dist)
  }

  /** Nothing is filed that is not behind. */
  ghost predicate FiledBefore(s: Rules, log: seq<Event>, k: nat, at: int)
    requires k < |log|
  {
    FilesTo(s, HeldAfter(s, log[..k]), log[k]) <= at
  }

  // ---- one more event ----

  lemma Before(log: seq<Event>, e: Event, k: nat)
    requires k <= |log|
    ensures (log + [e])[..k] == log[..k] && (k < |log| ==> (log + [e])[k] == log[k])
  {
  }

  lemma {:induction false} AddedRun(s: Rules, log: seq<Event>, text: seq<Byte>, cuts: set<int>, ts: seq<Token>,
      e: Event)
    requires IsRun(s, log, text, cuts, ts) && EventRight(s, log + [e], |log|, text, cuts)
    ensures IsRun(s, log + [e], text, cuts, ts + TokenOf(s, HeldAfter(s, log), e, text))
  {
    hide Finds, TableHasAll, TokenOf, HeldAfter, PlaceAfter;
    forall k | 0 <= k < |log| + 1 ensures EventRight(s, log + [e], k, text, cuts) {
      Before(log, e, k);
      if k < |log| { assert EventRight(s, log, k, text, cuts); }
    }
    Before(log, e, |log|);
  }

  lemma {:induction false} AfterEvent(s: Rules, log: seq<Event>, e: Event)
    ensures HeldAfter(s, log + [e]) == HeldNext(s, HeldAfter(s, log), e)
    ensures PlaceAfter(s, log + [e]) == GoesTo(s, HeldAfter(s, log), e)
  {
    assert (log + [e])[..|log + [e]| - 1] == log;
  }

  lemma {:induction false} TableSame(s: Rules, log: seq<Event>, e: Event, k: nat, base: int, ins: set<int>)
    requires k < |log|
    ensures TableHas(s, log + [e], k, base, ins) <==> TableHas(s, log, k, base, ins)
    ensures forall at :: FiledBefore(s, log + [e], k, at) <==> FiledBefore(s, log, k, at)
  {
    Before(log, e, k);
    assert forall a :: FiledIn(s, log + [e], k, a) <==> FiledIn(s, log, k, a);
  }

  lemma TableMore(s: Rules, log: seq<Event>, k: nat, base: int, ins: set<int>, ins1: set<int>)
    requires k < |log| && TableHas(s, log, k, base, ins) && ins <= ins1
    ensures TableHas(s, log, k, base, ins1)
  {
    hide FiledIn;
    forall p | p > 0 && FiledIn(s, log, k, base + p) ensures p in ins1 { assert p in ins; }
  }

  /** More text behind, and more flushes, change nothing. */
  lemma {:induction false} RunMoreText(s: Rules, log: seq<Event>, text: seq<Byte>, cuts: set<int>, ts: seq<Token>,
      text1: seq<Byte>, cuts1: set<int>)
    requires IsRun(s, log, text, cuts, ts) && text <= text1 && cuts <= cuts1
    ensures IsRun(s, log, text1, cuts1, ts)
  {
    hide Finds, TableHasAll, HeldAfter, PlaceAfter, TokensOf;
    forall k | 0 <= k < |log| ensures EventRight(s, log, k, text1, cuts1) {
      assert EventRight(s, log, k, text, cuts);
      if log[k].Looked? {
        var r := log[k].round;
        assert text1[r.base..r.end] == text[r.base..r.end];
      }
    }
    TokensMoreText(s, log, text, cuts, text1, |log|);
    assert log[..|log|] == log;
  }

  lemma {:induction false} TokensMoreText(s: Rules, log: seq<Event>, text: seq<Byte>, cuts: set<int>,
      text1: seq<Byte>, n: nat)
    requires (forall k :: 0 <= k < |log| ==> EventRight(s, log, k, text, cuts)) && text <= text1 && n <= |log|
    ensures TokensOf(s, log[..n], text1) == TokensOf(s, log[..n], text)
  {
    hide Finds, TableHasAll, HeldAfter, PlaceAfter;
    if n > 0 {
      TokensMoreText(s, log, text, cuts, text1, n - 1);
      assert log[..n][..n - 1] == log[..n - 1] && log[..n][n - 1] == log[n - 1];
      assert EventRight(s, log, n - 1, text, cuts);
      TokenMoreText(s, HeldAfter(s, log[..n - 1]), log[n - 1], text, text1);
    }
  }

  lemma TokenMoreText(s: Rules, h: Held, e: Event, text: seq<Byte>, text1: seq<Byte>)
    requires text <= text1
    requires match e case Looked(r) => 0 <= r.at < |text| case Passed(at) => 0 <= at <= |text|
    ensures TokenOf(s, h, e, text1) == TokenOf(s, h, e, text)
  {
  }

  lemma NothingRun(s: Rules, text: seq<Byte>, cuts: set<int>, base: int, ins: set<int>)
    ensures IsRun(s, [], text, cuts, []) && StandsAt(s, [], NOTHING_HELD, 0, base, ins)
  {
  }

  lemma FiledGrows(ins: set<int>, ins1: set<int>, from: int, to: int, end: int)
    requires FiledOn(ins, ins1, from, to, end)
    ensures ins <= ins1
  {
    forall p | p in ins ensures p in ins1 {}
  }

  /** A round: what was filed before it and in it. */
  lemma {:induction false} StandsLooked(s: Rules, log: seq<Event>, held: Held, at: int, base: int, ins: set<int>,
      r: Round, ins1: set<int>)
    requires StandsAt(s, log, held, at, base, ins) && r.at == at && r.base == base <= at
    requires FiledOn(ins, r.seen, at - base, at - base + 1, r.end - base)
    requires FiledOn(r.seen, ins1, at - base + 1, FilesTo(s, held, Looked(r)) - base, r.end - base)
    requires FilesTo(s, held, Looked(r)) <= GoesTo(s, held, Looked(r)) && at <= GoesTo(s, held, Looked(r))
    ensures StandsAt(s, log + [Looked(r)], HeldNext(s, held, Looked(r)), GoesTo(s, held, Looked(r)), base, ins1)
    ensures TableHasAll(s, log, base, r.seen) && r.at == PlaceAfter(s, log)
    ensures r.at > base && r.at + 2 < r.end ==> r.at - base in r.seen
  {
    hide HeldAfter, PlaceAfter, FilesTo, FiledIn;
    var e := Looked(r);
    var log1 := log + [e];
    AfterEvent(s, log, e);
    SameRules(s, HeldAfter(s, log), held, e);
    FiledGrows(ins, r.seen, at - base, at - base + 1, r.end - base);
    FiledGrows(r.seen, ins1, at - base + 1, FilesTo(s, held, e) - base, r.end - base);
    forall k | 0 <= k < |log| ensures TableHas(s, log, k, base, r.seen) && TableHas(s, log1, k, base, ins1)
        && FiledBefore(s, log1, k, GoesTo(s, held, e)) {
      TableMore(s, log, k, base, ins, r.seen);
      TableMore(s, log, k, base, r.seen, ins1);
      TableSame(s, log, e, k, base, ins1);
      assert FiledBefore(s, log, k, at);
      LaterStill(s, log, k, at, GoesTo(s, held, e));
    }
    LookedTable(s, log, held, r, base, ins, ins1);
    assert FiledBefore(s, log1, |log|, GoesTo(s, held, e)) by { LastFiled(s, log, held, e, GoesTo(s, held, e)); }
  }

  /** The distance of what is no match does not matter. */
  lemma SameRules(s: Rules, a: Held, b: Held, e: Event)
    requires SameHeld(a, b)
    ensures SameHeld(HeldNext(s, a, e), HeldNext(s, b, e)) && GoesTo(s, a, e) == GoesTo(s, b, e)
        && FilesTo(s, a, e) == FilesTo(s, b, e)
  {
  }

  lemma LaterStill(s: Rules, log: seq<Event>, k: nat, at: int, to: int)
    requires k < |log| && FiledBefore(s, log, k, at) && at <= to
    ensures FiledBefore(s, log, k, to)
  {
  }

  lemma LastFiled(s: Rules, log: seq<Event>, held: Held, e: Event, to: int)
    requires SameHeld(HeldAfter(s, log), held) && FilesTo(s, held, e) <= to
    ensures FiledBefore(s, log + [e], |log|, to)
  {
    hide HeldAfter, FilesTo;
    Before(log, e, |log|);
    SameRules(s, HeldAfter(s, log), held, e);
  }

  lemma {:induction false} LookedTable(s: Rules, log: seq<Event>, held: Held, r: Round, base: int, ins: set<int>,
      ins1: set<int>)
    requires SameHeld(HeldAfter(s, log), held) && r.base == base
    requires FiledOn(ins, r.seen, r.at - base, r.at - base + 1, r.end - base)
    requires FiledOn(r.seen, ins1, r.at - base + 1, FilesTo(s, held, Looked(r)) - base, r.end - base)
    ensures TableHas(s, log + [Looked(r)], |log|, base, ins1)
  {
    hide HeldAfter, FilesTo;
    Before(log, Looked(r), |log|);
    SameRules(s, HeldAfter(s, log), held, Looked(r));
    forall p | p > 0 && FiledIn(s, log + [Looked(r)], |log|, base + p) ensures p in ins1 {
      if base + p == r.at { assert p in r.seen; }
    }
  }

  /** The window is filled up, and may have moved. */
  lemma {:induction false} StandsFilled(s: Rules, log: seq<Event>, held: Held, at: int, base: int, ins: set<int>,
      base1: int, ins1: set<int>, from: int, to: int, end: int)
    requires StandsAt(s, log, held, at, base, ins) && base <= base1 && KeptOn(ins, base, ins1, base1, from, to, end)
    ensures StandsAt(s, log, held, at, base1, ins1)
  {
    hide HeldAfter, PlaceAfter, FiledIn, FiledBefore;
    forall k | 0 <= k < |log| ensures TableHas(s, log, k, base1, ins1) {
      assert TableHas(s, log, k, base, ins);
      forall p | p > 0 && FiledIn(s, log, k, base1 + p) ensures p in ins1 {
        assert base + (p + (base1 - base)) == base1 + p;
        assert p + (base1 - base) in ins;
      }
    }
  }

  /** The end of what was brought. */
  lemma {:induction false} StandsPassed(s: Rules, log: seq<Event>, held: Held, at: int, base: int, ins: set<int>)
    requires StandsAt(s, log, held, at, base, ins)
    ensures StandsAt(s, log + [Passed(at)], held.(deferred := false), at, base, ins) && at == PlaceAfter(s, log)
  {
    hide HeldAfter, PlaceAfter;
    var e := Passed(at);
    AfterEvent(s, log, e);
    SameRules(s, HeldAfter(s, log), held, e);
    forall k | 0 <= k < |log| ensures TableHas(s, log + [e], k, base, ins) && FiledBefore(s, log + [e], k, at) {
      TableSame(s, log, e, k, base, ins);
      assert FiledBefore(s, log, k, at);
    }
    LastFiled(s, log, held, e, at);
    Before(log, e, |log|);
  }

  /** The window is begun afresh. */
  lemma {:induction false} StandsForgot(s: Rules, log: seq<Event>, held: Held, at: int, base: int, ins: set<int>,
      ins1: set<int>)
    requires StandsAt(s, log, held, at, base, ins)
    ensures StandsAt(s, log, held, at, at, ins1)
  {
    hide HeldAfter, PlaceAfter, FilesTo, FiledIn, FiledBefore;
    forall k | 0 <= k < |log| ensures TableHas(s, log, k, at, ins1) {
      assert FiledBefore(s, log, k, at);
      forall p | p > 0 ensures FiledIn(s, log, k, at + p) ==> p in ins1 { NotFiledYet(s, log, k, at, at + p); }
    }
  }

  lemma NotFiledYet(s: Rules, log: seq<Event>, k: nat, at: int, a: int)
    requires k < |log| && FiledBefore(s, log, k, at) && at <= a
    ensures !FiledIn(s, log, k, a)
  {
    hide FilesTo;
  }

  /** What is not a match is held with any distance. */
  lemma StandsSame(s: Rules, log: seq<Event>, held: Held, held1: Held, at: int, base: int, ins: set<int>)
    requires StandsAt(s, log, held, at, base, ins) && SameHeld(held, held1)
    ensures StandsAt(s, log, held1, at, base, ins)
  {
    hide HeldAfter, PlaceAfter, TableHasAll, FiledBefore;
  }

  // ---- how far a run sees ----

  /** The window reaches back as far as a match may, or to where history begins. */
  ghost predicate ReachesBack(wSize: nat, base: int, at: int, resets: set<int>) {
    base == 0 || base in resets || at - base >= MaxDist(wSize)
  }

  /** And it reaches ahead as far as a match may, or to a flush. */
  ghost predicate Sees(wSize: nat, r: Round, resets: set<int>, cuts: set<int>) {
    ReachesBack(wSize, r.base, r.at, resets) && (r.end - r.at >= MIN_LOOKAHEAD || r.end in cuts)
  }

  /** So it does in every round. */
  ghost predicate AllSee(wSize: nat, log: seq<Event>, resets: set<int>, cuts: set<int>) {
    forall k :: 0 <= k < |log| && log[k].Looked? ==> Sees(wSize, log[k].round, resets, cuts)
  }

  lemma SeesMore(wSize: nat, log: seq<Event>, e: Event, resets: set<int>, cuts: set<int>)
    requires AllSee(wSize, log, resets, cuts) && (e.Looked? ==> Sees(wSize, e.round, resets, cuts))
    ensures AllSee(wSize, log + [e], resets, cuts)
  {
    hide Sees;
  }

  lemma SeesStill(wSize: nat, log: seq<Event>, resets: set<int>, cuts: set<int>, resets1: set<int>, cuts1: set<int>)
    requires AllSee(wSize, log, resets, cuts) && resets <= resets1 && cuts <= cuts1
    ensures AllSee(wSize, log, resets1, cuts1)
  {
    forall k | 0 <= k < |log| && log[k].Looked? ensures Sees(wSize, log[k].round, resets1, cuts1) {
      assert Sees(wSize, log[k].round, resets, cuts);
    }
  }

  // ---- events of a run ----

  lemma SameToken(s: Rules, a: Held, b: Held, e: Event, text: seq<Byte>)
    requires SameHeld(a, b)
    ensures TokenOf(s, a, e, text) == TokenOf(s, b, e, text)
  {
  }

  lemma GoesOn(s: Rules, held: Held, r: Round)
    ensures r.at <= GoesTo(s, held, Looked(r)) && FilesTo(s, held, Looked(r)) <= GoesTo(s, held, Looked(r))
  {
  }

  /** A round of the loop. */
  lemma {:induction false} Looks(s: Rules, log: seq<Event>, text: seq<Byte>, cuts: set<int>, ts: seq<Token>,
      held: Held, at: int, base: int, ins: set<int>, r: Round, ins1: set<int>)
    requires IsRun(s, log, text, cuts, ts) && StandsAt(s, log, held, at, base, ins)
    requires r.at == at && r.base == base && 0 <= base <= at < r.end <= |text|
    requires FiledOn(ins, r.seen, at - base, at - base + 1, r.end - base)
    requires FiledOn(r.seen, ins1, at - base + 1, FilesTo(s, held, Looked(r)) - base, r.end - base)
    requires Finds(s, text[base..r.end], r.seen, at - base, held.len, r.len, at - base - r.dist)
    ensures IsRun(s, log + [Looked(r)], text, cuts, ts + TokenOf(s, held, Looked(r), text))
    ensures StandsAt(s, log + [Looked(r)], HeldNext(s, held, Looked(r)), GoesTo(s, held, Looked(r)), base, ins1)
  {
    hide IsRun, Finds, TableHasAll, FiledOn, HeldAfter, PlaceAfter, TokenOf, GoesTo, FilesTo, HeldNext, FiledBefore;
    GoesOn(s, held, r);
    StandsLooked(s, log, held, at, base, ins, r, ins1);
    Before(log, Looked(r), |log|);
    assert EventRight(s, log + [Looked(r)], |log|, text, cuts);
    AddedRun(s, log, text, cuts, ts, Looked(r));
    SameToken(s, HeldAfter(s, log), held, Looked(r), text);
  }

  /** The end of what was brought. */
  lemma {:induction false} Passes(s: Rules, log: seq<Event>, text: seq<Byte>, cuts: set<int>, ts: seq<Token>,
      held: Held, at: int, base: int, ins: set<int>)
    requires IsRun(s, log, text, cuts, ts) && StandsAt(s, log, held, at, base, ins) && 0 <= at <= |text| && at in cuts
    ensures IsRun(s, log + [Passed(at)], text, cuts, ts + TokenOf(s, held, Passed(at), text))
    ensures StandsAt(s, log + [Passed(at)], held.(deferred := false), at, base, ins)
  {
    hide IsRun, Finds, TableHasAll, HeldAfter, PlaceAfter, TokenOf, FiledBefore;
    StandsPassed(s, log, held, at, base, ins);
    Before(log, Passed(at), |log|);
    assert EventRight(s, log + [Passed(at)], |log|, text, cuts);
    AddedRun(s, log, text, cuts, ts, Passed(at));
    SameToken(s, HeldAfter(s, log), held, Passed(at), text);
  }

  /** The window is filled up, and may have moved; there is more text. */
  lemma {:induction false} RunFilled(s: Rules, log: seq<Event>, cuts: set<int>, ts: seq<Token>, held: Held, at: int,
      p: Position, q: Position)
    requires IsRun(s, log, p.text, cuts, ts) && StandsAt(s, log, held, at, p.base, p.ins) && Filled(p, q)
    ensures IsRun(s, log, q.text, cuts, ts) && StandsAt(s, log, held, at, q.base, q.ins)
    ensures p.base + p.strstart == q.base + q.strstart && p.matchBack == q.matchBack
  {
    hide IsRun, StandsAt, KeptOn;
    RunMoreText(s, log, p.text, cuts, ts, q.text, cuts);
    StandsFilled(s, log, held, at, p.base, p.ins, q.base, q.ins, p.base + p.strstart - p.insert,
        q.base + q.strstart - q.insert, q.base + q.strstart + q.lookahead);
  }

  // ---- what the steps do is what the rules say ----

  /** A round of deflate_slow. */
  lemma {:induction false} SlowFollows(s: Rules, held: Held, r: Round, text: seq<Byte>, ins1: set<int>, at1: int,
      held1: Held, bs: seq<Flushed>, ts: seq<Token>, bs1: seq<Flushed>, ts1: seq<Token>, limit: int)
    requires s.lazy && 0 <= r.base <= r.at < r.end <= |text|
    requires SlowFinds(s.bits, text[r.base..r.end], r.seen, s.wSize, r.at - r.base, held.len, s.config, s.filtered,
        r.len, r.at - r.base - r.dist)
    requires if held.len >= MIN_MATCH && r.len <= held.len then
        Grown(bs, ts, Match(held.len, held.dist), limit, bs1, ts1) && at1 == r.at - 1 + held.len
        && !held1.deferred && held1.len == MIN_MATCH - 1
        && FiledOn(r.seen, ins1, r.at - r.base + 1, at1 - r.base, r.end - r.base)
      else
        at1 == r.at + 1 && held1 == Held(r.len, r.dist, true) && ins1 == r.seen
        && if held.deferred then 1 <= r.at && Grown(bs, ts, Literal(text[r.at - 1]), limit, bs1, ts1)
           else bs1 == bs && ts1 == ts
    ensures Finds(s, text[r.base..r.end], r.seen, r.at - r.base, held.len, r.len, r.at - r.base - r.dist)
    ensures FiledOn(r.seen, ins1, r.at - r.base + 1, FilesTo(s, held, Looked(r)) - r.base, r.end - r.base)
    ensures GoesTo(s, held, Looked(r)) == at1 && SameHeld(HeldNext(s, held, Looked(r)), held1)
    ensures Flat(bs1) + ts1 == Flat(bs) + ts + TokenOf(s, held, Looked(r), text)
  {
    hide SlowFinds, Grown, FiledOn, Flat;
    NoneFiled(r.seen, r.at - r.base + 1, r.end - r.base);
    if Adopts(s, held, r) {
      GrownFlat(bs, ts, Match(held.len, held.dist), limit, bs1, ts1);
    } else if held.deferred {
      GrownFlat(bs, ts, Literal(text[r.at - 1]), limit, bs1, ts1);
    } else {
      assert Flat(bs) + ts + [] == Flat(bs) + ts;
    }
  }

  /** A round of deflate_fast. */
  lemma {:induction false} FastFollows(s: Rules, r: Round, text: seq<Byte>, ins1: set<int>, at1: int,
      bs: seq<Flushed>, ts: seq<Token>, bs1: seq<Flushed>, ts1: seq<Token>, limit: int)
    requires !s.lazy && 0 <= r.base <= r.at < r.end <= |text|
    requires FastFinds(s.bits, text[r.base..r.end], r.seen, s.wSize, r.at - r.base, s.config, r.len,
        r.at - r.base - r.dist)
    requires if r.len >= MIN_MATCH then
        Grown(bs, ts, Match(r.len, r.dist), limit, bs1, ts1) && at1 == r.at + r.len
        && FiledOn(r.seen, ins1, r.at - r.base + 1, r.at - r.base + FiledLength(s.config, r.len, r.end - r.at),
            r.end - r.base)
      else
        at1 == r.at + 1 && ins1 == r.seen && Grown(bs, ts, Literal(text[r.at]), limit, bs1, ts1)
    ensures Finds(s, text[r.base..r.end], r.seen, r.at - r.base, NOTHING_HELD.len, r.len, r.at - r.base - r.dist)
    ensures FiledOn(r.seen, ins1, r.at - r.base + 1, FilesTo(s, NOTHING_HELD, Looked(r)) - r.base, r.end - r.base)
    ensures GoesTo(s, NOTHING_HELD, Looked(r)) == at1 && HeldNext(s, NOTHING_HELD, Looked(r)) == NOTHING_HELD
    ensures Flat(bs1) + ts1 == Flat(bs) + ts + TokenOf(s, NOTHING_HELD, Looked(r), text)
  {
    hide FastFinds, Grown, FiledOn, Flat, FiledLength;
    NoneFiled(r.seen, r.at - r.base + 1, r.end - r.base);
    GrownFlat(bs, ts, if r.len >= MIN_MATCH then Match(r.len, r.dist) else Literal(text[r.at]), limit, bs1, ts1);
  }

  /** The end of what was brought: the deferred byte. */
  lemma PassedToken(s: Rules, held: Held, at: int, text: seq<Byte>, before: seq<Token>, ts: seq<Token>,
      ts1: seq<Token>)
    requires if held.deferred then 0 < at <= |text| && ts1 == ts + [Literal(text[at - 1])] else ts1 == ts
    ensures before + ts1 == before + ts + TokenOf(s, held, Passed(at), text)
  {
  }

  lemma LastOf(bs: seq<Flushed>, ts: seq<Token>, bs1: seq<Flushed>)
    requires Emitted(bs, ts, bs1, true)
    ensures bs1 != [] && bs1[|bs1| - 1].last
  {
  }
}

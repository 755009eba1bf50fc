/** The fixed codes of section 3.2.6 of RFC 1951: the static trees of tr_static_init, and
    fixedtables of inflate.c. */
module FixedCodes {
  import opened Bits
  import opened BitReversal
  import opened Counting
  import opened DeflateCodes
  import opened DecodingTable
  import opened TableSteps
  import opened InflateTable
  import opened DeflateSymbols
  import opened InflateItems
  import opened TreeSender
  import opened TreeReceiver

  function FixedLength(s: int): int {
    if s < 144 then 8 else if s < 256 then 9 else if s < 280 then 7 else 8
  }

  function FixedLens(): (l: seq<int>)
    ensures |l| == 288 && forall s :: 0 <= s < 288 ==> l[s] == FixedLength(s)
  {
    seq(288, s => FixedLength(s))
  }

  function FixedDists(): (l: seq<int>)
    ensures |l| == 32 && forall s :: 0 <= s < 32 ==> l[s] == 5
  {
    seq(32, s => 5)
  }

  /** How many of the first n symbols have length l. */
  function FixedCount(n: nat, l: int): int {
    if l == 8 then (if n < 144 then n else if n < 280 then 144 else 144 + (n - 280))
    else if l == 9 then (if n < 144 then 0 else if n < 256 then n - 144 else 112)
    else if l == 7 then (if n < 256 then 0 else if n < 280 then n - 256 else 24)
    else 0
  }

  lemma {:induction false} CountFixed(n: nat, l: int)
    requires n <= 288
    ensures Count(FixedLens()[..n], l) == FixedCount(n, l)
  {
    hide FixedLens;
    if n > 0 {
      CountFixed(n - 1, l);
      assert FixedLens()[..n][..n - 1] == FixedLens()[..n - 1];
    }
  }

  lemma {:induction false} CountDists(n: nat, l: int)
    requires n <= 32
    ensures Count(FixedDists()[..n], l) == if l == 5 then n else 0
  {
    hide FixedDists;
    if n > 0 {
      CountDists(n - 1, l);
      assert FixedDists()[..n][..n - 1] == FixedDists()[..n - 1];
    }
  }

  lemma Powers()
    ensures Pow2(0) == 1 && Pow2(6) == 64 && Pow2(7) == 128 && Pow2(8) == 256 && Pow2(10) == 1024 && Pow2(15) == 32768
  {
    assert Pow2(5) == 32 by { Pow3(); }
    assert Pow2(10) == 1024 by { Pow2Add(5, 5); }
    Pow2Add(10, 5);
  }

  /** What the lengths up to n take of the code space. */
  lemma {:induction false} SpaceFixed(n: nat)
    requires n <= 16
    ensures Space(FixedLens(), n) == if n <= 7 then 0 else if n == 8 then 6144 else if n == 9 then 25600 else 32768
  {
    hide FixedLens, Count;
    Powers();
    if n > 1 {
      SpaceFixed(n - 1);
      CountFixed(288, n - 1);
      assert FixedLens()[..288] == FixedLens();
      SpaceNext(FixedLens(), n - 1);
      hide Pow2;
      Zero(Pow2(15 - (n - 1)));
    }
  }

  lemma Zero(p: nat)
    ensures 0 * p == 0
  {
  }

  lemma {:induction false} SpaceDists(n: nat)
    requires n <= 16
    ensures Space(FixedDists(), n) == if n <= 5 then 0 else 32768
  {
    hide FixedDists, Count;
    Powers();
    if n > 1 {
      SpaceDists(n - 1);
      CountDists(32, n - 1);
      assert FixedDists()[..32] == FixedDists();
      SpaceNext(FixedDists(), n - 1);
      hide Pow2;
      Zero(Pow2(15 - (n - 1)));
    }
  }

  /** Both codes are complete, and no longer than their root tables. */
  lemma FixedComplete()
    ensures CodeLens(FixedLens()) && Complete(FixedLens()) && Longest(FixedLens()) <= 9
    ensures CodeLens(FixedDists()) && Complete(FixedDists()) && Longest(FixedDists()) <= 5
    ensures forall s :: 0 <= s < 288 ==> Used(FixedLens(), s)
    ensures forall s :: 0 <= s < 32 ==> Used(FixedDists(), s)
  {
    hide FixedLens, FixedDists, Longest, Space;
    Powers();
    SpaceFixed(16);
    SpaceDists(16);
    LongestSmall(FixedLens(), 9);
    LongestSmall(FixedDists(), 5);
  }

  // ---- the static trees ----

  /** The first n lengths are set and counted. */
  ghost predicate Setting(len: seq<int>, bl: seq<int>, n: nat) {
    && |len| == 288 && |bl| == 16 && n <= 288 && (forall s :: 0 <= s < n ==> len[s] == FixedLength(s))
    && forall l :: 0 <= l < 16 ==> bl[l] == FixedCount(n, l)
  }

  method SetLengths(len: array<int>, bl: array<int>, n0: nat, n1: nat, l: int)
    requires len != bl && Setting(len[..], bl[..], n0) && n0 <= n1 <= 288 && 7 <= l <= 9
        && forall s :: n0 <= s < n1 ==> FixedLength(s) == l
    modifies len, bl
    ensures Setting(len[..], bl[..], n1)
  {
    var n := n0;
    while n < n1
      invariant n0 <= n <= n1 && Setting(len[..], bl[..], n)
    {
      assert FixedLength(n) == l;
      len[n] := l;
      bl[l] := bl[l] + 1;
      n := n + 1;
    }
  }

  /** The literal tree of tr_static_init. */
  method StaticLiterals() returns (len: array<int>, code: array<int>)
    ensures fresh(len) && fresh(code) && len[..] == FixedLens() && CodesFor(FixedLens(), code[..])
  {
    hide FixedLens, CodesFor, FixedCount;
    len, code := new int[288], new int[288];
    var bl := new int[16];
    for bits := 0 to 16
      invariant forall b :: 0 <= b < bits ==> bl[b] == 0
    {
      bl[bits] := 0;
    }
    NoneSet(len[..], bl[..]);
    SetLengths(len, bl, 0, 144, 8);
    SetLengths(len, bl, 144, 256, 9);
    SetLengths(len, bl, 256, 280, 7);
    SetLengths(len, bl, 280, 288, 8);
    AllSet(len[..], bl[..]);
    var lens := len[..];
    GenCodes(lens, bl, code);
  }

  lemma NoneSet(len: seq<int>, bl: seq<int>)
    requires |len| == 288 && |bl| == 16 && forall b :: 0 <= b < 16 ==> bl[b] == 0
    ensures Setting(len, bl, 0)
  {
  }

  lemma AllSet(len: seq<int>, bl: seq<int>)
    requires Setting(len, bl, 288)
    ensures len == FixedLens() && CodeLens(len) && LevelCounts(len, bl)
  {
    hide FixedLens, Count;
    assert FixedLens()[..288] == FixedLens();
    forall l | 0 <= l <= 15 ensures bl[l] == Count(FixedLens(), l) { CountFixed(288, l); }
    assert bl[0] == 0;
    assert len == FixedLens();
  }

  /** The code of a distance is its number in five bits. */
  lemma {:induction false} DistCode(s: nat)
    requires s < 32
    ensures Huff(FixedDists(), s) == Rev(s, 5)
  {
    hide FixedDists, Count, First;
    FirstDists(5);
    CountDists(s, 5);
  }

  lemma {:induction false} FirstDists(n: nat)
    requires n <= 5
    ensures First(FixedDists(), n) == 0
  {
    hide FixedDists, Count;
    if n > 1 {
      FirstDists(n - 1);
      CountDists(32, n - 1);
      assert FixedDists()[..32] == FixedDists();
    }
  }

  /** The distance tree of tr_static_init: thirty codes of five bits. */
  method StaticDistances() returns (code: array<int>)
    ensures fresh(code) && code.Length == 30 && forall s :: 0 <= s < 30 ==> code[s] == Huff(FixedDists(), s)
  {
    hide FixedDists, Huff, Rev;
    code := new int[30];
    for n := 0 to 30
      invariant forall s :: 0 <= s < n ==> code[s] == Huff(FixedDists(), s)
    {
      Powers();
      Pow3();
      DistCode(n);
      var c := BiReverse(n, 5);
      code[n] := c;
    }
  }

  // ---- the tables ----

  /** fixedtables */
  method FixedTables(codes: array<Entry>, work: array<int>) returns (c: Tables)
    requires codes.Length >= 1444 && work.Length >= 288
    modifies codes, work
    ensures BuiltFor(c, FixedLens(), FixedDists()) && Good(c)
  {
    hide *;
    var lens := new int[288];
    var sym := 0;
    while sym < 144
      modifies lens
      invariant 0 <= sym <= 144 && forall s :: 0 <= s < sym ==> lens[s] == 8
    {
      lens[sym] := 8;
      sym := sym + 1;
    }
    while sym < 256
      modifies lens
      invariant 144 <= sym <= 256 && (forall s :: 0 <= s < 144 ==> lens[s] == 8) && forall s :: 144 <= s < sym ==>
        lens[s] == 9
    {
      lens[sym] := 9;
      sym := sym + 1;
    }
    while sym < 280
      modifies lens
      invariant 256 <= sym <= 280 && (forall s :: 0 <= s < 144 ==> lens[s] == 8)
          && (forall s :: 144 <= s < 256 ==> lens[s] == 9)
      invariant forall s :: 256 <= s < sym ==> lens[s] == 7
    {
      lens[sym] := 7;
      sym := sym + 1;
    }
    while sym < 288
      modifies lens
      invariant 280 <= sym <= 288 && (forall s :: 0 <= s < 144 ==> lens[s] == 8)
          && (forall s :: 144 <= s < 256 ==> lens[s] == 9)
      invariant (forall s :: 256 <= s < 280 ==> lens[s] == 7) && forall s :: 280 <= s < sym ==> lens[s] == 8
    {
      lens[sym] := 8;
      sym := sym + 1;
    }
    var dists := new int[32];
    sym := 0;
    while sym < 32
      modifies dists
      invariant 0 <= sym <= 32 && forall s :: 0 <= s < sym ==> dists[s] == 5
    {
      dists[sym] := 5;
      sym := sym + 1;
    }
    var llens, dlens := lens[..], dists[..];
    AreFixed(llens, dlens);
    FixedComplete();
    FixedNotRefused();
    FixedSmall();
    var e;
    e, c := BothTables(llens, dlens, 9, 5, codes, work);
  }

  lemma AreFixed(llens: seq<int>, dlens: seq<int>)
    requires |llens| == 288 && |dlens| == 32 && (forall s :: 0 <= s < 144 ==> llens[s] == 8)
        && (forall s :: 144 <= s < 256 ==> llens[s] == 9)
    requires (forall s :: 256 <= s < 280 ==> llens[s] == 7) && (forall s :: 280 <= s < 288 ==> llens[s] == 8)
        && forall s :: 0 <= s < 32 ==> dlens[s] == 5
    ensures llens == FixedLens() && dlens == FixedDists()
  {
  }

  lemma FixedSmall()
    ensures CodeLens(FixedLens()) && CodeLens(FixedDists()) && |FixedLens()| == 288 && |FixedDists()| == 32
    ensures SmallEnough(LENS, FixedLens(), 9) && SmallEnough(DISTS, FixedDists(), 5)
  {
    hide Longest;
    FixedComplete();
  }

  lemma FixedNotRefused()
    ensures !Refused(LENS, FixedLens()) && !Refused(DISTS, FixedDists())
  {
    hide FixedLens, FixedDists, Longest, Space;
    FixedComplete();
    RefusedMeans(LENS, FixedLens());
    RefusedMeans(DISTS, FixedDists());
  }
}

/** The end of fallbackSort, which rebuilds the block its class table overwrote, and the
    entry point that finds the row of the block itself. */
module FallbackRebuild {
  import opened Bytes
  import opened Permutations
  import opened Lexicographic
  import opened Rotations
  import opened Counting
  import opened RadixStart
  import opened BucketBits
  import opened FallbackRounds

  /** First bytes of the rows. */
  ghost function Heading(b: seq<Byte>, f: seq<int>): (g: seq<Byte>)
    requires InRange(f, |b|)
  {
    Pick(b, f)
  }

  lemma {:induction false} CountIsMultiset(s: seq<Byte>, c: Byte)
    ensures Count(s, c) == multiset(s)[c]
  {
    if s != [] {
      CountIsMultiset(s[..|s| - 1], c);
      assert s == s[..|s| - 1] + [s[|s| - 1]];
    }
  }

  lemma {:induction false} HeadingCounts(b: seq<Byte>, f: seq<int>, c: Byte)
    requires IsPermutation(f, |b|)
    ensures Count(Heading(b, f), c) == Count(b, c)
  {
    PickMultiset(b, f);
    CountIsMultiset(b, c);
    CountIsMultiset(Heading(b, f), c);
  }

  lemma {:induction false} HeadingAscends(b: seq<Byte>, f: seq<int>, i: int, j: int)
    requires SortedRotations(b, f) && 0 <= i <= j < |f|
    ensures Heading(b, f)[i] <= Heading(b, f)[j]
  {
    hide Distinct;
    if i < j { assert LexLe(Rows(b, f)[i], Rows(b, f)[j]); }
  }

  /** A byte still owed at row i is found at that row or a later one. */
  lemma {:induction false} StillOwed(g: seq<Byte>, i: int, c: int)
    requires 0 <= i <= |g| && Count(g, c) > Count(g[..i], c)
    ensures exists m :: i <= m < |g| && g[m] == c
    decreases |g|
  {
    assert g[..|g|] == g;
    if i < |g| && g[|g| - 1] != c {
      var h := g[..|g| - 1];
      assert h[..i] == g[..i];
      StillOwed(h, i, c);
      var m :| i <= m < |h| && h[m] == c;
      assert g[m] == c;
    }
  }

  ghost predicate Owed(g: seq<Byte>, tab: seq<int>, i: int)
    requires 0 <= i <= |g|
  {
    |tab| == 256 && forall c :: 0 <= c < 256 ==> tab[c] == Count(g, c) - Count(g[..i], c)
  }

  lemma {:induction false} OwedStep(g: seq<Byte>, tab: seq<int>, i: int)
    requires 0 <= i < |g| && Owed(g, tab, i)
    ensures var c: int := g[i]; tab[c] > 0 && Owed(g, tab[c := tab[c] - 1], i + 1)
  {
    assert g[..i + 1][..i] == g[..i];
    CountPrefix(g, i, g[i]);
  }

  lemma {:induction false} OwedStart(b: seq<Byte>, f: seq<int>, tab: seq<int>)
    requires IsPermutation(f, |b|) && Counted(b, tab) && |tab| == 256
    ensures Owed(Heading(b, f), tab, 0)
  {
    var g := Heading(b, f);
    assert g[..0] == [];
    forall c: Byte ensures tab[c] == Count(g, c) { HeadingCounts(b, f, c); }
  }

  /** The scan for the next byte value stops exactly at the byte of row i. */
  lemma {:induction false} ScanStops(b: seq<Byte>, f: seq<int>, tab: seq<int>, i: int, j: int)
    requires SortedRotations(b, f) && 0 <= i < |f| && Owed(Heading(b, f), tab, i)
    requires 0 <= j <= Heading(b, f)[i]
    ensures j < 256 && (tab[j] != 0 ==> j == Heading(b, f)[i]) && (tab[j] == 0 ==> j < Heading(b, f)[i])
  {
    hide Count, SortedRotations;
    SortedParts(b, f);
    var g := Heading(b, f);
    OwedStep(g, tab, i);
    CountPrefix(g, i, j);
    if tab[j] != 0 {
      StillOwed(g, i, j);
      var m :| i <= m < |g| && g[m] == j;
      HeadingAscends(b, f, i, m);
    }
  }

  /** The rebuilding loop, with assertion 1005; nothing is known of the bytes it overwrites. */
  method Rebuild(block: array<Byte>, fmap: array<int>, ftabCopy: array<int>, nblock: int, ghost b: seq<Byte>)
    requires 0 < nblock == |b| == fmap.Length <= block.Length && ftabCopy.Length == 256 && ftabCopy != fmap
    requires block as object != fmap && block as object != ftabCopy
    requires SortedRotations(b, fmap[..]) && Counted(b, ftabCopy[..])
    modifies block, ftabCopy
    ensures block[..nblock] == b
  {
    hide SortedRotations, Counted, Owed, Heading;
    ghost var f := fmap[..];
    SortedParts(b, f);
    OwedStart(b, f, ftabCopy[..]);
    var j := 0;
    var i := 0;
    while i < nblock
      invariant 0 <= i <= nblock && 0 <= j < 256 && Owed(Heading(b, f), ftabCopy[..], i)
      invariant i < nblock ==> j <= Heading(b, f)[i]
      invariant forall m :: 0 <= m < i ==> block[f[m]] == b[f[m]]
    {
      ScanStops(b, f, ftabCopy[..], i, j);
      while ftabCopy[j] == 0
        modifies {}
        invariant 0 <= j <= Heading(b, f)[i] && j < 256
        invariant Owed(Heading(b, f), ftabCopy[..], i)
        invariant ftabCopy[j] == 0 ==> j < Heading(b, f)[i]
        invariant ftabCopy[j] != 0 ==> j == Heading(b, f)[i]
        decreases 256 - j
      {
        j := j + 1;
        ScanStops(b, f, ftabCopy[..], i, j);
      }
      OwedStep(Heading(b, f), ftabCopy[..], i);
      HeadingAt(b, f, i);
      if i + 1 < nblock { HeadingAscends(b, f, i, i + 1); }
      ghost var tab := ftabCopy[..];
      ftabCopy[j] := ftabCopy[j] - 1;
      assert ftabCopy[..] == tab[j := tab[j] - 1];
      block[fmap[i]] := j;
      i := i + 1;
    }
    assert j < 256;
    AllRebuilt(block[..nblock], b, f);
  }

  lemma SortedParts(b: seq<Byte>, f: seq<int>)
    requires SortedRotations(b, f)
    ensures IsPermutation(f, |b|) && |Heading(b, f)| == |b|
  {
  }

  lemma HeadingAt(b: seq<Byte>, f: seq<int>, i: int)
    requires InRange(f, |b|) && 0 <= i < |f|
    ensures Heading(b, f)[i] == b[f[i]]
  {
  }

  lemma AllRebuilt(c: seq<Byte>, b: seq<Byte>, f: seq<int>)
    requires |c| == |b| && IsPermutation(f, |b|) && forall m :: 0 <= m < |f| ==> c[f[m]] == b[f[m]]
    ensures c == b
  {
    Pigeonhole(f, |b|);
    forall x | 0 <= x < |b| ensures c[x] == b[x] { var m := IndexOf(f, x); }
  }

  /** The bytes of the block share their memory with the class table: using the table leaves
      them with values nothing is known about. */
  method Overwritten(block: array<Byte>)
    modifies block
  {
    var i := 0;
    while i < block.Length {
      block[i] := 0;
      i := i + 1;
    }
  }

  /** fallbackSort: afterwards the block is as it was and fmap lists its rotations in order. */
  method FallbackSort(block: array<Byte>, fmap: array<int>, eclass: array<int>, bits: array<bool>, nblock: int)
    requires 0 < nblock == fmap.Length == eclass.Length <= block.Length && nblock <= 900_000
    requires bits.Length == BitsLength(nblock)
    requires fmap != eclass && block as object != fmap && block as object != eclass
    modifies block, fmap, eclass, bits
    ensures block[..nblock] == old(block[..nblock])
    ensures SortedRotations(block[..nblock], fmap[..])
  {
    hide AtDepth, SortedRotations, Counted;
    ghost var b := block[..nblock];
    var ftabCopy := Begin(block, fmap, bits, nblock);
    ghost var u: seq<int> := b;
    ghost var tab := ftabCopy[..];
    Overwritten(block);
    var h := 1;
    while true
      modifies fmap, eclass, bits
      invariant 1 <= h <= nblock && AtDepth(b, fmap[..], bits[..], u, h)
      decreases nblock - h
    {
      var nNotDone;
      nNotDone, u := Double(fmap, eclass, bits, nblock, h, b, u);
      h := h * 2;
      if h > nblock || nNotDone == 0 {
        Settled(b, fmap[..], bits[..], u, h);
        break;
      }
    }
    assert ftabCopy[..] == tab;
    Rebuild(block, fmap, ftabCopy, nblock, b);
  }

  /** The row of rotation 0; assertion 1003 says that the search finds it. */
  method FindOrigin(fmap: array<int>, nblock: int) returns (origPtr: int)
    requires 0 < nblock == fmap.Length && IsPermutation(fmap[..], nblock)
    ensures 0 <= origPtr < nblock && fmap[origPtr] == 0
  {
    origPtr := -1;
    Pigeonhole(fmap[..], nblock);
    assert 0 in fmap[..];
    var i := 0;
    while i < nblock
      invariant 0 <= i <= nblock && origPtr == -1 && forall k :: 0 <= k < i ==> fmap[k] != 0
    {
      if fmap[i] == 0 {
        origPtr := i;
        break;
      }
      i := i + 1;
    }
    assert origPtr != -1;
  }
}

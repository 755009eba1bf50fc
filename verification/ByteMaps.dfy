/** The bytes a block uses, numbered densely: the encoder's and decoder's maps. */
module ByteMaps {
  import opened Bytes

  /** How many used bytes are smaller than b. */
  function Rank(inUse: seq<bool>, b: int): (r: nat)
    requires 0 <= b <= |inUse|
    ensures r <= b
  {
    if b == 0 then 0 else Rank(inUse, b - 1) + if inUse[b - 1] then 1 else 0
  }

  lemma {:induction false} RankMonotone(inUse: seq<bool>, b: int, c: int)
    requires 0 <= b <= c <= |inUse|
    ensures Rank(inUse, b) <= Rank(inUse, c)
    ensures b < c && inUse[b] ==> Rank(inUse, b) < Rank(inUse, c)
    decreases c
  {
    if b < c { RankMonotone(inUse, b, c - 1); }
  }

  /** Distinct used bytes get distinct numbers below the total. */
  lemma {:induction false} RankInjective(inUse: seq<bool>, b: int, c: int)
    requires |inUse| == 256 && 0 <= b < 256 && 0 <= c < 256 && inUse[b] && inUse[c]
    ensures Rank(inUse, b) < Rank(inUse, 256)
    ensures Rank(inUse, b) == Rank(inUse, c) ==> b == c
  {
    RankMonotone(inUse, b, 256);
    if b < c { RankMonotone(inUse, b, c); } else if c < b { RankMonotone(inUse, c, b); }
  }

  method MakeMapsE(inUse: array<bool>) returns (unseqToSeq: array<Byte>, nInUse: int)
    requires inUse.Length == 256
    ensures fresh(unseqToSeq) && unseqToSeq.Length == 256 && nInUse == Rank(inUse[..], 256)
    ensures forall b :: 0 <= b < 256 && inUse[b] ==> unseqToSeq[b] == Rank(inUse[..], b)
  {
    unseqToSeq := new Byte[256];
    nInUse := 0;
    for i := 0 to 256
      invariant nInUse == Rank(inUse[..], i)
      invariant forall b :: 0 <= b < i && inUse[b] ==> unseqToSeq[b] == Rank(inUse[..], b)
    {
      if inUse[i] {
        unseqToSeq[i] := nInUse;
        nInUse := nInUse + 1;
      }
    }
  }

  /** The used bytes below b, in order. */
  function UsedBytes(inUse: seq<bool>, b: int): (u: seq<Byte>)
    requires 0 <= b <= |inUse| <= 256
    ensures |u| == Rank(inUse, b)
  {
    if b == 0 then [] else UsedBytes(inUse, b - 1) + if inUse[b - 1] then [b - 1] else []
  }

  /** Looking a used byte's number up gives the byte. */
  lemma {:induction false} UsedAt(inUse: seq<bool>, c: int, b: int)
    requires |inUse| == 256 && 0 <= c < b <= 256 && inUse[c]
    ensures Rank(inUse, c) < Rank(inUse, b) && UsedBytes(inUse, b)[Rank(inUse, c)] == c
  {
    if c < b - 1 { UsedAt(inUse, c, b - 1); }
  }

  /** seqToUnseq lists the used bytes. */
  method MakeMapsD(inUse: array<bool>) returns (seqToUnseq: array<Byte>, nInUse: int)
    requires inUse.Length == 256
    ensures fresh(seqToUnseq) && seqToUnseq.Length == 256 && nInUse == Rank(inUse[..], 256)
    ensures seqToUnseq[..nInUse] == UsedBytes(inUse[..], 256)
  {
    seqToUnseq := new Byte[256];
    nInUse := 0;
    for i := 0 to 256
      invariant nInUse == Rank(inUse[..], i) && seqToUnseq[..nInUse] == UsedBytes(inUse[..], i)
    {
      if inUse[i] {
        seqToUnseq[nInUse] := i;
        nInUse := nInUse + 1;
        assert seqToUnseq[..nInUse] == seqToUnseq[..nInUse - 1] + [i];
      }
    }
  }
}

/** The order of rotations as integer ranks, and the two facts about it that the main sorter
    lives on: first bytes decide, and behind equal first bytes the next rotations decide. */
module RotationOrder {
  import opened Bytes
  import opened Lexicographic
  import opened Rotations
  import opened PrefixOrder

  /** Rotation y comes strictly before rotation x. */
  ghost predicate Precedes(b: seq<Byte>, y: int, x: int)
    requires 0 <= x < |b| && 0 <= y < |b|
  {
    !LexLe(Rotation(b, x), Rotation(b, y))
  }

  ghost function Earlier(b: seq<Byte>, x: int): (s: set<int>)
    requires 0 <= x < |b|
  {
    set y | 0 <= y < |b| && Precedes(b, y, x)
  }

  lemma {:induction false} EarlierGrows(b: seq<Byte>, x: int, y: int)
    requires 0 <= x < |b| && 0 <= y < |b|
    ensures LexLe(Rotation(b, x), Rotation(b, y)) ==> Earlier(b, x) <= Earlier(b, y)
    ensures Precedes(b, x, y) ==> x in Earlier(b, y) && x !in Earlier(b, x)
  {
    hide LexLe, Rotation;
    var p, q := Rotation(b, x), Rotation(b, y);
    LexRefl(p);
    if LexLe(p, q) {
      forall z | z in Earlier(b, x) ensures z in Earlier(b, y) {
        var r := Rotation(b, z);
        if LexLe(q, r) { LexTrans(p, q, r); }
      }
    }
  }

  /** u orders the rotations. */
  ghost predicate Ranked(b: seq<Byte>, u: seq<int>) {
    |u| == |b| && forall x, y :: 0 <= x < |b| && 0 <= y < |b| ==>
      (u[x] <= u[y] <==> LexLe(Rotation(b, x), Rotation(b, y)))
  }

  ghost function RotationRanks(b: seq<Byte>): (u: seq<int>)
    ensures Ranked(b, u) && |u| == |b| && forall x :: 0 <= x < |u| ==> 0 <= u[x] <= |b|
  {
    var u := seq(|b|, x requires 0 <= x < |b| => |Earlier(b, x)|);
    assert Ranked(b, u) by { RanksAreCounts(b, u); }
    assert forall x :: 0 <= x < |u| ==> 0 <= u[x] <= |b| by {
      forall x | 0 <= x < |u| ensures u[x] <= |b| {
        Permutations.CardinalitySubset(Earlier(b, x), Permutations.Below(|b|));
      }
    }
    u
  }

  lemma {:induction false} RanksAreCounts(b: seq<Byte>, u: seq<int>)
    requires |u| == |b| && forall x :: 0 <= x < |b| ==> u[x] == |Earlier(b, x)|
    ensures Ranked(b, u)
  {
    hide LexLe, Rotation, Earlier;
    forall x, y | 0 <= x < |b| && 0 <= y < |b| ensures u[x] <= u[y] <==> LexLe(Rotation(b, x), Rotation(b, y)) {
      EarlierGrows(b, x, y);
      EarlierGrows(b, y, x);
      LexTotal(Rotation(b, x), Rotation(b, y));
      if LexLe(Rotation(b, x), Rotation(b, y)) {
        Permutations.CardinalitySubset(Earlier(b, x), Earlier(b, y));
      } else {
        Permutations.CardinalitySubset(Earlier(b, y), Earlier(b, x));
      }
    }
  }

  /** Taking the first byte off and putting it at the end. */
  lemma RotationNext(b: seq<Byte>, x: int)
    requires 0 <= x < |b|
    ensures Rotation(b, x) == [b[x]] + b[x + 1..] + b[..x]
    ensures Rotation(b, Next(x, |b|)) == b[x + 1..] + b[..x] + [b[x]]
  {
    if x + 1 == |b| {
      assert Rotation(b, 0) == b[..x] + [b[x]];
    } else {
      assert b[..x + 1] == b[..x] + [b[x]];
    }
  }

  lemma {:induction false} FirstByteDecides(b: seq<Byte>, u: seq<int>, x: int, y: int)
    requires Ranked(b, u) && 0 <= x < |b| && 0 <= y < |b|
    ensures b[x] < b[y] ==> u[x] < u[y]
  {
    assert Rotation(b, x)[0] == b[x] && Rotation(b, y)[0] == b[y];
    assert u[y] <= u[x] <==> LexLe(Rotation(b, y), Rotation(b, x));
  }

  lemma {:induction false} NextDecides(b: seq<Byte>, u: seq<int>, x: int, y: int)
    requires Ranked(b, u) && 0 <= x < |b| && 0 <= y < |b| && b[x] == b[y]
    ensures u[x] <= u[y] <==> u[Next(x, |b|)] <= u[Next(y, |b|)]
  {
    hide LexLe, Rotation;
    RotationNext(b, x);
    RotationNext(b, y);
    var p, q, c := b[x + 1..] + b[..x], b[y + 1..] + b[..y], [b[x] as int];
    assert Rotation(b, x) == c + p && Rotation(b, y) == c + q;
    LexConcat(c, p, c, q);
    LexConcat(p, c, q, c);
    LexRefl(c);
    LexRefl(p);
  }
}

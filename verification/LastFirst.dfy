/** The last-to-first mapping that both decoders tabulate: row i's last byte stands in
    the first column at its place in a stable counting sort of the last column. */
module LastFirst {
  import opened Bytes
  import opened Permutations
  import opened Lexicographic
  import opened Rotations
  import opened Counting

  ghost predicate InvertsStable(l: seq<Byte>, t: seq<int>) {
    && |t| == |l|
    && (forall i :: 0 <= i < |l| ==> 0 <= t[i] < |l| && StableIndex(l, t[i]) == i)
    && (forall i :: 0 <= i < |l| ==> StableIndex(l, i) < |l| && t[StableIndex(l, i)] == i)
  }

  /** The vector the decoder stores: row r is followed by row Successor(l)[r]. */
  ghost function Successor(l: seq<Byte>): (t: seq<int>)
    ensures InvertsStable(l, t)
    ensures |t| == |l| && InRange(t, |l|)
  {
    assert InvertsStable(l, Inverse(StableVector(l)));
    var t :| InvertsStable(l, t); t
  }

  lemma SuccessorPermutes(l: seq<Byte>)
    ensures IsPermutation(Successor(l), |l|)
  {
    var t := Successor(l);
    assert forall i :: 0 <= i < |l| ==> StableIndex(l, t[i]) == i;
  }

  // ---- the rows reached through StableIndex ----

  /** Row r of the matrix with its last byte moved to the front. */
  ghost function Shifted(b: seq<Byte>, ptr: seq<int>): (t: seq<seq<Byte>>)
    requires InRange(ptr, |b|)
    ensures |t| == |ptr|
    ensures forall r :: 0 <= r < |ptr| ==> t[r] == Rotation(b, Prev(ptr[r], |b|))
  {
    seq(|ptr|, r requires 0 <= r < |ptr| => Rotation(b, Prev(ptr[r], |b|)))
  }

  lemma ShiftedMultiset(b: seq<Byte>, ptr: seq<int>)
    requires IsPermutation(ptr, |b|)
    ensures multiset(Shifted(b, ptr)) == multiset(Rows(b, ptr))
  {
    var n := |b|;
    var back := seq(n, r requires 0 <= r < n => Prev(ptr[r], n));
    assert IsPermutation(back, n);
    PickMultiset(AllRotations(b), back);
    PickMultiset(AllRotations(b), ptr);
    assert Shifted(b, ptr) == Pick(AllRotations(b), back);
  }

  lemma ShiftedOrder(b: seq<Byte>, ptr: seq<int>, i: int, j: int)
    requires SortedRotations(b, ptr) && 0 <= i < |b| && 0 <= j < |b|
    requires var l := LastColumn(b, ptr); l[i] < l[j] || (l[i] == l[j] && i < j)
    ensures LexLe(Shifted(b, ptr)[i], Shifted(b, ptr)[j])
  {
    var n := |b|;
    var s, rows := Shifted(b, ptr), Rows(b, ptr);
    RotatePrev(b, ptr[i]);
    RotatePrev(b, ptr[j]);
    assert s[i][1..] == rows[i][..n - 1] && s[j][1..] == rows[j][..n - 1];
    if i < j { LexTake(rows[i], rows[j], n - 1); }
  }

  /** Taking Shifted in Successor order is sorted, so it is the matrix itself. */
  lemma ShiftedSorted(b: seq<Byte>, ptr: seq<int>)
    requires SortedRotations(b, ptr)
    ensures forall r :: 0 <= r < |b| ==> Shifted(b, ptr)[Successor(LastColumn(b, ptr))[r]] == Rows(b, ptr)[r]
  {
    var l := LastColumn(b, ptr);
    var s, nx := Shifted(b, ptr), Successor(l);
    SuccessorPermutes(l);
    var q := Pick(s, nx);
    forall p, r | 0 <= p < r < |q| ensures LexLe(q[p], q[r]) {
      if l[nx[p]] > l[nx[r]] || (l[nx[p]] == l[nx[r]] && nx[p] > nx[r]) {
        StableOrder(l, nx[r], nx[p]);
      } else {
        assert nx[p] != nx[r];
        ShiftedOrder(b, ptr, nx[p], nx[r]);
      }
    }
    PickMultiset(s, nx);
    ShiftedMultiset(b, ptr);
    SortedUnique(q, Rows(b, ptr));
  }

  lemma RotateNext(b: seq<Byte>, i: int, row: seq<Byte>)
    requires 0 <= i < |b| && row == Rotation(b, Prev(i, |b|))
    ensures row[0] == b[Prev(i, |b|)]
    ensures Rotation(b, i) == row[1..] + [row[0]]
  {
  }

  /** The row after r holds r's string rotated by one byte; in particular its last
      byte is the first byte of row r.  This needs no assumption on ties. */
  lemma SuccessorRotates(b: seq<Byte>, ptr: seq<int>, r: int)
    requires SortedRotations(b, ptr) && 0 <= r < |b|
    ensures var l := LastColumn(b, ptr); var nx := Successor(l); var rows := Rows(b, ptr);
            l[nx[r]] == rows[r][0] && rows[nx[r]] == rows[r][1..] + [rows[r][0]]
  {
    var l, rows := LastColumn(b, ptr), Rows(b, ptr);
    var q := Successor(l)[r];
    ShiftedSorted(b, ptr);
    assert Shifted(b, ptr)[q] == rows[r];
    RotateNext(b, ptr[q], rows[r]);
  }
}

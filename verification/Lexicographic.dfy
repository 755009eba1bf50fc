/** The dictionary order on byte strings, and the fact that sorting is unique. */
module Lexicographic {

  predicate LexLe(a: seq<int>, b: seq<int>) {
    if a == [] then true
    else if b == [] then false
    else a[0] < b[0] || (a[0] == b[0] && LexLe(a[1..], b[1..]))
  }

  lemma {:induction false} LexRefl(a: seq<int>)
    ensures LexLe(a, a)
  {
    if a != [] { LexRefl(a[1..]); }
  }

  lemma {:induction false} LexTotal(a: seq<int>, b: seq<int>)
    ensures LexLe(a, b) || LexLe(b, a)
  {
    if a != [] && b != [] && a[0] == b[0] { LexTotal(a[1..], b[1..]); }
  }

  lemma {:induction false} LexAntisym(a: seq<int>, b: seq<int>)
    requires LexLe(a, b) && LexLe(b, a)
    ensures a == b
  {
    if a != [] && b != [] {
      LexAntisym(a[1..], b[1..]);
      assert a == [a[0]] + a[1..] && b == [b[0]] + b[1..];
    }
  }

  lemma {:induction false} LexTrans(a: seq<int>, b: seq<int>, c: seq<int>)
    requires LexLe(a, b) && LexLe(b, c)
    ensures LexLe(a, c)
  {
    if a != [] && a[0] == b[0] == c[0] { LexTrans(a[1..], b[1..], c[1..]); }
  }

  /** Cutting two strings to the same length keeps their order. */
  lemma {:induction false} LexTake(a: seq<int>, b: seq<int>, k: nat)
    requires k <= |a| && k <= |b| && LexLe(a, b)
    ensures LexLe(a[..k], b[..k])
  {
    if k > 0 && a[0] == b[0] {
      LexTake(a[1..], b[1..], k - 1);
      assert a[..k][1..] == a[1..][..k - 1] && b[..k][1..] == b[1..][..k - 1];
    }
  }

  ghost predicate Ascending(s: seq<seq<int>>) {
    forall i, j :: 0 <= i < j < |s| ==> LexLe(s[i], s[j])
  }

  lemma BagTail<T>(s: seq<T>)
    requires s != []
    ensures multiset(s[1..]) == multiset(s) - multiset{s[0]}
    ensures s[0] in multiset(s)
  {
    assert s == [s[0]] + s[1..];
  }

  lemma SameBag<T>(s: seq<T>, t: seq<T>)
    requires multiset(s) == multiset(t)
    ensures |s| == |t|
    ensures s != [] ==> s[0] in t && t[0] in s
    ensures s != [] && s[0] == t[0] ==> multiset(s[1..]) == multiset(t[1..])
  {
    assert |s| == |multiset(s)| && |t| == |multiset(t)|;
    if s != [] {
      BagTail(s);
      BagTail(t);
    }
  }

  lemma LeastFirst(s: seq<seq<int>>, x: seq<int>)
    requires Ascending(s) && x in s
    ensures LexLe(s[0], x)
  {
    LexRefl(x);
  }

  /** Two ascending lists of strings with the same contents are the same list. */
  lemma {:induction false} SortedUnique(s: seq<seq<int>>, t: seq<seq<int>>)
    requires Ascending(s) && Ascending(t) && multiset(s) == multiset(t)
    ensures s == t
    decreases |s|
  {
    SameBag(s, t);
    if s != [] {
      LeastFirst(s, t[0]);
      LeastFirst(t, s[0]);
      LexAntisym(s[0], t[0]);
      SortedUnique(s[1..], t[1..]);
      assert s == [s[0]] + s[1..] && t == [t[0]] + t[1..];
    }
  }
}

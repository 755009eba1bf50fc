/** Trees made by merging the two lightest nodes again and again: their leaves stand as high as
    any lengths of a prefix code allow for the least sum of weight times length. */
module MergeTrees {
  import opened Bits

  /** The father of each node; -1 for the root, and -2 where there is no node. */
  const NO_FATHER: int := -1
  const NO_NODE: int := -2

  /** Nodes that are there when node t is made, and are not merged into it or before. */
  predicate Active(q: seq<int>, t: int, j: int)
    requires 0 <= j < |q|
  {
    q[j] == NO_FATHER || q[j] > t
  }

  /** The nodes merged into t. */
  ghost predicate SonsOf(q: seq<int>, t: int, a: int, b: int) {
    && 0 <= a < t && 0 <= b < t && t <= |q| && a != b && q[a] == t && q[b] == t
    && forall j :: 0 <= j < t && q[j] == t ==> j == a || j == b
  }

  ghost predicate HasSons(q: seq<int>, t: int) {
    exists a, b :: SonsOf(q, t, a, b)
  }

  /** Nodes below `first` are leaves, the others are made one after the other by merging two. */
  ghost predicate Forest(q: seq<int>, first: int, n: int) {
    && 0 < first <= n + 1 <= |q|
    && (forall j :: 0 <= j <= n ==>
          q[j] == NO_FATHER || (q[j] == NO_NODE && j < first) || (j < q[j] <= n && first <= q[j]))
    && forall t :: first <= t <= n ==> HasSons(q, t)
  }

  /** All are merged into the last one. */
  ghost predicate Tree(q: seq<int>, first: int, n: int) {
    Forest(q, first, n) && first <= n && q[n] == NO_FATHER && forall j :: 0 <= j < n ==> q[j] != NO_FATHER
  }

  /** Each node weighs what its sons weigh, and they were the two lightest. */
  ghost predicate Lightest(q: seq<int>, w: seq<int>, t: int)
    requires 0 <= t < |q| && |w| == |q|
  {
    forall a, b {:trigger SonsOf(q, t, a, b)} :: SonsOf(q, t, a, b) ==>
      w[t] == w[a] + w[b]
      && forall y :: 0 <= y < t && Active(q, t, y) ==> w[a] <= w[y] && w[b] <= w[y]
  }

  ghost predicate Greedy(q: seq<int>, w: seq<int>, first: int, n: int) {
    && Forest(q, first, n) && |w| == |q| && (forall j :: 0 <= j <= n ==> w[j] >= 0)
    && forall t :: first <= t <= n ==> Lightest(q, w, t)
  }

  // ---- one merge ----

  /** Two roots become the sons of a new one. */
  ghost function Joined(q: seq<int>, a: int, b: int, z: int): (r: seq<int>)
    requires 0 <= a < |q| && 0 <= b < |q| && 0 <= z < |q|
    ensures |r| == |q| && forall j :: 0 <= j < |q| ==>
      r[j] == if j == z then NO_FATHER else if j == a || j == b then z else q[j]
  {
    q[a := z][b := z][z := NO_FATHER]
  }

  /** The two lightest roots. */
  ghost predicate LightestRoots(q: seq<int>, w: seq<int>, n: int, a: int, b: int) {
    && n < |q| && n < |w| && 0 <= a <= n && 0 <= b <= n && a != b && q[a] == NO_FATHER && q[b] == NO_FATHER
    && forall y :: 0 <= y <= n && q[y] == NO_FATHER && y != a && y != b ==> w[a] <= w[y] && w[b] <= w[y]
  }

  lemma JoinedSons(q: seq<int>, first: int, n: int, a: int, b: int, t: int)
    requires Forest(q, first, n) && n + 1 < |q| && first <= t <= n + 1
    requires 0 <= a <= n && 0 <= b <= n && a != b && q[a] == NO_FATHER && q[b] == NO_FATHER
    ensures HasSons(Joined(q, a, b, n + 1), t)
    ensures t <= n ==> forall c, d :: SonsOf(Joined(q, a, b, n + 1), t, c, d) <==> SonsOf(q, t, c, d)
  {
    var r := Joined(q, a, b, n + 1);
    if t <= n {
      forall c, d ensures SonsOf(r, t, c, d) <==> SonsOf(q, t, c, d) { SameSons(q, r, first, n, t, c, d); }
      assert HasSons(q, t);
      var c, d :| SonsOf(q, t, c, d);
      assert SonsOf(r, t, c, d);
    } else {
      assert SonsOf(r, t, a, b);
    }
  }

  lemma SameSons(q: seq<int>, r: seq<int>, first: int, n: int, t: int, c: int, d: int)
    requires |r| == |q| && 0 <= t <= n < |q|
    requires forall j :: 0 <= j <= n ==> r[j] == q[j] || (q[j] == NO_FATHER && r[j] == n + 1)
    ensures SonsOf(r, t, c, d) <==> SonsOf(q, t, c, d)
  {
    forall j | 0 <= j < t ensures r[j] == t <==> q[j] == t {}
  }

  lemma {:induction false} GreedyJoined(q: seq<int>, w: seq<int>, first: int, n: int, a: int, b: int)
    requires Greedy(q, w, first, n) && n + 1 < |q| && LightestRoots(q, w, n, a, b)
    ensures Greedy(Joined(q, a, b, n + 1), w[n + 1 := w[a] + w[b]], first, n + 1)
  {
    hide SonsOf, HasSons;
    var r, u := Joined(q, a, b, n + 1), w[n + 1 := w[a] + w[b]];
    forall t | first <= t <= n + 1 ensures HasSons(r, t) && Lightest(r, u, t) {
      JoinedSons(q, first, n, a, b, t);
      if t <= n { LightestKept(q, w, first, n, a, b, t); } else { LightestNew(q, w, n, a, b); }
    }
  }

  lemma LightestKept(q: seq<int>, w: seq<int>, first: int, n: int, a: int, b: int, t: int)
    requires Greedy(q, w, first, n) && n + 1 < |q| && LightestRoots(q, w, n, a, b) && first <= t <= n
    ensures Lightest(Joined(q, a, b, n + 1), w[n + 1 := w[a] + w[b]], t)
  {
    hide HasSons;
    var r, u := Joined(q, a, b, n + 1), w[n + 1 := w[a] + w[b]];
    JoinedSons(q, first, n, a, b, t);
    assert Lightest(q, w, t);
    forall c, d | SonsOf(r, t, c, d)
      ensures u[t] == u[c] + u[d] && forall y :: 0 <= y < t && Active(r, t, y) ==> u[c] <= u[y] && u[d] <= u[y]
    {
      assert SonsOf(q, t, c, d);
      assert forall y :: 0 <= y < t && Active(r, t, y) ==> Active(q, t, y);
    }
  }

  lemma LightestNew(q: seq<int>, w: seq<int>, n: int, a: int, b: int)
    requires |w| == |q| && n + 1 < |q| && LightestRoots(q, w, n, a, b) && forall j :: 0 <= j <= n ==> q[j] <= n
    ensures Lightest(Joined(q, a, b, n + 1), w[n + 1 := w[a] + w[b]], n + 1)
  {
    var r, t := Joined(q, a, b, n + 1), n + 1;
    forall c, d | SonsOf(r, t, c, d) ensures (c == a && d == b) || (c == b && d == a) { assert r[a] == t && r[b] == t; }
  }

  // ---- sums over the active nodes ----

  /** The values of the nodes before k that are active at t. */
  ghost function Sum(q: seq<int>, v: seq<int>, t: int, k: nat): int
    requires k <= |q| && k <= |v|
  {
    if k == 0 then 0 else Sum(q, v, t, k - 1) + if Active(q, t, k - 1) then v[k - 1] else 0
  }

  lemma {:induction false} SumSame(q: seq<int>, v: seq<int>, u: seq<int>, t: int, k: nat)
    requires k <= |q| && k <= |v| && k <= |u| && forall j :: 0 <= j < k && Active(q, t, j) ==> u[j] == v[j]
    ensures Sum(q, u, t, k) == Sum(q, v, t, k)
  {
    if k > 0 { SumSame(q, v, u, t, k - 1); }
  }

  lemma {:induction false} SumUpdate(q: seq<int>, v: seq<int>, t: int, k: nat, x: int, y: int)
    requires k <= |q| && k <= |v| && 0 <= x < k && Active(q, t, x)
    ensures Sum(q, v[x := y], t, k) == Sum(q, v, t, k) - v[x] + y
  {
    if x < k - 1 { SumUpdate(q, v, t, k - 1, x, y); } else { SumSame(q, v, v[x := y], t, k - 1); }
  }

  lemma {:induction false} SumAtLeast(q: seq<int>, v: seq<int>, t: int, k: nat)
    requires k <= |q| && k <= |v| && forall j :: 0 <= j < k && Active(q, t, j) ==> v[j] >= 0
    ensures Sum(q, v, t, k) >= 0
  {
    if k > 0 { SumAtLeast(q, v, t, k - 1); }
  }

  /** Making t takes its sons away. */
  lemma {:induction false} SumBefore(q: seq<int>, v: seq<int>, t: int, a: int, b: int, k: nat)
    requires k <= t < |q| && k <= |v| && t >= 0 && SonsOf(q, t, a, b) && forall j :: 0 <= j < k ==> q[j] != j
    ensures Sum(q, v, t - 1, k) ==
            Sum(q, v, t, k) + (if a < k then v[a] else 0) + (if b < k then v[b] else 0)
  {
    if k > 0 { SumBefore(q, v, t, a, b, k - 1); }
  }

  // ---- lengths ----

  /** Lengths of the active nodes are at most m. */
  ghost predicate UpTo(q: seq<int>, l: seq<int>, t: int, m: int) {
    t <= |q| && t <= |l| && forall j :: 0 <= j < t && Active(q, t - 1, j) ==> 0 <= l[j] <= m
  }

  /** What a code word of length l takes, in units of 2^-m. */
  function Share(m: int, l: int): (s: int)
    ensures s >= 0
  {
    if 0 <= l <= m then Pow2(m - l) else 0
  }

  ghost function Shares(l: seq<int>, m: int): (v: seq<int>)
    ensures |v| == |l| && forall j :: 0 <= j < |l| ==> v[j] == Share(m, l[j])
  {
    seq(|l|, j requires 0 <= j < |l| => Share(m, l[j]))
  }

  ghost function Costs(w: seq<int>, l: seq<int>): (v: seq<int>)
    requires |w| == |l|
    ensures |v| == |l| && forall j :: 0 <= j < |l| ==> v[j] == w[j] * l[j]
  {
    seq(|l|, j requires 0 <= j < |l| => w[j] * l[j])
  }

  ghost function Kraft(q: seq<int>, l: seq<int>, t: int, m: int): int
    requires 0 <= t <= |q| && t <= |l|
  {
    Sum(q, Shares(l, m), t - 1, t)
  }

  ghost function Cost(q: seq<int>, w: seq<int>, l: seq<int>, t: int): int
    requires 0 <= t <= |q| && t <= |l| == |w|
  {
    Sum(q, Costs(w, l), t - 1, t)
  }

  lemma KraftUpdate(q: seq<int>, l: seq<int>, t: int, m: int, x: int, y: int)
    requires 0 <= x < t <= |q| && t <= |l| && Active(q, t - 1, x)
    ensures Kraft(q, l[x := y], t, m) == Kraft(q, l, t, m) - Share(m, l[x]) + Share(m, y)
  {
    hide Share;
    assert Shares(l[x := y], m) == Shares(l, m)[x := Share(m, y)];
    SumUpdate(q, Shares(l, m), t - 1, t, x, Share(m, y));
  }

  lemma CostUpdate(q: seq<int>, w: seq<int>, l: seq<int>, t: int, x: int, y: int)
    requires 0 <= x < t <= |q| && t <= |l| == |w| && Active(q, t - 1, x)
    ensures Cost(q, w, l[x := y], t) == Cost(q, w, l, t) - w[x] * l[x] + w[x] * y
  {
    assert Costs(w, l[x := y]) == Costs(w, l)[x := w[x] * y];
    SumUpdate(q, Costs(w, l), t - 1, t, x, w[x] * y);
  }

  /** Lengths that nobody has at the top can be counted in units twice as large. */
  lemma {:induction false} HalfUnits(q: seq<int>, l: seq<int>, t: int, k: nat, m: nat)
    requires k <= |q| && k <= |l| && m > 0 && forall j :: 0 <= j < k && Active(q, t, j) ==> 0 <= l[j] < m
    ensures Sum(q, Shares(l, m), t, k) == 2 * Sum(q, Shares(l, m - 1), t, k)
  {
    if k > 0 {
      HalfUnits(q, l, t, k - 1, m);
      if Active(q, t, k - 1) { assert Pow2(m - l[k - 1]) == 2 * Pow2(m - 1 - l[k - 1]); }
    }
  }

  /** Two nodes exchange their lengths. */
  ghost function Swapped(l: seq<int>, x: int, y: int): (s: seq<int>)
    requires 0 <= x < |l| && 0 <= y < |l|
    ensures |s| == |l|
    ensures forall j :: 0 <= j < |l| ==> s[j] == if j == x then l[y] else if j == y then l[x] else l[j]
  {
    l[x := l[y]][y := l[x]]
  }

  /** The lighter node takes the longer length: no dearer. */
  lemma SwapIsNoDearer(q: seq<int>, w: seq<int>, l: seq<int>, t: int, m: int, x: int, y: int)
    requires 0 <= x < t <= |q| && 0 <= y < t && t <= |l| == |w| && Active(q, t - 1, x) && Active(q, t - 1, y)
    requires w[x] <= w[y] && l[x] <= l[y] && UpTo(q, l, t, m)
    ensures UpTo(q, Swapped(l, x, y), t, m) && Kraft(q, Swapped(l, x, y), t, m) == Kraft(q, l, t, m)
    ensures Cost(q, w, Swapped(l, x, y), t) <= Cost(q, w, l, t)
  {
    hide Share, Kraft, Cost;
    if x == y {
      assert Swapped(l, x, y) == l;
    } else {
      KraftUpdate(q, l, t, m, x, l[y]);
      KraftUpdate(q, l[x := l[y]], t, m, y, l[x]);
      CostUpdate(q, w, l, t, x, l[y]);
      CostUpdate(q, w, l[x := l[y]], t, y, l[x]);
      LessTimesMore(w[x], w[y], l[x], l[y]);
    }
  }

  lemma LessTimesMore(a: int, b: int, x: int, y: int)
    requires a <= b && x <= y
    ensures a * y + b * x <= a * x + b * y
  {
    assert (b - a) * (y - x) >= 0;
    assert (b - a) * (y - x) == b * y - b * x - a * y + a * x;
  }

  /** The weights of the nodes from t on. */
  ghost function Weigh(w: seq<int>, t: int, n: int): int
    requires 0 <= t && n < |w|
    decreases n - t
  {
    if t > n then 0 else w[t] + Weigh(w, t + 1, n)
  }

  /** Lengths that fit in one unit. */
  ghost predicate Fit(q: seq<int>, l: seq<int>, t: int, m: nat) {
    0 <= t <= |q| && t <= |l| && UpTo(q, l, t, m) && Kraft(q, l, t, m) <= Pow2(m)
  }

  lemma TwoActive(q: seq<int>, v: seq<int>, t: int, k: nat, a: int, b: int)
    requires k <= |q| && k <= |v| && 0 <= a < k && 0 <= b < k && a != b && Active(q, t, a) && Active(q, t, b)
    requires forall j :: 0 <= j < k && Active(q, t, j) ==> v[j] >= 0
    ensures Sum(q, v, t, k) >= v[a] + v[b]
  {
    SumUpdate(q, v, t, k, a, 0);
    SumUpdate(q, v[a := 0], t, k, b, 0);
    SumAtLeast(q, v[a := 0][b := 0], t, k);
  }

  /** Only one node has the longest length: it can have one less. */
  lemma ShortenLast(q: seq<int>, w: seq<int>, l: seq<int>, t: int, m: nat, c: int)
    requires Fit(q, l, t, m) && 0 <= c < t && Active(q, t - 1, c) && l[c] == m > 0 && |w| == |l| && w[c] >= 0
    requires forall j :: 0 <= j < t && j != c && Active(q, t - 1, j) ==> l[j] < m
    ensures Fit(q, l[c := m - 1], t, m - 1) && Cost(q, w, l[c := m - 1], t) <= Cost(q, w, l, t)
  {
    var s := l[c := m - 1];
    KraftUpdate(q, l, t, m, c, m - 1);
    assert Pow2(1) == 2 * Pow2(0);
    HalfUnits(q, s, t - 1, t, m);
    CostUpdate(q, w, l, t, c, m - 1);
    assert w[c] * (m - 1) == w[c] * m - w[c];
  }

  lemma FitSmaller(q: seq<int>, l: seq<int>, t: int, m: nat)
    requires Fit(q, l, t, m) && m > 0 && forall j :: 0 <= j < t && Active(q, t - 1, j) ==> l[j] < m
    ensures Fit(q, l, t, m - 1)
  {
    HalfUnits(q, l, t - 1, t, m);
  }

  /** The sons of t, both with the longest length, give t one less. */
  lemma MergeSons(q: seq<int>, w: seq<int>, l: seq<int>, first: int, n: int, t: int, m: nat, a: int, b: int)
    requires Greedy(q, w, first, n) && first <= t <= n && SonsOf(q, t, a, b) && |l| == |w|
    requires Fit(q, l, t, m) && l[a] == m && l[b] == m && m > 0
    ensures Fit(q, l[t := m - 1], t + 1, m)
    ensures Cost(q, w, l, t) == Cost(q, w, l[t := m - 1], t + 1) + w[t]
  {
    hide Sum, Forest;
    ForestAt(q, first, n, t);
    var s := l[t := m - 1];
    assert Lightest(q, w, t);
    SumSame(q, Shares(l, m), Shares(s, m), t, t);
    SumBefore(q, Shares(l, m), t, a, b, t);
    SumNext(q, Shares(s, m), t);
    assert Pow2(1) == 2 * Pow2(0);
    SumSame(q, Costs(w, l), Costs(w, s), t, t);
    SumBefore(q, Costs(w, l), t, a, b, t);
    SumNext(q, Costs(w, s), t);
    DeeperCost(w[a], w[b], m - 1);
  }

  lemma ForestAt(q: seq<int>, first: int, n: int, t: int)
    requires Forest(q, first, n) && first <= t <= n
    ensures t < |q| && Active(q, t, t) && forall j :: 0 <= j < t ==> q[j] != j
  {
  }

  /** Both sons get the longest length, or all lengths get shorter. */
  ghost predicate Better(q: seq<int>, w: seq<int>, l: seq<int>, s: seq<int>, t: int, m: nat, a: int, b: int) {
    && |s| == |l| == |w| && 0 <= a < |s| && 0 <= b < |s|
    && Fit(q, l, t, m) && Fit(q, s, t, m) && Cost(q, w, s, t) <= Cost(q, w, l, t)
    && ((s[a] == m && s[b] == m) || (m > 0 && Fit(q, s, t, m - 1)))
  }

  /** c has the longest length; d is to get it too. */
  lemma SecondSon(q: seq<int>, w: seq<int>, l: seq<int>, t: int, m: nat, c: int, d: int) returns (s: seq<int>)
    requires Fit(q, l, t, m) && |l| == |w| && 0 <= c < t && 0 <= d < t && c != d && l[c] == m > 0
    requires Active(q, t - 1, c) && Active(q, t - 1, d) && w[c] >= 0
    requires forall y :: 0 <= y < t && Active(q, t - 1, y) && y != c && y != d ==> w[d] <= w[y]
    ensures Better(q, w, l, s, t, m, c, d)
  {
    hide Kraft, Cost;
    if y :| 0 <= y < t && y != c && Active(q, t - 1, y) && l[y] == m {
      SwapIsNoDearer(q, w, l, t, m, d, y);
      s := Swapped(l, d, y);
    } else {
      ShortenLast(q, w, l, t, m, c);
      s := l[c := m - 1];
      FitLarger(q, s, t, m);
    }
  }

  lemma FitLarger(q: seq<int>, l: seq<int>, t: int, m: nat)
    requires m > 0 && Fit(q, l, t, m - 1)
    ensures Fit(q, l, t, m)
  {
    HalfUnits(q, l, t - 1, t, m);
  }

  lemma BothSons(q: seq<int>, w: seq<int>, l: seq<int>, t: int, m: nat, a: int, b: int) returns (s: seq<int>)
    requires Fit(q, l, t, m) && |l| == |w| && 0 <= a < t && 0 <= b < t && a != b && m > 0
    requires Active(q, t - 1, a) && Active(q, t - 1, b) && w[a] >= 0 && w[b] >= 0
    requires forall y :: 0 <= y < t && Active(q, t - 1, y) && y != a && y != b ==> w[a] <= w[y] && w[b] <= w[y]
    ensures Better(q, w, l, s, t, m, a, b)
  {
    hide Kraft, Cost;
    if l[a] == m {
      s := SecondSon(q, w, l, t, m, a, b);
    } else if l[b] == m {
      s := SecondSon(q, w, l, t, m, b, a);
    } else if x :| 0 <= x < t && Active(q, t - 1, x) && l[x] == m {
      SwapIsNoDearer(q, w, l, t, m, a, x);
      s := SecondSon(q, w, Swapped(l, a, x), t, m, a, b);
    } else {
      FitSmaller(q, l, t, m);
      s := l;
    }
  }

  /** Two nodes of length zero take two units. */
  lemma NotBothZero(q: seq<int>, l: seq<int>, t: int, m: nat, a: int, b: int)
    requires Fit(q, l, t, m) && 0 <= a < t && 0 <= b < t && a != b && Active(q, t - 1, a) && Active(q, t - 1, b)
    ensures m > 0
  {
    TwoActive(q, Shares(l, m), t - 1, t, a, b);
  }

  lemma SonsActive(q: seq<int>, w: seq<int>, first: int, n: int, t: int) returns (a: int, b: int)
    requires Greedy(q, w, first, n) && first <= t <= n
    ensures SonsOf(q, t, a, b) && Active(q, t - 1, a) && Active(q, t - 1, b) && w[a] >= 0 && w[b] >= 0
    ensures forall y :: 0 <= y < t && Active(q, t - 1, y) && y != a && y != b ==> w[a] <= w[y] && w[b] <= w[y]
    ensures t < |w|
  {
    assert HasSons(q, t);
    a, b :| SonsOf(q, t, a, b);
    assert Lightest(q, w, t);
    forall y | 0 <= y < t && Active(q, t - 1, y) && y != a && y != b ensures w[a] <= w[y] && w[b] <= w[y] {
      assert Active(q, t, y);
    }
  }

  /** Whatever lengths fit, they cost at least what the merges from t on weigh. */
  lemma {:induction false} LowerBound(q: seq<int>, w: seq<int>, l: seq<int>, first: int, n: int, t: int, m: nat)
    requires Greedy(q, w, first, n) && Tree(q, first, n) && first <= t <= n + 1 && |l| == |w| && Fit(q, l, t, m)
    ensures Cost(q, w, l, t) >= Weigh(w, t, n)
    decreases n + 1 - t, m
  {
    hide Kraft, Cost, Greedy, Tree, Fit;
    if t == n + 1 {
      CostNotNegative(q, w, l, first, n, m);
    } else {
      var a, b := SonsActive(q, w, first, n, t);
      NotBothZero(q, l, t, m, a, b);
      var s := BothSons(q, w, l, t, m, a, b);
      if s[a] == m && s[b] == m {
        MergeSons(q, w, s, first, n, t, m, a, b);
        LowerBound(q, w, s[t := m - 1], first, n, t + 1, m);
      } else {
        LowerBound(q, w, s, first, n, t, m - 1);
      }
    }
  }

  lemma CostNotNegative(q: seq<int>, w: seq<int>, l: seq<int>, first: int, n: int, m: nat)
    requires Greedy(q, w, first, n) && |l| == |w| && Fit(q, l, n + 1, m)
    ensures Cost(q, w, l, n + 1) >= 0
  {
    forall j | 0 <= j < n + 1 && Active(q, n, j) ensures Costs(w, l)[j] >= 0 { NotNegative(w[j], l[j]); }
    SumAtLeast(q, Costs(w, l), n, n + 1);
  }

  lemma NotNegative(x: int, y: int)
    requires x >= 0 && y >= 0
    ensures x * y >= 0
  {
  }

  // ---- the depths ----

  function Depth(q: seq<int>, first: int, n: int, k: int): (d: nat)
    requires Tree(q, first, n) && 0 <= k <= n && q[k] != NO_NODE
    ensures d <= n - k
    decreases n - k
  {
    if q[k] == NO_FATHER then 0 else 1 + Depth(q, first, n, q[k])
  }

  /** The depths of all nodes that are there. */
  ghost predicate Depths(q: seq<int>, first: int, n: int, d: seq<int>) {
    && Tree(q, first, n) && |d| == |q|
    && forall k :: 0 <= k <= n && q[k] != NO_NODE ==> d[k] == Depth(q, first, n, k)
  }

  lemma GreedySize(q: seq<int>, w: seq<int>, first: int, n: int)
    requires Greedy(q, w, first, n)
    ensures |w| == |q|
  {
  }

  lemma DepthsTree(q: seq<int>, first: int, n: int, d: seq<int>)
    requires Depths(q, first, n, d)
    ensures Tree(q, first, n) && |d| == |q|
  {
    hide Depth;
  }

  /** The depths cost exactly what the merges weigh. */
  lemma {:induction false} DepthsCost(q: seq<int>, w: seq<int>, d: seq<int>, first: int, n: int, t: int)
    requires Greedy(q, w, first, n) && Depths(q, first, n, d) && first <= t <= n + 1
    ensures Cost(q, w, d, t) == Weigh(w, t, n)
    decreases n + 1 - t
  {
    GreedySize(q, w, first, n);
    hide Greedy;
    if t == n + 1 {
      OnlyRoot(q, w, d, first, n);
    } else {
      DepthsCost(q, w, d, first, n, t + 1);
      var a, b := SonsActive(q, w, first, n, t);
      CostOfSons(q, w, d, first, n, t, a, b);
    }
  }

  lemma {:induction false} OnlyRoot(q: seq<int>, w: seq<int>, d: seq<int>, first: int, n: int)
    requires Tree(q, first, n) && Depths(q, first, n, d) && |w| == |q|
    ensures Cost(q, w, d, n + 1) == 0
  {
    var v := Costs(w, d);
    assert v[n] == w[n] * 0;
    NoneActive(q, v, first, n, n);
  }

  lemma {:induction false} NoneActive(q: seq<int>, v: seq<int>, first: int, n: int, k: nat)
    requires Tree(q, first, n) && k <= n && k <= |v|
    ensures Sum(q, v, n, k) == 0
  {
    if k > 0 { NoneActive(q, v, first, n, k - 1); }
  }

  lemma SonsDepth(q: seq<int>, first: int, n: int, d: seq<int>, t: int, a: int, b: int)
    requires Depths(q, first, n, d) && first <= t <= n && SonsOf(q, t, a, b)
    ensures d[a] == 1 + d[t] && d[b] == 1 + d[t] && (q[t] == NO_FATHER || q[t] > t)
  {
    assert d[t] == Depth(q, first, n, t);
  }

  lemma {:induction false} SumNext(q: seq<int>, v: seq<int>, t: nat)
    requires t < |q| && t < |v| && Active(q, t, t)
    ensures Sum(q, v, t, t + 1) == Sum(q, v, t, t) + v[t]
  {
  }

  lemma DeeperCost(x: int, y: int, d: int)
    ensures x * (1 + d) + y * (1 + d) == (x + y) * d + (x + y)
  {
  }

  lemma {:induction false} CostOfSons(q: seq<int>, w: seq<int>, d: seq<int>, first: int, n: int, t: int, a: int, b: int)
    requires Greedy(q, w, first, n) && Depths(q, first, n, d) && first <= t <= n && SonsOf(q, t, a, b)
    ensures Cost(q, w, d, t) == Cost(q, w, d, t + 1) + w[t]
  {
    hide Sum, Depth;
    SonsDepth(q, first, n, d, t, a, b);
    assert Lightest(q, w, t);
    SumBefore(q, Costs(w, d), t, a, b, t);
    SumNext(q, Costs(w, d), t);
    DeeperCost(w[a], w[b], d[t]);
  }

  /** And they fill the unit. */
  lemma {:induction false} DepthsFill(q: seq<int>, d: seq<int>, first: int, n: int, t: int, m: nat)
    requires Depths(q, first, n, d) && first <= t <= n + 1 && m >= n
    ensures Kraft(q, d, t, m) == Pow2(m)
    decreases n + 1 - t
  {
    hide Depths, Tree, Sum;
    DepthsTree(q, first, n, d);
    TreeFirst(q, first, n);
    if t == n + 1 {
      RootFills(q, d, first, n, m);
    } else {
      DepthsFill(q, d, first, n, t + 1, m);
      SonsFill(q, d, first, n, t, m);
    }
  }

  lemma {:induction false} RootFills(q: seq<int>, d: seq<int>, first: int, n: int, m: nat)
    requires Depths(q, first, n, d)
    ensures Kraft(q, d, n + 1, m) == Pow2(m)
  {
    NoneActive(q, Shares(d, m), first, n, n);
  }

  lemma {:induction false} SonsFill(q: seq<int>, d: seq<int>, first: int, n: int, t: int, m: nat)
    requires Depths(q, first, n, d) && first <= t <= n && m >= n
    ensures Kraft(q, d, t, m) == Kraft(q, d, t + 1, m)
  {
    hide Sum, Depth;
    assert HasSons(q, t);
    var a, b :| SonsOf(q, t, a, b);
    SonsDepth(q, first, n, d, t, a, b);
    assert d[a] == Depth(q, first, n, a) <= n - a;
    assert Pow2(m - d[t]) == 2 * Pow2(m - d[a]);
    SumBefore(q, Shares(d, m), t, a, b, t);
    SumNext(q, Shares(d, m), t);
  }

  lemma TreeFirst(q: seq<int>, first: int, n: int)
    requires Tree(q, first, n)
    ensures 0 < first <= n < |q|
  {
  }

  /** Main result: no lengths of the leaves that fit in one unit cost less than their depths. */
  lemma DepthsAreLeast(q: seq<int>, w: seq<int>, d: seq<int>, l: seq<int>, first: int, n: int, m: nat)
    requires Greedy(q, w, first, n) && Depths(q, first, n, d) && |l| == |w| && Fit(q, l, first, m)
    ensures Cost(q, w, d, first) <= Cost(q, w, l, first)
  {
    DepthsTree(q, first, n, d);
    hide Greedy, Depths, Kraft, Cost, Fit, Tree;
    TreeFirst(q, first, n);
    LowerBound(q, w, l, first, n, first, m);
    DepthsCost(q, w, d, first, n, first);
  }

  // ---- the same for lists of symbols ----

  ghost function Total(v: seq<int>, k: nat): int
    requires k <= |v|
  {
    if k == 0 then 0 else Total(v, k - 1) + v[k - 1]
  }

  /** What coding takes with these lengths, for symbols that occur so often. */
  ghost function TotalCost(w: seq<int>, l: seq<int>): int
    requires |w| == |l|
  {
    Total(Costs(w, l), |w|)
  }

  /** The shares of the symbols that occur. */
  ghost function UsedShares(w: seq<int>, l: seq<int>, m: nat): (v: seq<int>)
    requires |w| == |l|
    ensures |v| == |l| && forall i :: 0 <= i < |l| ==> v[i] == if w[i] == 0 then 0 else Share(m, l[i])
  {
    seq(|l|, i requires 0 <= i < |l| => if w[i] == 0 then 0 else Share(m, l[i]))
  }

  /** Lengths of at most m that satisfy Kraft's inequality: those that a prefix code can have. */
  ghost predicate CodeWithin(w: seq<int>, l: seq<int>, m: nat) {
    && |w| == |l| && (forall i :: 0 <= i < |w| && w[i] != 0 ==> 0 <= l[i] <= m)
    && Total(UsedShares(w, l, m), |w|) <= Pow2(m)
  }

  ghost predicate Codes(w: seq<int>, l: seq<int>) {
    exists m: nat :: CodeWithin(w, l, m)
  }

  /** No prefix code takes less for symbols that occur so often. */
  ghost predicate Cheapest(w: seq<int>, l: seq<int>) {
    && |w| == |l| && Codes(w, l)
    && forall k: seq<int> :: Codes(w, k) ==> TotalCost(w, l) <= TotalCost(w, k)
  }

  /** The leaves of a tree are the symbols from off on; those that do not occur have no node. */
  ghost predicate LeavesFor(q: seq<int>, u: seq<int>, first: int, off: nat, w: seq<int>) {
    && |u| == |q| && off + |w| == first <= |q| && (forall j :: 0 <= j < off ==> q[j] == NO_NODE)
    && forall i :: 0 <= i < |w| ==>
      if q[off + i] == NO_NODE then w[i] == 0 else w[i] != 0 && u[off + i] == w[i] && Active(q, first - 1, off + i)
  }

  /** The value of a symbol is that of its leaf, and zero when it has none. */
  ghost predicate SameValue(q: seq<int>, v: seq<int>, t: int, off: nat, u: seq<int>, i: nat)
    requires i < |u| && off + i < |q| == |v|
  {
    if q[off + i] == NO_NODE then u[i] == 0 else Active(q, t, off + i) && v[off + i] == u[i]
  }

  lemma {:induction false} SumIsTotal(q: seq<int>, v: seq<int>, t: nat, off: nat, u: seq<int>, k: nat)
    requires k <= |u| && off + k <= |q| && |v| == |q| && forall j :: 0 <= j < off ==> q[j] == NO_NODE
    requires forall i: nat :: i < k ==> SameValue(q, v, t, off, u, i)
    ensures Sum(q, v, t, off + k) == Total(u, k)
  {
    if k > 0 {
      SumIsTotal(q, v, t, off, u, k - 1);
      assert SameValue(q, v, t, off, u, k - 1);
    } else {
      NothingBefore(q, v, t, off);
    }
  }

  lemma {:induction false} NothingBefore(q: seq<int>, v: seq<int>, t: nat, off: nat)
    requires off <= |q| && |v| == |q| && forall j :: 0 <= j < off ==> q[j] == NO_NODE
    ensures Sum(q, v, t, off) == 0
  {
    if off > 0 { NothingBefore(q, v, t, off - 1); }
  }

  /** Lengths of symbols as lengths of nodes. */
  ghost function Spread(q: seq<int>, off: nat, l: seq<int>): (s: seq<int>)
    ensures |s| == |q|
    ensures forall j :: 0 <= j < |q| ==> s[j] == if off <= j < off + |l| then l[j - off] else 0
  {
    seq(|q|, j requires 0 <= j < |q| => if off <= j < off + |l| then l[j - off] else 0)
  }

  /** Nodes and symbols with the same lengths have the same values. */
  lemma SameValues(q: seq<int>, u: seq<int>, first: int, off: nat, w: seq<int>, s: seq<int>, l: seq<int>, m: nat,
      i: nat)
    requires LeavesFor(q, u, first, off, w) && |l| == |w| && |s| == |q| && i < |w|
    requires w[i] != 0 ==> s[off + i] == l[i]
    ensures SameValue(q, Costs(u, s), first - 1, off, Costs(w, l), i)
    ensures SameValue(q, Shares(s, m), first - 1, off, UsedShares(w, l, m), i)
  {
    hide Share;
    if w[i] == 0 { assert Costs(w, l)[i] == 0 * l[i] == 0; }
  }

  lemma SumsAreTotals(q: seq<int>, u: seq<int>, first: int, off: nat, w: seq<int>, s: seq<int>, l: seq<int>, m: nat)
    requires LeavesFor(q, u, first, off, w) && |l| == |w| && |s| == |q| && first > 0
    requires forall i :: 0 <= i < |w| && w[i] != 0 ==> s[off + i] == l[i]
    ensures Cost(q, u, s, first) == TotalCost(w, l)
    ensures Kraft(q, s, first, m) == Total(UsedShares(w, l, m), |w|)
  {
    hide Sum, Total, SameValue, Costs, Shares, UsedShares;
    var t, c, k, x, y := first - 1, Costs(u, s), Costs(w, l), Shares(s, m), UsedShares(w, l, m);
    forall i: nat | i < |w| ensures SameValue(q, c, t, off, k, i) { SameValues(q, u, first, off, w, s, l, m, i); }
    forall i: nat | i < |w| ensures SameValue(q, x, t, off, y, i) { SameValues(q, u, first, off, w, s, l, m, i); }
    SumIsTotal(q, c, t, off, k, |w|);
    SumIsTotal(q, x, t, off, y, |w|);
  }

  lemma SpreadFits(q: seq<int>, u: seq<int>, first: int, off: nat, w: seq<int>, l: seq<int>, m: nat)
    requires LeavesFor(q, u, first, off, w) && |l| == |w| && first > 0
    ensures Cost(q, u, Spread(q, off, l), first) == TotalCost(w, l)
    ensures CodeWithin(w, l, m) ==> Fit(q, Spread(q, off, l), first, m)
  {
    hide Sum, Total, Cost, Kraft, TotalCost, UsedShares;
    var s := Spread(q, off, l);
    SumsAreTotals(q, u, first, off, w, s, l, m);
    if CodeWithin(w, l, m) {
      forall j | 0 <= j < first && Active(q, first - 1, j) ensures 0 <= s[j] <= m { assert s[j] == l[j - off]; }
    }
  }

  lemma DepthsSpread(q: seq<int>, u: seq<int>, d: seq<int>, first: int, n: int, off: nat, w: seq<int>, l: seq<int>)
    requires LeavesFor(q, u, first, off, w) && |l| == |w| && Depths(q, first, n, d)
    requires forall i :: 0 <= i < |w| && w[i] != 0 ==> l[i] == d[off + i]
    ensures Cost(q, u, d, first) == TotalCost(w, l)
    ensures Kraft(q, d, first, n) == Total(UsedShares(w, l, n), |w|)
    ensures forall i :: 0 <= i < |w| && w[i] != 0 ==> 0 <= l[i] <= n
  {
    hide Cost, Kraft, TotalCost, UsedShares, Total, Depth;
    SumsAreTotals(q, u, first, off, w, d, l, n);
    forall i | 0 <= i < |w| && w[i] != 0 ensures 0 <= l[i] <= n {
      assert d[off + i] == Depth(q, first, n, off + i) <= n - (off + i);
    }
  }

  /** The depths of the leaves are lengths of a cheapest prefix code. */
  lemma LeavesAreCheapest(q: seq<int>, u: seq<int>, d: seq<int>, first: int, n: int, off: nat, w: seq<int>, l: seq<int>)
    requires Greedy(q, u, first, n) && Depths(q, first, n, d) && LeavesFor(q, u, first, off, w) && |l| == |w|
    requires forall i :: 0 <= i < |w| && w[i] != 0 ==> l[i] == d[off + i]
    ensures Cheapest(w, l)
  {
    DepthsTree(q, first, n, d);
    TreeFirst(q, first, n);
    GreedySize(q, u, first, n);
    hide Greedy, Depths, LeavesFor, Tree, Kraft, Cost, Fit, Total, UsedShares, Costs;
    DepthsSpread(q, u, d, first, n, off, w, l);
    DepthsFill(q, d, first, n, first, n);
    assert CodeWithin(w, l, n);
    forall k: seq<int> | Codes(w, k) ensures TotalCost(w, l) <= TotalCost(w, k) {
      var m: nat :| CodeWithin(w, k, m);
      SpreadFits(q, u, first, off, w, k, m);
      DepthsAreLeast(q, u, d, Spread(q, off, k), first, n, m);
    }
  }

  /** A cheapest prefix code has a code word that is too long. */
  ghost predicate CheapestTooLong(w: seq<int>, m: int) {
    exists l: seq<int>, x :: Cheapest(w, l) && 0 <= x < |w| && w[x] != 0 && l[x] > m
  }

  // ---- frequent symbols have short code words ----

  lemma {:induction false} TotalSame(v: seq<int>, u: seq<int>, k: nat)
    requires k <= |v| && k <= |u| && forall j :: 0 <= j < k ==> u[j] == v[j]
    ensures Total(u, k) == Total(v, k)
  {
    if k > 0 { TotalSame(v, u, k - 1); }
  }

  lemma {:induction false} TotalUpdate(v: seq<int>, k: nat, x: int, y: int)
    requires k <= |v| && 0 <= x < k
    ensures Total(v[x := y], k) == Total(v, k) - v[x] + y
  {
    if x < k - 1 { TotalUpdate(v, k - 1, x, y); } else { TotalSame(v, v[x := y], k - 1); }
  }

  /** No symbol has a longer code word than a less frequent one. */
  ghost predicate Monotone(w: seq<int>, l: seq<int>) {
    |w| == |l| && forall x, y :: 0 <= x < |w| && 0 <= y < |w| && w[x] > w[y] > 0 ==> l[x] <= l[y]
  }

  lemma {:induction false} SwappedCode(w: seq<int>, l: seq<int>, x: int, y: int, m: nat)
    requires CodeWithin(w, l, m) && 0 <= x < |w| && 0 <= y < |w| && x != y && w[x] != 0 && w[y] != 0
    ensures CodeWithin(w, Swapped(l, x, y), m)
    ensures TotalCost(w, Swapped(l, x, y)) == TotalCost(w, l) + (w[x] - w[y]) * (l[y] - l[x])
  {
    hide Total, Share;
    var k, n := Swapped(l, x, y), |w|;
    var a, b := UsedShares(w, l, m), Costs(w, l);
    assert UsedShares(w, k, m) == a[x := a[y]][y := a[x]];
    assert Costs(w, k) == b[x := w[x] * l[y]][y := w[y] * l[x]];
    TotalUpdate(a, n, x, a[y]);
    TotalUpdate(a[x := a[y]], n, y, a[x]);
    TotalUpdate(b, n, x, w[x] * l[y]);
    TotalUpdate(b[x := w[x] * l[y]], n, y, w[y] * l[x]);
    assert (w[x] - w[y]) * (l[y] - l[x]) == w[x] * l[y] - w[x] * l[x] - w[y] * l[y] + w[y] * l[x];
  }

  /** In a cheapest code frequent symbols have short code words. */
  lemma {:induction false} CheapestIsMonotone(w: seq<int>, l: seq<int>)
    requires Cheapest(w, l)
    ensures Monotone(w, l)
  {
    hide TotalCost, CodeWithin, Swapped;
    forall x, y | 0 <= x < |w| && 0 <= y < |w| && w[x] > w[y] > 0 ensures l[x] <= l[y] {
      var m: nat :| CodeWithin(w, l, m);
      SwappedCode(w, l, x, y, m);
      assert Codes(w, Swapped(l, x, y));
      if l[x] > l[y] { LessForMore(w[x], w[y], l[x], l[y]); }
    }
  }

  lemma LessForMore(a: int, b: int, x: int, y: int)
    requires a > b && x > y
    ensures (a - b) * (y - x) < 0
  {
  }
}

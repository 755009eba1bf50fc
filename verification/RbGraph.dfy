/** The nodes of rbtree.h as a graph: what the pointers of a set of nodes are at one moment, and
    what a traversal that takes no lock needs of it. */
module RbGraph {

  /** struct rb_node; the parent pointer and the colour share a word there. */
  class Node {
    var left: Node?
    var right: Node?
    var parent: Node?
    var red: bool

    constructor ()
    {
      left, right, parent, red := null, null, null, true;
    }
  }

  datatype Cell = Cell(left: Node?, right: Node?, parent: Node?, red: bool)

  type Graph = map<Node, Cell>

  /** The child on one side. */
  function Kid(c: Cell, left: bool): Node? { if left then c.left else c.right }

  function SetKid(g: Graph, n: Node, left: bool, c: Node?): Graph
    requires n in g
  {
    g[n := if left then g[n].(left := c) else g[n].(right := c)]
  }

  function SetParentColor(g: Graph, n: Node, par: Node?, red: bool): Graph
    requires n in g
  {
    g[n := g[n].(parent := par, red := red)]
  }

  /** No child pointer of n leads into s. */
  ghost predicate NoKidIn(g: Graph, n: Node, s: set<Node>)
    requires n in g
  {
    (g[n].left == null || g[n].left !in s) && (g[n].right == null || g[n].right !in s)
  }

  /** There are no loops: every set of nodes has one without a child in the set. */
  ghost predicate Acyclic(g: Graph) {
    forall s: set<Node> | s <= g.Keys && s != {} :: HasEnd(g, s)
  }

  ghost predicate HasEnd(g: Graph, s: set<Node>)
    requires s <= g.Keys
  {
    exists n :: n in s && NoKidIn(g, n, s)
  }

  lemma EndOf(g: Graph, s: set<Node>) returns (n: Node)
    requires Acyclic(g) && s <= g.Keys && s != {}
    ensures n in s && NoKidIn(g, n, s)
  {
    assert HasEnd(g, s);
    n :| n in s && NoKidIn(g, n, s);
  }

  /** The child pointers of k stay within k. */
  ghost predicate Closed(g: Graph, k: set<Node>) {
    forall n :: n in k ==> n in g && (g[n].left == null || g[n].left in k) && (g[n].right == null || g[n].right in k)
  }

  /** One step of a walk follows a child pointer. */
  ghost predicate Walk(g: Graph, s: seq<Node>) {
    s != [] ==>
      s[0] in g && (|s| > 1 ==> (g[s[0]].left == s[1] || g[s[0]].right == s[1]) && Walk(g, s[1..]))
  }

  /** The set of the nodes of a walk. */
  ghost function Visited(s: seq<Node>): set<Node> { set n | n in s }

  lemma {:induction false} WalkStays(g: Graph, s: seq<Node>, n: Node)
    requires Walk(g, s) && n in s
    ensures n in g
  {
    if n != s[0] { WalkStays(g, s[1..], n); }
  }

  lemma {:induction false} KidOnWalk(g: Graph, s: seq<Node>, i: int)
    requires Walk(g, s) && 0 <= i < |s| - 1
    ensures s[i] in g && (g[s[i]].left == s[i + 1] || g[s[i]].right == s[i + 1])
  {
    if i > 0 { KidOnWalk(g, s[1..], i - 1); }
  }

  /** A traversal never comes back to where it was, so it ends. */
  lemma {:induction false} WalksEnd(g: Graph, s: seq<Node>, i: int, j: int)
    requires Acyclic(g) && Walk(g, s) && 0 <= i < j < |s|
    ensures s[i] != s[j]
  {
    if s[i] == s[j] {
      var loop := Visited(s[i..j]);
      forall n | n in loop ensures n in g { WalkStays(g, s, n); }
      assert s[i..j][0] in loop && loop <= g.Keys;
      var end := EndOf(g, loop);
      forall n | n in loop ensures n in g && !NoKidIn(g, n, loop) {
        var k :| 0 <= k < j - i && s[i..j][k] == n;
        KidOnWalk(g, s, i + k);
        var next := if k + 1 < j - i then k + 1 else 0;
        assert s[i + k + 1] == s[i..j][next] && s[i..j][next] in loop;
      }
    }
  }

  /** A store into n keeps the graph free of loops when its new child leads nowhere near n. */
  lemma StoreKeepsAcyclic(g: Graph, n: Node, left: bool, c: Node?, k: set<Node>)
    requires Acyclic(g) && n in g && Closed(g, k) && n !in k && (c == null || c in k)
    ensures Acyclic(SetKid(g, n, left, c))
  {
    var h := SetKid(g, n, left, c);
    forall s: set<Node> | s <= h.Keys && s != {} ensures HasEnd(h, s) {
      if s * k != {} {
        var m := EndOf(g, s * k);
        assert m in k && m in s;
        assert NoKidIn(h, m, s);
      } else {
        var m := EndOf(g, s);
        assert c != null && c in s ==> c in s * k;
        assert NoKidIn(h, m, s);
      }
    }
  }

  /** The same child pointers. */
  ghost predicate SameKids(g: Graph, h: Graph) {
    g.Keys == h.Keys && forall n :: n in g ==> h[n].left == g[n].left && h[n].right == g[n].right
  }

  lemma SameKidsAcyclic(g: Graph, h: Graph)
    requires Acyclic(g) && SameKids(g, h)
    ensures Acyclic(h)
  {
    forall s: set<Node> | s <= h.Keys && s != {} ensures HasEnd(h, s) {
      var m := EndOf(g, s);
      assert NoKidIn(h, m, s);
    }
  }

  // ---- what a traversal may see ----

  /** The root pointer and all nodes at one moment. */
  datatype View = View(root: Node?, g: Graph)

  /** Whoever starts at the root meets only nodes of the tree, and comes to an end. */
  ghost predicate Safe(v: View) {
    Acyclic(v.g) && Closed(v.g, v.g.Keys) && (v.root == null || v.root in v.g)
  }

  /** A traversal sees no difference. */
  ghost predicate Unseen(v: View, w: View) {
    v.root == w.root && v.g.Keys <= w.g.Keys
    && forall n :: n in v.g ==> w.g[n].left == v.g[n].left && w.g[n].right == v.g[n].right
  }

  /** Only one of the child pointers of n is different. */
  ghost predicate OneKid(g: Graph, h: Graph, n: Node)
    requires n in g && g.Keys <= h.Keys
  {
    && (forall m :: m in g && m != n ==> h[m].left == g[m].left && h[m].right == g[m].right)
    && (h[n].left == g[n].left || h[n].right == g[n].right)
  }

  /** The views differ by one store, of a child pointer or of the root pointer; parents and colours
      do not matter, nor do new nodes that nothing led to. */
  ghost predicate OneStore(v: View, w: View) {
    || Unseen(v.(root := w.root), w)
    || (v.root == w.root && v.g.Keys <= w.g.Keys && exists n :: n in v.g && OneKid(v.g, w.g, n))
  }

  /** A moment: what there is now, and the record of the views after each store. */
  datatype Moment = Moment(now: View, views: seq<View>)

  /** The view before the i-th one of the record. */
  ghost function Prior(a: Moment, views: seq<View>, i: int): View
    requires |a.views| <= i <= |views|
  {
    if i == |a.views| then a.now else views[i - 1]
  }

  /** From one moment to another the record tells every store: each view that was added is safe and
      differs by one store from the one before it, beginning with what there was, and the last is
      what there is. */
  ghost predicate Recorded(a: Moment, b: Moment) {
    && a.views <= b.views
    && (forall i :: |a.views| <= i < |b.views| ==> Safe(b.views[i]) && OneStore(Prior(a, b.views, i), b.views[i]))
    && Unseen(Prior(a, b.views, |b.views|), b.now)
  }

  lemma UnseenThenStore(u: View, v: View, w: View)
    requires Unseen(u, v) && OneStore(v, w)
    ensures OneStore(u, w)
  {
    if !Unseen(v.(root := w.root), w) {
      var n :| n in v.g && OneKid(v.g, w.g, n);
      if n in u.g {
        assert OneKid(u.g, w.g, n);
      } else {
        assert Unseen(u.(root := w.root), w);
      }
    }
  }

  lemma UnseenTwice(u: View, v: View, w: View)
    requires Unseen(u, v) && Unseen(v, w)
    ensures Unseen(u, w)
  {
  }

  lemma RecordedOn(a: Moment, b: Moment, c: Moment)
    requires Recorded(a, b) && Recorded(b, c)
    ensures Recorded(a, c)
  {
    hide Safe, OneStore, Unseen;
    var m, n := |b.views|, |c.views|;
    forall i | |a.views| <= i < n ensures Safe(c.views[i]) && OneStore(Prior(a, c.views, i), c.views[i]) {
      if i < m {
        assert c.views[i] == b.views[i] && Prior(a, c.views, i) == Prior(a, b.views, i);
      } else if i == m {
        assert Prior(b, c.views, m) == b.now && Prior(a, c.views, m) == Prior(a, b.views, m);
        UnseenThenStore(Prior(a, b.views, m), b.now, c.views[m]);
      }
    }
    if n == m { UnseenTwice(Prior(a, b.views, m), b.now, c.now); }
  }

  lemma NothingRecorded(a: Moment, b: Moment)
    requires a.views == b.views && Unseen(a.now, b.now)
    ensures Recorded(a, b)
  {
  }

  lemma NothingSince(a: Moment)
    ensures Recorded(a, a)
  {
  }

  lemma StoreRecorded(a: Moment, b: Moment)
    requires b.views == a.views + [b.now] && Safe(b.now) && OneStore(a.now, b.now)
    ensures Recorded(a, b)
  {
    hide Safe, OneStore;
  }

  lemma KidStored(v: View, n: Node, left: bool, c: Node?)
    requires n in v.g
    ensures OneStore(v, v.(g := SetKid(v.g, n, left, c)))
  {
    assert OneKid(v.g, SetKid(v.g, n, left, c), n);
  }

  lemma SafeAgain(v: View, w: View)
    requires Safe(v) && SameKids(v.g, w.g) && v.root == w.root
    ensures Safe(w)
  {
    SameKidsAcyclic(v.g, w.g);
  }

  lemma SafeStore(v: View, n: Node, left: bool, c: Node?, k: set<Node>)
    requires Safe(v) && n in v.g && Closed(v.g, k) && n !in k && (c == null || c in k)
    ensures Safe(v.(g := SetKid(v.g, n, left, c)))
  {
    hide Acyclic;
    StoreKeepsAcyclic(v.g, n, left, c, k);
  }
}

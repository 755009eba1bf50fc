/** Walking a tree in order, and linking a node into it. */
module RbWalk {
  import opened RbGraph
  import opened RbTrees
  import opened RbRoots
  import opened RbInsert

  ghost function FirstOf(s: seq<Node>): Node? { if s == [] then null else s[0] }

  ghost function LastOf(s: seq<Node>): Node? { if s == [] then null else s[|s| - 1] }

  /** The end of the order on one side. */
  ghost function EndOfOrder(s: seq<Node>, left: bool): Node? { if left then FirstOf(s) else LastOf(s) }

  /** What comes after, or before, the subtree. */
  ghost function Outside(c: Context, right: bool): seq<Node> { if right then After(c) else Before(c) }

  lemma {:induction false} SonsAt(root: RbRoot, c: Context, t: Tree)
    requires t.T? && root.At(c, t, t.n)
    ensures t.n in root.nodes && root.At(In(true, t.red, t.n, t.r, c), t.l, t.n.left)
        && root.At(In(false, t.red, t.n, t.l, c), t.r, t.n.right)
    ensures (t.l.Leaf? <==> t.n.left == null) && (t.r.Leaf? <==> t.n.right == null)
    ensures (t.l.T? ==> t.l.n == t.n.left) && (t.r.T? ==> t.r.n == t.n.right)
  {
    hide Safe, Nodes, Distinct, ContextNodes, ContextDistinct, Fits;
    assert t == Make(true, t.red, t.l, t.n, t.r) && t == Make(false, t.red, t.r, t.n, t.l);
    Down(root, true, t.red, t.n, t.r, c, t.l);
    Down(root, false, t.red, t.n, t.l, c, t.r);
  }

  /** Down one side as far as there are children. */
  method Deepest(root: RbRoot, n0: Node, left: bool, ghost c0: Context, ghost t0: Tree) returns (n: Node)
    requires t0.T? && t0.n == n0 && root.At(c0, t0, n0)
    ensures Inorder(t0) != [] && n == EndOfOrder(Inorder(t0), left)
  {
    hide Safe, Fits, Nodes, Holds, HoldsAround, RbRoot.At, Inorder;
    n := n0;
    ghost var c, t := c0, t0;
    SonsAt(root, c, t);
    while (if left then n.left else n.right) != null
      invariant t.T? && t.n == n && n in root.nodes && root.At(c, t, n)
      invariant EndOfOrder(Inorder(t), left) == EndOfOrder(Inorder(t0), left)
      decreases t
    {
      SonsAt(root, c, t);
      EndBelow(t, left);
      n := if left then n.left else n.right;
      c, t := if left then In(true, t.red, t.n, t.r, c) else In(false, t.red, t.n, t.l, c), if left then t.l else t.r;
      SonsAt(root, c, t);
    }
    SonsAt(root, c, t);
    EndHere(t, left);
    NotEmpty(t0);
  }

  lemma {:induction false} EndBelow(t: Tree, left: bool)
    requires t.T? && (if left then t.l else t.r).T?
    ensures EndOfOrder(Inorder(t), left) == EndOfOrder(Inorder(if left then t.l else t.r), left)
  {
    NotEmpty(if left then t.l else t.r);
  }

  lemma {:induction false} EndHere(t: Tree, left: bool)
    requires t.T? && (if left then t.l else t.r).Leaf?
    ensures EndOfOrder(Inorder(t), left) == t.n
  {
  }

  lemma {:induction false} NotEmpty(t: Tree)
    requires t.T?
    ensures Inorder(t) != []
  {
  }

  /** rb_first and rb_last: the ends of the order. */
  method First(root: RbRoot, ghost t: Tree) returns (n: Node?)
    requires root.At(Top, t, root.rbNode)
    ensures n == FirstOf(Inorder(t))
  {
    n := root.rbNode;
    AtRoot(root, t);
    if n == null { return null; }
    n := Deepest(root, n, true, Top, t);
  }

  method Last(root: RbRoot, ghost t: Tree) returns (n: Node?)
    requires root.At(Top, t, root.rbNode)
    ensures n == LastOf(Inorder(t))
  {
    n := root.rbNode;
    AtRoot(root, t);
    if n == null { return null; }
    n := Deepest(root, n, false, Top, t);
  }

  lemma {:induction false} AtRoot(root: RbRoot, t: Tree)
    requires root.At(Top, t, root.rbNode)
    ensures if t.T? then root.rbNode == t.n else root.rbNode == null && Inorder(t) == []
  {
    hide Safe, Fits, Nodes;
  }

  /** Up while the node is on the given side of its parent. */
  method Climb(root: RbRoot, node0: Node, right: bool, ghost c0: Context, ghost t0: Tree) returns (parent: Node?)
    requires t0.T? && t0.n == node0 && root.At(c0, t0, node0) && node0 in root.nodes
    ensures parent == EndOfOrder(Outside(c0, right), right)
  {
    hide Safe, Fits, Nodes, Holds, HoldsAround, RbRoot.At, Before, After;
    var node := node0;
    ghost var c, t := c0, t0;
    ParentHere(root, c, t);
    parent := node.parent;
    while parent != null && node == (if right then parent.right else parent.left)
      invariant t.T? && t.n == node && node in root.nodes && root.At(c, t, node) && parent == Above(c)
      invariant parent != null ==> parent in root.nodes
      invariant EndOfOrder(Outside(c, right), right) == EndOfOrder(Outside(c0, right), right)
      decreases c
    {
      SideHere(root, c, t);
      OutsideUp(c, right);
      Up(root, c, t, node);
      node := parent;
      t := Make(c.left, c.red, t, c.n, c.other);
      c := c.up;
      ParentHere(root, c, t);
      parent := node.parent;
    }
    if parent != null { SideHere(root, c, t); }
    OutsideEnds(c, right);
  }

  lemma {:induction false} ParentHere(root: RbRoot, c: Context, t: Tree)
    requires t.T? && root.At(c, t, t.n) && t.n in root.nodes
    ensures t.n.parent == Above(c) && (c.In? ==> c.n in root.nodes) && t.n.parent != t.n
  {
    hide Safe, Nodes, Distinct, ContextDistinct;
    RootIfAny(t);
    if c.In? {
      ParentIs(root, c, t, t.n);
      ParentInContext(c);
    }
  }

  lemma {:induction false} SideHere(root: RbRoot, c: Context, t: Tree)
    requires t.T? && root.At(c, t, t.n) && c.In? && c.n in root.nodes
    ensures (c.n.left == t.n <==> c.left) && (c.n.right == t.n <==> !c.left)
  {
    hide Safe, Distinct, ContextDistinct;
    var g := root.G();
    OtherKid(g, root.rbNode, c, t.n);
    HoldsClosed(g, Kid(g[c.n], !c.left), c.other, c.n);
  }

  lemma {:induction false} OutsideUp(c: Context, right: bool)
    requires c.In? && c.left != right
    ensures EndOfOrder(Outside(c, right), right) == EndOfOrder(Outside(c.up, right), right)
  {
  }

  lemma {:induction false} OutsideEnds(c: Context, right: bool)
    requires c.Top? || c.left == right
    ensures EndOfOrder(Outside(c, right), right) == Above(c)
  {
  }

  /** rb_next: the successor in the order, or null at the end. */
  method Next(root: RbRoot, node: Node, ghost c: Context, ghost t: Tree) returns (n: Node?)
    requires t.T? && t.n == node && root.At(c, t, node) && node in root.nodes
    ensures n == FirstOf(Inorder(t.r) + After(c))
  {
    hide Safe, Fits, Nodes, Holds, HoldsAround, RbRoot.At, Inorder;
    ParentHere(root, c, t);
    if node.parent == node { return null; }
    SonsAt(root, c, t);
    if node.right != null {
      n := Deepest(root, node.right, true, In(false, t.red, t.n, t.l, c), t.r);
    } else {
      n := Climb(root, node, true, c, t);
      assert Inorder(t.r) == [] by { NoNodes(t.r); }
    }
  }

  /** rb_prev */
  method Prev(root: RbRoot, node: Node, ghost c: Context, ghost t: Tree) returns (n: Node?)
    requires t.T? && t.n == node && root.At(c, t, node) && node in root.nodes
    ensures n == LastOf(Before(c) + Inorder(t.l))
  {
    hide Safe, Fits, Nodes, Holds, HoldsAround, RbRoot.At, Inorder;
    ParentHere(root, c, t);
    if node.parent == node { return null; }
    SonsAt(root, c, t);
    if node.left != null {
      n := Deepest(root, node.left, false, In(true, t.red, t.n, t.r, c), t.l);
    } else {
      n := Climb(root, node, false, c, t);
      assert Inorder(t.l) == [] by { NoNodes(t.l); }
    }
  }

  lemma NoNodes(t: Tree)
    requires t.Leaf?
    ensures Inorder(t) == []
  {
  }

  /** Where the node and its neighbours are in the order of the whole tree. */
  lemma {:induction false} Neighbours(c: Context, t: Tree)
    requires t.T?
    ensures var order, i := Inorder(Plug(c, t)), |Before(c)| + |Inorder(t.l)|;
      && i < |order| && order[i] == t.n
      && FirstOf(Inorder(t.r) + After(c)) == (if i + 1 < |order| then order[i + 1] else null)
      && LastOf(Before(c) + Inorder(t.l)) == (if i > 0 then order[i - 1] else null)
  {
    PlugInorder(c, t);
    InorderParts(t);
    hide Inorder, Before, After;
    var x, y := Before(c) + Inorder(t.l), Inorder(t.r) + After(c);
    assert Inorder(Plug(c, t)) == x + [t.n] + y by { Grouped(Before(c), Inorder(t.l), t.n, Inorder(t.r), After(c)); }
  }

  lemma InorderParts(t: Tree)
    requires t.T?
    ensures Inorder(t) == Inorder(t.l) + [t.n] + Inorder(t.r)
  {
  }

  lemma Grouped(b: seq<Node>, x: seq<Node>, n: Node, y: seq<Node>, a: seq<Node>)
    ensures b + (x + [n] + y) + a == (b + x) + [n] + (y + a)
  {
  }

  // ---- rb_link_node and rb_insert_color ----

  function NewCell(par: Node?): Cell { Cell(null, null, par, true) }

  lemma NewNodeSafe(v: View, n: Node, par: Node?)
    requires Safe(v) && n !in v.g
    ensures Safe(View(v.root, v.g[n := NewCell(par)])) && Closed(v.g[n := NewCell(par)], {n})
  {
    var h := v.g[n := NewCell(par)];
    forall s: set<Node> | s <= h.Keys && s != {} ensures HasEnd(h, s) {
      if n in s {
        assert NoKidIn(h, n, s);
      } else {
        var m := EndOf(v.g, s);
        assert NoKidIn(h, m, s);
      }
    }
  }

  /** The pointers once the node is linked. */
  lemma {:induction false} Linked(g: Graph, h: Graph, root: Node?, root1: Node?, c: Context, n: Node)
    requires HoldsAround(g, root, c, null) && ContextDistinct(c) && n !in g && g.Keys == ContextNodes(c)
    requires c.In? ==> c.n in g && root1 == root && h == SetKid(g[n := NewCell(Above(c))], c.n, c.left, n)
    requires c.Top? ==> root1 == n && h == g[n := NewCell(null)]
    ensures HoldsAround(h, root1, c, n) && Holds(h, n, T(true, Leaf, n, Leaf), Above(c))
        && Fits(c, T(true, Leaf, n, Leaf))
    ensures AllNodes(c, T(true, Leaf, n, Leaf)) == g.Keys + {n}
  {
    assert Nodes(T(true, Leaf, n, Leaf)) == {n};
    if c.In? { AroundChanged(g, h, root, c, null, n); }
  }

  /** rb_link_node: a new red node without children, in an empty place. */
  method LinkNode(root: RbRoot, node: Node, parent: Node?, left: bool, ghost c: Context)
    requires root.At(c, Leaf, null) && node !in root.nodes && parent == Above(c) && (c.In? ==> left == c.left)
    modifies root, node, root.nodes
    ensures root.At(c, T(true, Leaf, node, Leaf), node) && root.nodes == old(root.nodes) + {node}
    ensures Recorded(old(root.Here()), root.Here())
  {
    hide Safe, Recorded, Fits, RbRoot.G, SetKid, Holds, HoldsAround, Closed, ContextNodes, Nodes;
    ghost var v, m0 := root.Now(), root.Here();
    PlaceIs(root, c);
    NewNodeSafe(v, node, parent);
    Prepare(root, node, parent);
    ghost var m1 := root.Here();
    NodePrepared(m0, m1, node, parent);
    if parent == null {
      root.WriteRoot(node);
    } else {
      root.WriteKid(parent, left, node, {node});
    }
    RecordedOn(m0, m1, root.Here());
    Linked(v.g, root.G(), v.root, root.rbNode, c, node);
  }

  /** Nothing leads to the new node yet. */
  lemma NodePrepared(a: Moment, b: Moment, node: Node, parent: Node?)
    requires node !in a.now.g && b == Moment(View(a.now.root, a.now.g[node := NewCell(parent)]), a.views)
    ensures Recorded(a, b)
  {
    NothingRecorded(a, b);
  }

  method Prepare(root: RbRoot, node: Node, parent: Node?)
    requires node !in root.nodes
    modifies root`nodes, node
    ensures root.nodes == old(root.nodes) + {node} && root.G() == old(root.G())[node := NewCell(parent)]
  {
    ghost var g := root.G();
    node.parent, node.red := parent, true;
    node.left, node.right := null, null;
    root.nodes := root.nodes + {node};
    assert root.G() == g[node := NewCell(parent)];
  }

  lemma {:induction false} PlaceIs(root: RbRoot, c: Context)
    requires root.At(c, Leaf, null)
    ensures HoldsAround(root.G(), root.rbNode, c, null) && ContextDistinct(c) && root.nodes == ContextNodes(c)
        && Safe(root.Now())
    ensures c.In? ==> c.n in root.nodes
  {
    hide Safe, HoldsAround;
    if c.In? { ParentInContext(c); }
  }

  /** A whole insertion: the node comes into the order at the chosen place, and the tree is a
      red-black tree again. */
  method Insert(root: RbRoot, node: Node, parent: Node?, left: bool, ghost c: Context) returns (ghost u: Tree)
    requires root.At(c, Leaf, null) && RedBlack(Plug(c, Leaf)) && node !in root.nodes && parent == Above(c)
    requires c.In? ==> left == c.left
    modifies root, node, root.nodes
    ensures root.At(Top, u, root.rbNode) && RedBlack(u) && Inorder(u) == Before(c) + [node] + After(c)
    ensures Recorded(old(root.Here()), root.Here()) && root.nodes == old(root.nodes) + {node}
  {
    hide Safe, Recorded, RbRoot.Here, RbRoot.At, RedBlack, Plug, Inorder, Before, After;
    ghost var m0 := root.Here();
    LinkNode(root, node, parent, left, c);
    ghost var m1 := root.Here();
    u := InsertColor(root, node, c);
    RecordedOn(m0, m1, root.Here());
    PlugInorder(c, T(true, Leaf, node, Leaf));
    OneNode(node);
  }

  lemma OneNode(n: Node)
    ensures Inorder(T(true, Leaf, n, Leaf)) == [n]
  {
  }
}

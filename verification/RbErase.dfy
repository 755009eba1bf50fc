/** ____rb_erase_color: a black node was taken out of the tree, and the properties are restored. */
module RbErase {
  import opened RbGraph
  import opened RbTrees
  import opened RbRoots

  /** The place that lacks a black node and what is around it. */
  ghost predicate Lacking(c: Context, t: Tree) {
    c.In? && Good(t) && !IsRed(t) && GoodAround(c, Height(t) + 1)
  }

  /** That is so where a black node without children was unlinked from a red-black tree. */
  lemma {:induction false} Unlinked(c: Context, n: Node)
    requires RedBlack(Plug(c, T(false, Leaf, n, Leaf))) && c.In?
    ensures Lacking(c, Leaf)
  {
    GoodParts(c, T(false, Leaf, n, Leaf));
    assert Height(T(false, Leaf, n, Leaf)) == Height(Leaf) + 1;
  }

  // ---- the sibling ----

  lemma {:induction false} SiblingIsThere(c: Context, t: Tree)
    requires Lacking(c, t)
    ensures c.other.T? && Good(c.other) && Height(c.other) == Height(t) + 1
  {
  }

  /** The pointers at the parent. */
  lemma {:induction false} AtParent(root: RbRoot, c: Context, t: Tree)
    requires c.In? && c.other.T? && root.At(c, t, RootOf(t))
    ensures c.n in root.nodes && c.other.n in root.nodes && c.n.red == c.red && c.n.parent == Above(c.up)
    ensures c.other.n.red == c.other.red && c.other.n == (if c.left then c.n.right else c.n.left)
    ensures RootOf(t) == if c.left then c.n.left else c.n.right
    ensures RootOf(t) != c.n.right <==> c.left
    ensures Holds(root.G(), RootOf(t), t, c.n) && Holds(root.G(), c.other.n, c.other, c.n)
    ensures HoldsAround(root.G(), root.rbNode, c.up, c.n) && Safe(root.Now())
    ensures Fits(c.up, Make(c.left, c.red, t, c.n, c.other))
        && root.nodes == AllNodes(c.up, Make(c.left, c.red, t, c.n, c.other))
  {
    hide Safe, Distinct, ContextDistinct;
    FitsUp(c, t);
    var g := root.G();
    HoldsClosed(g, RootOf(t), t, c.n);
    NodesIn(g, c.other.n, c.other, c.n);
    OtherApart(c, t);
  }

  lemma {:induction false} OtherApart(c: Context, t: Tree)
    requires c.In? && Fits(c, t) && c.other.T?
    ensures RootOf(t) != c.other.n
  {
  }

  /** A rotation changes neither the nodes nor their order. */
  lemma {:induction false} TurnParts(left: bool, r0: bool, r1: bool, r2: bool, r3: bool, t: Tree, p: Node, m: Tree,
      s: Node, a: Tree)
    ensures var u, f := Make(left, r0, Make(left, r1, t, p, m), s, a), Make(left, r2, t, p, Make(left, r3, m, s, a));
      Nodes(u) == Nodes(f) && (Distinct(u) <==> Distinct(f)) && Inorder(u) == Inorder(f)
  {
    hide Distinct, Nodes, Inorder, Make;
    var x, y := Make(left, r1, t, p, m), Make(left, r3, m, s, a);
    MakeParts(left, r1, t, p, m);
    MakeParts(left, r0, x, s, a);
    MakeParts(left, r3, m, s, a);
    MakeParts(left, r2, t, p, y);
    InorderOfMake(left, r1, t, p, m);
    InorderOfMake(left, r0, x, s, a);
    InorderOfMake(left, r3, m, s, a);
    InorderOfMake(left, r2, t, p, y);
    Reassociate(Inorder(t), p, Inorder(m), s, Inorder(a));
    Reassociate(Inorder(a), s, Inorder(m), p, Inorder(t));
  }

  lemma TurnedIs(p: Node, s: Node, left: bool, top: bool, red: bool, a: Tree, m: Tree, t: Tree)
    ensures Turned(p, s, !left, top, red, a, m, t) == Make(left, top, Make(left, red, t, p, m), s, a)
  {
  }

  // ---- case 1: a red sibling ----

  /** The surroundings after the rotation. */
  function Lowered(c: Context): Context
    requires c.In? && c.other.T?
  {
    var s := c.other;
    In(c.left, true, c.n, Sub(s, c.left), In(c.left, false, s.n, Sub(s, !c.left), c.up))
  }

  lemma {:induction false} LoweredGood(c: Context, t: Tree)
    requires Lacking(c, t) && IsRed(c.other)
    ensures !c.red && Lacking(Lowered(c), t) && !IsRed(Sub(c.other, c.left)) && Sub(c.other, c.left).T?
  {
    SiblingIsThere(c, t);
    var s := c.other;
    SubGood(s, c.left);
    SubGood(s, !c.left);
    hide Good, Height;
    assert GoodAround(c.up, Height(t) + 2);
    var mid := In(c.left, false, s.n, Sub(s, !c.left), c.up);
    assert GoodAround(mid, Height(t) + 1);
    assert GoodAround(In(c.left, true, c.n, Sub(s, c.left), mid), Height(t) + 1);
  }

  lemma {:induction false} SubGood(s: Tree, left: bool)
    requires s.T? && Good(s)
    ensures Good(Sub(s, left)) && Height(Sub(s, left)) == (if s.red then Height(s) else Height(s) - 1)
        && (s.red ==> !IsRed(Sub(s, left)))
    ensures Height(Sub(s, left)) >= 1 ==> Sub(s, left).T?
  {
  }

  lemma {:induction false} LoweredOrder(c: Context, t: Tree)
    requires c.In? && c.other.T?
    ensures Inorder(Plug(Lowered(c), t)) == Inorder(Plug(c, t))
  {
    var s, l := c.other, c.left;
    SubMake(s, l);
    TurnParts(l, false, true, c.red, s.red, t, c.n, Sub(s, l), s.n, Sub(s, !l));
    hide Inorder;
    SameOrder(c.up, Make(l, c.red, t, c.n, s), Make(l, false, Make(l, true, t, c.n, Sub(s, l)), s.n, Sub(s, !l)));
  }

  lemma {:induction false} TurnFits(c: Context, t: Tree, top: bool, red: bool)
    requires c.In? && c.other.T? && Fits(c.up, Make(c.left, c.red, t, c.n, c.other))
    ensures var s := c.other; var u := Turned(c.n, s.n, !c.left, top, red, Sub(s, !c.left), Sub(s, c.left), t);
      Fits(c.up, u) && AllNodes(c.up, u) == AllNodes(c.up, Make(c.left, c.red, t, c.n, c.other))
  {
    var s, l := c.other, c.left;
    hide Nodes, Distinct, ContextNodes, ContextDistinct;
    SubMake(s, l);
    TurnedIs(c.n, s.n, l, top, red, Sub(s, !l), Sub(s, l), t);
    TurnParts(l, top, red, c.red, s.red, t, c.n, Sub(s, l), s.n, Sub(s, !l));
  }

  /** What a rotation at the parent finds. */
  lemma {:induction false} SiblingTurning(root: RbRoot, c: Context, t: Tree)
    requires c.In? && c.other.T? && root.At(c, t, RootOf(t))
    ensures var s, l := c.other, c.left;
      && s.n in root.nodes && c.n in root.nodes
      && Turning(root.G(), c.n, s.n, !l, Kid(root.G()[s.n], l), Sub(s, !l), Sub(s, l), t)
      && Kid(root.G()[s.n], l) == RootOf(Sub(s, l)) && Kid(root.G()[s.n], !l) == RootOf(Sub(s, !l))
  {
    AtParent(root, c, t);
    hide Safe, Nodes, Distinct, ContextNodes, ContextDistinct, Fits, HoldsAround;
    SonsHold(root.G(), c.other, c.n, c.left);
  }

  lemma {:induction false} SonsHold(g: Graph, s: Tree, par: Node?, left: bool)
    requires s.T? && Holds(g, s.n, s, par)
    ensures s.n in g && Holds(g, Kid(g[s.n], left), Sub(s, left), s.n)
        && Holds(g, Kid(g[s.n], !left), Sub(s, !left), s.n)
    ensures Kid(g[s.n], left) == RootOf(Sub(s, left)) && Kid(g[s.n], !left) == RootOf(Sub(s, !left))
  {
  }

  /** Case 1. */
  method RedSibling(root: RbRoot, parent: Node, sibling0: Node, left: bool, ghost c: Context, ghost t: Tree)
    returns (sibling: Node?)
    requires Lacking(c, t) && IsRed(c.other) && root.At(c, t, RootOf(t)) && left == c.left
    requires parent == c.n && sibling0 == c.other.n && parent in root.nodes && sibling0 in root.nodes
    modifies root`views, root`rbNode, root.nodes
    ensures c.other.T? && root.At(Lowered(c), t, RootOf(t)) && sibling == RootOf(Sub(c.other, left))
        && parent in root.nodes
    ensures Recorded(old(root.Here()), root.Here())
  {
    hide Safe, Recorded, Holds, HoldsAround, Nodes, Distinct, ContextNodes, ContextDistinct, Fits, RbRoot.G,
        RbRoot.Here, RbRoot.At, Turned;
    hide Turning, AllNodes, Make;
    ghost var s := c.other;
    AtParent(root, c, t);
    SiblingTurning(root, c, t);
    LoweredGood(c, t);
    TurnFits(c, t, false, true);
    var tmp1 := if left then sibling0.left else sibling0.right;
    root.Rotate(parent, sibling0, !left, tmp1, false, true, c.up, Sub(s, !left), Sub(s, left), t);
    TurnedIs(parent, sibling0, left, false, true, Sub(s, !left), Sub(s, left), t);
    Down(root, left, false, sibling0, Sub(s, !left), c.up, Make(left, true, t, parent, Sub(s, left)));
    RootOfMake(left, true, t, parent, Sub(s, left));
    Down(root, left, true, parent, Sub(s, left), In(left, false, sibling0, Sub(s, !left), c.up), t);
    sibling := tmp1;
  }

  lemma RootOfMake(left: bool, red: bool, a: Tree, n: Node, b: Tree)
    ensures RootOf(Make(left, red, a, n, b)) == n
  {
  }

  // ---- case 2: the sibling becomes red ----

  lemma {:induction false} RecolourHolds(g: Graph, h: Graph, root: Node?, c: Context, t: Tree, red: bool)
    requires c.In? && c.other.T? && c.n in g && c.other.n in g && Holds(g, RootOf(t), t, c.n)
        && HoldsAround(g, root, c, RootOf(t))
    requires Fits(c.up, Make(c.left, c.red, t, c.n, c.other))
    requires h == SetParentColor(g, c.other.n, c.n, red)
    ensures Holds(h, c.n, Make(c.left, c.red, t, c.n, Coloured(c.other, red)), Above(c.up))
        && HoldsAround(h, root, c.up, c.n)
  {
    hide Nodes, Distinct, ContextNodes, ContextDistinct;
    var s := c.other;
    SiblingApart(c, t);
    NodesIn(g, RootOf(t), t, c.n);
    NodesIn(g, s.n, s, c.n);
    AroundIn(g, root, c.up, c.n);
    HoldsSame(g, h, RootOf(t), t, c.n);
    HoldsMoved(g, h, s.n, s, c.n, c.n, red);
    AroundSame(g, h, root, c.up, c.n);
    hide Holds;
    JoinHolds(h, c.left, c.red, t, c.n, Coloured(s, red), Above(c.up));
  }

  lemma {:induction false} SiblingApart(c: Context, t: Tree)
    requires c.In? && c.other.T? && Fits(c.up, Make(c.left, c.red, t, c.n, c.other))
    ensures c.n != c.other.n && c.other.n in Nodes(c.other) && c.other.n !in Nodes(t)
        && c.other.n !in ContextNodes(c.up)
    ensures c.n !in Nodes(t) && c.n !in Nodes(c.other) && c.n !in ContextNodes(c.up) && Distinct(t) && Distinct(c.other)
    ensures Nodes(t) !! Nodes(c.other)
  {
    MakeParts(c.left, c.red, t, c.n, c.other);
  }

  lemma {:induction false} RecolourFits(c: Context, t: Tree, top: bool, red: bool)
    requires c.In? && Fits(c.up, Make(c.left, c.red, t, c.n, c.other))
    ensures var u := Make(c.left, top, t, c.n, Coloured(c.other, red));
      Fits(c.up, u) && AllNodes(c.up, u) == AllNodes(c.up, Make(c.left, c.red, t, c.n, c.other)) &&
      Inorder(u) == Inorder(Make(c.left, c.red, t, c.n, c.other))
  {
    hide Nodes, Distinct, ContextNodes, ContextDistinct, Inorder;
    SameParts(c.other, red);
    MakeParts(c.left, c.red, t, c.n, c.other);
    MakeParts(c.left, top, t, c.n, Coloured(c.other, red));
    InorderOfMake(c.left, c.red, t, c.n, c.other);
    InorderOfMake(c.left, top, t, c.n, Coloured(c.other, red));
  }

  lemma {:induction false} RecolourGood(c: Context, t: Tree)
    requires Lacking(c, t) && c.other.T? && !IsRed(c.other) && !IsRed(c.other.l) && !IsRed(c.other.r)
    ensures var u := Make(c.left, false, t, c.n, Coloured(c.other, true));
      && u.T? && Good(u) && !IsRed(u) && Height(u) == Height(t) + 1
      && (c.red ==> GoodAround(c.up, Height(u))) && (!c.red ==> GoodAround(c.up, Height(u) + 1))
  {
    SiblingIsThere(c, t);
    var s := Coloured(c.other, true);
    assert Good(s) && Height(s) == Height(c.other) - 1;
  }

  /** The sibling turns red; the parent turns black if it was red, else it is the next place that
      lacks a node. */
  method FlipSibling(root: RbRoot, parent: Node, sibling: Node, ghost c: Context, ghost t: Tree)
    requires c.In? && c.other.T? && root.At(c, t, RootOf(t)) && parent == c.n && sibling == c.other.n
    requires parent in root.nodes && sibling in root.nodes
    modifies root.nodes
    ensures root.At(c.up, Make(c.left, c.red, t, c.n, Coloured(c.other, true)), parent) && parent.red == c.red
    ensures parent.parent == Above(c.up) && Recorded(old(root.Here()), root.Here())
  {
    hide Safe, Recorded, Holds, HoldsAround, Nodes, Distinct, ContextNodes, ContextDistinct, Fits, RbRoot.G,
        RbRoot.Here, AllNodes, Make, SetParentColor;
    ghost var g := root.G();
    AtParent(root, c, t);
    root.SetParentColorOf(sibling, parent, true);
    RecolourHolds(g, root.G(), root.rbNode, c, t, true);
    RecolourFits(c, t, c.red, true);
    RootColour(root.G(), c.n, c.left, c.red, t, Coloured(c.other, true), Above(c.up));
  }

  lemma RootColour(g: Graph, n: Node, left: bool, red: bool, a: Tree, b: Tree, par: Node?)
    requires Holds(g, n, Make(left, red, a, n, b), par)
    ensures n in g && g[n].red == red && g[n].parent == par
  {
  }

  // ---- case 4: a rotation at the parent ----

  /** The parent, its sibling-side child and x, which is below that on the far side; x may not yet
      know its parent. */
  ghost predicate Finishing(root: RbRoot, parent: Node, sibling: Node, left: bool, par: Node?, x: Tree, m: Tree,
      t: Tree, up: Context)
    reads root`rbNode, root`nodes, root.nodes
  {
    && parent in root.nodes && sibling in root.nodes && x.T? && x.n in root.nodes && Safe(root.Now())
    && HoldsAround(root.G(), root.rbNode, up, parent) && parent.parent == Above(up)
    && Kid(root.G()[sibling], !left) == x.n && Holds(root.G(), x.n, x, par)
    && Holds(root.G(), Kid(root.G()[sibling], left), m, sibling)
        && Holds(root.G(), Kid(root.G()[parent], left), t, parent)
    && Fits(up, Turned(parent, sibling, !left, parent.red, false, x, m, t))
    && root.nodes == AllNodes(up, Turned(parent, sibling, !left, parent.red, false, x, m, t))
  }

  lemma {:induction false} FinishApart(p: Node, s: Node, left: bool, top: bool, x: Tree, m: Tree, t: Tree, up: Context)
    requires x.T? && Fits(up, Turned(p, s, !left, top, false, x, m, t))
    ensures x.n in Nodes(x) && x.n != p && x.n != s && x.n !in Nodes(m) && x.n !in Nodes(t) && x.n !in ContextNodes(up)
        && Distinct(x)
    ensures var u := Turned(p, s, !left, top, false, Coloured(x, false), m, t);
      Fits(up, u) && AllNodes(up, u) == AllNodes(up, Turned(p, s, !left, top, false, x, m, t))
  {
    hide ContextNodes, ContextDistinct, Make;
    SameParts(x, false);
    var low := Make(!left, false, m, p, t);
    MakeParts(!left, false, m, p, t);
    MakeParts(!left, top, x, s, low);
    MakeParts(!left, top, Coloured(x, false), s, low);
    RootIfAny(x);
    hide Nodes, Distinct;
  }

  lemma {:induction false} FinishHolds(g: Graph, h: Graph, root: Node?, p: Node, s: Node, left: bool, par: Node?,
      x: Tree, m: Tree, t: Tree, up: Context)
    requires x.T? && x.n in g && p in g && s in g && HoldsAround(g, root, up, p) && Kid(g[s], !left) == x.n
        && Holds(g, x.n, x, par)
    requires Holds(g, Kid(g[s], left), m, s) && Holds(g, Kid(g[p], left), t, p)
    requires Fits(up, Turned(p, s, !left, g[p].red, false, x, m, t)) && h == SetParentColor(g, x.n, s, false)
    ensures HoldsAround(h, root, up, p) && h[p] == g[p] && Kid(h[s], left) == Kid(g[s], left)
    ensures Turning(h, p, s, !left, Kid(h[s], left), Coloured(x, false), m, t)
    ensures m.T? ==> Kid(g[s], left) == m.n && m.n in g && g[m.n].red == m.red
    ensures m.Leaf? ==> Kid(g[s], left) == null
  {
    FinishApart(p, s, left, g[p].red, x, m, t, up);
    NodesIn(g, Kid(g[s], left), m, s);
    NodesIn(g, Kid(g[p], left), t, p);
    NodesIn(g, x.n, x, par);
    AroundIn(g, root, up, p);
    hide Nodes, Distinct, ContextNodes, ContextDistinct, HoldsAround, Turned;
    HoldsMoved(g, h, x.n, x, par, s, false);
    HoldsSame(g, h, Kid(g[s], left), m, s);
    HoldsSame(g, h, Kid(g[p], left), t, p);
    AroundSame(g, h, root, up, p);
  }

  /** Case 4. */
  method Finish(root: RbRoot, parent: Node, sibling: Node, tmp1: Node, left: bool, ghost par: Node?, ghost x: Tree,
      ghost m: Tree, ghost t: Tree, ghost up: Context)
    requires Finishing(root, parent, sibling, left, par, x, m, t, up) && tmp1 == x.n
    modifies root`views, root`rbNode, root.nodes
    ensures root.At(up, Turned(parent, sibling, !left, old(parent.red), false, Coloured(x, false), m, t), sibling)
    ensures Recorded(old(root.Here()), root.Here())
  {
    hide Safe, Recorded, Holds, HoldsAround, Nodes, Distinct, ContextNodes, ContextDistinct, Fits, RbRoot.G,
        RbRoot.Here, RbRoot.At, Turned;
    hide Turning, AllNodes, SetParentColor, Coloured;
    ghost var g, m0 := root.G(), root.Here();
    var tmp2 := if left then sibling.left else sibling.right;
    var midRed := if tmp2 == null then false else tmp2.red;
    FinishApart(parent, sibling, left, parent.red, x, m, t, up);
    root.SetParentColorOf(tmp1, sibling, false);
    ghost var m1 := root.Here();
    FinishHolds(g, root.G(), root.rbNode, parent, sibling, left, par, x, m, t, up);
    root.Rotate(parent, sibling, !left, tmp2, midRed, false, up, Coloured(x, false), m, t);
    RecordedOn(m0, m1, root.Here());
  }

  // ---- case 3: a rotation at the sibling ----

  /** What the three stores of case 3 and the colour change. */
  lemma SwingCells(g: Graph, h: Graph, left: bool, p: Node, s: Node, b: Node, mid: Node?)
    requires p in g && s in g && b in g && p != s && p != b && s != b
        && (mid == null || (mid in g && mid != p && mid != s && mid != b))
    requires h == Swung(g, left, p, s, b, mid)
    ensures h.Keys == g.Keys && Agree(g, h, g.Keys - {p, s, b, mid})
    ensures Kid(h[s], left) == mid && Kid(h[s], !left) == Kid(g[s], !left) && h[s].parent == g[s].parent
        && h[s].red == g[s].red
    ensures Kid(h[b], !left) == s && Kid(h[b], left) == Kid(g[b], left)
    ensures Kid(h[p], left) == Kid(g[p], left) && h[p].parent == g[p].parent && h[p].red == g[p].red
    ensures mid != null ==> h[mid] == g[mid].(parent := s, red := false)
  {
  }

  function Swung(g: Graph, left: bool, p: Node, s: Node, b: Node, mid: Node?): Graph
    requires p in g && s in g && b in g && (mid == null || mid in g)
  {
    var h := SetKid(SetKid(SetKid(g, s, left, mid), b, !left, s), p, !left, b);
    if mid == null then h else SetParentColor(h, mid, s, false)
  }

  /** The pieces of case 3 do not overlap. */
  lemma {:induction false} SwingApart(left: bool, top: bool, t: Tree, p: Node, s: Tree, up: Context)
    requires s.T? && Sub(s, left).T? && Fits(up, Make(left, top, t, p, s))
    ensures var b := Sub(s, left); var i, o, a := Sub(b, left), Sub(b, !left), Sub(s, !left);
      && p != s.n && p != b.n && s.n != b.n
      && p !in Nodes(t) && p !in Nodes(i) && p !in Nodes(o) && p !in Nodes(a) && p !in ContextNodes(up)
          && p !in Nodes(s)
      && s.n !in Nodes(t) && s.n !in Nodes(i) && s.n !in Nodes(o) && s.n !in Nodes(a) && s.n !in ContextNodes(up)
      && b.n !in Nodes(t) && b.n !in Nodes(i) && b.n !in Nodes(o) && b.n !in Nodes(a) && b.n !in ContextNodes(up)
      && Nodes(o) !! Nodes(t) && Nodes(o) !! Nodes(i) && Nodes(o) !! Nodes(a) && Nodes(o) !! ContextNodes(up)
      && Distinct(o) && Nodes(s) == Nodes(i) + Nodes(o) + Nodes(a) + {s.n, b.n}
  {
    hide ContextNodes, ContextDistinct, Make;
    var b := Sub(s, left);
    SubMake(s, left);
    SubMake(b, left);
    MakeParts(left, top, t, p, s);
    MakeParts(left, s.red, b, s.n, Sub(s, !left));
    MakeParts(left, b.red, Sub(b, left), b.n, Sub(b, !left));
    hide Nodes, Distinct;
  }

  /** After case 3 everything is ready for case 4. */
  lemma {:induction false} SwingFits(left: bool, top: bool, t: Tree, p: Node, s: Tree, up: Context)
    requires s.T? && Sub(s, left).T? && Fits(up, Make(left, top, t, p, s))
    ensures var b, a := Sub(s, left), Sub(s, !left); var x := Make(left, false, Sub(b, !left), s.n, a);
      var u := Turned(p, b.n, !left, top, false, x, Sub(b, left), t);
      && Fits(up, u) && AllNodes(up, u) == AllNodes(up, Make(left, top, t, p, s))
      && Inorder(u) == Inorder(Make(left, top, t, p, s))
  {
    var b, a := Sub(s, left), Sub(s, !left);
    var i, o := Sub(b, left), Sub(b, !left);
    var x := Make(left, false, o, s.n, a);
    SubMake(s, left);
    SubMake(b, left);
    hide Nodes, Distinct, ContextNodes, ContextDistinct, Inorder, Make;
    var s1 := Make(left, false, i, b.n, x);
    TurnParts(left, s.red, b.red, false, false, i, b.n, o, s.n, a);
    MakeParts(left, top, t, p, s);
    MakeParts(left, top, t, p, s1);
    InorderOfMake(left, top, t, p, s);
    InorderOfMake(left, top, t, p, s1);
    TurnedIs(p, b.n, left, top, false, x, i, t);
    TurnParts(left, top, false, top, false, t, p, i, b.n, x);
  }

  /** What case 3 leaves as it is. */
  ghost function Untouched(left: bool, t: Tree, s: Tree, up: Context): set<Node>
    requires s.T? && Sub(s, left).T?
  {
    var b := Sub(s, left);
    var o := Sub(b, !left);
    Nodes(t) + Nodes(Sub(b, left)) + Nodes(Sub(s, !left)) + ContextNodes(up) + (if o.T? then Nodes(o) - {o.n} else {})
  }

  lemma {:induction false} UntouchedApart(g: Graph, root: Node?, left: bool, top: bool, t: Tree, p: Node, s: Tree,
      up: Context)
    requires s.T? && Sub(s, left).T? && Fits(up, Make(left, top, t, p, s))
    requires Holds(g, RootOf(t), t, p) && Holds(g, s.n, s, p) && HoldsAround(g, root, up, p)
    ensures var b := Sub(s, left); var k := Untouched(left, t, s, up);
      k <= g.Keys && p !in k && s.n !in k && b.n !in k && (Sub(b, !left).T? ==> Sub(b, !left).n !in k)
  {
    SwingApart(left, top, t, p, s, up);
    NodesIn(g, RootOf(t), t, p);
    NodesIn(g, s.n, s, p);
    AroundIn(g, root, up, p);
    RootIfAny(Sub(Sub(s, left), !left));
    hide Nodes, Distinct, ContextNodes, ContextDistinct, HoldsAround, Holds, Make, Fits;
  }

  lemma {:induction false} SwingHolds(g: Graph, h: Graph, root: Node?, left: bool, t: Tree, p: Node, s: Tree,
      up: Context)
    requires s.T? && Sub(s, left).T? && !s.red && p in g && s.n in g && Sub(s, left).n in g
    requires Holds(g, RootOf(t), t, p) && Holds(g, s.n, s, p) && HoldsAround(g, root, up, p)
        && Kid(g[p], left) == RootOf(t)
    requires Fits(up, Make(left, g[p].red, t, p, s)) && !IsRed(Sub(Sub(s, left), !left))
    requires RootOf(Sub(Sub(s, left), !left)) == null || RootOf(Sub(Sub(s, left), !left)) in g
    requires h == Swung(g, left, p, s.n, Sub(s, left).n, RootOf(Sub(Sub(s, left), !left)))
    ensures h.Keys == g.Keys && h[p].parent == g[p].parent && h[p].red == g[p].red && HoldsAround(h, root, up, p)
    ensures var b, a := Sub(s, left), Sub(s, !left);
      && Kid(h[b.n], !left) == s.n && Holds(h, s.n, Make(left, false, Sub(b, !left), s.n, a), p)
      && Holds(h, Kid(h[b.n], left), Sub(b, left), b.n) && Holds(h, Kid(h[p], left), t, p)
  {
    hide Nodes, Distinct, ContextNodes, ContextDistinct, HoldsAround, Holds, Make, Swung, Agree, Fits;
    var b, a := Sub(s, left), Sub(s, !left);
    var i, o, k := Sub(b, left), Sub(b, !left), Untouched(left, t, s, up);
    SwingApart(left, g[p].red, t, p, s, up);
    SonsHold(g, s, p, left);
    SonsHold(g, b, s.n, left);
    RootIfAny(o);
    NoParent(g, s, p);
    UntouchedApart(g, root, left, g[p].red, t, p, s, up);
    SwingCells(g, h, left, p, s.n, b.n, RootOf(o));
    AgreeOn(g, h, g.Keys - {p, s.n, b.n, RootOf(o)}, k);
    PartsStay(g, h, root, left, t, p, s, up);
    if o.T? { AgreeOn(g, h, k, Nodes(o) - {o.n}); }
    HoldsMoved(g, h, RootOf(o), o, b.n, s.n, false);
    BlackStays(o);
    JoinHolds(h, left, false, o, s.n, a, p);
  }

  lemma {:induction false} PartsStay(g: Graph, h: Graph, root: Node?, left: bool, t: Tree, p: Node, s: Tree,
      up: Context)
    requires s.T? && Sub(s, left).T? && s.n in g && Sub(s, left).n in g && Agree(g, h, Untouched(left, t, s, up))
    requires Holds(g, RootOf(t), t, p) && Holds(g, s.n, s, p) && HoldsAround(g, root, up, p)
    ensures var b, a := Sub(s, left), Sub(s, !left);
      && Holds(h, RootOf(t), t, p) && Holds(h, Kid(g[b.n], left), Sub(b, left), b.n)
          && Holds(h, Kid(g[s.n], !left), a, s.n)
      && HoldsAround(h, root, up, p)
  {
    hide Nodes, ContextNodes, HoldsAround, Holds, Agree;
    var b, a := Sub(s, left), Sub(s, !left);
    var k := Untouched(left, t, s, up);
    SonsHold(g, s, p, left);
    SonsHold(g, b, s.n, left);
    AgreeOn(g, h, k, Nodes(t));
    HoldsSame(g, h, RootOf(t), t, p);
    AgreeOn(g, h, k, Nodes(Sub(b, left)));
    HoldsSame(g, h, Kid(g[b.n], left), Sub(b, left), b.n);
    AgreeOn(g, h, k, Nodes(a));
    HoldsSame(g, h, Kid(g[s.n], !left), a, s.n);
    AgreeOn(g, h, k, ContextNodes(up));
    AroundSame(g, h, root, up, p);
  }

  lemma BlackStays(o: Tree)
    requires !IsRed(o)
    ensures Coloured(o, false) == o
  {
  }

  lemma NoParent(g: Graph, s: Tree, p: Node?)
    requires s.T? && Holds(g, s.n, s, p)
    ensures s.n in g && g[s.n].parent == p && g[s.n].red == s.red
  {
  }

  /** The sets that the stores of case 3 stay in. */
  lemma {:induction false} SwingSets(g: Graph, left: bool, t: Tree, p: Node, s: Tree)
    requires s.T? && Sub(s, left).T? && Holds(g, s.n, s, p)
    ensures s.n in g && Sub(s, left).n in g
    ensures var b, a := Sub(s, left), Sub(s, !left); var i, o := Sub(b, left), Sub(b, !left);
      && Closed(g, Nodes(i)) && Closed(g, Nodes(o)) && Closed(g, Nodes(a))
      && (RootOf(o) == null || RootOf(o) in Nodes(o)) && Nodes(o) <= g.Keys
      && (Kid(g[s.n], !left) == null || Kid(g[s.n], !left) in Nodes(a)) && Kid(g[b.n], !left) == RootOf(o)
      && (Kid(g[b.n], left) == null || Kid(g[b.n], left) in Nodes(i)) && Kid(g[s.n], left) == b.n
  {
    hide Nodes, Closed;
    var b, a := Sub(s, left), Sub(s, !left);
    var i, o := Sub(b, left), Sub(b, !left);
    SonsHold(g, s, p, left);
    SonsHold(g, b, s.n, left);
    RootIfAny(o);
    hide Holds;
    HoldsClosed(g, Kid(g[b.n], left), i, b.n);
    HoldsClosed(g, Kid(g[b.n], !left), o, b.n);
    HoldsClosed(g, Kid(g[s.n], !left), a, s.n);
    NodesIn(g, Kid(g[b.n], !left), o, b.n);
  }

  /** The sibling's nodes after the first two stores. */
  lemma StillClosed(g: Graph, left: bool, s: Node, b: Node, mid: Node?, i: set<Node>, o: set<Node>, a: set<Node>)
    requires s in g && b in g && s != b && Closed(g, i) && Closed(g, o) && Closed(g, a) && (mid == null || mid in o)
    requires s !in i + o + a && b !in i + o + a
    requires Kid(g[s], !left) == null || Kid(g[s], !left) in a
    requires Kid(g[b], left) == null || Kid(g[b], left) in i
    ensures Closed(SetKid(SetKid(g, s, left, mid), b, !left, s), i + o + a + {s, b})
  {
  }

  /** The three sets are closed and apart from the three nodes. */
  ghost predicate StoresReady(g: Graph, left: bool, p: Node, s: Node, b: Node, mid: Node?, i: set<Node>, o: set<Node>,
      a: set<Node>) {
    && p in g && s in g && b in g && p != s && p != b && s != b && Closed(g, i) && Closed(g, o) && Closed(g, a)
    && (mid == null || mid in o) && o <= g.Keys
    && p !in i + o + a && s !in i + o + a && b !in i + o + a
    && (Kid(g[s], !left) == null || Kid(g[s], !left) in a) && (Kid(g[b], left) == null || Kid(g[b], left) in i)
  }

  /** The stores of case 3. */
  method ThreeStores(root: RbRoot, parent: Node, sibling: Node, tmp2: Node, tmp1: Node?, left: bool, ghost i: set<Node>,
      ghost o: set<Node>, ghost a: set<Node>)
    requires StoresReady(root.G(), left, parent, sibling, tmp2, tmp1, i, o, a) && Safe(root.Now())
    modifies root`views, root.nodes
    ensures parent in old(root.G()) && sibling in old(root.G()) && tmp2 in old(root.G())
        && (tmp1 == null || tmp1 in old(root.G()))
    ensures root.G() == Swung(old(root.G()), left, parent, sibling, tmp2, tmp1) && Safe(root.Now())
    ensures Recorded(old(root.Here()), root.Here())
  {
    hide Safe, Recorded, RbRoot.G, RbRoot.Here, SetParentColor, SetKid, Closed;
    ghost var g, m0 := root.G(), root.Here();
    StillClosed(g, left, sibling, tmp2, tmp1, i, o, a);
    root.TwoStores(sibling, tmp2, left, tmp1, o, a);
    ghost var m1 := root.Here();
    root.WriteKid(parent, !left, tmp2, i + o + a + {sibling, tmp2});
    ghost var m2 := root.Here();
    RecordedOn(m0, m1, m2);
    if tmp1 != null {
      root.SetParentColorOf(tmp1, sibling, false);
      RecordedOn(m0, m2, root.Here());
    }
  }

  lemma {:induction false} StoresAreReady(root: RbRoot, c: Context, t: Tree)
    requires c.In? && c.other.T? && Sub(c.other, c.left).T? && root.At(c, t, RootOf(t))
    ensures c.n in root.nodes && c.other.n in root.nodes && Sub(c.other, c.left).n in root.nodes
    ensures var s, l := c.other, c.left; var b := Sub(s, l);
      && Kid(root.G()[b.n], !l) == RootOf(Sub(b, !l))
      && StoresReady(root.G(), l, c.n, s.n, b.n, RootOf(Sub(b, !l)), Nodes(Sub(b, l)), Nodes(Sub(b, !l)),
          Nodes(Sub(s, !l)))
  {
    hide Safe, Holds, HoldsAround, Nodes, Distinct, ContextNodes, ContextDistinct, Fits, RbRoot.G, RbRoot.Here,
        RbRoot.At, Make, Closed;
    AtParent(root, c, t);
    SwingApart(c.left, c.red, t, c.n, c.other, c.up);
    SwingSets(root.G(), c.left, t, c.n, c.other);
  }

  /** Case 3. */
  method SwingSibling(root: RbRoot, parent: Node, sibling: Node, tmp2: Node, left: bool, ghost c: Context,
      ghost t: Tree)
    requires c.In? && c.other.T? && root.At(c, t, RootOf(t)) && left == c.left && parent == c.n && sibling == c.other.n
    requires !c.other.red && Sub(c.other, left).T? && tmp2 == Sub(c.other, left).n
        && !IsRed(Sub(Sub(c.other, left), !left))
    requires parent in root.nodes && sibling in root.nodes && tmp2 in root.nodes
    modifies root`views, root.nodes
    ensures parent.red == old(parent.red)
    ensures var b := Sub(c.other, left);
      Finishing(root, parent, tmp2, left, parent, Make(left, false, Sub(b, !left), sibling, Sub(c.other, !left)),
          Sub(b, left), t, c.up)
    ensures Recorded(old(root.Here()), root.Here())
  {
    hide Safe, Recorded, Holds, HoldsAround, Nodes, Distinct, ContextNodes, ContextDistinct, Fits, RbRoot.G,
        RbRoot.Here, RbRoot.At, Turned;
    hide AllNodes, Make, Swung, StoresReady;
    ghost var g, s := root.G(), c.other;
    ghost var b := Sub(s, left);
    AtParent(root, c, t);
    StoresAreReady(root, c, t);
    SwingFits(left, c.red, t, parent, s, c.up);
    var tmp1 := if left then tmp2.right else tmp2.left;
    ThreeStores(root, parent, sibling, tmp2, tmp1, left, Nodes(Sub(b, left)), Nodes(Sub(b, !left)),
        Nodes(Sub(s, !left)));
    SwingHolds(g, root.G(), root.rbNode, left, t, parent, s, c.up);
    RootOfMake(left, false, Sub(b, !left), sibling, Sub(s, !left));
  }

  // ---- ____rb_erase_color ----

  /** The sibling's children. */
  lemma {:induction false} Children(root: RbRoot, c: Context, t: Tree)
    requires c.In? && c.other.T? && root.At(c, t, RootOf(t)) && c.other.n in root.nodes
    ensures var s := c.other; var x := if c.left then s.n.right else s.n.left; var y := if c.left then s.n.left
        else s.n.right;
      && x == RootOf(Sub(s, !c.left)) && (IsRed(Sub(s, !c.left)) <==> x != null && x.red)
      && y == RootOf(Sub(s, c.left)) && (IsRed(Sub(s, c.left)) <==> y != null && y.red)
      && (x != null ==> x in root.nodes) && (y != null ==> y in root.nodes)
  {
    hide Safe, HoldsAround, Nodes, Distinct, ContextNodes, ContextDistinct, Fits;
    AtParent(root, c, t);
    var s, g := c.other, root.G();
    SonsHold(g, s, c.n, c.left);
    ColourAt(root, Sub(s, c.left), s.n);
    ColourAt(root, Sub(s, !c.left), s.n);
  }

  lemma ColourAt(root: RbRoot, t: Tree, par: Node?)
    requires Holds(root.G(), RootOf(t), t, par)
    ensures RootOf(t) != null ==> RootOf(t) in root.nodes && RootOf(t).red == IsRed(t)
  {
  }

  /** Case 4 at once. */
  lemma {:induction false} FarRed(root: RbRoot, c: Context, t: Tree)
    requires c.In? && c.other.T? && root.At(c, t, RootOf(t)) && Sub(c.other, !c.left).T?
    ensures Finishing(root, c.n, c.other.n, c.left, c.other.n, Sub(c.other, !c.left), Sub(c.other, c.left), t, c.up)
    ensures c.n.red == c.red
  {
    hide Safe, Holds, HoldsAround, Nodes, Distinct, ContextNodes, ContextDistinct, Fits, Make;
    AtParent(root, c, t);
    SiblingTurning(root, c, t);
    TurnFits(c, t, c.red, false);
    if Sub(c.other, !c.left).n !in root.nodes {
      NodesIn(root.G(), RootOf(Sub(c.other, !c.left)), Sub(c.other, !c.left), c.other.n);
      RootIfAny(Sub(c.other, !c.left));
    }
  }

  /** What comes out of case 4 fits: with the far child red at once, or after case 3. */
  lemma {:induction false} FarGood(c: Context, t: Tree)
    requires Lacking(c, t) && c.other.T? && !c.other.red && IsRed(Sub(c.other, !c.left))
    ensures var s, l := c.other, c.left; var u := Turned(c.n, s.n, !l, c.red, false, Coloured(Sub(s, !l), false),
        Sub(s, l), t);
      Ends(c, u) && Inorder(u) == Inorder(Make(l, c.red, t, c.n, s))
  {
    var s, l := c.other, c.left;
    var a, m := Sub(s, !l), Sub(s, l);
    SiblingIsThere(c, t);
    SubGood(s, l);
    SubGood(s, !l);
    BlackGood(a);
    TurnedIs(c.n, s.n, l, c.red, false, Coloured(a, false), m, t);
    MakeGood(l, false, t, c.n, m);
    MakeGood(l, c.red, Make(l, false, t, c.n, m), s.n, Coloured(a, false));
    SubMake(s, l);
    SameParts(a, false);
    TurnParts(l, c.red, false, c.red, s.red, t, c.n, m, s.n, a);
    hide Inorder, Good, Height;
    InorderOfMake(l, c.red, Make(l, false, t, c.n, m), s.n, Coloured(a, false));
    InorderOfMake(l, c.red, Make(l, false, t, c.n, m), s.n, a);
  }

  lemma {:induction false} NearGood(c: Context, t: Tree)
    requires Lacking(c, t) && c.other.T? && !c.other.red && !IsRed(Sub(c.other, !c.left)) && IsRed(Sub(c.other, c.left))
    ensures var s, l := c.other, c.left; var b := Sub(s, l); var x := Make(l, false, Sub(b, !l), s.n, Sub(s, !l));
      && !IsRed(Sub(b, !l)) && Coloured(x, false) == x
      && Ends(c, Turned(c.n, b.n, !l, c.red, false, x, Sub(b, l), t))
  {
    var s, l := c.other, c.left;
    var b := Sub(s, l);
    var x := Make(l, false, Sub(b, !l), s.n, Sub(s, !l));
    SiblingIsThere(c, t);
    SubGood(s, l);
    SubGood(s, !l);
    SubGood(b, l);
    SubGood(b, !l);
    TurnedIs(c.n, b.n, l, c.red, false, x, Sub(b, l), t);
    MakeGood(l, false, Sub(b, !l), s.n, Sub(s, !l));
    MakeGood(l, false, t, c.n, Sub(b, l));
    MakeGood(l, c.red, Make(l, false, t, c.n, Sub(b, l)), b.n, x);
    hide Good, Height;
  }

  lemma {:induction false} MakeGood(left: bool, red: bool, a: Tree, n: Node, b: Tree)
    requires Good(a) && Good(b) && Height(a) == Height(b) && (red ==> !IsRed(a) && !IsRed(b))
    ensures var u := Make(left, red, a, n, b); Good(u) && IsRed(u) == red && Height(u) == Height(a) + if red then 0
        else 1
  {
  }

  lemma {:induction false} BlackGood(a: Tree)
    requires Good(a) && IsRed(a)
    ensures Good(Coloured(a, false)) && Height(Coloured(a, false)) == Height(a) + 1 && !IsRed(Coloured(a, false))
  {
  }

  /** In place of the parent's subtree, u makes the whole tree right. */
  ghost predicate Ends(c: Context, u: Tree)
    requires c.In?
  {
    Good(u) && GoodAround(c.up, Height(u)) && (IsRed(u) ==> !NoRed(c.up))
  }

  lemma {:induction false} EndsWhole(root: RbRoot, c: Context, t: Tree, u: Tree, p: Node?, order: seq<Node>)
    requires c.In? && Ends(c, u) && root.At(c.up, u, p) && Inorder(u) == Inorder(Make(c.left, c.red, t, c.n, c.other))
    requires Inorder(Plug(c, t)) == order
    ensures var w := Plug(c.up, u); root.At(Top, w, root.rbNode) && RedBlack(w) && Inorder(w) == order
  {
    hide Safe, Fits, Nodes, Holds, HoldsAround, Inorder, Good, Height, RbRoot.At;
    PlugGood(c.up, u);
    Whole(root, c.up, u, p);
    SameOrder(c.up, Make(c.left, c.red, t, c.n, c.other), u);
  }

  /** In the loop: all paths through parent and node have one black node less than the others. */
  ghost predicate Erasing(root: RbRoot, c: Context, t: Tree, node: Node?, parent: Node, order: seq<Node>)
    reads root`rbNode, root`nodes, root.nodes
  {
    && Lacking(c, t) && root.At(c, t, RootOf(t)) && node == RootOf(t) && parent == c.n && parent in root.nodes
    && Inorder(Plug(c, t)) == order
  }

  /** Cases 2, 3 and 4: the sibling is black. */
  method BlackSibling(root: RbRoot, parent: Node, sibling0: Node, left: bool, ghost c: Context, ghost t: Tree,
      ghost order: seq<Node>)
    returns (again: bool, ghost u: Tree)
    requires Lacking(c, t) && root.At(c, t, RootOf(t)) && parent == c.n && parent in root.nodes
        && Inorder(Plug(c, t)) == order
    requires c.In? && c.other.T? && !IsRed(c.other) && sibling0 == c.other.n && sibling0 in root.nodes && left == c.left
    modifies root`views, root`rbNode, root.nodes
    ensures Recorded(old(root.Here()), root.Here())
    ensures !again ==> root.At(Top, u, root.rbNode) && RedBlack(u) && Inorder(u) == order
    ensures again ==> !c.red && c.up.In? && Erasing(root, c.up, u, parent, c.up.n, order) && parent.parent == c.up.n
  {
    hide Safe, Recorded, RbRoot.Here, RbRoot.At, Good, GoodAround, Height, Inorder, Plug, Make, Turned, RedBlack,
        Coloured, Finishing, Lacking, Ends;
    ghost var m0, s := root.Here(), c.other;
    Children(root, c, t);
    var sibling := sibling0;
    var tmp1 := if left then sibling.right else sibling.left;
    ghost var par, x, m := sibling0, Sub(s, !left), Sub(s, left);
    NothingSince(m0);
    if tmp1 == null || !tmp1.red {
      var tmp2 := if left then sibling.left else sibling.right;
      if tmp2 == null || !tmp2.red {
        again, u := PassOn(root, parent, sibling, c, t, order);
        return;
      }
      NearGood(c, t);
      NearOrder(root, c, t);
      SwingSibling(root, parent, sibling, tmp2, left, c, t);
      par, x, m := parent, Make(left, false, Sub(Sub(s, left), !left), sibling, Sub(s, !left)), Sub(Sub(s, left), left);
      tmp1 := sibling;
      sibling := tmp2;
      RootOfMake(left, false, Sub(Sub(s, left), !left), tmp1, Sub(s, !left));
    } else {
      FarGood(c, t);
      FarRed(root, c, t);
    }
    ghost var m1 := root.Here();
    Finish(root, parent, sibling, tmp1, left, par, x, m, t, c.up);
    RecordedOn(m0, m1, root.Here());
    ghost var w := Turned(parent, sibling, !left, c.red, false, Coloured(x, false), m, t);
    EndsWhole(root, c, t, w, sibling, order);
    again, u := false, Plug(c.up, w);
  }

  lemma {:induction false} NearOrder(root: RbRoot, c: Context, t: Tree)
    requires c.In? && c.other.T? && Sub(c.other, c.left).T? && root.At(c, t, RootOf(t))
    ensures var s, l := c.other, c.left; var b := Sub(s, l); var x := Make(l, false, Sub(b, !l), s.n, Sub(s, !l));
      Inorder(Turned(c.n, b.n, !l, c.red, false, x, Sub(b, l), t)) == Inorder(Make(l, c.red, t, c.n, s))
    ensures c.n.red == c.red
  {
    hide Safe, Inorder, Nodes, Distinct, Fits, Holds, HoldsAround, Make, Turned;
    AtParent(root, c, t);
    SwingFits(c.left, c.red, t, c.n, c.other, c.up);
  }

  /** Case 2. */
  method PassOn(root: RbRoot, parent: Node, sibling: Node, ghost c: Context, ghost t: Tree, ghost order: seq<Node>)
    returns (again: bool, ghost u: Tree)
    requires Lacking(c, t) && root.At(c, t, RootOf(t)) && parent == c.n && parent in root.nodes
        && Inorder(Plug(c, t)) == order
    requires c.In? && c.other.T? && !IsRed(c.other) && sibling == c.other.n && sibling in root.nodes
    requires !IsRed(Sub(c.other, c.left)) && !IsRed(Sub(c.other, !c.left))
    modifies root.nodes
    ensures !again ==> root.At(Top, u, root.rbNode) && RedBlack(u) && Inorder(u) == order
    ensures again ==> !c.red && c.up.In? && Erasing(root, c.up, u, parent, c.up.n, order) && parent.parent == c.up.n
    ensures Recorded(old(root.Here()), root.Here())
  {
    hide Safe, Recorded, RbRoot.Here, RbRoot.At, Good, GoodAround, Height, Inorder, Plug, Make, RedBlack, Coloured,
        Ends, Lacking;
    ghost var w, b := Make(c.left, c.red, t, c.n, Coloured(c.other, true)),
        Make(c.left, false, t, c.n, Coloured(c.other, true));
    ghost var m0 := root.Here();
    PassGood(root, c, t);
    FlipSibling(root, parent, sibling, c, t);
    ghost var m1 := root.Here();
    again := false;
    if parent.red {
      BlackenNode(root, parent, parent.parent, c.up, w);
      RecordedOn(m0, m1, root.Here());
      EndsWhole(root, c, t, b, parent, order);
      u := Plug(c.up, b);
    } else if parent.parent == null {
      EndsWhole(root, c, t, b, parent, order);
      u := Plug(c.up, b);
    } else {
      again, u := true, b;
      PassUp(root, c, t, b, order);
    }
  }

  /** The colours after case 2. */
  lemma {:induction false} PassGood(root: RbRoot, c: Context, t: Tree)
    requires Lacking(c, t) && root.At(c, t, RootOf(t)) && c.other.T? && !IsRed(c.other)
    requires !IsRed(Sub(c.other, c.left)) && !IsRed(Sub(c.other, !c.left))
    ensures var w, b := Make(c.left, c.red, t, c.n, Coloured(c.other, true)),
        Make(c.left, false, t, c.n, Coloured(c.other, true));
      && w.T? && w.n == c.n && Coloured(w, false) == b && (!c.red ==> w == b) && b.T? && b.n == c.n && RootOf(b) == c.n
      && (c.red || c.up.Top? ==> Ends(c, b)) && (!c.red && c.up.In? ==> Lacking(c.up, b))
      && Inorder(b) == Inorder(Make(c.left, c.red, t, c.n, c.other))
  {
    hide Safe, Nodes, Distinct, Fits, Holds, HoldsAround, Inorder;
    AtParent(root, c, t);
    RecolourGood(c, t);
    RecolourFits(c, t, false, true);
    hide Good, Height;
  }

  lemma {:induction false} PassUp(root: RbRoot, c: Context, t: Tree, b: Tree, order: seq<Node>)
    requires c.In? && c.up.In? && Lacking(c.up, b) && root.At(c.up, b, c.n) && RootOf(b) == c.n
        && Inorder(Plug(c, t)) == order
    requires Inorder(b) == Inorder(Make(c.left, c.red, t, c.n, c.other))
    ensures Erasing(root, c.up, b, c.n, c.up.n, order) && c.n.parent == c.up.n
  {
    hide Safe, Nodes, Distinct, Fits, Inorder, Good, Height;
    ParentIs(root, c.up, b, c.n);
    SameOrder(c.up, Make(c.left, c.red, t, c.n, c.other), b);
  }

  /** One round: either the tree is right again, or the place that lacks a node is one level up. */
  method EraseRound(root: RbRoot, node: Node?, parent: Node, ghost c: Context, ghost t: Tree, ghost order: seq<Node>)
    returns (again: bool, ghost u: Tree)
    requires Erasing(root, c, t, node, parent, order)
    modifies root`views, root`rbNode, root.nodes
    ensures Recorded(old(root.Here()), root.Here())
    ensures !again ==> root.At(Top, u, root.rbNode) && RedBlack(u) && Inorder(u) == order
    ensures again ==> c.up.In? && Erasing(root, c.up, u, parent, c.up.n, order) && parent.parent == c.up.n
  {
    hide Safe, Recorded, RbRoot.Here, RbRoot.At, Good, GoodAround, Height, Inorder, Plug, Make, Turned, RedBlack,
        Coloured, Finishing, Lacking, Ends;
    ghost var m0, c1 := root.Here(), c;
    LackingIn(c, t);
    SiblingIsThere(c, t);
    AtParent(root, c, t);
    var sibling := parent.right;
    var left := node != sibling;
    if !left { sibling := parent.left; }
    NothingSince(m0);
    if sibling.red {
      LoweredGood(c, t);
      LoweredOrder(c, t);
      sibling := RedSibling(root, parent, sibling, left, c, t);
      c1 := Lowered(c);
    }
    ghost var m1 := root.Here();
    again, u := BlackSibling(root, parent, sibling, left, c1, t, order);
    RecordedOn(m0, m1, root.Here());
  }

  lemma LackingIn(c: Context, t: Tree)
    requires Lacking(c, t)
    ensures c.In?
  {
  }

  /** ____rb_erase_color, from the moment when a black node without children is gone from below
      parent; the two mirrored halves of the source are one body. */
  method EraseColor(root: RbRoot, parent0: Node, ghost c0: Context) returns (ghost u: Tree)
    requires Lacking(c0, Leaf) && root.At(c0, Leaf, null) && parent0 == c0.n && parent0 in root.nodes
    modifies root`views, root`rbNode, root.nodes
    ensures root.At(Top, u, root.rbNode) && RedBlack(u) && Inorder(u) == Inorder(Plug(c0, Leaf))
    ensures Recorded(old(root.Here()), root.Here())
  {
    hide Safe, Recorded, RbRoot.Here, RbRoot.At, Inorder, Plug, Lacking, RedBlack;
    ghost var c, t, m0, order := c0, Leaf, root.Here(), Inorder(Plug(c0, Leaf));
    var node: Node?, parent: Node? := null, parent0;
    NothingSince(m0);
    while true
      invariant parent != null && Erasing(root, c, t, node, parent, order) && Recorded(m0, root.Here())
      decreases c
    {
      ghost var m1 := root.Here();
      var again;
      LackingIn(c, t);
      again, u := EraseRound(root, node, parent, c, t, order);
      RecordedOn(m0, m1, root.Here());
      if !again { return; }
      node, parent := parent, parent.parent;
      c, t := c.up, u;
    }
  }
}

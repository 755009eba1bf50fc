/** __rb_insert: a red node that was linked into the tree is made to fit its properties again. */
module RbInsert {
  import opened RbGraph
  import opened RbTrees
  import opened RbRoots

  /** The subtree at the grandparent. */
  function Family(left: bool, l1: bool, t: Tree, p: Node, sib: Tree, gp: Node, uncle: Tree): Tree {
    Make(left, false, Make(l1, true, t, p, sib), gp, uncle)
  }

  // ---- the colour flips of case 1 ----

  lemma {:induction false} FlipHolds(g: Graph, h: Graph, root: Node?, left: bool, l1: bool, t: Tree, p: Node, sib: Tree,
      gp: Node, uncle: Tree, up: Context)
    requires uncle.T? && t.T? && Holds(g, t.n, t, p)
        && HoldsAround(g, root, In(l1, true, p, sib, In(left, false, gp, uncle, up)), t.n)
    requires Fits(up, Family(left, l1, t, p, sib, gp, uncle))
    requires uncle.n in g && p in g && gp in g
    requires h == SetParentColor(SetParentColor(SetParentColor(g, uncle.n, gp, false), p, gp, false), gp, g[gp].parent,
        true)
    ensures Holds(h, gp, Make(left, true, Make(l1, false, t, p, sib), gp, Coloured(uncle, false)), Above(up))
    ensures HoldsAround(h, root, up, gp)
  {
    hide Holds, HoldsAround, Nodes, Distinct, ContextNodes, ContextDistinct, Fits;
    FamilyParts(g, root, left, l1, t, p, sib, gp, uncle, up);
    FamilyApart(left, l1, t, p, sib, gp, uncle, up);
    HoldsSame(g, h, t.n, t, p);
    HoldsSame(g, h, Kid(g[p], !l1), sib, p);
    HoldsMoved(g, h, uncle.n, uncle, gp, gp, false);
    AroundSame(g, h, root, up, gp);
    FlippedHolds(h, left, l1, t, p, sib, gp, Coloured(uncle, false), uncle.n, Above(up));
  }

  lemma {:induction false} FlippedHolds(h: Graph, left: bool, l1: bool, t: Tree, p: Node, sib: Tree, gp: Node,
      uncle: Tree, u: Node, par: Node?)
    requires t.T? && p in h && gp in h && Holds(h, t.n, t, p) && Holds(h, Kid(h[p], !l1), sib, p)
        && Holds(h, u, uncle, gp)
    requires Kid(h[p], l1) == t.n && Kid(h[gp], left) == p && Kid(h[gp], !left) == u
    requires h[p].parent == gp && !h[p].red && h[gp].parent == par && h[gp].red
    ensures Holds(h, gp, Make(left, true, Make(l1, false, t, p, sib), gp, uncle), par)
  {
    assert Holds(h, p, Make(l1, false, t, p, sib), gp);
  }

  /** The pieces around the node, and what the pointers between them are. */
  lemma {:induction false} FamilyParts(g: Graph, root: Node?, left: bool, l1: bool, t: Tree, p: Node, sib: Tree,
      gp: Node, uncle: Tree, up: Context)
    requires t.T? && Holds(g, t.n, t, p)
        && HoldsAround(g, root, In(l1, true, p, sib, In(left, false, gp, uncle, up)), t.n)
    ensures p in g && gp in g && Holds(g, Kid(g[p], !l1), sib, p) && Holds(g, Kid(g[gp], !left), uncle, gp)
    ensures HoldsAround(g, root, up, gp) && Kid(g[p], l1) == t.n && Kid(g[gp], left) == p
    ensures g[p].red && g[p].parent == gp && !g[gp].red && g[gp].parent == Above(up)
    ensures Kid(g[gp], !left) == if uncle.T? then uncle.n else null
    ensures Kid(g[p], !l1) == if sib.T? then sib.n else null
    ensures Nodes(t) <= g.Keys && Nodes(sib) <= g.Keys && Nodes(uncle) <= g.Keys && ContextNodes(up) <= g.Keys
  {
    NodesIn(g, t.n, t, p);
    NodesIn(g, Kid(g[p], !l1), sib, p);
    NodesIn(g, Kid(g[gp], !left), uncle, gp);
    AroundIn(g, root, up, gp);
  }

  lemma {:induction false} FamilyApart(left: bool, l1: bool, t: Tree, p: Node, sib: Tree, gp: Node, uncle: Tree,
      up: Context)
    requires Fits(up, Family(left, l1, t, p, sib, gp, uncle))
    ensures p != gp && p !in Nodes(t) && p !in Nodes(sib) && p !in Nodes(uncle) && p !in ContextNodes(up)
    ensures gp !in Nodes(t) && gp !in Nodes(sib) && gp !in Nodes(uncle) && gp !in ContextNodes(up)
    ensures Nodes(t) !! Nodes(sib) && Nodes(t) !! Nodes(uncle) && Nodes(sib) !! Nodes(uncle)
    ensures Nodes(t) !! ContextNodes(up) && Nodes(sib) !! ContextNodes(up) && Nodes(uncle) !! ContextNodes(up)
    ensures Distinct(t) && Distinct(sib) && Distinct(uncle) && ContextDistinct(up)
    ensures uncle.T? ==> uncle.n in Nodes(uncle)
    ensures AllNodes(up, Family(left, l1, t, p, sib, gp, uncle)) ==
            Nodes(t) + Nodes(sib) + Nodes(uncle) + {p, gp} + ContextNodes(up)
  {
    hide Distinct, ContextNodes, ContextDistinct, Make;
    MakeParts(l1, true, t, p, sib);
    MakeParts(left, false, Make(l1, true, t, p, sib), gp, uncle);
  }

  lemma {:induction false} FlipFits(left: bool, l1: bool, t: Tree, p: Node, sib: Tree, gp: Node, uncle: Tree,
      up: Context)
    requires Fits(up, Family(left, l1, t, p, sib, gp, uncle))
    ensures var u := Make(left, true, Make(l1, false, t, p, sib), gp, Coloured(uncle, false));
      Fits(up, u) && AllNodes(up, u) == AllNodes(up, Family(left, l1, t, p, sib, gp, uncle)) &&
      Inorder(u) == Inorder(Family(left, l1, t, p, sib, gp, uncle))
  {
    hide Distinct, Nodes, Inorder, Make, Coloured, ContextNodes, ContextDistinct;
    var a, b := Make(l1, true, t, p, sib), Make(l1, false, t, p, sib);
    SameParts(uncle, false);
    MakeParts(l1, true, t, p, sib);
    MakeParts(l1, false, t, p, sib);
    MakeParts(left, false, a, gp, uncle);
    MakeParts(left, true, b, gp, Coloured(uncle, false));
    InorderOfMake(l1, true, t, p, sib);
    InorderOfMake(l1, false, t, p, sib);
    InorderOfMake(left, false, a, gp, uncle);
    InorderOfMake(left, true, b, gp, Coloured(uncle, false));
  }

  /** Up two levels. */
  lemma {:induction false} FitsFamily(left: bool, l1: bool, t: Tree, p: Node, sib: Tree, gp: Node, uncle: Tree,
      up: Context)
    requires Fits(In(l1, true, p, sib, In(left, false, gp, uncle, up)), t)
    ensures Fits(up, Family(left, l1, t, p, sib, gp, uncle))
    ensures AllNodes(up, Family(left, l1, t, p, sib, gp, uncle)) ==
        AllNodes(In(l1, true, p, sib, In(left, false, gp, uncle, up)), t)
  {
    hide Nodes, Distinct, Fits;
    FitsUp(In(l1, true, p, sib, In(left, false, gp, uncle, up)), t);
    FitsUp(In(left, false, gp, uncle, up), Make(l1, true, t, p, sib));
  }

  /** Case 1: the uncle is red. */
  method Flip(root: RbRoot, parent: Node, gparent: Node, tmp: Node, ghost left: bool, ghost l1: bool, ghost t: Tree,
      ghost sib: Tree, ghost uncle: Tree, ghost up: Context) returns (node: Node, parent1: Node?)
    requires t.T? && root.At(In(l1, true, parent, sib, In(left, false, gparent, uncle, up)), t, t.n)
    requires uncle.T? && tmp == uncle.n && tmp in root.nodes && parent in root.nodes && gparent in root.nodes
    modifies root.nodes
    ensures node == gparent && parent1 == Above(up)
    ensures root.At(up, Make(left, true, Make(l1, false, t, parent, sib), gparent, Coloured(uncle, false)), gparent)
    ensures Recorded(old(root.Here()), root.Here())
  {
    hide Recorded, Holds, HoldsAround, Nodes, Distinct, ContextNodes, ContextDistinct, Fits, RbRoot.G, RbRoot.Here,
        Safe, Family, Make, SetParentColor;
    ghost var g, m0 := root.G(), root.Here();
    FitsFamily(left, l1, t, parent, sib, gparent, uncle, up);
    FamilyParts(g, root.rbNode, left, l1, t, parent, sib, gparent, uncle, up);
    FamilyApart(left, l1, t, parent, sib, gparent, uncle, up);
    root.SetParentColorOf(tmp, gparent, false);
    ghost var m1 := root.Here();
    root.SetParentColorOf(parent, gparent, false);
    ghost var m2 := root.Here();
    RecordedOn(m0, m1, m2);
    node := gparent;
    parent1 := node.parent;
    root.SetParentColorOf(node, parent1, true);
    RecordedOn(m0, m2, root.Here());
    FlipHolds(g, root.G(), root.rbNode, left, l1, t, parent, sib, gparent, uncle, up);
    FlipFits(left, l1, t, parent, sib, gparent, uncle, up);
  }

  // ---- the rotations of cases 2 and 3 ----

  /** What comes out of case 3 when the node is on the side of its parent. */
  lemma {:induction false} OuterCase(left: bool, t: Tree, p: Node, sib: Tree, gp: Node, uncle: Tree, up: Context)
    requires Fits(up, Family(left, left, t, p, sib, gp, uncle))
    requires Good(t) && Good(sib) && Good(uncle) && Height(sib) == Height(t) == Height(uncle) && !IsRed(sib)
        && !IsRed(uncle)
    ensures var u := Turned(gp, p, left, false, true, t, sib, uncle);
      && Fits(up, u) && AllNodes(up, u) == AllNodes(up, Family(left, left, t, p, sib, gp, uncle))
      && Inorder(u) == Inorder(Family(left, left, t, p, sib, gp, uncle))
      && Good(u) && !IsRed(u) && Height(u) == Height(t) + 1
  {
    hide Distinct, Nodes, Inorder, ContextNodes, ContextDistinct;
    OuterParts(left, t, p, sib, gp, uncle);
    var low := Make(left, true, sib, gp, uncle);
    assert Good(low) && Height(low) == Height(t);
  }

  lemma {:induction false} OuterParts(left: bool, t: Tree, p: Node, sib: Tree, gp: Node, uncle: Tree)
    ensures var u, f := Turned(gp, p, left, false, true, t, sib, uncle), Family(left, left, t, p, sib, gp, uncle);
      Nodes(u) == Nodes(f) && (Distinct(u) <==> Distinct(f)) && Inorder(u) == Inorder(f)
  {
    hide Distinct, Nodes, Inorder, Make;
    var a, b := Make(left, true, t, p, sib), Make(left, true, sib, gp, uncle);
    MakeParts(left, true, t, p, sib);
    MakeParts(left, false, a, gp, uncle);
    MakeParts(left, true, sib, gp, uncle);
    MakeParts(left, false, t, p, b);
    InorderOfMake(left, true, t, p, sib);
    InorderOfMake(left, false, a, gp, uncle);
    InorderOfMake(left, true, sib, gp, uncle);
    InorderOfMake(left, false, t, p, b);
    Reassociate(Inorder(t), p, Inorder(sib), gp, Inorder(uncle));
    Reassociate(Inorder(uncle), gp, Inorder(sib), p, Inorder(t));
  }

  /** The tree after case 2: the node above its parent. */
  function Swung(left: bool, t: Tree, p: Node, sib: Tree): Tree
    requires t.T?
  {
    Make(left, true, Make(left, true, sib, p, Sub(t, left)), t.n, Sub(t, !left))
  }

  lemma {:induction false} SwungParts(left: bool, t: Tree, p: Node, sib: Tree)
    requires t.T?
    ensures var u, f := Swung(left, t, p, sib), Make(!left, true, t, p, sib);
      Nodes(u) == Nodes(f) && (Distinct(u) <==> Distinct(f)) && Inorder(u) == Inorder(f)
  {
    hide Distinct, Nodes, Inorder, Make;
    var b, c := Sub(t, left), Sub(t, !left);
    assert t == Make(left, t.red, b, t.n, c) by { SubMake(t, left); }
    MakeParts(left, t.red, b, t.n, c);
    MakeParts(!left, true, t, p, sib);
    MakeParts(left, true, sib, p, b);
    MakeParts(left, true, Make(left, true, sib, p, b), t.n, c);
    InorderOfMake(left, t.red, b, t.n, c);
    InorderOfMake(!left, true, t, p, sib);
    InorderOfMake(left, true, sib, p, b);
    InorderOfMake(left, true, Make(left, true, sib, p, b), t.n, c);
    Reassociate(Inorder(sib), p, Inorder(b), t.n, Inorder(c));
    Reassociate(Inorder(c), t.n, Inorder(b), p, Inorder(sib));
  }

  lemma {:induction false} SwungFamily(left: bool, t: Tree, p: Node, sib: Tree, gp: Node, uncle: Tree, up: Context)
    requires t.T? && Fits(up, Family(left, !left, t, p, sib, gp, uncle))
    ensures var a, m := Make(left, true, sib, p, Sub(t, left)), Sub(t, !left);
      && Fits(up, Family(left, left, a, t.n, m, gp, uncle))
      && AllNodes(up, Family(left, left, a, t.n, m, gp, uncle)) ==
          AllNodes(up, Family(left, !left, t, p, sib, gp, uncle))
      && Inorder(Family(left, left, a, t.n, m, gp, uncle)) == Inorder(Family(left, !left, t, p, sib, gp, uncle))
  {
    hide Distinct, Nodes, Inorder, ContextNodes, ContextDistinct, Make;
    SwungParts(left, t, p, sib);
    var x, y := Swung(left, t, p, sib), Make(!left, true, t, p, sib);
    MakeParts(left, false, x, gp, uncle);
    MakeParts(left, false, y, gp, uncle);
    InorderOfMake(left, false, x, gp, uncle);
    InorderOfMake(left, false, y, gp, uncle);
  }

  lemma {:induction false} SwungGood(left: bool, t: Tree, p: Node, sib: Tree)
    requires t.T? && Good(t) && IsRed(t) && Good(sib) && Height(sib) == Height(t) && !IsRed(sib)
    ensures var a, m := Make(left, true, sib, p, Sub(t, left)), Sub(t, !left);
      Good(a) && Good(m) && Height(a) == Height(t) == Height(m) && !IsRed(m) && (Sub(t, left).T? ==> !Sub(t, left).red)
  {
  }

  /** What case 2 changes. */
  lemma SwingCells(g: Graph, h: Graph, left: bool, n: Node, p: Node, mid: Node?)
    requires n in g && p in g && n != p && (mid == null || (mid in g && mid != n && mid != p))
    requires h == SetParentColor(Stored(g, p, n, !left, mid, false), p, n, true)
    ensures h.Keys == g.Keys && Agree(g, h, g.Keys - {n, p, mid})
    ensures h[p].parent == n && h[p].red && Kid(h[p], !left) == mid && Kid(h[p], left) == Kid(g[p], left)
    ensures Kid(h[n], left) == p && Kid(h[n], !left) == Kid(g[n], !left)
    ensures mid != null ==> h[mid] == g[mid].(parent := p, red := false)
  {
  }

  /** The pointers after case 2. */
  lemma {:induction false} SwingHolds(g: Graph, h: Graph, root: Node?, left: bool, t: Tree, p: Node, sib: Tree,
      gp: Node, uncle: Tree, up: Context, mid: Node?)
    requires t.T? && t.n in g && p in g && Holds(g, t.n, t, p) && mid == Kid(g[t.n], left) && (mid == null || mid in g)
    requires HoldsAround(g, root, In(!left, true, p, sib, In(left, false, gp, uncle, up)), t.n)
    requires Fits(up, Family(left, !left, t, p, sib, gp, uncle)) && (Sub(t, left).T? ==> !Sub(t, left).red)
    requires h == SetParentColor(Stored(g, p, t.n, !left, mid, false), p, t.n, true)
    ensures t.n in h && HoldsAround(h, root, up, gp)
    ensures Turning(h, gp, t.n, left, Kid(h[t.n], !left), Make(left, true, sib, p, Sub(t, left)), Sub(t, !left), uncle)
    ensures gp in h && h[gp].parent == Above(up) && !h[gp].red
  {
    hide Holds, HoldsAround, Nodes, Distinct, ContextNodes, ContextDistinct, Fits, Family, Make, Agree, SetParentColor,
        Stored;
    FamilyParts(g, root, left, !left, t, p, sib, gp, uncle, up);
    FamilyApart(left, !left, t, p, sib, gp, uncle, up);
    NodeParts(g, t, p, left);
    SwingCells(g, h, left, t.n, p, mid);
    var k, b := g.Keys - {t.n, p, mid}, Sub(t, left);
    AgreeOn(g, h, k, Nodes(sib));
    HoldsSame(g, h, Kid(g[p], left), sib, p);
    if b.T? { AgreeOn(g, h, k, Nodes(b) - {b.n}); }
    HoldsMoved(g, h, mid, b, t.n, p, false);
    AgreeOn(g, h, k, Nodes(Sub(t, !left)));
    HoldsSame(g, h, Kid(g[t.n], !left), Sub(t, !left), t.n);
    AgreeOn(g, h, k, Nodes(uncle));
    HoldsSame(g, h, Kid(g[gp], !left), uncle, gp);
    AgreeOn(g, h, k, ContextNodes(up));
    AroundSame(g, h, root, up, gp);
    AgreeAt(g, h, k, gp);
    JoinHolds(h, left, true, sib, p, b, t.n);
  }

  /** What a rotation at the grandparent needs. */
  ghost predicate Ready(root: RbRoot, parent: Node, gparent: Node, left: bool, tmp: Node?, a: Tree, m: Tree,
      uncle: Tree, up: Context)
    reads root`rbNode, root`nodes, root.nodes
  {
    && Turning(root.G(), gparent, parent, left, tmp, a, m, uncle) && HoldsAround(root.G(), root.rbNode, up, gparent)
    && gparent in root.nodes && parent in root.nodes && gparent.parent == Above(up) && !gparent.red && Safe(root.Now())
    && tmp == Kid(root.G()[parent], !left)
  }

  /** What the stores of case 2 need. */
  lemma {:induction false} SwingSets(root: RbRoot, parent: Node, gparent: Node, left: bool, t: Tree, sib: Tree,
      uncle: Tree, up: Context)
    requires t.T? && root.At(In(!left, true, parent, sib, In(left, false, gparent, uncle, up)), t, t.n)
    requires parent in root.nodes && gparent in root.nodes && t.n in root.nodes
    ensures var g, b, o := root.G(), Nodes(Sub(t, left)), Nodes(sib);
      && Closed(g, b) && Closed(g, o) && (Kid(g[t.n], left) == null || Kid(g[t.n], left) in b) && b <= root.nodes
      && (Kid(g[parent], left) == null || Kid(g[parent], left) in o) && parent != t.n && parent !in b && parent !in o
      && t.n !in b && t.n !in o
    ensures Fits(up, Family(left, !left, t, parent, sib, gparent, uncle)) && Safe(root.Now())
    ensures Holds(root.G(), t.n, t, parent)
    ensures HoldsAround(root.G(), root.rbNode, In(!left, true, parent, sib, In(left, false, gparent, uncle, up)), t.n)
  {
    hide Safe, Holds, HoldsAround, Nodes, Distinct, ContextNodes, ContextDistinct, Fits, RbRoot.G, RbRoot.Here, Family,
        Make, Closed;
    var g := root.G();
    FitsFamily(left, !left, t, parent, sib, gparent, uncle, up);
    FamilyApart(left, !left, t, parent, sib, gparent, uncle, up);
    FamilyParts(g, root.rbNode, left, !left, t, parent, sib, gparent, uncle, up);
    NodeParts(g, t, parent, left);
    HoldsClosed(g, Kid(g[t.n], left), Sub(t, left), t.n);
    HoldsClosed(g, Kid(g[parent], left), sib, parent);
  }

  /** Case 2: the node comes above its parent. */
  method Swing(root: RbRoot, node: Node, parent: Node, ghost gparent: Node, left: bool, ghost t: Tree, ghost sib: Tree,
      ghost uncle: Tree, ghost up: Context)
    requires t.T? && t.n == node && root.At(In(!left, true, parent, sib, In(left, false, gparent, uncle, up)), t, node)
    requires parent in root.nodes && gparent in root.nodes && node in root.nodes
        && (Sub(t, left).T? ==> !Sub(t, left).red)
    modifies root`views, root.nodes
    ensures node in root.G()
    ensures Ready(root, node, gparent, left, Kid(root.G()[node], !left), Make(left, true, sib, parent, Sub(t, left)),
                  Sub(t, !left), uncle, up)
    ensures Recorded(old(root.Here()), root.Here())
  {
    hide Safe, Recorded, Holds, HoldsAround, Nodes, Distinct, ContextNodes, ContextDistinct, Fits, RbRoot.G,
        RbRoot.Here, Family, Make;
    hide SetKid, SetParentColor, Turning, Closed, RbRoot.At;
    ghost var g, m0 := root.G(), root.Here();
    SwingSets(root, parent, gparent, left, t, sib, uncle, up);
    var tmp := if left then node.left else node.right;
    root.TwoStores(parent, node, !left, tmp, Nodes(Sub(t, left)), Nodes(sib));
    ghost var m1 := root.Here();
    if tmp != null {
      root.SetParentColorOf(tmp, parent, false);
      RecordedOn(m0, m1, root.Here());
    }
    ghost var m2 := root.Here();
    root.SetParentColorOf(parent, node, true);
    RecordedOn(m0, m2, root.Here());
    SwingHolds(g, root.G(), root.rbNode, left, t, parent, sib, gparent, uncle, up, tmp);
  }

  /** In case 3 already. */
  lemma {:induction false} ReadyAtOnce(root: RbRoot, left: bool, t: Tree, parent: Node, sib: Tree, gparent: Node,
      uncle: Tree, up: Context)
    requires t.T? && root.At(In(left, true, parent, sib, In(left, false, gparent, uncle, up)), t, t.n)
    requires parent in root.nodes && gparent in root.nodes
    ensures Ready(root, parent, gparent, left, Kid(root.G()[parent], !left), t, sib, uncle, up)
  {
    hide Safe, Holds, HoldsAround, Nodes, Distinct, ContextNodes, ContextDistinct, Fits, Family, Make;
    FamilyParts(root.G(), root.rbNode, left, left, t, parent, sib, gparent, uncle, up);
  }

  /** Which side the node is on. */
  lemma {:induction false} WhichCase(root: RbRoot, left: bool, l1: bool, t: Tree, parent: Node, sib: Tree,
      gparent: Node, uncle: Tree, up: Context)
    requires t.T? && root.At(In(l1, true, parent, sib, In(left, false, gparent, uncle, up)), t, t.n)
    requires parent in root.nodes && gparent in root.nodes
    ensures (Kid(root.G()[parent], !left) == t.n) <==> l1 != left
    ensures Fits(up, Family(left, l1, t, parent, sib, gparent, uncle))
    ensures root.nodes == AllNodes(up, Family(left, l1, t, parent, sib, gparent, uncle))
  {
    hide Safe, Holds, HoldsAround, Distinct, ContextNodes, ContextDistinct, Fits, Family, Make;
    FitsFamily(left, l1, t, parent, sib, gparent, uncle, up);
    FamilyParts(root.G(), root.rbNode, left, l1, t, parent, sib, gparent, uncle, up);
    FamilyApart(left, l1, t, parent, sib, gparent, uncle, up);
  }

  /** Cases 2 and 3: the uncle is black. */
  method Restructure(root: RbRoot, node: Node, parent0: Node, gparent: Node, left: bool, ghost l1: bool, ghost t: Tree,
      ghost sib: Tree, ghost uncle: Tree, ghost up: Context) returns (ghost u: Tree)
    requires t.T? && t.n == node && root.At(In(l1, true, parent0, sib, In(left, false, gparent, uncle, up)), t, node)
    requires Good(t) && IsRed(t) && Good(sib) && Good(uncle) && Height(sib) == Height(t) == Height(uncle)
    requires !IsRed(sib) && !IsRed(uncle) && parent0 in root.nodes && gparent in root.nodes && node in root.nodes
    modifies root`views, root`rbNode, root.nodes
    ensures u.T? && root.At(up, u, u.n) && Good(u) && !IsRed(u) && Height(u) == Height(t) + 1
    ensures Inorder(u) == Inorder(Family(left, l1, t, parent0, sib, gparent, uncle))
        && Recorded(old(root.Here()), root.Here())
  {
    hide Safe, Recorded, Holds, HoldsAround, Nodes, Distinct, ContextNodes, ContextDistinct, Fits, RbRoot.G,
        RbRoot.Here, RbRoot.At, Family;
    hide Make, Turning, Good, Height, Inorder, RedBlack, AllNodes;
    ghost var m0 := root.Here();
    WhichCase(root, left, l1, t, parent0, sib, gparent, uncle, up);
    var parent := parent0;
    var tmp := if left then parent.right else parent.left;
    ghost var a, m := t, sib;
    if node == tmp {
      SwungFamily(left, t, parent, sib, gparent, uncle, up);
      SwungGood(left, t, parent, sib);
      Swing(root, node, parent, gparent, left, t, sib, uncle, up);
      a, m := Make(left, true, sib, parent, Sub(t, left)), Sub(t, !left);
      parent := node;
      tmp := if left then node.right else node.left;
    } else {
      NothingSince(m0);
      ReadyAtOnce(root, left, t, parent, sib, gparent, uncle, up);
    }
    OuterCase(left, a, parent, m, gparent, uncle, up);
    u := Turned(gparent, parent, left, false, true, a, m, uncle);
    BlackRoot(m);
    ghost var m1 := root.Here();
    root.Rotate(gparent, parent, left, tmp, false, true, up, a, m, uncle);
    RecordedOn(m0, m1, root.Here());
    TurnedRoot(gparent, parent, left, false, true, a, m, uncle);
  }

  lemma BlackRoot(m: Tree)
    requires !IsRed(m)
    ensures m.T? ==> m.red == false
  {
  }

  lemma TurnedRoot(old_: Node, new_: Node, left: bool, top: bool, red: bool, a: Tree, m: Tree, o: Tree)
    ensures var u := Turned(old_, new_, left, top, red, a, m, o); u.T? && u.n == new_
  {
  }

  // ---- __rb_insert ----

  /** What is at the parent, when it is red. */
  lemma {:induction false} Grandparent(root: RbRoot, c: Context, t: Tree)
    requires t.T? && root.At(c, t, t.n) && c.In? && c.red && GoodAround(c, Height(t)) && c.n in root.nodes
    ensures c.up.In? && !c.up.red && c.n.parent == c.up.n && c.up.n in root.nodes
    ensures c.n != c.up.n.right <==> c.up.left
    ensures var tmp := if c.up.left then c.up.n.right else c.up.n.left;
      && ((tmp != null && tmp.red) <==> IsRed(c.up.other))
      && (IsRed(c.up.other) ==> tmp == c.up.other.n && tmp in root.nodes)
  {
    hide Safe, Nodes, Distinct, ContextDistinct, Fits, Good, Height;
    var g := root.G();
    assert HoldsAround(g, root.rbNode, c.up, c.n);
    assert c.up.n in g && Kid(g[c.up.n], c.up.left) == c.n;
    FitsUp(c, t);
    OtherSide(c.up, Make(c.left, c.red, t, c.n, c.other));
    HoldsClosed(g, Kid(g[c.up.n], !c.up.left), c.up.other, c.up.n);
    NodesIn(g, Kid(g[c.up.n], !c.up.left), c.up.other, c.up.n);
  }

  lemma {:induction false} OtherSide(c: Context, t: Tree)
    requires c.In? && Fits(c, t) && t.T?
    ensures t.n !in Nodes(c.other)
  {
  }

  lemma {:induction false} Heights(c: Context, t: Tree)
    requires c.In? && c.up.In? && c.red && GoodAround(c, Height(t))
    ensures !c.up.red && Good(c.other) && Height(c.other) == Height(t) && !IsRed(c.other)
    ensures Good(c.up.other) && Height(c.up.other) == Height(t) && GoodAround(c.up.up, Height(t) + 1)
  {
    hide Good, Height;
  }

  lemma {:induction false} FlipGood(left: bool, l1: bool, t: Tree, p: Node, sib: Tree, gp: Node, uncle: Tree)
    requires Good(t) && Good(sib) && Good(uncle) && Height(sib) == Height(t) == Height(uncle) && IsRed(uncle)
    ensures var u := Make(left, true, Make(l1, false, t, p, sib), gp, Coloured(uncle, false));
      u.T? && u.n == gp && IsRed(u) && Good(u) && Height(u) == Height(t) + 1
  {
    var a, b := Make(l1, false, t, p, sib), Coloured(uncle, false);
    assert Good(a) && Height(a) == Height(t) + 1;
    assert Good(b) && Height(b) == Height(uncle) + 1;
  }

  lemma {:induction false} BlackRootGood(t: Tree)
    requires Good(t) && IsRed(t)
    ensures RedBlack(Coloured(t, false)) && Inorder(Coloured(t, false)) == Inorder(Plug(Top, t))
  {
  }

  /** In the loop: the node is red, and that is all that may be wrong. */
  ghost predicate Inserting(root: RbRoot, c: Context, t: Tree, node: Node, order: seq<Node>)
    reads root`rbNode, root`nodes, root.nodes
  {
    && t.T? && t.n == node && IsRed(t) && Good(t) && GoodAround(c, Height(t)) && root.At(c, t, node)
    && node in root.nodes && Inorder(Plug(c, t)) == order
  }

  /** __rb_insert; the two mirrored halves of the source are one body. */
  method InsertColor(root: RbRoot, node0: Node, ghost c0: Context) returns (ghost u: Tree)
    requires root.At(c0, T(true, Leaf, node0, Leaf), node0) && RedBlack(Plug(c0, Leaf)) && node0 in root.nodes
    modifies root`views, root`rbNode, root.nodes
    ensures root.At(Top, u, root.rbNode) && RedBlack(u)
    ensures Inorder(u) == Inorder(Plug(c0, T(true, Leaf, node0, Leaf))) && Recorded(old(root.Here()), root.Here())
  {
    hide Safe, Recorded, Good, GoodAround, Height, RedBlack, RbRoot.At, RbRoot.Here, Inorder, Plug, Family, Make,
        Coloured;
    ghost var c, t, m0 := c0, T(true, Leaf, node0, Leaf), root.Here();
    ghost var order := Inorder(Plug(c, t));
    var node, parent := node0, node0.parent;
    StartInserting(root, c, t, node);
    NothingSince(m0);
    while true
      invariant Inserting(root, c, t, node, order) && parent == Above(c) && Recorded(m0, root.Here())
      decreases c
    {
      ghost var m1 := root.Here();
      ParentIs(root, c, t, node);
      if parent == null {
        BlackRootGood(t);
        BlackenNode(root, node, null, Top, t);
        RecordedOn(m0, m1, root.Here());
        u := Coloured(t, false);
        BlackenedWhole(root, u, node);
        return;
      }
      if !parent.red {
        PlugGood(c, t);
        Whole(root, c, t, node);
        u := Plug(c, t);
        return;
      }
      Grandparent(root, c, t);
      Heights(c, t);
      var gparent := parent.parent;
      var left := parent != gparent.right;
      var tmp := if left then gparent.right else gparent.left;
      if tmp != null && tmp.red {
        FlipStep(c, t, order);
        FlipGood(c.up.left, c.left, t, c.n, c.other, c.up.n, c.up.other);
        node, parent := Flip(root, parent, gparent, tmp, c.up.left, c.left, t, c.other, c.up.other, c.up.up);
        RecordedOn(m0, m1, root.Here());
        t := Make(c.up.left, true, Make(c.left, false, t, c.n, c.other), c.up.n, Coloured(c.up.other, false));
        c := c.up.up;
        continue;
      }
      ghost var w := Restructure(root, node, parent, gparent, left, c.left, t, c.other, c.up.other, c.up.up);
      RecordedOn(m0, m1, root.Here());
      TurnStep(c, t, w, order);
      PlugGood(c.up.up, w);
      Whole(root, c.up.up, w, w.n);
      u := Plug(c.up.up, w);
      return;
    }
  }

  lemma {:induction false} StartInserting(root: RbRoot, c: Context, t: Tree, node: Node)
    requires t == T(true, Leaf, node, Leaf) && root.At(c, t, node) && RedBlack(Plug(c, Leaf)) && node in root.nodes
    ensures Inserting(root, c, t, node, Inorder(Plug(c, t))) && node.parent == Above(c)
  {
    hide Safe, RedBlack, Fits, Nodes;
    GoodParts(c, Leaf);
    assert Height(t) == Height(Leaf) == 0;
  }

  lemma BlackenedWhole(root: RbRoot, t: Tree, node: Node)
    requires root.At(Top, t, node)
    ensures root.At(Top, t, root.rbNode) && root.rbNode == node
  {
    hide Safe, Fits, Nodes, Holds;
  }

  lemma {:induction false} FlipStep(c: Context, t: Tree, order: seq<Node>)
    requires c.In? && c.up.In? && c.red && !c.up.red && Inorder(Plug(c, t)) == order
    ensures Inorder(Plug(c.up.up, Make(c.up.left, true, Make(c.left, false, t, c.n, c.other), c.up.n,
        Coloured(c.up.other, false)))) == order
  {
    hide Inorder, Make, Coloured;
    var u := Make(c.up.left, true, Make(c.left, false, t, c.n, c.other), c.up.n, Coloured(c.up.other, false));
    FlipOrder(c.up.left, c.left, t, c.n, c.other, c.up.n, c.up.other);
    SameOrder(c.up.up, Family(c.up.left, c.left, t, c.n, c.other, c.up.n, c.up.other), u);
  }

  lemma {:induction false} FlipOrder(left: bool, l1: bool, t: Tree, p: Node, sib: Tree, gp: Node, uncle: Tree)
    ensures Inorder(Make(left, true, Make(l1, false, t, p, sib), gp, Coloured(uncle, false))) ==
            Inorder(Family(left, l1, t, p, sib, gp, uncle))
  {
    SameParts(uncle, false);
  }

  lemma {:induction false} TurnStep(c: Context, t: Tree, w: Tree, order: seq<Node>)
    requires c.In? && c.up.In? && c.red && !c.up.red && Inorder(Plug(c, t)) == order
    requires Inorder(w) == Inorder(Family(c.up.left, c.left, t, c.n, c.other, c.up.n, c.up.other))
    ensures Inorder(Plug(c.up.up, w)) == order
  {
    hide Inorder, Make;
    SameOrder(c.up.up, Family(c.up.left, c.left, t, c.n, c.other, c.up.n, c.up.other), w);
  }
}

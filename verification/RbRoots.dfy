/** The stores of rbtree.c and the rotations made of them. Every store of a child pointer goes
    through WriteKid or WriteRoot, which keep a record of what a traversal may see. */
module RbRoots {
  import opened RbGraph
  import opened RbTrees

  /** struct rb_root, with the nodes of its tree and the record of the stores. */
  class RbRoot {
    var rbNode: Node?
    ghost var nodes: set<Node>
    ghost var views: seq<View>

    ghost function G(): (g: Graph)
      reads this`nodes, nodes
      ensures g.Keys == nodes
      ensures forall n :: n in nodes ==> g[n] == Cell(n.left, n.right, n.parent, n.red)
    {
      map n | n in nodes :: Cell(n.left, n.right, n.parent, n.red)
    }

    ghost function Now(): View
      reads this`rbNode, this`nodes, nodes
    {
      View(rbNode, G())
    }

    ghost function Here(): Moment
      reads this`rbNode, this`nodes, this`views, nodes
    {
      Moment(Now(), views)
    }

    /** RB_ROOT */
    constructor ()
      ensures rbNode == null && nodes == {} && views == [] && Safe(Now())
    {
      rbNode, nodes, views := null, {}, [];
    }

    method Store(n: Node, left: bool, c: Node?)
      requires n in nodes
      modifies n`left, n`right
      ensures G() == SetKid(old(G()), n, left, c)
    {
      ghost var g := G();
      if left { n.left := c; } else { n.right := c; }
      assert G() == SetKid(g, n, left, c);
    }

    /** WRITE_ONCE of a child pointer. */
    method WriteKid(n: Node, left: bool, c: Node?, ghost k: set<Node>)
      requires n in nodes && Safe(Now()) && Closed(G(), k) && n !in k && (c == null || c in k)
      modifies this`views, n`left, n`right
      ensures G() == SetKid(old(G()), n, left, c) && Safe(Now()) && Recorded(old(Here()), Here())
    {
      hide Safe, Closed, SetKid, G, Recorded, OneStore;
      ghost var a := Here();
      SafeStore(Now(), n, left, c, k);
      KidStored(Now(), n, left, c);
      Store(n, left, c);
      views := views + [Now()];
      StoreRecorded(a, Here());
    }

    /** WRITE_ONCE of the root pointer. */
    method WriteRoot(c: Node?)
      requires Safe(Now()) && (c == null || c in nodes)
      modifies this`views, this`rbNode
      ensures rbNode == c && Safe(Now()) && Recorded(old(Here()), Here())
    {
      hide Recorded;
      ghost var a := Here();
      rbNode := c;
      assert G() == a.now.g;
      views := views + [Now()];
      StoreRecorded(a, Here());
    }

    method SetParentColorOf(n: Node, par: Node?, red: bool)
      requires n in nodes && Safe(Now())
      modifies n`parent, n`red
      ensures G() == SetParentColor(old(G()), n, par, red) && Safe(Now()) && Recorded(old(Here()), Here())
    {
      hide Safe, Recorded;
      ghost var a := Here();
      StoreParent(n, par, red);
      ParentsAside(a.now.g, n, par, red);
      SafeAgain(a.now, Now());
      NothingRecorded(a, Here());
    }

    method StoreParent(n: Node, par: Node?, red: bool)
      requires n in nodes
      modifies n`parent, n`red
      ensures G() == SetParentColor(old(G()), n, par, red)
    {
      ghost var g := G();
      n.parent, n.red := par, red;
      assert G() == SetParentColor(g, n, par, red);
    }

    /** At p, surrounded by c, the pointers are those of t, and there is nothing else. */
    ghost predicate At(c: Context, t: Tree, p: Node?)
      reads this`rbNode, this`nodes, nodes
    {
      && Holds(G(), p, t, Above(c)) && HoldsAround(G(), rbNode, c, p) && Fits(c, t) && nodes == AllNodes(c, t)
      && Safe(Now())
    }

    /** __rb_change_child: whoever pointed to old points to new_. */
    method ChangeChild(old_: Node, new_: Node, parent: Node?, ghost c: Context, ghost k: set<Node>)
      requires parent == Above(c) && HoldsAround(G(), rbNode, c, old_) && ContextDistinct(c) && old_ !in ContextNodes(c)
      requires Safe(Now()) && Closed(G(), k) && new_ in k && k !! ContextNodes(c) && k + ContextNodes(c) == nodes
      modifies this`views, this`rbNode, nodes`left, nodes`right
      ensures HoldsAround(G(), rbNode, c, new_) && Agree(old(G()), G(), k)
      ensures Safe(Now()) && Recorded(old(Here()), Here())
    {
      hide Safe, Closed, Recorded, Here;
      ghost var g := G();
      if parent != null {
        ParentInContext(c);
        OtherKid(g, rbNode, c, old_);
        WriteKid(parent, parent.left == old_, new_, k);
        AroundChanged(g, G(), rbNode, c, old_, new_);
      } else {
        WriteRoot(new_);
      }
    }

    /** __rb_rotate_set_parents: old_'s parent and colour go to new_; old_ gets new_ as its parent and
        the colour red. */
    method RotateSetParents(old_: Node, new_: Node, red: bool, ghost c: Context, ghost t: Tree)
      requires Safe(Now()) && HoldsAround(G(), rbNode, c, old_) && Fits(c, t) && nodes == AllNodes(c, t)
      requires old_ in Nodes(t) && new_ in Nodes(t) && old_ != new_ && old_.parent == Above(c)
      requires Holds(SetParentColor(SetParentColor(G(), new_, old_.parent, old_.red), old_, new_, red), new_, t,
          Above(c))
      modifies this`views, this`rbNode, nodes
      ensures At(c, t, new_) && Recorded(old(Here()), Here())
    {
      hide Safe, Recorded, Holds, HoldsAround, Distinct, ContextDistinct, Nodes, ContextNodes, SetParentColor, Closed,
          Agree, G, Here;
      ghost var g, m0 := G(), Here();
      var parent := old_.parent;
      SetParentColorOf(new_, old_.parent, old_.red);
      ghost var m1 := Here();
      SetParentColorOf(old_, new_, red);
      ghost var h, m2 := G(), Here();
      RecordedOn(m0, m1, m2);
      AroundUntouched(g, h, c, t, old_, new_, red);
      AroundSame(g, h, rbNode, c, old_);
      HoldsClosed(h, new_, t, Above(c));
      ChangeChild(old_, new_, parent, c, Nodes(t));
      RecordedOn(m0, m2, Here());
      HoldsSame(h, G(), new_, t, Above(c));
    }

    /** The two stores of a rotation: mid goes from new_ to old_, and old_ below new_. */
    method TwoStores(old_: Node, new_: Node, left: bool, mid: Node?, ghost m: set<Node>, ghost o: set<Node>)
      requires old_ in nodes && new_ in nodes && Safe(Now()) && Closed(G(), m) && Closed(G(), o)
          && (mid == null || mid in m)
      requires (Kid(G()[old_], !left) == null || Kid(G()[old_], !left) in o)
      requires old_ != new_ && old_ !in m && old_ !in o && new_ !in m && new_ !in o
      modifies this`views, old_`left, old_`right, new_`left, new_`right
      ensures G() == SetKid(SetKid(old(G()), old_, left, mid), new_, !left, old_) && Safe(Now())
      ensures Recorded(old(Here()), Here())
    {
      hide Safe, Recorded, G, Here;
      ghost var g, m0 := G(), Here();
      WriteKid(old_, left, mid, m);
      OldClosed(g, old_, left, mid, m, o);
      ghost var m1 := Here();
      WriteKid(new_, !left, old_, {old_} + m + o);
      RecordedOn(m0, m1, Here());
    }

    /** A rotation at old_, with new_ coming above it; mid, the subtree that changes sides, keeps
        its colour. */
    method Rotate(old_: Node, new_: Node, left: bool, mid: Node?, midRed: bool, red: bool, ghost c: Context,
        ghost a: Tree, ghost m: Tree, ghost o: Tree)
      requires old_ in nodes && new_ in nodes && Safe(Now()) && HoldsAround(G(), rbNode, c, old_)
      requires Turning(G(), old_, new_, left, mid, a, m, o) && (m.T? ==> m.red == midRed)
      requires Fits(c, Turned(old_, new_, left, old_.red, red, a, m, o)) && old_.parent == Above(c)
      requires nodes == AllNodes(c, Turned(old_, new_, left, old_.red, red, a, m, o))
      modifies this`views, this`rbNode, nodes
      ensures At(c, Turned(old_, new_, left, old(old_.red), red, a, m, o), new_) && Recorded(old(Here()), Here())
    {
      hide Safe, Recorded, Holds, HoldsAround, Distinct, ContextDistinct, Nodes, ContextNodes, SetKid, SetParentColor,
          Closed;
      hide Agree, G, Here, Turned, Turning, Fits;
      ghost var g, t, m0 := G(), Turned(old_, new_, left, old_.red, red, a, m, o), Here();
      TurnApart(old_, new_, left, old_.red, red, c, a, m, o);
      TurnSets(g, old_, new_, left, mid, a, m, o);
      TwoStores(old_, new_, left, mid, Nodes(m), Nodes(o));
      ghost var m1 := Here();
      if mid != null {
        SetParentColorOf(mid, old_, midRed);
        RecordedOn(m0, m1, Here());
      }
      ghost var m2 := Here();
      TurnHolds(g, G(), old_, new_, left, mid, midRed, c, a, m, o, red, rbNode);
      RotateSetParents(old_, new_, red, c, t);
      RecordedOn(m0, m2, Here());
    }
  }

  /** The tree after a rotation at old_: new_ above it, m between them. */
  function Turned(old_: Node, new_: Node, left: bool, top: bool, red: bool, a: Tree, m: Tree, o: Tree): Tree {
    Make(left, top, a, new_, Make(left, red, m, old_, o))
  }

  /** The parts that a rotation puts together. */
  ghost predicate Turning(g: Graph, old_: Node, new_: Node, left: bool, mid: Node?, a: Tree, m: Tree, o: Tree) {
    && old_ in g && new_ in g
    && Holds(g, Kid(g[new_], left), a, new_) && Holds(g, mid, m, new_) && Holds(g, Kid(g[old_], !left), o, old_)
  }

  /** The parts do not overlap. */
  lemma {:induction false} TurnApart(old_: Node, new_: Node, left: bool, top: bool, red: bool, c: Context, a: Tree,
      m: Tree, o: Tree)
    requires Fits(c, Turned(old_, new_, left, top, red, a, m, o))
    ensures old_ != new_ && old_ !in Nodes(a) && new_ !in Nodes(a) && old_ !in Nodes(m) && new_ !in Nodes(m)
    ensures old_ !in Nodes(o) && new_ !in Nodes(o) && old_ !in ContextNodes(c) && new_ !in ContextNodes(c)
    ensures old_ in Nodes(Turned(old_, new_, left, top, red, a, m, o))
        && new_ in Nodes(Turned(old_, new_, left, top, red, a, m, o))
  {
    hide Nodes, Distinct, ContextNodes, ContextDistinct, Make;
    var low := Make(left, red, m, old_, o);
    MakeParts(left, red, m, old_, o);
    MakeParts(left, top, a, new_, low);
  }

  lemma OldClosed(g: Graph, old_: Node, left: bool, mid: Node?, m: set<Node>, o: set<Node>)
    requires old_ in g && Closed(g, m) && Closed(g, o) && (mid == null || mid in m) && old_ !in m && old_ !in o
    requires Kid(g[old_], !left) == null || Kid(g[old_], !left) in o
    ensures Closed(SetKid(g, old_, left, mid), {old_} + m + o)
  {
  }

  lemma {:induction false} TurnSets(g: Graph, old_: Node, new_: Node, left: bool, mid: Node?, a: Tree, m: Tree, o: Tree)
    requires Turning(g, old_, new_, left, mid, a, m, o)
    ensures Closed(g, Nodes(m)) && (mid == null || mid in Nodes(m)) && Nodes(m) <= g.Keys
    ensures Closed(g, Nodes(o)) && old_ in g && (Kid(g[old_], !left) == null || Kid(g[old_], !left) in Nodes(o))
  {
    hide Holds, Nodes;
    HoldsClosed(g, mid, m, new_);
    HoldsClosed(g, Kid(g[old_], !left), o, old_);
  }

  /** The graph after the two stores and once mid knows its parent. */
  function Stored(g: Graph, old_: Node, new_: Node, left: bool, mid: Node?, midRed: bool): (h: Graph)
    requires old_ in g && new_ in g && (mid == null || mid in g)
    ensures h.Keys == g.Keys
  {
    var h := SetKid(SetKid(g, old_, left, mid), new_, !left, old_);
    if mid == null then h else SetParentColor(h, mid, old_, midRed)
  }

  /** Once parents and colours are set, the turned tree is there. */
  lemma {:induction false} TurnHolds(g: Graph, h: Graph, old_: Node, new_: Node, left: bool, mid: Node?, midRed: bool,
      c: Context, a: Tree, m: Tree, o: Tree, red: bool, root: Node?)
    requires Turning(g, old_, new_, left, mid, a, m, o) && Fits(c, Turned(old_, new_, left, g[old_].red, red, a, m, o))
    requires g[old_].parent == Above(c) && HoldsAround(g, root, c, old_) && (m.T? ==> m.red == midRed)
    requires (mid == null || mid in g) && h == Stored(g, old_, new_, left, mid, midRed)
    ensures old_ in h && new_ in h && HoldsAround(h, root, c, old_)
    ensures h[old_].parent == g[old_].parent && h[old_].red == g[old_].red
    ensures Holds(SetParentColor(SetParentColor(h, new_, h[old_].parent, h[old_].red), old_, new_, red), new_,
                  Turned(old_, new_, left, g[old_].red, red, a, m, o), Above(c))
  {
    hide Holds, Nodes, Distinct, HoldsAround, ContextNodes, ContextDistinct, Turned, Fits;
    TurnApart(old_, new_, left, g[old_].red, red, c, a, m, o);
    TurnMid(g, old_, new_, left, mid, c, a, m, o, red);
    var f := SetParentColor(SetParentColor(h, new_, h[old_].parent, h[old_].red), old_, new_, red);
    HoldsSame(g, f, Kid(g[new_], left), a, new_);
    HoldsMoved(g, f, mid, m, new_, old_, midRed);
    HoldsSame(g, f, Kid(g[old_], !left), o, old_);
    AroundIn(g, root, c, old_);
    AroundSame(g, h, root, c, old_);
    TurnedHolds(f, old_, new_, left, Above(c), g[old_].red, red, a, m, o);
  }

  /** Where mid is. */
  lemma {:induction false} TurnMid(g: Graph, old_: Node, new_: Node, left: bool, mid: Node?, c: Context, a: Tree,
      m: Tree, o: Tree, red: bool)
    requires Turning(g, old_, new_, left, mid, a, m, o) && Fits(c, Turned(old_, new_, left, g[old_].red, red, a, m, o))
    ensures Distinct(m) && (m.Leaf? <==> mid == null) && (m.T? ==> mid == m.n && mid in Nodes(m))
    ensures mid == null || (mid !in Nodes(a) && mid !in Nodes(o) && mid !in ContextNodes(c))
    ensures Nodes(a) <= g.Keys && Nodes(m) <= g.Keys && Nodes(o) <= g.Keys
  {
    hide Nodes, Distinct, ContextNodes, ContextDistinct, Make;
    var low := Make(left, red, m, old_, o);
    MakeParts(left, red, m, old_, o);
    MakeParts(left, g[old_].red, a, new_, low);
    HoldsClosed(g, mid, m, new_);
    NodesIn(g, Kid(g[new_], left), a, new_);
    NodesIn(g, mid, m, new_);
    NodesIn(g, Kid(g[old_], !left), o, old_);
  }

  lemma {:induction false} TurnedHolds(f: Graph, old_: Node, new_: Node, left: bool, par: Node?, top: bool, red: bool,
      a: Tree, m: Tree, o: Tree)
    requires old_ in f && new_ in f && f[new_].parent == par && f[new_].red == top && f[old_].parent == new_
        && f[old_].red == red
    requires Kid(f[new_], !left) == old_ && Holds(f, Kid(f[new_], left), a, new_)
    requires Holds(f, Kid(f[old_], left), m, old_) && Holds(f, Kid(f[old_], !left), o, old_)
    ensures Holds(f, new_, Turned(old_, new_, left, top, red, a, m, o), par)
  {
    assert Holds(f, old_, Make(left, red, m, old_, o), new_);
  }

  lemma AroundUntouched(g: Graph, h: Graph, c: Context, t: Tree, old_: Node, new_: Node, red: bool)
    requires old_ in Nodes(t) && new_ in Nodes(t) && Fits(c, t) && g.Keys == AllNodes(c, t)
    requires h == SetParentColor(SetParentColor(g, new_, g[old_].parent, g[old_].red), old_, new_, red)
    ensures Agree(g, h, ContextNodes(c))
  {
    hide Nodes, ContextNodes, Distinct, ContextDistinct;
  }

  /** The whole tree, seen from the root. */
  lemma {:induction false} Whole(root: RbRoot, c: Context, t: Tree, p: Node?)
    requires root.At(c, t, p)
    ensures root.At(Top, Plug(c, t), root.rbNode)
  {
    hide Safe;
    HoldsWhole(root.G(), root.rbNode, c, t, p);
    PlugNodes(c, t);
  }

  lemma {:induction false} ParentIs(root: RbRoot, c: Context, t: Tree, p: Node?)
    requires root.At(c, t, p)
    ensures c.In? ==> c.n in root.nodes && c.n.red == c.red
  {
    hide Safe, Fits, Nodes, Holds;
  }

  /** One level down. */
  lemma {:induction false} Down(root: RbRoot, left: bool, red: bool, n: Node, other: Tree, up: Context, t: Tree)
    requires root.At(up, Make(left, red, t, n, other), n)
    ensures root.At(In(left, red, n, other, up), t, RootOf(t)) && n in root.nodes
  {
    hide Safe, Nodes, Distinct, ContextNodes, ContextDistinct, Fits;
    FitsUp(In(left, red, n, other, up), t);
    NodesIn(root.G(), n, Make(left, red, t, n, other), Above(up));
    MakeParts(left, red, t, n, other);
    HoldsDown(root.G(), root.rbNode, left, red, n, other, up, t);
  }

  lemma {:induction false} HoldsDown(g: Graph, root: Node?, left: bool, red: bool, n: Node, other: Tree, up: Context,
      t: Tree)
    requires Holds(g, n, Make(left, red, t, n, other), Above(up)) && HoldsAround(g, root, up, n)
    ensures n in g && Holds(g, RootOf(t), t, n) && HoldsAround(g, root, In(left, red, n, other, up), RootOf(t))
  {
    if t.T? { assert Kid(g[n], left) == t.n; }
  }

  /** One level up. */
  lemma {:induction false} Up(root: RbRoot, c: Context, t: Tree, p: Node?)
    requires c.In? && root.At(c, t, p)
    ensures root.At(c.up, Make(c.left, c.red, t, c.n, c.other), c.n) && c.n in root.nodes
  {
    hide Safe, Nodes, Distinct, ContextNodes, ContextDistinct, Fits, Make;
    FitsUp(c, t);
    HoldsUp(root.G(), root.rbNode, c, t, p);
  }

  /** The root of a subtree turns black. */
  method BlackenNode(root: RbRoot, n: Node, par: Node?, ghost c: Context, ghost t: Tree)
    requires t.T? && t.n == n && root.At(c, t, n) && n in root.nodes && par == Above(c)
    modifies root.nodes
    ensures root.At(c, Coloured(t, false), n) && Recorded(old(root.Here()), root.Here())
  {
    hide Safe, Recorded, SetParentColor, RbRoot.G, RbRoot.Here, Holds, HoldsAround, Nodes, Distinct, ContextNodes,
        ContextDistinct, AllNodes;
    ghost var g := root.G();
    root.SetParentColorOf(n, par, false);
    BlackenHolds(g, root.G(), root.rbNode, c, t);
  }

  lemma {:induction false} BlackenHolds(g: Graph, h: Graph, root: Node?, c: Context, t: Tree)
    requires t.T? && t.n in g && Holds(g, t.n, t, Above(c)) && HoldsAround(g, root, c, t.n) && Fits(c, t)
    requires h == SetParentColor(g, t.n, Above(c), false)
    ensures Holds(h, t.n, Coloured(t, false), Above(c)) && HoldsAround(h, root, c, t.n) && Fits(c, Coloured(t, false))
    ensures AllNodes(c, Coloured(t, false)) == AllNodes(c, t)
  {
    NodesIn(g, t.n, t, Above(c));
    AroundIn(g, root, c, t.n);
    HoldsMoved(g, h, t.n, t, Above(c), Above(c), false);
    AroundSame(g, h, root, c, t.n);
    SameParts(t, false);
  }

  lemma ParentsAside(g: Graph, n: Node, par: Node?, red: bool)
    requires n in g
    ensures SameKids(g, SetParentColor(g, n, par, red))
  {
  }

  lemma ParentInContext(c: Context)
    requires c.In?
    ensures c.n in ContextNodes(c)
  {
  }

  /** Only one child pointer of the node above leads here. */
  lemma {:induction false} OtherKid(g: Graph, root: Node?, c: Context, p: Node)
    requires c.In? && HoldsAround(g, root, c, p) && p !in ContextNodes(c)
    ensures c.n in g && (g[c.n].left == p <==> c.left)
  {
    HoldsClosed(g, Kid(g[c.n], !c.left), c.other, c.n);
  }
}

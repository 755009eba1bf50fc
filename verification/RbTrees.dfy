/** Red-black trees as values: the properties 2, 4 and 5 that rbtree.c names, a subtree in its
    surroundings, and what it means for the pointers to stand for a tree. */
module RbTrees {
  import opened RbGraph

  datatype Tree = Leaf | T(red: bool, l: Tree, n: Node, r: Tree)

  ghost function Nodes(t: Tree): set<Node> {
    match t
    case Leaf => {}
    case T(_, l, n, r) => Nodes(l) + {n} + Nodes(r)
  }

  /** The nodes in order. */
  ghost function Inorder(t: Tree): seq<Node> {
    match t
    case Leaf => []
    case T(_, l, n, r) => Inorder(l) + [n] + Inorder(r)
  }

  /** No node stands in two places. */
  ghost predicate Distinct(t: Tree) {
    match t
    case Leaf => true
    case T(_, l, n, r) => Distinct(l) && Distinct(r) && n !in Nodes(l) && n !in Nodes(r) && Nodes(l) !! Nodes(r)
  }

  // ---- colours ----

  predicate IsRed(t: Tree) { t.T? && t.red }

  /** Black nodes on the leftmost path; on every path, when the tree is even. */
  ghost function Height(t: Tree): nat {
    match t
    case Leaf => 0
    case T(red, l, _, _) => Height(l) + if red then 0 else 1
  }

  /** Properties 4 and 5. */
  ghost predicate Good(t: Tree) {
    match t
    case Leaf => true
    case T(red, l, _, r) => Good(l) && Good(r) && Height(l) == Height(r) && (red ==> !IsRed(l) && !IsRed(r))
  }

  /** Properties 2, 4 and 5. */
  ghost predicate RedBlack(t: Tree) { Good(t) && !IsRed(t) }

  // ---- a subtree in its surroundings ----

  /** What is around a subtree: the nodes above it, each with the side the subtree is on and the
      tree on the other side. */
  datatype Context = Top | In(left: bool, red: bool, n: Node, other: Tree, up: Context)

  /** A node with a on the given side and b on the other. */
  function Make(left: bool, red: bool, a: Tree, n: Node, b: Tree): Tree { if left then T(red, a, n, b)
      else T(red, b, n, a) }

  /** The child of a tree's root on one side. */
  function Sub(t: Tree, left: bool): Tree
    requires t.T?
  {
    if left then t.l else t.r
  }

  lemma SubMake(t: Tree, left: bool)
    requires t.T?
    ensures t == Make(left, t.red, Sub(t, left), t.n, Sub(t, !left))
  {
  }

  function Plug(c: Context, t: Tree): Tree {
    match c
    case Top => t
    case In(left, red, n, other, up) => Plug(up, Make(left, red, t, n, other))
  }

  function Above(c: Context): Node? { if c.Top? then null else c.n }

  ghost function ContextNodes(c: Context): set<Node> {
    match c
    case Top => {}
    case In(_, _, n, other, up) => {n} + Nodes(other) + ContextNodes(up)
  }

  ghost predicate ContextDistinct(c: Context) {
    match c
    case Top => true
    case In(_, _, n, other, up) =>
      Distinct(other) && n !in Nodes(other) && ContextDistinct(up) && ({n} + Nodes(other)) !! ContextNodes(up)
  }

  ghost predicate Fits(c: Context, t: Tree) { Distinct(t) && ContextDistinct(c) && Nodes(t) !! ContextNodes(c) }

  ghost function AllNodes(c: Context, t: Tree): set<Node> { Nodes(t) + ContextNodes(c) }

  lemma RootIfAny(o: Tree)
    ensures o.T? ==> o.n in Nodes(o)
  {
  }

  lemma {:induction false} MakeParts(left: bool, red: bool, a: Tree, n: Node, b: Tree)
    ensures Nodes(Make(left, red, a, n, b)) == Nodes(a) + {n} + Nodes(b)
    ensures Distinct(Make(left, red, a, n, b)) <==>
      Distinct(a) && Distinct(b) && n !in Nodes(a) && n !in Nodes(b) && Nodes(a) !! Nodes(b)
  {
  }

  /** Colours do not matter to any of this. */
  lemma {:induction false} SameParts(t: Tree, red: bool)
    ensures Nodes(Coloured(t, red)) == Nodes(t) && Inorder(Coloured(t, red)) == Inorder(t)
    ensures Distinct(Coloured(t, red)) <==> Distinct(t)
  {
  }

  /** One level up. */
  lemma FitsUp(c: Context, t: Tree)
    requires c.In?
    ensures Fits(c, t) <==> Fits(c.up, Make(c.left, c.red, t, c.n, c.other))
    ensures AllNodes(c, t) == AllNodes(c.up, Make(c.left, c.red, t, c.n, c.other))
  {
  }

  lemma {:induction false} PlugNodes(c: Context, t: Tree)
    ensures Nodes(Plug(c, t)) == AllNodes(c, t) && (Distinct(Plug(c, t)) <==> Fits(c, t))
    decreases c
  {
    if c.In? {
      FitsUp(c, t);
      PlugNodes(c.up, Make(c.left, c.red, t, c.n, c.other));
    }
  }

  /** Nodes before and after the subtree. */
  ghost function Before(c: Context): seq<Node> {
    match c
    case Top => []
    case In(left, _, n, other, up) => if left then Before(up) else Before(up) + Inorder(other) + [n]
  }

  ghost function After(c: Context): seq<Node> {
    match c
    case Top => []
    case In(left, _, n, other, up) => if left then [n] + Inorder(other) + After(up) else After(up)
  }

  lemma {:induction false} PlugInorder(c: Context, t: Tree)
    ensures Inorder(Plug(c, t)) == Before(c) + Inorder(t) + After(c)
    decreases c
  {
    hide Inorder, Before, After;
    if c.In? { PlugInorder(c.up, Make(c.left, c.red, t, c.n, c.other)); }
    InorderStep(c, t);
  }

  lemma {:induction false} InorderStep(c: Context, t: Tree)
    ensures c.Top? ==> Before(c) + Inorder(t) + After(c) == Inorder(t)
    ensures c.In? ==> Before(c) + Inorder(t) + After(c) ==
                      Before(c.up) + Inorder(Make(c.left, c.red, t, c.n, c.other)) + After(c.up)
  {
    hide Inorder;
    if c.In? {
      InorderOfMake(c.left, c.red, t, c.n, c.other);
      if c.left {
        Regroup(Before(c.up), Inorder(t), c.n, Inorder(c.other), After(c.up));
      } else {
        Regroup(Before(c.up), Inorder(c.other), c.n, Inorder(t), After(c.up));
      }
    }
  }

  lemma {:induction false} InorderOfMake(left: bool, red: bool, a: Tree, n: Node, b: Tree)
    ensures Inorder(Make(left, red, a, n, b)) == if left then Inorder(a) + [n] + Inorder(b)
        else Inorder(b) + [n] + Inorder(a)
  {
  }

  lemma Regroup(b: seq<Node>, x: seq<Node>, n: Node, y: seq<Node>, a: seq<Node>)
    ensures b + (x + [n] + y) + a == b + x + ([n] + y + a)
    ensures b + (x + [n] + y) + a == b + x + [n] + y + a
  {
  }

  lemma Reassociate(x: seq<Node>, p: Node, y: seq<Node>, q: Node, z: seq<Node>)
    ensures (x + [p] + y) + [q] + z == x + [p] + (y + [q] + z)
  {
  }

  lemma {:induction false} SameOrder(c: Context, t: Tree, u: Tree)
    requires Inorder(u) == Inorder(t)
    ensures Inorder(Plug(c, u)) == Inorder(Plug(c, t))
  {
    PlugInorder(c, t);
    PlugInorder(c, u);
  }

  /** The surroundings are right for a subtree of height h, red nodes below a red one apart. */
  ghost predicate GoodAround(c: Context, h: nat) {
    match c
    case Top => true
    case In(_, red, _, other, up) =>
      && Good(other) && Height(other) == h && (red ==> !IsRed(other) && up.In? && !up.red)
      && GoodAround(up, if red then h else h + 1)
  }

  /** A red subtree here would break property 2 or 4. */
  predicate NoRed(c: Context) { c.Top? || c.red }

  lemma {:induction false} PlugGood(c: Context, t: Tree)
    requires Good(t) && GoodAround(c, Height(t)) && (IsRed(t) ==> !NoRed(c))
    ensures RedBlack(Plug(c, t))
    decreases c
  {
    if c.In? { PlugGood(c.up, Make(c.left, c.red, t, c.n, c.other)); }
  }

  lemma {:induction false} GoodParts(c: Context, t: Tree)
    requires RedBlack(Plug(c, t))
    ensures Good(t) && GoodAround(c, Height(t)) && (IsRed(t) ==> !NoRed(c))
    decreases c
  {
    if c.In? { GoodParts(c.up, Make(c.left, c.red, t, c.n, c.other)); }
  }

  // ---- pointers ----

  function RootOf(t: Tree): Node? { if t.T? then t.n else null }

  /** Below p the pointers and colours are those of t, and the parent of its root is par. */
  ghost predicate Holds(g: Graph, p: Node?, t: Tree, par: Node?) {
    match t
    case Leaf => p == null
    case T(red, l, n, r) =>
      && p == n && n in g && g[n].parent == par && g[n].red == red
      && Holds(g, g[n].left, l, n) && Holds(g, g[n].right, r, n)
  }

  /** The same for surroundings; p is the pointer at the place of the subtree. */
  ghost predicate HoldsAround(g: Graph, root: Node?, c: Context, p: Node?) {
    match c
    case Top => root == p
    case In(left, red, n, other, up) =>
      && n in g && g[n].red == red && g[n].parent == Above(up) && Kid(g[n], left) == p
      && Holds(g, Kid(g[n], !left), other, n) && HoldsAround(g, root, up, n)
  }

  ghost predicate Agree(g: Graph, h: Graph, k: set<Node>) { forall n :: n in k ==> n in g && n in h && h[n] == g[n] }

  lemma {:induction false} HoldsSame(g: Graph, h: Graph, p: Node?, t: Tree, par: Node?)
    requires Holds(g, p, t, par) && Agree(g, h, Nodes(t))
    ensures Holds(h, p, t, par)
  {
    if t.T? {
      HoldsSame(g, h, g[t.n].left, t.l, t.n);
      HoldsSame(g, h, g[t.n].right, t.r, t.n);
    }
  }

  lemma {:induction false} AroundSame(g: Graph, h: Graph, root: Node?, c: Context, p: Node?)
    requires HoldsAround(g, root, c, p) && Agree(g, h, ContextNodes(c))
    ensures HoldsAround(h, root, c, p)
  {
    if c.In? {
      HoldsSame(g, h, Kid(g[c.n], !c.left), c.other, c.n);
      AroundSame(g, h, root, c.up, c.n);
    }
  }

  /** Another root for the subtree. */
  lemma {:induction false} AroundChanged(g: Graph, h: Graph, root: Node?, c: Context, p: Node?, q: Node?)
    requires HoldsAround(g, root, c, p) && c.In? && ContextDistinct(c)
    requires Agree(g, h, ContextNodes(c) - {c.n}) && c.n in h && h[c.n] == SetKid(g, c.n, c.left, q)[c.n]
    ensures HoldsAround(h, root, c, q)
  {
    HoldsSame(g, h, Kid(g[c.n], !c.left), c.other, c.n);
    AroundSame(g, h, root, c.up, c.n);
  }

  /** The root of a subtree gets another parent and colour. */
  ghost function Coloured(t: Tree, red: bool): Tree { if t.Leaf? then Leaf else T(red, t.l, t.n, t.r) }

  lemma {:induction false} HoldsMoved(g: Graph, h: Graph, p: Node?, t: Tree, par: Node?, par1: Node?, red: bool)
    requires Holds(g, p, t, par) && Distinct(t) && (t.T? ==> Agree(g, h, Nodes(t) - {t.n}))
    requires t.T? ==> t.n in h && h[t.n] == g[t.n].(parent := par1, red := red)
    ensures Holds(h, p, Coloured(t, red), par1)
  {
    if t.T? {
      HoldsSame(g, h, g[t.n].left, t.l, t.n);
      HoldsSame(g, h, g[t.n].right, t.r, t.n);
    }
  }

  lemma {:induction false} HoldsUp(g: Graph, root: Node?, c: Context, t: Tree, p: Node?)
    requires c.In? && HoldsAround(g, root, c, p) && Holds(g, p, t, c.n)
    ensures Holds(g, c.n, Make(c.left, c.red, t, c.n, c.other), Above(c.up)) && HoldsAround(g, root, c.up, c.n)
  {
  }

  lemma {:induction false} HoldsWhole(g: Graph, root: Node?, c: Context, t: Tree, p: Node?)
    requires HoldsAround(g, root, c, p) && Holds(g, p, t, Above(c))
    ensures Holds(g, root, Plug(c, t), null)
    decreases c
  {
    if c.In? {
      HoldsUp(g, root, c, t, p);
      HoldsWhole(g, root, c.up, Make(c.left, c.red, t, c.n, c.other), c.n);
    }
  }

  lemma {:induction false} AroundIn(g: Graph, root: Node?, c: Context, p: Node?)
    requires HoldsAround(g, root, c, p)
    ensures ContextNodes(c) <= g.Keys
  {
    if c.In? {
      HoldsClosed(g, Kid(g[c.n], !c.left), c.other, c.n);
      AroundIn(g, root, c.up, c.n);
    }
  }

  lemma {:induction false} HoldsClosed(g: Graph, p: Node?, t: Tree, par: Node?)
    requires Holds(g, p, t, par)
    ensures Closed(g, Nodes(t)) && (p == null || p in Nodes(t)) && (t.Leaf? <==> p == null)
  {
    if t.T? {
      HoldsClosed(g, g[t.n].left, t.l, t.n);
      HoldsClosed(g, g[t.n].right, t.r, t.n);
    }
  }

  lemma {:induction false} NodesIn(g: Graph, p: Node?, t: Tree, par: Node?)
    requires Holds(g, p, t, par)
    ensures Nodes(t) <= g.Keys
  {
    HoldsClosed(g, p, t, par);
  }

  lemma AgreeOn(g: Graph, h: Graph, k: set<Node>, l: set<Node>)
    requires Agree(g, h, k) && l <= k
    ensures Agree(g, h, l)
  {
  }

  lemma AgreeAt(g: Graph, h: Graph, k: set<Node>, n: Node)
    requires Agree(g, h, k) && n in k
    ensures n in g && n in h && h[n] == g[n]
  {
  }

  lemma {:induction false} JoinHolds(h: Graph, left: bool, red: bool, a: Tree, n: Node, b: Tree, par: Node?)
    requires n in h && h[n].parent == par && h[n].red == red && Holds(h, Kid(h[n], left), a, n)
        && Holds(h, Kid(h[n], !left), b, n)
    ensures Holds(h, n, Make(left, red, a, n, b), par)
  {
  }

  lemma {:induction false} NodeParts(g: Graph, t: Tree, par: Node?, left: bool)
    requires t.T? && Holds(g, t.n, t, par) && Distinct(t)
    ensures t.n in g && Holds(g, Kid(g[t.n], left), Sub(t, left), t.n)
        && Holds(g, Kid(g[t.n], !left), Sub(t, !left), t.n)
    ensures Kid(g[t.n], left) == if Sub(t, left).T? then Sub(t, left).n else null
    ensures Nodes(t) == Nodes(Sub(t, left)) + {t.n} + Nodes(Sub(t, !left)) && t.n !in Nodes(Sub(t, left))
    ensures t.n !in Nodes(Sub(t, !left)) && Nodes(Sub(t, left)) !! Nodes(Sub(t, !left))
    ensures Distinct(Sub(t, left)) && Distinct(Sub(t, !left)) && Nodes(t) <= g.Keys && t.n in Nodes(t)
    ensures Sub(t, left).T? ==> Sub(t, left).n in Nodes(Sub(t, left))
  {
    NodesIn(g, t.n, t, par);
  }

  // ---- a tree is safe to traverse ----

  lemma {:induction false} TreeHasEnd(g: Graph, p: Node?, t: Tree, par: Node?, s: set<Node>) returns (n: Node)
    requires Holds(g, p, t, par) && Distinct(t) && s * Nodes(t) != {}
    ensures n in s * Nodes(t) && n in g && NoKidIn(g, n, s * Nodes(t))
  {
    HoldsClosed(g, g[t.n].left, t.l, t.n);
    HoldsClosed(g, g[t.n].right, t.r, t.n);
    if s * Nodes(t.l) != {} {
      n := TreeHasEnd(g, g[t.n].left, t.l, t.n, s);
    } else if s * Nodes(t.r) != {} {
      n := TreeHasEnd(g, g[t.n].right, t.r, t.n, s);
    } else {
      n := t.n;
    }
  }

  lemma {:induction false} TreeIsSafe(g: Graph, root: Node?, t: Tree)
    requires Holds(g, root, t, null) && Distinct(t) && g.Keys == Nodes(t)
    ensures Safe(View(root, g))
  {
    HoldsClosed(g, root, t, null);
    forall s: set<Node> | s <= g.Keys && s != {} ensures HasEnd(g, s) {
      assert s * Nodes(t) == s;
      var n := TreeHasEnd(g, root, t, null, s);
    }
  }
}

/** Red-black trees with parent pointers (compat/rbtree.c, compat/rbtree.h): the heap nodes,
    the tree they represent, and the invariants listed at the head of the source. */
module RbTree {

  datatype Side = Left | Right

  function Other(s: Side): Side { if s == Left then Right else Left }

  /** struct rb_node; the parent pointer and the colour are one word in the source. */
  class Node {
    var left: Node?
    var right: Node?
    var parent: Node?
    var red: bool

    /** A node after RB_CLEAR_NODE: its own parent, linked nowhere. */
    constructor ()
      ensures left == null && right == null && parent == this
    {
      left, right, parent, red := null, null, this, true;
    }
  }

  /** struct rb_root. */
  class Root {
    var node: Node?

    constructor ()
      ensures node == null
    {
      node := null;
    }
  }

  // ---------- memory ----------

  /** The contents of a node. */
  datatype Fields = Fields(left: Node?, right: Node?, parent: Node?, red: bool) {
    function Kid(s: Side): Node? { if s == Left then left else right }

    function WithKid(s: Side, n: Node?): Fields {
      if s == Left then this.(left := n) else this.(right := n)
    }
  }

  /** A snapshot of the nodes of one tree. */
  type Mem = map<Node, Fields>

  ghost predicate Matches(m: Mem)
    reads m.Keys
  {
    forall x :: x in m ==> m[x] == Fields(x.left, x.right, x.parent, x.red)
  }

  // Each of the source's writes to a node, together with what it does to the snapshot.

  method SetKid(x: Node, s: Side, n: Node?, ghost m: Mem) returns (ghost m': Mem)
    requires Matches(m) && x in m
    modifies x`left, x`right
    ensures m' == m[x := m[x].WithKid(s, n)] && Matches(m')
  {
    if s == Left { x.left := n; } else { x.right := n; }
    m' := m[x := m[x].WithKid(s, n)];
  }

  method GetKid(x: Node, s: Side, ghost m: Mem) returns (n: Node?)
    requires Matches(m) && x in m
    ensures n == m[x].Kid(s)
  {
    n := if s == Left then x.left else x.right;
  }

  /** rb_set_parent_color. */
  method SetParentColor(x: Node, p: Node?, red: bool, ghost m: Mem) returns (ghost m': Mem)
    requires Matches(m) && x in m
    modifies x`parent, x`red
    ensures m' == m[x := m[x].(parent := p, red := red)] && Matches(m')
  {
    x.parent, x.red := p, red;
    m' := m[x := m[x].(parent := p, red := red)];
  }

  /** A child that may be missing gets a parent and turns black. */
  function AdoptBlack(m: Mem, n: Node?, p: Node): (m': Mem)
    ensures m'.Keys == m.Keys
  {
    if n == null || n !in m then m else m[n := m[n].(parent := p, red := false)]
  }

  method SetBlackIfPresent(n: Node?, p: Node, ghost m: Mem) returns (ghost m': Mem)
    requires Matches(m) && (n != null ==> n in m)
    modifies (if n == null then {} else {n})`parent, (if n == null then {} else {n})`red
    ensures m' == AdoptBlack(m, n, p) && Matches(m')
  {
    m' := m;
    if n != null { m' := SetParentColor(n, p, false, m); }
  }

  /** __rb_change_child. */
  method ChangeChild(old_: Node, new_: Node?, parent: Node?, root: Root, ghost m: Mem) returns (ghost m': Mem)
    requires Matches(m) && (parent != null ==> parent in m)
    modifies root`node, (if parent == null then {} else {parent})`left, (if parent == null then {} else {parent})`right
    ensures parent == null ==> m' == m && root.node == new_
    ensures parent != null ==>
      root.node == old(root.node) &&
      m' == m[parent := m[parent].WithKid(if m[parent].left == old_ then Left else Right, new_)]
    ensures Matches(m')
  {
    m' := m;
    if parent != null {
      m' := SetKid(parent, if parent.left == old_ then Left else Right, new_, m);
    } else {
      root.node := new_;
    }
  }

  /** old_'s parent and colour go to new_, old_ becomes a child of new_ with the given colour,
      and old_'s place in its parent goes to new_. */
  function ParentsRotated(m: Mem, old_: Node, new_: Node, color: bool): (m': Mem)
    requires old_ in m && new_ in m && old_ != new_
    ensures m'.Keys == m.Keys
  {
    var p := m[old_].parent;
    var m1 := m[new_ := m[new_].(parent := p, red := m[old_].red)];
    var m2 := m1[old_ := m[old_].(parent := new_, red := color)];
    if p == null || p !in m2 then m2
    else m2[p := m2[p].WithKid(if m2[p].left == old_ then Left else Right, new_)]
  }

  /** __rb_rotate_set_parents. */
  method RotateSetParents(old_: Node, new_: Node, root: Root, color: bool, ghost m: Mem) returns (ghost m': Mem)
    requires Matches(m) && old_ in m && new_ in m && old_ != new_
    requires m[old_].parent != null ==> m[old_].parent in m
    modifies root`node, m.Keys`left, m.Keys`right, m.Keys`parent, m.Keys`red
    ensures m' == ParentsRotated(m, old_, new_, color) && Matches(m')
    ensures root.node == if old(old_.parent) == null then new_ else old(root.node)
  {
    var parent := old_.parent;
    m' := SetParentColor(new_, old_.parent, old_.red, m);
    m' := SetParentColor(old_, new_, color, m');
    m' := ChangeChild(old_, new_, parent, root, m');
  }

  // ---------- the tree a memory represents ----------

  datatype Tree = Leaf | T(left: Tree, x: Node, red: bool, right: Tree)

  /** A tree with one subtree left out: on `side` of x, whose other subtree is `sib`. */
  datatype Ctx = Top | Hole(up: Ctx, x: Node, red: bool, side: Side, sib: Tree)

  function Mk(s: Side, near: Tree, x: Node, red: bool, far: Tree): Tree {
    if s == Left then T(near, x, red, far) else T(far, x, red, near)
  }

  function Sub(t: Tree, s: Side): Tree
    requires t.T?
  {
    if s == Left then t.left else t.right
  }

  function Plug(c: Ctx, t: Tree): Tree
    decreases c
  {
    match c
    case Top => t
    case Hole(up, x, red, side, sib) => Plug(up, Mk(side, t, x, red, sib))
  }

  function InOrder(t: Tree): seq<Node> {
    match t
    case Leaf => []
    case T(l, x, _, r) => InOrder(l) + [x] + InOrder(r)
  }

  function Nodes(t: Tree): set<Node> {
    match t
    case Leaf => {}
    case T(l, x, _, r) => {x} + Nodes(l) + Nodes(r)
  }

  function CtxNodes(c: Ctx): set<Node> {
    match c
    case Top => {}
    case Hole(up, x, _, _, sib) => {x} + Nodes(sib) + CtxNodes(up)
  }

  function Above(c: Ctx): Node? { if c.Top? then null else c.x }

  /** No node occurs twice. */
  predicate Sep(t: Tree) {
    match t
    case Leaf => true
    case T(l, x, _, r) => x !in Nodes(l) && x !in Nodes(r) && Nodes(l) !! Nodes(r) && Sep(l) && Sep(r)
  }

  predicate CtxSep(c: Ctx) {
    match c
    case Top => true
    case Hole(up, x, _, _, sib) =>
      && x !in Nodes(sib) && x !in CtxNodes(up) && Nodes(sib) !! CtxNodes(up) && Sep(sib) && CtxSep(up)
  }

  /** Below n, whose parent is p, the memory holds t. */
  predicate Rep(m: Mem, t: Tree, n: Node?, p: Node?) {
    match t
    case Leaf => n == null
    case T(l, x, red, r) =>
      n == x && x in m && m[x].parent == p && m[x].red == red && Rep(m, l, m[x].left, x) && Rep(m, r, m[x].right, x)
  }

  /** Around the place where n hangs the memory holds c, with root pointer rt. */
  predicate CtxRep(m: Mem, rt: Node?, c: Ctx, n: Node?) {
    match c
    case Top => rt == n
    case Hole(up, x, red, side, sib) =>
      && x in m && m[x].Kid(side) == n && m[x].parent == Above(up) && m[x].red == red
      && Rep(m, sib, m[x].Kid(Other(side)), x) && CtxRep(m, rt, up, x)
  }

  /** Subtree t hangs, at n, in context c. */
  predicate At(m: Mem, rt: Node?, c: Ctx, t: Tree, n: Node?) {
    Rep(m, t, n, Above(c)) && CtxRep(m, rt, c, n)
  }

  ghost predicate NoDup(q: seq<Node>) { forall i, j :: 0 <= i < j < |q| ==> q[i] != q[j] }

  /** The memory holds exactly the tree t: parent links, colours, child links, and no node in
      two places. */
  ghost predicate IsTree(m: Mem, rt: Node?, t: Tree) {
    Rep(m, t, rt, null) && NoDup(InOrder(t))
  }

  // ---------- frames ----------

  predicate SameOn(m: Mem, m': Mem, xs: set<Node>) {
    forall x :: x in xs && x in m ==> x in m' && m'[x] == m[x]
  }

  lemma {:induction false} RepFrame(m: Mem, m': Mem, t: Tree, n: Node?, p: Node?)
    requires Rep(m, t, n, p) && SameOn(m, m', Nodes(t))
    ensures Rep(m', t, n, p)
  {
    match t
    case Leaf =>
    case T(l, x, _, r) => RepFrame(m, m', l, m[x].left, x); RepFrame(m, m', r, m[x].right, x);
  }

  lemma {:induction false} CtxFrame(m: Mem, m': Mem, rt: Node?, c: Ctx, n: Node?)
    requires CtxRep(m, rt, c, n) && SameOn(m, m', CtxNodes(c))
    ensures CtxRep(m', rt, c, n)
  {
    match c
    case Top =>
    case Hole(up, x, _, side, sib) =>
      RepFrame(m, m', sib, m[x].Kid(Other(side)), x);
      CtxFrame(m, m', rt, up, x);
  }

  /** Hanging a subtree's root below another parent, with a colour. */
  lemma Reparent(m: Mem, m': Mem, t: Tree, n: Node?, p: Node?, p': Node?, red: bool)
    requires Sep(t) && Rep(m, t, n, p)
    requires SameOn(m, m', Nodes(t) - TopSet(t))
    requires t.T? ==> t.x in m && t.x in m' && m'[t.x] == m[t.x].(parent := p', red := red)
    ensures Rep(m', if t.T? then t.(red := red) else t, n, p')
  {
    if t.T? {
      RepFrame(m, m', t.left, m[t.x].left, t.x);
      RepFrame(m, m', t.right, m[t.x].right, t.x);
    }
  }

  /** Hanging another subtree into the hole: the one link that leads there changes. */
  lemma ChangeHole(m: Mem, m': Mem, rt: Node?, rt': Node?, c: Ctx, n: Node, n': Node?)
    requires CtxSep(c) && CtxRep(m, rt, c, n) && n !in CtxNodes(c)
    requires c.Top? ==> rt' == n'
    requires c.Hole? ==> rt' == rt && c.x in m'
    requires c.Hole? ==> m'[c.x] == m[c.x].WithKid(if m[c.x].left == n then Left else Right, n')
    requires SameOn(m, m', CtxNodes(c) - (if c.Top? then {} else {c.x}))
    ensures CtxRep(m', rt', c, n')
  {
    if c.Hole? {
      RepFrame(m, m', c.sib, m[c.x].Kid(Other(c.side)), c.x);
      CtxFrame(m, m', rt, c.up, c.x);
    }
  }

  /** Two subtrees below a node make one. */
  lemma RepMk(m: Mem, s: Side, near: Tree, x: Node, red: bool, far: Tree, p: Node?)
    requires x in m && m[x].parent == p && m[x].red == red
    requires Rep(m, near, m[x].Kid(s), x) && Rep(m, far, m[x].Kid(Other(s)), x)
    ensures Rep(m, Mk(s, near, x, red, far), x, p)
  {
  }

  lemma OpenMk(m: Mem, s: Side, near: Tree, x: Node, red: bool, far: Tree, n: Node?, p: Node?)
    requires Rep(m, Mk(s, near, x, red, far), n, p)
    ensures n == x && x in m && m[x].parent == p && m[x].red == red
    ensures Rep(m, near, m[x].Kid(s), x) && Rep(m, far, m[x].Kid(Other(s)), x)
  {
  }

  lemma SepMk(s: Side, near: Tree, x: Node, red: bool, far: Tree)
    requires Sep(Mk(s, near, x, red, far))
    ensures Sep(near) && Sep(far) && x !in Nodes(near) && x !in Nodes(far) && Nodes(near) !! Nodes(far)
    ensures Nodes(Mk(s, near, x, red, far)) == {x} + Nodes(near) + Nodes(far)
  {
  }

  /** The node a subtree hangs by, as a set. */
  function TopSet(t: Tree): set<Node> { if t.T? then {t.x} else {} }

  // ---------- distinct nodes ----------

  lemma {:induction false} NodesOfInOrder(t: Tree, y: Node)
    ensures y in InOrder(t) <==> y in Nodes(t)
  {
    if t.T? { NodesOfInOrder(t.left, y); NodesOfInOrder(t.right, y); }
  }

  lemma NoDupParts(a: seq<Node>, x: Node, b: seq<Node>)
    requires NoDup(a + [x] + b)
    ensures NoDup(a) && NoDup(b) && x !in a && x !in b && forall y :: y in a ==> y !in b
  {
    var q := a + [x] + b;
    forall i, j | 0 <= i < j < |b| ensures b[i] != b[j] { assert q[|a| + 1 + i] != q[|a| + 1 + j]; }
    forall i, j | 0 <= i < j < |a| ensures a[i] != a[j] { assert q[i] != q[j]; }
    forall i | 0 <= i < |a| ensures a[i] != x && a[i] !in b {
      assert q[i] != q[|a|];
      forall j | 0 <= j < |b| ensures a[i] != b[j] { assert q[i] != q[|a| + 1 + j]; }
    }
    forall j | 0 <= j < |b| ensures b[j] != x { assert q[|a|] != q[|a| + 1 + j]; }
  }

  lemma {:induction false} DistinctSep(t: Tree)
    requires NoDup(InOrder(t))
    ensures Sep(t)
  {
    if t.T? {
      NoDupParts(InOrder(t.left), t.x, InOrder(t.right));
      DistinctSep(t.left);
      DistinctSep(t.right);
      NodesOfInOrder(t.left, t.x);
      NodesOfInOrder(t.right, t.x);
      forall y | y in Nodes(t.left) ensures y !in Nodes(t.right) {
        NodesOfInOrder(t.left, y);
        NodesOfInOrder(t.right, y);
      }
    }
  }

  /** If no node occurs twice in the whole, then not in the parts, nor in two of them. */
  lemma {:induction false} DistinctParts(c: Ctx, t: Tree)
    requires NoDup(InOrder(Plug(c, t)))
    ensures Sep(t) && CtxSep(c) && Nodes(t) !! CtxNodes(c)
    decreases c
  {
    match c
    case Top => DistinctSep(t);
    case Hole(up, x, red, side, sib) => DistinctParts(up, Mk(side, t, x, red, sib));
  }

  /** All of two nodes' subtrees and the context above them are apart. */
  predicate Apart(up: Ctx, g: Node, u: Tree, x: Node, sib: Tree, t: Tree) {
    && CtxSep(up) && Sep(u) && Sep(sib) && Sep(t) && g != x
    && g !in CtxNodes(up) && g !in Nodes(u) && g !in Nodes(sib) && g !in Nodes(t)
    && x !in CtxNodes(up) && x !in Nodes(u) && x !in Nodes(sib) && x !in Nodes(t)
    && Nodes(u) !! CtxNodes(up) && Nodes(sib) !! CtxNodes(up) && Nodes(t) !! CtxNodes(up)
    && Nodes(u) !! Nodes(sib) && Nodes(u) !! Nodes(t) && Nodes(sib) !! Nodes(t)
  }

  lemma DistinctApart(up: Ctx, g: Node, gred: bool, gs: Side, u: Tree, x: Node, red: bool, side: Side, sib: Tree,
                      t: Tree)
    requires NoDup(InOrder(Plug(Hole(Hole(up, g, gred, gs, u), x, red, side, sib), t)))
    ensures Apart(up, g, u, x, sib, t)
  {
    var c := Hole(up, g, gred, gs, u);
    DistinctParts(Hole(c, x, red, side, sib), t);
    assert CtxNodes(Hole(c, x, red, side, sib)) == {x} + Nodes(sib) + CtxNodes(c);
    assert CtxNodes(c) == {g} + Nodes(u) + CtxNodes(up);
  }

  // ---------- red-black properties ----------

  predicate IsRed(t: Tree) { t.T? && t.red }

  /** Both children of every red node are black. */
  predicate NoRedRed(t: Tree) {
    t.T? ==> NoRedRed(t.left) && NoRedRed(t.right) && (t.red ==> !IsRed(t.left) && !IsRed(t.right))
  }

  /** Every path from t down to a leaf has h black nodes. */
  predicate Blacks(t: Tree, h: int) {
    match t
    case Leaf => h == 0
    case T(l, _, red, r) => Blacks(l, if red then h else h - 1) && Blacks(r, if red then h else h - 1)
  }

  ghost predicate RedBlack(t: Tree) {
    !IsRed(t) && NoRedRed(t) && exists h :: Blacks(t, h)
  }

  predicate Good(t: Tree, h: int) { NoRedRed(t) && Blacks(t, h) }

  lemma GoodKid(t: Tree, h: int, s: Side)
    requires t.T? && Good(t, h)
    ensures Good(Sub(t, s), if t.red then h else h - 1)
    ensures t.red ==> !IsRed(Sub(t, s))
  {
  }

  lemma GoodMk(s: Side, near: Tree, x: Node, red: bool, far: Tree, h: int)
    requires Good(near, h) && Good(far, h) && (red ==> !IsRed(near) && !IsRed(far))
    ensures Good(Mk(s, near, x, red, far), if red then h else h + 1)
  {
  }

  predicate CtxRed(c: Ctx) { c.Hole? && c.red }

  /** With a subtree of h blacks in its hole, all paths of c have b blacks; c has no red node
      next to another or at the root. */
  predicate CtxOk(c: Ctx, h: int, b: int) {
    match c
    case Top => h == b
    case Hole(up, _, red, _, sib) =>
      && NoRedRed(sib) && Blacks(sib, h)
      && (red ==> !IsRed(sib) && up.Hole? && !up.red)
      && CtxOk(up, if red then h else h + 1, b)
  }

  lemma {:induction false} BlacksNonNegative(t: Tree, h: int)
    requires Blacks(t, h)
    ensures h >= 0
  {
    if t.T? { BlacksNonNegative(t.left, if t.red then h else h - 1); }
  }

  /** A context and a subtree that fit make a red-black tree. */
  lemma {:induction false} PlugRedBlack(c: Ctx, t: Tree, h: int, b: int)
    requires CtxOk(c, h, b) && Blacks(t, h) && NoRedRed(t)
    requires CtxRed(c) || c.Top? ==> !IsRed(t)
    ensures RedBlack(Plug(c, t)) && Blacks(Plug(c, t), b)
    decreases c
  {
    match c
    case Top =>
    case Hole(up, x, red, side, sib) =>
      PlugRedBlack(up, Mk(side, t, x, red, sib), if red then h else h + 1, b);
  }

  /** And every subtree of a red-black tree fits its context. */
  lemma {:induction false} UnplugRedBlack(c: Ctx, t: Tree) returns (h: int, b: int)
    requires RedBlack(Plug(c, t))
    ensures CtxOk(c, h, b) && Blacks(t, h) && NoRedRed(t)
    ensures CtxRed(c) || c.Top? ==> !IsRed(t)
    decreases c
  {
    match c
    case Top => h :| Blacks(t, h); b := h;
    case Hole(up, x, red, side, sib) =>
      h, b := UnplugRedBlack(up, Mk(side, t, x, red, sib));
      h := if red then h else h - 1;
  }

  // ---------- plugging keeps order and representation ----------

  function Before(c: Ctx): seq<Node> {
    match c
    case Top => []
    case Hole(up, x, _, side, sib) => if side == Left then Before(up) else Before(up) + (InOrder(sib) + [x])
  }

  function After(c: Ctx): seq<Node> {
    match c
    case Top => []
    case Hole(up, x, _, side, sib) => if side == Left then [x] + InOrder(sib) + After(up) else After(up)
  }

  lemma Regroup(a: seq<Node>, b: seq<Node>, c: seq<Node>, d: seq<Node>)
    ensures a + (b + c) + d == a + b + (c + d)
    ensures a + (b + c) + d == (a + b) + c + d
  {
  }

  lemma MkInOrder(l: Tree, x: Node, red: bool, r: Tree)
    ensures InOrder(T(l, x, red, r)) == InOrder(l) + ([x] + InOrder(r))
  {
  }

  lemma {:induction false} PlugInOrder(c: Ctx, t: Tree)
    ensures InOrder(Plug(c, t)) == Before(c) + InOrder(t) + After(c)
    decreases c
  {
    match c
    case Top =>
    case Hole(up, x, red, side, sib) =>
      PlugInOrder(up, Mk(side, t, x, red, sib));
      if side == Left {
        MkInOrder(t, x, red, sib);
        Regroup(Before(up), InOrder(t), [x] + InOrder(sib), After(up));
      } else {
        Regroup(Before(up), InOrder(sib) + [x], InOrder(t), After(up));
      }
  }

  lemma {:induction false} PlugRep(m: Mem, rt: Node?, c: Ctx, t: Tree, n: Node?)
    requires At(m, rt, c, t, n)
    ensures Rep(m, Plug(c, t), rt, null)
    decreases c
  {
    match c
    case Top =>
    case Hole(up, x, red, side, sib) => PlugRep(m, rt, up, Mk(side, t, x, red, sib), x);
  }

  /** Every subtree of a represented tree hangs in its context. */
  lemma {:induction false} UnplugRep(m: Mem, rt: Node?, c: Ctx, t: Tree) returns (n: Node?)
    requires Rep(m, Plug(c, t), rt, null)
    ensures At(m, rt, c, t, n)
    decreases c
  {
    match c
    case Top => n := rt;
    case Hole(up, x, red, side, sib) =>
      n := UnplugRep(m, rt, up, Mk(side, t, x, red, sib));
      n := m[x].Kid(side);
  }
}

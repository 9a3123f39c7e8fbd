/** rb_first, rb_last, rb_next and rb_prev (compat/rbtree.c) against the in-order sequence. */
module RbWalk {
  import opened RbTree

  /** The first (Left) or last (Right) node of a sequence, or null. */
  function End(q: seq<Node>, d: Side): Node? {
    if q == [] then null else if d == Left then q[0] else q[|q| - 1]
  }

  function Edge(t: Tree, d: Side): Node
    requires t.T?
  {
    if Sub(t, d).Leaf? then t.x else Edge(Sub(t, d), d)
  }

  lemma {:induction false} EdgeIsEnd(t: Tree, d: Side)
    requires t.T?
    ensures InOrder(t) != [] && End(InOrder(t), d) == Edge(t, d)
  {
    if Sub(t, d).T? { EdgeIsEnd(Sub(t, d), d); }
  }

  /** Going down on one side as far as there are nodes. */
  method Down(n0: Node, d: Side, ghost m: Mem, ghost t0: Tree, ghost p0: Node?) returns (n: Node)
    requires Matches(m) && Rep(m, t0, n0, p0)
    ensures End(InOrder(t0), d) == n
  {
    n := n0;
    ghost var t, p := t0, p0;
    var kid := GetKid(n, d, m);
    while kid != null
      invariant Rep(m, t, n, p) && Edge(t, d) == Edge(t0, d) && kid == m[n].Kid(d)
      decreases t
    {
      t, p := Sub(t, d), n;
      n := kid;
      kid := GetKid(n, d, m);
    }
    EdgeIsEnd(t0, d);
  }

  /** rb_first (Left) and rb_last (Right). */
  method First(root: Root, d: Side, ghost m: Mem, ghost t: Tree) returns (n: Node?)
    requires Matches(m) && Rep(m, t, root.node, null)
    ensures n == End(InOrder(t), d)
  {
    if root.node == null { return null; }
    n := Down(root.node, d, m, t, null);
  }

  /** Where the climb from a hole stops: at the first ancestor of which it is not on side d. */
  function Climb(c: Ctx, d: Side): Node? {
    if c.Top? then null else if c.side == d then Climb(c.up, d) else c.x
  }

  /** The nodes past a hole, in the direction d. */
  function Past(c: Ctx, d: Side): seq<Node> { if d == Right then After(c) else Before(c) }

  lemma {:induction false} ClimbIsEnd(c: Ctx, d: Side)
    ensures Climb(c, d) == End(Past(c, d), Other(d))
  {
    if c.Hole? { ClimbIsEnd(c.up, d); }
  }

  /** The neighbour of the i-th node of a sequence. */
  function Neighbour(q: seq<Node>, i: nat, d: Side): Node?
    requires i < |q|
  {
    if d == Right then (if i + 1 < |q| then q[i + 1] else null) else if i > 0 then q[i - 1] else null
  }

  lemma NeighbourIn(a: seq<Node>, x: Node, b: seq<Node>, i: nat, d: Side)
    requires NoDup(a + [x] + b) && i < |a + [x] + b| && (a + [x] + b)[i] == x
    ensures Neighbour(a + [x] + b, i, d) == End(if d == Right then b else a, Other(d))
  {
    var q := a + [x] + b;
    assert q[|a|] == x;
    assert i == |a|;
  }

  /** The sequence seen from one node of the tree. */
  lemma Around(c: Ctx, t: Tree)
    requires t.T?
    ensures InOrder(Plug(c, t)) == (Before(c) + InOrder(t.left)) + [t.x] + (InOrder(t.right) + After(c))
  {
    PlugInOrder(c, t);
    Flatten(Before(c), InOrder(t.left), t.x, InOrder(t.right), After(c));
  }

  lemma Flatten(a: seq<Node>, l: seq<Node>, x: Node, r: seq<Node>, b: seq<Node>)
    ensures a + (l + [x] + r) + b == (a + l) + [x] + (r + b)
  {
  }

  /** rb_next (Right) and rb_prev (Left): null for a node that is in no tree, otherwise the node's
      neighbour in the order of its tree. */
  method Next(node0: Node, d: Side, ghost m: Mem, ghost rt: Node?, ghost c0: Ctx, ghost t: Tree) returns (n: Node?)
    requires node0.parent != node0 ==> Matches(m) && t.T? && At(m, rt, c0, t, node0) && NoDup(InOrder(Plug(c0, t)))
    ensures node0.parent == node0 ==> n == null
    ensures node0.parent != node0 ==>
      forall i :: 0 <= i < |InOrder(Plug(c0, t))| && InOrder(Plug(c0, t))[i] == node0 ==>
        n == Neighbour(InOrder(Plug(c0, t)), i, d)
  {
    if node0.parent == node0 { return null; }
    ghost var order := InOrder(Plug(c0, t));
    ghost var before, after := Before(c0) + InOrder(t.left), InOrder(t.right) + After(c0);
    Around(c0, t);
    forall i | 0 <= i < |order| && order[i] == node0
      ensures Neighbour(order, i, d) == End(if d == Right then after else before, Other(d))
    {
      NeighbourIn(before, node0, after, i, d);
    }
    var kid := GetKid(node0, d, m);
    OpenMk(m, d, Sub(t, d), t.x, t.red, Sub(t, Other(d)), node0, Above(c0));
    if kid != null {
      n := Down(kid, Other(d), m, Sub(t, d), node0);
    } else {
      n := Up(node0, d, m, rt, c0, t);
      assert (if d == Right then after else before) == Past(c0, d);
    }
  }

  /** Climbing while the node is its parent's child on side d. */
  method Up(node0: Node, d: Side, ghost m: Mem, ghost rt: Node?, ghost c0: Ctx, ghost t0: Tree) returns (parent: Node?)
    requires Matches(m) && t0.T? && At(m, rt, c0, t0, node0) && NoDup(InOrder(Plug(c0, t0)))
    ensures parent == End(Past(c0, d), Other(d))
  {
    ghost var c, t := c0, t0;
    var node := node0;
    parent := node.parent;
    while true
      invariant At(m, rt, c, t, node) && t.T? && NoDup(InOrder(Plug(c, t)))
      invariant parent == Above(c) && Climb(c, d) == Climb(c0, d)
      decreases c
    {
      if parent == null { break; }
      var kid := GetKid(parent, d, m);
      SideRead(m, rt, c, t, node, d);
      if node != kid { break; }
      t, c := Mk(c.side, t, c.x, c.red, c.sib), c.up;
      node, parent := parent, parent.parent;
    }
    ClimbIsEnd(c0, d);
  }

  lemma SideRead(m: Mem, rt: Node?, c: Ctx, t: Tree, n: Node, d: Side)
    requires At(m, rt, c, t, n) && c.Hole? && t.T? && NoDup(InOrder(Plug(c, t)))
    ensures m[c.x].Kid(d) == n <==> c.side == d
  {
    DistinctParts(c, t);
  }
}

/** rb_link_node and __rb_insert (compat/rbtree.h, compat/rbtree.c). */
module RbInsert {
  import opened RbTree

  /** What case 3 does to memory: p takes g's place and colour, g hangs below p and is red, and
      p's inner child, made black, hangs below g. */
  predicate Case3(m: Mem, m': Mem, rt: Node?, rt': Node?, gs: Side, g: Node, p: Node)
    requires g in m && p in m
  {
    var tmp, pp := m[p].Kid(Other(gs)), m[g].parent;
    && m'.Keys == m.Keys
    && m'[p] == m[p].WithKid(Other(gs), g).(parent := pp, red := m[g].red)
    && m'[g] == m[g].WithKid(gs, tmp).(parent := p, red := true)
    && (tmp != null ==> tmp in m && m'[tmp] == m[tmp].(parent := g, red := false))
    && (pp == null ==> rt' == p)
    && (pp != null ==> rt' == rt && pp in m && m'[pp] == m[pp].WithKid(if m[pp].left == g then Left else Right, p))
    && forall x :: x in m && x != p && x != g && x != tmp && x != pp ==> m'[x] == m[x]
  }

  function Case3Mem(m: Mem, gs: Side, g: Node, p: Node): (m': Mem)
    requires g in m && p in m && g != p
    ensures m'.Keys == m.Keys
  {
    var tmp := m[p].Kid(Other(gs));
    var m1 := m[g := m[g].WithKid(gs, tmp)];
    var m2 := m1[p := m1[p].WithKid(Other(gs), g)];
    ParentsRotated(AdoptBlack(m2, tmp, g), g, p, true)
  }

  /** The child links of case 3. */
  method RelinkOuter(gparent: Node, parent: Node, gs: Side, ghost m: Mem) returns (ghost m': Mem)
    requires Matches(m) && gparent in m && parent in m && gparent != parent
    requires var tmp := m[parent].Kid(Other(gs)); tmp != null ==> tmp in m && tmp != gparent
    modifies m.Keys`left, m.Keys`right, m.Keys`parent, m.Keys`red
    ensures var tmp := m[parent].Kid(Other(gs)); var m1 := m[gparent := m[gparent].WithKid(gs, tmp)];
      m' == AdoptBlack(m1[parent := m1[parent].WithKid(Other(gs), gparent)], tmp, gparent)
    ensures Matches(m') && gparent.parent == old(gparent.parent)
  {
    var tmp := GetKid(parent, Other(gs), m);
    m' := SetKid(gparent, gs, tmp, m);
    m' := SetKid(parent, Other(gs), gparent, m');
    m' := SetBlackIfPresent(tmp, gparent, m');
  }

  method RotateOuter(gparent: Node, parent: Node, root: Root, gs: Side, ghost m: Mem) returns (ghost m': Mem)
    requires Matches(m) && gparent in m && parent in m && gparent != parent
    requires var tmp := m[parent].Kid(Other(gs)); tmp != null ==> tmp in m && tmp != gparent
    requires m[gparent].parent != null ==> m[gparent].parent in m
    modifies root`node, m.Keys`left, m.Keys`right, m.Keys`parent, m.Keys`red
    ensures Matches(m') && m' == Case3Mem(m, gs, gparent, parent)
    ensures root.node == if m[gparent].parent == null then parent else old(root.node)
  {
    m' := RelinkOuter(gparent, parent, gs, m);
    assert m'[gparent].parent == gparent.parent == m[gparent].parent;
    m' := RotateSetParents(gparent, parent, root, true, m');
  }

  lemma Case3Holds(m: Mem, rt: Node?, gs: Side, g: Node, p: Node)
    requires g in m && p in m && g != p
    requires var tmp := m[p].Kid(Other(gs)); tmp != null ==> tmp in m && tmp != g && tmp != p && tmp != m[g].parent
    requires var pp := m[g].parent; pp != null ==> pp in m && pp != g && pp != p
    ensures Case3(m, Case3Mem(m, gs, g, p), rt, if m[g].parent == null then p else rt, gs, g, p)
  {
  }

  /** Case 3 turns the two subtrees around; the links between g and p may be anything before. */
  lemma Case3Below(m: Mem, m': Mem, rt: Node?, rt': Node?, up: Ctx, g: Node, gs: Side, u: Tree, p: Node, s: Tree,
                   t: Tree)
    requires Apart(up, g, u, p, s, t) && !IsRed(s)
    requires g in m && p in m && m[g].parent == Above(up) && !m[g].red
    requires Rep(m, t, m[p].Kid(gs), p) && Rep(m, s, m[p].Kid(Other(gs)), p) && Rep(m, u, m[g].Kid(Other(gs)), g)
    requires Case3(m, m', rt, rt', gs, g, p)
    ensures Rep(m', Mk(gs, t, p, false, Mk(gs, s, g, true, u)), p, Above(up))
  {
    RepFrame(m, m', t, m[p].Kid(gs), p);
    RepFrame(m, m', u, m[g].Kid(Other(gs)), g);
    Reparent(m, m', s, m[p].Kid(Other(gs)), p, g, false);
    RepMk(m', gs, s, g, true, u, p);
    RepMk(m', gs, t, p, false, Mk(gs, s, g, true, u), Above(up));
  }

  lemma Case3At(m: Mem, m': Mem, rt: Node?, rt': Node?, up: Ctx, g: Node, gs: Side, u: Tree, p: Node, s: Tree, t: Tree)
    requires Apart(up, g, u, p, s, t) && !IsRed(s)
    requires g in m && p in m && m[g].parent == Above(up) && !m[g].red && CtxRep(m, rt, up, g)
    requires Rep(m, t, m[p].Kid(gs), p) && Rep(m, s, m[p].Kid(Other(gs)), p) && Rep(m, u, m[g].Kid(Other(gs)), g)
    requires Case3(m, m', rt, rt', gs, g, p)
    ensures At(m', rt', up, Mk(gs, t, p, false, Mk(gs, s, g, true, u)), p)
  {
    Case3Below(m, m', rt, rt', up, g, gs, u, p, s, t);
    ChangeHole(m, m', rt, rt', up, g, p);
  }

  /** What case 2 does to memory: the node comes above its parent; the link from the grandparent
      and the node's own parent link are left for case 3. */
  predicate Case2(m: Mem, m': Mem, gs: Side, p: Node, node: Node)
    requires p in m && node in m
  {
    var tmp := m[node].Kid(gs);
    && m'.Keys == m.Keys
    && m'[p] == m[p].WithKid(Other(gs), tmp).(parent := node, red := true)
    && m'[node] == m[node].WithKid(gs, p)
    && (tmp != null ==> tmp in m && m'[tmp] == m[tmp].(parent := p, red := false))
    && forall x :: x in m && x != p && x != node && x != tmp ==> m'[x] == m[x]
  }

  function Case2Mem(m: Mem, gs: Side, p: Node, node: Node): (m': Mem)
    requires p in m && node in m && node != p
    ensures m'.Keys == m.Keys
  {
    var tmp := m[node].Kid(gs);
    var m1 := m[p := m[p].WithKid(Other(gs), tmp)];
    var m2 := m1[node := m1[node].WithKid(gs, p)];
    var m3 := AdoptBlack(m2, tmp, p);
    m3[p := m3[p].(parent := node, red := true)]
  }

  method RotateInner(parent: Node, node: Node, gs: Side, ghost m: Mem) returns (ghost m': Mem)
    requires Matches(m) && parent in m && node in m && node != parent
    requires m[node].Kid(gs) != null ==> m[node].Kid(gs) in m
    modifies m.Keys`left, m.Keys`right, m.Keys`parent, m.Keys`red
    ensures Matches(m') && m' == Case2Mem(m, gs, parent, node)
  {
    var tmp := GetKid(node, gs, m);
    m' := SetKid(parent, Other(gs), tmp, m);
    m' := SetKid(node, gs, parent, m');
    m' := SetBlackIfPresent(tmp, parent, m');
    m' := SetParentColor(parent, node, true, m');
  }

  lemma Case2Holds(m: Mem, gs: Side, p: Node, node: Node)
    requires p in m && node in m && node != p
    requires m[node].Kid(gs) != null ==> m[node].Kid(gs) in m && m[node].Kid(gs) != p && m[node].Kid(gs) != node
    ensures Case2(m, Case2Mem(m, gs, p, node), gs, p, node)
  {
  }

  /** Case 2 turns the parent's and the node's subtrees around. */
  lemma Case2Below(m: Mem, m': Mem, gs: Side, p: Node, s: Tree, a: Tree, node: Node, b: Tree)
    requires p in m && node in m && Case2(m, m', gs, p, node) && !IsRed(a) && m[p].Kid(Other(gs)) == node
    requires Sep(Mk(gs, a, node, true, b)) && p !in Nodes(Mk(gs, a, node, true, b)) && p !in Nodes(s)
    requires Nodes(s) !! Nodes(Mk(gs, a, node, true, b))
    requires Rep(m, Mk(gs, a, node, true, b), node, p) && Rep(m, s, m[p].Kid(gs), p)
    ensures Rep(m', Mk(gs, s, p, true, a), p, node) && Rep(m', b, m[node].Kid(Other(gs)), node)
  {
    SepMk(gs, a, node, true, b);
    OpenMk(m, gs, a, node, true, b, node, p);
    RepFrame(m, m', s, m[p].Kid(gs), p);
    RepFrame(m, m', b, m[node].Kid(Other(gs)), node);
    Reparent(m, m', a, m[node].Kid(gs), node, p, false);
    RepMk(m', gs, s, p, true, a, node);
  }

  /** And leaves the rest alone. */
  lemma Case2Above(m: Mem, m': Mem, rt: Node?, up: Ctx, g: Node, gs: Side, u: Tree, p: Node, s: Tree, a: Tree,
                   node: Node, b: Tree)
    requires Apart(up, g, u, p, s, Mk(gs, a, node, true, b))
    requires g in m && p in m && node in m && CtxRep(m, rt, up, g) && Rep(m, u, m[g].Kid(Other(gs)), g)
    requires Rep(m, Mk(gs, a, node, true, b), node, p) && Case2(m, m', gs, p, node)
    ensures m'[g] == m[g] && CtxRep(m', rt, up, g) && Rep(m', u, m[g].Kid(Other(gs)), g)
  {
    SepMk(gs, a, node, true, b);
    OpenMk(m, gs, a, node, true, b, node, p);
    RepFrame(m, m', u, m[g].Kid(Other(gs)), g);
    CtxFrame(m, m', rt, up, g);
  }

  /** What case 1 does to memory. */
  predicate Case1(m: Mem, m': Mem, g: Node, p: Node, u: Node)
    requires g in m && p in m && u in m
  {
    && m'.Keys == m.Keys
    && m'[u] == m[u].(parent := g, red := false)
    && m'[p] == m[p].(parent := g, red := false)
    && m'[g] == m[g].(red := true)
    && forall x :: x in m && x != g && x != p && x != u ==> m'[x] == m[x]
  }

  function Case1Mem(m: Mem, g: Node, p: Node, u: Node): (m': Mem)
    requires g in m && p in m && u in m
    ensures m'.Keys == m.Keys
  {
    var m1 := m[u := m[u].(parent := g, red := false)];
    var m2 := m1[p := m1[p].(parent := g, red := false)];
    m2[g := m2[g].(red := true)]
  }

  method ColorFlip(gparent: Node, parent: Node, uncle: Node, ghost m: Mem) returns (ghost m': Mem)
    requires Matches(m) && gparent in m && parent in m && uncle in m
    modifies m.Keys`left, m.Keys`right, m.Keys`parent, m.Keys`red
    ensures Matches(m') && m' == Case1Mem(m, gparent, parent, uncle)
  {
    m' := SetParentColor(uncle, gparent, false, m);
    m' := SetParentColor(parent, gparent, false, m');
    m' := SetParentColor(gparent, gparent.parent, true, m');
  }

  lemma Case1Holds(m: Mem, g: Node, p: Node, u: Node)
    requires g in m && p in m && u in m && g != p && g != u && p != u
    ensures Case1(m, Case1Mem(m, g, p, u), g, p, u)
  {
  }

  lemma Case1At(m: Mem, m': Mem, rt: Node?, up: Ctx, g: Node, gs: Side, u: Tree, p: Node, ps: Side, s: Tree, t: Tree)
    requires Apart(up, g, u, p, s, t) && IsRed(u)
    requires g in m && p in m && m[g].parent == Above(up) && m[g].Kid(gs) == p && CtxRep(m, rt, up, g)
    requires Rep(m, t, m[p].Kid(ps), p) && Rep(m, s, m[p].Kid(Other(ps)), p) && Rep(m, u, m[g].Kid(Other(gs)), g)
    requires Case1(m, m', g, p, u.x)
    ensures At(m', rt, up, Mk(gs, Mk(ps, t, p, false, s), g, true, u.(red := false)), g)
  {
    RepFrame(m, m', t, m[p].Kid(ps), p);
    RepFrame(m, m', s, m[p].Kid(Other(ps)), p);
    Reparent(m, m', u, u.x, g, g, false);
    CtxFrame(m, m', rt, up, g);
    RepMk(m', ps, t, p, false, s, g);
    RepMk(m', gs, Mk(ps, t, p, false, s), g, true, u.(red := false), Above(up));
  }

  // ---------- colours and order ----------

  /** The same context around two subtrees with the same nodes in order. */
  lemma SameOrder(c: Ctx, t: Tree, t': Tree)
    requires InOrder(t) == InOrder(t')
    ensures InOrder(Plug(c, t)) == InOrder(Plug(c, t'))
  {
    PlugInOrder(c, t);
    PlugInOrder(c, t');
  }

  lemma FlipShape(up: Ctx, g: Node, gs: Side, u: Tree, p: Node, ps: Side, s: Tree, t: Tree, h: int, b: int)
    requires CtxOk(Hole(Hole(up, g, false, gs, u), p, true, ps, s), h, b) && IsRed(u)
    requires Blacks(t, h) && NoRedRed(t)
    ensures var t' := Mk(gs, Mk(ps, t, p, false, s), g, true, u.(red := false));
      && Blacks(t', h + 1) && NoRedRed(t') && CtxOk(up, h + 1, b)
      && InOrder(Plug(up, t')) == InOrder(Plug(Hole(Hole(up, g, false, gs, u), p, true, ps, s), t))
  {
    SameOrder(up, Mk(gs, Mk(ps, t, p, true, s), g, false, u),
              Mk(gs, Mk(ps, t, p, false, s), g, true, u.(red := false)));
  }

  lemma OuterShape(up: Ctx, g: Node, gs: Side, u: Tree, p: Node, s: Tree, t: Tree, h: int, b: int)
    requires CtxOk(Hole(Hole(up, g, false, gs, u), p, true, gs, s), h, b) && !IsRed(u)
    requires Blacks(t, h) && NoRedRed(t)
    ensures var t' := Mk(gs, t, p, false, Mk(gs, s, g, true, u));
      && RedBlack(Plug(up, t'))
      && InOrder(Plug(up, t')) == InOrder(Plug(Hole(Hole(up, g, false, gs, u), p, true, gs, s), t))
  {
    var t' := Mk(gs, t, p, false, Mk(gs, s, g, true, u));
    PlugRedBlack(up, t', h + 1, b);
    Reassociate(InOrder(t), p, InOrder(s), g, InOrder(u));
    Reassociate(InOrder(u), g, InOrder(s), p, InOrder(t));
    SameOrder(up, Mk(gs, Mk(gs, t, p, true, s), g, false, u), t');
  }

  lemma Reassociate(a: seq<Node>, x: Node, b: seq<Node>, y: Node, c: seq<Node>)
    ensures (a + [x] + b) + [y] + c == a + [x] + (b + [y] + c)
  {
  }

  lemma InnerShape(up: Ctx, g: Node, gs: Side, u: Tree, p: Node, s: Tree, a: Tree, x: Node, d: Tree, h: int, b: int)
    requires CtxOk(Hole(Hole(up, g, false, gs, u), p, true, Other(gs), s), h, b) && !IsRed(u)
    requires Blacks(Mk(gs, a, x, true, d), h) && NoRedRed(Mk(gs, a, x, true, d))
    ensures var t' := Mk(gs, Mk(gs, s, p, true, a), x, false, Mk(gs, d, g, true, u));
      && RedBlack(Plug(up, t'))
      && InOrder(Plug(up, t'))
         == InOrder(Plug(Hole(Hole(up, g, false, gs, u), p, true, Other(gs), s), Mk(gs, a, x, true, d)))
  {
    var t' := Mk(gs, Mk(gs, s, p, true, a), x, false, Mk(gs, d, g, true, u));
    PlugRedBlack(up, t', h + 1, b);
    InnerOrder(gs, s, p, a, x, d, g, u);
    SameOrder(up, Mk(gs, Mk(Other(gs), Mk(gs, a, x, true, d), p, true, s), g, false, u), t');
  }

  lemma InnerOrder(gs: Side, s: Tree, p: Node, a: Tree, x: Node, d: Tree, g: Node, u: Tree)
    ensures InOrder(Mk(gs, Mk(Other(gs), Mk(gs, a, x, true, d), p, true, s), g, false, u))
         == InOrder(Mk(gs, Mk(gs, s, p, true, a), x, false, Mk(gs, d, g, true, u)))
  {
    var t := Mk(gs, a, x, true, d);
    assert InOrder(t) == if gs == Left then InOrder(a) + [x] + InOrder(d) else InOrder(d) + [x] + InOrder(a);
    assert InOrder(Mk(Other(gs), t, p, true, s))
        == if gs == Left then InOrder(s) + [p] + InOrder(t) else InOrder(t) + [p] + InOrder(s);
    Reassociate(InOrder(s), p, InOrder(a), x, InOrder(d));
    Reassociate(InOrder(s) + [p] + InOrder(a), x, InOrder(d), g, InOrder(u));
    Reassociate(InOrder(d), x, InOrder(a), p, InOrder(s));
    Reassociate(InOrder(u), g, InOrder(d), x, InOrder(a) + [p] + InOrder(s));
  }

  // ---------- __rb_insert ----------

  /** The loop invariant: node is red; apart from a red parent of it everything is in order. */
  ghost predicate InsertInv(m: Mem, rt: Node?, c: Ctx, t: Tree, node: Node, h: int, b: int, order: seq<Node>) {
    && At(m, rt, c, t, node) && IsRed(t) && t.x == node
    && NoRedRed(t) && Blacks(t, h) && CtxOk(c, h, b)
    && InOrder(Plug(c, t)) == order && NoDup(order)
  }

  /** The repaired tree. */
  ghost predicate Repaired(m: Mem, rt: Node?, t: Tree, order: seq<Node>) {
    IsTree(m, rt, t) && RedBlack(t) && InOrder(t) == order
  }

  /** The pointers around a node with a red parent p: a black grandparent g exists. */
  ghost predicate RedParent(m: Mem, rt: Node?, up: Ctx, g: Node, gs: Side, u: Tree, p: Node, ps: Side, s: Tree,
                            t: Tree, node: Node) {
    && Apart(up, g, u, p, s, t)
    && g in m && m[g].parent == Above(up) && !m[g].red && m[g].Kid(gs) == p && CtxRep(m, rt, up, g)
    && p in m && m[p].parent == g && m[p].Kid(ps) == node
    && Rep(m, t, node, p) && Rep(m, s, m[p].Kid(Other(ps)), p) && Rep(m, u, m[g].Kid(Other(gs)), g)
    && (up.Hole? ==> up.x in m)
    && !IsRed(s)
  }

  lemma OpenRedParent(m: Mem, rt: Node?, c: Ctx, t: Tree, node: Node, h: int, b: int, order: seq<Node>)
    requires InsertInv(m, rt, c, t, node, h, b, order) && CtxRed(c)
    ensures c.up.Hole? && !c.up.red
    ensures RedParent(m, rt, c.up.up, c.up.x, c.up.side, c.up.sib, c.x, c.side, c.sib, t, node)
  {
    DistinctApart(c.up.up, c.up.x, c.up.red, c.up.side, c.up.sib, c.x, c.red, c.side, c.sib, t);
    assert CtxRep(m, rt, c.up, c.x);
  }

  /** A subtree's root pointer is null for the empty tree, else its root node. */
  lemma RootPointer(m: Mem, t: Tree, n: Node?, p: Node?)
    requires Rep(m, t, n, p)
    ensures n == null <==> t.Leaf?
    ensures t.T? ==> n == t.x && t.x in m && m[t.x].red == t.red && t.x in Nodes(t)
  {
  }

  lemma InsertFlip(m: Mem, m': Mem, rt: Node?, c: Ctx, t: Tree, node: Node, h: int, b: int, order: seq<Node>)
    requires InsertInv(m, rt, c, t, node, h, b, order) && CtxRed(c) && IsRed(c.up.sib)
    requires c.up.x in m && c.x in m && c.up.sib.x in m && m' == Case1Mem(m, c.up.x, c.x, c.up.sib.x)
    ensures var t' := Mk(c.up.side, Mk(c.side, t, c.x, false, c.sib), c.up.x, true, c.up.sib.(red := false));
      InsertInv(m', rt, c.up.up, t', c.up.x, h + 1, b, order)
  {
    OpenRedParent(m, rt, c, t, node, h, b, order);
    var up, g, gs, u := c.up.up, c.up.x, c.up.side, c.up.sib;
    RootPointer(m, u, m[g].Kid(Other(gs)), g);
    Case1Holds(m, g, c.x, u.x);
    Case1At(m, m', rt, up, g, gs, u, c.x, c.side, c.sib, t);
    FlipShape(up, g, gs, u, c.x, c.side, c.sib, t, h, b);
  }

  lemma InsertOuter(m: Mem, m': Mem, rt: Node?, rt': Node?, c: Ctx, t: Tree, node: Node, h: int, b: int,
                    order: seq<Node>)
    requires InsertInv(m, rt, c, t, node, h, b, order) && CtxRed(c) && !IsRed(c.up.sib) && c.side == c.up.side
    requires c.up.x in m && c.x in m && c.up.x != c.x && m' == Case3Mem(m, c.up.side, c.up.x, c.x)
    requires rt' == if m[c.up.x].parent == null then c.x else rt
    ensures Repaired(m', rt', Plug(c.up.up, Mk(c.side, t, c.x, false, Mk(c.side, c.sib, c.up.x, true, c.up.sib))),
                     order)
  {
    OpenRedParent(m, rt, c, t, node, h, b, order);
    var up, g, gs, u, p, s := c.up.up, c.up.x, c.up.side, c.up.sib, c.x, c.sib;
    RootPointer(m, s, m[p].Kid(Other(gs)), p);
    Case3Holds(m, rt, gs, g, p);
    Case3At(m, m', rt, rt', up, g, gs, u, p, s, t);
    OuterShape(up, g, gs, u, p, s, t, h, b);
    PlugRep(m', rt', up, Mk(gs, t, p, false, Mk(gs, s, g, true, u)), p);
  }

  /** The state between cases 2 and 3. */
  lemma InsertCase2(m: Mem, m1: Mem, rt: Node?, c: Ctx, t: Tree, node: Node, h: int, b: int, order: seq<Node>)
    requires InsertInv(m, rt, c, t, node, h, b, order) && CtxRed(c) && c.side == Other(c.up.side)
    requires c.x in m && node in m && node != c.x && m1 == Case2Mem(m, c.up.side, c.x, node)
    ensures c.up.x in m && c.up.x in m1 && node in m1 && m1.Keys == m.Keys && m1[c.up.x] == m[c.up.x]
    ensures CtxRep(m1, rt, c.up.up, c.up.x) && Rep(m1, c.up.sib, m1[c.up.x].Kid(Other(c.up.side)), c.up.x)
    ensures var gs := c.up.side;
      && m1[node].Kid(gs) == c.x && Rep(m1, Mk(gs, c.sib, c.x, true, Sub(t, gs)), c.x, node)
      && Rep(m1, Sub(t, Other(gs)), m1[node].Kid(Other(gs)), node)
  {
    OpenRedParent(m, rt, c, t, node, h, b, order);
    var up, g, gs, u, p, s := c.up.up, c.up.x, c.up.side, c.up.sib, c.x, c.sib;
    var a, d := Sub(t, gs), Sub(t, Other(gs));
    assert t == Mk(gs, a, node, true, d);
    OpenMk(m, gs, a, node, true, d, node, p);
    SepMk(gs, a, node, true, d);
    RootPointer(m, a, m[node].Kid(gs), node);
    Case2Holds(m, gs, p, node);
    Case2Below(m, m1, gs, p, s, a, node, d);
    Case2Above(m, m1, rt, up, g, gs, u, p, s, a, node, d);
  }

  lemma ApartInner(up: Ctx, g: Node, u: Tree, p: Node, s: Tree, gs: Side, a: Tree, node: Node, d: Tree)
    requires Apart(up, g, u, p, s, Mk(gs, a, node, true, d))
    ensures Apart(up, g, u, node, d, Mk(gs, s, p, true, a))
  {
    SepMk(gs, a, node, true, d);
    assert Nodes(Mk(gs, s, p, true, a)) == {p} + Nodes(s) + Nodes(a);
  }

  lemma InsertInner(m: Mem, m1: Mem, m': Mem, rt: Node?, rt': Node?, c: Ctx, t: Tree, node: Node, h: int, b: int,
                    order: seq<Node>)
    requires InsertInv(m, rt, c, t, node, h, b, order) && CtxRed(c) && !IsRed(c.up.sib) && c.side == Other(c.up.side)
    requires c.x in m && node in m && node != c.x && m1 == Case2Mem(m, c.up.side, c.x, node)
    requires c.up.x in m1 && node in m1 && c.up.x != node && m' == Case3Mem(m1, c.up.side, c.up.x, node)
    requires rt' == if m1[c.up.x].parent == null then node else rt
    ensures var gs := c.up.side;
      Repaired(m', rt', Plug(c.up.up, Mk(gs, Mk(gs, c.sib, c.x, true, Sub(t, gs)), node, false,
                                         Mk(gs, Sub(t, Other(gs)), c.up.x, true, c.up.sib))), order)
  {
    OpenRedParent(m, rt, c, t, node, h, b, order);
    InsertCase2(m, m1, rt, c, t, node, h, b, order);
    var up, g, gs, u, p, s := c.up.up, c.up.x, c.up.side, c.up.sib, c.x, c.sib;
    var a, d := Sub(t, gs), Sub(t, Other(gs));
    assert t == Mk(gs, a, node, true, d);
    ApartInner(up, g, u, p, s, gs, a, node, d);
    RootPointer(m1, d, m1[node].Kid(Other(gs)), node);
    Case3Holds(m1, rt, gs, g, node);
    Case3At(m1, m', rt, rt', up, g, gs, u, node, d, Mk(gs, s, p, true, a));
    InnerShape(up, g, gs, u, p, s, a, node, d, h, b);
    PlugRep(m', rt', up, Mk(gs, Mk(gs, s, p, true, a), node, false, Mk(gs, d, g, true, u)), node);
  }

  /** The place below a black node, or at the root. */
  lemma InsertDone(m: Mem, rt: Node?, c: Ctx, t: Tree, node: Node, h: int, b: int, order: seq<Node>)
    requires InsertInv(m, rt, c, t, node, h, b, order) && c.Hole? && !c.red
    ensures Repaired(m, rt, Plug(c, t), order)
  {
    PlugRedBlack(c, t, h, b);
    PlugRep(m, rt, c, t, node);
  }

  lemma InsertRoot(m: Mem, m': Mem, rt: Node?, t: Tree, node: Node, h: int, b: int, order: seq<Node>)
    requires InsertInv(m, rt, Top, t, node, h, b, order) && node in m
    requires m' == m[node := m[node].(parent := null, red := false)]
    ensures Repaired(m', rt, t.(red := false), order)
  {
    DistinctSep(t);
    Reparent(m, m', t, node, null, null, false);
    assert Blacks(t.(red := false), h + 1);
  }

  /** What the loop reads before it acts on a red parent: which sides, and the uncle. */
  lemma InsertReads(m: Mem, rt: Node?, c: Ctx, t: Tree, node: Node, h: int, b: int, order: seq<Node>)
    requires InsertInv(m, rt, c, t, node, h, b, order) && CtxRed(c)
    ensures c.up.Hole? && c.up.x in m && c.x in m && node in m && c.up.x != c.x && node != c.x && node != c.up.x
    ensures var g, p, gs := c.up.x, c.x, c.up.side;
      && m[p].parent == g
      && (m[g].right == p <==> gs == Right)
      && (m[p].Kid(Other(gs)) == node <==> c.side == Other(gs))
      && (m[g].parent != null ==> m[g].parent in m)
      && (m[p].Kid(Other(gs)) != null ==> m[p].Kid(Other(gs)) in m && m[p].Kid(Other(gs)) != g)
      && (m[node].Kid(gs) != null ==> m[node].Kid(gs) in m)
      && var un := m[g].Kid(Other(gs));
         && (un != null ==> un in m && c.up.sib.T? && un == c.up.sib.x && m[un].red == c.up.sib.red)
         && (un == null ==> c.up.sib.Leaf?)
  {
    OpenRedParent(m, rt, c, t, node, h, b, order);
    var g, p, gs := c.up.x, c.x, c.up.side;
    RootPointer(m, c.up.sib, m[g].Kid(Other(gs)), g);
    RootPointer(m, c.sib, m[p].Kid(Other(c.side)), p);
    RootPointer(m, t.left, m[node].left, node);
    RootPointer(m, t.right, m[node].right, node);
  }

  /** What case 3 reads after case 2. */
  lemma InnerReads(m: Mem, m1: Mem, rt: Node?, c: Ctx, t: Tree, node: Node, h: int, b: int, order: seq<Node>)
    requires InsertInv(m, rt, c, t, node, h, b, order) && CtxRed(c) && c.side == Other(c.up.side)
    requires c.x in m && node in m && node != c.x && m1 == Case2Mem(m, c.up.side, c.x, node)
    ensures c.up.x in m1 && node in m1 && m1.Keys == m.Keys && m1[c.up.x].parent == m[c.up.x].parent
    ensures var tmp := m1[node].Kid(Other(c.up.side)); tmp != null ==> tmp in m1 && tmp != c.up.x
    ensures m1[c.up.x].parent != null ==> m1[c.up.x].parent in m1
  {
    InsertCase2(m, m1, rt, c, t, node, h, b, order);
    OpenRedParent(m, rt, c, t, node, h, b, order);
    RootPointer(m1, Sub(t, Other(c.up.side)), m1[node].Kid(Other(c.up.side)), node);
  }

  /** __rb_insert. Called with a red leaf just linked into a red-black tree, it terminates with a
      red-black tree of the same nodes in the same order, all links and colours in place. */
  method InsertColor(node0: Node, root: Root, ghost m0: Mem, ghost c0: Ctx) returns (ghost m: Mem, ghost tree: Tree)
    requires Matches(m0) && At(m0, root.node, c0, T(Leaf, node0, true, Leaf), node0)
    requires RedBlack(Plug(c0, Leaf)) && NoDup(InOrder(Plug(c0, T(Leaf, node0, true, Leaf))))
    modifies root`node, m0.Keys`left, m0.Keys`right, m0.Keys`parent, m0.Keys`red
    ensures Matches(m) && m.Keys == m0.Keys
    ensures IsTree(m, root.node, tree) && RedBlack(tree)
    ensures InOrder(tree) == Before(c0) + [node0] + After(c0)
  {
    ghost var c, t, h, b := c0, T(Leaf, node0, true, Leaf), 0, 0;
    h, b := UnplugRedBlack(c0, Leaf);
    PlugInOrder(c0, t);
    ghost var order := Before(c0) + [node0] + After(c0);
    m := m0;
    var node, parent := node0, node0.parent;
    while true
      invariant Matches(m) && m.Keys == m0.Keys
      invariant InsertInv(m, root.node, c, t, node, h, b, order)
      invariant parent == Above(c)
      decreases c
    {
      if parent == null {
        ghost var m1 := m;
        m := SetParentColor(node, null, false, m);
        InsertRoot(m1, m, root.node, t, node, h, b, order);
        tree := t.(red := false);
        return;
      } else if !parent.red {
        InsertDone(m, root.node, c, t, node, h, b, order);
        tree := Plug(c, t);
        return;
      }
      InsertReads(m, root.node, c, t, node, h, b, order);
      var gparent := parent.parent;
      if parent != gparent.right {
        var done := false;
        done, node, parent, m, c, t, h, tree := InsertStep(node, parent, gparent, Left, root, m, c, t, h, b, order);
        if done { return; }
      } else {
        var done := false;
        done, node, parent, m, c, t, h, tree := InsertStep(node, parent, gparent, Right, root, m, c, t, h, b, order);
        if done { return; }
      }
    }
  }

  /** The body of the loop below a red parent that is its own parent's child on side gs; the
      source writes it out once for each side. */
  method InsertStep(node0: Node, parent0: Node, gparent: Node, gs: Side, root: Root,
                    ghost m0: Mem, ghost c0: Ctx, ghost t0: Tree, ghost h0: int, ghost b: int, ghost order: seq<Node>)
    returns (done: bool, node: Node, parent: Node?,
             ghost m: Mem, ghost c: Ctx, ghost t: Tree, ghost h: int, ghost tree: Tree)
    requires Matches(m0) && InsertInv(m0, root.node, c0, t0, node0, h0, b, order)
    requires CtxRed(c0) && c0.up.Hole? && parent0 == c0.x && gparent == c0.up.x && gs == c0.up.side
    modifies root`node, m0.Keys`left, m0.Keys`right, m0.Keys`parent, m0.Keys`red
    ensures Matches(m) && m.Keys == m0.Keys
    ensures done ==> Repaired(m, root.node, tree, order)
    ensures !done ==> InsertInv(m, root.node, c, t, node, h, b, order) && parent == Above(c) && c == c0.up.up
  {
    InsertReads(m0, root.node, c0, t0, node0, h0, b, order);
    node, parent, c, t, h, tree := node0, parent0, c0, t0, h0, Leaf;
    var tmp := GetKid(gparent, Other(gs), m0);
    if tmp != null && tmp.red {
      m := ColorFlip(gparent, parent0, tmp, m0);
      InsertFlip(m0, m, root.node, c0, t0, node0, h0, b, order);
      node, parent := gparent, gparent.parent;
      c, h := c0.up.up, h0 + 1;
      t := Mk(gs, Mk(c0.side, t0, parent0, false, c0.sib), gparent, true, c0.up.sib.(red := false));
      done := false;
    } else {
      tmp := GetKid(parent0, Other(gs), m0);
      if node == tmp {
        m, tree := TurnInner(node0, parent0, gparent, gs, root, m0, c0, t0, h0, b, order);
      } else {
        m, tree := TurnOuter(node0, parent0, gparent, gs, root, m0, c0, t0, h0, b, order);
      }
      done := true;
    }
  }

  method TurnInner(node: Node, parent: Node, gparent: Node, gs: Side, root: Root,
                   ghost m0: Mem, ghost c: Ctx, ghost t: Tree, ghost h: int, ghost b: int, ghost order: seq<Node>)
    returns (ghost m: Mem, ghost tree: Tree)
    requires Matches(m0) && InsertInv(m0, root.node, c, t, node, h, b, order) && CtxRed(c) && c.up.Hole?
    requires parent == c.x && gparent == c.up.x && gs == c.up.side && c.side == Other(gs) && !IsRed(c.up.sib)
    modifies root`node, m0.Keys`left, m0.Keys`right, m0.Keys`parent, m0.Keys`red
    ensures Matches(m) && m.Keys == m0.Keys && Repaired(m, root.node, tree, order)
  {
    InsertReads(m0, root.node, c, t, node, h, b, order);
    ghost var rt := root.node;
    ghost var m1 := RotateInner(parent, node, gs, m0);
    InnerReads(m0, m1, rt, c, t, node, h, b, order);
    m := RotateOuter(gparent, node, root, gs, m1);
    InsertInner(m0, m1, m, rt, root.node, c, t, node, h, b, order);
    tree := Plug(c.up.up, Mk(gs, Mk(gs, c.sib, parent, true, Sub(t, gs)), node, false,
                             Mk(gs, Sub(t, Other(gs)), gparent, true, c.up.sib)));
  }

  method TurnOuter(node: Node, parent: Node, gparent: Node, gs: Side, root: Root,
                   ghost m0: Mem, ghost c: Ctx, ghost t: Tree, ghost h: int, ghost b: int, ghost order: seq<Node>)
    returns (ghost m: Mem, ghost tree: Tree)
    requires Matches(m0) && InsertInv(m0, root.node, c, t, node, h, b, order) && CtxRed(c) && c.up.Hole?
    requires parent == c.x && gparent == c.up.x && gs == c.up.side && c.side == gs && !IsRed(c.up.sib)
    modifies root`node, m0.Keys`left, m0.Keys`right, m0.Keys`parent, m0.Keys`red
    ensures Matches(m) && m.Keys == m0.Keys && Repaired(m, root.node, tree, order)
  {
    InsertReads(m0, root.node, c, t, node, h, b, order);
    ghost var rt := root.node;
    m := RotateOuter(gparent, parent, root, gs, m0);
    InsertOuter(m0, m, rt, root.node, c, t, node, h, b, order);
    tree := Plug(c.up.up, Mk(gs, t, parent, false, Mk(gs, c.sib, gparent, true, c.up.sib)));
  }

  function LinkedMem(m: Mem, node: Node, parent: Node?, side: Side): (m': Mem)
    ensures m'.Keys == m.Keys + {node}
  {
    var m1 := m[node := Fields(null, null, parent, true)];
    if parent == null || parent !in m then m1 else m1[parent := m1[parent].WithKid(side, node)]
  }

  /** rb_link_node: node becomes a red leaf in an empty place below parent, or the root. */
  method LinkNode(node: Node, parent: Node?, side: Side, root: Root, ghost m: Mem) returns (ghost m': Mem)
    requires Matches(m) && node !in m && (parent != null ==> parent in m)
    modifies root`node, node`left, node`right, node`parent, node`red, m.Keys`left, m.Keys`right
    ensures Matches(m') && m' == LinkedMem(m, node, parent, side)
    ensures root.node == if parent == null then node else old(root.node)
  {
    node.parent, node.red, node.left, node.right := parent, true, null, null;
    m' := m[node := Fields(null, null, parent, true)];
    if parent == null {
      root.node := node;
    } else {
      m' := SetKid(parent, side, node, m');
    }
  }

  lemma LinkedAt(m: Mem, rt: Node?, c: Ctx, node: Node, side: Side)
    requires CtxRep(m, rt, c, null) && CtxSep(c) && node !in m && (c.Hole? ==> side == c.side)
    ensures At(LinkedMem(m, node, Above(c), side), if c.Top? then node else rt, c, T(Leaf, node, true, Leaf), node)
  {
    var m1 := m[node := Fields(null, null, Above(c), true)];
    CtxKeys(m, rt, c, null);
    CtxFrame(m, m1, rt, c, null);
    if c.Hole? { FillHole(m1, LinkedMem(m, node, Above(c), side), rt, c, node); }
  }

  /** The link that leads to an empty place is set. */
  lemma FillHole(m: Mem, m': Mem, rt: Node?, c: Ctx, n: Node)
    requires c.Hole? && CtxSep(c) && CtxRep(m, rt, c, null) && m' == m[c.x := m[c.x].WithKid(c.side, n)]
    ensures CtxRep(m', rt, c, n)
  {
    RepFrame(m, m', c.sib, m[c.x].Kid(Other(c.side)), c.x);
    CtxFrame(m, m', rt, c.up, c.x);
  }

  /** A context's nodes are in memory. */
  lemma {:induction false} RepKeys(m: Mem, t: Tree, n: Node?, p: Node?)
    requires Rep(m, t, n, p)
    ensures Nodes(t) <= m.Keys
  {
    if t.T? { RepKeys(m, t.left, m[t.x].left, t.x); RepKeys(m, t.right, m[t.x].right, t.x); }
  }

  lemma {:induction false} CtxKeys(m: Mem, rt: Node?, c: Ctx, n: Node?)
    requires CtxRep(m, rt, c, n)
    ensures CtxNodes(c) <= m.Keys
  {
    if c.Hole? { RepKeys(m, c.sib, m[c.x].Kid(Other(c.side)), c.x); CtxKeys(m, rt, c.up, c.x); }
  }

  lemma InsertedDistinct(c: Ctx, node: Node)
    requires NoDup(InOrder(Plug(c, Leaf))) && node !in CtxNodes(c)
    ensures NoDup(InOrder(Plug(c, T(Leaf, node, true, Leaf))))
  {
    PlugInOrder(c, Leaf);
    PlugInOrder(c, T(Leaf, node, true, Leaf));
    CtxNodesInOrder(c, node);
    assert Before(c) + [] + After(c) == Before(c) + After(c);
    assert InOrder(T(Leaf, node, true, Leaf)) == [node];
    NoDupInsert(Before(c), node, After(c));
  }

  lemma NoDupInsert(a: seq<Node>, x: Node, b: seq<Node>)
    requires NoDup(a + b) && x !in a && x !in b
    ensures NoDup(a + [x] + b)
  {
    var q, q' := a + b, a + [x] + b;
    forall i, j | 0 <= i < j < |q'| ensures q'[i] != q'[j] {
      if i != |a| && j != |a| {
        assert q[if i < |a| then i else i - 1] != q[if j < |a| then j else j - 1];
      }
    }
  }

  lemma {:induction false} CtxNodesInOrder(c: Ctx, y: Node)
    ensures y in CtxNodes(c) <==> y in Before(c) || y in After(c)
  {
    if c.Hole? { NodesOfInOrder(c.sib, y); CtxNodesInOrder(c.up, y); }
  }

  /** Linking a new node into any empty place of a red-black tree and repairing gives a red-black
      tree with the node at that place in the order and everything else as before. */
  method Insert(node: Node, parent: Node?, side: Side, root: Root, ghost m: Mem, ghost c: Ctx)
    returns (ghost m': Mem, ghost tree: Tree)
    requires Matches(m) && IsTree(m, root.node, Plug(c, Leaf)) && RedBlack(Plug(c, Leaf)) && node !in m
    requires parent == Above(c) && (c.Hole? ==> side == c.side)
    modifies root`node, node, m.Keys`left, m.Keys`right, m.Keys`parent, m.Keys`red
    ensures Matches(m') && m'.Keys == m.Keys + {node}
    ensures IsTree(m', root.node, tree) && RedBlack(tree)
    ensures InOrder(Plug(c, Leaf)) == Before(c) + After(c) && InOrder(tree) == Before(c) + [node] + After(c)
  {
    ghost var rt := root.node;
    LinkReady(m, rt, c, node, side);
    PlugInOrder(c, Leaf);
    ghost var m1 := LinkNode(node, parent, side, root, m);
    m', tree := InsertColor(node, root, m1, c);
  }

  lemma LinkReady(m: Mem, rt: Node?, c: Ctx, node: Node, side: Side)
    requires IsTree(m, rt, Plug(c, Leaf)) && node !in m && (c.Hole? ==> side == c.side)
    ensures c.Hole? ==> c.x in m
    ensures At(LinkedMem(m, node, Above(c), side), if c.Top? then node else rt, c, T(Leaf, node, true, Leaf), node)
    ensures NoDup(InOrder(Plug(c, T(Leaf, node, true, Leaf))))
  {
    var n := UnplugRep(m, rt, c, Leaf);
    DistinctParts(c, Leaf);
    CtxKeys(m, rt, c, null);
    LinkedAt(m, rt, c, node, side);
    InsertedDistinct(c, node);
  }
}

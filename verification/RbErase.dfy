/** ____rb_erase_color (compat/rbtree.c): repairing a red-black tree after a black node went. */
module RbErase {
  import opened RbTree
  import opened RbInsert

  // ---------- case 4: rotate at the parent ----------

  /** The nodes and subtrees that cases 3 and 4 move are apart. */
  predicate Apart4(up: Ctx, p: Node, t: Tree, x: Node, a: Tree, y: Node, l: Tree, r: Tree) {
    && CtxSep(up) && Sep(a) && p != x && p != y && x != y
    && Outside(p, up, t, a, l, r) && Outside(x, up, t, a, l, r) && Outside(y, up, t, a, l, r)
    && Nodes(a) !! CtxNodes(up) && Nodes(a) !! Nodes(t) && Nodes(a) !! Nodes(l) && Nodes(a) !! Nodes(r)
    && Nodes(t) !! CtxNodes(up) && Nodes(l) !! CtxNodes(up) && Nodes(r) !! CtxNodes(up)
    && Nodes(l) !! Nodes(t) && Nodes(l) !! Nodes(r) && Sep(l)
  }

  predicate Outside(z: Node, up: Ctx, t: Tree, a: Tree, l: Tree, r: Tree) {
    z !in CtxNodes(up) && z !in Nodes(t) && z !in Nodes(a) && z !in Nodes(l) && z !in Nodes(r)
  }

  lemma Distinct4(up: Ctx, p: Node, pr: bool, s: Side, t: Tree, x: Node, xr: bool, a: Tree, y: Node, yr: bool,
                  l: Tree, r: Tree)
    requires NoDup(InOrder(Plug(Hole(up, p, pr, s, Mk(s, a, x, xr, Mk(s, l, y, yr, r))), t)))
    ensures Apart4(up, p, t, x, a, y, l, r)
  {
    var far := Mk(s, l, y, yr, r);
    var sib := Mk(s, a, x, xr, far);
    DistinctParts(Hole(up, p, pr, s, sib), t);
    SepMk(s, a, x, xr, far);
    SepMk(s, l, y, yr, r);
  }

  /** What case 4 does to memory: x takes the place and colour of p, p hangs below x and is black,
      x's outer child y turns black, and x's inner child goes to p. */
  predicate Case4(m: Mem, m': Mem, rt: Node?, rt': Node?, s: Side, p: Node, x: Node, y: Node)
    requires p in m && x in m && y in m
  {
    var tmp, pp := m[x].Kid(s), m[p].parent;
    && m'.Keys == m.Keys
    && m'[x] == m[x].WithKid(s, p).(parent := pp, red := m[p].red)
    && m'[p] == m[p].WithKid(Other(s), tmp).(parent := x, red := false)
    && m'[y] == m[y].(parent := x, red := false)
    && (tmp != null ==> tmp in m && m'[tmp] == m[tmp].(parent := p))
    && (pp == null ==> rt' == x)
    && (pp != null ==> rt' == rt && pp in m && m'[pp] == m[pp].WithKid(if m[pp].left == p then Left else Right, x))
    && forall z :: z in m && z != x && z != p && z != y && z != tmp && z != pp ==> m'[z] == m[z]
  }

  function Adopt(m: Mem, n: Node?, p: Node): (m': Mem)
    ensures m'.Keys == m.Keys
  {
    if n == null || n !in m then m else m[n := m[n].(parent := p)]
  }

  function Case4Links(m: Mem, s: Side, p: Node, x: Node, y: Node): (m': Mem)
    requires p in m && x in m && y in m && p != x
    ensures m'.Keys == m.Keys
  {
    var tmp := m[x].Kid(s);
    var m1 := m[p := m[p].WithKid(Other(s), tmp)];
    var m2 := m1[x := m1[x].WithKid(s, p)];
    var m3 := m2[y := m2[y].(parent := x, red := false)];
    Adopt(m3, tmp, p)
  }

  lemma Case4Holds(m: Mem, rt: Node?, s: Side, p: Node, x: Node, y: Node)
    requires p in m && x in m && y in m && p != x && p != y && x != y
    requires var tmp := m[x].Kid(s);
      tmp != null ==> tmp in m && tmp != p && tmp != x && tmp != y && tmp != m[p].parent
    requires var pp := m[p].parent; pp != null ==> pp in m && pp != p && pp != x && pp != y
    ensures Case4(m, ParentsRotated(Case4Links(m, s, p, x, y), p, x, false), rt,
                  if m[p].parent == null then x else rt, s, p, x, y)
  {
  }

  /** The pointers case 4 starts from; the link from p to x, and the parents and colours of x
      and y may be anything. */
  predicate Case4Ready(m: Mem, rt: Node?, up: Ctx, p: Node, s: Side, t: Tree, x: Node, a: Tree, y: Node, l: Tree,
                       r: Tree) {
    && p in m && x in m && y in m && (up.Hole? ==> up.x in m)
    && m[p].parent == Above(up) && CtxRep(m, rt, up, p) && m[x].Kid(Other(s)) == y
    && Rep(m, t, m[p].Kid(s), p) && Rep(m, a, m[x].Kid(s), x)
    && Rep(m, l, m[y].Kid(s), y) && Rep(m, r, m[y].Kid(Other(s)), y)
  }

  lemma Case4Below(m: Mem, m': Mem, rt: Node?, rt': Node?, up: Ctx, p: Node, s: Side, t: Tree, x: Node, a: Tree,
                   y: Node, l: Tree, r: Tree)
    requires Case4Ready(m, rt, up, p, s, t, x, a, y, l, r) && Apart4(up, p, t, x, a, y, l, r)
    requires Case4(m, m', rt, rt', s, p, x, y)
    ensures Rep(m', Mk(s, t, p, false, a), p, x) && Rep(m', Mk(s, l, y, false, r), y, x)
  {
    RootPointer(m, a, m[x].Kid(s), x);
    RepFrame(m, m', t, m[p].Kid(s), p);
    RepFrame(m, m', l, m[y].Kid(s), y);
    RepFrame(m, m', r, m[y].Kid(Other(s)), y);
    Reparent(m, m', a, m[x].Kid(s), x, p, a.T? && a.red);
    RepMk(m', s, t, p, false, a, x);
    RepMk(m', s, l, y, false, r, x);
  }

  lemma Case4At(m: Mem, m': Mem, rt: Node?, rt': Node?, up: Ctx, p: Node, s: Side, t: Tree, x: Node, a: Tree, y: Node,
                l: Tree, r: Tree)
    requires Case4Ready(m, rt, up, p, s, t, x, a, y, l, r) && Apart4(up, p, t, x, a, y, l, r)
    requires Case4(m, m', rt, rt', s, p, x, y)
    ensures At(m', rt', up, Mk(s, Mk(s, t, p, false, a), x, m[p].red, Mk(s, l, y, false, r)), x)
  {
    Case4Below(m, m', rt, rt', up, p, s, t, x, a, y, l, r);
    RepMk(m', s, Mk(s, t, p, false, a), x, m[p].red, Mk(s, l, y, false, r), Above(up));
    RootPointer(m, a, m[x].Kid(s), x);
    ChangeHole(m, m', rt, rt', up, p, x);
  }

  // ---------- case 3: rotate at the sibling ----------

  /** What case 3 does: x comes between p and the sibling z; the parents of x and z are left for
      case 4. */
  predicate Case3(m: Mem, m': Mem, s: Side, p: Node, z: Node, x: Node)
    requires p in m && z in m && x in m
  {
    var tmp := m[x].Kid(Other(s));
    && m'.Keys == m.Keys
    && m'[z] == m[z].WithKid(s, tmp) && m'[x] == m[x].WithKid(Other(s), z) && m'[p] == m[p].WithKid(Other(s), x)
    && (tmp != null ==> tmp in m && m'[tmp] == m[tmp].(parent := z, red := false))
    && forall w :: w in m && w != z && w != x && w != p && w != tmp ==> m'[w] == m[w]
  }

  function Case3Mem(m: Mem, s: Side, p: Node, z: Node, x: Node): (m': Mem)
    requires p in m && z in m && x in m
    ensures m'.Keys == m.Keys
  {
    var tmp := m[x].Kid(Other(s));
    var m1 := m[z := m[z].WithKid(s, tmp)];
    var m2 := m1[x := m1[x].WithKid(Other(s), z)];
    var m3 := m2[p := m2[p].WithKid(Other(s), x)];
    AdoptBlack(m3, tmp, z)
  }

  lemma Case3Holds(m: Mem, s: Side, p: Node, z: Node, x: Node)
    requires p in m && z in m && x in m && p != z && p != x && z != x
    requires var tmp := m[x].Kid(Other(s)); tmp != null ==> tmp in m && tmp != p && tmp != x && tmp != z
    ensures Case3(m, Case3Mem(m, s, p, z, x), s, p, z, x)
  {
  }

  /** After case 3 the pointers are ready for case 4. */
  lemma Case3Below(m: Mem, m': Mem, up: Ctx, p: Node, s: Side, t: Tree, x: Node, a: Tree, z: Node, l: Tree, r: Tree)
    requires p in m && z in m && x in m && Case3(m, m', s, p, z, x) && Apart4(up, p, t, x, a, z, l, r) && !IsRed(l)
    requires Rep(m, a, m[x].Kid(s), x) && Rep(m, l, m[x].Kid(Other(s)), x) && Rep(m, r, m[z].Kid(Other(s)), z)
    ensures Rep(m', a, m'[x].Kid(s), x) && Rep(m', l, m'[z].Kid(s), z) && Rep(m', r, m'[z].Kid(Other(s)), z)
  {
    RootPointer(m, l, m[x].Kid(Other(s)), x);
    RepFrame(m, m', a, m[x].Kid(s), x);
    RepFrame(m, m', r, m[z].Kid(Other(s)), z);
    Reparent(m, m', l, m[x].Kid(Other(s)), x, z, false);
  }

  lemma Case3Above(m: Mem, m': Mem, rt: Node?, up: Ctx, p: Node, s: Side, t: Tree, x: Node, a: Tree, z: Node, l: Tree,
                   r: Tree)
    requires p in m && z in m && x in m && Case3(m, m', s, p, z, x) && Apart4(up, p, t, x, a, z, l, r)
    requires CtxRep(m, rt, up, p) && Rep(m, t, m[p].Kid(s), p) && Rep(m, l, m[x].Kid(Other(s)), x)
    ensures CtxRep(m', rt, up, p) && Rep(m', t, m'[p].Kid(s), p)
    ensures m'[p].parent == m[p].parent && m'[p].red == m[p].red && m'[x].Kid(Other(s)) == z
  {
    RootPointer(m, l, m[x].Kid(Other(s)), x);
    RepFrame(m, m', t, m[p].Kid(s), p);
    CtxFrame(m, m', rt, up, p);
  }

  // ---------- the loop invariant ----------

  /** Paths through the hole have one black node too few; everything else is in order. */
  ghost predicate EraseInv(m: Mem, rt: Node?, c: Ctx, t: Tree, n: Node?, h: int, b: int, order: seq<Node>) {
    && At(m, rt, c, t, n) && c.Hole? && !IsRed(t) && NoRedRed(t) && Blacks(t, h - 1) && CtxOk(c, h, b)
    && InOrder(Plug(c, t)) == order && NoDup(order)
  }

  /** There is a sibling, and with a red sibling both nephews are black nodes. */
  lemma SiblingExists(c: Ctx, t: Tree, h: int, b: int)
    requires c.Hole? && CtxOk(c, h, b) && Blacks(t, h - 1)
    ensures c.sib.T?
    ensures c.sib.red ==> !c.red && c.sib.left.T? && c.sib.right.T? && !c.sib.left.red && !c.sib.right.red
  {
    BlacksNonNegative(t, h - 1);
    if IsRed(c.sib) { assert Blacks(c.sib.left, h) && Blacks(c.sib.right, h); }
  }

  /** The pointers the loop reads. */
  lemma EraseReads(m: Mem, rt: Node?, c: Ctx, t: Tree, n: Node?, h: int, b: int, order: seq<Node>)
    requires EraseInv(m, rt, c, t, n, h, b, order)
    ensures c.sib.T? && c.x in m && c.sib.x in m && c.x != c.sib.x
    ensures m[c.x].parent == Above(c.up) && m[c.x].red == c.red && (c.up.Hole? ==> c.up.x in m)
    ensures m[c.x].Kid(c.side) == n && m[c.x].Kid(Other(c.side)) == c.sib.x && n != c.sib.x
    ensures m[c.sib.x].red == c.sib.red
    ensures forall d :: NephewRead(m, c.sib, d) && m[c.sib.x].Kid(d) != c.x
  {
    SiblingExists(c, t, h, b);
    DistinctParts(c, t);
    assert CtxRep(m, rt, c.up, c.x);
    RootPointer(m, t, n, c.x);
    RootPointer(m, c.sib, m[c.x].Kid(Other(c.side)), c.x);
    forall d ensures NephewRead(m, c.sib, d) && m[c.sib.x].Kid(d) != c.x {
      RootPointer(m, Sub(c.sib, d), m[c.sib.x].Kid(d), c.sib.x);
    }
  }

  predicate NephewRead(m: Mem, sib: Tree, d: Side)
    requires sib.T? && sib.x in m
  {
    var y, u := m[sib.x].Kid(d), Sub(sib, d);
    && (y == null <==> u.Leaf?)
    && (u.T? ==> y == u.x && u.x in m && m[u.x].red == u.red)
  }

  /** A subtree below its node is a subtree in the context one deeper. */
  lemma Descend(m: Mem, rt: Node?, up: Ctx, s: Side, t: Tree, x: Node, red: bool, sib: Tree)
    requires At(m, rt, up, Mk(s, t, x, red, sib), x)
    ensures x in m && At(m, rt, Hole(up, x, red, s, sib), t, m[x].Kid(s))
  {
    OpenMk(m, s, t, x, red, sib, x, Above(up));
  }

  // ---------- case 1 ----------

  /** The context after a red sibling was rotated up. */
  function Rotated(c: Ctx): Ctx
    requires c.Hole? && c.sib.T?
  {
    Hole(Hole(c.up, c.sib.x, false, c.side, Sub(c.sib, Other(c.side))), c.x, true, c.side, Sub(c.sib, c.side))
  }

  lemma RotatedShape(c: Ctx, t: Tree, h: int, b: int)
    requires c.Hole? && CtxOk(c, h, b) && c.sib.T? && c.sib.red && !c.red
    ensures CtxOk(Rotated(c), h, b) && InOrder(Plug(Rotated(c), t)) == InOrder(Plug(c, t))
  {
    var s, z := c.side, c.sib;
    var near, far := Sub(z, s), Sub(z, Other(s));
    Reassociate(InOrder(t), c.x, InOrder(near), z.x, InOrder(far));
    Reassociate(InOrder(far), z.x, InOrder(near), c.x, InOrder(t));
    SameOrder(c.up, Mk(s, t, c.x, false, z), Mk(s, Mk(s, t, c.x, true, near), z.x, false, far));
  }

  lemma DistinctSibling(c: Ctx, t: Tree)
    requires c.Hole? && c.sib.T? && NoDup(InOrder(Plug(c, t)))
    ensures Apart(c.up, c.x, t, c.sib.x, Sub(c.sib, c.side), Sub(c.sib, Other(c.side)))
  {
    DistinctParts(c, t);
    SepMk(c.side, Sub(c.sib, c.side), c.sib.x, c.sib.red, Sub(c.sib, Other(c.side)));
  }

  lemma RotatedAt(m: Mem, m': Mem, rt: Node?, rt': Node?, c: Ctx, t: Tree, n: Node?, h: int, b: int, order: seq<Node>)
    requires EraseInv(m, rt, c, t, n, h, b, order) && IsRed(c.sib)
    requires c.x in m && c.sib.x in m && c.x != c.sib.x && m' == RbInsert.Case3Mem(m, Other(c.side), c.x, c.sib.x)
    requires rt' == if m[c.x].parent == null then c.sib.x else rt
    ensures At(m', rt', Rotated(c), t, n)
  {
    EraseReads(m, rt, c, t, n, h, b, order);
    var s, p, z := c.side, c.x, c.sib;
    var near, far := Sub(z, s), Sub(z, Other(s));
    DistinctSibling(c, t);
    SiblingExists(c, t, h, b);
    assert NephewRead(m, z, s) && NephewRead(m, z, Other(s));
    RbInsert.Case3Holds(m, rt, Other(s), p, z.x);
    RbInsert.Case3At(m, m', rt, rt', c.up, p, Other(s), t, z.x, near, far);
    Descend(m', rt', c.up, s, Mk(s, t, p, true, near), z.x, false, far);
    Descend(m', rt', Hole(c.up, z.x, false, s, far), s, t, p, true, near);
  }

  lemma EraseRotate(m: Mem, m': Mem, rt: Node?, rt': Node?, c: Ctx, t: Tree, n: Node?, h: int, b: int, order: seq<Node>)
    requires EraseInv(m, rt, c, t, n, h, b, order) && IsRed(c.sib)
    requires c.x in m && c.sib.x in m && c.x != c.sib.x && m' == RbInsert.Case3Mem(m, Other(c.side), c.x, c.sib.x)
    requires rt' == if m[c.x].parent == null then c.sib.x else rt
    ensures EraseInv(m', rt', Rotated(c), t, n, h, b, order) && !IsRed(Rotated(c).sib)
  {
    RotatedAt(m, m', rt, rt', c, t, n, h, b, order);
    SiblingExists(c, t, h, b);
    RotatedShape(c, t, h, b);
  }

  // ---------- case 2 ----------

  function Recolored(c: Ctx, t: Tree): Tree
    requires c.Hole? && c.sib.T?
  {
    Mk(c.side, t, c.x, false, c.sib.(red := true))
  }

  lemma RecoloredAt(m: Mem, m': Mem, rt: Node?, c: Ctx, t: Tree, n: Node?)
    requires c.Hole? && c.sib.T? && At(m, rt, c, t, n) && NoDup(InOrder(Plug(c, t)))
    requires c.x in m && c.sib.x in m && c.x != c.sib.x
    requires m' == m[c.sib.x := m[c.sib.x].(parent := c.x, red := true)][c.x := m[c.x].(red := false)]
    ensures At(m', rt, c.up, Recolored(c, t), c.x)
  {
    DistinctParts(c, t);
    RepFrame(m, m', t, n, c.x);
    Reparent(m, m', c.sib, c.sib.x, c.x, c.x, true);
    CtxFrame(m, m', rt, c.up, c.x);
    RepMk(m', c.side, t, c.x, false, c.sib.(red := true), Above(c.up));
  }

  lemma RecoloredShape(c: Ctx, t: Tree, h: int, b: int)
    requires c.Hole? && c.sib.T? && CtxOk(c, h, b) && !IsRed(t) && NoRedRed(t) && Blacks(t, h - 1)
    requires !c.sib.red && !IsRed(c.sib.left) && !IsRed(c.sib.right)
    ensures NoRedRed(Recolored(c, t)) && Blacks(Recolored(c, t), h) && !IsRed(Recolored(c, t))
    ensures InOrder(Plug(c.up, Recolored(c, t))) == InOrder(Plug(c, t))
  {
    SameOrder(c.up, Mk(c.side, t, c.x, c.red, c.sib), Recolored(c, t));
  }

  lemma EraseRecolor(m: Mem, m': Mem, rt: Node?, c: Ctx, t: Tree, n: Node?, h: int, b: int, order: seq<Node>)
    requires EraseInv(m, rt, c, t, n, h, b, order) && c.sib.T?
    requires !c.sib.red && !IsRed(c.sib.left) && !IsRed(c.sib.right)
    requires c.x in m && c.sib.x in m && c.x != c.sib.x
    requires m' == m[c.sib.x := m[c.sib.x].(parent := c.x, red := true)][c.x := m[c.x].(red := false)]
    ensures c.red || c.up.Top? ==> Repaired(m', rt, Plug(c.up, Recolored(c, t)), order)
    ensures !c.red && c.up.Hole? ==> EraseInv(m', rt, c.up, Recolored(c, t), c.x, h + 1, b, order)
  {
    RecoloredAt(m, m', rt, c, t, n);
    RecoloredShape(c, t, h, b);
    if c.red {
      PlugRedBlack(c.up, Recolored(c, t), h, b);
      PlugRep(m', rt, c.up, Recolored(c, t), c.x);
    } else if c.up.Top? {
      PlugRep(m', rt, c.up, Recolored(c, t), c.x);
    }
  }

  // ---------- cases 3 and 4 ----------

  /** The subtree after case 4: x takes p's place, y is x's black outer child. */
  function Turned(c: Ctx, t: Tree, x: Node, a: Tree, y: Node, l: Tree, r: Tree): Tree
    requires c.Hole?
  {
    Mk(c.side, Mk(c.side, t, c.x, false, a), x, c.red, Mk(c.side, l, y, false, r))
  }

  /** Case 4 closes the deficit: with p black below it, x adds the missing black node. */
  lemma TurnedShape(c: Ctx, t: Tree, x: Node, a: Tree, y: Node, l: Tree, r: Tree, h: int, b: int)
    requires c.Hole? && CtxOk(c, h, b) && Good(t, h - 1)
    requires Good(a, h - 1) && Good(l, h - 1) && Good(r, h - 1)
    ensures RedBlack(Plug(c.up, Turned(c, t, x, a, y, l, r)))
  {
    GoodMk(c.side, t, c.x, false, a, h - 1);
    GoodMk(c.side, l, y, false, r, h - 1);
    GoodMk(c.side, Mk(c.side, t, c.x, false, a), x, c.red, Mk(c.side, l, y, false, r), h);
    PlugRedBlack(c.up, Turned(c, t, x, a, y, l, r), if c.red then h else h + 1, b);
  }

  lemma TurnedOrder(c: Ctx, t: Tree, x: Node, xr: bool, a: Tree, y: Node, yr: bool, l: Tree, r: Tree)
    requires c.Hole? && InOrder(c.sib) == InOrder(Mk(c.side, a, x, xr, Mk(c.side, l, y, yr, r)))
    ensures InOrder(Plug(c.up, Turned(c, t, x, a, y, l, r))) == InOrder(Plug(c, t))
  {
    var s, far := c.side, Mk(c.side, l, y, yr, r);
    assert InOrder(far) == InOrder(Mk(s, l, y, false, r));
    Reassociate(InOrder(t), c.x, InOrder(a), x, InOrder(far));
    Reassociate(InOrder(far), x, InOrder(a), c.x, InOrder(t));
    SameOrder(c.up, Mk(s, t, c.x, c.red, c.sib), Turned(c, t, x, a, y, l, r));
  }

  /** From pointers ready for case 4 to the repaired tree. */
  lemma EraseTurn(m: Mem, m': Mem, rt: Node?, rt': Node?, c: Ctx, t: Tree,
                  x: Node, xr: bool, a: Tree, y: Node, yr: bool, l: Tree, r: Tree, h: int, b: int, order: seq<Node>)
    requires c.Hole? && Case4Ready(m, rt, c.up, c.x, c.side, t, x, a, y, l, r) && m[c.x].red == c.red
    requires CtxOk(c, h, b) && Good(t, h - 1)
    requires Good(a, h - 1) && Good(l, h - 1) && Good(r, h - 1)
    requires InOrder(c.sib) == InOrder(Mk(c.side, a, x, xr, Mk(c.side, l, y, yr, r)))
    requires InOrder(Plug(c, t)) == order && NoDup(order) && c.x != x
    requires m' == ParentsRotated(Case4Links(m, c.side, c.x, x, y), c.x, x, false)
    requires rt' == if m[c.x].parent == null then x else rt
    ensures Repaired(m', rt', Plug(c.up, Turned(c, t, x, a, y, l, r)), order)
  {
    var s, p := c.side, c.x;
    TurnedApart(c, t, x, xr, a, y, yr, l, r);
    RootPointer(m, a, m[x].Kid(s), x);
    Case4Holds(m, rt, s, p, x, y);
    Case4At(m, m', rt, rt', c.up, p, s, t, x, a, y, l, r);
    TurnedShape(c, t, x, a, y, l, r, h, b);
    TurnedOrder(c, t, x, xr, a, y, yr, l, r);
    PlugRep(m', rt', c.up, Turned(c, t, x, a, y, l, r), x);
  }

  lemma TurnedApart(c: Ctx, t: Tree, x: Node, xr: bool, a: Tree, y: Node, yr: bool, l: Tree, r: Tree)
    requires c.Hole? && InOrder(c.sib) == InOrder(Mk(c.side, a, x, xr, Mk(c.side, l, y, yr, r)))
    requires NoDup(InOrder(Plug(c, t)))
    ensures Apart4(c.up, c.x, t, x, a, y, l, r)
  {
    var s, sib := c.side, Mk(c.side, a, x, xr, Mk(c.side, l, y, yr, r));
    SameOrder(c.up, Mk(s, t, c.x, c.red, c.sib), Mk(s, t, c.x, c.red, sib));
    Distinct4(c.up, c.x, c.red, s, t, x, xr, a, y, yr, l, r);
  }

  /** A red outer nephew: case 4 at once. */
  lemma EraseOuter(m: Mem, m': Mem, rt: Node?, rt': Node?, c: Ctx, t: Tree, n: Node?, h: int, b: int, order: seq<Node>)
    requires EraseInv(m, rt, c, t, n, h, b, order) && c.sib.T? && !c.sib.red && IsRed(Sub(c.sib, Other(c.side)))
    requires c.x in m && c.sib.x in m && Sub(c.sib, Other(c.side)).x in m && c.x != c.sib.x
    requires m' == ParentsRotated(Case4Links(m, c.side, c.x, c.sib.x, Sub(c.sib, Other(c.side)).x), c.x, c.sib.x, false)
    requires rt' == if m[c.x].parent == null then c.sib.x else rt
    ensures var s, z := c.side, c.sib; var far := Sub(z, Other(s));
      Repaired(m', rt', Plug(c.up, Turned(c, t, z.x, Sub(z, s), far.x, Sub(far, s), Sub(far, Other(s)))), order)
  {
    var s, z := c.side, c.sib;
    var a, far := Sub(z, s), Sub(z, Other(s));
    var l, r := Sub(far, s), Sub(far, Other(s));
    EraseReads(m, rt, c, t, n, h, b, order);
    assert NephewRead(m, z, Other(s));
    assert CtxRep(m, rt, c.up, c.x);
    assert far == Mk(s, l, far.x, true, r) && z == Mk(s, a, z.x, false, far);
    OpenMk(m, s, a, z.x, false, far, z.x, c.x);
    OpenMk(m, s, l, far.x, true, r, far.x, z.x);
    GoodKid(z, h, s);
    GoodKid(z, h, Other(s));
    GoodKid(far, h - 1, s);
    GoodKid(far, h - 1, Other(s));
    EraseTurn(m, m', rt, rt', c, t, z.x, false, a, far.x, true, l, r, h, b, order);
  }

  /** The pointers around a red inner nephew. */
  lemma OpenNear(m: Mem, rt: Node?, c: Ctx, t: Tree, n: Node?, h: int, b: int, order: seq<Node>)
    requires EraseInv(m, rt, c, t, n, h, b, order) && c.sib.T? && !c.sib.red && IsRed(Sub(c.sib, c.side))
    ensures var s, p, z := c.side, c.x, c.sib; var near := Sub(z, s);
      && p in m && z.x in m && near.x in m && m[p].parent == Above(c.up) && m[p].red == c.red && CtxRep(m, rt, c.up, p)
      && (c.up.Hole? ==> c.up.x in m) && Rep(m, t, m[p].Kid(s), p) && !IsRed(Sub(near, Other(s)))
      && Rep(m, Sub(near, s), m[near.x].Kid(s), near.x) && Rep(m, Sub(near, Other(s)), m[near.x].Kid(Other(s)), near.x)
      && Rep(m, Sub(z, Other(s)), m[z.x].Kid(Other(s)), z.x)
  {
    var s, p, z := c.side, c.x, c.sib;
    var near, r := Sub(z, s), Sub(z, Other(s));
    var a, l := Sub(near, s), Sub(near, Other(s));
    EraseReads(m, rt, c, t, n, h, b, order);
    assert near == Mk(s, a, near.x, true, l) && z == Mk(s, near, z.x, false, r);
    OpenMk(m, s, near, z.x, false, r, z.x, p);
    OpenMk(m, s, a, near.x, true, l, near.x, z.x);
    GoodKid(z, h, s);
    GoodKid(near, h - 1, Other(s));
  }

  /** The pointers between cases 3 and 4. */
  lemma EraseMiddle(m: Mem, m1: Mem, rt: Node?, c: Ctx, t: Tree, n: Node?, h: int, b: int, order: seq<Node>)
    requires EraseInv(m, rt, c, t, n, h, b, order) && c.sib.T? && !c.sib.red && IsRed(Sub(c.sib, c.side))
    requires c.x in m && c.sib.x in m && Sub(c.sib, c.side).x in m
    requires m1 == Case3Mem(m, c.side, c.x, c.sib.x, Sub(c.sib, c.side).x)
    ensures var s, z := c.side, c.sib; var near := Sub(z, s);
      && c.x != near.x && c.x in m1 && m1[c.x].red == c.red && m1[c.x].parent == m[c.x].parent
      && Case4Ready(m1, rt, c.up, c.x, s, t, near.x, Sub(near, s), z.x, Sub(near, Other(s)), Sub(z, Other(s)))
  {
    var s, p, z := c.side, c.x, c.sib;
    var near, r := Sub(z, s), Sub(z, Other(s));
    var a, l := Sub(near, s), Sub(near, Other(s));
    OpenNear(m, rt, c, t, n, h, b, order);
    SiblingOrder(c);
    TurnedApart(c, t, near.x, true, a, z.x, false, l, r);
    RootPointer(m, l, m[near.x].Kid(Other(s)), near.x);
    Case3Holds(m, s, p, z.x, near.x);
    Case3Below(m, m1, c.up, p, s, t, near.x, a, z.x, l, r);
    Case3Above(m, m1, rt, c.up, p, s, t, near.x, a, z.x, l, r);
  }

  lemma SiblingOrder(c: Ctx)
    requires c.Hole? && c.sib.T? && Sub(c.sib, c.side).T?
    ensures var s, z := c.side, c.sib; var near := Sub(z, s);
      InOrder(z) == InOrder(Mk(s, Sub(near, s), near.x, true, Mk(s, Sub(near, Other(s)), z.x, false, Sub(z, Other(s)))))
  {
    var s, z := c.side, c.sib;
    var near, r := Sub(z, s), Sub(z, Other(s));
    var a, l := Sub(near, s), Sub(near, Other(s));
    Reassociate(InOrder(a), near.x, InOrder(l), z.x, InOrder(r));
    Reassociate(InOrder(r), z.x, InOrder(l), near.x, InOrder(a));
  }

  /** Only the inner nephew is red: case 3 and then case 4. */
  lemma EraseInner(m: Mem, m1: Mem, m': Mem, rt: Node?, rt': Node?, c: Ctx, t: Tree, n: Node?, h: int, b: int,
                   order: seq<Node>)
    requires EraseInv(m, rt, c, t, n, h, b, order) && c.sib.T? && !c.sib.red && IsRed(Sub(c.sib, c.side))
    requires c.x in m && c.sib.x in m && Sub(c.sib, c.side).x in m && c.x != Sub(c.sib, c.side).x
    requires m1 == Case3Mem(m, c.side, c.x, c.sib.x, Sub(c.sib, c.side).x)
    requires m' == ParentsRotated(Case4Links(m1, c.side, c.x, Sub(c.sib, c.side).x, c.sib.x),
                                  c.x, Sub(c.sib, c.side).x, false)
    requires rt' == if m[c.x].parent == null then Sub(c.sib, c.side).x else rt
    requires !IsRed(Sub(c.sib, Other(c.side)))
    ensures var s, z := c.side, c.sib; var near := Sub(z, s);
      Repaired(m', rt', Plug(c.up, Turned(c, t, near.x, Sub(near, s), z.x, Sub(near, Other(s)), Sub(z, Other(s)))),
               order)
  {
    var s, z := c.side, c.sib;
    var near := Sub(z, s);
    EraseMiddle(m, m1, rt, c, t, n, h, b, order);
    SiblingOrder(c);
    GoodKid(z, h, s);
    GoodKid(z, h, Other(s));
    GoodKid(near, h - 1, s);
    GoodKid(near, h - 1, Other(s));
    EraseTurn(m1, m', rt, rt', c, t, near.x, true, Sub(near, s), z.x, false, Sub(near, Other(s)), Sub(z, Other(s)),
              h, b, order);
  }

  // ---------- the writes ----------

  /** Case 3's writes. */
  method RotateSibling(parent: Node, sibling: Node, x: Node, s: Side, ghost m: Mem) returns (ghost m': Mem)
    requires Matches(m) && parent in m && sibling in m && x in m
    requires x != sibling && (m[x].Kid(Other(s)) != null ==> m[x].Kid(Other(s)) in m)
    modifies m.Keys`left, m.Keys`right, m.Keys`parent, m.Keys`red
    ensures Matches(m') && m' == Case3Mem(m, s, parent, sibling, x)
  {
    var tmp1 := GetKid(x, Other(s), m);
    m' := SetKid(sibling, s, tmp1, m);
    m' := SetKid(x, Other(s), sibling, m');
    m' := SetKid(parent, Other(s), x, m');
    m' := SetBlackIfPresent(tmp1, sibling, m');
  }

  method SetParentIfPresent(n: Node?, p: Node, ghost m: Mem) returns (ghost m': Mem)
    requires Matches(m) && (n != null ==> n in m)
    modifies (if n == null then {} else {n})`parent
    ensures m' == Adopt(m, n, p) && Matches(m')
  {
    m' := m;
    if n != null {
      n.parent := p;
      m' := m[n := m[n].(parent := p)];
    }
  }

  /** Case 4's writes up to the call of __rb_rotate_set_parents. */
  method RelinkParent(parent: Node, sibling: Node, tmp1: Node, s: Side, ghost m: Mem) returns (ghost m': Mem)
    requires Matches(m) && parent in m && sibling in m && tmp1 in m && parent != sibling
    requires m[sibling].Kid(s) != null ==> m[sibling].Kid(s) in m
    modifies m.Keys`left, m.Keys`right, m.Keys`parent, m.Keys`red
    ensures Matches(m') && m' == Case4Links(m, s, parent, sibling, tmp1)
  {
    var tmp2 := GetKid(sibling, s, m);
    m' := SetKid(parent, Other(s), tmp2, m);
    m' := SetKid(sibling, s, parent, m');
    m' := SetParentColor(tmp1, sibling, false, m');
    m' := SetParentIfPresent(tmp2, parent, m');
  }

  lemma LinksKeepParent(m: Mem, s: Side, p: Node, x: Node, y: Node)
    requires p in m && x in m && y in m && p != x && p != y && m[x].Kid(s) != p
    ensures Case4Links(m, s, p, x, y)[p].parent == m[p].parent
  {
  }

  method RotateParent(parent: Node, sibling: Node, tmp1: Node, s: Side, root: Root, ghost m: Mem)
    returns (ghost m': Mem)
    requires Matches(m) && parent in m && sibling in m && tmp1 in m && parent != sibling && parent != tmp1
    requires m[sibling].Kid(s) != null ==> m[sibling].Kid(s) in m && m[sibling].Kid(s) != parent
    requires m[parent].parent != null ==> m[parent].parent in m
    modifies root`node, m.Keys`left, m.Keys`right, m.Keys`parent, m.Keys`red
    ensures Matches(m') && m' == ParentsRotated(Case4Links(m, s, parent, sibling, tmp1), parent, sibling, false)
    ensures root.node == if m[parent].parent == null then sibling else old(root.node)
  {
    LinksKeepParent(m, s, parent, sibling, tmp1);
    m' := RelinkParent(parent, sibling, tmp1, s, m);
    m' := RotateSetParents(parent, sibling, root, false, m');
  }

  /** Case 2's writes. */
  method FlipSibling(parent: Node, sibling: Node, ghost m: Mem) returns (wasRed: bool, ghost m': Mem)
    requires Matches(m) && parent in m && sibling in m && parent != sibling
    modifies m.Keys`left, m.Keys`right, m.Keys`parent, m.Keys`red
    ensures Matches(m') && m'.Keys == m.Keys && wasRed == m[parent].red
    ensures m' == m[sibling := m[sibling].(parent := parent, red := true)][parent := m[parent].(red := false)]
  {
    m' := SetParentColor(sibling, parent, true, m);
    wasRed := parent.red;
    if wasRed {
      parent.red := false;
    }
    m' := m'[parent := m[parent].(red := false)];
  }

  // ---------- ____rb_erase_color ----------

  /** Case 4 alone. */
  method TurnOuter(parent: Node, sibling: Node, tmp1: Node, s: Side, root: Root,
                   ghost m0: Mem, ghost c: Ctx, ghost t: Tree, ghost n: Node?, ghost h: int, ghost b: int,
                   ghost order: seq<Node>)
    returns (ghost m: Mem, ghost tree: Tree)
    requires Matches(m0) && EraseInv(m0, root.node, c, t, n, h, b, order)
    requires parent == c.x && s == c.side && c.sib.T? && sibling == c.sib.x && !c.sib.red
    requires IsRed(Sub(c.sib, Other(s))) && tmp1 == Sub(c.sib, Other(s)).x
    modifies root`node, m0.Keys`left, m0.Keys`right, m0.Keys`parent, m0.Keys`red
    ensures Matches(m) && m.Keys == m0.Keys && Repaired(m, root.node, tree, order)
  {
    ghost var rt := root.node;
    EraseReads(m0, rt, c, t, n, h, b, order);
    assert NephewRead(m0, c.sib, Other(s)) && NephewRead(m0, c.sib, s);
    m := RotateParent(parent, sibling, tmp1, s, root, m0);
    EraseOuter(m0, m, rt, root.node, c, t, n, h, b, order);
    ghost var far := Sub(c.sib, Other(s));
    tree := Plug(c.up, Turned(c, t, sibling, Sub(c.sib, s), tmp1, Sub(far, s), Sub(far, Other(s))));
  }

  /** What cases 3 and 4 read of the red inner nephew. */
  lemma InnerReads(m: Mem, m1: Mem, rt: Node?, c: Ctx, t: Tree, n: Node?, h: int, b: int, order: seq<Node>)
    requires EraseInv(m, rt, c, t, n, h, b, order) && c.sib.T? && !c.sib.red && IsRed(Sub(c.sib, c.side))
    requires c.x in m && c.sib.x in m && Sub(c.sib, c.side).x in m
    requires m1 == Case3Mem(m, c.side, c.x, c.sib.x, Sub(c.sib, c.side).x)
    ensures c.x in m1 && m1[c.x].parent == m[c.x].parent && m1.Keys == m.Keys && c.x != Sub(c.sib, c.side).x
    ensures var x := Sub(c.sib, c.side).x; m1[x].Kid(c.side) != null ==>
      m1[x].Kid(c.side) in m1 && m1[x].Kid(c.side) != c.x
  {
    EraseMiddle(m, m1, rt, c, t, n, h, b, order);
    var near := Sub(c.sib, c.side);
    RootPointer(m1, Sub(near, c.side), m1[near.x].Kid(c.side), near.x);
  }

  lemma NearRead(m: Mem, rt: Node?, c: Ctx, t: Tree, n: Node?, h: int, b: int, order: seq<Node>)
    requires EraseInv(m, rt, c, t, n, h, b, order) && c.sib.T? && IsRed(Sub(c.sib, c.side))
    ensures var x := Sub(c.sib, c.side).x;
      x in m && x != c.sib.x && (m[x].Kid(Other(c.side)) != null ==> m[x].Kid(Other(c.side)) in m)
  {
    var near := Sub(c.sib, c.side);
    EraseReads(m, rt, c, t, n, h, b, order);
    assert NephewRead(m, c.sib, c.side);
    DistinctParts(c, t);
    OpenMk(m, c.side, near, c.sib.x, c.sib.red, Sub(c.sib, Other(c.side)), c.sib.x, c.x);
    OpenMk(m, c.side, Sub(near, c.side), near.x, true, Sub(near, Other(c.side)), near.x, c.sib.x);
    RootPointer(m, Sub(near, Other(c.side)), m[near.x].Kid(Other(c.side)), near.x);
  }

  /** Cases 3 and 4. */
  method TurnInner(parent: Node, sibling: Node, tmp2: Node, s: Side, root: Root,
                   ghost m0: Mem, ghost c: Ctx, ghost t: Tree, ghost n: Node?, ghost h: int, ghost b: int,
                   ghost order: seq<Node>)
    returns (ghost m: Mem, ghost tree: Tree)
    requires Matches(m0) && EraseInv(m0, root.node, c, t, n, h, b, order)
    requires parent == c.x && s == c.side && c.sib.T? && sibling == c.sib.x && !c.sib.red
    requires IsRed(Sub(c.sib, s)) && tmp2 == Sub(c.sib, s).x && !IsRed(Sub(c.sib, Other(s)))
    modifies root`node, m0.Keys`left, m0.Keys`right, m0.Keys`parent, m0.Keys`red
    ensures Matches(m) && m.Keys == m0.Keys && Repaired(m, root.node, tree, order)
  {
    ghost var rt := root.node;
    EraseReads(m0, rt, c, t, n, h, b, order);
    NearRead(m0, rt, c, t, n, h, b, order);
    ghost var m1 := RotateSibling(parent, sibling, tmp2, s, m0);
    InnerReads(m0, m1, rt, c, t, n, h, b, order);
    m := RotateParent(parent, tmp2, sibling, s, root, m1);
    EraseInner(m0, m1, m, rt, root.node, c, t, n, h, b, order);
    ghost var near := Sub(c.sib, s);
    tree := Plug(c.up, Turned(c, t, tmp2, Sub(near, s), sibling, Sub(near, Other(s)), Sub(c.sib, Other(s))));
  }

  /** Case 2. */
  method Flip(parent0: Node, sibling: Node, root: Root,
              ghost m0: Mem, ghost c: Ctx, ghost t: Tree, ghost n: Node?, ghost h: int, ghost b: int,
              ghost order: seq<Node>)
    returns (done: bool, parent: Node?, ghost m: Mem)
    requires Matches(m0) && EraseInv(m0, root.node, c, t, n, h, b, order)
    requires parent0 == c.x && c.sib.T? && sibling == c.sib.x && !c.sib.red && !IsRed(c.sib.left) && !IsRed(c.sib.right)
    modifies m0.Keys`left, m0.Keys`right, m0.Keys`parent, m0.Keys`red
    ensures Matches(m) && m.Keys == m0.Keys
    ensures done ==> Repaired(m, root.node, Plug(c.up, Recolored(c, t)), order)
    ensures !done ==> c.up.Hole? && !c.red && parent == c.up.x
    ensures !done ==> EraseInv(m, root.node, c.up, Recolored(c, t), c.x, h + 1, b, order)
  {
    EraseReads(m0, root.node, c, t, n, h, b, order);
    done, parent := true, parent0;
    var wasRed;
    wasRed, m := FlipSibling(parent0, sibling, m0);
    EraseRecolor(m0, m, root.node, c, t, n, h, b, order);
    if !wasRed {
      parent := parent0.parent;
      done := parent == null;
    }
  }

  /** Cases 2 to 4: the sibling is black. */
  method BlackSibling(parent0: Node, sibling: Node, s: Side, root: Root,
                      ghost m0: Mem, ghost c0: Ctx, ghost t0: Tree, ghost n0: Node?, ghost h0: int, ghost b: int,
                      ghost order: seq<Node>)
    returns (done: bool, parent: Node?, ghost m: Mem, ghost t: Tree, ghost tree: Tree)
    requires Matches(m0) && EraseInv(m0, root.node, c0, t0, n0, h0, b, order)
    requires parent0 == c0.x && s == c0.side && c0.sib.T? && sibling == c0.sib.x && !c0.sib.red
    modifies root`node, m0.Keys`left, m0.Keys`right, m0.Keys`parent, m0.Keys`red
    ensures Matches(m) && m.Keys == m0.Keys
    ensures done ==> Repaired(m, root.node, tree, order)
    ensures !done ==> c0.up.Hole? && !c0.red && parent == c0.up.x
    ensures !done ==> EraseInv(m, root.node, c0.up, t, c0.x, h0 + 1, b, order)
  {
    EraseReads(m0, root.node, c0, t0, n0, h0, b, order);
    assert NephewRead(m0, c0.sib, Other(s)) && NephewRead(m0, c0.sib, s);
    done, parent, t, tree := true, parent0, t0, Leaf;
    var tmp1 := GetKid(sibling, Other(s), m0);
    if tmp1 == null || !tmp1.red {
      var tmp2 := GetKid(sibling, s, m0);
      if tmp2 == null || !tmp2.red {
        done, parent, m := Flip(parent0, sibling, root, m0, c0, t0, n0, h0, b, order);
        t, tree := Recolored(c0, t0), Plug(c0.up, Recolored(c0, t0));
      } else {
        m, tree := TurnInner(parent0, sibling, tmp2, s, root, m0, c0, t0, n0, h0, b, order);
      }
    } else {
      m, tree := TurnOuter(parent0, sibling, tmp1, s, root, m0, c0, t0, n0, h0, b, order);
    }
  }

  /** The body of the loop for a hole on side s of parent0; the source writes it out once for each
      side. */
  method EraseStep(parent0: Node, s: Side, root: Root,
                   ghost m0: Mem, ghost c0: Ctx, ghost t0: Tree, ghost n0: Node?, ghost h0: int, ghost b: int,
                   ghost order: seq<Node>)
    returns (done: bool, parent: Node?, ghost m: Mem, ghost t: Tree, ghost tree: Tree)
    requires Matches(m0) && EraseInv(m0, root.node, c0, t0, n0, h0, b, order) && parent0 == c0.x && s == c0.side
    modifies root`node, m0.Keys`left, m0.Keys`right, m0.Keys`parent, m0.Keys`red
    ensures Matches(m) && m.Keys == m0.Keys
    ensures done ==> Repaired(m, root.node, tree, order)
    ensures !done ==> c0.up.Hole? && parent == c0.up.x && EraseInv(m, root.node, c0.up, t, c0.x, h0 + 1, b, order)
  {
    EraseReads(m0, root.node, c0, t0, n0, h0, b, order);
    ghost var rt := root.node;
    ghost var c := c0;
    m := m0;
    var sibling := GetKid(parent0, Other(s), m0);
    if sibling.red {
      SiblingExists(c0, t0, h0, b);
      assert NephewRead(m0, c0.sib, s);
      var tmp1 := GetKid(sibling, s, m0);
      m := RotateOuter(parent0, sibling, root, Other(s), m0);
      EraseRotate(m0, m, rt, root.node, c0, t0, n0, h0, b, order);
      c := Rotated(c0);
      sibling := tmp1;
    }
    done, parent, m, t, tree := BlackSibling(parent0, sibling, s, root, m, c, t0, n0, h0, b, order);
  }

  /** ____rb_erase_color. Called below an empty place whose paths lack one black node in an
      otherwise red-black tree, it terminates with a red-black tree of the same nodes in the same
      order, all links and colours in place. */
  method EraseColor(parent0: Node, root: Root, ghost m0: Mem, ghost c0: Ctx) returns (ghost m: Mem, ghost tree: Tree)
    requires Matches(m0) && c0.Hole? && parent0 == c0.x && At(m0, root.node, c0, Leaf, null)
    requires exists b :: CtxOk(c0, 1, b)
    requires NoDup(InOrder(Plug(c0, Leaf)))
    modifies root`node, m0.Keys`left, m0.Keys`right, m0.Keys`parent, m0.Keys`red
    ensures Matches(m) && m.Keys == m0.Keys
    ensures IsTree(m, root.node, tree) && RedBlack(tree) && InOrder(tree) == InOrder(Plug(c0, Leaf))
  {
    ghost var b :| CtxOk(c0, 1, b);
    ghost var c, t, h := c0, Leaf, 1;
    ghost var order := InOrder(Plug(c0, Leaf));
    m := m0;
    var node: Node?, parent := null, parent0;
    while true
      invariant Matches(m) && m.Keys == m0.Keys
      invariant EraseInv(m, root.node, c, t, node, h, b, order) && parent == c.x
      decreases c
    {
      EraseReads(m, root.node, c, t, node, h, b, order);
      var sibling := parent.right;
      var done, up;
      ghost var above := c.up;
      if node != sibling {
        done, up, m, t, tree := EraseStep(parent, Left, root, m, c, t, node, h, b, order);
      } else {
        done, up, m, t, tree := EraseStep(parent, Right, root, m, c, t, node, h, b, order);
      }
      if done { return; }
      node, parent := parent, up;
      c, h := above, h + 1;
    }
  }

  /** Where a black leaf was taken out of a red-black tree, the paths lack one black node. */
  lemma RemovedLeaf(c: Ctx, x: Node)
    requires c.Hole? && RedBlack(Plug(c, T(Leaf, x, false, Leaf)))
    ensures exists b :: CtxOk(c, 1, b)
  {
    var h, b := UnplugRedBlack(c, T(Leaf, x, false, Leaf));
    assert Blacks(Leaf, h - 1);
  }
}

/** menu_finalize (kconf/menu.c): automatic submenus and the flattening of ifs. */
module MenuFinalize {
  import opened KconfigExpr
  import opened MenuDeps
  import opened MenuTree

  /** The state of the loops over the level below x: ch is done, rest from e on is not. */
  predicate Below(m: Mem, x: Entry, ch: Chain, rest: Forest, e: Entry?, after: Forest, p: Entry?) {
    && x in m && m[x].parent == p && Rep(m, after, m[x].next, p)
    && ChainRep(m, ch, m[x].list, x, e) && Rep(m, rest, e, x)
  }

  function Order(x: Entry, ch: Chain, rest: Forest, after: Forest): seq<Entry> {
    [x] + PreC(ch) + Pre(rest) + Pre(after)
  }

  lemma OrderApart(x: Entry, ch: Chain, rest: Forest, after: Forest)
    requires NoDup(Order(x, ch, rest, after))
    ensures NoDup(Pre(rest)) && x !in PreC(ch) && x !in Pre(rest) && x !in Pre(after)
    ensures Apart(PreC(ch), Pre(rest)) && Apart(PreC(ch), Pre(after)) && Apart(Pre(rest), Pre(after))
  {
    NoDupSplit([x] + PreC(ch) + Pre(rest), Pre(after));
    NoDupSplit([x] + PreC(ch), Pre(rest));
    NoDupSplit([x], PreC(ch));
    assert x in [x] + PreC(ch) && x in [x] + PreC(ch) + Pre(rest);
  }

  predicate SameDeps(was: Fields, now: Fields) {
    now.dep == was.dep && now.visible == was.visible && now.props == was.props
  }

  /** Only links changed. */
  predicate KeepsDeps(m: Mem, m': Mem) { forall y :: y in m ==> y in m' && SameDeps(m[y], m'[y]) }

  /** Nothing but the given nodes changed. */
  ghost predicate OnlyIn(m: Mem, m': Mem, q: seq<Entry>) {
    m'.Keys == m.Keys && forall y :: y in m && y !in q ==> m'[y] == m[y]
  }

  /** Only links changed, and only of the given nodes. */
  ghost predicate LinksOnly(m: Mem, m': Mem, q: seq<Entry>) { OnlyIn(m, m', q) && KeepsDeps(m, m') }

  lemma LinkChange(m: Mem, m1: Mem, m': Mem, q: seq<Entry>, y: Entry)
    requires LinksOnly(m, m1, q) && y in q && y in m1 && y in m' && m' == m1[y := m'[y]] && SameDeps(m1[y], m'[y])
    ensures LinksOnly(m, m', q)
  {
  }

  /** One node of the level below x was replaced, with what follows it. */
  lemma KidStep(m: Mem, m': Mem, x: Entry, ch: Chain, rest: Forest, c: Entry, l': Forest, n': Forest, after: Forest,
                p: Entry?)
    requires Below(m, x, ch, rest, c, after, p) && NoDup(Order(x, ch, rest, after))
    requires OnlyIn(m, m', Pre(rest)) && Rep(m', Menu(c, l', n'), c, x) && Pre(Menu(c, l', n')) == Pre(rest)
    ensures Below(m', x, Then(ch, c, l'), n', m'[c].next, after, p)
    ensures Order(x, Then(ch, c, l'), n', after) == Order(x, ch, rest, after)
    ensures PreC(Then(ch, c, l')) + Pre(n') == PreC(ch) + Pre(rest)
  {
    Assoc(PreC(ch), [c] + Pre(l'), Pre(n'));
    OrderApart(x, ch, rest, after);
    RepFrame(m, m', after, m[x].next, p);
    ChainFrame(m, m', ch, m[x].list, x, c);
    OrderStep(x, ch, c, l', n', after);
  }

  lemma OrderStep(x: Entry, ch: Chain, c: Entry, l: Forest, n: Forest, after: Forest)
    ensures Order(x, Then(ch, c, l), n, after) == Order(x, ch, Menu(c, l, n), after)
  {
    Regroup([x], PreC(ch), [c] + Pre(l), Pre(n));
  }

  lemma Regroup(a: seq<Entry>, b: seq<Entry>, c: seq<Entry>, d: seq<Entry>)
    ensures a + (b + c) + d == a + b + (c + d)
  {
  }

  lemma HeadApart(c: Entry, l: Forest, n: Forest)
    requires NoDup(Pre(Menu(c, l, n)))
    ensures c in Pre(Menu(c, l, n)) && c !in Pre(l) && c !in Pre(n) && Apart(Pre(l), Pre(n))
    ensures NoDup(Pre(l)) && NoDup(Pre(n))
  {
    NoDupSplit([c] + Pre(l), Pre(n));
    NoDupSplit([c], Pre(l));
    assert c in [c] + Pre(l);
  }

  // ---------- automatic submenus ----------

  /** The state of the loop over the nodes after x: ch is already below x, but not yet linked. */
  predicate Beside(m: Mem, x: Entry, ch: Chain, rest: Forest, e: Entry?, p: Entry?) {
    && x in m && m[x].parent == p && m[x].list == null
    && ChainRep(m, ch, m[x].next, x, e) && Rep(m, rest, e, p)
  }

  lemma TakeStep(m: Mem, m1: Mem, m': Mem, x: Entry, ch: Chain, rest: Forest, c: Entry, l': Forest, n': Forest,
                 p: Entry?)
    requires Beside(m, x, ch, rest, c, p) && NoDup(Order(x, ch, rest, Nil))
    requires OnlyIn(m, m1, Pre(rest)) && Rep(m1, Menu(c, l', n'), c, p) && Pre(Menu(c, l', n')) == Pre(rest)
    requires c in m1 && m' == m1[c := m1[c].(parent := x)]
    ensures Beside(m', x, Then(ch, c, l'), n', m'[c].next, p) && OnlyIn(m, m', Pre(rest))
    ensures Order(x, Then(ch, c, l'), n', Nil) == Order(x, ch, rest, Nil)
    ensures PreC(Then(ch, c, l')) + Pre(n') == PreC(ch) + Pre(rest)
  {
    Assoc(PreC(ch), [c] + Pre(l'), Pre(n'));
    OrderApart(x, ch, rest, Nil);
    OrderStep(x, ch, c, l', n', Nil);
    HeadApart(c, l', n');
    ChainFrame(m, m', ch, m[x].next, x, c);
    RepFrame(m1, m', l', m1[c].list, c);
    RepFrame(m1, m', n', m1[c].next, p);
  }

  /** The nodes taken are linked in below x. */
  lemma LinkStep(m: Mem, m': Mem, x: Entry, ch: Chain, rest: Forest, e: Entry?, p: Entry?)
    requires ch.Then? && Beside(m, x, ch, rest, e, p) && NoDup(Order(x, ch, rest, Nil))
    requires ch.x in m && m' == m[x := m[x].(list := m[x].next, next := e)][ch.x := m[ch.x].(next := null)]
    ensures Rep(m', Menu(x, Join(ch, Nil), rest), x, p)
  {
    LinkNoDup(x, ch, rest);
    RepFrame(m, m', rest, e, p);
    RepFrame(m, m', ch.list, m[ch.x].list, ch.x);
    ChainFrame(m, m', ch.prev, m[x].next, x, ch.x);
    JoinRep(m', ch, Nil, m'[x].list, x, null);
  }

  lemma LinkNoDup(x: Entry, ch: Chain, rest: Forest)
    requires ch.Then? && NoDup(Order(x, ch, rest, Nil))
    ensures ch.x !in Pre(rest) && ch.x !in Pre(ch.list) && ch.x !in PreC(ch.prev) && x != ch.x
    ensures x !in Pre(rest) && x !in Pre(ch.list) && x !in PreC(ch.prev)
  {
    OrderApart(x, ch, rest, Nil);
    assert ch.x in PreC(ch) && ch.x in [ch.x] + Pre(ch.list);
    ChainNoDup(x, ch, rest);
    NoDupSplit(PreC(ch.prev), [ch.x] + Pre(ch.list));
    NoDupSplit([ch.x], Pre(ch.list));
  }

  lemma ChainNoDup(x: Entry, ch: Chain, rest: Forest)
    requires NoDup(Order(x, ch, rest, Nil))
    ensures NoDup(PreC(ch))
  {
    NoDupSplit([x] + PreC(ch) + Pre(rest), []);
    NoDupSplit([x] + PreC(ch), Pre(rest));
    NoDupSplit([x], PreC(ch));
  }

  // ---------- flattening ----------

  /** The state of the loop that moves the level below c up one level, to x. */
  predicate Lifting(m: Mem, c: Entry, ch: Chain, rest: Forest, e: Entry?, after: Forest, x: Entry) {
    && c in m && m[c].parent == x && Rep(m, after, m[c].next, x)
    && ChainRep(m, ch, m[c].list, x, e) && Rep(m, rest, e, c)
  }

  lemma LiftStep(m: Mem, m': Mem, c: Entry, ch: Chain, rest: Forest, after: Forest, x: Entry)
    requires rest.Menu? && Lifting(m, c, ch, rest, rest.x, after, x) && NoDup(Order(c, ch, rest, after))
    requires rest.x in m && m' == m[rest.x := m[rest.x].(parent := x)]
    ensures Lifting(m', c, Then(ch, rest.x, rest.list), rest.next, m[rest.x].next, after, x)
    ensures Order(c, Then(ch, rest.x, rest.list), rest.next, after) == Order(c, ch, rest, after)
    ensures rest.x in Order(c, ch, rest, after)
  {
    OrderApart(c, ch, rest, after);
    HeadApart(rest.x, rest.list, rest.next);
    OrderStep(c, ch, rest.x, rest.list, rest.next, after);
    RepFrame(m, m', after, m[c].next, x);
    ChainFrame(m, m', ch, m[c].list, x, rest.x);
    RepFrame(m, m', rest.list, m[rest.x].list, rest.x);
    RepFrame(m, m', rest.next, m[rest.x].next, c);
  }

  lemma SpliceStep(m: Mem, m': Mem, c: Entry, ch: Chain, after: Forest, x: Entry)
    requires ch.Then? && Lifting(m, c, ch, Nil, null, after, x) && NoDup(Order(c, ch, Nil, after))
    requires ch.x in m && m' == m[ch.x := m[ch.x].(next := m[c].next)][c := m[c].(next := m[c].list, list := null)]
    ensures Rep(m', Menu(c, Nil, Join(ch, after)), c, x)
  {
    MoveNil(c, ch, after);
    LinkNoDup(c, ch, after);
    RepFrame(m, m', after, m[c].next, x);
    RepFrame(m, m', ch.list, m[ch.x].list, ch.x);
    ChainFrame(m, m', ch.prev, m[c].list, x, ch.x);
    JoinRep(m', ch, after, m[c].list, x, m[c].next);
  }

  lemma MoveNil(c: Entry, ch: Chain, after: Forest)
    ensures Order(c, ch, Nil, after) == Order(c, ch, after, Nil)
  {
    assert Pre(Nil) == [];
  }

  lemma SpliceOrder(c: Entry, ch: Chain, after: Forest)
    requires ch.Then?
    ensures Pre(Menu(c, Nil, Join(ch, after))) == Order(c, ch, Nil, after)
    ensures c in Order(c, ch, Nil, after) && ch.x in Order(c, ch, Nil, after)
  {
    JoinPre(ch, after);
    NilBetween([c], PreC(ch), Pre(after));
    assert ch.x in PreC(ch.prev) + ([ch.x] + Pre(ch.list));
  }

  lemma NilBetween(a: seq<Entry>, b: seq<Entry>, d: seq<Entry>)
    ensures a + [] + (b + d) == a + b + [] + d
  {
  }

  lemma OnlyInTrans(m0: Mem, m: Mem, m': Mem, q: seq<Entry>, r: seq<Entry>)
    requires OnlyIn(m0, m, q) && OnlyIn(m, m', r) && forall y :: y in r ==> y in q
    ensures OnlyIn(m0, m', q)
  {
  }

  lemma PreIsOrder(x: Entry, l: Forest, n: Forest)
    ensures Pre(Menu(x, l, n)) == Order(x, Start, l, n)
  {
  }

  // ---------- the writes ----------

  method SetNext(x: Entry, n: Entry?, ghost m: Mem) returns (ghost m': Mem)
    requires Matches(m) && x in m
    modifies x`next
    ensures m' == m[x := m[x].(next := n)] && Matches(m')
  {
    x.next := n;
    m' := m[x := m[x].(next := n)];
  }

  method SetParent(x: Entry, p: Entry, ghost m: Mem) returns (ghost m': Mem)
    requires Matches(m) && x in m
    modifies x`parent
    ensures m' == m[x := m[x].(parent := p)] && Matches(m')
  {
    x.parent := p;
    m' := m[x := m[x].(parent := p)];
  }

  method SetList(x: Entry, n: Entry?, ghost m: Mem) returns (ghost m': Mem)
    requires Matches(m) && x in m
    modifies x`list
    ensures m' == m[x := m[x].(list := n)] && Matches(m')
  {
    x.list := n;
    m' := m[x := m[x].(list := n)];
  }

  /** Makes x the parent of every node of the level below c, and returns the last of them. */
  method Lift(c: Entry, x: Entry, ghost m: Mem, ghost l: Forest, ghost after: Forest)
    returns (last: Entry, ghost m': Mem, ghost ch: Chain)
    requires Matches(m) && l.Menu? && Rep(m, Menu(c, l, after), c, x) && NoDup(Order(c, Start, l, after))
    modifies m.Keys`parent
    ensures Matches(m') && LinksOnly(m, m', Order(c, Start, l, after))
    ensures ch.Then? && last == ch.x && Lifting(m', c, ch, Nil, null, after, x)
    ensures Order(c, ch, Nil, after) == Order(c, Start, l, after) && Join(ch, Nil) == l
  {
    m' := m;
    ch := Start;
    ghost var order, rest := Order(c, Start, l, after), l;
    last := c.list;
    while true
      invariant Matches(m') && LinksOnly(m, m', order) && Order(c, ch, rest, after) == order
      invariant rest.Menu? && last == rest.x && Lifting(m', c, ch, rest, last, after, x)
      invariant Join(ch, rest) == l
      decreases rest
    {
      ghost var m1 := m';
      m' := SetParent(last, x, m');
      LiftStep(m1, m', c, ch, rest, after, x);
      LinkChange(m, m1, m', order, rest.x);
      ch, rest := Then(ch, rest.x, rest.list), rest.next;
      if last.next == null { break; }
      last := last.next;
    }
  }

  /** Links what was lifted in after c. */
  method Splice(c: Entry, last: Entry, ghost m: Mem) returns (ghost m': Mem)
    requires Matches(m) && c in m && last in m && c != last
    modifies c`next, c`list, last`next
    ensures Matches(m') && m' == m[last := m[last].(next := m[c].next)][c := m[c].(next := m[c].list, list := null)]
  {
    m' := SetNext(last, c.next, m);
    c.next := c.list;
    c.list := null;
    m' := m'[c := m[c].(next := m[c].list, list := null)];
  }

  /** Moves the level below c, which is below x, up to c's level, right after c. */
  method Flatten(c: Entry, x: Entry, ghost m: Mem, ghost l: Forest, ghost after: Forest)
    returns (ghost m': Mem, ghost n': Forest)
    requires Matches(m) && l.Menu? && Rep(m, Menu(c, l, after), c, x) && NoDup(Pre(Menu(c, l, after)))
    modifies m.Keys`next, m.Keys`parent, m.Keys`list
    ensures Matches(m') && LinksOnly(m, m', Pre(Menu(c, l, after)))
    ensures Rep(m', Menu(c, Nil, n'), c, x) && Pre(Menu(c, Nil, n')) == Pre(Menu(c, l, after))
    ensures n' == Append(l, after)
  {
    PreIsOrder(c, l, after);
    ghost var ch;
    ghost var m1;
    var last;
    last, m1, ch := Lift(c, x, m, l, after);
    MoveNil(c, ch, after);
    LinkNoDup(c, ch, after);
    m' := Splice(c, last, m1);
    SpliceStep(m1, m', c, ch, after, x);
    SpliceOrder(c, ch, after);
    ghost var m2 := m1[last := m1[last].(next := m1[c].next)];
    LinkChange(m, m1, m2, Order(c, Start, l, after), last);
    LinkChange(m, m2, m', Order(c, Start, l, after), c);
    n' := Join(ch, after);
    JoinAppend(ch, after);
  }

  // ---------- dependencies ----------

  /** What a node adds to the dependencies of the nodes below it. */
  function ParentDep(x: Entry, fx: Fields): Option<Expr> {
    if x.sym.Some? && x.choice then Some(Symbol(x.sym.value)) else if x.hasPrompt then fx.visible else fx.dep
  }

  /** The condition of a node's prompt, given the node's dependency and the prompt's own. */
  function PromptDep(x: Entry, dep: Option<Expr>, own: Option<Expr>, modules: Sym): Option<Expr> {
    var d := Propagate(dep, own, modules);
    if x.sym.Some? && TypeOf(x.sym.value) != Tristate then BoolForm(d) else d
  }

  /** A node after the dependency of its parent was added to its own and to its prompt's. */
  predicate Propagated(y: Entry, parentdep: Option<Expr>, was: Fields, now: Fields, modules: Sym) {
    && now.dep == Propagate(parentdep, was.dep, modules)
    && (now.visible == if y.hasPrompt then PromptDep(y, now.dep, was.visible, modules) else was.visible)
    && (now.props == if y.sym.Some? then PropDeps(y, now.dep, was.props, modules) else was.props)
  }

  /** The conditions of a symbol's other properties, in the same way. */
  function PropDeps(x: Entry, dep: Option<Expr>, own: seq<Option<Expr>>, modules: Sym): (r: seq<Option<Expr>>)
    ensures |r| == |own| && forall i :: 0 <= i < |own| ==> r[i] == PromptDep(x, dep, own[i], modules)
  {
    if own == [] then [] else PropDeps(x, dep, own[..|own| - 1], modules) + [PromptDep(x, dep, own[|own| - 1], modules)]
  }

  predicate SameLinks(was: Fields, now: Fields) {
    now.next == was.next && now.parent == was.parent && now.list == was.list
  }

  function Level(f: Forest): seq<Entry> { if f.Nil? then [] else [f.x] + Level(f.next) }

  lemma {:induction false} LevelInPre(f: Forest)
    ensures forall y :: y in Level(f) ==> y in Pre(f)
    ensures NoDup(Pre(f)) ==> NoDup(Level(f))
  {
    if f.Menu? {
      LevelInPre(f.next);
      if NoDup(Pre(f)) { HeadApart(f.x, f.list, f.next); }
    }
  }

  method PropagateTo(y: Entry, parentdep: Option<Expr>, modules: Sym, ghost m: Mem) returns (ghost m': Mem)
    requires Matches(m) && y in m
    modifies y`dep, y`visible, y`props
    ensures Matches(m') && y in m' && m' == m[y := m'[y]] && SameLinks(m[y], m'[y])
    ensures Propagated(y, parentdep, m[y], m'[y], modules)
  {
    y.dep := Propagate(parentdep, y.dep, modules);
    if y.hasPrompt {
      y.visible := PromptDep(y, y.dep, y.visible, modules);
    }
    if y.sym.Some? { y.props := PropagateProps(y, y.dep, y.props, modules); }
    m' := m[y := m[y].(dep := y.dep, visible := y.visible, props := y.props)];
  }

  /** The loop over the properties of a symbol. */
  method PropagateProps(y: Entry, dep: Option<Expr>, own: seq<Option<Expr>>, modules: Sym)
    returns (r: seq<Option<Expr>>)
    ensures r == PropDeps(y, dep, own, modules)
  {
    r := [];
    for i := 0 to |own|
      invariant r == PropDeps(y, dep, own[..i], modules)
    {
      PropsStep(y, dep, own, i, modules);
      r := r + [PromptDep(y, dep, own[i], modules)];
    }
    assert own[..|own|] == own;
  }

  lemma PropsStep(y: Entry, dep: Option<Expr>, own: seq<Option<Expr>>, i: nat, modules: Sym)
    requires i < |own|
    ensures PropDeps(y, dep, own[..i + 1], modules)
      == PropDeps(y, dep, own[..i], modules) + [PromptDep(y, dep, own[i], modules)]
  {
    assert own[..i + 1][..i] == own[..i];
  }

  /** The nodes of a level, and only these, got their parent's dependency. */
  predicate LevelPropagated(m: Mem, m': Mem, level: seq<Entry>, parentdep: Option<Expr>, modules: Sym) {
    && m'.Keys == m.Keys
    && (forall y :: y in m ==> SameLinks(m[y], m'[y]))
    && (forall y :: y in m && y !in level ==> m'[y] == m[y])
    && (forall y :: y in m && y in level ==> Propagated(y, parentdep, m[y], m'[y], modules))
  }

  /** Every node right below x gets the parent's dependency added to its own, and so do its prompt
      and the other properties of its symbol. */
  method PropagateKids(x: Entry, modules: Sym, ghost m: Mem, ghost l: Forest, ghost n: Forest, ghost p: Entry?)
    returns (ghost m': Mem)
    requires Matches(m) && Rep(m, Menu(x, l, n), x, p) && NoDup(Pre(Menu(x, l, n)))
    modifies m.Keys`dep, m.Keys`visible, m.Keys`props
    ensures Matches(m') && LevelPropagated(m, m', Level(l), ParentDep(x, m[x]), modules)
  {
    HeadApart(x, l, n);
    LevelInPre(l);
    var parentdep := if x.sym.Some? && x.choice then Some(Symbol(x.sym.value))
                     else if x.hasPrompt then x.visible
                     else x.dep;
    var menu := x.list;
    ghost var done, rest := [], l;
    m' := m;
    while menu != null
      invariant Matches(m') && LevelPropagated(m, m', done, parentdep, modules)
      invariant Rep(m, rest, menu, x) && done + Level(rest) == Level(l)
      decreases rest
    {
      LevelStep(done, rest, l);
      ghost var m1 := m';
      m' := PropagateTo(menu, parentdep, modules, m');
      PropagateStep(m, m1, m', done, rest.x, parentdep, modules);
      done, rest := done + [rest.x], rest.next;
      menu := menu.next;
    }
  }

  lemma PropagateStep(m: Mem, m1: Mem, m': Mem, done: seq<Entry>, y: Entry, parentdep: Option<Expr>, modules: Sym)
    requires LevelPropagated(m, m1, done, parentdep, modules) && y in m && y !in done
    requires y in m' && m' == m1[y := m'[y]] && SameLinks(m1[y], m'[y])
    requires Propagated(y, parentdep, m1[y], m'[y], modules)
    ensures LevelPropagated(m, m', done + [y], parentdep, modules)
  {
  }

  lemma LevelStep(done: seq<Entry>, rest: Forest, l: Forest)
    requires rest.Menu? && done + Level(rest) == Level(l) && NoDup(Level(l))
    ensures rest.x !in done && done + [rest.x] + Level(rest.next) == Level(l)
  {
    forall k | 0 <= k < |done| ensures done[k] != rest.x {
      assert Level(l)[k] == done[k] && Level(l)[|done|] == rest.x;
    }
    assert done + ([rest.x] + Level(rest.next)) == done + [rest.x] + Level(rest.next);
  }

  // ---------- inherited dependencies ----------

  /** g is f from some node on. */
  predicate Suffix(g: Forest, f: Forest) { g == f || (f.Menu? && Suffix(g, f.next)) }

  /** In the menu f below a node that adds pd, each node has its own dependencies from m0 and
      those of all nodes above it. */
  predicate Inherited(m0: Mem, m: Mem, f: Forest, pd: Option<Expr>, modules: Sym) {
    f.Menu? ==>
      && f.x in m0 && f.x in m && Propagated(f.x, pd, m0[f.x], m[f.x], modules)
      && Inherited(m0, m, f.list, ParentDep(f.x, m[f.x]), modules) && Inherited(m0, m, f.next, pd, modules)
  }

  /** So it is below every node of the level f before g. */
  predicate Settled(m0: Mem, m: Mem, f: Forest, g: Forest, modules: Sym)
    decreases f
  {
    f != g ==>
      && f.Menu? && f.x in m && Inherited(m0, m, f.list, ParentDep(f.x, m[f.x]), modules)
      && Settled(m0, m, f.next, g, modules)
  }

  predicate DepsAgree(m: Mem, m': Mem, y: Entry) { y in m ==> y in m' && SameDeps(m[y], m'[y]) }

  lemma {:induction false} InheritedFrame(m0: Mem, m0': Mem, m: Mem, m': Mem, f: Forest, pd: Option<Expr>, modules: Sym)
    requires Inherited(m0, m, f, pd, modules)
    requires forall y :: y in Pre(f) ==> DepsAgree(m0, m0', y) && DepsAgree(m, m', y)
    ensures Inherited(m0', m', f, pd, modules)
  {
    if f.Menu? {
      assert f.x in Pre(f);
      InheritedFrame(m0, m0', m, m', f.list, ParentDep(f.x, m[f.x]), modules);
      InheritedFrame(m0, m0', m, m', f.next, pd, modules);
    }
  }

  lemma {:induction false} SuffixPre(g: Forest, f: Forest)
    requires Suffix(g, f)
    ensures forall y :: y in Pre(g) ==> y in Pre(f)
    ensures NoDup(Pre(f)) ==> NoDup(Pre(g))
  {
    if g != f {
      SuffixPre(g, f.next);
      if NoDup(Pre(f)) { HeadApart(f.x, f.list, f.next); }
    }
  }

  lemma {:induction false} SuffixTrans(h: Forest, g: Forest, f: Forest)
    requires Suffix(h, g) && Suffix(g, f)
    ensures Suffix(h, f)
  {
    if g != f { SuffixTrans(h, g, f.next); }
  }

  /** A node of the level f is in the level g or not in g at all. */
  lemma {:induction false} SuffixLevel(g: Forest, f: Forest, y: Entry)
    requires Suffix(g, f) && NoDup(Pre(f)) && y in Level(f) && y in Pre(g)
    ensures y in Level(g)
  {
    if g != f {
      HeadApart(f.x, f.list, f.next);
      SuffixPre(g, f.next);
      SuffixLevel(g, f.next, y);
    }
  }

  lemma {:induction false} SettledFrame(m0: Mem, m0': Mem, m: Mem, m': Mem, f: Forest, g: Forest, modules: Sym)
    requires Suffix(g, f) && NoDup(Pre(f)) && Settled(m0, m, f, g, modules)
    requires forall y :: y in Pre(f) && y !in Pre(g) ==> DepsAgree(m0, m0', y) && DepsAgree(m, m', y)
    ensures Settled(m0', m', f, g, modules)
    decreases f
  {
    if f != g {
      HeadApart(f.x, f.list, f.next);
      SuffixPre(g, f.next);
      assert f.x in Pre(f) && f.x !in Pre(g);
      InheritedFrame(m0, m0', m, m', f.list, ParentDep(f.x, m[f.x]), modules);
      SettledFrame(m0, m0', m, m', f.next, g, modules);
    }
  }

  lemma {:induction false} SettledTrans(m0: Mem, m: Mem, f: Forest, g: Forest, h: Forest, modules: Sym)
    requires Suffix(g, f) && Settled(m0, m, f, g, modules) && Settled(m0, m, g, h, modules)
    ensures Settled(m0, m, f, h, modules)
    decreases f
  {
    if f != g { SettledTrans(m0, m, f.next, g, h, modules); }
  }

  /** A level whose nodes got their parent's dependency and then had the levels below settled. */
  lemma {:induction false} LevelInherited(m: Mem, m1: Mem, m': Mem, f: Forest, pd: Option<Expr>, modules: Sym)
    requires NoDup(Pre(f)) && m1.Keys == m.Keys && Settled(m1, m', f, Nil, modules)
    requires forall y :: y in Level(f) ==>
      y in m && y in m' && Propagated(y, pd, m[y], m1[y], modules) && SameDeps(m1[y], m'[y])
    requires forall y :: y in Pre(f) && y !in Level(f) ==> DepsAgree(m1, m, y)
    ensures Inherited(m, m', f, pd, modules)
  {
    if f.Menu? {
      HeadApart(f.x, f.list, f.next);
      LevelInPre(f.next);
      assert f.x in Level(f);
      InheritedFrame(m1, m, m', m', f.list, ParentDep(f.x, m'[f.x]), modules);
      LevelInherited(m, m1, m', f.next, pd, modules);
    }
  }

  // ---------- menu_finalize ----------

  /** The dependencies of the nodes of one level are as before. */
  predicate LevelKept(m: Mem, m': Mem, f: Forest) { forall y :: y in Level(f) ==> DepsAgree(m, m', y) }

  /** The loops over a level f have come to rest: what comes before is settled, the remainder is
      untouched, and the nodes of the level have kept their dependencies. */
  predicate Progress(m: Mem, m': Mem, f: Forest, rest: Forest, modules: Sym) {
    Suffix(rest, f) && SameOn(m, m', Pre(rest)) && LevelKept(m, m', f) && Settled(m, m', f, rest, modules)
  }

  /** What menu_finalize of x does, apart from the links: l' and n' are the nodes below and after
      x in the end. Only x and nodes that are now below it change; the dependencies of x and of
      the nodes after it stay; below x and below the nodes taken, all dependencies are inherited. */
  ghost predicate Finalized(m: Mem, m': Mem, x: Entry, l: Forest, n: Forest, l': Forest, n': Forest, modules: Sym) {
    && OnlyIn(m, m', [x] + Pre(l')) && Pre(Menu(x, l', n')) == Pre(Menu(x, l, n)) && Suffix(n', n)
    && x in m && SameDeps(m[x], m'[x]) && LevelKept(m, m', n)
    && Inherited(m, m', l, ParentDep(x, m[x]), modules) && Settled(m, m', n, n', modules)
  }

  lemma ProgressLevel(m: Mem, m1: Mem, m': Mem, f: Forest, rest: Forest, l': Forest, n': Forest, modules: Sym)
    requires rest.Menu? && NoDup(Pre(f)) && Progress(m, m1, f, rest, modules)
    requires Finalized(m1, m', rest.x, rest.list, rest.next, l', n', modules)
    ensures LevelKept(m, m', f)
  {
    forall y | y in Level(f) ensures DepsAgree(m, m', y) {
      assert DepsAgree(m, m1, y);
      if y in Pre(rest) {
        SuffixLevel(rest, f, y);
        assert y == rest.x || y in Level(rest.next);
      } else {
        assert y !in [rest.x] + Pre(l') + Pre(n');
      }
      assert DepsAgree(m1, m', y);
    }
  }

  lemma ProgressSame(m: Mem, m1: Mem, m': Mem, f: Forest, rest: Forest, l': Forest, n': Forest, modules: Sym)
    requires rest.Menu? && NoDup(Pre(f)) && Progress(m, m1, f, rest, modules)
    requires Finalized(m1, m', rest.x, rest.list, rest.next, l', n', modules)
    ensures SameOn(m, m', Pre(n')) && Suffix(n', f)
  {
    SuffixPre(rest, f);
    HeadApart(rest.x, l', n');
    assert forall y :: y in Pre(n') ==> y in [rest.x] + Pre(l') + Pre(n');
    SuffixTrans(n', rest.next, rest);
    SuffixTrans(n', rest, f);
  }

  lemma SettledBefore(m: Mem, m1: Mem, m': Mem, f: Forest, rest: Forest, l': Forest, n': Forest, modules: Sym)
    requires rest.Menu? && NoDup(Pre(f)) && Progress(m, m1, f, rest, modules)
    requires OnlyIn(m1, m', [rest.x] + Pre(l')) && Pre(Menu(rest.x, l', n')) == Pre(rest)
    ensures Settled(m, m', f, rest, modules)
  {
    assert forall y :: y in [rest.x] + Pre(l') ==> y in [rest.x] + Pre(l') + Pre(n');
    SettledFrame(m, m, m1, m', f, rest, modules);
  }

  lemma SettledAfter(m: Mem, m1: Mem, m': Mem, rest: Forest, n': Forest, modules: Sym)
    requires rest.Menu? && NoDup(Pre(rest)) && SameOn(m, m1, Pre(rest)) && m1.Keys == m.Keys
    requires Suffix(n', rest.next) && Settled(m1, m', rest.next, n', modules) && rest.x in m'
    requires Inherited(m1, m', rest.list, ParentDep(rest.x, m'[rest.x]), modules)
    ensures Settled(m, m', rest, n', modules)
  {
    HeadApart(rest.x, rest.list, rest.next);
    forall y | y in Pre(rest.list) || y in Pre(rest.next) ensures DepsAgree(m1, m, y) { assert y in Pre(rest); }
    InheritedFrame(m1, m, m', m', rest.list, ParentDep(rest.x, m'[rest.x]), modules);
    SettledFrame(m1, m, m', m', rest.next, n', modules);
  }

  lemma ProgressStep(m: Mem, m1: Mem, m': Mem, f: Forest, rest: Forest, l': Forest, n': Forest, modules: Sym)
    requires rest.Menu? && NoDup(Pre(f)) && Progress(m, m1, f, rest, modules)
    requires Finalized(m1, m', rest.x, rest.list, rest.next, l', n', modules) && m1.Keys == m.Keys
    ensures Progress(m, m', f, n', modules)
  {
    SuffixPre(rest, f);
    ProgressLevel(m, m1, m', f, rest, l', n', modules);
    ProgressSame(m, m1, m', f, rest, l', n', modules);
    SettledBefore(m, m1, m', f, rest, l', n', modules);
    SettledAfter(m, m1, m', rest, n', modules);
    SettledTrans(m, m', f, rest, n', modules);
  }

  /** Later changes to links only, below x, do not matter. */
  lemma FinalizedLinks(m: Mem, m1: Mem, m': Mem, x: Entry, l: Forest, n: Forest, l1: Forest, n': Forest, l': Forest,
                       modules: Sym)
    requires Finalized(m, m1, x, l, n, l1, n', modules) && LinksOnly(m1, m', [x] + Pre(l1)) && Pre(l') == Pre(l1)
    requires NoDup(Pre(n))
    ensures Finalized(m, m', x, l, n, l', n', modules)
  {
    InheritedFrame(m, m, m1, m', l, ParentDep(x, m[x]), modules);
    SettledFrame(m, m, m1, m', n, n', modules);
  }

  /** The case of a node with nodes below it. */
  lemma KidsFinalized(m: Mem, m1: Mem, m': Mem, x: Entry, l: Forest, l': Forest, n: Forest, modules: Sym)
    requires NoDup(Pre(Menu(x, l, n))) && x in m && LevelPropagated(m, m1, Level(l), ParentDep(x, m[x]), modules)
    requires Progress(m1, m', l, Nil, modules) && OnlyIn(m1, m', Pre(l)) && Pre(l') == Pre(l)
    requires forall y :: y in Level(l) ==> y in m
    ensures Finalized(m, m', x, l, n, l', n, modules)
  {
    HeadApart(x, l, n);
    LevelInPre(l);
    LevelInPre(n);
    forall y | y in Level(l) ensures DepsAgree(m1, m', y) { }
    LevelInherited(m, m1, m', l, ParentDep(x, m[x]), modules);
  }

  lemma {:induction false} LevelInMem(m: Mem, f: Forest, n: Entry?, p: Entry?)
    requires Rep(m, f, n, p)
    ensures forall y :: y in Level(f) ==> y in m
  {
    if f.Menu? { LevelInMem(m, f.next, m[f.x].next, p); }
  }

  lemma Widen(m: Mem, m': Mem, q: seq<Entry>, r: seq<Entry>)
    requires OnlyIn(m, m', q) && forall y :: y in q ==> y in r
    ensures OnlyIn(m, m', r)
  {
  }

  /** A level after each node with a level below it but no prompt text has been replaced by itself and
      that level, again and again. */
  function Flattened(f: Forest): (r: Forest)
    ensures Pre(r) == Pre(f)
    decreases |Pre(f)|
  {
    if f.Nil? then Nil
    else if f.list.Menu? && !Titled(f.x) then
      Assoc([f.x], Pre(f.list), Pre(f.next));
      assert [f.x] + Pre(Nil) == [f.x];
      Menu(f.x, Nil, Flattened(Append(f.list, f.next)))
    else Menu(f.x, f.list, Flattened(f.next))
  }

  /** Flattens c, which is below x, if it has a level below it but no prompt text. */
  method FlattenOne(c: Entry, x: Entry, ghost m: Mem, ghost l: Forest, ghost after: Forest)
    returns (ghost m': Mem, ghost l': Forest, ghost n': Forest)
    requires Matches(m) && Rep(m, Menu(c, l, after), c, x) && NoDup(Pre(Menu(c, l, after)))
    modifies m.Keys`next, m.Keys`parent, m.Keys`list
    ensures Matches(m') && LinksOnly(m, m', Pre(Menu(c, l, after)))
    ensures Rep(m', Menu(c, l', n'), c, x) && Pre(Menu(c, l', n')) == Pre(Menu(c, l, after))
    ensures Flattened(Menu(c, l, after)) == Menu(c, l', Flattened(n'))
  {
    m', l', n' := m, l, after;
    if c.list != null && (!c.hasPrompt || !c.hasText) {
      m', n' := Flatten(c, x, m, l, after);
      l' := Nil;
    }
  }

  /** Flattens every node below x that has a level below it but no prompt text; nodes moved up
      are looked at in turn. */
  method FlattenKids(x: Entry, ghost m: Mem, ghost l: Forest, ghost n: Forest, ghost p: Entry?)
    returns (ghost m': Mem, ghost l': Forest)
    requires Matches(m) && Rep(m, Menu(x, l, n), x, p) && NoDup(Pre(Menu(x, l, n)))
    modifies m.Keys`next, m.Keys`parent, m.Keys`list
    ensures Matches(m') && LinksOnly(m, m', Pre(l))
    ensures Rep(m', Menu(x, l', n), x, p) && l' == Flattened(l)
  {
    PreIsOrder(x, l, n);
    m' := m;
    ghost var ch, rest := Start, l;
    var menu := x.list;
    while menu != null
      invariant Matches(m') && LinksOnly(m, m', Pre(l)) && Below(m', x, ch, rest, menu, n, p)
      invariant Order(x, ch, rest, n) == Order(x, Start, l, n) && PreC(ch) + Pre(rest) == Pre(l)
      invariant Join(ch, Flattened(rest)) == Flattened(l)
      decreases |Pre(rest)|
    {
      ghost var m1, lc, nc := m', Nil, Nil;
      OrderApart(x, ch, rest, n);
      m', lc, nc := FlattenOne(menu, x, m', rest.list, rest.next);
      KidStep(m1, m', x, ch, rest, menu, lc, nc, n, p);
      LinksTrans(m, m1, m', Pre(l), Pre(rest));
      ch, rest := Then(ch, rest.x, lc), nc;
      menu := menu.next;
    }
    l' := Join(ch, Nil);
    JoinRep(m', ch, Nil, m'[x].list, x, null);
  }

  lemma LinksTrans(m0: Mem, m: Mem, m': Mem, q: seq<Entry>, r: seq<Entry>)
    requires LinksOnly(m0, m, q) && LinksOnly(m, m', r) && forall y :: y in r ==> y in q
    ensures LinksOnly(m0, m', q)
  {
  }

  /** At every level only nodes with a prompt text have nodes below them. */
  predicate AllFlat(f: Forest) {
    f.Menu? ==> (f.list.Menu? ==> Titled(f.x)) && AllFlat(f.list) && AllFlat(f.next)
  }

  /** So it is below the nodes of the level f. */
  predicate BelowFlat(f: Forest) { f.Menu? ==> AllFlat(f.list) && BelowFlat(f.next) }

  predicate ChainBelow(ch: Chain) { ch.Then? ==> AllFlat(ch.list) && ChainBelow(ch.prev) }

  lemma {:induction false} AppendBelow(f: Forest, g: Forest)
    requires AllFlat(f) && BelowFlat(g)
    ensures BelowFlat(Append(f, g))
  {
    if f.Menu? { AppendBelow(f.next, g); }
  }

  /** Flattening a level below which all is flat makes all flat: only nodes with a prompt text are left
      with nodes below them. */
  lemma {:induction false} FlattenedFlat(f: Forest)
    requires BelowFlat(f)
    ensures AllFlat(Flattened(f))
    decreases |Pre(f)|
  {
    if f.Menu? {
      if f.list.Menu? && !Titled(f.x) {
        AppendBelow(f.list, f.next);
        FlattenedFlat(Append(f.list, f.next));
      } else {
        FlattenedFlat(f.next);
      }
    }
  }

  /** And nodes with a prompt text keep what is below them. */
  lemma {:induction false} FlattenedKeeps(f: Forest)
    ensures Kept(f, Flattened(f))
    decreases |Pre(f)|
  {
    if f.Menu? {
      if f.list.Menu? && !Titled(f.x) {
        FlattenedKeeps(Append(f.list, f.next));
        KeptHoist(f.x, f.list, f.next, Flattened(Append(f.list, f.next)));
      } else {
        FlattenedKeeps(f.next);
        KeptNext(f.x, f.list, f.next, Flattened(f.next));
      }
    }
  }

  lemma ThenFlattened(f: Forest, x: Entry, l: Forest, n: Forest)
    requires BelowFlat(l) && Kept(f, Menu(x, l, n)) && Pre(Menu(x, l, n)) == Pre(f)
    ensures AllFlat(Flattened(l)) && Kept(f, Menu(x, Flattened(l), n))
  {
    FlattenedFlat(l);
    FlattenedKeeps(l);
    KeptList(x, l, Flattened(l), n);
    KeptTrans(f, Menu(x, l, n), Menu(x, Flattened(l), n));
  }

  lemma {:induction false} JoinBelow(ch: Chain, f: Forest)
    requires ChainBelow(ch) && BelowFlat(f)
    ensures BelowFlat(Join(ch, f))
    decreases ch
  {
    if ch.Then? { JoinBelow(ch.prev, Menu(ch.x, ch.list, f)); }
  }

  /** The dependency a node's place is judged by. */
  function PlaceDep(y: Entry, fy: Fields): Option<Expr> { if y.hasPrompt then fy.visible else fy.dep }

  /** Whether a node after a symbol goes into the symbol's submenu; base is the condition of the
      symbol's prompt. */
  predicate Follows(sym: Sym, base: Option<Expr>, dep: Option<Expr>) {
    dep.Some? && Contains(dep.value, sym) && (Depends(dep.value, sym) || SupersetTest(dep, base))
  }

  function BaseDep(x: Entry, fx: Fields): Option<Expr> { if x.hasPrompt then fx.visible else None }

  /** An item that follows a symbol is not available without it: in every good valuation, if its
      dependency is not n, then neither is the symbol for an absolute dependency, and the prompt
      of the symbol is visible otherwise. */
  ghost predicate NeedsSymbol(sym: Sym, base: Option<Expr>, dep: Expr) {
    forall env: Env :: OptWellTyped(env, base) && OptWellTyped(env, Some(dep)) && Val(env, dep) != NO ==>
      if Depends(dep, sym) then env.tri(sym) != NO else ValOpt(env, base) != NO
  }

  /** The dependency is absolute, or negates only bools. */
  predicate Decidable(sym: Sym, dep: Expr) { Depends(dep, sym) || (OptPlain(Some(dep)) && NegatesBools(dep)) }

  lemma FollowsNeedsSymbol(sym: Sym, base: Option<Expr>, dep: Expr)
    requires Follows(sym, base, Some(dep)) && IsTriSym(sym) && OptNormal(base) && OptPlain(base)
    requires Decidable(sym, dep)
    ensures NeedsSymbol(sym, base, dep)
  {
    forall env: Env | OptWellTyped(env, base) && OptWellTyped(env, Some(dep)) && Val(env, dep) != NO
      ensures if Depends(dep, sym) then env.tri(sym) != NO else ValOpt(env, base) != NO
    {
      if Depends(dep, sym) { DependsForcesSymbol(env, dep, sym); } else { SupersetTestSound(env, dep, base); }
    }
  }

  /** What belongs below a symbol follows it. */
  lemma BelongsFollows(sym: Sym, base: Option<Expr>, dep: Expr)
    requires Belongs(sym, base, dep) && !IsYmn(sym)
    ensures Follows(sym, base, Some(dep))
  {
    BelongsPasses(sym, base, dep);
  }

  lemma NothingLeftBehind(sym: Sym, base: Option<Expr>, dep: Option<Expr>)
    requires !Follows(sym, base, dep) && !IsYmn(sym)
    ensures dep.Some? ==> !Belongs(sym, base, dep.value)
  {
    if dep.Some? && Belongs(sym, base, dep.value) { BelongsFollows(sym, base, dep.value); }
  }

  /** What the nodes that a symbol takes into its submenu need, as far as they negate only bools. */
  ghost predicate LevelNeeds(m: Mem, f: Forest, sym: Sym, base: Option<Expr>) {
    forall y :: y in Level(f) ==>
      && y in m && PlaceDep(y, m[y]).Some?
      && var dep := PlaceDep(y, m[y]).value; Decidable(sym, dep) ==> NeedsSymbol(sym, base, dep)
  }

  lemma FollowersNeed(m: Mem, f: Forest, sym: Sym, base: Option<Expr>)
    requires forall y :: y in Level(f) ==> y in m && Follows(sym, base, PlaceDep(y, m[y]))
    requires IsTriSym(sym) && OptNormal(base) && OptPlain(base)
    ensures LevelNeeds(m, f, sym, base)
  {
    forall y | y in Level(f)
      ensures y in m && PlaceDep(y, m[y]).Some?
        && var dep := PlaceDep(y, m[y]).value; Decidable(sym, dep) ==> NeedsSymbol(sym, base, dep)
    {
      var dep := PlaceDep(y, m[y]).value;
      if Decidable(sym, dep) { FollowsNeedsSymbol(sym, base, dep); }
    }
  }

  /** menu_finalize. Whatever the dependencies say, the nodes keep their order and correct parent
      links; menu_finalize is entered once for x and for each node that ends up below it, in
      order; and every node below inherits the dependencies of all nodes it was below. */
  method Finalize(x: Entry, modules: Sym, ghost m: Mem, ghost l: Forest, ghost n: Forest, ghost p: Entry?,
                  ghost log: seq<Entry>)
    returns (ghost m': Mem, ghost l': Forest, ghost n': Forest, ghost log': seq<Entry>)
    requires Matches(m) && Rep(m, Menu(x, l, n), x, p) && NoDup(Pre(Menu(x, l, n)))
    modifies m.Keys`next, m.Keys`parent, m.Keys`list, m.Keys`dep, m.Keys`visible, m.Keys`props
    ensures Matches(m') && Rep(m', Menu(x, l', n'), x, p) && Finalized(m, m', x, l, n, l', n', modules)
    ensures log' == log + ([x] + Pre(l')) && AllFlat(l') && Kept(Menu(x, l, n), Menu(x, l', n'))
    ensures l.Menu? || x.sym.None? ==> n' == n
    decreases |Pre(Menu(x, l, n))|, 2
  {
    log' := log + [x];
    m', l', n' := m, l, n;
    HeadApart(x, l, n);
    if x.list != null {
      ghost var m1 := PropagateKids(x, modules, m, l, n, p);
      PropagatedRep(m, m1, Menu(x, l, n), x, p, Level(l), ParentDep(x, m[x]), modules);
      m', l', log' := FinalizeKids(x, modules, m1, l, n, p, log');
      LevelInMem(m, l, m[x].list, x);
      KidsFinalized(m, m1, m', x, l, l', n, modules);
      KeptList(x, l, l', n);
    } else if x.sym.Some? {
      m', l', n', log' := Submenu(x, x.sym.value, modules, m, n, p, log');
    }
    ghost var m1, l1 := m', l';
    Assoc(log, [x], Pre(l1));
    ThenFlattened(Menu(x, l, n), x, l1, n');
    m', l' := FlattenKids(x, m', l', n', p);
    LinksTrans(m1, m1, m', [x] + Pre(l1), Pre(l1));
    FinalizedLinks(m, m1, m', x, l, n, l1, n', l', modules);
  }

  lemma {:induction false} PropagatedRep(m: Mem, m': Mem, f: Forest, n: Entry?, p: Entry?, level: seq<Entry>,
                                         pd: Option<Expr>, modules: Sym)
    requires Rep(m, f, n, p) && LevelPropagated(m, m', level, pd, modules)
    ensures Rep(m', f, n, p)
  {
    if f.Menu? {
      PropagatedRep(m, m', f.list, m[f.x].list, f.x, level, pd, modules);
      PropagatedRep(m, m', f.next, m[f.x].next, p, level, pd, modules);
    }
  }

  /** The state of the loop that finalizes the nodes below x. */
  ghost predicate KidsLoop(m: Mem, m': Mem, x: Entry, ch: Chain, l: Forest, rest: Forest, e: Entry?, n: Forest,
                           p: Entry?,
                           modules: Sym, log: seq<Entry>, log': seq<Entry>) {
    && OnlyIn(m, m', Pre(l)) && Below(m', x, ch, rest, e, n, p) && NoDup(Pre(l)) && NoDup(Order(x, ch, rest, n))
    && PreC(ch) + Pre(rest) == Pre(l) && log' == log + PreC(ch) && Progress(m, m', l, rest, modules)
  }

  lemma KidsStart(m: Mem, x: Entry, l: Forest, n: Forest, p: Entry?, modules: Sym, log: seq<Entry>)
    requires Rep(m, Menu(x, l, n), x, p) && NoDup(Pre(Menu(x, l, n)))
    ensures KidsLoop(m, m, x, Start, l, l, m[x].list, n, p, modules, log, log)
  {
    PreIsOrder(x, l, n);
    HeadApart(x, l, n);
  }

  lemma KidsStep(m: Mem, m1: Mem, m': Mem, x: Entry, ch: Chain, l: Forest, rest: Forest, lc: Forest, nc: Forest,
                 n: Forest, p: Entry?,
                 modules: Sym, log: seq<Entry>, log1: seq<Entry>, log': seq<Entry>)
    requires rest.Menu? && KidsLoop(m, m1, x, ch, l, rest, rest.x, n, p, modules, log, log1)
    requires Finalized(m1, m', rest.x, rest.list, rest.next, lc, nc, modules)
    requires Rep(m', Menu(rest.x, lc, nc), rest.x, x)
    requires log' == log1 + ([rest.x] + Pre(lc))
    ensures KidsLoop(m, m', x, Then(ch, rest.x, lc), l, nc, m'[rest.x].next, n, p, modules, log, log')
    ensures |Pre(nc)| < |Pre(rest)|
  {
    ProgressStep(m, m1, m', l, rest, lc, nc, modules);
    Widen(m1, m', [rest.x] + Pre(lc), Pre(rest));
    KidStep(m1, m', x, ch, rest, rest.x, lc, nc, n, p);
    SuffixPre(rest, l);
    OnlyInTrans(m, m1, m', Pre(l), Pre(rest));
    Assoc(log, PreC(ch), [rest.x] + Pre(lc));
  }

  lemma KidsEnd(m: Mem, m': Mem, x: Entry, ch: Chain, l: Forest, rest: Forest, n: Forest, p: Entry?,
                modules: Sym, log: seq<Entry>, log': seq<Entry>)
    requires KidsLoop(m, m', x, ch, l, rest, null, n, p, modules, log, log')
    ensures var l' := Join(ch, Nil); Rep(m', Menu(x, l', n), x, p) && Pre(l') == Pre(l) && log' == log + Pre(l')
    ensures OnlyIn(m, m', Pre(l)) && Progress(m, m', l, Nil, modules)
  {
    JoinRep(m', ch, Nil, m'[x].list, x, null);
    JoinPre(ch, Nil);
  }

  /** What the recursive call needs. */
  lemma KidReady(m: Mem, m': Mem, x: Entry, ch: Chain, l: Forest, rest: Forest, e: Entry, n: Forest, p: Entry?,
                 modules: Sym, log: seq<Entry>, log': seq<Entry>)
    requires KidsLoop(m, m', x, ch, l, rest, e, n, p, modules, log, log')
    ensures rest.Menu? && rest.x == e && m'.Keys == m.Keys && Rep(m', Menu(e, rest.list, rest.next), e, x)
    ensures NoDup(Pre(Menu(e, rest.list, rest.next))) && |Pre(rest)| < |Pre(Menu(x, l, n))|
  {
    OrderApart(x, ch, rest, n);
  }

  /** One node of a level was finalized, with what follows it. */
  lemma KeptStep(l: Forest, ch: Chain, rest: Forest, lc: Forest, nc: Forest)
    requires rest.Menu? && PreC(ch) + Pre(rest) == Pre(l) && Kept(l, Join(ch, rest))
    requires Kept(rest, Menu(rest.x, lc, nc))
    ensures Kept(l, Join(Then(ch, rest.x, lc), nc))
  {
    JoinPre(ch, rest);
    KeptJoin(ch, rest, Menu(rest.x, lc, nc));
    KeptTrans(l, Join(ch, rest), Join(ch, Menu(rest.x, lc, nc)));
  }

  method FinalizeKids(x: Entry, modules: Sym, ghost m: Mem, ghost l: Forest, ghost n: Forest, ghost p: Entry?,
                      ghost log: seq<Entry>)
    returns (ghost m': Mem, ghost l': Forest, ghost log': seq<Entry>)
    requires Matches(m) && Rep(m, Menu(x, l, n), x, p) && NoDup(Pre(Menu(x, l, n)))
    modifies m.Keys`next, m.Keys`parent, m.Keys`list, m.Keys`dep, m.Keys`visible, m.Keys`props
    ensures Matches(m') && OnlyIn(m, m', Pre(l)) && Progress(m, m', l, Nil, modules)
    ensures Rep(m', Menu(x, l', n), x, p) && Pre(l') == Pre(l) && log' == log + Pre(l')
    ensures BelowFlat(l') && Kept(l, l')
    decreases |Pre(Menu(x, l, n))|, 1
  {
    KidsStart(m, x, l, n, p, modules, log);
    m', log' := m, log;
    ghost var ch, rest := Start, l;
    var menu := x.list;
    while menu != null
      invariant Matches(m') && KidsLoop(m, m', x, ch, l, rest, menu, n, p, modules, log, log') && ChainBelow(ch)
      invariant Kept(l, Join(ch, rest))
      decreases |Pre(rest)|
    {
      ghost var m1, log1, lc, nc := m', log', Nil, Nil;
      KidReady(m, m', x, ch, l, rest, menu, n, p, modules, log, log');
      m', lc, nc, log' := Finalize(menu, modules, m', rest.list, rest.next, x, log');
      KidsStep(m, m1, m', x, ch, l, rest, lc, nc, n, p, modules, log, log1, log');
      KeptStep(l, ch, rest, lc, nc);
      ch, rest := Then(ch, rest.x, lc), nc;
      menu := menu.next;
    }
    KidsEnd(m, m', x, ch, l, rest, n, p, modules, log, log');
    l' := Join(ch, Nil);
    JoinBelow(ch, Nil);
  }

  /** The state of the loop that takes nodes after x. */
  ghost predicate TakeLoop(m: Mem, m': Mem, x: Entry, ch: Chain, n: Forest, rest: Forest, e: Entry?, p: Entry?,
                           modules: Sym, log: seq<Entry>, log': seq<Entry>) {
    && OnlyIn(m, m', PreC(ch)) && Beside(m', x, ch, rest, e, p) && NoDup(Pre(n)) && NoDup(Order(x, ch, rest, Nil))
    && PreC(ch) + Pre(rest) == Pre(n) && log' == log + PreC(ch) && Progress(m, m', n, rest, modules)
  }

  lemma TakeStart(m: Mem, x: Entry, n: Forest, p: Entry?, modules: Sym, log: seq<Entry>)
    requires Rep(m, Menu(x, Nil, n), x, p) && NoDup(Pre(Menu(x, Nil, n)))
    ensures TakeLoop(m, m, x, Start, n, n, m[x].next, p, modules, log, log)
  {
    HeadApart(x, Nil, n);
    assert Pre(Nil) == [] && PreC(Start) == [];
    assert [x] + [] + Pre(n) + [] == [x] + [] + Pre(n);
  }

  lemma TakeReady(m: Mem, m': Mem, x: Entry, ch: Chain, n: Forest, rest: Forest, e: Entry, p: Entry?,
                  modules: Sym, log: seq<Entry>, log': seq<Entry>)
    requires TakeLoop(m, m', x, ch, n, rest, e, p, modules, log, log')
    ensures rest.Menu? && rest.x == e && m'.Keys == m.Keys && e in m && m'[e] == m[e]
    ensures Rep(m', Menu(e, rest.list, rest.next), e, p)
    ensures NoDup(Pre(Menu(e, rest.list, rest.next))) && |Pre(rest)| < |Pre(Menu(x, Nil, n))|
  {
    OrderApart(x, ch, rest, Nil);
    HeadApart(rest.x, rest.list, rest.next);
  }

  lemma TakeNext(m: Mem, m1: Mem, m2: Mem, m': Mem, x: Entry, ch: Chain, n: Forest, rest: Forest, lc: Forest,
                 nc: Forest, p: Entry?,
                 modules: Sym, log: seq<Entry>, log1: seq<Entry>, log': seq<Entry>)
    requires rest.Menu? && TakeLoop(m, m1, x, ch, n, rest, rest.x, p, modules, log, log1)
    requires Finalized(m1, m2, rest.x, rest.list, rest.next, lc, nc, modules)
    requires Rep(m2, Menu(rest.x, lc, nc), rest.x, p)
    requires rest.x in m2 && m' == m2[rest.x := m2[rest.x].(parent := x)]
    requires log' == log1 + ([rest.x] + Pre(lc))
    ensures TakeLoop(m, m', x, Then(ch, rest.x, lc), n, nc, m'[rest.x].next, p, modules, log, log')
    ensures |Pre(nc)| < |Pre(rest)|
  {
    TakeBundle(m, m1, m2, m', x, ch, n, rest, lc, nc, p, modules);
    Assoc(log, PreC(ch), [rest.x] + Pre(lc));
  }

  /** The node at the front of the rest is finalized and becomes a child of x. */
  method TakeOne(menu: Entry, x: Entry, modules: Sym, ghost m: Mem, ghost m1: Mem, ghost ch: Chain, ghost n: Forest,
                 ghost rest: Forest,
                 ghost p: Entry?, ghost log: seq<Entry>, ghost log1: seq<Entry>)
    returns (ghost m': Mem, ghost ch': Chain, ghost rest': Forest, ghost log': seq<Entry>)
    requires Matches(m1) && TakeLoop(m, m1, x, ch, n, rest, menu, p, modules, log, log1)
    modifies m1.Keys`next, m1.Keys`parent, m1.Keys`list, m1.Keys`dep, m1.Keys`visible, m1.Keys`props
    ensures Matches(m') && TakeLoop(m, m', x, ch', n, rest', menu.next, p, modules, log, log')
    ensures ch'.Then? && ch'.x == menu && ch'.prev == ch && AllFlat(ch'.list) && |Pre(rest')| < |Pre(rest)|
    ensures Kept(n, Join(ch, rest)) ==> Kept(n, Join(ch', rest'))
    decreases |Pre(rest)|, 3
  {
    TakeReady(m, m1, x, ch, n, rest, menu, p, modules, log, log1);
    ghost var m2, lc, nc;
    m2, lc, nc, log' := Finalize(menu, modules, m1, rest.list, rest.next, p, log1);
    m' := SetParent(menu, x, m2);
    TakeNext(m, m1, m2, m', x, ch, n, rest, lc, nc, p, modules, log, log1, log');
    ch', rest' := Then(ch, rest.x, lc), nc;
    if Kept(n, Join(ch, rest)) { KeptStep(n, ch, rest, lc, nc); }
  }

  /** The loop over the nodes after x: those that follow the symbol become children of x. */
  method TakeNodes(x: Entry, sym: Sym, modules: Sym, ghost m: Mem, ghost n: Forest, ghost p: Entry?,
                   ghost log: seq<Entry>)
    returns (last: Entry?, ghost e: Entry?, ghost m': Mem, ghost ch: Chain, ghost rest: Forest, ghost log': seq<Entry>)
    requires Matches(m) && Rep(m, Menu(x, Nil, n), x, p) && NoDup(Pre(Menu(x, Nil, n)))
    modifies m.Keys`next, m.Keys`parent, m.Keys`list, m.Keys`dep, m.Keys`visible, m.Keys`props
    ensures Matches(m') && TakeLoop(m, m', x, ch, n, rest, e, p, modules, log, log')
    ensures last == (if ch.Start? then null else ch.x)
    ensures AllFollow(ch, m, sym, BaseDep(x, m[x])) && ChainBelow(ch) && Kept(n, Join(ch, rest))
    ensures rest.Menu? ==> rest.x in m && !Follows(sym, BaseDep(x, m[x]), PlaceDep(rest.x, m[rest.x]))
    decreases |Pre(Menu(x, Nil, n))|, 0
  {
    TakeStart(m, x, n, p, modules, log);
    m', log' := m, log;
    ch, rest := Start, n;
    var base := if x.hasPrompt then x.visible else None;
    var menu := x.next;
    last := null;
    while menu != null
      invariant Matches(m') && TakeLoop(m, m', x, ch, n, rest, menu, p, modules, log, log')
      invariant last == (if ch.Start? then null else ch.x) && AllFollow(ch, m, sym, base) && ChainBelow(ch)
      invariant Kept(n, Join(ch, rest))
      decreases |Pre(rest)|
    {
      TakeReady(m, m', x, ch, n, rest, menu, p, modules, log, log');
      if !Follows(sym, base, if menu.hasPrompt then menu.visible else menu.dep) { break; }
      m', ch, rest, log' := TakeOne(menu, x, modules, m, m', ch, n, rest, p, log, log');
      last := menu;
      menu := menu.next;
    }
    e := menu;
  }

  /** Automatic submenu creation: the nodes right after x that follow its symbol, as far as they
      do, go below x. */
  method Submenu(x: Entry, sym: Sym, modules: Sym, ghost m: Mem, ghost n: Forest, ghost p: Entry?,
                 ghost log: seq<Entry>)
    returns (ghost m': Mem, ghost l': Forest, ghost n': Forest, ghost log': seq<Entry>)
    requires Matches(m) && Rep(m, Menu(x, Nil, n), x, p) && NoDup(Pre(Menu(x, Nil, n)))
    modifies m.Keys`next, m.Keys`parent, m.Keys`list, m.Keys`dep, m.Keys`visible, m.Keys`props
    ensures Matches(m') && Rep(m', Menu(x, l', n'), x, p) && Finalized(m, m', x, Nil, n, l', n', modules)
    ensures log' == log + Pre(l') && BelowFlat(l') && Kept(Menu(x, Nil, n), Menu(x, l', n'))
    ensures forall y :: y in Level(l') ==> y in m && Follows(sym, BaseDep(x, m[x]), PlaceDep(y, m[y]))
    ensures n'.Menu? ==> n'.x in m && !Follows(sym, BaseDep(x, m[x]), PlaceDep(n'.x, m[n'.x]))
    ensures n'.Menu? && !IsYmn(sym) && PlaceDep(n'.x, m[n'.x]).Some? ==>
      !Belongs(sym, BaseDep(x, m[x]), PlaceDep(n'.x, m[n'.x]).value)
    ensures var base := BaseDep(x, m[x]); IsTriSym(sym) && OptNormal(base) && OptPlain(base) ==>
      LevelNeeds(m, l', sym, base)
    decreases |Pre(Menu(x, Nil, n))|, 1
  {
    ghost var e, m1, ch, rest;
    var last;
    last, e, m1, ch, rest, log' := TakeNodes(x, sym, modules, m, n, p, log);
    m', l', n' := m1, Join(ch, Nil), rest;
    FollowLevel(ch, m, sym, BaseDep(x, m[x]));
    if rest.Menu? && !IsYmn(sym) { NothingLeftBehind(sym, BaseDep(x, m[x]), PlaceDep(rest.x, m[rest.x])); }
    JoinBelow(ch, Nil);
    HeadApart(x, Nil, n);
    KeptTaken(x, n, ch, rest);
    if IsTriSym(sym) && OptNormal(BaseDep(x, m[x])) && OptPlain(BaseDep(x, m[x])) {
      FollowersNeed(m, l', sym, BaseDep(x, m[x]));
    }
    if last != null {
      LinkNoDup(x, ch, rest);
      m' := LinkBelow(x, last, m1);
      SubmenuLinked(m, m1, m', x, ch, n, rest, e, p, modules, log, log');
    } else {
      SubmenuEmpty(m, m1, x, n, rest, e, p, modules, log, log');
    }
  }

  lemma SubmenuLinked(m: Mem, m1: Mem, m': Mem, x: Entry, ch: Chain, n: Forest, rest: Forest, e: Entry?, p: Entry?,
                      modules: Sym, log: seq<Entry>, log': seq<Entry>)
    requires ch.Then? && NoDup(Pre(Menu(x, Nil, n))) && TakeLoop(m, m1, x, ch, n, rest, e, p, modules, log, log')
    requires x in m1 && ch.x in m1
    requires m' == m1[x := m1[x].(list := m1[x].next, next := m1[ch.x].next)][ch.x := m1[ch.x].(next := null)]
    ensures Rep(m', Menu(x, Join(ch, Nil), rest), x, p) && log' == log + Pre(Join(ch, Nil))
    ensures Finalized(m, m', x, Nil, n, Join(ch, Nil), rest, modules)
  {
    JoinPre(ch, Nil);
    LinkNoDup(x, ch, rest);
    LinkStep(m1, m', x, ch, rest, e, p);
    LinkOnly(m1, m', x, ch);
    SubmenuFinalized(m, m1, m', x, n, ch, rest, modules);
  }

  lemma SubmenuEmpty(m: Mem, m1: Mem, x: Entry, n: Forest, rest: Forest, e: Entry?, p: Entry?,
                     modules: Sym, log: seq<Entry>, log': seq<Entry>)
    requires NoDup(Pre(Menu(x, Nil, n))) && TakeLoop(m, m1, x, Start, n, rest, e, p, modules, log, log')
    ensures Rep(m1, Menu(x, Nil, rest), x, p) && log' == log + Pre(Nil)
    ensures Finalized(m, m1, x, Nil, n, Nil, rest, modules)
  {
    SubmenuFinalized(m, m1, m1, x, n, Start, rest, modules);
  }

  /** Every node taken follows the symbol. */
  predicate AllFollow(ch: Chain, m: Mem, sym: Sym, base: Option<Expr>) {
    ch.Then? ==> ch.x in m && Follows(sym, base, PlaceDep(ch.x, m[ch.x])) && AllFollow(ch.prev, m, sym, base)
  }

  lemma FollowLevel(ch: Chain, m: Mem, sym: Sym, base: Option<Expr>)
    requires AllFollow(ch, m, sym, base)
    ensures forall y :: y in Level(Join(ch, Nil)) ==> y in m && Follows(sym, base, PlaceDep(y, m[y]))
  {
    JoinLevel(ch, Nil);
    ChainFollow(ch, m, sym, base);
  }

  lemma {:induction false} ChainFollow(ch: Chain, m: Mem, sym: Sym, base: Option<Expr>)
    requires AllFollow(ch, m, sym, base)
    ensures forall y :: y in ChainLevel(ch) ==> y in m && Follows(sym, base, PlaceDep(y, m[y]))
  {
    if ch.Then? { ChainFollow(ch.prev, m, sym, base); }
  }

  function ChainLevel(ch: Chain): seq<Entry> { if ch.Start? then [] else ChainLevel(ch.prev) + [ch.x] }

  lemma {:induction false} JoinLevel(ch: Chain, f: Forest)
    ensures Level(Join(ch, f)) == ChainLevel(ch) + Level(f)
    decreases ch
  {
    if ch.Then? {
      JoinLevel(ch.prev, Menu(ch.x, ch.list, f));
      Assoc(ChainLevel(ch.prev), [ch.x], Level(f));
    }
  }

  lemma TakeBundle(m: Mem, m1: Mem, m2: Mem, m': Mem, x: Entry, ch: Chain, n: Forest, rest: Forest, lc: Forest,
                   nc: Forest, p: Entry?, modules: Sym)
    requires rest.Menu? && NoDup(Pre(n)) && Progress(m, m1, n, rest, modules) && OnlyIn(m, m1, PreC(ch))
    requires Beside(m1, x, ch, rest, rest.x, p) && NoDup(Order(x, ch, rest, Nil))
    requires Finalized(m1, m2, rest.x, rest.list, rest.next, lc, nc, modules)
    requires Rep(m2, Menu(rest.x, lc, nc), rest.x, p)
    requires rest.x in m2 && m' == m2[rest.x := m2[rest.x].(parent := x)]
    ensures Beside(m', x, Then(ch, rest.x, lc), nc, m'[rest.x].next, p)
    ensures Order(x, Then(ch, rest.x, lc), nc, Nil) == Order(x, ch, rest, Nil)
    ensures PreC(Then(ch, rest.x, lc)) + Pre(nc) == PreC(ch) + Pre(rest)
    ensures Progress(m, m', n, nc, modules) && OnlyIn(m, m', PreC(Then(ch, rest.x, lc)))
  {
    SuffixPre(rest, n);
    HeadApart(rest.x, rest.list, rest.next);
    LinkChange(m2, m2, m', [rest.x] + Pre(lc), rest.x);
    FinalizedLinks(m1, m2, m', rest.x, rest.list, rest.next, lc, nc, lc, modules);
    ProgressStep(m, m1, m', n, rest, lc, nc, modules);
    Widen(m1, m2, [rest.x] + Pre(lc), Pre(rest));
    TakeStep(m1, m2, m', x, ch, rest, rest.x, lc, nc, p);
    Widen(m, m1, PreC(ch), PreC(Then(ch, rest.x, lc)));
    OnlyInTrans(m, m1, m', PreC(Then(ch, rest.x, lc)), [rest.x] + Pre(lc));
  }

  lemma LinkOnly(m: Mem, m': Mem, x: Entry, ch: Chain)
    requires ch.Then? && x in m && ch.x in m && x != ch.x
    requires m' == m[x := m[x].(list := m[x].next, next := m[ch.x].next)][ch.x := m[ch.x].(next := null)]
    ensures LinksOnly(m, m', [x] + PreC(ch))
  {
    assert ch.x in PreC(ch.prev) + ([ch.x] + Pre(ch.list));
    var m1 := m[x := m[x].(list := m[x].next, next := m[ch.x].next)];
    LinkChange(m, m, m1, [x] + PreC(ch), x);
    LinkChange(m, m1, m', [x] + PreC(ch), ch.x);
  }

  lemma TakenBelow(x: Entry, l: Forest, n': Forest, n: Forest)
    requires Pre(l) + Pre(n') == Pre(n)
    ensures Pre(Menu(x, l, n')) == Pre(Menu(x, Nil, n))
  {
    Assoc([x], Pre(l), Pre(n'));
    assert Pre(Nil) == [] && [x] + [] == [x];
  }

  lemma SubmenuFinalized(m: Mem, m1: Mem, m': Mem, x: Entry, n: Forest, ch: Chain, rest: Forest, modules: Sym)
    requires x in m && NoDup(Pre(Menu(x, Nil, n))) && Progress(m, m1, n, rest, modules) && OnlyIn(m, m1, PreC(ch))
    requires LinksOnly(m1, m', [x] + PreC(ch)) && PreC(ch) + Pre(rest) == Pre(n)
    ensures Finalized(m, m', x, Nil, n, Join(ch, Nil), rest, modules)
  {
    HeadApart(x, Nil, n);
    JoinPre(ch, Nil);
    assert Pre(Join(ch, Nil)) == PreC(ch);
    assert forall y :: y in PreC(ch) ==> y in PreC(ch) + Pre(rest);
    TakenBelow(x, Join(ch, Nil), rest, n);
    Widen(m, m1, PreC(ch), [x] + PreC(ch));
    FinalizedLinks(m, m1, m', x, Nil, n, Join(ch, Nil), rest, Join(ch, Nil), modules);
  }

  /** Makes the nodes after x up to last the level below x. */
  method LinkBelow(x: Entry, last: Entry, ghost m: Mem) returns (ghost m': Mem)
    requires Matches(m) && x in m && last in m && x != last
    modifies x`next, x`list, last`next
    ensures Matches(m')
    ensures m' == m[x := m[x].(list := m[x].next, next := m[last].next)][last := m[last].(next := null)]
  {
    x.list := x.next;
    x.next := last.next;
    m' := m[x := m[x].(list := m[x].next, next := m[last].next)];
    m' := SetNext(last, null, m');
  }
}

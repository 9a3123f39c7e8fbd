/** The menu tree of kconf/menu.c: nodes linked by list, next and parent, the forest such nodes
    represent, and its order. */
module MenuTree {
  import opened KconfigExpr

  /** struct menu, as far as menu_finalize uses it for the shape of the tree. `visible` is the
      condition of the prompt, and `props` are those of the other properties that the node's symbol
      has here: defaults, selects, implies and ranges. */
  class Entry {
    var next: Entry?
    var parent: Entry?
    var list: Entry?
    var dep: Option<Expr>
    var visible: Option<Expr>
    var props: seq<Option<Expr>>
    const sym: Option<Sym>
    const choice: bool
    const hasPrompt: bool
    const hasText: bool

    constructor (sym: Option<Sym>, choice: bool, hasPrompt: bool, hasText: bool, parent: Entry?,
                 dep: Option<Expr>, visible: Option<Expr>, props: seq<Option<Expr>>)
      ensures this.next == null && this.list == null && this.parent == parent
      ensures this.dep == dep && this.visible == visible && this.props == props
    {
      this.sym, this.choice, this.hasPrompt, this.hasText := sym, choice, hasPrompt, hasText;
      this.next, this.list, this.parent := null, null, parent;
      this.dep, this.visible, this.props := dep, visible, props;
    }
  }

  datatype Fields = Fields(next: Entry?, parent: Entry?, list: Entry?,
                           dep: Option<Expr>, visible: Option<Expr>, props: seq<Option<Expr>>)

  /** A snapshot of the nodes. */
  type Mem = map<Entry, Fields>

  ghost predicate Matches(m: Mem)
    reads m.Keys
  {
    forall x :: x in m ==> m[x] == Fields(x.next, x.parent, x.list, x.dep, x.visible, x.props)
  }

  /** A node, the nodes below it, and the nodes after it at the same level. */
  datatype Forest = Nil | Menu(x: Entry, list: Forest, next: Forest)

  /** The order of the nodes: each before those below it, and those before the ones after it. */
  function Pre(f: Forest): seq<Entry> {
    match f
    case Nil => []
    case Menu(x, l, n) => [x] + Pre(l) + Pre(n)
  }

  /** From n on the memory holds f at one level, below p. */
  predicate Rep(m: Mem, f: Forest, n: Entry?, p: Entry?) {
    match f
    case Nil => n == null
    case Menu(x, l, r) =>
      n == x && x in m && m[x].parent == p && Rep(m, l, m[x].list, x) && Rep(m, r, m[x].next, p)
  }

  /** The first nodes of a level, in the direction of the last one. */
  datatype Chain = Start | Then(prev: Chain, x: Entry, list: Forest)

  function PreC(ch: Chain): seq<Entry> {
    match ch
    case Start => []
    case Then(prev, x, l) => PreC(prev) + ([x] + Pre(l))
  }

  /** From n up to but not including e the memory holds ch, below p. */
  predicate ChainRep(m: Mem, ch: Chain, n: Entry?, p: Entry?, e: Entry?) {
    match ch
    case Start => n == e
    case Then(prev, x, l) =>
      x in m && m[x].parent == p && Rep(m, l, m[x].list, x) && m[x].next == e && ChainRep(m, prev, n, p, x)
  }

  function Join(ch: Chain, rest: Forest): Forest
    decreases ch
  {
    match ch
    case Start => rest
    case Then(prev, x, l) => Join(prev, Menu(x, l, rest))
  }

  lemma {:induction false} JoinRep(m: Mem, ch: Chain, rest: Forest, n: Entry?, p: Entry?, e: Entry?)
    requires ChainRep(m, ch, n, p, e) && Rep(m, rest, e, p)
    ensures Rep(m, Join(ch, rest), n, p)
    decreases ch
  {
    match ch
    case Start =>
    case Then(prev, x, l) => JoinRep(m, prev, Menu(x, l, rest), n, p, x);
  }

  lemma Assoc(a: seq<Entry>, b: seq<Entry>, c: seq<Entry>)
    ensures (a + b) + c == a + (b + c)
  {
  }

  lemma {:induction false} JoinPre(ch: Chain, rest: Forest)
    ensures Pre(Join(ch, rest)) == PreC(ch) + Pre(rest)
    decreases ch
  {
    match ch
    case Start =>
    case Then(prev, x, l) =>
      JoinPre(prev, Menu(x, l, rest));
      Assoc(PreC(prev), [x] + Pre(l), Pre(rest));
  }

  // ---------- parts of a forest ----------

  /** Two levels one after the other. */
  function Append(f: Forest, g: Forest): (r: Forest)
    ensures Pre(r) == Pre(f) + Pre(g)
  {
    if f.Nil? then g
    else
      Assoc([f.x] + Pre(f.list), Pre(f.next), Pre(g));
      Menu(f.x, f.list, Append(f.next, g))
  }

  /** The level below x. */
  function ListOf(f: Forest, x: Entry): Forest {
    if f.Nil? then Nil
    else if x == f.x then f.list
    else if x in Pre(f.list) then ListOf(f.list, x)
    else ListOf(f.next, x)
  }

  lemma {:induction false} ListOfAppend(f: Forest, g: Forest, y: Entry)
    ensures ListOf(Append(f, g), y) == if y in Pre(f) then ListOf(f, y) else ListOf(g, y)
  {
    if f.Menu? { ListOfAppend(f.next, g, y); }
  }

  lemma {:induction false} AppendAssoc(f: Forest, g: Forest, h: Forest)
    ensures Append(Append(f, g), h) == Append(f, Append(g, h))
  {
    if f.Menu? { AppendAssoc(f.next, g, h); }
  }

  lemma {:induction false} JoinAppend(ch: Chain, f: Forest)
    ensures Join(ch, f) == Append(Join(ch, Nil), f)
    decreases ch
  {
    if ch.Then? {
      JoinAppend(ch.prev, Menu(ch.x, ch.list, f));
      JoinAppend(ch.prev, Menu(ch.x, ch.list, Nil));
      AppendAssoc(Join(ch.prev, Nil), Menu(ch.x, ch.list, Nil), f);
    }
  }

  /** Only nodes with a prompt text are shown with the nodes below them. */
  predicate Titled(y: Entry) { y.hasPrompt && y.hasText }

  /** Each such node that has nodes below it in f has the same ones, at whatever depth, in f'. */
  ghost predicate Kept(f: Forest, f': Forest) {
    forall y :: y in Pre(f) && Titled(y) && ListOf(f, y).Menu? ==> Pre(ListOf(f', y)) == Pre(ListOf(f, y))
  }

  lemma KeptTrans(f: Forest, f1: Forest, f2: Forest)
    requires Kept(f, f1) && Kept(f1, f2) && Pre(f1) == Pre(f)
    ensures Kept(f, f2)
  {
    forall y | y in Pre(f) && Titled(y) && ListOf(f, y).Menu? ensures Pre(ListOf(f2, y)) == Pre(ListOf(f, y)) {
      assert Pre(ListOf(f1, y)) != [];
    }
  }

  lemma KeptAt(f: Forest, f': Forest, y: Entry)
    requires Kept(f, f') && y in Pre(f) && Titled(y) && ListOf(f, y).Menu?
    ensures Pre(ListOf(f', y)) == Pre(ListOf(f, y))
  {
  }

  lemma InList(x: Entry, l: Forest, n: Forest, y: Entry)
    requires y in Pre(l) && y != x
    ensures y in Pre(Menu(x, l, n)) && ListOf(Menu(x, l, n), y) == ListOf(l, y)
  {
  }

  lemma KeptNext(x: Entry, l: Forest, n: Forest, n': Forest)
    requires Kept(n, n')
    ensures Kept(Menu(x, l, n), Menu(x, l, n'))
  {
  }

  lemma KeptList(x: Entry, l: Forest, l': Forest, n: Forest)
    requires Kept(l, l') && Pre(l') == Pre(l)
    ensures Kept(Menu(x, l, n), Menu(x, l', n))
  {
  }

  /** A node without a prompt text may lose the level below it to its own level. */
  lemma KeptHoist(x: Entry, l: Forest, n: Forest, f: Forest)
    requires !Titled(x) && Kept(Append(l, n), f)
    ensures Kept(Menu(x, l, n), Menu(x, Nil, f))
  {
    var g := Menu(x, l, n);
    forall y | y in Pre(g) && Titled(y) && ListOf(g, y).Menu?
      ensures Pre(ListOf(Menu(x, Nil, f), y)) == Pre(ListOf(g, y))
    {
      ListOfAppend(l, n, y);
      assert Pre(Nil) == [];
    }
  }

  /** Nodes after x become the level below it. */
  lemma KeptTaken(x: Entry, n: Forest, ch: Chain, rest: Forest)
    requires Kept(n, Join(ch, rest)) && x !in Pre(n)
    ensures Kept(Menu(x, Nil, n), Menu(x, Join(ch, Nil), rest))
  {
    var f := Menu(x, Join(ch, Nil), rest);
    JoinAppend(ch, rest);
    forall y | y in Pre(Menu(x, Nil, n)) && Titled(y) && ListOf(Menu(x, Nil, n), y).Menu?
      ensures Pre(ListOf(f, y)) == Pre(ListOf(Menu(x, Nil, n), y))
    {
      ListOfAppend(Join(ch, Nil), rest, y);
      assert Pre(Nil) == [];
    }
  }

  lemma KeptAfter(g: Forest, f: Forest, f': Forest)
    requires Kept(f, f')
    ensures Kept(Append(g, f), Append(g, f'))
  {
    forall y ensures ListOf(Append(g, f), y) == if y in Pre(g) then ListOf(g, y) else ListOf(f, y) {
      ListOfAppend(g, f, y);
    }
    forall y ensures ListOf(Append(g, f'), y) == if y in Pre(g) then ListOf(g, y) else ListOf(f', y) {
      ListOfAppend(g, f', y);
    }
  }

  lemma KeptJoin(ch: Chain, f: Forest, f': Forest)
    requires Kept(f, f')
    ensures Kept(Join(ch, f), Join(ch, f'))
  {
    JoinAppend(ch, f);
    JoinAppend(ch, f');
    KeptAfter(Join(ch, Nil), f, f');
  }

  // ---------- frames ----------

  predicate SameOn(m: Mem, m': Mem, q: seq<Entry>) {
    forall x :: x in q && x in m ==> x in m' && m'[x] == m[x]
  }

  lemma {:induction false} RepFrame(m: Mem, m': Mem, f: Forest, n: Entry?, p: Entry?)
    requires Rep(m, f, n, p) && SameOn(m, m', Pre(f))
    ensures Rep(m', f, n, p)
  {
    match f
    case Nil =>
    case Menu(x, l, r) => RepFrame(m, m', l, m[x].list, x); RepFrame(m, m', r, m[x].next, p);
  }

  lemma {:induction false} ChainFrame(m: Mem, m': Mem, ch: Chain, n: Entry?, p: Entry?, e: Entry?)
    requires ChainRep(m, ch, n, p, e) && SameOn(m, m', PreC(ch))
    ensures ChainRep(m', ch, n, p, e)
  {
    match ch
    case Start =>
    case Then(prev, x, l) => RepFrame(m, m', l, m[x].list, x); ChainFrame(m, m', prev, n, p, x);
  }

  // ---------- distinct nodes ----------

  ghost predicate NoDup(q: seq<Entry>) { forall i, j :: 0 <= i < j < |q| ==> q[i] != q[j] }

  ghost predicate Apart(a: seq<Entry>, b: seq<Entry>) { forall x :: x in a ==> x !in b }

  lemma NoDupSplit(a: seq<Entry>, b: seq<Entry>)
    requires NoDup(a + b)
    ensures NoDup(a) && NoDup(b) && Apart(a, b)
  {
    var q := a + b;
    forall i, j | 0 <= i < j < |a| ensures a[i] != a[j] { assert q[i] != q[j]; }
    forall i, j | 0 <= i < j < |b| ensures b[i] != b[j] { assert q[|a| + i] != q[|a| + j]; }
    forall i, j | 0 <= i < |a| && 0 <= j < |b| ensures a[i] != b[j] { assert q[i] != q[|a| + j]; }
  }
}

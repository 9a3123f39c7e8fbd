/** The search for recursive dependencies (sym_check_deps and its helpers in kconf/symbol.c, and
    its caller conf_parse in kconf/zconf.y), for symbols that are in no choice. */
module SymCycles {
  import opened KconfigExpr

  datatype PropKind = DefaultProp | SelectProp | OtherProp

  /** struct property: its condition, and the value of a default. */
  datatype Prop = Prop(kind: PropKind, visible: Option<Expr>, value: Option<Expr>)

  /** What a symbol refers to. */
  datatype Info = Info(revDep: Option<Expr>, props: seq<Prop>)

  type Table = map<Sym, Info>

  // ---------- the graph ----------

  function Mentions(e: Expr): set<Sym> {
    match e
    case Symbol(s) => {s}
    case Not(a) => Mentions(a)
    case Bin(_, l, r) => Mentions(l) + Mentions(r)
    case Compare(_, a, b) => {a, b}
  }

  /** expr_contains_symbol says yes for exactly the symbols that occur. */
  lemma {:induction false} ContainsExactly(e: Expr, s: Sym)
    ensures Contains(e, s) <==> s in Mentions(e)
  {
    match e
    case Not(a) => ContainsExactly(a, s);
    case Bin(_, l, r) => ContainsExactly(l, s); ContainsExactly(r, s);
    case _ =>
  }

  function MentionsOpt(e: Option<Expr>): set<Sym> { if e.None? then {} else Mentions(e.value) }

  /** A select is no reference of the selecting symbol: the selected one has it in its revDep. */
  function PropRefs(p: Prop): set<Sym> {
    if p.kind == SelectProp then {}
    else MentionsOpt(p.visible) + (if p.kind == DefaultProp then MentionsOpt(p.value) else {})
  }

  function PropsRefs(ps: seq<Prop>): set<Sym> {
    if ps == [] then {} else PropsRefs(ps[..|ps| - 1]) + PropRefs(ps[|ps| - 1])
  }

  function Refs(i: Info): set<Sym> { MentionsOpt(i.revDep) + PropsRefs(i.props) }

  predicate Edge(t: Table, a: Sym, b: Sym) { a in t && b in Refs(t[a]) }

  /** Every symbol referred to is in the table. */
  ghost predicate Closed(t: Table) { forall a, b :: Edge(t, a, b) ==> b in t }

  predicate Linked(t: Table, q: seq<Sym>) { forall i :: 0 <= i < |q| - 1 ==> Edge(t, q[i], q[i + 1]) }

  predicate IsCycle(t: Table, q: seq<Sym>) { q != [] && Linked(t, q) && Edge(t, q[|q| - 1], q[0]) }

  /** Each symbol comes after all it refers to. */
  predicate Topological(t: Table, order: seq<Sym>) {
    forall i :: 0 <= i < |order| ==> order[i] in t && forall b :: b in Refs(t[order[i]]) ==> b in order[..i]
  }

  lemma TopologicalSnoc(t: Table, order: seq<Sym>, a: Sym)
    requires Topological(t, order) && a in t && forall b :: b in Refs(t[a]) ==> b in order
    ensures Topological(t, order + [a])
  {
    var q := order + [a];
    forall i, b | 0 <= i < |q| && b in Refs(t[q[i]]) ensures b in q[..i] {
      assert q[..i] == order[..i];
    }
  }

  /** Along a path the places in the order go down. */
  lemma {:induction false} PathDescends(t: Table, order: seq<Sym>, q: seq<Sym>, i: nat)
    requires Topological(t, order) && q != [] && Linked(t, q) && i < |order| && order[i] == q[0]
    ensures exists j :: 0 <= j <= i && order[j] == q[|q| - 1] && (|q| > 1 ==> j < i)
    decreases |q|
  {
    if |q| > 1 {
      assert Edge(t, q[0], q[1]);
      var k :| 0 <= k < i && order[k] == q[1];
      forall h | 0 <= h < |q[1..]| - 1 ensures Edge(t, q[1..][h], q[1..][h + 1]) { assert Edge(t, q[h + 1], q[h + 2]); }
      PathDescends(t, order, q[1..], k);
    }
  }

  /** What is in a topological order is on no cycle. */
  lemma NoCycleAt(t: Table, order: seq<Sym>, q: seq<Sym>, i: nat)
    requires Topological(t, order) && IsCycle(t, q) && i < |order|
    ensures order[i] != q[0]
    decreases i
  {
    if order[i] == q[0] {
      PathDescends(t, order, q, i);
      var j :| 0 <= j <= i && order[j] == q[|q| - 1];
      assert Edge(t, order[j], q[0]);
      var k :| 0 <= k < j && order[k] == q[0];
      NoCycleAt(t, order, q, k);
    }
  }

  lemma RotateCycle(t: Table, q: seq<Sym>, k: nat)
    requires IsCycle(t, q) && k < |q|
    ensures IsCycle(t, q[k..] + q[..k]) && (q[k..] + q[..k])[0] == q[k]
  {
    var r := q[k..] + q[..k];
    forall i | 0 <= i < |r| - 1 ensures Edge(t, r[i], r[i + 1]) {
      if i < |q| - k - 1 { assert r[i] == q[k + i] && r[i + 1] == q[k + i + 1]; }
      else if i == |q| - k - 1 { assert r[i] == q[|q| - 1] && r[i + 1] == q[0]; }
      else { assert r[i] == q[i - (|q| - k)] && r[i + 1] == q[i - (|q| - k) + 1]; }
    }
    if k > 0 { assert r[|r| - 1] == q[k - 1] && r[0] == q[k]; } else { assert r == q; }
  }

  lemma OffCycles(t: Table, order: seq<Sym>, q: seq<Sym>, s: Sym)
    requires Topological(t, order) && IsCycle(t, q) && s in order
    ensures s !in q
  {
    if s in q {
      var k, i :| 0 <= k < |q| && q[k] == s && 0 <= i < |order| && order[i] == s;
      RotateCycle(t, q, k);
      NoCycleAt(t, order, q[k..] + q[..k], i);
    }
  }

  // ---------- the search ----------

  predicate NoDup(q: seq<Sym>) { forall i, j :: 0 <= i < j < |q| ==> q[i] != q[j] }

  function ToSet(q: seq<Sym>): set<Sym> { set s | s in q }

  /** s can be checked next: it is referred to by the symbol on top of the stack. */
  predicate NextOn(t: Table, stack: seq<Sym>, s: Sym) { s in t && (stack != [] ==> Edge(t, stack[|stack| - 1], s)) }

  lemma PushSet(q: seq<Sym>, a: Sym)
    ensures ToSet(q + [a]) == ToSet(q) + {a}
  {
  }

  class Checker {
    const table: Table
    /** The symbols with SYMBOL_CHECK, and with SYMBOL_CHECKED. */
    var check: set<Sym>
    var checked: set<Sym>
    /** The symbols of the dep_stack entries, bottom first. */
    var stack: seq<Sym>
    /** What sym_check_print_recursive printed. */
    var reports: seq<seq<Sym>>
    /** The symbols in the order in which their check ended. */
    ghost var order: seq<Sym>

    constructor (table: Table)
      requires Closed(table)
      ensures this.table == table && Valid() && stack == [] && reports == [] && order == []
    {
      this.table := table;
      check, checked, stack, reports, order := {}, {}, [], [], [];
    }

    /** `entering` is a symbol whose flags are set but which is not yet on the stack. */
    ghost predicate Inv(entering: set<Sym>)
      reads this
    {
      && Closed(table) && checked <= table.Keys
      && check == ToSet(stack) + entering && NoDup(stack) && Linked(table, stack) && check <= checked
      && (forall q :: q in reports ==> IsCycle(table, q))
      && (reports == [] ==> Topological(table, order) && checked == check + ToSet(order))
    }

    ghost predicate Valid()
      reads this
    {
      Inv({})
    }

    /** sym_check_print_recursive: the stack from the symbol up is printed. */
    method PrintRecursive(sym: Sym)
      requires Valid() && NextOn(table, stack, sym) && sym in check
      modifies this`reports
      ensures Valid() && reports != []
    {
      var k := |stack| - 1;
      while k >= 0 && stack[k] != sym
        invariant -1 <= k < |stack| && sym !in stack[k + 1..]
      {
        k := k - 1;
      }
      if k >= 0 {
        ghost var q := stack[k..];
        forall h | 0 <= h < |q| - 1
          ensures Edge(table, q[h], q[h + 1])
        {
          assert Edge(table, stack[k + h], stack[k + h + 1]);
        }
        reports := reports + [stack[k..]];
      }
    }

    /** sym_check_deps. A symbol it returns is still being checked further down the stack. */
    method CheckDeps(sym: Sym) returns (r: Option<Sym>)
      requires Valid() && NextOn(table, stack, sym)
      modifies this`check, this`checked, this`stack, this`reports, this`order
      ensures Valid() && stack == old(stack) && old(checked) <= checked
      ensures reports == [] ==> old(reports) == [] && old(order) <= order
      ensures r.Some? ==> r.value in check && reports != []
      ensures reports == [] ==> sym in order
      decreases table.Keys - checked, 0
    {
      if sym in check {
        PrintRecursive(sym);
        return Some(sym);
      }
      if sym in checked { return None; }
      check, checked := check + {sym}, checked + {sym};
      r := CheckSymDeps(sym);
      check := check - {sym};
      if reports == [] {
        TopologicalSnoc(table, order, sym);
        order := order + [sym];
      }
      if r == Some(sym) { r := None; }
    }

    /** sym_check_expr_deps, for the symbol on top of the stack. */
    method CheckExprDeps(e: Expr) returns (r: Option<Sym>)
      requires Valid() && forall s :: s in Mentions(e) ==> NextOn(table, stack, s)
      modifies this`check, this`checked, this`stack, this`reports, this`order
      ensures Valid() && stack == old(stack) && old(checked) <= checked
      ensures reports == [] ==> old(reports) == [] && old(order) <= order
      ensures r.Some? ==> r.value in check && reports != []
      ensures reports == [] ==> Mentions(e) <= ToSet(order)
      decreases table.Keys - checked, 1, e
    {
      match e
      case Symbol(s) => r := CheckDeps(s);
      case Not(a) => r := CheckExprDeps(a);
      case Bin(_, a, b) =>
        r := CheckExprDeps(a);
        if r.None? { r := CheckExprDeps(b); }
      case Compare(_, a, b) =>
        r := CheckDeps(a);
        if r.None? { r := CheckDeps(b); }
    }

    method CheckOptDeps(e: Option<Expr>) returns (r: Option<Sym>)
      requires Valid() && forall s :: s in MentionsOpt(e) ==> NextOn(table, stack, s)
      modifies this`check, this`checked, this`stack, this`reports, this`order
      ensures Valid() && stack == old(stack) && old(checked) <= checked
      ensures reports == [] ==> old(reports) == [] && old(order) <= order
      ensures r.Some? ==> r.value in check && reports != []
      ensures reports == [] ==> MentionsOpt(e) <= ToSet(order)
      decreases table.Keys - checked, 2
    {
      r := None;
      if e.Some? { r := CheckExprDeps(e.value); }
    }

    /** sym_check_sym_deps. */
    method CheckSymDeps(sym: Sym) returns (r: Option<Sym>)
      requires Inv({sym}) && NextOn(table, stack, sym) && sym !in stack
      modifies this`check, this`checked, this`stack, this`reports, this`order
      ensures Inv({sym}) && stack == old(stack) && old(checked) <= checked
      ensures reports == [] ==> old(reports) == [] && old(order) <= order
      ensures r.Some? ==> r.value in check && reports != []
      ensures reports == [] ==> Refs(table[sym]) <= ToSet(order)
      decreases table.Keys - checked, 5
    {
      ghost var below := stack;
      stack := stack + [sym];
      PushSet(below, sym);
      forall s | s in Refs(table[sym]) ensures NextOn(table, stack, s) { assert Edge(table, sym, s); }
      r := CheckRefs(table[sym]);
      stack := stack[..|stack| - 1];
      assert stack == below;
    }

    /** The references of the symbol on top of the stack. */
    method CheckRefs(info: Info) returns (r: Option<Sym>)
      requires Valid() && forall s :: s in Refs(info) ==> NextOn(table, stack, s)
      modifies this`check, this`checked, this`stack, this`reports, this`order
      ensures Valid() && stack == old(stack) && old(checked) <= checked
      ensures reports == [] ==> old(reports) == [] && old(order) <= order
      ensures r.Some? ==> r.value in check && reports != []
      ensures reports == [] ==> Refs(info) <= ToSet(order)
      decreases table.Keys - checked, 4
    {
      r := CheckOptDeps(info.revDep);
      var i := 0;
      while r.None? && i < |info.props|
        invariant 0 <= i <= |info.props|
        invariant Valid() && stack == old(stack) && old(checked) <= checked
        invariant reports == [] ==> old(reports) == [] && old(order) <= order
        invariant r.Some? ==> r.value in check && reports != []
        invariant reports == [] ==> MentionsOpt(info.revDep) + PropsRefs(info.props[..i]) <= ToSet(order)
      {
        PropsStep(info.props, i);
        forall s | s in PropRefs(info.props[i]) ensures NextOn(table, stack, s) { assert s in Refs(info); }
        r := CheckProp(info.props[i]);
        i := i + 1;
      }
      if r.None? { assert info.props[..i] == info.props; }
    }

    /** One round of the loop over a symbol's properties. */
    method CheckProp(p: Prop) returns (r: Option<Sym>)
      requires Valid() && forall s :: s in PropRefs(p) ==> NextOn(table, stack, s)
      modifies this`check, this`checked, this`stack, this`reports, this`order
      ensures Valid() && stack == old(stack) && old(checked) <= checked
      ensures reports == [] ==> old(reports) == [] && old(order) <= order
      ensures r.Some? ==> r.value in check && reports != []
      ensures reports == [] ==> PropRefs(p) <= ToSet(order)
      decreases table.Keys - checked, 3
    {
      r := None;
      if p.kind == SelectProp { return; }
      r := CheckOptDeps(p.visible);
      if r.None? && p.kind == DefaultProp { r := CheckOptDeps(p.value); }
    }
  }

  lemma PropsStep(ps: seq<Prop>, i: nat)
    requires i < |ps|
    ensures PropsRefs(ps[..i + 1]) == PropsRefs(ps[..i]) + PropRefs(ps[i])
    ensures PropRefs(ps[i]) <= PropsRefs(ps)
  {
    assert ps[..i + 1][..i] == ps[..i];
    PropsMonotone(ps, i + 1);
  }

  lemma {:induction false} PropsMonotone(ps: seq<Prop>, i: nat)
    requires i <= |ps|
    ensures PropsRefs(ps[..i]) <= PropsRefs(ps)
    decreases |ps|
  {
    if i == |ps| { assert ps[..i] == ps; }
    else {
      PropsMonotone(ps[..|ps| - 1], i);
      assert ps[..|ps| - 1][..i] == ps[..i];
    }
  }

  /** The check of all symbols at the end of conf_parse. Every report is a cycle; without a report
      no symbol is on a cycle; and reported or not, no cycle is ever counted as an error. */
  method CheckAll(table: Table, all: seq<Sym>) returns (errors: int, reports: seq<seq<Sym>>, ghost order: seq<Sym>)
    requires Closed(table) && forall s :: s in all ==> s in table
    ensures forall q :: q in reports ==> IsCycle(table, q)
    ensures reports == [] ==> forall q, s :: IsCycle(table, q) && s in all ==> s !in q
    ensures reports == [] ==> Topological(table, order) && forall s :: s in all ==> s in order
    ensures errors == 0
  {
    var c := new Checker(table);
    errors := 0;
    var i := 0;
    while i < |all|
      invariant 0 <= i <= |all| && c.Valid() && c.table == table && c.stack == [] && errors == 0
      invariant c.reports == [] ==> forall j :: 0 <= j < i ==> all[j] in c.order
    {
      var r := c.CheckDeps(all[i]);
      if r.Some? { errors := errors + 1; }
      i := i + 1;
    }
    reports, order := c.reports, c.order;
    if reports == [] {
      forall q, s | IsCycle(table, q) && s in all ensures s !in q { OffCycles(table, c.order, q, s); }
    }
  }
}

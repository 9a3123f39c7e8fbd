/** What the dependencies and prompt conditions that menu_finalize (kconf/menu.c) leaves in the menu
    tree mean for availability and visibility. */
module MenuVisible {
  import opened KconfigExpr
  import opened MenuDeps
  import opened MenuTree
  import opened MenuFinalize
  import V = SymValues

  // ---------- shape ----------

  /** The shape that expr_transform makes and, for a symbol that is not tristate, expr_trans_bool. */
  predicate ConditionOk(x: Entry, e: Option<Expr>) {
    OptNormal(e) && (x.sym.Some? && TypeOf(x.sym.value) != Tristate ==> OptNoTest(e))
  }

  lemma ConditionNormal(x: Entry, dep: Option<Expr>, own: Option<Expr>, modules: Sym)
    requires OptNormal(dep)
    ensures ConditionOk(x, PromptDep(x, dep, own, modules))
  {
    PropagateNormal(dep, own, modules);
    BoolFormKeeps(Propagate(dep, own, modules));
  }

  lemma ParentNormal(x: Entry, pd: Option<Expr>, was: Fields, now: Fields, modules: Sym)
    requires Propagated(x, pd, was, now, modules) && OptNormal(pd)
    ensures OptNormal(now.dep) && (x.hasPrompt ==> ConditionOk(x, now.visible)) && OptNormal(ParentDep(x, now))
    ensures x.sym.Some? ==> forall i :: 0 <= i < |now.props| ==> ConditionOk(x, now.props[i])
  {
    PropagateNormal(pd, was.dep, modules);
    ConditionNormal(x, now.dep, was.visible, modules);
    if x.sym.Some? {
      forall i | 0 <= i < |now.props|
        ensures ConditionOk(x, now.props[i])
      {
        ConditionNormal(x, now.dep, was.props[i], modules);
      }
    }
  }

  /** Every dependency and every condition of a property in the finalized tree has the shape that
      expr_transform makes, and conditions of symbols that are not tristate test no tristate for being
      other than n. */
  lemma {:induction false} InheritedNormal(m0: Mem, m: Mem, f: Forest, pd: Option<Expr>, modules: Sym, y: Entry)
    requires Inherited(m0, m, f, pd, modules) && OptNormal(pd) && y in Pre(f)
    ensures y in m && OptNormal(m[y].dep) && ConditionOk(y, BaseDep(y, m[y]))
    ensures y.sym.Some? ==> forall i :: 0 <= i < |m[y].props| ==> ConditionOk(y, m[y].props[i])
  {
    ParentNormal(f.x, pd, m0[f.x], m[f.x], modules);
    if y in Pre(f.list) {
      InheritedNormal(m0, m, f.list, ParentDep(f.x, m[f.x]), modules, y);
    } else if y in Pre(f.next) {
      InheritedNormal(m0, m, f.next, pd, modules, y);
    }
  }

  /** So in the finalized tree every node that follows a symbol needs it, if its dependency is
      absolute or negates only bools. */
  lemma FollowersInTree(m0: Mem, m: Mem, f: Forest, pd: Option<Expr>, modules: Sym, x: Entry, y: Entry)
    requires Inherited(m0, m, f, pd, modules) && OptNormal(pd) && x in Pre(f) && y in Pre(f)
    ensures x in m && y in m
    ensures x.sym.Some? && IsTriSym(x.sym.value) && OptPlain(BaseDep(x, m[x]))
      && Follows(x.sym.value, BaseDep(x, m[x]), PlaceDep(y, m[y])) && Decidable(x.sym.value, PlaceDep(y, m[y]).value)
      ==> NeedsSymbol(x.sym.value, BaseDep(x, m[x]), PlaceDep(y, m[y]).value)
  {
    InheritedNormal(m0, m, f, pd, modules, x);
    InheritedNormal(m0, m, f, pd, modules, y);
    if x.sym.Some? && IsTriSym(x.sym.value) && OptPlain(BaseDep(x, m[x]))
      && Follows(x.sym.value, BaseDep(x, m[x]), PlaceDep(y, m[y])) && Decidable(x.sym.value, PlaceDep(y, m[y]).value)
    {
      FollowsNeedsSymbol(x.sym.value, BaseDep(x, m[x]), PlaceDep(y, m[y]).value);
    }
  }

  // ---------- availability ----------

  /** The dependencies and conditions as parsed make sense in env. */
  ghost predicate Sound(env: Env, m: Mem, f: Forest) {
    f.Menu? ==>
      && f.x in m && OptWellTyped(env, m[f.x].dep) && OptWellTyped(env, m[f.x].visible)
      && (forall i :: 0 <= i < |m[f.x].props| ==> OptWellTyped(env, m[f.x].props[i]))
      && Sound(env, m, f.list) && Sound(env, m, f.next)
  }

  /** A property's condition before simplification: the node's dependency and the property's own. */
  function Written(env: Env, dep: Option<Expr>, own: Option<Expr>, modules: Sym): Tri {
    TriOp(And, ValOpt(env, dep), if own.None? then YES else ValM(env, own.value, MLimit(env, modules)))
  }

  /** The condition is as written, except that for symbols that are not tristate only whether it
      is n is kept. */
  predicate AsWritten(env: Env, x: Entry, dep: Option<Expr>, own: Option<Expr>, cond: Option<Expr>, modules: Sym) {
    var v, w := ValOpt(env, cond), Written(env, dep, own, modules);
    (v == NO <==> w == NO) && (x.sym.None? || TypeOf(x.sym.value) == Tristate ==> v == w)
  }

  lemma ConditionValue(env: Env, x: Entry, dep: Option<Expr>, own: Option<Expr>, modules: Sym)
    requires OptNormal(dep) && OptWellTyped(env, dep) && OptWellTyped(env, own)
    ensures OptWellTyped(env, PromptDep(x, dep, own, modules))
    ensures AsWritten(env, x, dep, own, PromptDep(x, dep, own, modules), modules)
  {
    PropagateValue(env, dep, own, modules);
    PropagateNormal(dep, own, modules);
    BoolFormKeeps(Propagate(dep, own, modules));
  }

  /** One node: its dependency is its own and its parent's, and its properties are as written. */
  lemma NodeValue(env: Env, x: Entry, pd: Option<Expr>, was: Fields, now: Fields, modules: Sym)
    requires Propagated(x, pd, was, now, modules) && OptNormal(pd) && OptWellTyped(env, pd)
    requires OptWellTyped(env, was.dep) && OptWellTyped(env, was.visible)
    ensures OptWellTyped(env, now.dep) && OptWellTyped(env, ParentDep(x, now))
    ensures ValOpt(env, now.dep) <= ValOpt(env, pd)
    ensures x.hasPrompt ==> AsWritten(env, x, now.dep, was.visible, now.visible, modules)
  {
    PropagateValue(env, pd, was.dep, modules);
    PropagateNormal(pd, was.dep, modules);
    if x.hasPrompt { ConditionValue(env, x, now.dep, was.visible, modules); }
  }

  /** Only ifs and menus are between the level f and y. */
  predicate MenusAbove(f: Forest, y: Entry) {
    f.Menu? ==>
      if y in Pre(f.list) then f.x.sym.None? && MenusAbove(f.list, y)
      else y == f.x || MenusAbove(f.next, y)
  }

  /** No node is available beyond what is above it, across ifs and menus. */
  lemma {:induction false} InheritedBelow(env: Env, m0: Mem, m: Mem, f: Forest, pd: Option<Expr>, modules: Sym,
                                          y: Entry)
    requires Sound(env, m0, f) && OptWellTyped(env, pd) && OptNormal(pd) && Inherited(m0, m, f, pd, modules)
    requires y in Pre(f) && MenusAbove(f, y)
    ensures y in m && ValOpt(env, m[y].dep) <= ValOpt(env, pd)
  {
    var x := f.x;
    ParentNormal(x, pd, m0[x], m[x], modules);
    NodeValue(env, x, pd, m0[x], m[x], modules);
    if y in Pre(f.list) {
      InheritedBelow(env, m0, m, f.list, ParentDep(x, m[x]), modules, y);
    } else if y != x {
      InheritedBelow(env, m0, m, f.next, pd, modules, y);
    }
  }

  /** What holds of the whole tree holds of the level below x. */
  lemma {:induction false} Subtree(env: Env, m0: Mem, m: Mem, f: Forest, pd: Option<Expr>, modules: Sym, x: Entry)
    requires Sound(env, m0, f) && OptWellTyped(env, pd) && OptNormal(pd) && Inherited(m0, m, f, pd, modules)
    requires x in Pre(f)
    ensures x in m0 && x in m && Sound(env, m0, ListOf(f, x))
    ensures var px := ParentDep(x, m[x]);
      OptWellTyped(env, px) && OptNormal(px) && Inherited(m0, m, ListOf(f, x), px, modules)
    ensures x.hasPrompt ==> AsWritten(env, x, m[x].dep, m0[x].visible, m[x].visible, modules)
    ensures OptNormal(m[x].dep) && OptWellTyped(env, m[x].dep)
    ensures x.sym.Some? ==> m[x].props == PropDeps(x, m[x].dep, m0[x].props, modules)
    ensures forall i :: 0 <= i < |m0[x].props| ==> OptWellTyped(env, m0[x].props[i])
  {
    ParentNormal(f.x, pd, m0[f.x], m[f.x], modules);
    NodeValue(env, f.x, pd, m0[f.x], m[f.x], modules);
    if x != f.x {
      if x in Pre(f.list) {
        Subtree(env, m0, m, f.list, ParentDep(f.x, m[f.x]), modules, x);
      } else {
        Subtree(env, m0, m, f.next, pd, modules, x);
      }
    }
  }

  /** A node written in a menu, an if or a choice, however deep in further menus and ifs, is never
      available beyond the visibility of the menu, the dependency of the if, or the value of the
      choice. */
  lemma BoundedBy(env: Env, m0: Mem, m: Mem, f: Forest, pd: Option<Expr>, modules: Sym, x: Entry, y: Entry)
    requires Sound(env, m0, f) && OptWellTyped(env, pd) && OptNormal(pd) && Inherited(m0, m, f, pd, modules)
    requires x in Pre(f) && y in Pre(ListOf(f, x)) && MenusAbove(ListOf(f, x), y)
    ensures x in m && y in m && ValOpt(env, m[y].dep) <= Offered(env, x, m[x])
  {
    Subtree(env, m0, m, f, pd, modules, x);
    InheritedBelow(env, m0, m, ListOf(f, x), ParentDep(x, m[x]), modules, y);
  }

  /** The condition of every default, select, imply and range in the finalized tree is as written,
      for a symbol that is not tristate as far as whether it is n. */
  lemma PropsAsWritten(env: Env, m0: Mem, m: Mem, f: Forest, pd: Option<Expr>, modules: Sym, x: Entry, i: nat)
    requires Sound(env, m0, f) && OptWellTyped(env, pd) && OptNormal(pd) && Inherited(m0, m, f, pd, modules)
    requires x in Pre(f) && x.sym.Some?
    ensures x in m0 && x in m && |m[x].props| == |m0[x].props|
    ensures i < |m[x].props| ==> AsWritten(env, x, m[x].dep, m0[x].props[i], m[x].props[i], modules)
  {
    Subtree(env, m0, m, f, pd, modules, x);
    if i < |m[x].props| { ConditionValue(env, x, m[x].dep, m0[x].props[i], modules); }
  }

  /** What a node offers to the nodes right below it: a choice its value, a menu the visibility of its
      prompt, and an if its dependency. */
  function Offered(env: Env, x: Entry, fx: Fields): Tri {
    if x.sym.Some? && x.choice then env.tri(x.sym.value)
    else if x.hasPrompt then ValOpt(env, fx.visible)
    else ValOpt(env, fx.dep)
  }

  /** And exactly: the dependency of a node is the lower one of that and what was written, where a
      literal m is n without modules. */
  lemma {:induction false} LevelValue(env: Env, m0: Mem, m: Mem, f: Forest, pd: Option<Expr>, modules: Sym, y: Entry)
    requires Sound(env, m0, f) && OptWellTyped(env, pd) && Inherited(m0, m, f, pd, modules) && y in Level(f)
    ensures y in m0 && y in m && ValOpt(env, m[y].dep) == Written(env, pd, m0[y].dep, modules)
  {
    if y == f.x {
      PropagateValue(env, pd, m0[y].dep, modules);
    } else {
      LevelValue(env, m0, m, f.next, pd, modules, y);
    }
  }

  lemma DependencyExactly(env: Env, m0: Mem, m: Mem, f: Forest, pd: Option<Expr>, modules: Sym, x: Entry, y: Entry)
    requires Sound(env, m0, f) && OptWellTyped(env, pd) && OptNormal(pd) && Inherited(m0, m, f, pd, modules)
    requires x in Pre(f) && y in Level(ListOf(f, x))
    ensures x in m && y in m0 && y in m && ValOpt(env, m[y].dep) ==
      TriOp(And, Offered(env, x, m[x]),
            if m0[y].dep.None? then YES else ValM(env, m0[y].dep.value, MLimit(env, modules)))
  {
    Subtree(env, m0, m, f, pd, modules, x);
    LevelValue(env, m0, m, ListOf(f, x), ParentDep(x, m[x]), modules, y);
  }

  // ---------- visibility ----------

  /** The prompt conditions of the given nodes. */
  function PromptsOf(m: Mem, ys: seq<Entry>): seq<Option<Expr>>
    requires forall y :: y in ys ==> y in m
  {
    if ys == [] then [] else PromptsOf(m, ys[..|ys| - 1]) + [m[ys[|ys| - 1]].visible]
  }

  /** The highest prompt as written. */
  function WrittenMax(env: Env, m0: Mem, m: Mem, ys: seq<Entry>, modules: Sym): Tri
    requires forall y :: y in ys ==> y in m0 && y in m
  {
    if ys == [] then NO
    else V.Max(WrittenMax(env, m0, m, ys[..|ys| - 1], modules),
               Written(env, m[ys[|ys| - 1]].dep, m0[ys[|ys| - 1]].visible, modules))
  }

  predicate EntriesOf(f: Forest, ys: seq<Entry>, sym: Sym) {
    forall y :: y in ys ==> y in Pre(f) && y.hasPrompt && y.sym == Some(sym)
  }

  lemma {:induction false} PromptsValue(env: Env, m0: Mem, m: Mem, f: Forest, pd: Option<Expr>, modules: Sym,
                                        s: V.Symb, sym: Sym, ys: seq<Entry>, choice: Tri)
    requires Sound(env, m0, f) && OptWellTyped(env, pd) && OptNormal(pd) && Inherited(m0, m, f, pd, modules)
    requires EntriesOf(f, ys, sym) && s.ty == TypeOf(sym) && !s.kind.Member?
    ensures forall y :: y in ys ==> y in m0 && y in m
    ensures var v, w := V.PromptsVisible(s, env, choice, PromptsOf(m, ys)), WrittenMax(env, m0, m, ys, modules);
      (v == NO <==> w == NO) && (s.ty == Tristate ==> v == w)
  {
    forall y | y in ys ensures y in m0 && y in m { Subtree(env, m0, m, f, pd, modules, y); }
    if ys != [] {
      var k := |ys| - 1;
      PromptsValue(env, m0, m, f, pd, modules, s, sym, ys[..k], choice);
      Subtree(env, m0, m, f, pd, modules, ys[k]);
      var ps := PromptsOf(m, ys);
      assert ps[..|ps| - 1] == PromptsOf(m, ys[..k]) && ps[|ps| - 1] == m[ys[k]].visible;
    }
  }

  /** All rewriting and simplifying of the prompt conditions by menu_finalize, expr_trans_bool
      included, leaves the visibility of every symbol outside choices as it was written. */
  lemma VisibilityAsWritten(env: Env, m0: Mem, m: Mem, f: Forest, pd: Option<Expr>, modules: Sym,
                            s: V.Symb, sym: Sym, ys: seq<Entry>, mods: Tri)
    requires Sound(env, m0, f) && OptWellTyped(env, pd) && OptNormal(pd) && Inherited(m0, m, f, pd, modules)
    requires EntriesOf(f, ys, sym) && s.ty == TypeOf(sym) && !s.kind.Member?
    requires (forall y :: y in ys ==> y in m) && s.prompts == PromptsOf(m, ys)
    ensures forall y :: y in ys ==> y in m0
    ensures V.Visible(s, env, NO, mods) ==
      V.Promote(WrittenMax(env, m0, m, ys, modules), s.ty != Tristate || mods == NO)
  {
    PromptsValue(env, m0, m, f, pd, modules, s, sym, ys, NO);
    VisibleFrom(s, env, WrittenMax(env, m0, m, ys, modules), mods);
  }

  /** sym_calc_visibility on prompts that are as written. */
  lemma VisibleFrom(s: V.Symb, env: Env, w: Tri, mods: Tri)
    requires var v := V.PromptsVisible(s, env, NO, s.prompts); (v == NO <==> w == NO) && (s.ty == Tristate ==> v == w)
    ensures V.Visible(s, env, NO, mods) == V.Promote(w, s.ty != Tristate || mods == NO)
  {
  }
}

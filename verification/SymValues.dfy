/** What sym_calc_value and its helpers (kconf/symbol.c) compute for bool and tristate symbols,
    choices and their members, as a relation between a configuration and its values. */
module SymValues {
  import opened KconfigExpr
  import opened SymCycles

  datatype Default = Default(visible: Option<Expr>, value: Expr)

  /** A default of a choice: its condition and the member it names. */
  datatype Pick = Pick(visible: Option<Expr>, member: Sym)

  datatype Kind = Plain
                | Choice(members: seq<Sym>, picks: seq<Pick>)
                | Member(choice: Sym)

  /** A symbol: the conditions of its prompts, its dependencies and its defaults. */
  datatype Symb = Symb(ty: SymType, kind: Kind, prompts: seq<Option<Expr>>, dirDep: Option<Expr>, revDep: Option<Expr>,
                       implied: Option<Expr>, defaults: seq<Default>)

  /** What the user has set: values of symbols, and members of choices. */
  datatype User = User(tri: map<Sym, Tri>, pick: map<Sym, Sym>)

  /** All bool and tristate symbols, the setting of MODULES, and the values of all other symbols. */
  datatype Config = Config(syms: map<Sym, Symb>, modules: Tri, base: Env)

  // ---------- environments ----------

  /** sym_get_string_value of a tristate: without modules an m reads as n. */
  function TextOf(t: Tri, modules: Tri): string { if t == MOD && modules == NO then "n" else TriText(t) }

  type Values = map<Sym, Tri>

  function TriIn(cfg: Config, cur: Values, s: Sym): Tri { if s in cur then cur[s] else cfg.base.tri(s) }

  function TextIn(cfg: Config, cur: Values, s: Sym): string {
    if s in cur then TextOf(cur[s], cfg.modules) else cfg.base.text(s)
  }

  function EnvOf(cfg: Config, cur: Values): Env {
    Env(s => TriIn(cfg, cur, s), s => TextIn(cfg, cur, s), cfg.base.strto)
  }

  predicate Agree(cur: Values, cur': Values, refs: set<Sym>) {
    forall s :: s in refs ==> (s in cur <==> s in cur') && (s in cur ==> cur[s] == cur'[s])
  }

  lemma {:induction false} ValAgrees(cfg: Config, cur: Values, cur': Values, e: Expr)
    requires Agree(cur, cur', Mentions(e))
    ensures Val(EnvOf(cfg, cur), e) == Val(EnvOf(cfg, cur'), e)
  {
    match e
    case Symbol(s) =>
    case Not(a) => ValAgrees(cfg, cur, cur', a);
    case Bin(_, l, r) => ValAgrees(cfg, cur, cur', l); ValAgrees(cfg, cur, cur', r);
    case Compare(c, a, b) => CompareAgrees(EnvOf(cfg, cur), EnvOf(cfg, cur'), c, a, b);
  }

  lemma CompareAgrees(env: Env, env': Env, c: Cmp, a: Sym, b: Sym)
    requires env.strto == env'.strto && env.text(a) == env'.text(a) && env.text(b) == env'.text(b)
    ensures CompareVal(env, c, a, b) == CompareVal(env', c, a, b)
  {
    assert Relate(env, a, b) == Relate(env', a, b);
  }

  lemma OptAgrees(cfg: Config, cur: Values, cur': Values, e: Option<Expr>)
    requires Agree(cur, cur', MentionsOpt(e))
    ensures ValOpt(EnvOf(cfg, cur), e) == ValOpt(EnvOf(cfg, cur'), e)
  {
    if e.Some? { ValAgrees(cfg, cur, cur', e.value); }
  }

  // ---------- visibility ----------

  function Max(a: Tri, b: Tri): Tri { if a < b then b else a }

  function Min(a: Tri, b: Tri): Tri { if a < b then a else b }

  /** A prompt of a tristate member of a choice at y that is only visible as m is not visible. */
  function PromptVisible(s: Symb, env: Env, choice: Tri, p: Option<Expr>): Tri {
    var v := ValOpt(env, p);
    if s.kind.Member? && s.ty == Tristate && v == MOD && choice == YES then NO else v
  }

  function PromptsVisible(s: Symb, env: Env, choice: Tri, ps: seq<Option<Expr>>): Tri {
    if ps == [] then NO
    else Max(PromptsVisible(s, env, choice, ps[..|ps| - 1]), PromptVisible(s, env, choice, ps[|ps| - 1]))
  }

  /** sym->visible after sym_calc_visibility; `choice` is the value of the choice of a member. */
  function Visible(s: Symb, env: Env, choice: Tri, modules: Tri): Tri {
    var t := PromptsVisible(s, env, choice, s.prompts);
    if t == MOD && (s.ty != Tristate || modules == NO) then YES else t
  }

  /** sym_get_type == S_BOOLEAN. */
  predicate ActsBool(s: Symb, visible: Tri, modules: Tri) {
    s.ty == Boolean || (s.ty == Tristate && ((s.kind.Member? && visible == YES) || modules == NO))
  }

  function Promote(t: Tri, bool_: bool): Tri { if t == MOD && bool_ then YES else t }

  /** The value of a dependency; it is not computed for members. */
  function DepValue(s: Symb, env: Env, e: Option<Expr>, none: Tri, visible: Tri, modules: Tri): Tri {
    if s.kind.Member? then NO
    else Promote(if e.None? then none else Val(env, e.value), ActsBool(s, visible, modules))
  }

  function DirDep(s: Symb, env: Env, visible: Tri, modules: Tri): Tri {
    DepValue(s, env, s.dirDep, YES, visible, modules)
  }

  function RevDep(s: Symb, env: Env, visible: Tri, modules: Tri): Tri {
    DepValue(s, env, s.revDep, NO, visible, modules)
  }

  function Implied(s: Symb, env: Env, visible: Tri, modules: Tri): Tri {
    if DirDep(s, env, visible, modules) == NO then NO else DepValue(s, env, s.implied, NO, visible, modules)
  }

  // ---------- values ----------

  /** The first default whose condition is not n. */
  function DefaultValue(env: Env, ds: seq<Default>): Tri {
    if ds == [] then NO
    else if ValOpt(env, ds[0].visible) != NO then Min(Val(env, ds[0].value), ValOpt(env, ds[0].visible))
    else DefaultValue(env, ds[1..])
  }

  /** The value before reverse dependencies and promotion. */
  function OwnValue(s: Symb, user: Option<Tri>, env: Env, visible: Tri, modules: Tri): Tri {
    if visible != NO && user.Some? then Min(user.value, visible)
    else if s.kind.Choice? then NO
    else Max(DefaultValue(env, s.defaults), Implied(s, env, visible, modules))
  }

  /** newval.tri as sym_calc_value has it when it stores it: `picked` says whether the symbol is the
      one its choice has picked. */
  function NewValue(s: Symb, user: Option<Tri>, env: Env, visible: Tri, modules: Tri, picked: bool): Tri {
    if s.kind.Member? && visible == YES then (if picked then YES else NO)
    else
      Promote(Max(OwnValue(s, user, env, visible, modules), RevDep(s, env, visible, modules)),
              ActsBool(s, visible, modules) || Implied(s, env, visible, modules) == YES)
  }

  // ---------- choices ----------

  /** The visibility of a choice's member while the choice is at y. */
  function MemberVisible(cfg: Config, env: Env, m: Sym): Tri {
    if m in cfg.syms then Visible(cfg.syms[m], env, YES, cfg.modules) else NO
  }

  function FirstPick(cfg: Config, env: Env, ps: seq<Pick>): Option<Sym> {
    if ps == [] then None
    else if ValOpt(env, ps[0].visible) != NO && MemberVisible(cfg, env, ps[0].member) != NO then Some(ps[0].member)
    else FirstPick(cfg, env, ps[1..])
  }

  function FirstVisible(cfg: Config, env: Env, ms: seq<Sym>): Option<Sym> {
    if ms == [] then None
    else if MemberVisible(cfg, env, ms[0]) != NO then Some(ms[0])
    else FirstVisible(cfg, env, ms[1..])
  }

  /** sym_calc_choice: the user's pick if visible, else the first default that is, else the first
      member that is. */
  function CalcChoice(cfg: Config, env: Env, k: Kind, userPick: Option<Sym>): Option<Sym>
    requires k.Choice?
  {
    if userPick.Some? && MemberVisible(cfg, env, userPick.value) != NO then userPick
    else
      var p := FirstPick(cfg, env, k.picks);
      if p.Some? then p else FirstVisible(cfg, env, k.members)
  }

  // ---------- the relation ----------

  function ChoiceValue(cfg: Config, cur: Values, s: Symb): Tri {
    if s.kind.Member? && s.kind.choice in cur then cur[s.kind.choice] else NO
  }

  /** The value a symbol must have if the symbols it refers to have the values cur. */
  function SymVisible(cfg: Config, cur: Values, s: Symb): Tri {
    Visible(s, EnvOf(cfg, cur), ChoiceValue(cfg, cur, s), cfg.modules)
  }

  /** What the choice of a member has picked. */
  function PickOf(cfg: Config, user: User, cur: Values, choice: Sym): Option<Sym> {
    if choice in cfg.syms && cfg.syms[choice].kind.Choice? && choice in cur && cur[choice] == YES
    then CalcChoice(cfg, EnvOf(cfg, cur), cfg.syms[choice].kind, Get(user.pick, choice)) else None
  }

  function Get<T>(m: map<Sym, T>, x: Sym): Option<T> { if x in m then Some(m[x]) else None }

  function ValueOf(cfg: Config, user: User, cur: Values, x: Sym): Tri
    requires x in cfg.syms
  {
    var s := cfg.syms[x];
    var v := NewValue(s, Get(user.tri, x), EnvOf(cfg, cur), SymVisible(cfg, cur, s), cfg.modules,
                      s.kind.Member? && PickOf(cfg, user, cur, s.kind.choice) == Some(x));
    if s.kind.Choice? && v == YES && CalcChoice(cfg, EnvOf(cfg, cur[x := YES]), s.kind, Get(user.pick, x)).None? then NO
    else v
  }

  /** The values of a whole configuration. */
  ghost predicate Consistent(cfg: Config, user: User, cur: Values) {
    && cur.Keys == cfg.syms.Keys
    && forall x {:trigger ValueOf(cfg, user, cur, x)} :: x in cfg.syms ==> cur[x] == ValueOf(cfg, user, cur, x)
  }

  // ---------- bools ----------

  /** No bool symbol ever evaluates to m. */
  lemma BoolNeverM(cfg: Config, user: User, cur: Values, x: Sym)
    requires Consistent(cfg, user, cur) && x in cfg.syms && cfg.syms[x].ty == Boolean
    ensures cur[x] != MOD
  {
    assert cur[x] == ValueOf(cfg, user, cur, x);
  }

  /** The symbols of a configuration are no constants and have the type their name says. */
  predicate Declared(cfg: Config) { forall x: Sym :: x in cfg.syms ==> x.Config? && x.ty == cfg.syms[x].ty }

  /** Without modules no tristate is m, nor is a bool ever. */
  lemma NoM(cfg: Config, user: User, cur: Values, x: Sym)
    requires Consistent(cfg, user, cur) && x in cfg.syms
    requires cfg.syms[x].ty == Boolean || (cfg.syms[x].ty == Tristate && cfg.modules == NO)
    ensures cur[x] != MOD
  {
    assert cur[x] == ValueOf(cfg, user, cur, x);
  }

  /** The computed values are a well-typed valuation, if the other symbols have one: so what is
      proved of expressions in all such valuations holds in every configuration. */
  lemma ValuesAreGood(cfg: Config, user: User, cur: Values)
    requires Consistent(cfg, user, cur) && Declared(cfg) && GoodEnv(cfg.base)
    ensures GoodEnv(EnvOf(cfg, cur))
  {
    var env := EnvOf(cfg, cur);
    forall n: string
      ensures env.text(Const(n)) == n && env.tri(Const(n)) == if n == "y" then YES else if n == "m" then MOD else NO
    {
      assert Const(n) !in cur;
    }
    forall s: Sym | IsTriSym(s)
      ensures env.text(s) == TriText(env.tri(s)) && (TypeOf(s) == Boolean ==> env.tri(s) != MOD)
    {
      if s in cur && (s.ty == Boolean || cfg.modules == NO) { NoM(cfg, user, cur, s); }
    }
  }

  // ---------- choices are exclusive ----------

  /** How a choice and its members are declared: members name their choice, have no defaults, and
      what the user or a default picks is a member. */
  predicate ChoiceDeclared(cfg: Config, user: User, c: Sym) {
    c in cfg.syms && cfg.syms[c].kind.Choice? && var k := cfg.syms[c].kind;
      && (forall m :: m in k.members ==> m in cfg.syms && cfg.syms[m].kind == Member(c) && cfg.syms[m].defaults == [])
      && (forall m :: m in k.members ==> cfg.syms[m].ty == Boolean || cfg.syms[m].ty == Tristate)
      && (c in user.pick ==> user.pick[c] in k.members)
      && (forall i :: 0 <= i < |k.picks| ==> k.picks[i].member in k.members)
  }

  lemma {:induction false} FirstPickVisible(cfg: Config, env: Env, ps: seq<Pick>, ms: seq<Sym>)
    requires forall i :: 0 <= i < |ps| ==> ps[i].member in ms
    ensures FirstPick(cfg, env, ps).Some? ==>
      FirstPick(cfg, env, ps).value in ms && MemberVisible(cfg, env, FirstPick(cfg, env, ps).value) != NO
  {
    if ps != [] { FirstPickVisible(cfg, env, ps[1..], ms); }
  }

  lemma {:induction false} FirstVisibleIs(cfg: Config, env: Env, ms: seq<Sym>)
    ensures FirstVisible(cfg, env, ms).Some? ==>
      FirstVisible(cfg, env, ms).value in ms && MemberVisible(cfg, env, FirstVisible(cfg, env, ms).value) != NO
    ensures FirstVisible(cfg, env, ms).None? ==> forall m :: m in ms ==> MemberVisible(cfg, env, m) == NO
  {
    if ms != [] { FirstVisibleIs(cfg, env, ms[1..]); }
  }

  lemma CalcChoiceVisible(cfg: Config, user: User, env: Env, c: Sym)
    requires ChoiceDeclared(cfg, user, c)
    ensures var p := CalcChoice(cfg, env, cfg.syms[c].kind, Get(user.pick, c));
      && (p.Some? ==> p.value in cfg.syms[c].kind.members && MemberVisible(cfg, env, p.value) != NO)
      && (p.None? ==> forall m :: m in cfg.syms[c].kind.members ==> MemberVisible(cfg, env, m) == NO)
  {
    var k := cfg.syms[c].kind;
    FirstPickVisible(cfg, env, k.picks, k.members);
    FirstVisibleIs(cfg, env, k.members);
  }

  lemma {:induction false} PromptsNotM(s: Symb, env: Env, ps: seq<Option<Expr>>)
    requires s.kind.Member? && s.ty == Tristate
    ensures PromptsVisible(s, env, YES, ps) != MOD
  {
    if ps != [] { PromptsNotM(s, env, ps[..|ps| - 1]); }
  }

  /** While its choice is at y a member is visible as y or not at all. */
  lemma MemberVisibility(s: Symb, env: Env, modules: Tri)
    requires s.kind.Member? && (s.ty == Boolean || s.ty == Tristate)
    ensures Visible(s, env, YES, modules) != MOD
  {
    if s.ty == Tristate { PromptsNotM(s, env, s.prompts); }
  }

  /** A choice at y has exactly one member at y, namely its pick, and all others at n. */
  lemma ChoiceExclusive(cfg: Config, user: User, cur: Values, c: Sym) returns (picked: Sym)
    requires Consistent(cfg, user, cur) && ChoiceDeclared(cfg, user, c) && cur[c] == YES
    ensures picked in cfg.syms[c].kind.members && PickOf(cfg, user, cur, c) == Some(picked)
    ensures forall m :: m in cfg.syms[c].kind.members ==> cur[m] == if m == picked then YES else NO
  {
    var k, env := cfg.syms[c].kind, EnvOf(cfg, cur);
    assert cur[c] == ValueOf(cfg, user, cur, c);
    assert cur[c := YES] == cur;
    CalcChoiceVisible(cfg, user, env, c);
    picked := CalcChoice(cfg, env, k, Get(user.pick, c)).value;
    forall m | m in k.members ensures cur[m] == if m == picked then YES else NO {
      MemberValue(cfg, user, cur, c, m, picked);
    }
  }

  lemma MemberValue(cfg: Config, user: User, cur: Values, c: Sym, m: Sym, picked: Sym)
    requires Consistent(cfg, user, cur) && ChoiceDeclared(cfg, user, c) && cur[c] == YES
    requires m in cfg.syms[c].kind.members
    requires CalcChoice(cfg, EnvOf(cfg, cur), cfg.syms[c].kind, Get(user.pick, c)) == Some(picked)
    ensures cur[m] == if m == picked then YES else NO
  {
    var s, env := cfg.syms[m], EnvOf(cfg, cur);
    assert cur[m] == ValueOf(cfg, user, cur, m);
    CalcChoiceVisible(cfg, user, env, c);
    MemberVisibility(s, env, cfg.modules);
    assert SymVisible(cfg, cur, s) == MemberVisible(cfg, env, m);
    assert DefaultValue(env, s.defaults) == NO;
  }
}

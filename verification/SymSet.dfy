/** Setting a symbol's user value and computing again (sym_tristate_within_range and
    sym_set_tristate_value in kconf/symbol.c). */
module SymSet {
  import opened KconfigExpr
  import opened SymCycles
  import opened SymValues

  // ---------- references ----------

  function PromptRefs(ps: seq<Option<Expr>>): set<Sym> {
    if ps == [] then {} else PromptRefs(ps[..|ps| - 1]) + MentionsOpt(ps[|ps| - 1])
  }

  function DefaultRefs(ds: seq<Default>): set<Sym> {
    if ds == [] then {} else MentionsOpt(ds[0].visible) + Mentions(ds[0].value) + DefaultRefs(ds[1..])
  }

  function PickRefs(ps: seq<Pick>): set<Sym> {
    if ps == [] then {} else MentionsOpt(ps[0].visible) + PickRefs(ps[1..])
  }

  /** The symbols that decide a symbol's value through its own expressions. Its direct dependency
      only matters where something implies it. */
  function OwnRefs(s: Symb): set<Sym> {
    PromptRefs(s.prompts) + MentionsOpt(s.revDep) + DefaultRefs(s.defaults)
    + ImplyRefs(s)
  }

  function ImplyRefs(s: Symb): set<Sym> {
    if s.implied.None? then {} else MentionsOpt(s.dirDep) + MentionsOpt(s.implied)
  }

  predicate PromptRefsIn(cfg: Config, m: Sym, refs: set<Sym>) {
    m in cfg.syms ==> PromptRefs(cfg.syms[m].prompts) <= refs
  }

  /** refs covers all that the pick of a choice is decided on. */
  predicate PickRefsIn(cfg: Config, user: User, c: Sym, refs: set<Sym>)
    requires c in cfg.syms && cfg.syms[c].kind.Choice?
  {
    var k := cfg.syms[c].kind;
    && PickRefs(k.picks) <= refs && (forall m :: m in k.members ==> PromptRefsIn(cfg, m, refs))
    && (c in user.pick ==> PromptRefsIn(cfg, user.pick[c], refs))
    && (forall i :: 0 <= i < |k.picks| ==> PromptRefsIn(cfg, k.picks[i].member, refs))
  }

  /** refs covers all that the value of x is decided on. */
  predicate Covers(cfg: Config, user: User, x: Sym, refs: set<Sym>)
    requires x in cfg.syms
  {
    var s := cfg.syms[x];
    && OwnRefs(s) <= refs
    && (s.kind.Choice? ==> PickRefsIn(cfg, user, x, refs + {x}))
    && (s.kind.Member? ==> s.kind.choice in refs)
    && (s.kind.Member? && s.kind.choice in cfg.syms && cfg.syms[s.kind.choice].kind.Choice? ==>
          PickRefsIn(cfg, user, s.kind.choice, refs))
  }

  // ---------- values depend on references only ----------

  lemma {:induction false} PromptsAgree(cfg: Config, cur: Values, cur': Values, s: Symb, choice: Tri,
                                        ps: seq<Option<Expr>>)
    requires Agree(cur, cur', PromptRefs(ps))
    ensures PromptsVisible(s, EnvOf(cfg, cur), choice, ps) == PromptsVisible(s, EnvOf(cfg, cur'), choice, ps)
  {
    if ps != [] {
      PromptsAgree(cfg, cur, cur', s, choice, ps[..|ps| - 1]);
      OptAgrees(cfg, cur, cur', ps[|ps| - 1]);
    }
  }

  lemma {:induction false} DefaultsAgree(cfg: Config, cur: Values, cur': Values, ds: seq<Default>)
    requires Agree(cur, cur', DefaultRefs(ds))
    ensures DefaultValue(EnvOf(cfg, cur), ds) == DefaultValue(EnvOf(cfg, cur'), ds)
  {
    if ds != [] {
      OptAgrees(cfg, cur, cur', ds[0].visible);
      ValAgrees(cfg, cur, cur', ds[0].value);
      DefaultsAgree(cfg, cur, cur', ds[1..]);
    }
  }

  lemma VisibleAgrees(cfg: Config, cur: Values, cur': Values, s: Symb, choice: Tri)
    requires Agree(cur, cur', PromptRefs(s.prompts))
    ensures Visible(s, EnvOf(cfg, cur), choice, cfg.modules) == Visible(s, EnvOf(cfg, cur'), choice, cfg.modules)
  {
    PromptsAgree(cfg, cur, cur', s, choice, s.prompts);
  }

  lemma {:induction false} FirstPickAgrees(cfg: Config, cur: Values, cur': Values, ps: seq<Pick>, refs: set<Sym>)
    requires Agree(cur, cur', refs) && PickRefs(ps) <= refs
    requires forall i :: 0 <= i < |ps| ==> PromptRefsIn(cfg, ps[i].member, refs)
    ensures FirstPick(cfg, EnvOf(cfg, cur), ps) == FirstPick(cfg, EnvOf(cfg, cur'), ps)
  {
    if ps != [] {
      OptAgrees(cfg, cur, cur', ps[0].visible);
      assert PromptRefsIn(cfg, ps[0].member, refs);
      if ps[0].member in cfg.syms { VisibleAgrees(cfg, cur, cur', cfg.syms[ps[0].member], YES); }
      forall i | 0 <= i < |ps[1..]|
        ensures PromptRefsIn(cfg, ps[1..][i].member, refs)
      {
        assert ps[1..][i] == ps[i + 1];
      }
      FirstPickAgrees(cfg, cur, cur', ps[1..], refs);
    }
  }

  lemma {:induction false} FirstVisibleAgrees(cfg: Config, cur: Values, cur': Values, ms: seq<Sym>, refs: set<Sym>)
    requires Agree(cur, cur', refs) && forall m :: m in ms ==> PromptRefsIn(cfg, m, refs)
    ensures FirstVisible(cfg, EnvOf(cfg, cur), ms) == FirstVisible(cfg, EnvOf(cfg, cur'), ms)
  {
    if ms != [] {
      assert PromptRefsIn(cfg, ms[0], refs);
      if ms[0] in cfg.syms { VisibleAgrees(cfg, cur, cur', cfg.syms[ms[0]], YES); }
      FirstVisibleAgrees(cfg, cur, cur', ms[1..], refs);
    }
  }

  lemma ChoiceAgrees(cfg: Config, user: User, cur: Values, cur': Values, c: Sym, refs: set<Sym>)
    requires c in cfg.syms && cfg.syms[c].kind.Choice? && Agree(cur, cur', refs) && PickRefsIn(cfg, user, c, refs)
    ensures CalcChoice(cfg, EnvOf(cfg, cur), cfg.syms[c].kind, Get(user.pick, c))
         == CalcChoice(cfg, EnvOf(cfg, cur'), cfg.syms[c].kind, Get(user.pick, c))
  {
    var k := cfg.syms[c].kind;
    FirstPickAgrees(cfg, cur, cur', k.picks, refs);
    FirstVisibleAgrees(cfg, cur, cur', k.members, refs);
    if c in user.pick && user.pick[c] in cfg.syms { VisibleAgrees(cfg, cur, cur', cfg.syms[user.pick[c]], YES); }
  }

  /** The parts of a symbol's value, each decided on the symbol's own references. */
  lemma PartsAgree(cfg: Config, cur: Values, cur': Values, s: Symb, visible: Tri)
    requires Agree(cur, cur', OwnRefs(s))
    ensures DefaultValue(EnvOf(cfg, cur), s.defaults) == DefaultValue(EnvOf(cfg, cur'), s.defaults)
    ensures RevDep(s, EnvOf(cfg, cur), visible, cfg.modules) == RevDep(s, EnvOf(cfg, cur'), visible, cfg.modules)
    ensures Implied(s, EnvOf(cfg, cur), visible, cfg.modules) == Implied(s, EnvOf(cfg, cur'), visible, cfg.modules)
  {
    DefaultsAgree(cfg, cur, cur', s.defaults);
    OptAgrees(cfg, cur, cur', s.revDep);
    if s.implied.Some? {
      OptAgrees(cfg, cur, cur', s.dirDep);
      OptAgrees(cfg, cur, cur', s.implied);
    }
  }

  lemma VisibleSame(cfg: Config, cur: Values, cur': Values, s: Symb)
    requires Agree(cur, cur', OwnRefs(s)) && (s.kind.Member? ==> Agree(cur, cur', {s.kind.choice}))
    ensures SymVisible(cfg, cur, s) == SymVisible(cfg, cur', s)
  {
    VisibleAgrees(cfg, cur, cur', s, ChoiceValue(cfg, cur, s));
  }

  lemma NewValueAgrees(cfg: Config, user: Option<Tri>, cur: Values, cur': Values, s: Symb, visible: Tri, picked: bool)
    requires Agree(cur, cur', OwnRefs(s))
    ensures NewValue(s, user, EnvOf(cfg, cur), visible, cfg.modules, picked)
      == NewValue(s, user, EnvOf(cfg, cur'), visible, cfg.modules, picked)
  {
    PartsAgree(cfg, cur, cur', s, visible);
  }

  lemma PickAgrees(cfg: Config, user: User, cur: Values, cur': Values, s: Symb, refs: set<Sym>)
    requires s.kind.Member? && Agree(cur, cur', refs) && s.kind.choice in refs
    requires s.kind.choice in cfg.syms && cfg.syms[s.kind.choice].kind.Choice? ==>
      PickRefsIn(cfg, user, s.kind.choice, refs)
    ensures PickOf(cfg, user, cur, s.kind.choice) == PickOf(cfg, user, cur', s.kind.choice)
  {
    if s.kind.choice in cfg.syms && cfg.syms[s.kind.choice].kind.Choice? {
      ChoiceAgrees(cfg, user, cur, cur', s.kind.choice, refs);
    }
  }

  /** The value of a symbol is decided on its references. */
  lemma ValueAgrees(cfg: Config, user: User, cur: Values, cur': Values, x: Sym, refs: set<Sym>)
    requires x in cfg.syms && Covers(cfg, user, x, refs) && Agree(cur, cur', refs)
    ensures ValueOf(cfg, user, cur, x) == ValueOf(cfg, user, cur', x)
  {
    var s := cfg.syms[x];
    assert Agree(cur, cur', OwnRefs(s));
    VisibleSame(cfg, cur, cur', s);
    if s.kind.Member? { PickAgrees(cfg, user, cur, cur', s, refs); }
    var picked := s.kind.Member? && PickOf(cfg, user, cur, s.kind.choice) == Some(x);
    NewValueAgrees(cfg, Get(user.tri, x), cur, cur', s, SymVisible(cfg, cur, s), picked);
    if s.kind.Choice? {
      ChoiceAgrees(cfg, user, cur[x := YES], cur'[x := YES], x, refs + {x});
    }
  }

  // ---------- acyclic configurations ----------

  /** Every symbol's value is decided on symbols of a lower rank: there is no recursive dependency. */
  ghost predicate Ranked(cfg: Config, user: User, rank: map<Sym, nat>, refs: map<Sym, set<Sym>>) {
    && rank.Keys == cfg.syms.Keys && refs.Keys == cfg.syms.Keys
    && (forall x {:trigger Covers(cfg, user, x, refs[x])} :: x in cfg.syms ==> Covers(cfg, user, x, refs[x]))
    && (forall x {:trigger RefsLower(cfg, rank, x, refs[x])} :: x in cfg.syms ==> RefsLower(cfg, rank, x, refs[x]))
  }

  predicate RefsLower(cfg: Config, rank: map<Sym, nat>, x: Sym, refs: set<Sym>)
    requires rank.Keys == cfg.syms.Keys && x in cfg.syms
  {
    forall r :: r in refs && r in cfg.syms ==> rank[r] < rank[x]
  }

  /** The user changed the value of x, if at all. */
  ghost predicate OnlySets(user: User, user': User, x: Sym) {
    user'.pick == user.pick && forall y :: y != x ==> Get(user'.tri, y) == Get(user.tri, y)
  }

  lemma OtherUser(cfg: Config, user: User, user': User, cur: Values, x: Sym, y: Sym)
    requires OnlySets(user, user', x) && y in cfg.syms && y != x
    ensures ValueOf(cfg, user', cur, y) == ValueOf(cfg, user, cur, y)
  {
    assert Get(user'.tri, y) == Get(user.tri, y);
  }

  /** Setting x changes nothing that x depends on. */
  lemma {:induction false} LowerSame(cfg: Config, user: User, user': User, cur: Values, cur': Values,
                                     rank: map<Sym, nat>, refs: map<Sym, set<Sym>>, x: Sym, y: Sym)
    requires Ranked(cfg, user, rank, refs) && OnlySets(user, user', x)
    requires Consistent(cfg, user, cur) && Consistent(cfg, user', cur')
    requires y in cfg.syms && y != x && (x in cfg.syms ==> rank[y] <= rank[x])
    ensures cur'[y] == cur[y]
    decreases rank[y]
  {
    assert RefsLower(cfg, rank, y, refs[y]);
    forall r | r in refs[y] && r in cfg.syms ensures cur'[r] == cur[r] {
      LowerSame(cfg, user, user', cur, cur', rank, refs, x, r);
    }
    assert Agree(cur, cur', refs[y]);
    ValueAgrees(cfg, user, cur, cur', y, refs[y]);
    OtherUser(cfg, user, user', cur', x, y);
    assert cur[y] == ValueOf(cfg, user, cur, y) && cur'[y] == ValueOf(cfg, user', cur', y);
  }

  /** The values of an acyclic configuration are determined by the user's settings. */
  lemma {:induction false} Determined(cfg: Config, user: User, cur: Values, cur': Values, rank: map<Sym, nat>,
                                      refs: map<Sym, set<Sym>>, y: Sym)
    requires Ranked(cfg, user, rank, refs) && Consistent(cfg, user, cur) && Consistent(cfg, user, cur') && y in cfg.syms
    ensures cur'[y] == cur[y]
    decreases rank[y]
  {
    assert RefsLower(cfg, rank, y, refs[y]);
    forall r | r in refs[y] && r in cfg.syms ensures cur'[r] == cur[r] {
      Determined(cfg, user, cur, cur', rank, refs, r);
    }
    assert Agree(cur, cur', refs[y]);
    ValueAgrees(cfg, user, cur, cur', y, refs[y]);
    assert cur[y] == ValueOf(cfg, user, cur, y) && cur'[y] == ValueOf(cfg, user, cur', y);
  }

  lemma AllDetermined(cfg: Config, user: User, cur: Values, cur': Values, rank: map<Sym, nat>, refs: map<Sym, set<Sym>>)
    requires Ranked(cfg, user, rank, refs) && Consistent(cfg, user, cur) && Consistent(cfg, user, cur')
    ensures cur' == cur
  {
    forall y | y in cfg.syms ensures cur'[y] == cur[y] { Determined(cfg, user, cur, cur', rank, refs, y); }
  }

  // ---------- what the check for recursive dependencies sees ----------

  function PromptProps(ps: seq<Option<Expr>>): seq<Prop> {
    if ps == [] then [] else PromptProps(ps[..|ps| - 1]) + [Prop(OtherProp, ps[|ps| - 1], None)]
  }

  function DefaultProps(ds: seq<Default>): seq<Prop> {
    if ds == [] then [] else [Prop(DefaultProp, ds[0].visible, Some(ds[0].value))] + DefaultProps(ds[1..])
  }

  /** The expressions of a symbol at which sym_check_sym_deps looks: neither dir_dep nor implied. */
  function InfoOf(s: Symb): Info { Info(s.revDep, PromptProps(s.prompts) + DefaultProps(s.defaults)) }

  lemma {:induction false} PropsRefsConcat(a: seq<Prop>, b: seq<Prop>)
    ensures PropsRefs(a + b) == PropsRefs(a) + PropsRefs(b)
    decreases |b|
  {
    if b == [] {
      assert a + b == a;
    } else {
      assert (a + b)[..|a + b| - 1] == a + b[..|b| - 1];
      PropsRefsConcat(a, b[..|b| - 1]);
    }
  }

  lemma {:induction false} PromptPropsRefs(ps: seq<Option<Expr>>)
    ensures PropsRefs(PromptProps(ps)) == PromptRefs(ps)
  {
    if ps != [] {
      PromptPropsRefs(ps[..|ps| - 1]);
      var q := PromptProps(ps);
      assert q[..|q| - 1] == PromptProps(ps[..|ps| - 1]);
    }
  }

  lemma {:induction false} DefaultPropsRefs(ds: seq<Default>)
    ensures PropsRefs(DefaultProps(ds)) == DefaultRefs(ds)
  {
    if ds != [] {
      var p := Prop(DefaultProp, ds[0].visible, Some(ds[0].value));
      DefaultPropsRefs(ds[1..]);
      PropsRefsConcat([p], DefaultProps(ds[1..]));
      assert [p][..0] == [];
    }
  }

  lemma InfoRefs(s: Symb)
    ensures Refs(InfoOf(s)) == PromptRefs(s.prompts) + MentionsOpt(s.revDep) + DefaultRefs(s.defaults)
  {
    PropsRefsConcat(PromptProps(s.prompts), DefaultProps(s.defaults));
    PromptPropsRefs(s.prompts);
    DefaultPropsRefs(s.defaults);
  }

  /** The first place of a symbol in an order. */
  function Place(order: seq<Sym>, x: Sym): (i: nat)
    requires x in order
    ensures i < |order| && order[i] == x
  {
    if order[0] == x then 0 else Place(order[1..], x) + 1
  }

  lemma {:induction false} PlaceFirst(order: seq<Sym>, x: Sym, k: nat)
    requires k < |order| && order[k] == x
    ensures x in order && Place(order, x) <= k
  {
    if order[0] != x { PlaceFirst(order[1..], x, k - 1); }
  }

  /** The check looked at all symbols of the configuration, and none is in a choice or implied. */
  ghost predicate CheckedConfig(cfg: Config, table: Table, order: seq<Sym>) {
    forall x :: x in cfg.syms ==>
      && cfg.syms[x].kind == Plain && cfg.syms[x].implied.None?
      && x in order && x in table && table[x] == InfoOf(cfg.syms[x])
  }

  lemma PlaceDescends(table: Table, order: seq<Sym>, x: Sym, r: Sym)
    requires Topological(table, order) && x in order && x in table && r in Refs(table[x])
    ensures r in order && Place(order, r) < Place(order, x)
  {
    var i := Place(order, x);
    assert r in order[..i];
    var k :| 0 <= k < i && order[k] == r;
    PlaceFirst(order, r, k);
  }

  /** Where the check reported nothing, the order in which it finished ranks the symbols, so that
      the user's settings determine all values. */
  lemma SilentMeansRanked(cfg: Config, user: User, table: Table, order: seq<Sym>)
    returns (rank: map<Sym, nat>, refs: map<Sym, set<Sym>>)
    requires Topological(table, order) && CheckedConfig(cfg, table, order)
    ensures Ranked(cfg, user, rank, refs)
  {
    rank := map x | x in cfg.syms :: if x in order then Place(order, x) else 0;
    refs := map x | x in cfg.syms :: Refs(InfoOf(cfg.syms[x]));
    forall x | x in cfg.syms ensures Covers(cfg, user, x, refs[x]) && RefsLower(cfg, rank, x, refs[x]) {
      InfoRefs(cfg.syms[x]);
      forall r | r in refs[x] && r in cfg.syms ensures rank[r] < rank[x] { PlaceDescends(table, order, x, r); }
    }
  }

  lemma SilentDetermined(cfg: Config, user: User, table: Table, order: seq<Sym>, cur: Values, cur': Values)
    requires Topological(table, order) && CheckedConfig(cfg, table, order)
    requires Consistent(cfg, user, cur) && Consistent(cfg, user, cur')
    ensures cur' == cur
  {
    var rank, refs := SilentMeansRanked(cfg, user, table, order);
    AllDetermined(cfg, user, cur, cur', rank, refs);
  }

  /** The check and the values: all symbols of a choice-free configuration without imply are
      checked, and if nothing is reported, any two evaluations agree. */
  method CheckThenDetermined(cfg: Config, table: Table, all: seq<Sym>, ghost user: User, ghost cur: Values,
                             ghost cur': Values)
    returns (reports: seq<seq<Sym>>)
    requires Closed(table) && (forall s :: s in all ==> s in table) && CheckedConfig(cfg, table, all)
    requires Consistent(cfg, user, cur) && Consistent(cfg, user, cur')
    ensures (forall q :: q in reports ==> IsCycle(table, q)) && (reports == [] ==> cur' == cur)
  {
    var errors;
    ghost var order;
    errors, reports, order := CheckAll(table, all);
    if reports == [] {
      SilentDetermined(cfg, user, table, order, cur, cur');
    }
  }

  /** With imply it is not so: a symbol that implies itself is not reported, as the check sees no
      reference at all, but both n and y fit. */
  lemma ImplyCycleUnnoticed(base: Env, x: Sym, user: User)
    requires x !in user.tri
    ensures var s := Symb(Boolean, Plain, [], None, None, Some(Symbol(x)), []);
      var cfg := Config.Config(map[x := s], YES, base);
      && Refs(InfoOf(s)) == {} && Consistent(cfg, user, map[x := NO]) && Consistent(cfg, user, map[x := YES])
  {
    var s := Symb(Boolean, Plain, [], None, None, Some(Symbol(x)), []);
    InfoRefs(s);
    ImpliesItself(Config.Config(map[x := s], YES, base), user, x, s, NO);
    ImpliesItself(Config.Config(map[x := s], YES, base), user, x, s, YES);
  }

  lemma ImpliesItself(cfg: Config, user: User, x: Sym, s: Symb, v: Tri)
    requires s == Symb(Boolean, Plain, [], None, None, Some(Symbol(x)), []) && cfg.syms == map[x := s]
    requires x !in user.tri && v != MOD
    ensures Consistent(cfg, user, map[x := v])
  {
    var cur := map[x := v];
    PlainValue(cfg, user, cur, x);
    assert Val(EnvOf(cfg, cur), Symbol(x)) == v;
    assert SymVisible(cfg, cur, s) == NO;
  }

  // ---------- setting a value ----------

  /** sym_tristate_within_range for a symbol in no choice. */
  predicate WithinRange(cfg: Config, cur: Values, s: Symb, val: Tri) {
    var env, vis := EnvOf(cfg, cur), SymVisible(cfg, cur, s);
    var rev, implied := RevDep(s, env, vis, cfg.modules), Implied(s, env, vis, cfg.modules);
    && vis != NO && (s.ty == Boolean || s.ty == Tristate)
    && !(ActsBool(s, vis, cfg.modules) && val == MOD)
    && vis > rev && !(implied == YES && val == MOD) && rev <= val <= vis
  }

  /** What x depends on, before and after x was set. */
  lemma SameParts(cfg: Config, user: User, user': User, cur: Values, cur': Values, rank: map<Sym, nat>,
                  refs: map<Sym, set<Sym>>, x: Sym)
    requires Ranked(cfg, user, rank, refs) && OnlySets(user, user', x)
    requires Consistent(cfg, user, cur) && Consistent(cfg, user', cur') && x in cfg.syms && cfg.syms[x].kind == Plain
    ensures Agree(cur, cur', OwnRefs(cfg.syms[x]))
    ensures SymVisible(cfg, cur', cfg.syms[x]) == SymVisible(cfg, cur, cfg.syms[x])
  {
    assert RefsLower(cfg, rank, x, refs[x]);
    forall r | r in refs[x] && r in cfg.syms ensures cur'[r] == cur[r] {
      LowerSame(cfg, user, user', cur, cur', rank, refs, x, r);
    }
    assert Covers(cfg, user, x, refs[x]);
    VisibleSame(cfg, cur, cur', cfg.syms[x]);
  }

  lemma PlainValue(cfg: Config, user: User, cur: Values, x: Sym)
    requires x in cfg.syms && cfg.syms[x].kind == Plain
    ensures ValueOf(cfg, user, cur, x) ==
      NewValue(cfg.syms[x], Get(user.tri, x), EnvOf(cfg, cur), SymVisible(cfg, cur, cfg.syms[x]), cfg.modules, false)
  {
  }

  /** A user value of a visible symbol, limited by its visibility and raised by what selects it. */
  lemma UserValue(s: Symb, val: Tri, env: Env, vis: Tri, modules: Tri)
    requires s.kind == Plain && vis != NO
    ensures NewValue(s, Some(val), env, vis, modules, false) ==
      Promote(Max(Min(val, vis), RevDep(s, env, vis, modules)),
              ActsBool(s, vis, modules) || Implied(s, env, vis, modules) == YES)
  {
  }

  /** The value of a visible symbol in no choice once the user sets val. */
  lemma AfterSet(cfg: Config, user: User, cur: Values, cur': Values, rank: map<Sym, nat>, refs: map<Sym, set<Sym>>,
                 x: Sym, val: Tri)
    requires Ranked(cfg, user, rank, refs) && x in cfg.syms && cfg.syms[x].kind == Plain
    requires Consistent(cfg, user, cur) && Consistent(cfg, user.(tri := user.tri[x := val]), cur')
    ensures cur'[x] ==
      NewValue(cfg.syms[x], Some(val), EnvOf(cfg, cur), SymVisible(cfg, cur, cfg.syms[x]), cfg.modules, false)
  {
    var s, user' := cfg.syms[x], user.(tri := user.tri[x := val]);
    SameParts(cfg, user, user', cur, cur', rank, refs, x);
    NewValueAgrees(cfg, Some(val), cur, cur', s, SymVisible(cfg, cur, s), false);
    PlainValue(cfg, user', cur', x);
    assert cur'[x] == ValueOf(cfg, user', cur', x);
  }

  /** Set then recompute: a value within range is what the symbol then evaluates to. */
  lemma SetThenRecompute(cfg: Config, user: User, cur: Values, cur': Values, rank: map<Sym, nat>,
                         refs: map<Sym, set<Sym>>, x: Sym, val: Tri)
    requires Ranked(cfg, user, rank, refs) && x in cfg.syms && cfg.syms[x].kind == Plain
    requires Consistent(cfg, user, cur) && WithinRange(cfg, cur, cfg.syms[x], val)
    requires Consistent(cfg, user.(tri := user.tri[x := val]), cur')
    ensures cur'[x] == val
  {
    AfterSet(cfg, user, cur, cur', rank, refs, x, val);
    UserValue(cfg.syms[x], val, EnvOf(cfg, cur), SymVisible(cfg, cur, cfg.syms[x]), cfg.modules);
  }

  /** sym_set_tristate_value: a value that is not the current one must be within range. */
  predicate SetAccepts(cfg: Config, cur: Values, x: Sym, val: Tri)
    requires x in cfg.syms && x in cur
  {
    cur[x] == val || WithinRange(cfg, cur, cfg.syms[x], val)
  }

  /** Setting the current value again keeps it exactly if the symbol is not visible, or visible at
      least as that value, or selected or implied to it: a default above the visibility is lost. */
  predicate Retained(cfg: Config, cur: Values, s: Symb, val: Tri) {
    var env, vis := EnvOf(cfg, cur), SymVisible(cfg, cur, s);
    var rev, implied := RevDep(s, env, vis, cfg.modules), Implied(s, env, vis, cfg.modules);
    vis == NO || val <= vis || val == rev || implied == YES
  }

  lemma AboveRevDep(cfg: Config, user: User, cur: Values, x: Sym)
    requires Consistent(cfg, user, cur) && x in cfg.syms && cfg.syms[x].kind == Plain
    ensures var s := cfg.syms[x]; var env, vis := EnvOf(cfg, cur), SymVisible(cfg, cur, s);
      && RevDep(s, env, vis, cfg.modules) <= cur[x]
      && (cur[x] == MOD ==> !ActsBool(s, vis, cfg.modules) && Implied(s, env, vis, cfg.modules) != YES)
      && (vis == NO ==> forall u :: NewValue(s, u, env, vis, cfg.modules, false) == cur[x])
  {
    PlainValue(cfg, user, cur, x);
    assert cur[x] == ValueOf(cfg, user, cur, x);
  }

  lemma SetSameValue(cfg: Config, user: User, cur: Values, cur': Values, rank: map<Sym, nat>,
                     refs: map<Sym, set<Sym>>, x: Sym)
    requires Ranked(cfg, user, rank, refs) && x in cfg.syms && cfg.syms[x].kind == Plain
    requires cfg.syms[x].ty == Boolean || cfg.syms[x].ty == Tristate
    requires Consistent(cfg, user, cur) && Consistent(cfg, user.(tri := user.tri[x := cur[x]]), cur')
    ensures cur'[x] == cur[x] <==> Retained(cfg, cur, cfg.syms[x], cur[x])
  {
    AfterSet(cfg, user, cur, cur', rank, refs, x, cur[x]);
    SameValue(cfg, user, cur, x);
  }

  lemma SameValue(cfg: Config, user: User, cur: Values, x: Sym)
    requires x in cfg.syms && cfg.syms[x].kind == Plain && Consistent(cfg, user, cur)
    ensures NewValue(cfg.syms[x], Some(cur[x]), EnvOf(cfg, cur), SymVisible(cfg, cur, cfg.syms[x]), cfg.modules, false)
              == cur[x]
       <==> Retained(cfg, cur, cfg.syms[x], cur[x])
  {
    var s := cfg.syms[x];
    var env, vis := EnvOf(cfg, cur), SymVisible(cfg, cur, s);
    AboveRevDep(cfg, user, cur, x);
    if vis != NO {
      UserValue(s, cur[x], env, vis, cfg.modules);
      BoolVisible(s, env, cfg.modules);
      Retention(cur[x], vis, RevDep(s, env, vis, cfg.modules), ActsBool(s, vis, cfg.modules),
                Implied(s, env, vis, cfg.modules));
    }
  }

  lemma Retention(val: Tri, vis: Tri, rev: Tri, bool_: bool, implied: Tri)
    requires vis != NO && rev <= val && (bool_ ==> vis != MOD) && (val == MOD ==> !bool_ && implied != YES)
    ensures Promote(Max(Min(val, vis), rev), bool_ || implied == YES) == val <==>
      val <= vis || val == rev || implied == YES
  {
  }

  /** A symbol that acts as a bool is never visible as m. */
  lemma BoolVisible(s: Symb, env: Env, modules: Tri)
    requires s.kind == Plain
    ensures ActsBool(s, Visible(s, env, NO, modules), modules) ==> Visible(s, env, NO, modules) != MOD
  {
  }

  /** A tristate that is visible as m and has y as its default: setting its current value y turns it
      into m. */
  lemma SetSameLosesValue(base: Env, x: Sym, user: User)
    requires base.tri(SYM_MOD) == MOD && base.tri(SYM_YES) == YES && x != SYM_MOD && x != SYM_YES && x !in user.tri
    ensures var s := Symb(Tristate, Plain, [Some(Symbol(SYM_MOD))], None, None, None, [Default(None, Symbol(SYM_YES))]);
      var cfg := Config.Config(map[x := s], YES, base);
      && Consistent(cfg, user, map[x := YES]) && SetAccepts(cfg, map[x := YES], x, YES)
      && Consistent(cfg, user.(tri := user.tri[x := YES]), map[x := MOD])
  {
    var s := Symb(Tristate, Plain, [Some(Symbol(SYM_MOD))], None, None, None, [Default(None, Symbol(SYM_YES))]);
    var cfg := Config.Config(map[x := s], YES, base);
    LosesVisible(cfg, map[x := YES], s);
    LosesVisible(cfg, map[x := MOD], s);
    PlainValue(cfg, user, map[x := YES], x);
    PlainValue(cfg, user.(tri := user.tri[x := YES]), map[x := MOD], x);
  }

  lemma LosesVisible(cfg: Config, cur: Values, s: Symb)
    requires s.prompts == [Some(Symbol(SYM_MOD))] && s.ty == Tristate && s.kind == Plain && cfg.modules == YES
    requires s.defaults == [Default(None, Symbol(SYM_YES))] && SYM_MOD !in cur && SYM_YES !in cur
    requires cfg.base.tri(SYM_MOD) == MOD && cfg.base.tri(SYM_YES) == YES
    ensures SymVisible(cfg, cur, s) == MOD && DefaultValue(EnvOf(cfg, cur), s.defaults) == YES
  {
    var env := EnvOf(cfg, cur);
    assert s.prompts[..0] == [];
    assert PromptsVisible(s, env, NO, []) == NO;
    assert PromptsVisible(s, env, NO, s.prompts)
      == Max(PromptsVisible(s, env, NO, s.prompts[..0]), PromptVisible(s, env, NO, s.prompts[0]));
  }
}

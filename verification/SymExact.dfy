/** What a configuration's values are, stated by bounds and by positions in the lists of prompts,
    defaults and members, without the helper functions of SymValues (kconf/symbol.c). */
module SymExact {
  import opened KconfigExpr
  import opened SymValues
  import opened SymSet

  // ---------- prompts and defaults ----------

  /** v is the highest value of a condition of ps, and n if there is none. */
  ghost predicate IsHighest(env: Env, ps: seq<Option<Expr>>, v: Tri) {
    && (forall i :: 0 <= i < |ps| ==> ValOpt(env, ps[i]) <= v)
    && (v == NO || exists i :: 0 <= i < |ps| && ValOpt(env, ps[i]) == v)
  }

  lemma {:induction false} PromptsHighest(s: Symb, env: Env, choice: Tri, ps: seq<Option<Expr>>)
    requires !s.kind.Member?
    ensures IsHighest(env, ps, PromptsVisible(s, env, choice, ps))
  {
    if ps != [] {
      var k := |ps| - 1;
      PromptsHighest(s, env, choice, ps[..k]);
      var w := PromptsVisible(s, env, choice, ps[..k]);
      forall i | 0 <= i < |ps| ensures ValOpt(env, ps[i]) <= PromptsVisible(s, env, choice, ps) {
        if i < k { assert ps[..k][i] == ps[i]; }
      }
      if w != NO {
        var i :| 0 <= i < k && ValOpt(env, ps[..k][i]) == w;
        assert ps[..k][i] == ps[i];
      }
    }
  }

  /** The visibility of a symbol in no choice: the highest prompt, where an m counts as y for a symbol
      that is not tristate or without modules. */
  lemma VisibleExactly(s: Symb, env: Env, modules: Tri) returns (v: Tri)
    requires !s.kind.Member?
    ensures IsHighest(env, s.prompts, v)
    ensures Visible(s, env, NO, modules) == if v == MOD && (s.ty != Tristate || modules == NO) then YES else v
  {
    v := PromptsVisible(s, env, NO, s.prompts);
    PromptsHighest(s, env, NO, s.prompts);
  }

  /** A member of a choice at y is visible exactly if it has a prompt at y, or a prompt at m and is
      a bool. */
  lemma {:induction false} MemberPrompts(s: Symb, env: Env, ps: seq<Option<Expr>>)
    requires s.kind.Member? && (s.ty == Boolean || s.ty == Tristate)
    ensures PromptsVisible(s, env, YES, ps) != NO <==>
      exists i :: 0 <= i < |ps| && (ValOpt(env, ps[i]) == YES || (ValOpt(env, ps[i]) == MOD && s.ty == Boolean))
  {
    if ps != [] {
      var k := |ps| - 1;
      MemberPrompts(s, env, ps[..k]);
      assert forall i :: 0 <= i < k ==> ps[..k][i] == ps[i];
    }
  }

  /** i is the first default whose condition is not n. */
  predicate IsFirstDefault(env: Env, ds: seq<Default>, i: int) {
    && 0 <= i < |ds| && ValOpt(env, ds[i].visible) != NO
    && forall j :: 0 <= j < i ==> ValOpt(env, ds[j].visible) == NO
  }

  /** What the defaults contribute: the lower one of the condition and the value of the first default
      whose condition is not n; n if there is none. */
  ghost predicate IsDefault(env: Env, ds: seq<Default>, d: Tri) {
    && (forall i :: IsFirstDefault(env, ds, i) ==>
          && d <= ValOpt(env, ds[i].visible) && d <= Val(env, ds[i].value)
          && (d == ValOpt(env, ds[i].visible) || d == Val(env, ds[i].value)))
    && ((forall i :: 0 <= i < |ds| ==> ValOpt(env, ds[i].visible) == NO) ==> d == NO)
  }

  lemma {:induction false} DefaultExactly(env: Env, ds: seq<Default>)
    ensures IsDefault(env, ds, DefaultValue(env, ds))
  {
    if ds != [] && ValOpt(env, ds[0].visible) == NO {
      DefaultExactly(env, ds[1..]);
      forall i | IsFirstDefault(env, ds, i) ensures IsFirstDefault(env, ds[1..], i - 1) && ds[1..][i - 1] == ds[i] {
        forall j | 0 <= j < i - 1 ensures ValOpt(env, ds[1..][j].visible) == NO {
          assert ds[1..][j] == ds[j + 1];
        }
      }
    }
  }

  // ---------- symbols in no choice ----------

  /** The values of the expressions collected from selects and from implies; the latter count only
      where the symbol's dependencies are not n. */
  function SelectedTo(s: Symb, env: Env): Tri { if s.revDep.None? then NO else Val(env, s.revDep.value) }

  function ImpliedTo(s: Symb, env: Env): Tri {
    if s.implied.None? || ValOpt(env, s.dirDep) == NO then NO else Val(env, s.implied.value)
  }

  /** v is the highest of three values. */
  predicate HighestOf(v: Tri, a: Tri, b: Tri, c: Tri) { a <= v && b <= v && c <= v && (v == a || v == b || v == c) }

  /** The value of a tristate in no choice, with modules. A user value counts while a prompt is
      visible, and then only up to that visibility and not below what selects the symbol; an imply to
      y turns an m into y. Otherwise the value is the highest of default, imply and select. */
  lemma TristateExactly(cfg: Config, user: User, cur: Values, x: Sym) returns (vis: Tri, d: Tri)
    requires Consistent(cfg, user, cur) && x in cfg.syms && cfg.syms[x].kind == Plain
    requires cfg.syms[x].ty == Tristate && cfg.modules != NO
    ensures var s, env := cfg.syms[x], EnvOf(cfg, cur);
      && IsHighest(env, s.prompts, vis) && IsDefault(env, s.defaults, d)
      && (vis == NO || x !in user.tri ==> HighestOf(cur[x], d, ImpliedTo(s, env), SelectedTo(s, env)))
      && (vis != NO && x in user.tri ==>
            var u := if user.tri[x] <= vis then user.tri[x] else vis;
            var w := if u <= SelectedTo(s, env) then SelectedTo(s, env) else u;
            cur[x] == if w == MOD && ImpliedTo(s, env) == YES then YES else w)
  {
    var s, env := cfg.syms[x], EnvOf(cfg, cur);
    vis := VisibleExactly(s, env, cfg.modules);
    d := DefaultValue(env, s.defaults);
    DefaultExactly(env, s.defaults);
    PlainValue(cfg, user, cur, x);
    assert cur[x] == ValueOf(cfg, user, cur, x);
  }

  /** The value of a bool in no choice, or of a tristate without modules: y where the user, a visible
      prompt given, or else a default or an imply, or in any case a select says anything but n. */
  lemma BoolExactly(cfg: Config, user: User, cur: Values, x: Sym) returns (vis: Tri, d: Tri)
    requires Consistent(cfg, user, cur) && x in cfg.syms && cfg.syms[x].kind == Plain
    requires cfg.syms[x].ty == Boolean || (cfg.syms[x].ty == Tristate && cfg.modules == NO)
    ensures var s, env := cfg.syms[x], EnvOf(cfg, cur);
      && IsHighest(env, s.prompts, vis) && IsDefault(env, s.defaults, d) && cur[x] != MOD
      && (vis == NO || x !in user.tri ==>
            (cur[x] == YES <==> d != NO || ImpliedTo(s, env) != NO || SelectedTo(s, env) != NO))
      && (vis != NO && x in user.tri ==> (cur[x] == YES <==> user.tri[x] != NO || SelectedTo(s, env) != NO))
  {
    var s, env := cfg.syms[x], EnvOf(cfg, cur);
    vis := VisibleExactly(s, env, cfg.modules);
    d := DefaultValue(env, s.defaults);
    DefaultExactly(env, s.defaults);
    PlainValue(cfg, user, cur, x);
    assert cur[x] == ValueOf(cfg, user, cur, x);
  }

  // ---------- choices ----------

  predicate CanPick(cfg: Config, env: Env, m: Sym) { MemberVisible(cfg, env, m) != NO }

  /** A member can be picked exactly if one of its prompts is at y, or at m and the member is a bool. */
  lemma CanPickExactly(cfg: Config, env: Env, m: Sym)
    requires m in cfg.syms && cfg.syms[m].kind.Member? && (cfg.syms[m].ty == Boolean || cfg.syms[m].ty == Tristate)
    ensures var s := cfg.syms[m]; CanPick(cfg, env, m) <==>
      exists i :: 0 <= i < |s.prompts| &&
        (ValOpt(env, s.prompts[i]) == YES || (ValOpt(env, s.prompts[i]) == MOD && s.ty == Boolean))
  {
    MemberPrompts(cfg.syms[m], env, cfg.syms[m].prompts);
  }

  predicate UserPicks(cfg: Config, user: User, env: Env, c: Sym) {
    c in user.pick && CanPick(cfg, env, user.pick[c])
  }

  /** A default of a choice that counts: its condition is not n, and its member is visible. */
  predicate PickCounts(cfg: Config, env: Env, p: Pick) { ValOpt(env, p.visible) != NO && CanPick(cfg, env, p.member) }

  predicate IsFirstPick(cfg: Config, env: Env, ps: seq<Pick>, i: int) {
    0 <= i < |ps| && PickCounts(cfg, env, ps[i]) && forall j :: 0 <= j < i ==> !PickCounts(cfg, env, ps[j])
  }

  predicate IsFirstMember(cfg: Config, env: Env, ms: seq<Sym>, i: int) {
    0 <= i < |ms| && CanPick(cfg, env, ms[i]) && forall j :: 0 <= j < i ==> !CanPick(cfg, env, ms[j])
  }

  lemma {:induction false} FirstPickExactly(cfg: Config, env: Env, ps: seq<Pick>)
    ensures forall i :: IsFirstPick(cfg, env, ps, i) ==> FirstPick(cfg, env, ps) == Some(ps[i].member)
    ensures (forall i :: 0 <= i < |ps| ==> !PickCounts(cfg, env, ps[i])) ==> FirstPick(cfg, env, ps) == None
  {
    if ps != [] && !PickCounts(cfg, env, ps[0]) {
      FirstPickExactly(cfg, env, ps[1..]);
      assert forall j :: 0 <= j < |ps[1..]| ==> ps[1..][j] == ps[j + 1];
      forall i | IsFirstPick(cfg, env, ps, i) ensures IsFirstPick(cfg, env, ps[1..], i - 1) { }
    }
  }

  lemma {:induction false} FirstMemberExactly(cfg: Config, env: Env, ms: seq<Sym>)
    ensures forall i :: IsFirstMember(cfg, env, ms, i) ==> FirstVisible(cfg, env, ms) == Some(ms[i])
  {
    if ms != [] && !CanPick(cfg, env, ms[0]) {
      FirstMemberExactly(cfg, env, ms[1..]);
      assert forall j :: 0 <= j < |ms[1..]| ==> ms[1..][j] == ms[j + 1];
      forall i | IsFirstMember(cfg, env, ms, i) ensures IsFirstMember(cfg, env, ms[1..], i - 1) { }
    }
  }

  /** sym_calc_choice: the user's pick if it is visible; else the member of the first default that
      counts; else the first visible member. */
  lemma PickExactly(cfg: Config, user: User, env: Env, c: Sym)
    requires c in cfg.syms && cfg.syms[c].kind.Choice?
    ensures var k := cfg.syms[c].kind; var p := CalcChoice(cfg, env, k, Get(user.pick, c));
      && (UserPicks(cfg, user, env, c) ==> p == Some(user.pick[c]))
      && (!UserPicks(cfg, user, env, c) ==>
            && (forall i :: IsFirstPick(cfg, env, k.picks, i) ==> p == Some(k.picks[i].member))
            && ((forall i :: 0 <= i < |k.picks| ==> !PickCounts(cfg, env, k.picks[i])) ==>
                  forall i :: IsFirstMember(cfg, env, k.members, i) ==> p == Some(k.members[i])))
  {
    FirstPickExactly(cfg, env, cfg.syms[c].kind.picks);
    FirstMemberExactly(cfg, env, cfg.syms[c].kind.members);
  }

  /** In the values of a configuration, the member of a choice at y that is y is the one the user
      picked, if visible; else that of the first default that counts; else the first visible one. */
  lemma ChoiceExactly(cfg: Config, user: User, cur: Values, c: Sym)
    requires Consistent(cfg, user, cur) && ChoiceDeclared(cfg, user, c) && cur[c] == YES
    ensures var k, env := cfg.syms[c].kind, EnvOf(cfg, cur);
      && (UserPicks(cfg, user, env, c) ==> cur[user.pick[c]] == YES)
      && (!UserPicks(cfg, user, env, c) ==>
            && (forall i :: IsFirstPick(cfg, env, k.picks, i) ==> cur[k.picks[i].member] == YES)
            && ((forall i :: 0 <= i < |k.picks| ==> !PickCounts(cfg, env, k.picks[i])) ==>
                  forall i :: IsFirstMember(cfg, env, k.members, i) ==> cur[k.members[i]] == YES))
  {
    var picked := ChoiceExclusive(cfg, user, cur, c);
    PickExactly(cfg, user, EnvOf(cfg, cur), c);
  }

  /** The value of a tristate choice itself, with modules: w is the user's value up to the visibility
      of the prompt, but not below what selects the choice, or y for an m with an imply to y. Where w
      is y, the choice is y if it has a visible member and n if not. A choice has no defaults. */
  lemma ChoiceValueExactly(cfg: Config, user: User, cur: Values, c: Sym) returns (vis: Tri, w: Tri)
    requires Consistent(cfg, user, cur) && ChoiceDeclared(cfg, user, c)
    requires cfg.syms[c].ty == Tristate && cfg.modules != NO
    ensures var s, env := cfg.syms[c], EnvOf(cfg, cur); var sel := SelectedTo(s, env);
      && IsHighest(env, s.prompts, vis)
      && (var u := if vis == NO || c !in user.tri then NO else if user.tri[c] <= vis then user.tri[c] else vis;
          var v := if u <= sel then sel else u;
          w == if v == MOD && ImpliedTo(s, env) == YES then YES else v)
      && (w != YES ==> cur[c] == w)
      && (w == YES ==> cur[c] == if exists m :: m in s.kind.members && CanPick(cfg, EnvOf(cfg, cur[c := YES]), m)
                                 then YES else NO)
  {
    var s, env := cfg.syms[c], EnvOf(cfg, cur);
    vis := VisibleExactly(s, env, cfg.modules);
    w := Max(if vis != NO && c in user.tri then Min(user.tri[c], vis) else NO, SelectedTo(s, env));
    w := Promote(w, ImpliedTo(s, env) == YES);
    assert cur[c] == ValueOf(cfg, user, cur, c);
    CalcChoiceVisible(cfg, user, EnvOf(cfg, cur[c := YES]), c);
  }

  /** A member is at y only through its choice: while the choice is not at y, a tristate member that is
      visible as m has the user's value up to m, and any other member is n. */
  lemma MemberBesidesPick(cfg: Config, user: User, cur: Values, c: Sym, m: Sym)
    requires Consistent(cfg, user, cur) && ChoiceDeclared(cfg, user, c) && cur[c] != YES
    requires m in cfg.syms[c].kind.members
    ensures var vis := SymVisible(cfg, cur, cfg.syms[m]);
      cur[m] == if vis == MOD && m in user.tri && user.tri[m] != NO then MOD else NO
  {
    var s := cfg.syms[m];
    assert cur[m] == ValueOf(cfg, user, cur, m);
    assert DefaultValue(EnvOf(cfg, cur), s.defaults) == NO;
  }

  // ---------- the range of values ----------

  /** sym_tristate_within_range accepts exactly the values that lie between what selects the symbol and
      its visibility, if these differ, and that would be its value if set. */
  lemma RangeExactly(cfg: Config, user: User, cur: Values, cur': Values, rank: map<Sym, nat>,
                     refs: map<Sym, set<Sym>>, x: Sym, val: Tri)
    requires Ranked(cfg, user, rank, refs) && x in cfg.syms && cfg.syms[x].kind == Plain
    requires cfg.syms[x].ty == Boolean || cfg.syms[x].ty == Tristate
    requires Consistent(cfg, user, cur) && Consistent(cfg, user.(tri := user.tri[x := val]), cur')
    ensures var s, env := cfg.syms[x], EnvOf(cfg, cur); var vis := SymVisible(cfg, cur, s);
      WithinRange(cfg, cur, s, val) <==> RevDep(s, env, vis, cfg.modules) < vis && val <= vis && cur'[x] == val
  {
    var s, env := cfg.syms[x], EnvOf(cfg, cur);
    var vis := SymVisible(cfg, cur, s);
    AfterSet(cfg, user, cur, cur', rank, refs, x, val);
    if vis != NO {
      UserValue(s, val, env, vis, cfg.modules);
      BoolVisible(s, env, cfg.modules);
    }
  }

  /** A visible bool that nothing selects can be set to y and to n, and to m never. */
  lemma BoolRange(cfg: Config, cur: Values, s: Symb)
    requires s.kind == Plain && s.ty == Boolean && SymVisible(cfg, cur, s) != NO && SelectedTo(s, EnvOf(cfg, cur)) == NO
    ensures WithinRange(cfg, cur, s, YES) && WithinRange(cfg, cur, s, NO) && !WithinRange(cfg, cur, s, MOD)
  {
    BoolVisible(s, EnvOf(cfg, cur), cfg.modules);
  }

  /** A visible tristate that nothing selects or implies can be set, with modules, to exactly the values
      up to its visibility. */
  lemma TristateRange(cfg: Config, cur: Values, s: Symb, val: Tri)
    requires s.kind == Plain && s.ty == Tristate && cfg.modules != NO && SymVisible(cfg, cur, s) != NO
    requires SelectedTo(s, EnvOf(cfg, cur)) == NO && ImpliedTo(s, EnvOf(cfg, cur)) == NO
    ensures WithinRange(cfg, cur, s, val) <==> val <= SymVisible(cfg, cur, s)
  {
  }
}

/** sym_calc_value with its memory of what is already computed (kconf/symbol.c): it computes the
    values that the relation of SymValues determines. */
module SymEval {
  import opened KconfigExpr
  import opened SymCycles
  import opened SymValues
  import opened SymSet

  /** The picks of choices: curr.val of choice symbols. */
  type Picks = map<Sym, Option<Sym>>

  /** A configuration with user settings and a witness that it has no recursive dependency. */
  datatype Problem = Problem(cfg: Config, user: User, rank: map<Sym, nat>, refs: map<Sym, set<Sym>>)

  /** As menu_finalize leaves it, the condition of every prompt of a member refers to the choice. */
  predicate MentionsChoice(s: Symb) {
    s.kind.Member? ==> forall i :: 0 <= i < |s.prompts| ==> s.kind.choice in MentionsOpt(s.prompts[i])
  }

  /** All symbols that sym_calc_value looks at for the expressions of a symbol. */
  function AllRefs(s: Symb): set<Sym> {
    PromptRefs(s.prompts) + MentionsOpt(s.dirDep) + MentionsOpt(s.revDep) + MentionsOpt(s.implied)
    + DefaultRefs(s.defaults)
  }

  ghost predicate WellFormed(p: Problem) {
    && Ranked(p.cfg, p.user, p.rank, p.refs)
    && (forall x :: x in p.cfg.syms ==> AllRefs(p.cfg.syms[x]) <= p.refs[x])
    && (forall x :: x in p.cfg.syms ==> MentionsChoice(p.cfg.syms[x]))
    && (forall x :: x in p.cfg.syms && p.cfg.syms[x].kind.Choice? ==> PicksMembers(p.cfg, p.user, x))
    && (forall x :: x in p.cfg.syms && p.cfg.syms[x].kind.Member? ==> IsChoice(p.cfg, p.cfg.syms[x].kind.choice))
  }

  predicate IsChoice(cfg: Config, c: Sym) { c in cfg.syms && cfg.syms[c].kind.Choice? }

  /** What the user or a default picks is a member, and members are members of this choice. */
  predicate PicksMembers(cfg: Config, user: User, c: Sym)
    requires IsChoice(cfg, c)
  {
    var k := cfg.syms[c].kind;
    && (c in user.pick ==> user.pick[c] in k.members)
    && (forall i :: 0 <= i < |k.picks| ==> k.picks[i].member in k.members)
    && (forall m :: m in k.members ==> m in cfg.syms && cfg.syms[m].kind == Member(c))
  }

  // ---------- the answer ----------

  /** The value of a symbol, by recursion over what it refers to. */
  ghost function Answer(p: Problem, x: Sym): Tri
    requires WellFormed(p) && x in p.cfg.syms
    decreases p.rank[x]
  {
    assert RefsLower(p.cfg, p.rank, x, p.refs[x]);
    ValueOf(p.cfg, p.user, map r | r in p.refs[x] && r in p.cfg.syms :: Answer(p, r), x)
  }

  ghost function Answers(p: Problem): Values
    requires WellFormed(p)
  {
    map x | x in p.cfg.syms :: Answer(p, x)
  }

  /** The answers fit together: they are the values of the configuration. */
  lemma AnswerIs(p: Problem, x: Sym)
    requires WellFormed(p) && x in p.cfg.syms
    ensures Answer(p, x) == ValueOf(p.cfg, p.user, Answers(p), x)
  {
    var below := map r | r in p.refs[x] && r in p.cfg.syms :: Answer(p, r);
    assert Covers(p.cfg, p.user, x, p.refs[x]);
    assert Agree(below, Answers(p), p.refs[x]);
    ValueAgrees(p.cfg, p.user, below, Answers(p), x, p.refs[x]);
  }

  lemma AnswersConsistent(p: Problem)
    requires WellFormed(p)
    ensures Consistent(p.cfg, p.user, Answers(p))
  {
    forall x | x in p.cfg.syms ensures Answers(p)[x] == ValueOf(p.cfg, p.user, Answers(p), x) { AnswerIs(p, x); }
  }

  // ---------- what is computed so far ----------

  /** The values and picks to be computed, and the ranks. */
  datatype Goal = Goal(ans: Values, pick: Picks, rank: map<Sym, nat>)

  /** x is well-formed, and its value and pick are the right ones. */
  ghost predicate SymFits(p: Problem, g: Goal, x: Sym) {
    && x in p.cfg.syms && x in p.refs && x in g.ans && x in g.pick && x in g.rank && g.rank.Keys == p.cfg.syms.Keys
    && Covers(p.cfg, p.user, x, p.refs[x]) && RefsLower(p.cfg, g.rank, x, p.refs[x])
    && MentionsChoice(p.cfg.syms[x]) && AllRefs(p.cfg.syms[x]) <= p.refs[x]
    && (p.cfg.syms[x].kind.Choice? ==> PicksMembers(p.cfg, p.user, x))
    && (p.cfg.syms[x].kind.Member? ==> IsChoice(p.cfg, p.cfg.syms[x].kind.choice))
    && g.ans[x] == ValueOf(p.cfg, p.user, g.ans, x) && g.pick[x] == PickOf(p.cfg, p.user, g.ans, x)
  }

  /** The symbols that do not fit. */
  ghost function Misfits(p: Problem, g: Goal): set<Sym> { set x | x in p.cfg.syms && !SymFits(p, g, x) }

  lemma FitsAt(p: Problem, g: Goal, x: Sym)
    requires Misfits(p, g) == {} && x in p.cfg.syms
    ensures SymFits(p, g, x)
  {
    assert x !in Misfits(p, g);
  }

  ghost function GoalOf(p: Problem): Goal
    requires WellFormed(p)
  {
    Goal(Answers(p), map c | c in p.cfg.syms :: PickOf(p.cfg, p.user, Answers(p), c), p.rank)
  }

  lemma GoalFitsAt(p: Problem, g: Goal, x: Sym)
    requires WellFormed(p) && x in p.cfg.syms && g.ans == Answers(p) && g.rank == p.rank
    requires x in g.pick && g.pick[x] == PickOf(p.cfg, p.user, g.ans, x)
    ensures SymFits(p, g, x)
  {
    AnswerIs(p, x);
    assert Covers(p.cfg, p.user, x, p.refs[x]) && RefsLower(p.cfg, p.rank, x, p.refs[x]);
  }

  lemma GoalFits(p: Problem, g: Goal)
    requires WellFormed(p) && g == GoalOf(p)
    ensures Misfits(p, g) == {}
  {
    forall x | x in p.cfg.syms ensures x !in Misfits(p, g) { GoalFitsAt(p, g, x); }
  }

  /** The computation at some moment: the symbols with SYMBOL_VALID, those whose computation has
      ended, curr.tri of all symbols, and curr.val of choices. */
  datatype State = State(valid: set<Sym>, done: set<Sym>, cur: Values, pick: Picks)

  /** The symbols whose computation has ended with another value or pick than the right one. */
  function Wrong(g: Goal, st: State): set<Sym>
    requires st.cur.Keys == g.ans.Keys == g.pick.Keys == st.pick.Keys && st.done <= g.ans.Keys
  {
    set y | y in st.done && !(st.cur[y] == g.ans[y] && st.pick[y] == g.pick[y])
  }

  predicate Inv(g: Goal, st: State) {
    && st.cur.Keys == g.ans.Keys == g.rank.Keys == g.pick.Keys == st.pick.Keys && st.done <= st.valid <= g.ans.Keys
    && Wrong(g, st) == {}
  }

  /** The symbols that were computed or being computed at b and have changed since. */
  function Changed(b: State, st: State): set<Sym>
    requires st.cur.Keys == b.cur.Keys == st.pick.Keys == b.pick.Keys && b.valid <= b.cur.Keys
  {
    set y | y in b.valid && !(st.cur[y] == b.cur[y] && st.pick[y] == b.pick[y])
  }

  /** Nothing that was computed or being computed at b has changed, and what was being computed
      still is. */
  predicate Since(b: State, st: State) {
    && b.valid <= st.valid && b.done <= st.done && st.valid - st.done == b.valid - b.done
    && st.cur.Keys == b.cur.Keys == st.pick.Keys == b.pick.Keys && b.valid <= b.cur.Keys && Changed(b, st) == {}
  }

  lemma SinceTrans(a: State, b: State, c: State)
    requires Since(a, b) && Since(b, c)
    ensures Since(a, c)
  {
    forall y | y in a.valid ensures y !in Changed(a, c) { assert y !in Changed(a, b) && y !in Changed(b, c); }
  }

  /** m can be asked for, and will read as in `read`: it is being computed and has that value so far,
      or that is its value and it is below everything that is being computed. */
  predicate Ready(g: Goal, b: State, read: Values, m: Sym) {
    m in g.ans ==>
      && m in read && m in b.cur && m in g.rank
      && (m in b.valid && m !in b.done ==> b.cur[m] == read[m])
      && (m !in b.valid || m in b.done ==> read[m] == g.ans[m])
      && (m !in b.valid ==> forall o :: o in b.valid && o !in b.done && o in g.rank ==> g.rank[m] < g.rank[o])
  }

  predicate AllReady(g: Goal, b: State, read: Values, ms: set<Sym>) { forall m :: m in ms ==> Ready(g, b, read, m) }

  lemma ReadyKept(g: Goal, b: State, st: State, read: Values, m: Sym)
    requires Ready(g, b, read, m) && Since(b, st)
    ensures Ready(g, st, read, m)
  {
    assert m !in Changed(b, st);
    forall o | o in st.valid && o !in st.done ensures o in b.valid && o !in b.done { assert o in st.valid - st.done; }
    forall o | o in b.valid && o !in b.done ensures o in st.valid && o !in st.done { assert o in b.valid - b.done; }
  }

  /** Once asked for, a symbol reads as in `read`. */
  lemma ReadsAs(g: Goal, b: State, st: State, read: Values, m: Sym)
    requires Inv(g, st) && Ready(g, b, read, m) && Since(b, st) && m in st.valid
    ensures m in read && m in st.cur && st.cur[m] == read[m]
  {
    ReadyKept(g, b, st, read, m);
    assert m !in Wrong(g, st);
  }

  // ---------- the computation ----------

  class Evaluator {
    const cfg: Config
    const user: User
    ghost const p: Problem
    ghost const g: Goal
    var valid: set<Sym>
    var cur: Values
    var pick: Picks
    ghost var done: set<Sym>

    /** Nothing is computed yet. */
    constructor (cfg: Config, user: User, ghost p: Problem, ghost g: Goal)
      requires p.cfg == cfg && p.user == user && Misfits(p, g) == {}
      requires g.ans.Keys == g.rank.Keys == g.pick.Keys == cfg.syms.Keys
      ensures this.cfg == cfg && this.user == user && this.p == p && this.g == g && Setup()
      ensures Idle(g, Now()) && Under(Now())
    {
      this.cfg, this.user, this.p, this.g := cfg, user, p, g;
      valid, done := {}, {};
      cur, pick := map x | x in cfg.syms :: NO, map x | x in cfg.syms :: None;
      new;
      Fresh(g, Now());
    }

    ghost predicate Setup() {
      p.cfg == cfg && p.user == user && Misfits(p, g) == {}
    }

    ghost function Now(): State
      reads this
    {
      State(valid, done, cur, pick)
    }

    /** The computation is under way, from b on. */
    ghost predicate Under(b: State)
      reads this
    {
      var now := Now();
      var ok := Inv(g, now) && g.ans.Keys == cfg.syms.Keys && Since(b, now);
      ok
    }

    /** expr_calc_value. */
    method CalcExpr(e: Expr, ghost b: State, ghost read: Values) returns (r: Tri)
      requires Setup() && Under(b) && AllReady(g, b, read, Mentions(e)) && read.Keys == cfg.syms.Keys
      modifies this`valid, this`cur, this`pick, this`done
      ensures Under(b) && old(valid) <= valid && Mentions(e) * cfg.syms.Keys <= valid && r == Val(EnvOf(cfg, read), e)
      decreases cfg.syms.Keys - valid, 2, e
    {
      match e
      case Symbol(s) =>
        CalcValue(s, b, read);
        r := if s in cfg.syms then cur[s] else cfg.base.tri(s);
      case Not(a) =>
        r := CalcExpr(a, b, read);
        r := TriNot(r);
      case Bin(op, x, y) =>
        var l := CalcExpr(x, b, read);
        r := CalcExpr(y, b, read);
        r := TriOp(op, l, r);
      case Compare(cmp, x, y) =>
        r := CalcCompare(cmp, x, y, b, read);
    }

    method CalcCompare(cmp: Cmp, x: Sym, y: Sym, ghost b: State, ghost read: Values) returns (r: Tri)
      requires Setup() && Under(b) && AllReady(g, b, read, {x, y}) && read.Keys == cfg.syms.Keys
      modifies this`valid, this`cur, this`pick, this`done
      ensures Under(b) && old(valid) <= valid && {x, y} * cfg.syms.Keys <= valid
      ensures r == CompareVal(EnvOf(cfg, read), cmp, x, y)
      decreases cfg.syms.Keys - valid, 1
    {
      CalcValue(x, b, read);
      CalcValue(y, b, read);
      r := CompareNow(cmp, x, y, b, read);
    }

    method CompareNow(cmp: Cmp, x: Sym, y: Sym, ghost b: State, ghost read: Values) returns (r: Tri)
      requires Under(b) && read.Keys == cfg.syms.Keys && Ready(g, b, read, x) && Ready(g, b, read, y)
      requires {x, y} * cfg.syms.Keys <= valid
      ensures r == CompareVal(EnvOf(cfg, read), cmp, x, y)
    {
      if x in cfg.syms { ReadsAs(g, b, Now(), read, x); }
      if y in cfg.syms { ReadsAs(g, b, Now(), read, y); }
      CompareAgrees(EnvOf(cfg, cur), EnvOf(cfg, read), cmp, x, y);
      r := CompareVal(EnvOf(cfg, cur), cmp, x, y);
    }

    /** The value of an expression that may be missing. */
    method CalcOpt(e: Option<Expr>, none: Tri, ghost b: State, ghost read: Values) returns (r: Tri)
      requires Setup() && Under(b) && AllReady(g, b, read, MentionsOpt(e)) && read.Keys == cfg.syms.Keys
      modifies this`valid, this`cur, this`pick, this`done
      ensures Under(b) && old(valid) <= valid && MentionsOpt(e) * cfg.syms.Keys <= valid
      ensures r == if e.None? then none else Val(EnvOf(cfg, read), e.value)
      decreases cfg.syms.Keys - valid, 3
    {
      r := none;
      if e.Some? { r := CalcExpr(e.value, b, read); }
    }

    /** The visibility part of sym_calc_visibility. */
    method CalcVisible(s: Symb, ghost b: State, ghost read: Values) returns (t: Tri)
      requires Setup() && Under(b) && AllReady(g, b, read, PromptRefs(s.prompts)) && read.Keys == cfg.syms.Keys
      requires MentionsChoice(s) && (s.kind.Member? ==> s.kind.choice in cfg.syms)
      modifies this`valid, this`cur, this`pick, this`done
      ensures Under(b) && old(valid) <= valid && (s.kind.Member? && s.prompts != [] ==> s.kind.choice in valid)
      ensures t == Visible(s, EnvOf(cfg, read), ChoiceValue(cfg, read, s), cfg.modules)
      decreases cfg.syms.Keys - valid, 5
    {
      t := NO;
      var i := 0;
      while i < |s.prompts|
        invariant 0 <= i <= |s.prompts| && Under(b) && old(valid) <= valid
        invariant s.kind.Member? && i > 0 ==> s.kind.choice in valid
        invariant t == PromptsVisible(s, EnvOf(cfg, read), ChoiceValue(cfg, read, s), s.prompts[..i])
      {
        PromptStep(s, i);
        var q := CalcPrompt(s, s.prompts[i], b, read);
        t := Max(t, q);
        i := i + 1;
      }
      assert s.prompts[..i] == s.prompts;
      if t == MOD && (s.ty != Tristate || cfg.modules == NO) { t := YES; }
    }

    method CalcPrompt(s: Symb, e: Option<Expr>, ghost b: State, ghost read: Values) returns (q: Tri)
      requires Setup() && Under(b) && AllReady(g, b, read, MentionsOpt(e)) && read.Keys == cfg.syms.Keys
      requires s.kind.Member? ==> s.kind.choice in cfg.syms && s.kind.choice in MentionsOpt(e)
      modifies this`valid, this`cur, this`pick, this`done
      ensures Under(b) && old(valid) <= valid && (s.kind.Member? ==> s.kind.choice in valid)
      ensures q == PromptVisible(s, EnvOf(cfg, read), ChoiceValue(cfg, read, s), e)
      decreases cfg.syms.Keys - valid, 4
    {
      q := CalcOpt(e, YES, b, read);
      if s.kind.Member? {
        ReadsAs(g, b, Now(), read, s.kind.choice);
        if s.ty == Tristate && q == MOD && cur[s.kind.choice] == YES { q := NO; }
      }
    }

    /** The first default whose condition is not n. */
    method CalcDefault(ds: seq<Default>, ghost b: State, ghost read: Values) returns (r: Tri)
      requires Setup() && Under(b) && AllReady(g, b, read, DefaultRefs(ds)) && read.Keys == cfg.syms.Keys
      modifies this`valid, this`cur, this`pick, this`done
      ensures Under(b) && old(valid) <= valid && r == DefaultValue(EnvOf(cfg, read), ds)
      decreases cfg.syms.Keys - valid, 4
    {
      var i := 0;
      assert ds[0..] == ds;
      while i < |ds|
        invariant 0 <= i <= |ds| && Under(b) && old(valid) <= valid
        invariant DefaultValue(EnvOf(cfg, read), ds) == DefaultValue(EnvOf(cfg, read), ds[i..])
      {
        DefaultStep(ds, i);
        var v := CalcOpt(ds[i].visible, YES, b, read);
        if v != NO {
          r := CalcExpr(ds[i].value, b, read);
          r := Min(r, v);
          return;
        }
        i := i + 1;
      }
      r := NO;
    }

    /** The dependency part of sym_calc_visibility. */
    method CalcDeps(s: Symb, vis: Tri, ghost b: State, ghost read: Values) returns (rev: Tri, imp: Tri)
      requires Setup() && Under(b) && AllReady(g, b, read, AllRefs(s)) && read.Keys == cfg.syms.Keys
      modifies this`valid, this`cur, this`pick, this`done
      ensures Under(b) && old(valid) <= valid
      ensures rev == RevDep(s, EnvOf(cfg, read), vis, cfg.modules)
      ensures imp == Implied(s, EnvOf(cfg, read), vis, cfg.modules)
      decreases cfg.syms.Keys - valid, 4
    {
      if s.kind.Member? { return NO, NO; }
      var isBool := ActsBool(s, vis, cfg.modules);
      var dir := CalcOpt(s.dirDep, YES, b, read);
      dir := Promote(dir, isBool);
      rev := CalcOpt(s.revDep, NO, b, read);
      rev := Promote(rev, isBool);
      imp := NO;
      if dir != NO {
        imp := CalcOpt(s.implied, NO, b, read);
        imp := Promote(imp, isBool);
      }
    }

    /** newval.tri for a symbol that does not follow the pick of its choice. */
    method CalcOwn(s: Symb, u: Option<Tri>, vis: Tri, rev: Tri, imp: Tri, ghost b: State, ghost read: Values)
      returns (r: Tri)
      requires Setup() && Under(b) && AllReady(g, b, read, AllRefs(s)) && read.Keys == cfg.syms.Keys
      requires rev == RevDep(s, EnvOf(cfg, read), vis, cfg.modules)
      requires imp == Implied(s, EnvOf(cfg, read), vis, cfg.modules)
      requires !(s.kind.Member? && vis == YES)
      modifies this`valid, this`cur, this`pick, this`done
      ensures Under(b) && old(valid) <= valid && r == NewValue(s, u, EnvOf(cfg, read), vis, cfg.modules, false)
      decreases cfg.syms.Keys - valid, 5
    {
      if vis != NO && u.Some? {
        r := Min(u.value, vis);
      } else if s.kind.Choice? {
        r := NO;
      } else {
        r := CalcDefault(s.defaults, b, read);
        r := Max(r, imp);
      }
      r := Promote(Max(r, rev), ActsBool(s, vis, cfg.modules) || imp == YES);
    }

    method CalcMember(m: Sym, ghost c: Sym, ghost b: State, ghost read: Values) returns (t: Tri)
      requires Setup() && Under(b) && read.Keys == cfg.syms.Keys && c in read && read[c] == YES
      requires MemberReady(g, b, read, cfg, c, m)
      modifies this`valid, this`cur, this`pick, this`done
      ensures Under(b) && old(valid) <= valid && t == MemberVisible(cfg, EnvOf(cfg, read), m)
      decreases cfg.syms.Keys - valid, 6
    {
      t := CalcVisible(cfg.syms[m], b, read);
    }

    /** The visibilities of the members of a choice. */
    method CalcMembers(ms: seq<Sym>, ghost c: Sym, ghost b: State, ghost read: Values) returns (vis: map<Sym, Tri>)
      requires Setup() && Under(b) && read.Keys == cfg.syms.Keys && c in read && read[c] == YES
      requires forall m :: m in ms ==> MemberReady(g, b, read, cfg, c, m)
      modifies this`valid, this`cur, this`pick, this`done
      ensures Under(b) && old(valid) <= valid
      ensures Seen(cfg, read, vis, ms)
      decreases cfg.syms.Keys - valid, 7
    {
      vis := map[];
      var i := 0;
      while i < |ms|
        invariant 0 <= i <= |ms| && Under(b) && old(valid) <= valid
        invariant Seen(cfg, read, vis, ms[..i])
      {
        var t := CalcMember(ms[i], c, b, read);
        SeenStep(cfg, read, vis, ms, i, t);
        vis := vis[ms[i] := t];
        i := i + 1;
      }
      assert ms[..i] == ms;
    }

    /** sym_calc_choice and sym_choice_default. */
    method PickMember(c: Sym, ghost b: State, ghost read: Values) returns (r: Option<Sym>)
      requires Setup() && Under(b) && read.Keys == cfg.syms.Keys && c in read && read[c] == YES
      requires IsChoice(cfg, c) && PicksMembers(cfg, user, c) && AllReady(g, b, read, PickRefs(cfg.syms[c].kind.picks))
      requires forall m :: m in cfg.syms[c].kind.members ==> MemberReady(g, b, read, cfg, c, m)
      modifies this`valid, this`cur, this`pick, this`done
      ensures Under(b) && old(valid) <= valid
      ensures r == CalcChoice(cfg, EnvOf(cfg, read), cfg.syms[c].kind, Get(user.pick, c))
      decreases cfg.syms.Keys - valid, 8
    {
      var k := cfg.syms[c].kind;
      var vis := CalcMembers(k.members, c, b, read);
      if c in user.pick && vis[user.pick[c]] != NO { return Some(user.pick[c]); }
      r := CalcPick(k.picks, k.members, vis, b, read);
      if r.None? { r := FirstOf(k.members, vis, read); }
    }

    /** The first default of a choice that is visible. */
    method CalcPick(ps: seq<Pick>, ghost ms: seq<Sym>, vis: map<Sym, Tri>, ghost b: State, ghost read: Values)
      returns (r: Option<Sym>)
      requires Setup() && Under(b) && read.Keys == cfg.syms.Keys && AllReady(g, b, read, PickRefs(ps))
      requires forall i :: 0 <= i < |ps| ==> ps[i].member in ms
      requires Seen(cfg, read, vis, ms)
      modifies this`valid, this`cur, this`pick, this`done
      ensures Under(b) && old(valid) <= valid && r == FirstPick(cfg, EnvOf(cfg, read), ps)
      decreases cfg.syms.Keys - valid, 6
    {
      var i := 0;
      assert ps[0..] == ps;
      while i < |ps|
        invariant 0 <= i <= |ps| && Under(b) && old(valid) <= valid
        invariant FirstPick(cfg, EnvOf(cfg, read), ps) == FirstPick(cfg, EnvOf(cfg, read), ps[i..])
      {
        PickStep(ps, i);
        var v := CalcOpt(ps[i].visible, YES, b, read);
        if v != NO && vis[ps[i].member] != NO { return Some(ps[i].member); }
        i := i + 1;
      }
      r := None;
    }

    /** The first member of a choice that is visible. */
    method FirstOf(ms: seq<Sym>, vis: map<Sym, Tri>, ghost read: Values) returns (r: Option<Sym>)
      requires Seen(cfg, read, vis, ms)
      ensures r == FirstVisible(cfg, EnvOf(cfg, read), ms)
    {
      var i := 0;
      assert ms[0..] == ms;
      while i < |ms|
        invariant 0 <= i <= |ms|
        invariant FirstVisible(cfg, EnvOf(cfg, read), ms) == FirstVisible(cfg, EnvOf(cfg, read), ms[i..])
      {
        assert ms[i..][0] == ms[i] && ms[i..][1..] == ms[i + 1..];
        if vis[ms[i]] != NO { return Some(ms[i]); }
        i := i + 1;
      }
      r := None;
    }

    /** sym_calc_value of all symbols. */
    method CalcAll(all: seq<Sym>, ghost b: State)
      requires Setup() && Under(b) && Idle(g, b)
      modifies this`valid, this`cur, this`pick, this`done
      ensures Under(b) && FirstIn(all, |all|, cfg.syms.Keys, valid)
    {
      var i := 0;
      while i < |all|
        invariant 0 <= i <= |all| && Under(b) && FirstIn(all, i, cfg.syms.Keys, valid)
      {
        CalcNext(all, i, b);
        i := i + 1;
      }
    }

    method CalcNext(all: seq<Sym>, i: nat, ghost b: State)
      requires Setup() && Under(b) && Idle(g, b) && i < |all| && FirstIn(all, i, cfg.syms.Keys, valid)
      modifies this`valid, this`cur, this`pick, this`done
      ensures Under(b) && FirstIn(all, i + 1, cfg.syms.Keys, valid)
    {
      CalcOne(all[i], b);
    }

    method CalcOne(x: Sym, ghost b: State)
      requires Setup() && Under(b) && Idle(g, b)
      modifies this`valid, this`cur, this`pick, this`done
      ensures Under(b) && old(valid) <= valid && (x in cfg.syms ==> x in valid)
    {
      NothingBusy(g, b, x);
      CalcValue(x, b, g.ans);
    }

    /** sym_calc_value. */
    method CalcValue(x: Sym, ghost b: State, ghost read: Values)
      requires Setup() && Under(b) && Ready(g, b, read, x)
      modifies this`valid, this`cur, this`pick, this`done
      ensures Under(b) && old(valid) <= valid
      ensures x in cfg.syms ==> x in valid && x in read && x in cur && cur[x] == read[x]
      decreases cfg.syms.Keys - valid, 0
    {
      if x !in cfg.syms { return; }
      if x !in valid {
        ghost var before := Now();
        ReadyKept(g, b, before, read, x);
        ComputeNew(x);
        SinceTrans(b, before, Now());
      }
      ReadsAs(g, b, Now(), read, x);
    }

    /** sym_calc_value without SYMBOL_VALID. */
    method ComputeNew(x: Sym)
      requires Setup() && Inv(g, Now()) && g.ans.Keys == cfg.syms.Keys && x in cfg.syms && x !in valid
      requires Lowest(g, Now(), x)
      modifies this`valid, this`cur, this`pick, this`done
      ensures Under(old(Now())) && x in valid && old(valid) <= valid
      decreases cfg.syms.Keys - valid, 0, 0
    {
      ghost var before := Now();
      Mark(x);
      Compute(x, before);
      Finish(x, before);
    }

    /** sym->flags |= SYMBOL_VALID. */
    method Mark(x: Sym)
      requires Inv(g, Now()) && g.ans.Keys == cfg.syms.Keys && x in cfg.syms && x !in valid
      modifies this`valid
      ensures At(old(Now()), x) && valid == old(valid) + {x}
    {
      ghost var before := Now();
      Enter(g, before, x);
      valid := valid + {x};
      assert Now() == before.(valid := before.valid + {x});
    }

    ghost method Finish(x: Sym, b: State)
      requires At(b, x) && x in cfg.syms && cur[x] == g.ans[x] && pick[x] == g.pick[x]
      modifies this`done
      ensures Under(b) && x in valid
    {
      var after := Now();
      Leave(g, b, after, x);
      assert x in after.valid - after.done;
      done := done + {x};
      assert Now() == after.(done := after.done + {x});
    }

    /** The computation is under way, from b on, and is now at x. */
    ghost predicate At(b: State, x: Sym)
      reads this
    {
      var now := Now();
      var ok := Inv(g, now) && g.ans.Keys == cfg.syms.Keys && Busy(b, now, x);
      ok
    }

    /** sym_calc_visibility for x. */
    method Visibility(x: Sym, s: Symb, ghost b: State) returns (vis: Tri, rev: Tri, imp: Tri)
      requires Setup() && At(b, x) && x in cfg.syms && s == cfg.syms[x] && Lowest(g, b, x)
      modifies this`valid, this`cur, this`pick, this`done
      ensures At(b, x) && old(valid) <= valid && (s.kind.Member? && s.prompts != [] ==> s.kind.choice in valid)
      ensures vis == SymVisible(cfg, g.ans, s)
      ensures rev == RevDep(s, EnvOf(cfg, g.ans), vis, cfg.modules)
      ensures imp == Implied(s, EnvOf(cfg, g.ans), vis, cfg.modules)
      decreases cfg.syms.Keys - valid, 7
    {
      ghost var st := Now();
      OwnReady(p, g, b, st, x);
      vis := CalcVisible(s, st, g.ans);
      Shrinks(cfg.syms.Keys, old(valid), valid);
      rev, imp := CalcDeps(s, vis, st, g.ans);
      BusyStep(b, st, Now(), x);
    }

    /** newval.tri. */
    method NewVal(x: Sym, s: Symb, ghost b: State) returns (newval: Tri)
      requires Setup() && At(b, x) && x in cfg.syms && s == cfg.syms[x] && Lowest(g, b, x)
      modifies this`valid, this`cur, this`pick, this`done
      ensures At(b, x) && old(valid) <= valid && newval == NewValueIn(p, g.ans, x)
      decreases cfg.syms.Keys - valid, 8
    {
      var vis, rev, imp := Visibility(x, s, b);
      Store(x, NO, None, b);
      if s.kind.Member? && vis == YES {
        newval := FollowPick(x, s, b);
      } else {
        newval := OwnVal(x, s, vis, rev, imp, b);
      }
    }

    method OwnVal(x: Sym, s: Symb, vis: Tri, rev: Tri, imp: Tri, ghost b: State) returns (newval: Tri)
      requires Setup() && At(b, x) && x in cfg.syms && s == cfg.syms[x] && Lowest(g, b, x)
      requires !(s.kind.Member? && vis == YES)
      requires vis == SymVisible(cfg, g.ans, s)
      requires rev == RevDep(s, EnvOf(cfg, g.ans), vis, cfg.modules)
      requires imp == Implied(s, EnvOf(cfg, g.ans), vis, cfg.modules)
      modifies this`valid, this`cur, this`pick, this`done
      ensures At(b, x) && old(valid) <= valid && newval == NewValueIn(p, g.ans, x)
      decreases cfg.syms.Keys - valid, 7
    {
      ghost var st := Now();
      OwnReady(p, g, b, st, x);
      newval := CalcOwn(s, Get(user.tri, x), vis, rev, imp, st, g.ans);
      BusyStep(b, st, Now(), x);
    }

    /** The end of sym_calc_value for a choice at y. */
    method SettleChoice(x: Sym, ghost b: State)
      requires Setup() && At(b, x) && x in cfg.syms && Lowest(g, b, x)
      requires IsChoice(cfg, x) && NewValueIn(p, g.ans, x) == YES && cur[x] == YES
      modifies this`valid, this`cur, this`pick, this`done
      ensures At(b, x) && old(valid) <= valid && cur[x] == g.ans[x] && pick[x] == g.pick[x]
      decreases cfg.syms.Keys - valid, 9, 0
    {
      ghost var st := Now();
      ChoiceReady(p, g, b, st, x);
      var r := PickMember(x, st, g.ans[x := YES]);
      BusyStep(b, st, Now(), x);
      RightPick(p, g, x, r);
      Store(x, if r.None? then NO else YES, r, b);
    }

    /** sym->curr = newval. */
    method Store(x: Sym, v: Tri, o: Option<Sym>, ghost b: State)
      requires At(b, x) && x in cfg.syms
      modifies this`cur, this`pick
      ensures At(b, x) && cur[x] == v && pick[x] == o
    {
      ghost var now := Now();
      SetBusy(g, b, now, x, v, o);
      cur, pick := cur[x := v], pick[x := o];
      assert Now() == now.(cur := now.cur[x := v], pick := now.pick[x := o]);
    }

    /** A visible member is y exactly if its choice has picked it. */
    method FollowPick(x: Sym, s: Symb, ghost b: State) returns (newval: Tri)
      requires Setup() && At(b, x) && x in cfg.syms && s == cfg.syms[x] && Lowest(g, b, x)
      requires s.kind.Member? && SymVisible(cfg, g.ans, s) == YES && s.kind.choice in valid
      ensures newval == NewValueIn(p, g.ans, x)
    {
      ChoiceDone(p, g, b, Now(), x);
      newval := if pick[s.kind.choice] == Some(x) then YES else NO;
    }

    /** What sym_calc_value does once it has set SYMBOL_VALID. */
    method Compute(x: Sym, ghost b: State)
      requires Setup() && At(b, x) && x in cfg.syms && Lowest(g, b, x)
      modifies this`valid, this`cur, this`pick, this`done
      ensures At(b, x) && old(valid) <= valid && cur[x] == g.ans[x] && pick[x] == g.pick[x]
      decreases cfg.syms.Keys - valid, 9
    {
      var s := cfg.syms[x];
      FitsAt(p, g, x);
      var newval := NewVal(x, s, b);
      Store(x, newval, None, b);
      if s.kind.Choice? && newval == YES {
        SettleChoice(x, b);
      } else {
        NoPick(p, g, x, newval);
      }
    }
  }

  /** x has just become valid; everything that is being computed besides is above it. */
  ghost predicate Busy(b: State, st: State, x: Sym) {
    && x !in b.valid && x in st.cur
    && b.valid <= st.valid && b.done <= st.done && st.valid - st.done == (b.valid - b.done) + {x}
    && st.cur.Keys == b.cur.Keys == st.pick.Keys == b.pick.Keys && b.valid <= b.cur.Keys && Changed(b, st) == {}
  }

  predicate Lowest(g: Goal, b: State, x: Sym) {
    x in g.rank && forall o :: o in b.valid && o !in b.done && o in g.rank ==> g.rank[x] < g.rank[o]
  }

  lemma Enter(g: Goal, b: State, x: Sym)
    requires Inv(g, b) && x in g.ans && x !in b.valid
    ensures Inv(g, b.(valid := b.valid + {x})) && Busy(b, b.(valid := b.valid + {x}), x)
  {
    var st := b.(valid := b.valid + {x});
    forall y | y in b.done ensures y !in Wrong(g, st) { assert y !in Wrong(g, b); }
    forall y ensures y !in Changed(b, st) { }
  }

  lemma Leave(g: Goal, b: State, st: State, x: Sym)
    requires Inv(g, st) && Busy(b, st, x) && st.cur[x] == g.ans[x] && st.pick[x] == g.pick[x]
    ensures Inv(g, st.(done := st.done + {x})) && Since(b, st.(done := st.done + {x}))
  {
    var st' := st.(done := st.done + {x});
    assert x in st.valid - st.done;
    forall y | y in st'.done ensures y !in Wrong(g, st') { assert y !in Wrong(g, st); }
    forall y | y in b.valid ensures y !in Changed(b, st') { assert y !in Changed(b, st); }
  }

  lemma SetBusy(g: Goal, b: State, st: State, x: Sym, v: Tri, o: Option<Sym>)
    requires Inv(g, st) && Busy(b, st, x)
    ensures Inv(g, st.(cur := st.cur[x := v], pick := st.pick[x := o]))
    ensures Busy(b, st.(cur := st.cur[x := v], pick := st.pick[x := o]), x)
  {
    var st' := st.(cur := st.cur[x := v], pick := st.pick[x := o]);
    assert x in st.valid - st.done;
    assert st'.cur.Keys == st.cur.Keys && st'.pick.Keys == st.pick.Keys;
    forall y | y in st.done ensures y !in Wrong(g, st') { assert y !in Wrong(g, st); }
    forall y | y in b.valid ensures y !in Changed(b, st') { assert y !in Changed(b, st); }
  }

  lemma BusyStep(b: State, st: State, st': State, x: Sym)
    requires Busy(b, st, x) && Since(st, st')
    ensures Busy(b, st', x)
  {
    assert x in st.valid - st.done;
    forall y | y in b.valid ensures y !in Changed(b, st') { assert y !in Changed(b, st) && y !in Changed(st, st'); }
  }

  /** While x is being computed, all it refers to can be asked for and reads right. */
  lemma RefsReady(g: Goal, b: State, st: State, x: Sym, refs: set<Sym>, read: Values, m: Sym)
    requires Inv(g, st) && Busy(b, st, x) && Lowest(g, b, x) && m in refs && LowerRefs(g, x, refs)
    requires read.Keys == g.ans.Keys && (m in read && m != x ==> read[m] == g.ans[m])
    ensures Ready(g, st, read, m)
  {
    if m in g.ans {
      NotBusy(g, b, st, x, refs, m);
      forall o | o in st.valid && o !in st.done && o in g.rank ensures g.rank[m] < g.rank[o] {
        assert o in st.valid - st.done;
      }
    }
  }

  predicate LowerRefs(g: Goal, x: Sym, refs: set<Sym>) {
    x in g.rank && forall r :: r in refs && r in g.rank ==> g.rank[r] < g.rank[x]
  }

  lemma NotBusy(g: Goal, b: State, st: State, x: Sym, refs: set<Sym>, m: Sym)
    requires Busy(b, st, x) && Lowest(g, b, x) && m in refs && LowerRefs(g, x, refs) && m in g.rank
    ensures g.rank[m] < g.rank[x] && m != x && (m in st.valid ==> m in st.done)
  {
    assert m !in (b.valid - b.done) + {x};
    assert m !in st.valid - st.done;
  }

  /** What is known of x apart from its value. */
  lemma FormAt(p: Problem, g: Goal, x: Sym)
    requires Misfits(p, g) == {} && x in p.cfg.syms
    ensures var s := p.cfg.syms[x];
      && x in p.refs && LowerRefs(g, x, p.refs[x]) && AllRefs(s) <= p.refs[x] && MentionsChoice(s)
      && (s.kind.Member? ==> s.kind.choice in p.refs[x] && IsChoice(p.cfg, s.kind.choice))
  {
    FitsAt(p, g, x);
  }

  lemma PickAt(p: Problem, g: Goal, c: Sym)
    requires Misfits(p, g) == {} && c in p.cfg.syms
    ensures c in g.pick && g.pick[c] == PickOf(p.cfg, p.user, g.ans, c)
  {
    FitsAt(p, g, c);
  }

  lemma OwnReady(p: Problem, g: Goal, b: State, st: State, x: Sym)
    requires Misfits(p, g) == {} && x in p.cfg.syms && g.ans.Keys == p.cfg.syms.Keys && Inv(g, st) && Busy(b, st, x)
    requires Lowest(g, b, x)
    ensures var s := p.cfg.syms[x];
      && AllReady(g, st, g.ans, AllRefs(s)) && AllReady(g, st, g.ans, PromptRefs(s.prompts)) && Since(st, st)
      && MentionsChoice(s) && (s.kind.Member? ==> s.kind.choice in p.cfg.syms)
  {
    FormAt(p, g, x);
    forall m | m in AllRefs(p.cfg.syms[x])
      ensures Ready(g, st, g.ans, m)
    {
      RefsReady(g, b, st, x, p.refs[x], g.ans, m);
    }
    forall y ensures y !in Changed(st, st) { }
  }

  lemma ChoiceDone(p: Problem, g: Goal, b: State, st: State, x: Sym)
    requires Misfits(p, g) == {} && x in p.cfg.syms && g.ans.Keys == p.cfg.syms.Keys && Inv(g, st) && Busy(b, st, x)
    requires Lowest(g, b, x)
    requires var s := p.cfg.syms[x]; s.kind.Member? && s.kind.choice in st.valid
    ensures var c := p.cfg.syms[x].kind.choice; c in st.pick && st.pick[c] == PickOf(p.cfg, p.user, g.ans, c)
  {
    FormAt(p, g, x);
    var c := p.cfg.syms[x].kind.choice;
    PickAt(p, g, c);
    NotBusy(g, b, st, x, p.refs[x], c);
    assert c !in Wrong(g, st);
  }

  lemma PickReady(g: Goal, b: State, st: State, x: Sym, refs: set<Sym>, m: Sym)
    requires x in g.ans && Inv(g, st) && Busy(b, st, x) && Lowest(g, b, x) && LowerRefs(g, x, refs)
    requires st.cur[x] == YES && m in refs + {x}
    ensures Ready(g, st, g.ans[x := YES], m)
  {
    assert g.ans[x := YES].Keys == g.ans.Keys;
    if m == x {
      assert x in st.valid - st.done;
    } else {
      RefsReady(g, b, st, x, refs, g.ans[x := YES], m);
    }
  }

  lemma ChoiceForm(p: Problem, g: Goal, x: Sym)
    requires Misfits(p, g) == {} && IsChoice(p.cfg, x)
    ensures x in p.refs && PicksMembers(p.cfg, p.user, x) && PickRefsIn(p.cfg, p.user, x, p.refs[x] + {x})
  {
    FitsAt(p, g, x);
  }

  lemma ChoiceReady(p: Problem, g: Goal, b: State, st: State, x: Sym)
    requires Misfits(p, g) == {} && IsChoice(p.cfg, x) && g.ans.Keys == p.cfg.syms.Keys
    requires Inv(g, st) && Busy(b, st, x) && Lowest(g, b, x) && st.cur[x] == YES
    ensures PicksMembers(p.cfg, p.user, x) && AllReady(g, st, g.ans[x := YES], PickRefs(p.cfg.syms[x].kind.picks))
    ensures Since(st, st)
    ensures forall m :: m in p.cfg.syms[x].kind.members ==> MemberReady(g, st, g.ans[x := YES], p.cfg, x, m)
    ensures g.ans[x := YES].Keys == p.cfg.syms.Keys
  {
    FormAt(p, g, x);
    ChoiceForm(p, g, x);
    var k := p.cfg.syms[x].kind;
    forall m | m in PickRefs(k.picks) ensures Ready(g, st, g.ans[x := YES], m) { PickReady(g, b, st, x, p.refs[x], m); }
    forall m | m in k.members ensures MemberReady(g, st, g.ans[x := YES], p.cfg, x, m) {
      FormAt(p, g, m);
      assert PromptRefsIn(p.cfg, m, p.refs[x] + {x});
      forall r | r in PromptRefs(p.cfg.syms[m].prompts)
        ensures Ready(g, st, g.ans[x := YES], r)
      {
        PickReady(g, b, st, x, p.refs[x], r);
      }
    }
    forall y ensures y !in Changed(st, st) { }
  }

  /** A choice at y has picked right. */
  lemma RightPick(p: Problem, g: Goal, x: Sym, r: Option<Sym>)
    requires Misfits(p, g) == {} && IsChoice(p.cfg, x) && g.ans.Keys == g.pick.Keys == p.cfg.syms.Keys
    requires NewValueIn(p, g.ans, x) == YES
    requires r == CalcChoice(p.cfg, EnvOf(p.cfg, g.ans[x := YES]), p.cfg.syms[x].kind, Get(p.user.pick, x))
    ensures g.ans[x] == (if r.None? then NO else YES) && g.pick[x] == r
  {
    FitsAt(p, g, x);
    if r.Some? { assert g.ans[x := YES] == g.ans; }
  }

  /** A symbol that is not at y or is no choice picks nothing. */
  lemma NoPick(p: Problem, g: Goal, x: Sym, newval: Tri)
    requires SymFits(p, g, x) && g.ans.Keys == p.cfg.syms.Keys
    requires newval == NewValueIn(p, g.ans, x) && !(p.cfg.syms[x].kind.Choice? && newval == YES)
    ensures g.ans[x] == newval && g.pick[x] == None
  {
  }

  /** newval.tri of x if the others have the values cur. */
  ghost function NewValueIn(p: Problem, cur: Values, x: Sym): Tri
    requires x in p.cfg.syms
  {
    var s := p.cfg.syms[x];
    NewValue(s, Get(p.user.tri, x), EnvOf(p.cfg, cur), SymVisible(p.cfg, cur, s), p.cfg.modules,
             s.kind.Member? && PickOf(p.cfg, p.user, cur, s.kind.choice) == Some(x))
  }

  predicate Seen(cfg: Config, read: Values, vis: map<Sym, Tri>, ms: seq<Sym>) {
    forall m :: m in ms ==> m in vis && vis[m] == MemberVisible(cfg, EnvOf(cfg, read), m)
  }

  lemma SeenStep(cfg: Config, read: Values, vis: map<Sym, Tri>, ms: seq<Sym>, i: nat, t: Tri)
    requires i < |ms| && Seen(cfg, read, vis, ms[..i]) && t == MemberVisible(cfg, EnvOf(cfg, read), ms[i])
    ensures Seen(cfg, read, vis[ms[i] := t], ms[..i + 1])
  {
    assert ms[..i + 1] == ms[..i] + [ms[i]];
  }

  /** The prompts of a member can be read while its choice c is being computed. */
  ghost predicate MemberReady(g: Goal, b: State, read: Values, cfg: Config, c: Sym, m: Sym) {
    && m in cfg.syms && cfg.syms[m].kind == Member(c) && c in cfg.syms && MentionsChoice(cfg.syms[m])
    && AllReady(g, b, read, PromptRefs(cfg.syms[m].prompts))
  }

  lemma {:induction false} PicksInclude(ps: seq<Pick>, i: nat)
    requires i < |ps|
    ensures MentionsOpt(ps[i].visible) <= PickRefs(ps)
  {
    if i > 0 { PicksInclude(ps[1..], i - 1); }
  }

  lemma PickStep(ps: seq<Pick>, i: nat)
    requires i < |ps|
    ensures MentionsOpt(ps[i].visible) <= PickRefs(ps) && ps[i..][0] == ps[i] && ps[i..][1..] == ps[i + 1..]
  {
    PicksInclude(ps, i);
  }

  lemma {:induction false} DefaultsInclude(ds: seq<Default>, i: nat)
    requires i < |ds|
    ensures MentionsOpt(ds[i].visible) <= DefaultRefs(ds) && Mentions(ds[i].value) <= DefaultRefs(ds)
  {
    if i > 0 { DefaultsInclude(ds[1..], i - 1); }
  }

  lemma DefaultStep(ds: seq<Default>, i: nat)
    requires i < |ds|
    ensures MentionsOpt(ds[i].visible) <= DefaultRefs(ds) && Mentions(ds[i].value) <= DefaultRefs(ds)
    ensures ds[i..][0] == ds[i] && ds[i..][1..] == ds[i + 1..]
  {
    DefaultsInclude(ds, i);
  }

  lemma PromptStep(s: Symb, i: nat)
    requires i < |s.prompts|
    ensures MentionsOpt(s.prompts[i]) <= PromptRefs(s.prompts) && s.prompts[..i + 1][..i] == s.prompts[..i]
  {
    PromptsInclude(s.prompts, i);
  }

  lemma {:induction false} PromptsInclude(ps: seq<Option<Expr>>, i: nat)
    requires i < |ps|
    ensures MentionsOpt(ps[i]) <= PromptRefs(ps)
  {
    if i < |ps| - 1 { PromptsInclude(ps[..|ps| - 1], i); }
  }

  // ---------- all symbols ----------

  /** Evaluating all symbols gives the values the configuration determines. */
  method Evaluate(cfg: Config, user: User, all: seq<Sym>, ghost p: Problem) returns (cur: Values)
    requires WellFormed(p) && p.cfg == cfg && p.user == user && ToSet(all) == cfg.syms.Keys
    ensures cur == Answers(p) && Consistent(cfg, user, cur)
  {
    ghost var g := GoalOf(p);
    GoalFits(p, g);
    AnswersConsistent(p);
    cur := EvaluateTo(cfg, user, all, p, g);
  }

  method EvaluateTo(cfg: Config, user: User, all: seq<Sym>, ghost p: Problem, ghost g: Goal) returns (cur: Values)
    requires p.cfg == cfg && p.user == user && Misfits(p, g) == {} && ToSet(all) == cfg.syms.Keys
    requires g.ans.Keys == g.rank.Keys == g.pick.Keys == cfg.syms.Keys
    ensures cur == g.ans
  {
    var ev := new Evaluator(cfg, user, p, g);
    ghost var b := ev.Now();
    ev.CalcAll(all, b);
    AllIn(all, cfg.syms.Keys, ev.valid);
    AllRight(g, b, ev.Now());
    cur := ev.cur;
  }

  lemma Fresh(g: Goal, st: State)
    requires st.valid == st.done == {} && st.cur.Keys == st.pick.Keys == g.ans.Keys == g.rank.Keys == g.pick.Keys
    ensures Inv(g, st) && Since(st, st)
  {
    forall y ensures y !in Wrong(g, st) && y !in Changed(st, st) { }
  }

  /** What is left to compute gets less. */
  lemma Shrinks(all: set<Sym>, v: set<Sym>, v': set<Sym>)
    requires v <= v'
    ensures all - v' == all - v || all - v' < all - v
  {
  }

  /** Nothing is computed or being computed. */
  predicate Idle(g: Goal, b: State) { b.cur.Keys == g.rank.Keys == g.ans.Keys && b.valid == b.done == {} }

  /** The first i symbols, as far as they are in keys, are in valid. */
  predicate FirstIn(all: seq<Sym>, i: nat, keys: set<Sym>, valid: set<Sym>)
    requires i <= |all|
  {
    forall j :: 0 <= j < i && all[j] in keys ==> all[j] in valid
  }

  lemma AllIn(all: seq<Sym>, keys: set<Sym>, valid: set<Sym>)
    requires ToSet(all) == keys && FirstIn(all, |all|, keys, valid)
    ensures keys <= valid
  {
    forall x | x in keys ensures x in valid { assert x in all; }
  }

  lemma NothingBusy(g: Goal, b: State, x: Sym)
    requires Idle(g, b)
    ensures Ready(g, b, g.ans, x)
  {
  }

  lemma AllRight(g: Goal, b: State, st: State)
    requires Inv(g, st) && Since(b, st) && Idle(g, b) && g.ans.Keys <= st.valid
    ensures st.cur == g.ans
  {
    forall y | y in g.ans ensures st.cur[y] == g.ans[y] {
      assert y !in st.valid - st.done;
      assert y !in Wrong(g, st);
    }
  }

  lemma OtherSetting(p: Problem, user: User)
    requires WellFormed(p) && user.pick == p.user.pick
    ensures WellFormed(p.(user := user))
  {
    var p' := p.(user := user);
    forall x | x in p.cfg.syms ensures Covers(p.cfg, user, x, p.refs[x]) { assert Covers(p.cfg, p.user, x, p.refs[x]); }
    forall x | x in p.cfg.syms && p.cfg.syms[x].kind.Choice?
      ensures PicksMembers(p.cfg, user, x)
    {
      assert PicksMembers(p.cfg, p.user, x);
    }
  }

  /** sym_set_tristate_value on a symbol in no choice: a value that is refused changes nothing; the
      current value becomes the user's without any evaluation; any other accepted value makes all
      values be computed again, and is the new value. */
  method SetValue(cfg: Config, user: User, all: seq<Sym>, cur: Values, x: Sym, val: Tri, ghost p: Problem)
    returns (ok: bool, user': User, cur': Values)
    requires WellFormed(p) && p.cfg == cfg && p.user == user && ToSet(all) == cfg.syms.Keys
    requires Consistent(cfg, user, cur)
    requires x in cfg.syms && cfg.syms[x].kind == Plain
    ensures ok == SetAccepts(cfg, cur, x, val)
    ensures user' == if ok then user.(tri := user.tri[x := val]) else user
    ensures !ok || val == cur[x] ==> cur' == cur
    ensures ok && val != cur[x] ==> Consistent(cfg, user', cur')
    ensures ok ==> cur'[x] == val
  {
    user', cur' := user, cur;
    ok := cur[x] == val || WithinRange(cfg, cur, cfg.syms[x], val);
    if ok {
      user' := user.(tri := user.tri[x := val]);
      if cur[x] != val {
        OtherSetting(p, user');
        cur' := Evaluate(cfg, user', all, p.(user := user'));
        SetThenRecompute(cfg, user, cur, cur', p.rank, p.refs, x, val);
      }
    }
  }
}

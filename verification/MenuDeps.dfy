/** How menu_finalize (kconf/menu.c) combines and simplifies dependency expressions. */
module MenuDeps {
  import opened KconfigExpr
  import opened ExprTransform
  import opened ExprEliminate
  import opened ExprDups

  /** expr_alloc_and of two pointers that may be NULL. */
  function AllocAnd(a: Option<Expr>, b: Option<Expr>): Option<Expr> {
    if a.None? then b else if b.None? then a else Some(Bin(And, a.value, b.value))
  }

  /** rewrite_m, given the symbol MODULES. */
  function RewriteM(e: Expr, modules: Sym): Expr {
    match e
    case Not(a) => Not(RewriteM(a, modules))
    case Bin(op, l, r) => Bin(op, RewriteM(l, modules), RewriteM(r, modules))
    case Symbol(s) => if s == SYM_MOD then Bin(And, e, Symbol(modules)) else e
    case Compare(_, _, _) => e
  }

  // The simplifications, for pointers that may be NULL.

  function Rewritten(e: Option<Expr>, modules: Sym): Option<Expr> {
    if e.None? then None else Some(Transform(RewriteM(e.value, modules)))
  }

  function WithoutDups(e: Option<Expr>): Option<Expr> {
    if e.None? then None else Some(EliminateDups(e.value))
  }

  function BoolForm(e: Option<Expr>): Option<Expr> {
    if e.None? then None else Some(TransBool(e.value))
  }

  /** The dependency a node or a property gets: its parent's, and its own after rewriting
      and simplification. */
  function Propagate(parent: Option<Expr>, own: Option<Expr>, modules: Sym): Option<Expr> {
    WithoutDups(AllocAnd(parent, Rewritten(own, modules)))
  }

  ghost predicate OptWellTyped(env: Env, e: Option<Expr>) {
    GoodEnv(env) && (e.Some? ==> Typed(env, e.value))
  }

  predicate OptNormal(e: Option<Expr>) { e.Some? ==> Normal(e.value) }

  /** An m means m with modules, and n without. */
  function MLimit(env: Env, modules: Sym): Tri { if env.tri(modules) == NO then NO else MOD }

  /** rewrite_m changes nothing where MODULES is not n, and reads every m as n where it is. */
  lemma {:induction false} RewriteMValue(env: Env, e: Expr, modules: Sym)
    requires GoodEnv(env)
    ensures Typed(env, e) ==> Typed(env, RewriteM(e, modules))
    ensures Val(env, RewriteM(e, modules)) == ValM(env, e, MLimit(env, modules))
  {
    match e
    case Not(a) => RewriteMValue(env, a, modules);
    case Bin(_, l, r) => RewriteMValue(env, l, modules); RewriteMValue(env, r, modules);
    case Symbol(s) => assert env.tri(SYM_MOD) == MOD;
    case Compare(_, _, _) =>
  }

  /** The value of an expression whose literal m stands for `m`. */
  function ValM(env: Env, e: Expr, m: Tri): Tri {
    match e
    case Symbol(s) => if s == SYM_MOD then m else env.tri(s)
    case Not(a) => TriNot(ValM(env, a, m))
    case Bin(op, l, r) => TriOp(op, ValM(env, l, m), ValM(env, r, m))
    case Compare(c, a, b) => CompareVal(env, c, a, b)
  }

  /** A propagated dependency is the parent's and the node's own together, and is in the
      shape expr_transform makes. */
  lemma PropagateValue(env: Env, parent: Option<Expr>, own: Option<Expr>, modules: Sym)
    requires OptWellTyped(env, parent) && OptWellTyped(env, own)
    ensures var d := Propagate(parent, own, modules);
      && OptWellTyped(env, d)
      && ValOpt(env, d) == TriOp(And, ValOpt(env, parent),
           if own.None? then YES else ValM(env, own.value, MLimit(env, modules)))
  {
    if own.Some? {
      RewriteMValue(env, own.value, modules);
      TransformKeepsValue(env, RewriteM(own.value, modules));
    }
    var both := AllocAnd(parent, Rewritten(own, modules));
    if both.Some? { EliminateDupsKeepsValue(env, both.value); }
  }

  lemma PropagateNormal(parent: Option<Expr>, own: Option<Expr>, modules: Sym)
    requires OptNormal(parent)
    ensures OptNormal(Propagate(parent, own, modules))
  {
    if own.Some? { TransformIsNormal(RewriteM(own.value, modules)); }
    var both := AllocAnd(parent, Rewritten(own, modules));
    if both.Some? { EliminateDupsKeepsNormal(both.value); }
  }

  predicate OptNoTest(e: Option<Expr>) { e.Some? ==> NoTestAgainstNo(e.value) }

  /** expr_trans_bool on a propagated condition keeps its shape, and whether it is n, and leaves no
      test of a tristate for being other than n. */
  lemma BoolFormKeeps(e: Option<Expr>)
    requires OptNormal(e)
    ensures OptNormal(BoolForm(e)) && OptNoTest(BoolForm(e))
    ensures forall env :: OptWellTyped(env, e) ==>
      OptWellTyped(env, BoolForm(e)) && (ValOpt(env, BoolForm(e)) == NO <==> ValOpt(env, e) == NO)
  {
    if e.Some? {
      TransBoolNormal(e.value);
      TransBoolDrops(e.value);
      NormalNotsOnSymbols(e.value);
      forall env | OptWellTyped(env, e)
        ensures OptWellTyped(env, BoolForm(e)) && (ValOpt(env, BoolForm(e)) == NO <==> ValOpt(env, e) == NO)
      {
        TransBoolTyped(env, e.value);
        TransBoolKeepsNo(env, e.value);
      }
    }
  }

  // ---------- automatic submenus ----------

  /** What menu_finalize compares: the condition under which an item is not n, simplified. */
  function NotNo(e: Option<Expr>): Expr {
    EliminateDups(Transform(TransCompareOpt(e, Ne, false)))
  }

  /** The test that lets an item follow a symbol into its submenu although it does not depend
      on the symbol absolutely. */
  predicate SupersetTest(dep: Option<Expr>, base: Option<Expr>) {
    EliminateEq(NotNo(dep), NotNo(base)).snd == Symbol(SYM_YES)
  }

  predicate OptPlain(e: Option<Expr>) { e.Some? ==> PlainSymbolsTri(e.value) }

  /** Exactly what is compared: whether the condition is not n, if a negated m is read as n. */
  lemma NotNoValue(env: Env, e: Option<Expr>)
    requires OptWellTyped(env, e) && OptPlain(e)
    ensures Val(env, NotNo(e)) == TriBool(e.None? || Reading(env, e.value, false) != NO)
  {
    var c := TransCompareOpt(e, Ne, false);
    match e {
      case Some(x) => TransCompareValue(env, x, Ne, false);
      case None => assert env.tri(SYM_NO) == NO;
    }
    TransformKeepsValue(env, c);
    EliminateDupsKeepsValue(env, Transform(c));
  }

  /** Only bools are negated. */
  predicate NegatesBools(e: Expr) {
    match e
    case Not(a) => a.Symbol? && TypeOf(a.sym) == Boolean
    case Bin(_, l, r) => NegatesBools(l) && NegatesBools(r)
    case _ => true
  }

  lemma {:induction false} BoolsDecided(env: Env, e: Expr)
    requires GoodEnv(env) && NegatesBools(e)
    ensures NegationsDecided(env, e)
  {
    match e
    case Bin(_, l, r) => BoolsDecided(env, l); BoolsDecided(env, r);
    case _ =>
  }

  /** In every good valuation: when the test accepts an item and the item is available, also as
      the test reads it, the prompt of the symbol is visible. */
  lemma SupersetReading(env: Env, dep: Expr, base: Option<Expr>)
    requires OptWellTyped(env, Some(dep)) && OptWellTyped(env, base) && OptPlain(Some(dep)) && OptPlain(base)
    requires OptNormal(base) && SupersetTest(Some(dep), base) && Reading(env, dep, false) != NO
    ensures ValOpt(env, base) != NO
  {
    NotNoValue(env, Some(dep));
    NotNoValue(env, base);
    SupersetBelow(env, NotNo(Some(dep)), NotNo(base));
    if base.Some? {
      NormalNotsOnSymbols(base.value);
      ReadingBelow(env, base.value);
    }
  }

  /** When the test accepts an item in which only bools are negated, the item is never available
      without the symbol's prompt being visible. */
  lemma SupersetTestSound(env: Env, dep: Expr, base: Option<Expr>)
    requires OptWellTyped(env, Some(dep)) && OptWellTyped(env, base) && OptPlain(Some(dep)) && OptPlain(base)
    requires OptNormal(base) && SupersetTest(Some(dep), base) && NegatesBools(dep) && Val(env, dep) != NO
    ensures ValOpt(env, base) != NO
  {
    BoolsDecided(env, dep);
    ReadingExact(env, dep, false);
    SupersetReading(env, dep, base);
  }

  /** With a negated tristate it can be: `S!=m && !Q` is accepted after a symbol S with a prompt
      `if Q=n`, because Q=n and !Q are compared as the same, and is m where Q is m. */
  lemma NegatedTristateBreaksTest(env: Env, s: Sym, q: Sym)
    requires GoodEnv(env) && s != q && TypeOf(s) == Tristate && TypeOf(q) == Tristate
    requires env.tri(q) == MOD && env.tri(s) == YES
    ensures var base, dep := Compare(Eq, q, SYM_NO), Bin(And, Compare(Ne, s, SYM_MOD), Not(Symbol(q)));
      && Normal(dep) && Normal(base) && Typed(env, dep) && Typed(env, base)
      && Contains(dep, s) && !Depends(dep, s) && SupersetTest(Some(dep), Some(base))
      && Val(env, dep) == MOD && Val(env, base) == NO
  {
    var base, dep := Compare(Eq, q, SYM_NO), Bin(And, Compare(Ne, s, SYM_MOD), Not(Symbol(q)));
    EqualsConst(env, q, "n");
    EqualsConst(env, s, "m");
    assert Val(env, Symbol(q)) == MOD && Val(env, Not(Symbol(q))) == MOD;
    NegatedTristateTest(s, q);
  }

  lemma NegatedTristateTest(s: Sym, q: Sym)
    requires s != q && TypeOf(s) == Tristate && TypeOf(q) == Tristate
    ensures SupersetTest(Some(Bin(And, Compare(Ne, s, SYM_MOD), Not(Symbol(q)))), Some(Compare(Eq, q, SYM_NO)))
  {
    var x, y := Compare(Ne, s, SYM_MOD), Compare(Eq, q, SYM_NO);
    var dep := Some(Bin(And, x, Not(Symbol(q))));
    assert TransCompare(x, Eq, false) == Not(x);
    assert TransCompare(Not(Symbol(q)), Eq, false) == TransCompare(Symbol(q), Ne, false) == Compare(Ne, q, SYM_NO);
    assert TransCompareOpt(dep, Ne, false) == Not(Bin(Or, Not(x), Compare(Ne, q, SYM_NO)));
    TransformNotCompare(Ne, s, SYM_MOD);
    TransformNotCompare(Eq, s, SYM_MOD);
    TransformNotCompare(Ne, q, SYM_NO);
    assert Transform(Bin(Or, Not(x), Compare(Ne, q, SYM_NO)))
      == Bin(Or, Compare(Eq, s, SYM_MOD), Compare(Ne, q, SYM_NO));
    assert Transform(Bin(And, Not(Compare(Eq, s, SYM_MOD)), Not(Compare(Ne, q, SYM_NO)))) == Bin(And, x, y);
    assert Transform(Not(Bin(Or, Not(x), Compare(Ne, q, SYM_NO)))) == Bin(And, x, y);
    SilentPair(And, x, y);
    assert NotNo(dep) == Bin(And, x, y);
    assert NotNo(Some(y)) == y;
    assert StripEq(And, x, y) == Pair(x, y) && StripEq(And, y, y) == Pair(Symbol(SYM_YES), Symbol(SYM_YES));
    assert StripEq(And, Bin(And, x, y), y) == Pair(Bin(And, x, Symbol(SYM_YES)), Symbol(SYM_YES));
  }

  // ---------- what the test accepts ----------

  /** A symbol without a prompt has no condition to compare with: anything passes. */
  lemma NoPromptPasses(dep: Option<Expr>)
    ensures SupersetTest(dep, None)
  {
    assert NotNo(None) == Symbol(SYM_YES);
    YesReduced(NotNo(dep));
  }

  /** base is dep, or an operand, or an && of neighbouring operands, of the && dep. */
  predicate Includes(dep: Expr, base: Expr) {
    dep == base || (IsOp(And, dep) && (Includes(dep.left, base) || Includes(dep.right, base)))
  }

  lemma {:induction false} IncludesContent(dep: Expr, base: Expr)
    requires Includes(dep, base)
    ensures Content(And, AgainstNo(base)) <= Content(And, AgainstNo(dep))
  {
    if dep != base {
      AgainstNoAnd(dep.left, dep.right);
      if Includes(dep.left, base) { IncludesContent(dep.left, base); } else { IncludesContent(dep.right, base); }
    }
  }

  /** The comparison of a transformed condition with n has no operand n. */
  lemma {:induction false} AgainstNoNoZero(e: Expr)
    requires Normal(e)
    ensures !HasZero(And, AgainstNo(e))
  {
    match e
    case Bin(op, l, r) =>
      if op == And {
        AgainstNoAnd(l, r);
        AgainstNoNoZero(l);
        AgainstNoNoZero(r);
      } else {
        AgainstNoOr(l, r);
      }
    case Not(a) => assert TransCompare(e, Ne, false) == Compare(Eq, a.sym, SYM_NO);
    case Compare(_, _, _) => TransformFixesNormal(e);
    case Symbol(x) => assert TransCompare(e, Ne, false) == Compare(Ne, x, SYM_NO);
  }

  /** Nothing in the compared form of a condition can be simplified further. */
  predicate Irreducible(e: Expr) { OnePass(AgainstNo(e)).count == 0 }

  /** The test accepts an item whose dependency is an && that includes the symbol's condition, if
      neither can be simplified further. */
  lemma SupersetComplete(dep: Expr, base: Expr)
    requires IsOp(And, dep) && Includes(dep, base) && Normal(base) && Irreducible(dep) && Irreducible(base)
    ensures SupersetTest(Some(dep), Some(base))
  {
    var d, b := AgainstNo(dep), AgainstNo(base);
    AgainstNoAnd(dep.left, dep.right);
    OnePassProgress(d);
    OnePassProgress(b);
    IncludesContent(dep, base);
    AgainstNoNoZero(base);
    SilentPassDupFree(d);
    DupFreeTold(d, Content(And, b));
    SupersetReduced(d, b);
  }

  /** An || of two symbols or comparisons that cannot be joined stays beside a third. */
  lemma TwoOperandsStay(l: Expr, q: Expr, r: Expr)
    requires Literal(l) && Literal(q) && Literal(r) && Join(Or, l, q).None? && Join(Or, q, l).None?
    requires r != l && r != q
    ensures OnePass(Bin(And, Bin(Or, l, q), r)).count == 0
  {
    var o := Bin(Or, l, q);
    var t := Bin(And, o, r);
    SilentPair(Or, l, q);
    assert Join(And, o, r).None? && Join(And, r, o).None?;
    SilentPair(And, o, r);
  }

  /** The documented example: `(S || Q) && R` follows a symbol S with a prompt `if R`, for any three
      different bools or tristates. */
  lemma SupersetExample(s: Sym, q: Sym, r: Sym)
    requires IsTriSym(s) && IsTriSym(q) && IsTriSym(r) && s != q && s != r && q != r
    ensures SupersetTest(Some(Bin(And, Bin(Or, Symbol(s), Symbol(q)), Symbol(r))), Some(Symbol(r)))
  {
    var dep := Bin(And, Bin(Or, Symbol(s), Symbol(q)), Symbol(r));
    AgainstNoAnd(Bin(Or, Symbol(s), Symbol(q)), Symbol(r));
    AgainstNoOr(Symbol(s), Symbol(q));
    TwoOperandsStay(AgainstNo(Symbol(s)), AgainstNo(Symbol(q)), AgainstNo(Symbol(r)));
    assert Includes(dep.right, Symbol(r));
    SupersetComplete(dep, Symbol(r));
  }

  /** Where a condition can be simplified it need not: `R!=y && R!=n` includes `R!=y`, but is compared
      as R=m, in which R!=y no longer occurs. */
  lemma ReducibleMissed(r: Sym)
    requires TypeOf(r) == Tristate
    ensures var base, dep := Compare(Ne, r, SYM_YES), Bin(And, Compare(Ne, r, SYM_YES), Compare(Ne, r, SYM_NO));
      && Includes(dep, base) && Normal(dep) && Irreducible(base) && !Irreducible(dep)
      && !SupersetTest(Some(dep), Some(base))
  {
    var base, other := Compare(Ne, r, SYM_YES), Compare(Ne, r, SYM_NO);
    var dep := Bin(And, base, other);
    assert Includes(dep.left, base);
    AgainstNoAnd(base, other);
    assert AgainstNo(base) == base && AgainstNo(other) == other;
    JoinedPair(And, base, other, Compare(Eq, r, SYM_MOD));
    var d := Compare(Eq, r, SYM_MOD);
    assert NotNo(Some(dep)) == d && NotNo(Some(base)) == base;
    assert Normal(dep) && Irreducible(base);
    assert StripBoth(d, base) == Pair(d, base);
    assert EliminateEq(d, base).snd == base;
  }

  /** One of the operands of the && dep is the symbol, or a test for y, for m, or against n. */
  predicate HasAbsoluteTest(dep: Expr, sym: Sym) {
    || Symbol(sym) in Content(And, dep) || Compare(Eq, sym, SYM_YES) in Content(And, dep)
    || Compare(Eq, sym, SYM_MOD) in Content(And, dep) || Compare(Ne, sym, SYM_NO) in Content(And, dep)
  }

  /** Items that belong below a symbol: those with an absolute test, and those that mention it and
      either need not be compared, as the symbol has no prompt, or are an && that includes the
      condition of its prompt. */
  predicate Belongs(sym: Sym, base: Option<Expr>, dep: Expr) {
    || HasAbsoluteTest(dep, sym)
    || (Contains(dep, sym) && base.None?)
    || (Contains(dep, sym) && IsOp(And, dep) && Includes(dep, base.value) && Normal(base.value)
        && Irreducible(dep) && Irreducible(base.value))
  }

  lemma BelongsPasses(sym: Sym, base: Option<Expr>, dep: Expr)
    requires Belongs(sym, base, dep) && !IsYmn(sym)
    ensures Contains(dep, sym) && (Depends(dep, sym) || SupersetTest(Some(dep), base))
  {
    DependsExactly(dep, sym);
    if !HasAbsoluteTest(dep, sym) {
      if base.None? { NoPromptPasses(Some(dep)); } else { SupersetComplete(dep, base.value); }
    }
  }
}

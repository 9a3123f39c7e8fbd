/** expr_transform, expr_trans_bool and expr_trans_compare (kconf/expr.c). */
module ExprTransform {
  import opened KconfigExpr

  /** The termination measure of expr_transform: pushing a negation through && or ||
      adds nodes, but a negation costs as much as everything below it. */
  function Weight(e: Expr): (w: nat)
    ensures w >= 1
  {
    match e
    case Symbol(_) => 1
    case Compare(_, _, _) => 2
    case Not(a) => 2 * Weight(a)
    case Bin(_, l, r) => 1 + Weight(l) + Weight(r)
  }

  function Negated(c: Cmp): Cmp {
    match c
    case Eq => Ne case Ne => Eq case Lt => Ge case Ge => Lt case Le => Gt case Gt => Le
  }

  lemma DeMorganIsLighter(op: Op, x: Expr, y: Expr)
    ensures Weight(Bin(Dual(op), Not(x), Not(y))) < Weight(Not(Bin(op, x, y)))
  {
    assert Weight(Not(x)) == 2 * Weight(x) && Weight(Not(y)) == 2 * Weight(y);
    assert Weight(Bin(op, x, y)) == 1 + Weight(x) + Weight(y);
  }

  /** expr_transform. The recursive calls on rebuilt expressions are the source's own. */
  function Transform(e: Expr): (r: Expr)
    ensures Weight(r) <= Weight(e)
    decreases Weight(e)
  {
    match e
    case Symbol(_) => e
    case Bin(op, l, r) => Bin(op, Transform(l), Transform(r))
    case Compare(c, a, b) =>
      if TypeOf(a) == Boolean && c == Eq then
        if b == SYM_NO then Not(Symbol(a))
        else if b == SYM_MOD then Symbol(SYM_NO)
        else if b == SYM_YES then Symbol(a)
        else e
      else if TypeOf(a) == Boolean && c == Ne then
        if b == SYM_NO then Symbol(a)
        else if b == SYM_MOD then Symbol(SYM_YES)
        else if b == SYM_YES then Not(Symbol(a))
        else e
      else e
    case Not(a) =>
      var t := Transform(a);
      match t
      case Not(x) => Transform(x)
      case Compare(c, s1, s2) => Compare(Negated(c), s1, s2)
      case Bin(op, x, y) => DeMorganIsLighter(op, x, y); Transform(Bin(Dual(op), Not(x), Not(y)))
      case Symbol(s) =>
        if s == SYM_YES then Symbol(SYM_NO)
        else if s == SYM_MOD then Symbol(SYM_MOD)
        else if s == SYM_NO then Symbol(SYM_YES)
        else Not(t)
  }

  /** The shape expr_transform establishes: negations only directly above symbols other than
      y, m and n, and no bool tested for equality with y, m or n. */
  predicate Normal(e: Expr) {
    match e
    case Symbol(_) => true
    case Not(a) => a.Symbol? && !IsYmn(a.sym)
    case Bin(_, l, r) => Normal(l) && Normal(r)
    case Compare(c, a, b) => Ordering(c) || TypeOf(a) != Boolean || !IsYmn(b)
  }

  lemma {:induction false} TransformIsNormal(e: Expr)
    ensures Normal(Transform(e))
    decreases Weight(e)
  {
    match e
    case Symbol(_) =>
    case Bin(_, l, r) => TransformIsNormal(l); TransformIsNormal(r);
    case Compare(_, _, _) =>
    case Not(a) =>
      TransformIsNormal(a);
      match Transform(a)
      case Not(x) => TransformIsNormal(x);
      case Bin(op, x, y) =>
        DeMorganIsLighter(op, x, y);
        TransformIsNormal(Bin(Dual(op), Not(x), Not(y)));
      case _ =>
  }

  /** Normal expressions are left alone, so a second run changes nothing. */
  lemma {:induction false} TransformFixesNormal(e: Expr)
    requires Normal(e)
    ensures Transform(e) == e
  {
    match e
    case Bin(_, l, r) => TransformFixesNormal(l); TransformFixesNormal(r);
    case Not(a) => assert Transform(a) == a;
    case _ =>
  }

  lemma TransformNotCompare(c: Cmp, a: Sym, b: Sym)
    requires Normal(Compare(c, a, b))
    ensures Transform(Not(Compare(c, a, b))) == Compare(Negated(c), a, b)
  {
    TransformFixesNormal(Compare(c, a, b));
  }

  /** Transforming the negation of a transformed expression, twice, gives it back. */
  lemma {:induction false} NotTwice(e: Expr)
    requires Normal(e)
    ensures Transform(Not(Transform(Not(e)))) == e
    decreases Size(e)
  {
    TransformFixesNormal(e);
    match e
    case Symbol(s) =>
      if !IsYmn(s) { assert Transform(Not(e)) == Not(e); }
    case Not(a) => assert Transform(Not(e)) == a;
    case Compare(c, a, b) =>
      TransformNotCompare(c, a, b);
      TransformNotCompare(Negated(c), a, b);
    case Bin(op, l, r) =>
      NotTwice(l);
      NotTwice(r);
      TransformNotBin(op, l, r);
      TransformIsNormal(Not(l));
      TransformIsNormal(Not(r));
      TransformNotBin(Dual(op), Transform(Not(l)), Transform(Not(r)));
  }

  /** De Morgan, on transformed operands. */
  lemma TransformNotBin(op: Op, l: Expr, r: Expr)
    requires Normal(l) && Normal(r)
    ensures Transform(Not(Bin(op, l, r))) == Bin(Dual(op), Transform(Not(l)), Transform(Not(r)))
  {
    TransformFixesNormal(Bin(op, l, r));
    DeMorganIsLighter(op, l, r);
  }

  lemma TransformIdempotent(e: Expr)
    ensures Transform(Transform(e)) == Transform(e)
  {
    TransformIsNormal(e);
    TransformFixesNormal(Transform(e));
  }

  lemma BoolCompare(env: Env, c: Cmp, a: Sym, b: Sym)
    requires GoodEnv(env) && TypeOf(a) == Boolean && IsYmn(b) && !Ordering(c)
    ensures Val(env, Transform(Compare(c, a, b))) == CompareVal(env, c, a, b)
  {
    EqualsConst(env, a, b.name);
    assert env.tri(a) != MOD;
    assert env.tri(SYM_NO) == NO && env.tri(SYM_YES) == YES;
  }

  /** expr_transform keeps the value under every well-typed valuation (and the result is
      again well-typed). */
  lemma {:induction false} TransformKeepsValue(env: Env, e: Expr)
    requires WellTyped(env, e)
    ensures Typed(env, Transform(e))
    ensures Val(env, Transform(e)) == Val(env, e)
    decreases Weight(e)
  {
    match e
    case Symbol(_) =>
    case Bin(_, l, r) => TransformKeepsValue(env, l); TransformKeepsValue(env, r);
    case Compare(c, a, b) =>
      if TypeOf(a) == Boolean && IsYmn(b) && !Ordering(c) { BoolCompare(env, c, a, b); }
    case Not(a) =>
      TransformKeepsValue(env, a);
      match Transform(a)
      case Not(x) => TransformKeepsValue(env, x);
      case Bin(op, x, y) =>
        DeMorganIsLighter(op, x, y);
        TransformKeepsValue(env, Bin(Dual(op), Not(x), Not(y)));
      case Compare(_, _, _) =>
      case Symbol(s) =>
        assert env.tri(SYM_NO) == NO && env.tri(SYM_YES) == YES && env.tri(SYM_MOD) == MOD;
  }

  /** Negating an ordering is the opposite ordering if and only if the operands can be compared;
      where they cannot, both orderings are n. */
  lemma NegatedOrderingIff(env: Env, c: Cmp, a: Sym, b: Sym)
    requires Ordering(c)
    ensures var e := Not(Compare(c, a, b));
      Val(env, Transform(e)) == Val(env, e) <==> Relate(env, a, b).0.Some?
  {
    assert Transform(Compare(c, a, b)) == Compare(c, a, b);
  }

  // ---------- expr_trans_bool ----------

  /** expr_trans_bool. */
  function TransBool(e: Expr): Expr {
    match e
    case Bin(op, l, r) => Bin(op, TransBool(l), TransBool(r))
    case Not(a) => Not(TransBool(a))
    case Compare(c, a, b) => if c == Ne && TypeOf(a) == Tristate && b == SYM_NO then Symbol(a) else e
    case Symbol(_) => e
  }

  /** No negation above a comparison. */
  predicate NotsOnSymbols(e: Expr) {
    match e
    case Not(a) => a.Symbol?
    case Bin(_, l, r) => NotsOnSymbols(l) && NotsOnSymbols(r)
    case _ => true
  }

  lemma {:induction false} NormalNotsOnSymbols(e: Expr)
    requires Normal(e)
    ensures NotsOnSymbols(e)
  {
    match e
    case Bin(_, l, r) => NormalNotsOnSymbols(l); NormalNotsOnSymbols(r);
    case _ =>
  }

  /** Dropping the "!= n" from a tristate test keeps whether the expression is n. */
  lemma {:induction false} TransBoolKeepsNo(env: Env, e: Expr)
    requires WellTyped(env, e) && NotsOnSymbols(e)
    ensures Val(env, TransBool(e)) == NO <==> Val(env, e) == NO
  {
    match e
    case Bin(_, l, r) => TransBoolKeepsNo(env, l); TransBoolKeepsNo(env, r);
    case Compare(c, a, b) =>
      if c == Ne && TypeOf(a) == Tristate && b == SYM_NO { EqualsConst(env, a, "n"); }
    case _ =>
  }

  /** Under a negation it does so if and only if the tristate is not m. No such negation is left
      by expr_transform, which the caller of expr_trans_bool runs first. */
  lemma TransBoolUnderNotIff(env: Env, a: Sym)
    requires GoodEnv(env) && TypeOf(a) == Tristate
    ensures var e := Not(Compare(Ne, a, SYM_NO));
      (Val(env, TransBool(e)) == NO <==> Val(env, e) == NO) <==> env.tri(a) != MOD
  {
    EqualsConst(env, a, "n");
  }

  lemma {:induction false} TransBoolTyped(env: Env, e: Expr)
    requires Typed(env, e)
    ensures Typed(env, TransBool(e))
  {
    match e
    case Bin(_, l, r) => TransBoolTyped(env, l); TransBoolTyped(env, r);
    case Not(a) => TransBoolTyped(env, a);
    case _ =>
  }

  /** No tristate is tested for being other than n. */
  predicate NoTestAgainstNo(e: Expr) {
    match e
    case Bin(_, l, r) => NoTestAgainstNo(l) && NoTestAgainstNo(r)
    case Not(a) => NoTestAgainstNo(a)
    case Compare(c, a, b) => !(c == Ne && TypeOf(a) == Tristate && b == SYM_NO)
    case Symbol(_) => true
  }

  /** expr_trans_bool leaves no such test, and leaves alone what has none. */
  lemma {:induction false} TransBoolDrops(e: Expr)
    ensures NoTestAgainstNo(TransBool(e))
    ensures NoTestAgainstNo(e) ==> TransBool(e) == e
  {
    match e
    case Bin(_, l, r) => TransBoolDrops(l); TransBoolDrops(r);
    case Not(a) => TransBoolDrops(a);
    case _ =>
  }

  lemma {:induction false} TransBoolNormal(e: Expr)
    requires Normal(e)
    ensures Normal(TransBool(e))
  {
    match e
    case Bin(_, l, r) => TransBoolNormal(l); TransBoolNormal(r);
    case _ =>
  }

  // ---------- expr_trans_compare ----------

  /** expr_trans_compare for the symbols y and n, with which a && or || node is compared
      through its operands. */
  function TransCompare(e: Expr, c: Cmp, yes: bool): Expr
    requires c == Eq || c == Ne
  {
    var s := if yes then SYM_YES else SYM_NO;
    match e
    case Bin(op, l, r) =>
      var t := Bin(if yes then op else Dual(op), TransCompare(l, Eq, yes), TransCompare(r, Eq, yes));
      if c == Ne then Not(t) else t
    case Not(a) => TransCompare(a, Negated(c), yes)
    case Compare(_, _, _) => if (c == Eq) == yes then e else Not(e)
    case Symbol(x) => Compare(c, x, s)
  }

  function TransCompareOpt(e: Option<Expr>, c: Cmp, yes: bool): Expr
    requires c == Eq || c == Ne
  {
    match e
    case Some(x) => TransCompare(x, c, yes)
    case None =>
      var s := Symbol(if yes then SYM_YES else SYM_NO);
      if c == Ne then Not(s) else s
  }

  /** How a comparison with y or n reads an expression: a negated m is y when compared with y,
      and n when compared with n. */
  function Reading(env: Env, e: Expr, yes: bool): Tri {
    match e
    case Not(a) => TriBool(if yes then Reading(env, a, yes) != YES else Reading(env, a, yes) == NO)
    case Bin(op, l, r) => TriOp(op, Reading(env, l, yes), Reading(env, r, yes))
    case _ => Val(env, e)
  }

  /** No operand of a negation is m. */
  predicate NegationsDecided(env: Env, e: Expr) {
    match e
    case Not(a) => Val(env, a) != MOD && NegationsDecided(env, a)
    case Bin(_, l, r) => NegationsDecided(env, l) && NegationsDecided(env, r)
    case _ => true
  }

  lemma {:induction false} ReadingExact(env: Env, e: Expr, yes: bool)
    requires NegationsDecided(env, e)
    ensures Reading(env, e, yes) == Val(env, e)
  {
    match e
    case Not(a) => ReadingExact(env, a, yes);
    case Bin(_, l, r) => ReadingExact(env, l, yes); ReadingExact(env, r, yes);
    case _ =>
  }

  /** Where negations are only on symbols, the reading for n is never above the value. */
  lemma {:induction false} ReadingBelow(env: Env, e: Expr)
    requires NotsOnSymbols(e)
    ensures Reading(env, e, false) <= Val(env, e)
  {
    match e
    case Bin(_, l, r) => ReadingBelow(env, l); ReadingBelow(env, r);
    case _ =>
  }

  /** Every plain symbol occurring as an operand has the text of its value. */
  predicate PlainSymbolsTri(e: Expr) {
    match e
    case Symbol(s) => IsTriSym(s) || IsYmn(s)
    case Not(a) => PlainSymbolsTri(a)
    case Bin(_, l, r) => PlainSymbolsTri(l) && PlainSymbolsTri(r)
    case Compare(_, _, _) => true
  }

  function Wanted(v: Tri, c: Cmp, yes: bool): Tri
    requires c == Eq || c == Ne
  {
    TriBool((v == if yes then YES else NO) == (c == Eq))
  }

  lemma SymbolCompare(env: Env, x: Sym, c: Cmp, yes: bool)
    requires GoodEnv(env) && (IsTriSym(x) || IsYmn(x)) && (c == Eq || c == Ne)
    ensures CompareVal(env, c, x, if yes then SYM_YES else SYM_NO) == Wanted(env.tri(x), c, yes)
  {
    var name := if yes then "y" else "n";
    if IsTriSym(x) {
      EqualsConst(env, x, name);
    } else {
      assert env.text(x) == x.name && env.text(Const(name)) == name;
      assert env.tri(x) == if x.name == "y" then YES else if x.name == "m" then MOD else NO;
    }
  }

  /** && and || are compared through their operands. */
  lemma WantedOp(op: Op, v: Tri, w: Tri, c: Cmp, yes: bool)
    requires c == Eq || c == Ne
    ensures var t := TriOp(if yes then op else Dual(op), Wanted(v, Eq, yes), Wanted(w, Eq, yes));
      Wanted(TriOp(op, v, w), c, yes) == if c == Ne then TriNot(t) else t
  {
  }

  /** expr_trans_compare compares the expression as it reads it, in every good valuation. */
  lemma {:induction false} TransCompareValue(env: Env, e: Expr, c: Cmp, yes: bool)
    requires WellTyped(env, e) && PlainSymbolsTri(e) && (c == Eq || c == Ne)
    ensures Typed(env, TransCompare(e, c, yes))
    ensures Val(env, TransCompare(e, c, yes)) == Wanted(Reading(env, e, yes), c, yes)
  {
    match e
    case Bin(op, l, r) =>
      TransCompareValue(env, l, Eq, yes);
      TransCompareValue(env, r, Eq, yes);
      WantedOp(op, Reading(env, l, yes), Reading(env, r, yes), c, yes);
    case Not(a) =>
      TransCompareValue(env, a, Negated(c), yes);
      assert TransCompare(e, c, yes) == TransCompare(a, Negated(c), yes);
    case Compare(_, _, _) =>
    case Symbol(x) =>
      SymbolCompare(env, x, c, yes);
      assert env.strto("y", Unknown).KString? && env.strto("n", Unknown).KString?;
  }

  /** So it is the comparison it stands for if nothing negated is m. */
  lemma TransCompareExact(env: Env, e: Expr, c: Cmp, yes: bool)
    requires WellTyped(env, e) && PlainSymbolsTri(e) && NegationsDecided(env, e) && (c == Eq || c == Ne)
    ensures Val(env, TransCompare(e, c, yes)) == Wanted(Val(env, e), c, yes)
  {
    TransCompareValue(env, e, c, yes);
    ReadingExact(env, e, yes);
  }

  /** And comparing a negated exact operand is right if and only if that operand is not m. */
  lemma TransCompareNotExactIff(env: Env, a: Expr, c: Cmp, yes: bool)
    requires WellTyped(env, a) && PlainSymbolsTri(a) && NegationsDecided(env, a) && (c == Eq || c == Ne)
    ensures Val(env, TransCompare(Not(a), c, yes)) == Wanted(Val(env, Not(a)), c, yes)
            <==> Val(env, a) != MOD
  {
    TransCompareExact(env, a, Negated(c), yes);
  }

  // ---------- the comparison of an && ----------

  /** The transformed test for a value other than n. */
  function AgainstNo(e: Expr): Expr { Transform(TransCompare(e, Ne, false)) }

  /** Comparing with = and with != are negations of each other. */
  lemma {:induction false} CompareBothWays(e: Expr)
    ensures AgainstNo(e) == Transform(Not(Transform(TransCompare(e, Eq, false))))
    ensures Transform(TransCompare(e, Eq, false)) == Transform(Not(AgainstNo(e)))
  {
    var eq := TransCompare(e, Eq, false);
    TransformIsNormal(eq);
    TransformIdempotent(eq);
    NotTwice(Transform(eq));
    match e
    case Bin(_, _, _) => assert Transform(Not(eq)) == Transform(Not(Transform(eq)));
    case Not(a) => CompareBothWays(a);
    case Compare(_, _, _) =>
      TransformIsNormal(e);
      TransformIdempotent(e);
      NotTwice(Transform(e));
      assert Transform(Not(e)) == Transform(Not(Transform(e)));
    case Symbol(x) => assert AgainstNo(e) == Transform(Compare(Ne, x, SYM_NO));
  }

  /** An && is not n where both operands are not. */
  lemma AgainstNoAnd(l: Expr, r: Expr)
    ensures AgainstNo(Bin(And, l, r)) == Bin(And, AgainstNo(l), AgainstNo(r))
  {
    var x, y := TransCompare(l, Eq, false), TransCompare(r, Eq, false);
    assert TransCompare(Bin(And, l, r), Ne, false) == Not(Bin(Or, x, y));
    CompareBothWays(l);
    CompareBothWays(r);
    TransformIsNormal(x);
    TransformIsNormal(y);
    TransformIdempotent(Bin(Or, x, y));
    TransformNotBin(Or, Transform(x), Transform(y));
    assert Transform(Not(Bin(Or, x, y))) == Transform(Not(Bin(Or, Transform(x), Transform(y))));
  }

  /** An || is not n where one operand is not. */
  lemma AgainstNoOr(l: Expr, r: Expr)
    ensures AgainstNo(Bin(Or, l, r)) == Bin(Or, AgainstNo(l), AgainstNo(r))
  {
    var x, y := TransCompare(l, Eq, false), TransCompare(r, Eq, false);
    assert TransCompare(Bin(Or, l, r), Ne, false) == Not(Bin(And, x, y));
    CompareBothWays(l);
    CompareBothWays(r);
    TransformIsNormal(x);
    TransformIsNormal(y);
    TransformIdempotent(Bin(And, x, y));
    TransformNotBin(And, Transform(x), Transform(y));
    assert Transform(Not(Bin(And, x, y))) == Transform(Not(Bin(And, Transform(x), Transform(y))));
  }
}

/** expr_join_or, expr_join_and, expr_eliminate_dups1 and expr_eliminate_dups (kconf/expr.c). */
module ExprDups {
  import opened KconfigExpr
  import opened ExprEliminate
  import opened ExprTransform

  // ---------- expr_join_or, expr_join_and ----------

  /** The symbol a joinable operand is about; the operand kinds admitted on the two sides
      of a join differ below a negation. */
  function Subject(e: Expr, first: bool): Option<Sym> {
    match e
    case Symbol(s) => Some(s)
    case Compare(c, s, _) => if Ordering(c) then None else Some(s)
    case Not(Symbol(s)) => Some(s)
    case Not(Compare(c, s, _)) => if first && !Ordering(c) then Some(s) else None
    case _ => None
  }

  predicate Tests(e: Expr, c: Cmp, b: Sym) { e.Compare? && e.cmp == c && e.rhs == b }

  predicate TestPair(e1: Expr, e2: Expr, c: Cmp, b: Sym, d: Sym) {
    (Tests(e1, c, b) && Tests(e2, c, d)) || (Tests(e1, c, d) && Tests(e2, c, b))
  }

  predicate SymbolAnd(e1: Expr, e2: Expr, c: Cmp, b: Sym) {
    (e1.Symbol? && Tests(e2, c, b)) || (e2.Symbol? && Tests(e1, c, b))
  }

  /** expr_join_or. */
  function JoinOr(e1: Expr, e2: Expr): Option<Expr> {
    if Same(e1, e2) then Some(e1)
    else
      var s1, s2 := Subject(e1, true), Subject(e2, false);
      if s1.None? || s2.None? || s1 != s2 || !IsTriSym(s1.value) then None
      else
        var s := s1.value;
        if TypeOf(s) == Tristate && TestPair(e1, e2, Eq, SYM_YES, SYM_MOD) then Some(Compare(Ne, s, SYM_NO))
        else if TypeOf(s) == Tristate && TestPair(e1, e2, Eq, SYM_YES, SYM_NO) then Some(Compare(Ne, s, SYM_MOD))
        else if TypeOf(s) == Tristate && TestPair(e1, e2, Eq, SYM_MOD, SYM_NO) then Some(Compare(Ne, s, SYM_YES))
        else if TypeOf(s) == Boolean && ((e2.Symbol? && e1 == Not(e2)) || (e1.Symbol? && e2 == Not(e1)))
          then Some(Symbol(SYM_YES))
        else None
  }

  /** (a='b') && (a!='c'): the comparison stays or contradicts the other. */
  function JoinEqNe(s: Sym, b: Sym, c: Sym): Option<Expr> {
    if b.Const? && c.Const? then Some(if b != c then Compare(Eq, s, b) else Symbol(SYM_NO)) else None
  }

  /** expr_join_and. */
  function JoinAnd(e1: Expr, e2: Expr): Option<Expr> {
    if Same(e1, e2) then Some(e1)
    else
      var s1, s2 := Subject(e1, true), Subject(e2, false);
      if s1.None? || s2.None? || s1 != s2 || !IsTriSym(s1.value) then None
      else
        var s := s1.value;
        if SymbolAnd(e1, e2, Eq, SYM_YES) then Some(Compare(Eq, s, SYM_YES))
        else if SymbolAnd(e1, e2, Ne, SYM_NO) then Some(Symbol(s))
        else if SymbolAnd(e1, e2, Ne, SYM_MOD) then Some(Compare(Eq, s, SYM_YES))
        else if TypeOf(s) != Tristate then None
        else if e1.Compare? && e1.cmp == Eq && e2.Compare? && e2.cmp == Ne && JoinEqNe(s, e1.rhs, e2.rhs).Some?
          then JoinEqNe(s, e1.rhs, e2.rhs)
        else if e1.Compare? && e1.cmp == Ne && e2.Compare? && e2.cmp == Eq && JoinEqNe(s, e2.rhs, e1.rhs).Some?
          then JoinEqNe(s, e2.rhs, e1.rhs)
        else if TestPair(e1, e2, Ne, SYM_YES, SYM_NO) then Some(Compare(Eq, s, SYM_MOD))
        else if TestPair(e1, e2, Ne, SYM_YES, SYM_MOD) then Some(Compare(Eq, s, SYM_NO))
        else if TestPair(e1, e2, Ne, SYM_MOD, SYM_NO) then Some(Compare(Eq, s, SYM_YES))
        else None
  }

  function Join(op: Op, e1: Expr, e2: Expr): (r: Option<Expr>)
    ensures r.Some? ==> r.value == e1 || Size(r.value) == 1
    ensures r.Some? && Normal(e1) && Normal(e2) ==> Normal(r.value)
  {
    if op == Or then JoinOr(e1, e2) else JoinAnd(e1, e2)
  }

  /** A test for y, m or n says which value the symbol has. */
  function YmnVal(b: Sym): Tri { if b == SYM_YES then YES else if b == SYM_MOD then MOD else NO }

  lemma YmnCompare(env: Env, s: Sym, c: Cmp, b: Sym)
    requires GoodEnv(env) && IsTriSym(s) && IsYmn(b) && !Ordering(c)
    ensures Typed(env, Compare(c, s, b))
    ensures Val(env, Compare(c, s, b)) == TriBool((env.tri(s) == YmnVal(b)) == (c == Eq))
  {
    EqualsConst(env, s, b.name);
  }

  /** Two tests of one symbol for two of y, m and n. */
  lemma TestPairValue(env: Env, e1: Expr, e2: Expr, c: Cmp, b: Sym, d: Sym, s: Sym)
    requires GoodEnv(env) && IsTriSym(s) && IsYmn(b) && IsYmn(d) && !Ordering(c)
    requires TestPair(e1, e2, c, b, d) && e1.lhs == s && e2.lhs == s
    ensures TriOp(Or, Val(env, e1), Val(env, e2))
            == TriBool((env.tri(s) == YmnVal(b)) == (c == Eq) || (env.tri(s) == YmnVal(d)) == (c == Eq))
    ensures TriOp(And, Val(env, e1), Val(env, e2))
            == TriBool((env.tri(s) == YmnVal(b)) == (c == Eq) && (env.tri(s) == YmnVal(d)) == (c == Eq))
  {
    YmnCompare(env, s, c, b);
    YmnCompare(env, s, c, d);
  }

  lemma JoinOrSound(env: Env, e1: Expr, e2: Expr)
    requires WellTyped(env, e1) && WellTyped(env, e2) && JoinOr(e1, e2).Some?
    ensures Typed(env, JoinOr(e1, e2).value)
    ensures Val(env, JoinOr(e1, e2).value) == TriOp(Or, Val(env, e1), Val(env, e2))
  {
    if Same(e1, e2) {
      SameSound(env, e1, e2);
    } else {
      var s := Subject(e1, true).value;
      if TypeOf(s) == Tristate && TestPair(e1, e2, Eq, SYM_YES, SYM_MOD) {
        TestPairValue(env, e1, e2, Eq, SYM_YES, SYM_MOD, s);
        YmnCompare(env, s, Ne, SYM_NO);
      } else if TypeOf(s) == Tristate && TestPair(e1, e2, Eq, SYM_YES, SYM_NO) {
        TestPairValue(env, e1, e2, Eq, SYM_YES, SYM_NO, s);
        YmnCompare(env, s, Ne, SYM_MOD);
      } else if TypeOf(s) == Tristate && TestPair(e1, e2, Eq, SYM_MOD, SYM_NO) {
        TestPairValue(env, e1, e2, Eq, SYM_MOD, SYM_NO, s);
        YmnCompare(env, s, Ne, SYM_YES);
      } else {
        assert env.tri(s) != MOD;
        assert env.tri(SYM_YES) == YES;
      }
    }
  }

  lemma JoinEqNeSound(env: Env, s: Sym, b: Sym, c: Sym)
    requires GoodEnv(env) && IsTriSym(s) && JoinEqNe(s, b, c).Some?
    requires Typed(env, Compare(Eq, s, b)) && Typed(env, Compare(Ne, s, c))
    ensures Typed(env, JoinEqNe(s, b, c).value)
    ensures Val(env, JoinEqNe(s, b, c).value)
            == TriOp(And, Val(env, Compare(Eq, s, b)), Val(env, Compare(Ne, s, c)))
  {
    EqualsConst(env, s, b.name);
    EqualsConst(env, s, c.name);
    assert env.tri(SYM_NO) == NO;
  }

  lemma SymbolAndValue(env: Env, e1: Expr, e2: Expr, c: Cmp, b: Sym, s: Sym)
    requires GoodEnv(env) && IsTriSym(s) && IsYmn(b) && !Ordering(c)
    requires SymbolAnd(e1, e2, c, b) && Subject(e1, true) == Some(s) && Subject(e2, false) == Some(s)
    ensures TriOp(And, Val(env, e1), Val(env, e2))
            == if (env.tri(s) == YmnVal(b)) == (c == Eq) then env.tri(s) else NO
  {
    YmnCompare(env, s, c, b);
  }

  lemma JoinAndSound(env: Env, e1: Expr, e2: Expr)
    requires WellTyped(env, e1) && WellTyped(env, e2) && JoinAnd(e1, e2).Some?
    ensures Typed(env, JoinAnd(e1, e2).value)
    ensures Val(env, JoinAnd(e1, e2).value) == TriOp(And, Val(env, e1), Val(env, e2))
  {
    if Same(e1, e2) {
      SameSound(env, e1, e2);
    } else {
      var s := Subject(e1, true).value;
      if SymbolAnd(e1, e2, Eq, SYM_YES) {
        SymbolAndValue(env, e1, e2, Eq, SYM_YES, s);
        YmnCompare(env, s, Eq, SYM_YES);
      } else if SymbolAnd(e1, e2, Ne, SYM_NO) {
        SymbolAndValue(env, e1, e2, Ne, SYM_NO, s);
      } else if SymbolAnd(e1, e2, Ne, SYM_MOD) {
        SymbolAndValue(env, e1, e2, Ne, SYM_MOD, s);
        YmnCompare(env, s, Eq, SYM_YES);
      } else {
        JoinTestsSound(env, e1, e2, s);
      }
    }
  }

  /** The joins of two tests of one tristate. */
  lemma JoinTestsSound(env: Env, e1: Expr, e2: Expr, s: Sym)
    requires WellTyped(env, e1) && WellTyped(env, e2) && JoinAnd(e1, e2).Some?
    requires !Same(e1, e2) && Subject(e1, true) == Some(s) && !e1.Symbol? && !e2.Symbol?
    ensures Typed(env, JoinAnd(e1, e2).value)
    ensures Val(env, JoinAnd(e1, e2).value) == TriOp(And, Val(env, e1), Val(env, e2))
  {
    if e1.cmp == Eq {
      JoinEqNeSound(env, s, e1.rhs, e2.rhs);
    } else if e2.cmp == Eq {
      JoinEqNeSound(env, s, e2.rhs, e1.rhs);
    } else if TestPair(e1, e2, Ne, SYM_YES, SYM_NO) {
      TestPairValue(env, e1, e2, Ne, SYM_YES, SYM_NO, s);
      YmnCompare(env, s, Eq, SYM_MOD);
    } else if TestPair(e1, e2, Ne, SYM_YES, SYM_MOD) {
      TestPairValue(env, e1, e2, Ne, SYM_YES, SYM_MOD, s);
      YmnCompare(env, s, Eq, SYM_NO);
    } else {
      TestPairValue(env, e1, e2, Ne, SYM_MOD, SYM_NO, s);
      YmnCompare(env, s, Eq, SYM_YES);
    }
  }

  /** A join keeps the value of the two operands together, under every well-typed valuation. */
  lemma JoinSound(env: Env, op: Op, e1: Expr, e2: Expr)
    requires WellTyped(env, e1) && WellTyped(env, e2) && Join(op, e1, e2).Some?
    ensures Typed(env, Join(op, e1, e2).value)
    ensures Val(env, Join(op, e1, e2).value) == TriOp(op, Val(env, e1), Val(env, e2))
  {
    if op == Or { JoinOrSound(env, e1, e2); } else { JoinAndSound(env, e1, e2); }
  }

  /** The join of a='b' && a!='c' is right, whatever the constants, if and only if they are the
      same or a does not equal both. */
  lemma JoinEqNeIff(env: Env, a: Sym, b: Sym, c: Sym)
    requires TypeOf(a) == Tristate && b.Const? && c.Const? && env.tri(SYM_NO) == NO
    ensures var e1, e2 := Compare(Eq, a, b), Compare(Ne, a, c);
      && Join(And, e1, e2).Some?
      && (Val(env, Join(And, e1, e2).value) == TriOp(And, Val(env, e1), Val(env, e2))
          <==> b == c || !(CompareVal(env, Eq, a, b) == YES && CompareVal(env, Eq, a, c) == YES))
  {
    assert Join(And, Compare(Eq, a, b), Compare(Ne, a, c)) == JoinEqNe(a, b, c);
  }

  /** A numeral constant is compared with a tristate by value, so there a join is wrong:
      a='1' && a!='m' is always n, but is joined to a='1', which is y when a is m. */
  lemma NumeralBreaksJoin(env: Env, a: Sym)
    requires GoodEnv(env) && TypeOf(a) == Tristate && env.tri(a) == MOD
    requires env.strto("1", Unknown) == KSigned(1)
    ensures var e1, e2 := Compare(Eq, a, Const("1")), Compare(Ne, a, SYM_MOD);
      && Join(And, e1, e2) == Some(e1)
      && Val(env, e1) == YES && TriOp(And, Val(env, e1), Val(env, e2)) == NO
  {
    EqualsConst(env, a, "m");
    assert env.text(Const("1")) == "1" && env.text(a) == "m";
  }

  // ---------- cursors into one tree ----------

  datatype Side = L | R

  /** A `struct expr **` into the tree under simplification. */
  type Cursor = seq<Side>

  function Child(e: Expr, s: Side): Expr
    requires e.Bin?
  {
    if s == L then e.left else e.right
  }

  /** The cursor passes only through `op` nodes. */
  predicate OnSpine(op: Op, t: Expr, q: Cursor) {
    q == [] || (IsOp(op, t) && OnSpine(op, Child(t, q[0]), q[1..]))
  }

  function At(op: Op, t: Expr, q: Cursor): (e: Expr)
    requires OnSpine(op, t, q)
    ensures Size(e) <= Size(t)
    ensures q != [] ==> Size(e) < Size(t)
  {
    if q == [] then t else At(op, Child(t, q[0]), q[1..])
  }

  function Put(op: Op, t: Expr, q: Cursor, x: Expr): Expr
    requires OnSpine(op, t, q)
  {
    if q == [] then x
    else if q[0] == L then Bin(op, Put(op, t.left, q[1..], x), t.right)
    else Bin(op, t.left, Put(op, t.right, q[1..], x))
  }

  /** The two trees have their `op` nodes in the same places. */
  predicate SameSpine(op: Op, t: Expr, u: Expr) {
    if IsOp(op, t) then IsOp(op, u) && SameSpine(op, t.left, u.left) && SameSpine(op, t.right, u.right)
    else !IsOp(op, u)
  }

  function OpCount(op: Op, t: Expr): nat {
    if IsOp(op, t) then 1 + OpCount(op, t.left) + OpCount(op, t.right) else 0
  }

  lemma {:induction false} SameSpineRefl(op: Op, t: Expr)
    ensures SameSpine(op, t, t)
  {
    if IsOp(op, t) { SameSpineRefl(op, t.left); SameSpineRefl(op, t.right); }
  }

  lemma {:induction false} SameSpineTrans(op: Op, t: Expr, u: Expr, w: Expr)
    requires SameSpine(op, t, u) && SameSpine(op, u, w)
    ensures SameSpine(op, t, w)
  {
    if IsOp(op, t) { SameSpineTrans(op, t.left, u.left, w.left); SameSpineTrans(op, t.right, u.right, w.right); }
  }

  lemma {:induction false} SameSpineCount(op: Op, t: Expr, u: Expr)
    requires SameSpine(op, t, u)
    ensures OpCount(op, t) == OpCount(op, u)
  {
    if IsOp(op, t) { SameSpineCount(op, t.left, u.left); SameSpineCount(op, t.right, u.right); }
  }

  /** A cursor stays valid, and stays in front of the same shape, in a tree with the same spine. */
  lemma {:induction false} CursorSurvives(op: Op, t: Expr, u: Expr, q: Cursor)
    requires SameSpine(op, t, u) && OnSpine(op, t, q)
    ensures OnSpine(op, u, q) && OpCount(op, At(op, u, q)) == OpCount(op, At(op, t, q))
    ensures IsOp(op, At(op, u, q)) <==> IsOp(op, At(op, t, q))
  {
    if q == [] { SameSpineCount(op, t, u); } else { CursorSurvives(op, Child(t, q[0]), Child(u, q[0]), q[1..]); }
  }

  lemma {:induction false} CursorExtend(op: Op, t: Expr, q: Cursor, s: Side)
    requires OnSpine(op, t, q) && IsOp(op, At(op, t, q))
    ensures OnSpine(op, t, q + [s]) && At(op, t, q + [s]) == Child(At(op, t, q), s)
    ensures OpCount(op, At(op, t, q + [s])) < OpCount(op, At(op, t, q))
  {
    if q == [] {
      assert ([s])[1..] == [];
    } else {
      CursorExtend(op, Child(t, q[0]), q[1..], s);
      assert (q + [s])[1..] == q[1..] + [s];
    }
  }

  /** Overwriting one operand. */
  lemma {:induction false} PutFacts(op: Op, t: Expr, q: Cursor, x: Expr)
    requires OnSpine(op, t, q) && !IsOp(op, At(op, t, q)) && !IsOp(op, x)
    ensures var u := Put(op, t, q, x);
      && SameSpine(op, t, u)
      && OnSpine(op, u, q) && At(op, u, q) == x
      && Size(u) == Size(t) - Size(At(op, t, q)) + Size(x)
      && (HasUnit(x) ==> HasUnit(u))
      && (q != [] && x == Symbol(UnitSym(op)) ==> HasUnit(u))
      && (At(op, t, q) == x ==> u == t)
      && (Normal(t) ==> Normal(At(op, t, q)))
      && (Normal(t) && Normal(x) ==> Normal(u))
  {
    if q != [] {
      PutFacts(op, Child(t, q[0]), q[1..], x);
      SameSpineRefl(op, t.left);
      SameSpineRefl(op, t.right);
    }
  }

  /** Distinct operands do not affect each other. */
  lemma {:induction false} PutElsewhere(op: Op, t: Expr, q: Cursor, p: Cursor, x: Expr)
    requires OnSpine(op, t, q) && !IsOp(op, At(op, t, q)) && !IsOp(op, x)
    requires OnSpine(op, t, p) && !IsOp(op, At(op, t, p)) && p != q
    ensures p != [] && q != []
    ensures OnSpine(op, Put(op, t, q, x), p) && At(op, Put(op, t, q, x), p) == At(op, t, p)
  {
    if p != [] && q != [] && p[0] == q[0] {
      assert p == [p[0]] + p[1..] && q == [q[0]] + q[1..];
      PutElsewhere(op, Child(t, q[0]), q[1..], p[1..], x);
    }
  }

  /** The value of everything in the tree but one operand. */
  function Rest(env: Env, op: Op, t: Expr, q: Cursor): Tri
    requires OnSpine(op, t, q)
  {
    if q == [] then (if op == And then YES else NO)
    else if q[0] == L then TriOp(op, Rest(env, op, t.left, q[1..]), Val(env, t.right))
    else TriOp(op, Rest(env, op, t.right, q[1..]), Val(env, t.left))
  }

  lemma {:induction false} PutValue(env: Env, op: Op, t: Expr, q: Cursor, x: Expr)
    requires OnSpine(op, t, q)
    ensures Val(env, Put(op, t, q, x)) == TriOp(op, Rest(env, op, t, q), Val(env, x))
    ensures Val(env, t) == TriOp(op, Rest(env, op, t, q), Val(env, At(op, t, q)))
    ensures Typed(env, t) && Typed(env, x) ==> Typed(env, Put(op, t, q, x))
    ensures Typed(env, t) ==> Typed(env, At(op, t, q))
  {
    PutTyped(env, op, t, q, x);
    if q != [] {
      var c, d := Child(t, q[0]), Child(t, if q[0] == L then R else L);
      PutValue(env, op, c, q[1..], x);
      TriSwap(op, Rest(env, op, c, q[1..]), Val(env, d), Val(env, x));
      TriSwap(op, Rest(env, op, c, q[1..]), Val(env, d), Val(env, At(op, t, q)));
    }
  }

  lemma TriSwap(op: Op, a: Tri, b: Tri, c: Tri)
    ensures TriOp(op, TriOp(op, a, b), c) == TriOp(op, TriOp(op, a, c), b) == TriOp(op, b, TriOp(op, a, c))
  {
  }

  lemma {:induction false} PutTyped(env: Env, op: Op, t: Expr, q: Cursor, x: Expr)
    requires OnSpine(op, t, q)
    ensures Typed(env, t) && Typed(env, x) ==> Typed(env, Put(op, t, q, x))
    ensures Typed(env, t) ==> Typed(env, At(op, t, q))
  {
    if q != [] { PutTyped(env, op, Child(t, q[0]), q[1..], x); }
  }

  lemma Exchange(op: Op, r1: Tri, r2: Tri, a: Tri, b: Tri, x: Tri, y: Tri)
    requires TriOp(op, x, y) == TriOp(op, a, b)
    ensures TriOp(op, TriOp(op, r1, x), TriOp(op, r2, y)) == TriOp(op, TriOp(op, r1, a), TriOp(op, r2, b))
    ensures TriOp(op, TriOp(op, r2, y), TriOp(op, r1, x)) == TriOp(op, TriOp(op, r2, b), TriOp(op, r1, a))
  {
  }

  /** Overwriting two operands by two others with the same combined value. */
  lemma {:induction false} PutTwoValue(env: Env, op: Op, t: Expr, q: Cursor, p: Cursor, x: Expr, y: Expr)
    requires OnSpine(op, t, q) && !IsOp(op, At(op, t, q)) && !IsOp(op, x)
    requires OnSpine(op, t, p) && !IsOp(op, At(op, t, p)) && p != q
    requires TriOp(op, Val(env, x), Val(env, y)) == TriOp(op, Val(env, At(op, t, q)), Val(env, At(op, t, p)))
    ensures OnSpine(op, Put(op, t, q, x), p)
    ensures Val(env, Put(op, Put(op, t, q, x), p, y)) == Val(env, t)
  {
    PutElsewhere(op, t, q, p, x);
    if p[0] == q[0] {
      assert p == [p[0]] + p[1..] && q == [q[0]] + q[1..];
      PutTwoValue(env, op, Child(t, q[0]), q[1..], p[1..], x, y);
    } else {
      PutValue(env, op, Child(t, q[0]), q[1..], x);
      PutValue(env, op, Child(t, p[0]), p[1..], y);
      Exchange(op, Rest(env, op, Child(t, q[0]), q[1..]), Rest(env, op, Child(t, p[0]), p[1..]),
               Val(env, At(op, t, q)), Val(env, At(op, t, p)), Val(env, x), Val(env, y));
    }
  }

  // ---------- expr_eliminate_dups1 ----------

  /** A tree and the number of simplifications counted in trans_count. */
  datatype Pass = Pass(tree: Expr, count: nat)

  /** The work at two operands e1 (at q1) and e2 (at q2), given e1 after its own pass. */
  function JoinAt(op: Op, t: Expr, q1: Cursor, q2: Cursor, e1: Pass): (r: Pass)
    requires OnSpine(op, t, q1) && !IsOp(op, At(op, t, q1)) && !IsOp(op, e1.tree)
    requires OnSpine(op, t, q2) && !IsOp(op, At(op, t, q2)) && q1 != q2
    requires Size(e1.tree) <= Size(At(op, t, q1))
    ensures SameSpine(op, t, r.tree) && Size(r.tree) <= Size(t)
  {
    var t1 := Put(op, t, q1, e1.tree);
    PutFacts(op, t, q1, e1.tree);
    PutElsewhere(op, t, q1, q2, e1.tree);
    match Join(op, e1.tree, At(op, t1, q2))
    case None => Pass(t1, e1.count)
    case Some(j) =>
      var t2 := Put(op, t1, q1, Symbol(UnitSym(op)));
      PutFacts(op, t1, q1, Symbol(UnitSym(op)));
      PutElsewhere(op, t1, q1, q2, Symbol(UnitSym(op)));
      PutFacts(op, t2, q2, j);
      SameSpineTrans(op, t, t1, t2);
      SameSpineTrans(op, t, t2, Put(op, t2, q2, j));
      Pass(Put(op, t2, q2, j), e1.count + 1)
  }

  /** expr_eliminate_dups1, with both cursors in one tree t. */
  function Dups1(op: Op, t: Expr, q1: Cursor, q2: Cursor): (r: Pass)
    requires OnSpine(op, t, q1) && OnSpine(op, t, q2)
    ensures SameSpine(op, t, r.tree) && Size(r.tree) <= Size(t)
    decreases Size(t), OpCount(op, At(op, t, q1)) + OpCount(op, At(op, t, q2))
  {
    var e1, e2 := At(op, t, q1), At(op, t, q2);
    if IsOp(op, e1) then
      CursorExtend(op, t, q1, L); CursorExtend(op, t, q1, R);
      var a := Dups1(op, t, q1 + [L], q2);
      CursorSurvives(op, t, a.tree, q1 + [R]); CursorSurvives(op, t, a.tree, q2);
      var b := Dups1(op, a.tree, q1 + [R], q2);
      SameSpineTrans(op, t, a.tree, b.tree);
      Pass(b.tree, a.count + b.count)
    else if IsOp(op, e2) then
      CursorExtend(op, t, q2, L); CursorExtend(op, t, q2, R);
      var a := Dups1(op, t, q1, q2 + [L]);
      CursorSurvives(op, t, a.tree, q1); CursorSurvives(op, t, a.tree, q2 + [R]);
      var b := Dups1(op, a.tree, q1, q2 + [R]);
      SameSpineTrans(op, t, a.tree, b.tree);
      Pass(b.tree, a.count + b.count)
    else if q1 == q2 then
      SameSpineRefl(op, t);
      Pass(t, 0)
    else
      PutElsewhere(op, t, q1, q2, e2);
      JoinAt(op, t, q1, q2, if e1.Bin? then Dups1(e1.op, e1, [], []) else Pass(e1, 0))
  }

  /** A pass that counts nothing changes nothing; one that counts something leaves an
      operand for expr_eliminate_yn. Either way the shape expr_transform made is kept. */
  predicate Progress(t: Expr, r: Pass) {
    && (r.count == 0 ==> r.tree == t)
    && (r.count > 0 ==> HasUnit(r.tree))
    && (Normal(t) ==> Normal(r.tree))
  }

  lemma JoinAtProgress(op: Op, t: Expr, q1: Cursor, q2: Cursor, e1: Pass)
    requires OnSpine(op, t, q1) && !IsOp(op, At(op, t, q1)) && !IsOp(op, e1.tree)
    requires OnSpine(op, t, q2) && !IsOp(op, At(op, t, q2)) && q1 != q2
    requires Size(e1.tree) <= Size(At(op, t, q1)) && Progress(At(op, t, q1), e1)
    ensures Progress(t, JoinAt(op, t, q1, q2, e1))
  {
    var t1 := Put(op, t, q1, e1.tree);
    PutFacts(op, t, q1, e1.tree);
    PutElsewhere(op, t, q1, q2, e1.tree);
    match Join(op, e1.tree, At(op, t1, q2))
    case None =>
    case Some(j) =>
      var u := Symbol(UnitSym(op));
      PutFacts(op, t1, q2, At(op, t1, q2));
      PutFacts(op, t1, q1, u);
      PutElsewhere(op, t1, q1, q2, u);
      PutFacts(op, Put(op, t1, q1, u), q2, j);
      PutKeepsUnit(op, t1, q1, q2, j);
  }

  /** The unit written at q1 is still there after writing elsewhere. */
  lemma {:induction false} PutKeepsUnit(op: Op, t: Expr, q: Cursor, p: Cursor, x: Expr)
    requires OnSpine(op, t, q) && !IsOp(op, At(op, t, q))
    requires OnSpine(op, t, p) && !IsOp(op, At(op, t, p)) && p != q
    ensures OnSpine(op, Put(op, t, q, Symbol(UnitSym(op))), p)
    ensures HasUnit(Put(op, Put(op, t, q, Symbol(UnitSym(op))), p, x))
  {
    var u := Symbol(UnitSym(op));
    PutElsewhere(op, t, q, p, u);
    if p[0] == q[0] {
      assert p == [p[0]] + p[1..] && q == [q[0]] + q[1..];
      PutKeepsUnit(op, Child(t, q[0]), q[1..], p[1..], x);
    } else {
      PutFacts(op, Child(t, q[0]), q[1..], u);
    }
  }

  lemma {:induction false} Dups1Progress(op: Op, t: Expr, q1: Cursor, q2: Cursor)
    requires OnSpine(op, t, q1) && OnSpine(op, t, q2)
    ensures Progress(t, Dups1(op, t, q1, q2))
    decreases Size(t), OpCount(op, At(op, t, q1)) + OpCount(op, At(op, t, q2))
  {
    var e1, e2 := At(op, t, q1), At(op, t, q2);
    if IsOp(op, e1) {
      CursorExtend(op, t, q1, L); CursorExtend(op, t, q1, R);
      Dups1Progress(op, t, q1 + [L], q2);
      var a := Dups1(op, t, q1 + [L], q2);
      CursorSurvives(op, t, a.tree, q1 + [R]); CursorSurvives(op, t, a.tree, q2);
      Dups1Progress(op, a.tree, q1 + [R], q2);
    } else if IsOp(op, e2) {
      CursorExtend(op, t, q2, L); CursorExtend(op, t, q2, R);
      Dups1Progress(op, t, q1, q2 + [L]);
      var a := Dups1(op, t, q1, q2 + [L]);
      CursorSurvives(op, t, a.tree, q1); CursorSurvives(op, t, a.tree, q2 + [R]);
      Dups1Progress(op, a.tree, q1, q2 + [R]);
    } else if q1 != q2 {
      PutElsewhere(op, t, q1, q2, e2);
      if e1.Bin? { Dups1Progress(e1.op, e1, [], []); }
      JoinAtProgress(op, t, q1, q2, if e1.Bin? then Dups1(e1.op, e1, [], []) else Pass(e1, 0));
    }
  }

  lemma JoinAtSound(env: Env, op: Op, t: Expr, q1: Cursor, q2: Cursor, e1: Pass)
    requires OnSpine(op, t, q1) && !IsOp(op, At(op, t, q1)) && !IsOp(op, e1.tree)
    requires OnSpine(op, t, q2) && !IsOp(op, At(op, t, q2)) && q1 != q2
    requires Size(e1.tree) <= Size(At(op, t, q1))
    requires WellTyped(env, t) && Typed(env, e1.tree) && Val(env, e1.tree) == Val(env, At(op, t, q1))
    ensures var r := JoinAt(op, t, q1, q2, e1).tree; Typed(env, r) && Val(env, r) == Val(env, t)
  {
    var t1 := Put(op, t, q1, e1.tree);
    PutFacts(op, t, q1, e1.tree);
    PutElsewhere(op, t, q1, q2, e1.tree);
    PutValue(env, op, t, q1, e1.tree);
    PutValue(env, op, t1, q2, e1.tree);
    match Join(op, e1.tree, At(op, t1, q2))
    case None =>
    case Some(j) =>
      var u := Symbol(UnitSym(op));
      assert env.tri(SYM_NO) == NO && env.tri(SYM_YES) == YES;
      JoinSound(env, op, e1.tree, At(op, t1, q2));
      PutTwoValue(env, op, t1, q1, q2, u, j);
      PutValue(env, op, t1, q1, u);
      PutValue(env, op, Put(op, t1, q1, u), q2, j);
  }

  /** One pass, with both cursors on the same tree, keeps the value. */
  lemma {:induction false} Dups1Sound(env: Env, op: Op, t: Expr, q1: Cursor, q2: Cursor)
    requires OnSpine(op, t, q1) && OnSpine(op, t, q2) && WellTyped(env, t)
    ensures var r := Dups1(op, t, q1, q2).tree; Typed(env, r) && Val(env, r) == Val(env, t)
    decreases Size(t), OpCount(op, At(op, t, q1)) + OpCount(op, At(op, t, q2))
  {
    var e1, e2 := At(op, t, q1), At(op, t, q2);
    if IsOp(op, e1) {
      CursorExtend(op, t, q1, L); CursorExtend(op, t, q1, R);
      Dups1Sound(env, op, t, q1 + [L], q2);
      var a := Dups1(op, t, q1 + [L], q2);
      CursorSurvives(op, t, a.tree, q1 + [R]); CursorSurvives(op, t, a.tree, q2);
      Dups1Sound(env, op, a.tree, q1 + [R], q2);
    } else if IsOp(op, e2) {
      CursorExtend(op, t, q2, L); CursorExtend(op, t, q2, R);
      Dups1Sound(env, op, t, q1, q2 + [L]);
      var a := Dups1(op, t, q1, q2 + [L]);
      CursorSurvives(op, t, a.tree, q1); CursorSurvives(op, t, a.tree, q2 + [R]);
      Dups1Sound(env, op, a.tree, q1, q2 + [R]);
    } else if q1 != q2 {
      PutElsewhere(op, t, q1, q2, e2);
      PutValue(env, op, t, q1, e1);
      if e1.Bin? { Dups1Sound(env, e1.op, e1, [], []); }
      JoinAtSound(env, op, t, q1, q2, if e1.Bin? then Dups1(e1.op, e1, [], []) else Pass(e1, 0));
    }
  }

  // ---------- expr_eliminate_dups ----------

  function OnePass(e: Expr): Pass { if e.Bin? then Dups1(e.op, e, [], []) else Pass(e, 0) }

  lemma OnePassProgress(e: Expr)
    ensures var p := OnePass(e); Progress(e, p) && Size(p.tree) <= Size(e)
    ensures OnePass(e).count > 0 ==> Size(EliminateYn(OnePass(e).tree)) < Size(e)
  {
    if e.Bin? { Dups1Progress(e.op, e, [], []); }
    if OnePass(e).count > 0 { EliminateYnShrinks(OnePass(e).tree); }
  }

  /** expr_eliminate_dups as a function: passes until one counts nothing. */
  function EliminateDups(e: Expr): (r: Expr)
    ensures Size(r) <= Size(e)
    decreases Size(e)
  {
    OnePassProgress(e);
    var p := OnePass(e);
    if p.count == 0 then p.tree else EliminateDups(EliminateYn(p.tree))
  }

  /** Two operands that cannot be joined or simplified by themselves stay. */
  lemma SilentPair(op: Op, l: Expr, r: Expr)
    requires !IsOp(op, l) && !IsOp(op, r) && Join(op, l, r).None? && Join(op, r, l).None?
    requires OnePass(l) == Pass(l, 0) && OnePass(r) == Pass(r, 0)
    ensures OnePass(Bin(op, l, r)) == Pass(Bin(op, l, r), 0)
  {
    assert [] + [L] == [L] && [] + [R] == [R];
    SilentPairFrom(op, l, r, L);
    SilentPairFrom(op, l, r, R);
  }

  lemma SilentPairFrom(op: Op, l: Expr, r: Expr, d: Side)
    requires !IsOp(op, l) && !IsOp(op, r) && Join(op, l, r).None? && Join(op, r, l).None?
    requires OnePass(l) == Pass(l, 0) && OnePass(r) == Pass(r, 0)
    ensures var t := Bin(op, l, r); OnSpine(op, t, [d]) && Dups1(op, t, [d], []) == Pass(t, 0)
  {
    var t := Bin(op, l, r);
    assert OnSpine(op, t, [L]) && OnSpine(op, t, [R]);
    assert At(op, t, [L]) == l && At(op, t, [R]) == r && At(op, t, []) == t;
    assert [] + [L] == [L] && [] + [R] == [R];
    assert Put(op, t, [d], if d == L then l else r) == t;
    assert Dups1(op, t, [d], [d]) == Pass(t, 0);
    assert Dups1(op, t, [d], [if d == L then R else L]) == Pass(t, 0);
  }

  /** Two operands that are joined to one that cannot be joined any more leave that one. */
  lemma JoinedPair(op: Op, l: Expr, r: Expr, j: Expr)
    requires !l.Bin? && !r.Bin? && !j.Bin? && !j.Symbol? && Join(op, l, r) == Some(j)
    requires Join(op, j, Symbol(UnitSym(op))).None?
    ensures EliminateDups(Bin(op, l, r)) == j && OnePass(Bin(op, l, r)).count > 0
  {
    var u := Symbol(UnitSym(op));
    assert [] + [L] == [L] && [] + [R] == [R];
    JoinedFirst(op, l, r, j);
    JoinedRest(op, u, j);
    assert OnePass(Bin(op, l, r)) == Pass(Bin(op, u, j), 1);
    assert EliminateYn(Bin(op, u, j)) == j;
  }

  lemma JoinedFirst(op: Op, l: Expr, r: Expr, j: Expr)
    requires !l.Bin? && !r.Bin? && !j.Bin? && Join(op, l, r) == Some(j)
    ensures var t := Bin(op, l, r);
      OnSpine(op, t, [L]) && Dups1(op, t, [L], []) == Pass(Bin(op, Symbol(UnitSym(op)), j), 1)
  {
    var t, u := Bin(op, l, r), Symbol(UnitSym(op));
    assert [] + [L] == [L] && [] + [R] == [R];
    assert OnSpine(op, t, [L]) && OnSpine(op, t, [R]);
    assert At(op, t, [L]) == l && At(op, t, [R]) == r && At(op, t, []) == t;
    assert Put(op, t, [L], l) == t && Put(op, t, [L], u) == Bin(op, u, r);
    assert Put(op, Bin(op, u, r), [R], j) == Bin(op, u, j);
    assert Dups1(op, t, [L], [L]) == Pass(t, 0);
    assert Dups1(op, t, [L], [R]) == Pass(Bin(op, u, j), 1);
  }

  lemma JoinedRest(op: Op, u: Expr, j: Expr)
    requires u == Symbol(UnitSym(op)) && !j.Bin? && Join(op, j, u).None?
    ensures var t' := Bin(op, u, j); OnSpine(op, t', [R]) && Dups1(op, t', [R], []) == Pass(t', 0)
  {
    var t' := Bin(op, u, j);
    assert [] + [L] == [L] && [] + [R] == [R];
    assert OnSpine(op, t', [L]) && OnSpine(op, t', [R]);
    assert At(op, t', [L]) == u && At(op, t', [R]) == j && At(op, t', []) == t';
    assert Put(op, t', [R], j) == t';
    assert Dups1(op, t', [R], [L]) == Pass(t', 0) && Dups1(op, t', [R], [R]) == Pass(t', 0);
    assert Dups1(op, t', [R], []) == Pass(t', 0);
  }

  /** expr_eliminate_dups keeps the value under every well-typed valuation. */
  lemma {:induction false} EliminateDupsKeepsValue(env: Env, e: Expr)
    requires WellTyped(env, e)
    ensures Typed(env, EliminateDups(e))
    ensures Val(env, EliminateDups(e)) == Val(env, e)
    decreases Size(e)
  {
    var p := OnePass(e);
    OnePassProgress(e);
    if p.count > 0 {
      Dups1Sound(env, e.op, e, [], []);
      EliminateYnKeepsValue(env, p.tree);
      EliminateDupsKeepsValue(env, EliminateYn(p.tree));
    }
  }

  /** It keeps the shape expr_transform establishes. */
  lemma {:induction false} EliminateDupsKeepsNormal(e: Expr)
    requires Normal(e)
    ensures Normal(EliminateDups(e))
    decreases Size(e)
  {
    var p := OnePass(e);
    OnePassProgress(e);
    if p.count > 0 {
      EliminateYnKeepsNormal(p.tree);
      EliminateDupsKeepsNormal(EliminateYn(p.tree));
    }
  }

  lemma {:induction false} EliminateYnKeepsNormal(e: Expr)
    requires Normal(e)
    ensures Normal(EliminateYn(e))
  {
    if e.Bin? { EliminateYnKeepsNormal(e.left); EliminateYnKeepsNormal(e.right); }
  }

  /** Nothing is left to join: another run of a pass, and so of the whole, changes nothing. */
  lemma {:induction false} EliminateDupsIdempotent(e: Expr)
    ensures OnePass(EliminateDups(e)) == Pass(EliminateDups(e), 0)
    ensures EliminateDups(EliminateDups(e)) == EliminateDups(e)
    decreases Size(e)
  {
    var p := OnePass(e);
    OnePassProgress(e);
    if p.count > 0 { EliminateDupsIdempotent(EliminateYn(p.tree)); }
  }

  // ---------- no duplicates are left ----------

  /** An operand of the `op` spine of t. */
  predicate IsOperand(op: Op, t: Expr, q: Cursor) { OnSpine(op, t, q) && !IsOp(op, At(op, t, q)) }

  /** A pair of operands for which kconf/expr.c lists a simplification: two tests of one tristate, a
      symbol and a test that it passes or fails by its value, a bool and its negation. */
  predicate Redundant(op: Op, x: Expr, y: Expr) {
    if op == Or then
      || (x.Compare? && y.Compare? && x.lhs == y.lhs && TypeOf(x.lhs) == Tristate && x.cmp == y.cmp == Eq
          && IsYmn(x.rhs) && IsYmn(y.rhs))
      || (x.Symbol? && TypeOf(x.sym) == Boolean && y == Not(x))
    else
      || (x.Symbol? && IsTriSym(x.sym) && y.Compare? && y.lhs == x.sym
          && ((y.cmp == Eq && y.rhs == SYM_YES) || (y.cmp == Ne && (y.rhs == SYM_NO || y.rhs == SYM_MOD))))
      || (x.Compare? && y.Compare? && x.lhs == y.lhs && TypeOf(x.lhs) == Tristate
          && ((x.cmp == Eq && y.cmp == Ne && x.rhs.Const? && y.rhs.Const?)
              || (x.cmp == y.cmp == Ne && IsYmn(x.rhs) && IsYmn(y.rhs))))
  }

  /** A pass joins every such pair, in either order, and equal operands. */
  lemma JoinComplete(op: Op, x: Expr, y: Expr)
    requires Same(x, y) || Redundant(op, x, y) || Redundant(op, y, x)
    ensures Join(op, x, y).Some?
  {
    if !Same(x, y) {
      if x.Compare? && y.Compare? && x.cmp == y.cmp { assert x.rhs != y.rhs; }
      if x.Symbol? || y.Symbol? { assert Subject(x, true) == Subject(y, false); }
    }
  }

  lemma JoinAtCounts(op: Op, t: Expr, q1: Cursor, q2: Cursor, e1: Pass)
    requires IsOperand(op, t, q1) && IsOperand(op, t, q2) && q1 != q2 && !IsOp(op, e1.tree)
    requires Size(e1.tree) <= Size(At(op, t, q1)) && Progress(At(op, t, q1), e1)
    requires JoinAt(op, t, q1, q2, e1).count == 0
    ensures e1.count == 0 && Join(op, At(op, t, q1), At(op, t, q2)).None?
  {
    PutFacts(op, t, q1, e1.tree);
    PutElsewhere(op, t, q1, q2, e1.tree);
  }

  /** The operand reached from q by p is reached through one of the two nodes below q. */
  lemma Descend(op: Op, t: Expr, q: Cursor, p: Cursor)
    requires OnSpine(op, t, q) && IsOp(op, At(op, t, q)) && IsOperand(op, t, q + p)
    ensures p != [] && q + p == (q + [p[0]]) + p[1..]
  {
    assert p == [] ==> q + p == q;
    assert p != [] ==> p == [p[0]] + p[1..];
  }

  lemma {:induction false} StopAtOperand(op: Op, t: Expr, q: Cursor, p: Cursor)
    requires IsOperand(op, t, q) && OnSpine(op, t, q + p)
    ensures p == []
  {
    if q == [] {
      assert q + p == p;
    } else {
      assert (q + p)[1..] == q[1..] + p;
      StopAtOperand(op, Child(t, q[0]), q[1..], p);
    }
  }

  /** A pass that counts nothing consists of passes that count nothing, on the same tree. */
  lemma SilentBelow(op: Op, t: Expr, q1: Cursor, q2: Cursor, s: Side)
    requires OnSpine(op, t, q1) && OnSpine(op, t, q2) && IsOp(op, At(op, t, q1)) && Dups1(op, t, q1, q2).count == 0
    ensures OnSpine(op, t, q1 + [s]) && Dups1(op, t, q1 + [s], q2).count == 0
  {
    CursorExtend(op, t, q1, L);
    CursorExtend(op, t, q1, R);
    Dups1Progress(op, t, q1 + [L], q2);
    if s == L { assert q1 + [s] == q1 + [L]; } else { assert q1 + [s] == q1 + [R]; }
  }

  lemma SilentBelowSecond(op: Op, t: Expr, q1: Cursor, q2: Cursor, s: Side)
    requires IsOperand(op, t, q1) && OnSpine(op, t, q2) && IsOp(op, At(op, t, q2)) && Dups1(op, t, q1, q2).count == 0
    ensures OnSpine(op, t, q2 + [s]) && Dups1(op, t, q1, q2 + [s]).count == 0
  {
    CursorExtend(op, t, q2, L);
    CursorExtend(op, t, q2, R);
    Dups1Progress(op, t, q1, q2 + [L]);
    if s == L { assert q2 + [s] == q2 + [L]; } else { assert q2 + [s] == q2 + [R]; }
  }

  /** Where a pass from q1 and q2 counts nothing, no operand below q1 can be joined with another
      below q2, and the passes inside the operands below q1 count nothing either. */
  lemma {:induction false} NothingJoined(op: Op, t: Expr, q1: Cursor, q2: Cursor, p1: Cursor, p2: Cursor)
    requires OnSpine(op, t, q1) && OnSpine(op, t, q2) && Dups1(op, t, q1, q2).count == 0
    requires IsOperand(op, t, q1 + p1) && IsOperand(op, t, q2 + p2) && q1 + p1 != q2 + p2
    ensures Join(op, At(op, t, q1 + p1), At(op, t, q2 + p2)).None?
    ensures OnePass(At(op, t, q1 + p1)).count == 0
    decreases |p1| + |p2|
  {
    if IsOp(op, At(op, t, q1)) {
      Descend(op, t, q1, p1);
      SilentBelow(op, t, q1, q2, p1[0]);
      NothingJoined(op, t, q1 + [p1[0]], q2, p1[1..], p2);
    } else {
      StopAtOperand(op, t, q1, p1);
      assert q1 + p1 == q1;
      NothingJoinedWith(op, t, q1, q2, p2);
    }
  }

  lemma {:induction false} NothingJoinedWith(op: Op, t: Expr, q1: Cursor, q2: Cursor, p2: Cursor)
    requires IsOperand(op, t, q1) && OnSpine(op, t, q2) && Dups1(op, t, q1, q2).count == 0
    requires IsOperand(op, t, q2 + p2) && q1 != q2 + p2
    ensures Join(op, At(op, t, q1), At(op, t, q2 + p2)).None?
    ensures OnePass(At(op, t, q1)).count == 0
    decreases |p2|
  {
    if IsOp(op, At(op, t, q2)) {
      Descend(op, t, q2, p2);
      SilentBelowSecond(op, t, q1, q2, p2[0]);
      NothingJoinedWith(op, t, q1, q2 + [p2[0]], p2[1..]);
    } else {
      StopAtOperand(op, t, q2, p2);
      assert q2 + p2 == q2;
      var e1 := At(op, t, q1);
      if e1.Bin? { Dups1Progress(e1.op, e1, [], []); }
      PutElsewhere(op, t, q1, q2, At(op, t, q2));
      JoinAtCounts(op, t, q1, q2, OnePass(e1));
    }
  }

  /** Of any two operands of one && or ||, at any depth, neither is equal to the other by expr_eq nor
      redundant beside it. */
  ghost predicate DupFree(e: Expr)
    decreases Size(e)
  {
    e.Bin? ==>
      && (forall p, q :: IsOperand(e.op, e, p) && IsOperand(e.op, e, q) && p != q ==> OperandsDiffer(e, p, q))
      && (forall p :: IsOperand(e.op, e, p) ==> DupFree(At(e.op, e, p)))
  }

  predicate OperandsDiffer(e: Expr, p: Cursor, q: Cursor)
    requires e.Bin? && IsOperand(e.op, e, p) && IsOperand(e.op, e, q)
  {
    var x, y := At(e.op, e, p), At(e.op, e, q);
    !Same(x, y) && !Redundant(e.op, x, y)
  }

  lemma OperandsJoinless(e: Expr, p: Cursor, q: Cursor)
    requires e.Bin? && OnePass(e).count == 0 && IsOperand(e.op, e, p) && IsOperand(e.op, e, q) && p != q
    ensures OperandsDiffer(e, p, q) && OnePass(At(e.op, e, p)).count == 0
  {
    var x, y := At(e.op, e, p), At(e.op, e, q);
    assert [] + p == p && [] + q == q;
    NothingJoined(e.op, e, [], [], p, q);
    if Same(x, y) || Redundant(e.op, x, y) { JoinComplete(e.op, x, y); }
  }

  /** There is another operand beside any. */
  lemma {:induction false} AnotherOperand(op: Op, t: Expr, p: Cursor) returns (q: Cursor)
    requires IsOp(op, t) && IsOperand(op, t, p)
    ensures IsOperand(op, t, q) && p != q
  {
    var s := if p[0] == L then R else L;
    q := FirstOperand(op, Child(t, s));
    assert ([s] + q)[1..] == q;
    q := [s] + q;
  }

  lemma {:induction false} FirstOperand(op: Op, t: Expr) returns (q: Cursor)
    ensures IsOperand(op, t, q)
  {
    q := [];
    if IsOp(op, t) {
      q := FirstOperand(op, t.left);
      assert ([L] + q)[1..] == q;
      q := [L] + q;
    }
  }

  lemma {:induction false} SilentPassDupFree(e: Expr)
    requires OnePass(e).count == 0
    ensures DupFree(e)
    decreases Size(e)
  {
    if e.Bin? {
      forall p, q | IsOperand(e.op, e, p) && IsOperand(e.op, e, q) && p != q ensures OperandsDiffer(e, p, q) {
        OperandsJoinless(e, p, q);
      }
      forall p | IsOperand(e.op, e, p) ensures DupFree(At(e.op, e, p)) {
        var q := AnotherOperand(e.op, e, p);
        OperandsJoinless(e, p, q);
        SilentPassDupFree(At(e.op, e, p));
      }
    }
  }

  /** expr_eliminate_dups leaves no duplicate and no listed redundancy. */
  lemma EliminateDupsDupFree(e: Expr)
    ensures DupFree(EliminateDups(e))
  {
    EliminateDupsIdempotent(e);
    SilentPassDupFree(EliminateDups(e));
  }

  /** Every operand is somewhere on the spine. */
  lemma {:induction false} OperandAt(op: Op, e: Expr, x: Expr) returns (q: Cursor)
    requires x in Content(op, e)
    ensures IsOperand(op, e, q) && At(op, e, q) == x
  {
    q := [];
    if IsOp(op, e) {
      var s := if x in Content(op, e.left) then L else R;
      q := OperandAt(op, Child(e, s), x);
      assert ([s] + q)[1..] == q;
      q := [s] + q;
    }
  }

  /** Without duplicates, operands that expr_eq calls equal are the same. */
  lemma DupFreeTold(e: Expr, a: multiset<Expr>)
    requires e.Bin? && DupFree(e) && a <= Content(e.op, e)
    ensures Told(Content(e.op, e), a)
  {
    forall x, y | x in Content(e.op, e) && y in a && Same(x, y) ensures x == y {
      var p := OperandAt(e.op, e, x);
      var q := OperandAt(e.op, e, y);
      assert p != q ==> OperandsDiffer(e, p, q);
    }
  }

  /** In particular a repeated expression is reduced to one of its copies. */
  lemma NoOperandTwice(e: Expr, p: Cursor, q: Cursor)
    requires var r := EliminateDups(e); r.Bin? && IsOperand(r.op, r, p) && IsOperand(r.op, r, q) && p != q
    ensures var r := EliminateDups(e); At(r.op, r, p) != At(r.op, r, q)
  {
    var r := EliminateDups(e);
    EliminateDupsDupFree(e);
    assert OperandsDiffer(r, p, q);
    SameReflexive(At(r.op, r, p));
  }

  /** The static state of kconf/expr.c. */
  class Simplifier {
    var transCount: nat

    constructor ()
      ensures transCount == 0
    {
      transCount := 0;
    }

    /** One expr_eliminate_dups1 call from the top, adding to trans_count. */
    method CountedPass(e: Expr) returns (r: Expr)
      modifies this
      ensures r == OnePass(e).tree && transCount == old(transCount) + OnePass(e).count
    {
      var p := OnePass(e);
      transCount := transCount + p.count;
      r := p.tree;
    }

    /** expr_eliminate_dups: the loop ends because every productive pass followed by
        expr_eliminate_yn leaves fewer nodes; the caller's count is put back. */
    method EliminateDupsLoop(e0: Expr) returns (e: Expr)
      modifies this
      ensures e == EliminateDups(e0)
      ensures transCount == old(transCount)
    {
      e := e0;
      var oldcount := transCount;
      while true
        invariant EliminateDups(e) == EliminateDups(e0)
        decreases Size(e)
      {
        OnePassProgress(e);
        transCount := 0;
        e := CountedPass(e);
        if transCount == 0 { break; }
        e := EliminateYn(e);
      }
      transCount := oldcount;
    }
  }
}

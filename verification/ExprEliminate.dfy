/** expr_eliminate_yn, expr_eq and expr_eliminate_eq (kconf/expr.c). */
module ExprEliminate {
  import opened KconfigExpr

  predicate IsOp(op: Op, e: Expr) { e.Bin? && e.op == op }

  // ---------- expr_eliminate_yn ----------

  /** expr_eliminate_yn. */
  function EliminateYn(e: Expr): (r: Expr)
    ensures Size(r) <= Size(e)
  {
    match e
    case Bin(op, l, r) =>
      var a, b := EliminateYn(l), EliminateYn(r);
      if a == Symbol(ZeroSym(op)) then a
      else if a == Symbol(UnitSym(op)) then b
      else if b == Symbol(ZeroSym(op)) then b
      else if b == Symbol(UnitSym(op)) then a
      else Bin(op, a, b)
    case _ => e
  }

  lemma {:induction false} EliminateYnKeepsValue(env: Env, e: Expr)
    requires GoodEnv(env)
    ensures Val(env, EliminateYn(e)) == Val(env, e)
    ensures Typed(env, e) ==> Typed(env, EliminateYn(e))
  {
    match e
    case Bin(op, l, r) =>
      EliminateYnKeepsValue(env, l);
      EliminateYnKeepsValue(env, r);
      assert env.tri(SYM_NO) == NO && env.tri(SYM_YES) == YES;
    case _ =>
  }

  /** No && or || keeps an operand y or n. */
  predicate YnFree(e: Expr) {
    e.Bin? ==>
      && YnFree(e.left) && YnFree(e.right)
      && e.left !in {Symbol(SYM_YES), Symbol(SYM_NO)} && e.right !in {Symbol(SYM_YES), Symbol(SYM_NO)}
  }

  lemma {:induction false} EliminateYnIsYnFree(e: Expr)
    ensures YnFree(EliminateYn(e))
  {
    if e.Bin? { EliminateYnIsYnFree(e.left); EliminateYnIsYnFree(e.right); }
  }

  /** Some && has an operand y, or some || an operand n. */
  predicate HasUnit(e: Expr) {
    e.Bin? &&
    (|| e.left == Symbol(UnitSym(e.op)) || e.right == Symbol(UnitSym(e.op))
     || HasUnit(e.left) || HasUnit(e.right))
  }

  lemma {:induction false} EliminateYnShrinks(e: Expr)
    requires HasUnit(e)
    ensures Size(EliminateYn(e)) < Size(e)
  {
    if HasUnit(e.left) { EliminateYnShrinks(e.left); }
    if HasUnit(e.right) { EliminateYnShrinks(e.right); }
  }

  // ---------- expr_eq, expr_eliminate_eq ----------

  datatype Pair = Pair(fst: Expr, snd: Expr)

  /** expr_eq. */
  predicate Same(e1: Expr, e2: Expr)
    decreases Size(e1) + Size(e2), 3
  {
    match (e1, e2)
    case (Symbol(a), Symbol(b)) => a == b
    case (Compare(c, a, b), Compare(d, x, y)) => c == d && a == x && b == y
    case (Not(a), Not(b)) => Same(a, b)
    case (Bin(op, _, _), Bin(oq, _, _)) =>
      op == oq &&
      var p := EliminateEq(e1, e2);
      p.fst.Symbol? && p.fst == p.snd
    case _ => false
  }

  /** __expr_eliminate_eq: strips operands of `op` found in both trees. */
  function StripEq(op: Op, e1: Expr, e2: Expr): (p: Pair)
    ensures Size(p.fst) <= Size(e1) && Size(p.snd) <= Size(e2)
    ensures IsOp(op, e1) ==> IsOp(op, p.fst)
    ensures IsOp(op, e2) ==> IsOp(op, p.snd)
    ensures !IsOp(op, e1) ==> p.fst in {e1, Symbol(UnitSym(op))}
    ensures !IsOp(op, e2) ==> p.snd in {e2, Symbol(UnitSym(op))}
    decreases Size(e1) + Size(e2), if IsOp(op, e1) || IsOp(op, e2) then 0 else 4
  {
    if IsOp(op, e1) then
      var p := StripEq(op, e1.left, e2);
      var q := StripEq(op, e1.right, p.snd);
      Pair(Bin(op, p.fst, q.fst), q.snd)
    else if IsOp(op, e2) then
      var p := StripEq(op, e1, e2.left);
      var q := StripEq(op, p.fst, e2.right);
      Pair(q.fst, Bin(op, p.snd, q.snd))
    else if e1 == e2 && e1 in {Symbol(SYM_YES), Symbol(SYM_NO)} then Pair(e1, e2)
    else if !Same(e1, e2) then Pair(e1, e2)
    else Pair(Symbol(UnitSym(op)), Symbol(UnitSym(op)))
  }

  /** The rewriting part of expr_eliminate_eq: by the operator of the first tree, then by
      that of the second if it is another one. */
  function StripBoth(e1: Expr, e2: Expr): (p: Pair)
    ensures Size(p.fst) <= Size(e1) && Size(p.snd) <= Size(e2)
    decreases Size(e1) + Size(e2), 1
  {
    var p := if e1.Bin? then StripEq(e1.op, e1, e2) else Pair(e1, e2);
    if p.snd.Bin? && !IsOp(p.snd.op, p.fst) then StripEq(p.snd.op, p.fst, p.snd) else p
  }

  /** expr_eliminate_eq. */
  function EliminateEq(e1: Expr, e2: Expr): (p: Pair)
    decreases Size(e1) + Size(e2), 2
  {
    var p := StripBoth(e1, e2);
    Pair(EliminateYn(p.fst), EliminateYn(p.snd))
  }

  /** Both values are `op`-combinations of one common value f with what is left. */
  predicate CommonFactor(op: Op, f: Tri, v1: Tri, v2: Tri, w1: Tri, w2: Tri) {
    v1 == TriOp(op, f, w1) && v2 == TriOp(op, f, w2)
  }

  /** What expr_eliminate_eq takes away is one common operand f of `op`, then at most one
      common operand g of the other operator. */
  predicate Stripped(op: Op, f: Tri, g: Tri, v1: Tri, v2: Tri, w1: Tri, w2: Tri) {
    && v1 == TriOp(op, f, TriOp(Dual(op), g, w1))
    && v2 == TriOp(op, f, TriOp(Dual(op), g, w2))
  }

  /** Factors taken from the two operands of a tree, one after the other. */
  lemma FactorsCombine(op: Op, f1: Tri, f2: Tri, l: Tri, r: Tri, v: Tri, l': Tri, r': Tri, v': Tri, v'': Tri)
    requires CommonFactor(op, f1, l, v, l', v') && CommonFactor(op, f2, r, v', r', v'')
    ensures CommonFactor(op, TriOp(op, f1, f2), TriOp(op, l, r), v, TriOp(op, l', r'), v'')
  {
  }

  /** __expr_eliminate_eq only takes away a common operand. */
  lemma {:induction false} StripEqSound(env: Env, op: Op, e1: Expr, e2: Expr) returns (f: Tri)
    requires GoodEnv(env)
    ensures var p := StripEq(op, e1, e2);
      CommonFactor(op, f, Val(env, e1), Val(env, e2), Val(env, p.fst), Val(env, p.snd))
    decreases Size(e1) + Size(e2), if IsOp(op, e1) || IsOp(op, e2) then 0 else 4
  {
    assert env.tri(SYM_NO) == NO && env.tri(SYM_YES) == YES;
    if IsOp(op, e1) {
      var p := StripEq(op, e1.left, e2);
      var f1 := StripEqSound(env, op, e1.left, e2);
      var f2 := StripEqSound(env, op, e1.right, p.snd);
      var q := StripEq(op, e1.right, p.snd);
      FactorsCombine(op, f1, f2, Val(env, e1.left), Val(env, e1.right), Val(env, e2),
                     Val(env, p.fst), Val(env, q.fst), Val(env, p.snd), Val(env, q.snd));
      f := TriOp(op, f1, f2);
    } else if IsOp(op, e2) {
      var p := StripEq(op, e1, e2.left);
      var f1 := StripEqSound(env, op, e1, e2.left);
      var f2 := StripEqSound(env, op, p.fst, e2.right);
      var q := StripEq(op, p.fst, e2.right);
      FactorsCombine(op, f1, f2, Val(env, e2.left), Val(env, e2.right), Val(env, e1),
                     Val(env, p.snd), Val(env, q.snd), Val(env, p.fst), Val(env, q.fst));
      f := TriOp(op, f1, f2);
    } else if StripEq(op, e1, e2) == Pair(e1, e2) {
      f := if op == And then YES else NO;
    } else {
      SameSound(env, e1, e2);
      f := Val(env, e1);
    }
  }

  /** expr_eliminate_eq only strips common && and || operands. */
  lemma {:induction false} EliminateEqSound(env: Env, e1: Expr, e2: Expr) returns (op: Op, f: Tri, g: Tri)
    requires GoodEnv(env)
    ensures var p := EliminateEq(e1, e2);
      Stripped(op, f, g, Val(env, e1), Val(env, e2), Val(env, p.fst), Val(env, p.snd))
    ensures IsOp(And, e1) && IsOp(And, e2) ==> op == And && g == NO
    ensures IsOp(Or, e1) && IsOp(Or, e2) ==> op == Or && g == YES
    decreases Size(e1) + Size(e2), 2
  {
    var p := if e1.Bin? then StripEq(e1.op, e1, e2) else Pair(e1, e2);
    var q := StripBoth(e1, e2);
    EliminateYnKeepsValue(env, q.fst);
    EliminateYnKeepsValue(env, q.snd);
    op := if e1.Bin? then e1.op else if p.snd.Bin? then Dual(p.snd.op) else And;
    f := if op == And then YES else NO;
    g := if op == And then NO else YES;
    if e1.Bin? { f := StripEqSound(env, op, e1, e2); }
    if p.snd.Bin? && !IsOp(p.snd.op, p.fst) {
      g := StripEqSound(env, p.snd.op, p.fst, p.snd);
    }
  }

  /** expr_eq: expressions it calls equal have equal values under every valuation. */
  lemma {:induction false} SameSound(env: Env, e1: Expr, e2: Expr)
    requires GoodEnv(env) && Same(e1, e2)
    ensures Val(env, e1) == Val(env, e2)
    decreases Size(e1) + Size(e2), 3
  {
    match e1
    case Not(a) => SameSound(env, a, e2.arg);
    case Bin(_, _, _) => var _, _, _ := EliminateEqSound(env, e1, e2);
    case _ =>
  }

  /** If everything is stripped from the second expression, the first never exceeds it:
      the test by which an item is put below a symbol. */
  lemma SupersetBelow(env: Env, dep: Expr, base: Expr)
    requires GoodEnv(env)
    requires EliminateEq(dep, base).snd == Symbol(SYM_YES)
    ensures Val(env, dep) <= Val(env, base)
  {
    var op, f, g := EliminateEqSound(env, dep, base);
    assert env.tri(SYM_YES) == YES;
  }

  // ---------- what is found equal ----------

  predicate IsYn(e: Expr) { e == Symbol(SYM_YES) || e == Symbol(SYM_NO) }

  /** The tree with every operand of `op` taken away, except y and n. */
  function Emptied(op: Op, e: Expr): Expr {
    if IsOp(op, e) then Bin(op, Emptied(op, e.left), Emptied(op, e.right))
    else if IsYn(e) then e else Symbol(UnitSym(op))
  }

  /** All operands of `op` are y or n. */
  predicate AllYn(op: Op, e: Expr) {
    if IsOp(op, e) then AllYn(op, e.left) && AllYn(op, e.right) else IsYn(e)
  }

  lemma {:induction false} EmptiedYn(op: Op, e: Expr)
    ensures AllYn(op, Emptied(op, e))
  {
    if IsOp(op, e) { EmptiedYn(op, e.left); EmptiedYn(op, e.right); }
  }

  /** What is y or n takes nothing away, and nothing takes it away. */
  lemma {:induction false} StripYn(op: Op, x: Expr, e: Expr)
    requires !IsOp(op, x) && (IsYn(x) || AllYn(op, e))
    ensures StripEq(op, x, e) == Pair(x, e)
  {
    if IsOp(op, e) {
      StripYn(op, x, e.left);
      StripYn(op, x, e.right);
    }
  }

  /** The second tree while the first, equal one is being stripped: what comes before the place q
      is emptied, and at q is x. */
  predicate EmptiedUpTo(op: Op, t: Expr, q: seq<bool>, x: Expr) {
    if q == [] then t == x
    else if !IsOp(op, t) then false
    else if q[0] then AllYn(op, t.left) && EmptiedUpTo(op, t.right, q[1..], x)
    else EmptiedUpTo(op, t.left, q[1..], x)
  }

  /** The tree with what is at q replaced. */
  function Replaced(op: Op, t: Expr, q: seq<bool>, x: Expr): Expr {
    if q == [] || !IsOp(op, t) then x
    else if q[0] then Bin(op, t.left, Replaced(op, t.right, q[1..], x))
    else Bin(op, Replaced(op, t.left, q[1..], x), t.right)
  }

  lemma {:induction false} ReplacedParts(op: Op, t: Expr, q: seq<bool>, l: Expr, r: Expr, l': Expr, r': Expr)
    requires EmptiedUpTo(op, t, q, Bin(op, l, r)) && AllYn(op, l')
    ensures EmptiedUpTo(op, t, q + [false], l)
    ensures var t1 := Replaced(op, t, q + [false], l');
      EmptiedUpTo(op, t1, q + [true], r) && Replaced(op, t1, q + [true], r') == Replaced(op, t, q, Bin(op, l', r'))
  {
    if q == [] {
      assert ([] + [false])[1..] == [] && ([] + [true])[1..] == [];
    } else {
      assert (q + [false])[1..] == q[1..] + [false] && (q + [true])[1..] == q[1..] + [true];
      ReplacedParts(op, if q[0] then t.right else t.left, q[1..], l, r, l', r');
    }
  }

  /** One operand finds itself. */
  lemma {:induction false} StripOperand(op: Op, x: Expr, t: Expr, q: seq<bool>)
    requires !IsOp(op, x) && Same(x, x) && EmptiedUpTo(op, t, q, x)
    ensures StripEq(op, x, t) == Pair(Emptied(op, x), Replaced(op, t, q, Emptied(op, x)))
    decreases |q|
  {
    if q != [] {
      if q[0] {
        StripYn(op, x, t.left);
        StripOperand(op, x, t.right, q[1..]);
      } else {
        StripOperand(op, x, t.left, q[1..]);
        StripYn(op, Emptied(op, x), t.right);
      }
    }
  }

  /** Each operand of an expression finds itself in an equal expression. */
  lemma {:induction false} StripSelf(op: Op, x: Expr, t: Expr, q: seq<bool>)
    requires EmptiedUpTo(op, t, q, x)
    ensures StripEq(op, x, t) == Pair(Emptied(op, x), Replaced(op, t, q, Emptied(op, x)))
    decreases Size(x), 1
  {
    if IsOp(op, x) {
      var l', r' := Emptied(op, x.left), Emptied(op, x.right);
      EmptiedYn(op, x.left);
      ReplacedParts(op, t, q, x.left, x.right, l', r');
      StripSelf(op, x.left, t, q + [false]);
      StripSelf(op, x.right, Replaced(op, t, q + [false], l'), q + [true]);
    } else {
      SameReflexive(x);
      StripOperand(op, x, t, q);
    }
  }

  /** An && or || of y and n only becomes y or n. */
  lemma {:induction false} AllYnReduced(op: Op, e: Expr)
    requires AllYn(op, e)
    ensures IsYn(EliminateYn(e))
  {
    if IsOp(op, e) { AllYnReduced(op, e.left); AllYnReduced(op, e.right); }
  }

  /** expr_eq finds every expression equal to itself. */
  lemma {:induction false} SameReflexive(e: Expr)
    ensures Same(e, e)
    decreases Size(e), 0
  {
    match e
    case Not(a) => SameReflexive(a);
    case Bin(op, l, r) =>
      SelfStripped(op, l, r);
      EmptiedYn(op, e);
      AllYnReduced(op, Emptied(op, e));
    case _ =>
  }

  lemma {:induction false} SelfStripped(op: Op, l: Expr, r: Expr)
    ensures var e := Bin(op, l, r); StripEq(op, e, e) == Pair(Emptied(op, e), Emptied(op, e))
    decreases Size(l) + Size(r), 2
  {
    var e := Bin(op, l, r);
    var l', r' := Emptied(op, l), Emptied(op, r);
    EmptiedYn(op, l);
    assert [] + [false] == [false] && [] + [true] == [true];
    ReplacedParts(op, e, [], l, r, l', r');
    StripSelf(op, l, e, [false]);
    StripSelf(op, r, Replaced(op, e, [false], l'), [true]);
  }

  // ---------- operands as multisets ----------

  /** The operands of `op`, apart from y and n. */
  function Content(op: Op, e: Expr): multiset<Expr> {
    if IsOp(op, e) then Content(op, e.left) + Content(op, e.right)
    else if IsYn(e) then multiset{} else multiset{e}
  }

  /** Some operand of && is n, or of || is y. */
  predicate HasZero(op: Op, e: Expr) {
    if IsOp(op, e) then HasZero(op, e.left) || HasZero(op, e.right) else e == Symbol(ZeroSym(op))
  }

  /** expr_eq tells the operands of the two expressions apart. */
  ghost predicate Told(a: multiset<Expr>, b: multiset<Expr>) {
    forall x, y :: x in a && y in b && Same(x, y) ==> x == y
  }

  lemma DifferenceLeft(a1: multiset<Expr>, a2: multiset<Expr>, b: multiset<Expr>)
    ensures (a1 - b) + (a2 - (b - a1)) == (a1 + a2) - b
    ensures (b - a1) - a2 == b - (a1 + a2)
  {
  }

  /** From each expression exactly the operands of the other are taken, as often as they occur. */
  predicate IsDifference(op: Op, e1: Expr, e2: Expr, p: Pair) {
    && Content(op, p.fst) == Content(op, e1) - Content(op, e2)
    && Content(op, p.snd) == Content(op, e2) - Content(op, e1)
    && HasZero(op, p.fst) == HasZero(op, e1) && HasZero(op, p.snd) == HasZero(op, e2)
  }

  lemma DifferenceInFirst(op: Op, l: Expr, r: Expr, e: Expr, p: Pair, q: Pair)
    requires IsDifference(op, l, e, p) && IsDifference(op, r, p.snd, q)
    ensures IsDifference(op, Bin(op, l, r), e, Pair(Bin(op, p.fst, q.fst), q.snd))
  {
    DifferenceLeft(Content(op, l), Content(op, r), Content(op, e));
  }

  lemma DifferenceInSecond(op: Op, l: Expr, r: Expr, e: Expr, p: Pair, q: Pair)
    requires IsDifference(op, e, l, p) && IsDifference(op, p.fst, r, q)
    ensures IsDifference(op, e, Bin(op, l, r), Pair(q.fst, Bin(op, p.snd, q.snd)))
  {
    DifferenceLeft(Content(op, l), Content(op, r), Content(op, e));
  }

  lemma OperandDifference(op: Op, x: Expr, y: Expr)
    requires !IsOp(op, x) && !IsOp(op, y) && Told(Content(op, x), Content(op, y))
    ensures IsDifference(op, x, y, StripEq(op, x, y))
  {
    if IsYn(x) || IsYn(y) {
      StripYn(op, x, y);
    } else if Same(x, y) {
      assert x in Content(op, x) && y in Content(op, y);
      assert StripEq(op, x, y) == Pair(Symbol(UnitSym(op)), Symbol(UnitSym(op)));
    } else {
      SameReflexive(x);
      assert StripEq(op, x, y) == Pair(x, y);
    }
  }

  /** __expr_eliminate_eq takes the operands of each expression away from the other, in whatever
      order and nesting they are. */
  lemma {:induction false} StripIsDifference(op: Op, e1: Expr, e2: Expr)
    requires Told(Content(op, e1), Content(op, e2))
    ensures IsDifference(op, e1, e2, StripEq(op, e1, e2))
    decreases Size(e1) + Size(e2)
  {
    if IsOp(op, e1) {
      var p := StripEq(op, e1.left, e2);
      StripIsDifference(op, e1.left, e2);
      StripIsDifference(op, e1.right, p.snd);
      DifferenceInFirst(op, e1.left, e1.right, e2, p, StripEq(op, e1.right, p.snd));
    } else if IsOp(op, e2) {
      var p := StripEq(op, e1, e2.left);
      StripIsDifference(op, e1, e2.left);
      StripIsDifference(op, p.fst, e2.right);
      DifferenceInSecond(op, e2.left, e2.right, e1, p, StripEq(op, p.fst, e2.right));
    } else {
      OperandDifference(op, e1, e2);
    }
  }

  lemma {:induction false} NothingLeft(op: Op, e: Expr)
    requires Content(op, e) == multiset{}
    ensures EliminateYn(e) == Symbol(if HasZero(op, e) then ZeroSym(op) else UnitSym(op))
  {
    if IsOp(op, e) {
      assert Content(op, e.left) == multiset{} && Content(op, e.right) == multiset{};
      NothingLeft(op, e.left);
      NothingLeft(op, e.right);
    } else {
      assert !IsYn(e) ==> e in Content(op, e);
    }
  }

  /** expr_eq does not mind order, nesting or repeated y and n: two && with the same operands are
      equal, and so are two ||. */
  lemma SameUpToOrder(e1: Expr, e2: Expr)
    requires e1.Bin? && e2.Bin? && e1.op == e2.op && HasZero(e1.op, e1) == HasZero(e1.op, e2)
    requires Content(e1.op, e1) == Content(e1.op, e2) && Told(Content(e1.op, e1), Content(e1.op, e2))
    ensures Same(e1, e2)
  {
    var op := e1.op;
    StripIsDifference(op, e1, e2);
    var p := StripEq(op, e1, e2);
    NothingLeft(op, p.fst);
    NothingLeft(op, p.snd);
  }

  /** If every operand of an && is one of dep, apart from y, expr_eliminate_eq reduces it to y. */
  lemma SupersetReduced(dep: Expr, base: Expr)
    requires IsOp(And, dep) && !HasZero(And, base) && Content(And, base) <= Content(And, dep)
    requires Told(Content(And, dep), Content(And, base))
    ensures EliminateEq(dep, base).snd == Symbol(SYM_YES)
  {
    StripIsDifference(And, dep, base);
    var p := StripEq(And, dep, base);
    assert Content(And, p.snd) == multiset{};
    NothingLeft(And, p.snd);
    assert IsOp(Or, p.snd) ==> p.snd in Content(And, p.snd);
  }

  /** An expression that is an operand of the other one is taken away as a whole. */
  lemma OperandReduced(e1: Expr, e2: Expr)
    requires e2.Bin? && !IsOp(e2.op, e1) && !IsYn(e1) && e1 in Content(e2.op, e2)
    requires Told(multiset{e1}, Content(e2.op, e2))
    requires e1.Bin? ==> e2 !in Content(e1.op, e1) && Told(Content(e1.op, e1), multiset{e2})
    ensures EliminateEq(e1, e2).fst == Symbol(UnitSym(e2.op))
  {
    if e1.Bin? { StrippedByNone(e1.op, e1, e2); }
    var p := StripEq(e2.op, e1, e2);
    StripIsDifference(e2.op, e1, e2);
    assert Content(e2.op, p.fst) == multiset{};
    NothingLeft(e2.op, p.fst);
  }

  /** Nothing is taken away where nothing is equal. */
  lemma {:induction false} StrippedByNone(op: Op, e: Expr, x: Expr)
    requires !IsOp(op, x) && x !in Content(op, e) && Told(Content(op, e), multiset{x}) && !IsYn(x)
    ensures StripEq(op, e, x) == Pair(e, x)
  {
    if IsOp(op, e) {
      StrippedByNone(op, e.left, x);
      StrippedByNone(op, e.right, x);
    } else if IsYn(e) {
      StripYn(op, e, x);
    } else {
      assert e in Content(op, e) && x in multiset{x};
    }
  }

  lemma {:induction false} YnStays(op: Op, e: Expr, y: Expr)
    requires IsYn(y)
    ensures StripEq(op, e, y).snd == y
  {
    if IsOp(op, e) {
      YnStays(op, e.left, y);
      YnStays(op, e.right, y);
    }
  }

  /** Nothing changes a y. */
  lemma YesReduced(e: Expr)
    ensures EliminateEq(e, Symbol(SYM_YES)).snd == Symbol(SYM_YES)
  {
    if e.Bin? { YnStays(e.op, e, Symbol(SYM_YES)); }
  }

  /** expr_depends_symbol says yes exactly if one of the operands of && is the symbol, or a test for
      y, for m, or against n. */
  lemma {:induction false} DependsExactly(e: Expr, s: Sym)
    requires !IsYn(Symbol(s))
    ensures Depends(e, s) <==>
      || Symbol(s) in Content(And, e) || Compare(Eq, s, SYM_YES) in Content(And, e)
      || Compare(Eq, s, SYM_MOD) in Content(And, e) || Compare(Ne, s, SYM_NO) in Content(And, e)
    ensures Depends(e, s) ==> Contains(e, s)
  {
    if IsOp(And, e) {
      DependsExactly(e.left, s);
      DependsExactly(e.right, s);
    }
  }

  /** Symbols and comparisons, negated or not, are equal only to themselves. */
  predicate Literal(e: Expr) { e.Symbol? || e.Compare? || (e.Not? && Literal(e.arg)) }

  lemma {:induction false} LiteralSame(x: Expr, y: Expr)
    requires Literal(x) && Same(x, y)
    ensures x == y
  {
    if x.Not? { LiteralSame(x.arg, y.arg); }
  }
}

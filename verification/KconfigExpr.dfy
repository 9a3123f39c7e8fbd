/** Kconfig dependency expressions and their three-valued meaning
    (kconf/expr.h, expr_calc_value in kconf/expr.c). */
module KconfigExpr {

  /** n < m < y, encoded as in the C enum. */
  type Tri = x: int | 0 <= x <= 2
  const NO: Tri := 0
  const MOD: Tri := 1
  const YES: Tri := 2

  datatype Option<+T> = None | Some(value: T)

  datatype SymType = Unknown | Boolean | Tristate | IntType | Hex | Str | Other

  /** A symbol's identity: a constant is found by its name, so symbol_yes is Const("y"). */
  datatype Sym = Const(name: string) | Config(id: nat, ty: SymType)

  function TypeOf(s: Sym): SymType { if s.Const? then Unknown else s.ty }

  predicate IsTriSym(s: Sym) { TypeOf(s) == Boolean || TypeOf(s) == Tristate }

  const SYM_NO := Const("n")
  const SYM_MOD := Const("m")
  const SYM_YES := Const("y")

  predicate IsYmn(s: Sym) { s == SYM_NO || s == SYM_MOD || s == SYM_YES }

  datatype Op = And | Or

  datatype Cmp = Eq | Ne | Lt | Le | Gt | Ge

  datatype Expr =
    | Symbol(sym: Sym)
    | Not(arg: Expr)
    | Bin(op: Op, left: Expr, right: Expr)
    | Compare(cmp: Cmp, lhs: Sym, rhs: Sym)

  function Size(e: Expr): (n: nat)
    ensures n >= 1
  {
    match e
    case Symbol(_) => 1
    case Compare(_, _, _) => 1
    case Not(a) => 1 + Size(a)
    case Bin(_, l, r) => 1 + Size(l) + Size(r)
  }

  // ---------- three-valued operators ----------

  function TriOp(op: Op, a: Tri, b: Tri): Tri {
    match op
    case And => if a < b then a else b
    case Or => if a > b then a else b
  }

  function TriNot(a: Tri): Tri { 2 - a }

  function Dual(op: Op): Op { if op == And then Or else And }

  /** The neutral operand of an operator: y for &&, n for ||. */
  function UnitSym(op: Op): Sym { if op == And then SYM_YES else SYM_NO }

  /** The absorbing operand of an operator: n for &&, y for ||. */
  function ZeroSym(op: Op): Sym { if op == And then SYM_NO else SYM_YES }

  // ---------- symbol values ----------

  /** What expr_parse_string makes of a text. Signed values stand for long long,
      unsigned ones for unsigned long long. */
  datatype Parsed = KString | KSigned(s: int) | KUnsigned(u: int) | KInvalid

  /** The values of all symbols, and the outcome of libc's strtoll/strtoull on a text
      for the symbol types that are parsed by them. */
  datatype Env = Env(tri: Sym -> Tri, text: Sym -> string, strto: (string, SymType) -> Parsed)

  function TriText(t: Tri): string {
    if t == NO then "n" else if t == MOD then "m" else "y"
  }

  function ParseString(env: Env, str: string, ty: SymType): Parsed {
    match ty
    case Boolean => KSigned(if str == "n" then 0 else if str == "m" then 1 else if str == "y" then 2 else -1)
    case Tristate => KSigned(if str == "n" then 0 else if str == "m" then 1 else if str == "y" then 2 else -1)
    case Other => KInvalid
    case _ => env.strto(str, ty)
  }

  /** The bits of a parsed number read as an unsigned 64-bit value. */
  function AsUnsigned(p: Parsed): int {
    match p
    case KSigned(s) => s % 0x1_0000_0000_0000_0000
    case KUnsigned(u) => u
    case _ => 0
  }

  function Sign(a: int, b: int): int { if a > b then 1 else if a < b then -1 else 0 }

  function StrCmp(a: string, b: string): (r: int)
    ensures r == 0 <==> a == b
  {
    if a == [] then (if b == [] then 0 else -1)
    else if b == [] then 1
    else if a[0] != b[0] then (if a[0] < b[0] then -1 else 1)
    else
      assert a == [a[0]] + a[1..] && b == [b[0]] + b[1..];
      StrCmp(a[1..], b[1..])
  }

  /** The three-way result a comparison is decided on; None where the source gives up
      with "Cannot compare" for an ordering operator. */
  function Relate(env: Env, a: Sym, b: Sym): (Option<int>, int) {
    var s1, s2 := env.text(a), env.text(b);
    var bothStr := TypeOf(a) == Str && TypeOf(b) == Str;
    var k1 := if bothStr then KString else ParseString(env, s1, TypeOf(a));
    var k2 := if bothStr then KString else ParseString(env, s2, TypeOf(b));
    if k1.KString? || k2.KString? then (Some(StrCmp(s1, s2)), StrCmp(s1, s2))
    else if k1.KInvalid? || k2.KInvalid? then (None, StrCmp(s1, s2))
    else if k1.KUnsigned? || k2.KUnsigned? then
      var r := Sign(AsUnsigned(k1), AsUnsigned(k2)); (Some(r), r)
    else var r := Sign(k1.s, k2.s); (Some(r), r)
  }

  function TriBool(b: bool): Tri { if b then YES else NO }

  function CompareVal(env: Env, c: Cmp, a: Sym, b: Sym): Tri {
    var (ordered, res) := Relate(env, a, b);
    match c
    case Eq => TriBool(res == 0)
    case Ne => TriBool(res != 0)
    case Lt => TriBool(ordered.Some? && res < 0)
    case Le => TriBool(ordered.Some? && res <= 0)
    case Gt => TriBool(ordered.Some? && res > 0)
    case Ge => TriBool(ordered.Some? && res >= 0)
  }

  /** expr_calc_value. */
  function Val(env: Env, e: Expr): Tri {
    match e
    case Symbol(s) => env.tri(s)
    case Not(a) => TriNot(Val(env, a))
    case Bin(op, l, r) => TriOp(op, Val(env, l), Val(env, r))
    case Compare(c, a, b) => CompareVal(env, c, a, b)
  }

  /** expr_calc_value of a pointer that may be NULL. */
  function ValOpt(env: Env, e: Option<Expr>): Tri {
    if e.None? then YES else Val(env, e.value)
  }

  // ---------- well-typed valuations ----------

  /** Symbol values as sym_calc_value leaves them (SymValues.ValuesAreGood): constants stand for
      themselves, a bool is never m, and the text of a bool or tristate is its value. */
  ghost predicate GoodEnv(env: Env) {
    && (forall n: string :: env.text(Const(n)) == n)
    && (forall n: string :: env.tri(Const(n)) == if n == "y" then YES else if n == "m" then MOD else NO)
    && (forall s: Sym :: IsTriSym(s) ==> env.text(s) == TriText(env.tri(s)))
    && (forall s: Sym :: TypeOf(s) == Boolean ==> env.tri(s) != MOD)
    && env.strto("y", Unknown).KString? && env.strto("m", Unknown).KString? && env.strto("n", Unknown).KString?
  }

  predicate Ordering(c: Cmp) { c != Eq && c != Ne }

  /** A bool or tristate is compared for equality only with constants that are not numerals,
      and operands of an ordering are comparable. */
  predicate TypedCompare(env: Env, c: Cmp, a: Sym, b: Sym) {
    if Ordering(c) then Relate(env, a, b).0.Some?
    else IsTriSym(a) && b.Const? ==> env.strto(b.name, Unknown).KString?
  }

  predicate Typed(env: Env, e: Expr) {
    match e
    case Symbol(_) => true
    case Not(a) => Typed(env, a)
    case Bin(_, l, r) => Typed(env, l) && Typed(env, r)
    case Compare(c, a, b) => TypedCompare(env, c, a, b)
  }

  ghost predicate WellTyped(env: Env, e: Expr) { GoodEnv(env) && Typed(env, e) }

  /** In a good environment a bool or tristate equals a non-numeral constant exactly when
      its value spells that constant. */
  lemma EqualsConst(env: Env, a: Sym, name: string)
    requires GoodEnv(env) && IsTriSym(a) && env.strto(name, Unknown).KString?
    ensures CompareVal(env, Eq, a, Const(name)) == TriBool(TriText(env.tri(a)) == name)
    ensures CompareVal(env, Ne, a, Const(name)) == TriBool(TriText(env.tri(a)) != name)
  {
    assert env.text(Const(name)) == name;
    assert env.text(a) == TriText(env.tri(a));
  }

  // ---------- orderings ----------

  /** At k the first text ends or has the smaller character, and up to k the texts agree. */
  predicate SmallerAt(a: string, b: string, k: nat) {
    k <= |a| && k < |b| && (forall j :: 0 <= j < k ==> a[j] == b[j]) && (k == |a| || a[k] < b[k])
  }

  /** Texts are ordered as in a dictionary. */
  lemma {:induction false} StrCmpOrder(a: string, b: string)
    ensures StrCmp(a, b) < 0 <==> exists k :: SmallerAt(a, b, k)
    ensures StrCmp(a, b) > 0 <==> exists k :: SmallerAt(b, a, k)
  {
    if a != [] && b != [] && a[0] == b[0] {
      StrCmpOrder(a[1..], b[1..]);
      SmallerLater(a, b);
      SmallerLater(b, a);
    } else {
      assert a != b ==> SmallerAt(a, b, 0) || SmallerAt(b, a, 0);
      SmallerFirst(a, b);
      SmallerFirst(b, a);
    }
  }

  lemma SmallerFirst(a: string, b: string)
    requires a == [] || b == [] || a[0] != b[0]
    ensures forall k: nat :: SmallerAt(a, b, k) ==> k == 0
  {
  }

  lemma SmallerLater(a: string, b: string)
    requires a != [] && b != [] && a[0] == b[0]
    ensures (exists k :: SmallerAt(a, b, k)) <==> exists k :: SmallerAt(a[1..], b[1..], k)
  {
    forall k: nat | SmallerAt(a, b, k) ensures exists j :: SmallerAt(a[1..], b[1..], j) {
      assert k > 0;
      assert SmallerAt(a[1..], b[1..], k - 1);
    }
    forall k: nat | SmallerAt(a[1..], b[1..], k) ensures exists j :: SmallerAt(a, b, j) {
      forall j | 0 <= j < k + 1 ensures a[j] == b[j] { assert j > 0 ==> a[1..][j - 1] == b[1..][j - 1]; }
      assert SmallerAt(a, b, k + 1);
    }
  }

  function NumberCompare(c: Cmp, m: int, n: int): bool {
    match c
    case Eq => m == n case Ne => m != n case Lt => m < n case Le => m <= n case Gt => m > n case Ge => m >= n
  }

  /** Numbers are compared by their value, and as unsigned 64-bit values if one of them is unsigned. */
  lemma ComparesNumbers(env: Env, c: Cmp, a: Sym, b: Sym)
    requires TypeOf(a) != Str || TypeOf(b) != Str
    ensures var p, q := ParseString(env, env.text(a), TypeOf(a)), ParseString(env, env.text(b), TypeOf(b));
      && (p.KSigned? && q.KSigned? ==> CompareVal(env, c, a, b) == TriBool(NumberCompare(c, p.s, q.s)))
      && ((p.KUnsigned? && (q.KSigned? || q.KUnsigned?)) || (p.KSigned? && q.KUnsigned?) ==>
            CompareVal(env, c, a, b) == TriBool(NumberCompare(c, AsUnsigned(p), AsUnsigned(q))))
  {
  }

  /** Two strings, or anything with a text that is no number, are compared as texts. */
  lemma ComparesTexts(env: Env, c: Cmp, a: Sym, b: Sym)
    requires (TypeOf(a) == Str && TypeOf(b) == Str) || ParseString(env, env.text(a), TypeOf(a)).KString?
             || ParseString(env, env.text(b), TypeOf(b)).KString?
    ensures CompareVal(env, Eq, a, b) == TriBool(env.text(a) == env.text(b))
    ensures CompareVal(env, Lt, a, b) == TriBool(exists k :: SmallerAt(env.text(a), env.text(b), k))
    ensures CompareVal(env, Gt, a, b) == TriBool(exists k :: SmallerAt(env.text(b), env.text(a), k))
    ensures CompareVal(env, Ne, a, b) == TriNot(CompareVal(env, Eq, a, b))
    ensures CompareVal(env, Le, a, b) == TriNot(CompareVal(env, Gt, a, b))
    ensures CompareVal(env, Ge, a, b) == TriNot(CompareVal(env, Lt, a, b))
  {
    StrCmpOrder(env.text(a), env.text(b));
  }

  // ---------- occurrence of a symbol ----------

  /** expr_contains_symbol. */
  predicate Contains(e: Expr, s: Sym) {
    match e
    case Symbol(x) => x == s
    case Not(a) => Contains(a, s)
    case Bin(_, l, r) => Contains(l, s) || Contains(r, s)
    case Compare(_, a, b) => a == s || b == s
  }

  /** expr_depends_symbol. */
  predicate Depends(e: Expr, s: Sym) {
    match e
    case Symbol(x) => x == s
    case Bin(op, l, r) => op == And && (Depends(l, s) || Depends(r, s))
    case Compare(c, a, b) =>
      a == s && ((c == Eq && (b == SYM_YES || b == SYM_MOD)) || (c == Ne && b == SYM_NO))
    case Not(_) => false
  }

  /** An expression that does not contain a symbol has a value that symbol cannot influence. */
  lemma {:induction false} ContainsIsDependence(e: Expr, s: Sym, env1: Env, env2: Env)
    requires !Contains(e, s)
    requires env1.strto == env2.strto
    requires forall x: Sym :: x != s ==> env1.tri(x) == env2.tri(x) && env1.text(x) == env2.text(x)
    ensures Val(env1, e) == Val(env2, e)
  {
    match e
    case Symbol(x) =>
    case Not(a) => ContainsIsDependence(a, s, env1, env2);
    case Bin(_, l, r) =>
      ContainsIsDependence(l, s, env1, env2);
      ContainsIsDependence(r, s, env1, env2);
    case Compare(_, a, b) =>
      assert env1.text(a) == env2.text(a) && env1.text(b) == env2.text(b);
      assert ParseString(env1, env1.text(a), TypeOf(a)) == ParseString(env2, env2.text(a), TypeOf(a));
      assert ParseString(env1, env1.text(b), TypeOf(b)) == ParseString(env2, env2.text(b), TypeOf(b));
  }

  /** An absolute dependency: where the expression is not n, neither is the symbol. */
  lemma {:induction false} DependsForcesSymbol(env: Env, e: Expr, s: Sym)
    requires GoodEnv(env) && IsTriSym(s)
    requires Depends(e, s) && Val(env, e) != NO
    ensures env.tri(s) != NO
  {
    match e
    case Symbol(_) =>
    case Bin(_, l, r) =>
      if Depends(l, s) { DependsForcesSymbol(env, l, s); } else { DependsForcesSymbol(env, r, s); }
    case Compare(_, _, b) => EqualsConst(env, s, b.name);
  }
}

/** The slice of symbolic algebra the generator relies on: expression trees over named
    symbols, their free symbols, a partial derivative, a numeric meaning and a simplifier.
    Equality of expressions is structural, as it is for the trees the generator builds. */
module Symbolic {

  /** A symbol: a plain one such as `t` or `m`, an element of a symbol vector such as
      `x[3]`, or the k-th temporary introduced by common-subexpression elimination. */
  datatype Symbol = Named(name: string) | Indexed(base: string, index: nat) | Temp(k: nat)

  datatype Expr =
    | Const(c: real)
    | Var(s: Symbol)
    | Add(a: Expr, b: Expr)
    | Sub(a: Expr, b: Expr)
    | Mul(a: Expr, b: Expr)
    | Div(a: Expr, b: Expr)
    | Pow(a: Expr, n: nat)
    | Sqrt(a: Expr)

  /** The symbols `base[0]`, ..., `base[n-1]`. */
  function Symbols(base: string, n: nat): (v: seq<Symbol>)
    ensures |v| == n
    ensures forall i :: 0 <= i < n ==> v[i] == Indexed(base, i)
  {
    seq(n, (i: nat) => Indexed(base, i))
  }

  /** The symbol vector `base[0:n]` as expressions. */
  function Vector(base: string, n: nat): (v: seq<Expr>)
    ensures |v| == n
    ensures forall i :: 0 <= i < n ==> v[i] == Var(Indexed(base, i))
  {
    seq(n, (i: nat) => Var(Indexed(base, i)))
  }

  function FreeSyms(e: Expr): set<Symbol> {
    match e
    case Const(_) => {}
    case Var(s) => {s}
    case Add(a, b) => FreeSyms(a) + FreeSyms(b)
    case Sub(a, b) => FreeSyms(a) + FreeSyms(b)
    case Mul(a, b) => FreeSyms(a) + FreeSyms(b)
    case Div(a, b) => FreeSyms(a) + FreeSyms(b)
    case Pow(a, _) => FreeSyms(a)
    case Sqrt(a) => FreeSyms(a)
  }

  /** The partial derivative of `e` with respect to `v`, by the usual rules, unsimplified. */
  function Diff(e: Expr, v: Symbol): Expr {
    match e
    case Const(_) => Const(0.0)
    case Var(s) => Const(if s == v then 1.0 else 0.0)
    case Add(a, b) => Add(Diff(a, v), Diff(b, v))
    case Sub(a, b) => Sub(Diff(a, v), Diff(b, v))
    case Mul(a, b) => Add(Mul(Diff(a, v), b), Mul(a, Diff(b, v)))
    case Div(a, b) => Div(Sub(Mul(Diff(a, v), b), Mul(a, Diff(b, v))), Pow(b, 2))
    case Pow(a, n) => if n == 0 then Const(0.0) else Mul(Mul(Const(n as real), Pow(a, n - 1)), Diff(a, v))
    case Sqrt(a) => Div(Diff(a, v), Mul(Const(2.0), Sqrt(a)))
  }

  /** The gradient of a scalar expression with respect to a list of symbols. */
  function Gradient(e: Expr, vs: seq<Symbol>): (g: seq<Expr>)
    ensures |g| == |vs|
    ensures forall i :: 0 <= i < |vs| ==> g[i] == Diff(e, vs[i])
  {
    seq(|vs|, i requires 0 <= i < |vs| => Diff(e, vs[i]))
  }

  // Products and quotients of values go through these two functions, so that the solver
  // only reasons about a nonlinear term where a proof instantiates one.
  function Times(x: real, y: real): real { x * y }

  /** Division, made total: dividing by zero yields zero. */
  function Quot(x: real, d: real): real { if d == 0.0 then 0.0 else x / d }

  function Power(x: real, n: nat): real {
    if n == 0 then 1.0 else Times(x, Power(x, n - 1))
  }

  /** The value of `e` when every symbol `s` stands for `env(s)` and square roots are
      computed by `sqrt`. */
  function Eval(e: Expr, env: Symbol -> real, sqrt: real -> real): real {
    match e
    case Const(c) => c
    case Var(s) => env(s)
    case Add(a, b) => Eval(a, env, sqrt) + Eval(b, env, sqrt)
    case Sub(a, b) => Eval(a, env, sqrt) - Eval(b, env, sqrt)
    case Mul(a, b) => Times(Eval(a, env, sqrt), Eval(b, env, sqrt))
    case Div(a, b) => Quot(Eval(a, env, sqrt), Eval(b, env, sqrt))
    case Pow(a, n) => Power(Eval(a, env, sqrt), n)
    case Sqrt(a) => sqrt(Eval(a, env, sqrt))
  }

  /** A derivative with respect to a symbol that does not occur is zero. */
  lemma {:induction false} DiffOfAbsentSymbol(e: Expr, v: Symbol, env: Symbol -> real, sqrt: real -> real)
    requires v !in FreeSyms(e)
    ensures Eval(Diff(e, v), env, sqrt) == 0.0
  {
    match e
    case Const(_) =>
    case Var(_) =>
    case Add(a, b) => DiffOfAbsentSymbol(a, v, env, sqrt); DiffOfAbsentSymbol(b, v, env, sqrt);
    case Sub(a, b) => DiffOfAbsentSymbol(a, v, env, sqrt); DiffOfAbsentSymbol(b, v, env, sqrt);
    case Mul(a, b) =>
      DiffOfAbsentSymbol(a, v, env, sqrt); DiffOfAbsentSymbol(b, v, env, sqrt);
      var x, y := Eval(a, env, sqrt), Eval(b, env, sqrt);
      assert Eval(Diff(e, v), env, sqrt) == 0.0 * y + x * 0.0;
    case Div(a, b) =>
      DiffOfAbsentSymbol(a, v, env, sqrt); DiffOfAbsentSymbol(b, v, env, sqrt);
      var x, y := Eval(a, env, sqrt), Eval(b, env, sqrt);
      var num := Sub(Mul(Diff(a, v), b), Mul(a, Diff(b, v)));
      assert Eval(num, env, sqrt) == 0.0 * y - x * 0.0;
      assert Eval(Diff(e, v), env, sqrt) == Eval(Div(num, Pow(b, 2)), env, sqrt);
    case Pow(a, n) =>
      DiffOfAbsentSymbol(a, v, env, sqrt);
      if n != 0 {
        var p := Eval(Mul(Const(n as real), Pow(a, n - 1)), env, sqrt);
        assert Eval(Diff(e, v), env, sqrt) == p * 0.0;
      }
    case Sqrt(a) =>
      DiffOfAbsentSymbol(a, v, env, sqrt);
      assert Eval(Diff(e, v), env, sqrt) == Eval(Div(Diff(a, v), Mul(Const(2.0), Sqrt(a))), env, sqrt);
  }

  // ----- Simplification -----

  function SimplifyAdd(a: Expr, b: Expr): Expr {
    if a == Const(0.0) then b
    else if b == Const(0.0) then a
    else if a.Const? && b.Const? then Const(a.c + b.c)
    else Add(a, b)
  }

  function SimplifySub(a: Expr, b: Expr): Expr {
    if b == Const(0.0) then a
    else if a.Const? && b.Const? then Const(a.c - b.c)
    else Sub(a, b)
  }

  function SimplifyMul(a: Expr, b: Expr): Expr {
    if a == Const(0.0) || b == Const(0.0) then Const(0.0)
    else if a == Const(1.0) then b
    else if b == Const(1.0) then a
    else if a.Const? && b.Const? then Const(a.c * b.c)
    else Mul(a, b)
  }

  /** Algebraic normalisation: drops additive zeros and multiplicative ones, folds constants. */
  function Simplify(e: Expr): Expr {
    match e
    case Const(_) => e
    case Var(_) => e
    case Add(a, b) => SimplifyAdd(Simplify(a), Simplify(b))
    case Sub(a, b) => SimplifySub(Simplify(a), Simplify(b))
    case Mul(a, b) => SimplifyMul(Simplify(a), Simplify(b))
    case Div(a, b) => Div(Simplify(a), Simplify(b))
    case Pow(a, n) => if n == 0 then Const(1.0) else if n == 1 then Simplify(a) else Pow(Simplify(a), n)
    case Sqrt(a) => Sqrt(Simplify(a))
  }

  lemma SimplifyAddValue(a: Expr, b: Expr, env: Symbol -> real, sqrt: real -> real)
    ensures Eval(SimplifyAdd(a, b), env, sqrt) == Eval(a, env, sqrt) + Eval(b, env, sqrt)
    ensures FreeSyms(SimplifyAdd(a, b)) <= FreeSyms(a) + FreeSyms(b)
  {
  }

  lemma SimplifySubValue(a: Expr, b: Expr, env: Symbol -> real, sqrt: real -> real)
    ensures Eval(SimplifySub(a, b), env, sqrt) == Eval(a, env, sqrt) - Eval(b, env, sqrt)
    ensures FreeSyms(SimplifySub(a, b)) <= FreeSyms(a) + FreeSyms(b)
  {
  }

  lemma SimplifyMulValue(a: Expr, b: Expr, env: Symbol -> real, sqrt: real -> real)
    ensures Eval(SimplifyMul(a, b), env, sqrt) == Times(Eval(a, env, sqrt), Eval(b, env, sqrt))
    ensures FreeSyms(SimplifyMul(a, b)) <= FreeSyms(a) + FreeSyms(b)
  {
    var x, y := Eval(a, env, sqrt), Eval(b, env, sqrt);
    if a == Const(0.0) {
      assert Times(x, y) == 0.0 * y;
    } else if b == Const(0.0) {
      assert Times(x, y) == x * 0.0;
    } else if a == Const(1.0) {
      assert Times(x, y) == 1.0 * y;
    } else if b == Const(1.0) {
      assert Times(x, y) == x * 1.0;
    }
  }

  /** Simplification changes the form of an expression, never its value, and introduces no symbol. */
  lemma {:induction false} SimplifyPreservesValue(e: Expr, env: Symbol -> real, sqrt: real -> real)
    ensures Eval(Simplify(e), env, sqrt) == Eval(e, env, sqrt)
    ensures FreeSyms(Simplify(e)) <= FreeSyms(e)
  {
    match e
    case Const(_) =>
    case Var(_) =>
    case Add(a, b) =>
      SimplifyPreservesValue(a, env, sqrt); SimplifyPreservesValue(b, env, sqrt);
      SimplifyAddValue(Simplify(a), Simplify(b), env, sqrt);
    case Sub(a, b) =>
      SimplifyPreservesValue(a, env, sqrt); SimplifyPreservesValue(b, env, sqrt);
      SimplifySubValue(Simplify(a), Simplify(b), env, sqrt);
    case Mul(a, b) =>
      SimplifyPreservesValue(a, env, sqrt); SimplifyPreservesValue(b, env, sqrt);
      SimplifyMulValue(Simplify(a), Simplify(b), env, sqrt);
    case Div(a, b) => SimplifyPreservesValue(a, env, sqrt); SimplifyPreservesValue(b, env, sqrt);
    case Pow(a, n) =>
      SimplifyPreservesValue(a, env, sqrt);
      if n == 1 { assert Power(Eval(a, env, sqrt), 1) == Eval(a, env, sqrt) * 1.0; }
    case Sqrt(a) => SimplifyPreservesValue(a, env, sqrt);
  }

  /** Simplifies every component of an expression vector. */
  function SimplifyAll(es: seq<Expr>): (r: seq<Expr>)
    ensures |r| == |es|
    ensures forall i :: 0 <= i < |es| ==> r[i] == Simplify(es[i])
  {
    seq(|es|, i requires 0 <= i < |es| => Simplify(es[i]))
  }
}

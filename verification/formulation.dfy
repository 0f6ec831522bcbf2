/** The optimality conditions of the optimal control problem: the Hamiltonian, its partial
    derivatives with respect to the state and the augmented input, the semismooth
    Fischer-Burmeister reformulation of the inequality constraints, and the terminal-cost
    gradient (autogenu/autogenu.py, set_functions). */
module Formulation {
  import opened Symbolic

  /** The augmented input `u[k]`: the control input for k < dimu, then one multiplier per
      equality constraint, then one complementarity variable per inequality constraint. */
  function U(k: nat): Symbol { Indexed("u", k) }

  /** The costate `lmd[i]`. */
  function Lmd(i: nat): Symbol { Indexed("lmd", i) }

  /** The state `x[i]`. */
  function X(i: nat): Symbol { Indexed("x", i) }

  /** The regularisation symbol `fb_eps[i]` of the i-th inequality constraint. */
  function FbEps(i: nat): Symbol { Indexed("fb_eps", i) }

  /** Python's `sum` over a generator: `((0 + t0) + t1) + ...`. */
  function SumExpr(ts: seq<Expr>): Expr {
    if ts == [] then Const(0.0) else Add(SumExpr(ts[..|ts| - 1]), ts[|ts| - 1])
  }

  /** The products `base[offset + i] * es[i]`. */
  function Weighted(base: string, offset: nat, es: seq<Expr>): (ts: seq<Expr>)
    ensures |ts| == |es|
  {
    seq(|es|, i requires 0 <= i < |es| => Mul(Var(Indexed(base, offset + i)), es[i]))
  }

  /** L + sum(lmd[i] * f[i]) + sum(u[dimu + i] * C[i]) + sum(u[dimu + dimc + i] * h[i]). */
  function Hamiltonian(L: Expr, f: seq<Expr>, C: seq<Expr>, h: seq<Expr>, dimu: nat): (H: Expr)
    ensures forall env: Symbol -> real, sqrt: real -> real ::
      Eval(H, env, sqrt)
         == Eval(L, env, sqrt)
          + Dot(SymValues("lmd", 0, |f|, env), Values(f, env, sqrt))
          + Dot(SymValues("u", dimu, |C|, env), Values(C, env, sqrt))
          + Dot(SymValues("u", dimu + |C|, |h|, env), Values(h, env, sqrt))
  {
    SumsValue(L, f, C, h, dimu);
    Add(Add(Add(L, SumExpr(Weighted("lmd", 0, f))),
            SumExpr(Weighted("u", dimu, C))),
        SumExpr(Weighted("u", dimu + |C|, h)))
  }

  /** sqrt(u**2 + h**2 + eps) - (u - h). */
  function FischerBurmeister(u: Expr, h: Expr, eps: Expr): (r: Expr)
    ensures forall env: Symbol -> real, sqrt: real -> real ::
      Eval(r, env, sqrt)
         == FbValue(Eval(u, env, sqrt), Eval(h, env, sqrt), Eval(eps, env, sqrt), sqrt)
  {
    FbTermValue(u, h, eps);
    Sub(Sqrt(Add(Add(Pow(u, 2), Pow(h, 2)), eps)), Sub(u, h))
  }

  /** The problem as compiled by set_functions: the dynamics as given, the numbers of
      equality and inequality constraints, and the three derived expression vectors. */
  datatype Conditions = Conditions(f: seq<Expr>, dimc: nat, dimh: nat, hx: seq<Expr>, hu: seq<Expr>, phix: seq<Expr>)

  /** hu with its last |h| entries replaced by the Fischer-Burmeister functions. */
  function Substituted(raw: seq<Expr>, h: seq<Expr>, dimuc: nat): (hu: seq<Expr>)
    requires |raw| == dimuc + |h|
    ensures |hu| == |raw|
    ensures forall k :: 0 <= k < dimuc ==> hu[k] == raw[k]
    ensures forall i :: 0 <= i < |h| ==> hu[dimuc + i] == FischerBurmeister(Var(U(dimuc + i)), h[i], Var(FbEps(i)))
  {
    seq(|raw|, k requires 0 <= k < |raw| =>
      if k < dimuc then raw[k] else FischerBurmeister(Var(U(k)), h[k - dimuc], Var(FbEps(k - dimuc))))
  }

  /** The conditions derived from dynamics f (one entry per state), equality constraints C,
      inequality constraints h, stage cost L and terminal cost phi. */
  function Derive(f: seq<Expr>, C: seq<Expr>, h: seq<Expr>, L: Expr, phi: Expr, dimu: nat): (r: Conditions)
    ensures r.f == f && r.dimc == |C| && r.dimh == |h|
    ensures |r.hx| == |f| && |r.phix| == |f| && |r.hu| == dimu + |C| + |h|
    ensures forall i :: 0 <= i < |f| ==>
      r.hx[i] == Diff(Hamiltonian(L, f, C, h, dimu), X(i)) && r.phix[i] == Diff(phi, X(i))
    ensures forall k :: 0 <= k < dimu + |C| ==> r.hu[k] == Diff(Hamiltonian(L, f, C, h, dimu), U(k))
    ensures forall i :: 0 <= i < |h| ==>
      r.hu[dimu + |C| + i] == FischerBurmeister(Var(U(dimu + |C| + i)), h[i], Var(FbEps(i)))
  {
    var H := Hamiltonian(L, f, C, h, dimu);
    var raw := Gradient(H, Symbols("u", dimu + |C| + |h|));
    Conditions(f, |C|, |h|, Gradient(H, Symbols("x", |f|)), Substituted(raw, h, dimu + |C|),
               Gradient(phi, Symbols("x", |f|)))
  }

  /** The loop of set_functions that overwrites the last |h| entries of the gradient, one
      at a time, with their Fischer-Burmeister functions. */
  method SubstituteInPlace(raw: seq<Expr>, h: seq<Expr>, dimuc: nat) returns (hu: seq<Expr>)
    requires |raw| == dimuc + |h|
    ensures hu == Substituted(raw, h, dimuc)
  {
    hu := raw;
    var i := 0;
    while i < |h|
      invariant 0 <= i <= |h| && |hu| == |raw|
      invariant forall k :: 0 <= k < |raw| ==>
        hu[k] == if dimuc <= k < dimuc + i then FischerBurmeister(Var(U(k)), h[k - dimuc], Var(FbEps(k - dimuc)))
                 else raw[k]
    {
      hu := hu[dimuc + i := FischerBurmeister(Var(U(dimuc + i)), h[i], Var(FbEps(i)))];
      i := i + 1;
    }
  }

  /** The conditions assembled from their parts, as set_functions stores them. */
  lemma DeriveFromParts(f: seq<Expr>, C: seq<Expr>, h: seq<Expr>, L: Expr, phi: Expr, dimu: nat, hu: seq<Expr>)
    requires hu == Substituted(Gradient(Hamiltonian(L, f, C, h, dimu), Symbols("u", dimu + |C| + |h|)), h, dimu + |C|)
    ensures Derive(f, C, h, L, phi, dimu) ==
      Conditions(f, |C|, |h|, Gradient(Hamiltonian(L, f, C, h, dimu), Symbols("x", |f|)), hu, Gradient(phi, Symbols("x", |f|)))
  {
  }

  /** Without inequality constraints hu is exactly the gradient of the Hamiltonian. */
  lemma NoInequalityNoSubstitution(f: seq<Expr>, C: seq<Expr>, L: Expr, phi: Expr, dimu: nat)
    ensures Derive(f, C, [], L, phi, dimu).hu == Gradient(Hamiltonian(L, f, C, [], dimu), Symbols("u", dimu + |C|))
  {
  }

  // ----- The numeric meaning of the Hamiltonian -----

  function Values(es: seq<Expr>, env: Symbol -> real, sqrt: real -> real): (vs: seq<real>)
    ensures |vs| == |es|
  {
    seq(|es|, i requires 0 <= i < |es| => Eval(es[i], env, sqrt))
  }

  /** The values of `base[offset]`, ..., `base[offset + n - 1]`. */
  function SymValues(base: string, offset: nat, n: nat, env: Symbol -> real): (vs: seq<real>)
    ensures |vs| == n
  {
    seq(n, (i: nat) => env(Indexed(base, offset + i)))
  }

  function Dot(a: seq<real>, b: seq<real>): real
    requires |a| == |b|
  {
    if a == [] then 0.0 else Dot(a[..|a| - 1], b[..|b| - 1]) + Times(a[|a| - 1], b[|b| - 1])
  }

  lemma {:induction false} EvalWeightedSum(base: string, offset: nat, es: seq<Expr>, env: Symbol -> real, sqrt: real -> real)
    ensures Eval(SumExpr(Weighted(base, offset, es)), env, sqrt)
         == Dot(SymValues(base, offset, |es|, env), Values(es, env, sqrt))
  {
    if es != [] {
      var n := |es| - 1;
      var ws, us, vs := Weighted(base, offset, es), SymValues(base, offset, |es|, env), Values(es, env, sqrt);
      assert ws[..n] == Weighted(base, offset, es[..n]);
      assert us[..n] == SymValues(base, offset, n, env);
      assert vs[..n] == Values(es[..n], env, sqrt);
      EvalWeightedSum(base, offset, es[..n], env, sqrt);
      assert ws[n] == Mul(Var(Indexed(base, offset + n)), es[n]);
      assert Eval(ws[n], env, sqrt) == Times(us[n], vs[n]);
      assert Eval(SumExpr(ws), env, sqrt) == Eval(SumExpr(ws[..n]), env, sqrt) + Eval(ws[n], env, sqrt);
    }
  }

  /** The Hamiltonian's value is the stage cost plus the costate times the dynamics plus the
      multipliers times the equality constraints plus the complementarity variables times the
      inequality constraints. */
  lemma SumsValue(L: Expr, f: seq<Expr>, C: seq<Expr>, h: seq<Expr>, dimu: nat)
    ensures forall env: Symbol -> real, sqrt: real -> real ::
      var S1, S2, S3 := SumExpr(Weighted("lmd", 0, f)), SumExpr(Weighted("u", dimu, C)), SumExpr(Weighted("u", dimu + |C|, h));
      Eval(Add(Add(Add(L, S1), S2), S3), env, sqrt)
         == Eval(L, env, sqrt)
          + Dot(SymValues("lmd", 0, |f|, env), Values(f, env, sqrt))
          + Dot(SymValues("u", dimu, |C|, env), Values(C, env, sqrt))
          + Dot(SymValues("u", dimu + |C|, |h|, env), Values(h, env, sqrt))
  {
    var S1, S2, S3 := SumExpr(Weighted("lmd", 0, f)), SumExpr(Weighted("u", dimu, C)), SumExpr(Weighted("u", dimu + |C|, h));
    forall env: Symbol -> real, sqrt: real -> real
      ensures Eval(Add(Add(Add(L, S1), S2), S3), env, sqrt)
         == Eval(L, env, sqrt)
          + Dot(SymValues("lmd", 0, |f|, env), Values(f, env, sqrt))
          + Dot(SymValues("u", dimu, |C|, env), Values(C, env, sqrt))
          + Dot(SymValues("u", dimu + |C|, |h|, env), Values(h, env, sqrt))
    {
      EvalWeightedSum("lmd", 0, f, env, sqrt);
      EvalWeightedSum("u", dimu, C, env, sqrt);
      EvalWeightedSum("u", dimu + |C|, h, env, sqrt);
      assert Eval(Add(Add(L, S1), S2), env, sqrt) == Eval(Add(L, S1), env, sqrt) + Eval(S2, env, sqrt);
    }
  }

  // ----- Partial derivatives with respect to multipliers -----

  /** `e` mentions no augmented input beyond the first `dimu`, the control input proper. */
  ghost predicate InputsOnly(e: Expr, dimu: nat) {
    forall s :: s in FreeSyms(e) && s.Indexed? && s.base == "u" ==> s.index < dimu
  }

  ghost predicate AllInputsOnly(es: seq<Expr>, dimu: nat) {
    forall i :: 0 <= i < |es| ==> InputsOnly(es[i], dimu)
  }

  lemma {:induction false} SumOfAbsent(ts: seq<Expr>, v: Symbol)
    requires forall i :: 0 <= i < |ts| ==> v !in FreeSyms(ts[i])
    ensures v !in FreeSyms(SumExpr(ts))
  {
    if ts != [] {
      SumOfAbsent(ts[..|ts| - 1], v);
    }
  }

  /** Differentiating `sum(u[offset + i] * es[i])` by a multiplier `u[m]` picks out the
      expression that `u[m]` multiplies, if any. */
  lemma {:induction false} DiffWeightedSum(offset: nat, es: seq<Expr>, dimu: nat, m: nat, env: Symbol -> real, sqrt: real -> real)
    requires dimu <= m && AllInputsOnly(es, dimu)
    ensures Eval(Diff(SumExpr(Weighted("u", offset, es)), U(m)), env, sqrt)
         == if offset <= m < offset + |es| then Eval(es[m - offset], env, sqrt) else 0.0
  {
    if es != [] {
      var n := |es| - 1;
      var ws := Weighted("u", offset, es);
      assert ws[..n] == Weighted("u", offset, es[..n]);
      DiffWeightedSum(offset, es[..n], dimu, m, env, sqrt);
      DiffOfAbsentSymbol(es[n], U(m), env, sqrt);
      assert ws[n] == Mul(Var(U(offset + n)), es[n]);
      var last := Eval(Diff(ws[n], U(m)), env, sqrt);
      var delta := Diff(Var(U(offset + n)), U(m));
      assert delta == Const(if offset + n == m then 1.0 else 0.0);
      assert Diff(ws[n], U(m)) == Add(Mul(delta, es[n]), Mul(Var(U(offset + n)), Diff(es[n], U(m))));
      assert last == Eval(Mul(delta, es[n]), env, sqrt) + Eval(Mul(Var(U(offset + n)), Diff(es[n], U(m))), env, sqrt);
      assert last == Times(if offset + n == m then 1.0 else 0.0, Eval(es[n], env, sqrt))
                   + Times(env(U(offset + n)), Eval(Diff(es[n], U(m)), env, sqrt));
      assert Eval(Diff(SumExpr(ws), U(m)), env, sqrt) == Eval(Diff(SumExpr(ws[..n]), U(m)), env, sqrt) + last;
    }
  }

  /** The partial derivative of the Hamiltonian with respect to a multiplier of an equality
      constraint is that constraint, and with respect to a complementarity variable it is that
      inequality constraint, provided the problem itself uses only the control input. */
  lemma HamiltonianMultiplierDerivative(L: Expr, f: seq<Expr>, C: seq<Expr>, h: seq<Expr>, dimu: nat, m: nat, env: Symbol -> real, sqrt: real -> real)
    requires dimu <= m < dimu + |C| + |h|
    requires InputsOnly(L, dimu) && AllInputsOnly(f, dimu) && AllInputsOnly(C, dimu) && AllInputsOnly(h, dimu)
    ensures Eval(Diff(Hamiltonian(L, f, C, h, dimu), U(m)), env, sqrt)
         == if m < dimu + |C| then Eval(C[m - dimu], env, sqrt) else Eval(h[m - dimu - |C|], env, sqrt)
  {
    MultiplierDerivativeOfSums(L, f, C, h, dimu, m, env, sqrt);
  }

  /** The same, for the Hamiltonian written out as its four summands. */
  lemma MultiplierDerivativeOfSums(L: Expr, f: seq<Expr>, C: seq<Expr>, h: seq<Expr>, dimu: nat, m: nat, env: Symbol -> real, sqrt: real -> real)
    requires dimu <= m < dimu + |C| + |h|
    requires InputsOnly(L, dimu) && AllInputsOnly(f, dimu) && AllInputsOnly(C, dimu) && AllInputsOnly(h, dimu)
    ensures var H := Add(Add(Add(L, SumExpr(Weighted("lmd", 0, f))), SumExpr(Weighted("u", dimu, C))),
                         SumExpr(Weighted("u", dimu + |C|, h)));
      Eval(Diff(H, U(m)), env, sqrt)
         == if m < dimu + |C| then Eval(C[m - dimu], env, sqrt) else Eval(h[m - dimu - |C|], env, sqrt)
  {
    DiffOfAbsentSymbol(L, U(m), env, sqrt);
    var ts := Weighted("lmd", 0, f);
    forall i | 0 <= i < |ts| ensures U(m) !in FreeSyms(ts[i]) {
      assert FreeSyms(ts[i]) == {Lmd(i)} + FreeSyms(f[i]);
    }
    SumOfAbsent(ts, U(m));
    DiffOfAbsentSymbol(SumExpr(ts), U(m), env, sqrt);
    DiffWeightedSum(dimu, C, dimu, m, env, sqrt);
    DiffWeightedSum(dimu + |C|, h, dimu, m, env, sqrt);
    var S1, S2, S3 := SumExpr(ts), SumExpr(Weighted("u", dimu, C)), SumExpr(Weighted("u", dimu + |C|, h));
    assert Eval(Diff(Add(Add(L, S1), S2), U(m)), env, sqrt)
        == Eval(Diff(Add(L, S1), U(m)), env, sqrt) + Eval(Diff(S2, U(m)), env, sqrt);
    assert Eval(Diff(Add(Add(Add(L, S1), S2), S3), U(m)), env, sqrt)
        == Eval(Diff(L, U(m)), env, sqrt) + Eval(Diff(SumExpr(ts), U(m)), env, sqrt)
         + Eval(Diff(S2, U(m)), env, sqrt) + Eval(Diff(S3, U(m)), env, sqrt);
  }

  /** The entries of hu for the equality multipliers evaluate to the equality constraints:
      a zero of hu enforces C = 0. */
  lemma EqualityResidualInHu(f: seq<Expr>, C: seq<Expr>, h: seq<Expr>, L: Expr, phi: Expr, dimu: nat, j: nat, env: Symbol -> real, sqrt: real -> real)
    requires j < |C|
    requires InputsOnly(L, dimu) && AllInputsOnly(f, dimu) && AllInputsOnly(C, dimu) && AllInputsOnly(h, dimu)
    ensures Eval(Derive(f, C, h, L, phi, dimu).hu[dimu + j], env, sqrt) == Eval(C[j], env, sqrt)
  {
    HamiltonianMultiplierDerivative(L, f, C, h, dimu, dimu + j, env, sqrt);
  }

  /** The raw entry of hu that the Fischer-Burmeister function replaces is the inequality
      constraint itself. */
  lemma ReplacedEntryIsConstraint(f: seq<Expr>, C: seq<Expr>, h: seq<Expr>, L: Expr, dimu: nat, i: nat, env: Symbol -> real, sqrt: real -> real)
    requires i < |h|
    requires InputsOnly(L, dimu) && AllInputsOnly(f, dimu) && AllInputsOnly(C, dimu) && AllInputsOnly(h, dimu)
    ensures Eval(Diff(Hamiltonian(L, f, C, h, dimu), U(dimu + |C| + i)), env, sqrt) == Eval(h[i], env, sqrt)
  {
    HamiltonianMultiplierDerivative(L, f, C, h, dimu, dimu + |C| + i, env, sqrt);
  }

  // ----- The Fischer-Burmeister function -----

  /** `sqrt` is a square root on the non-negative reals. */
  ghost predicate IsSqrt(sqrt: real -> real) {
    forall x :: x >= 0.0 ==> sqrt(x) >= 0.0 && sqrt(x) * sqrt(x) == x
  }

  function FbValue(a: real, b: real, e: real, sqrt: real -> real): real {
    sqrt(Times(a, a) + Times(b, b) + e) - (a - b)
  }

  lemma FbTermValue(u: Expr, h: Expr, eps: Expr)
    ensures forall env: Symbol -> real, sqrt: real -> real ::
      Eval(Sub(Sqrt(Add(Add(Pow(u, 2), Pow(h, 2)), eps)), Sub(u, h)), env, sqrt)
         == FbValue(Eval(u, env, sqrt), Eval(h, env, sqrt), Eval(eps, env, sqrt), sqrt)
  {
    var squares := Add(Pow(u, 2), Pow(h, 2));
    forall env: Symbol -> real, sqrt: real -> real
      ensures Eval(Sub(Sqrt(Add(squares, eps)), Sub(u, h)), env, sqrt)
           == FbValue(Eval(u, env, sqrt), Eval(h, env, sqrt), Eval(eps, env, sqrt), sqrt)
    {
      var a, b := Eval(u, env, sqrt), Eval(h, env, sqrt);
      assert Power(a, 2) == Times(a, a) by { assert Power(a, 1) == Times(a, 1.0) == a; }
      assert Power(b, 2) == Times(b, b) by { assert Power(b, 1) == Times(b, 1.0) == b; }
      assert Eval(squares, env, sqrt) == Times(a, a) + Times(b, b);
      assert Eval(Add(squares, eps), env, sqrt) == Times(a, a) + Times(b, b) + Eval(eps, env, sqrt);
    }
  }

  lemma SquareRootUnique(s: real, y: real)
    requires s >= 0.0 && y >= 0.0 && s * s == y * y
    ensures s == y
  {
    assert (s - y) * (s + y) == s * s - y * y;
    if s + y != 0.0 {
      assert s - y == (s - y) * (s + y) / (s + y);
    }
  }

  /** With regularisation e >= 0 the Fischer-Burmeister residual vanishes exactly when
      u >= h and 2 u h = -e. */
  lemma FbZero(a: real, b: real, e: real, sqrt: real -> real)
    requires IsSqrt(sqrt) && e >= 0.0
    ensures FbValue(a, b, e, sqrt) == 0.0 <==> a - b >= 0.0 && 2.0 * a * b + e == 0.0
  {
    var x := a * a + b * b + e;
    assert x >= 0.0 by { assert a * a >= 0.0 && b * b >= 0.0; }
    var s := sqrt(x);
    assert s >= 0.0 && s * s == x;
    assert (a - b) * (a - b) == a * a - 2.0 * a * b + b * b;
    if a - b >= 0.0 && 2.0 * a * b + e == 0.0 {
      SquareRootUnique(s, a - b);
    }
  }

  /** Without regularisation the residual vanishes exactly on the complementarity set
      u >= 0, h <= 0, one of the two zero (so u h = 0). */
  lemma FbZeroIsComplementarity(a: real, b: real, sqrt: real -> real)
    requires IsSqrt(sqrt)
    ensures FbValue(a, b, 0.0, sqrt) == 0.0 <==> a >= 0.0 && b <= 0.0 && (a == 0.0 || b == 0.0)
  {
    FbZero(a, b, 0.0, sqrt);
    if 2.0 * a * b == 0.0 && a != 0.0 {
      assert b == (2.0 * a * b) / (2.0 * a);
    }
  }


  /** The value of a substituted entry of hu is the Fischer-Burmeister function of its
      complementarity variable, its inequality constraint and its epsilon. */
  lemma SubstitutedEntryValue(f: seq<Expr>, C: seq<Expr>, h: seq<Expr>, L: Expr, phi: Expr, dimu: nat, i: nat, env: Symbol -> real, sqrt: real -> real)
    requires i < |h|
    ensures Eval(Derive(f, C, h, L, phi, dimu).hu[dimu + |C| + i], env, sqrt) ==
      FbValue(env(U(dimu + |C| + i)), Eval(h[i], env, sqrt), env(FbEps(i)), sqrt)
  {
    var k := dimu + |C| + i;
  }

  /** Each substituted entry of hu vanishes, for fb_eps[i] = 0, exactly when its
      complementarity variable and its inequality constraint are complementary. */
  lemma SubstitutedEntryComplementarity(f: seq<Expr>, C: seq<Expr>, h: seq<Expr>, L: Expr, phi: Expr, dimu: nat, i: nat, env: Symbol -> real, sqrt: real -> real)
    requires i < |h| && IsSqrt(sqrt) && env(FbEps(i)) == 0.0
    ensures var u, hv := env(U(dimu + |C| + i)), Eval(h[i], env, sqrt);
      Eval(Derive(f, C, h, L, phi, dimu).hu[dimu + |C| + i], env, sqrt) == 0.0
      <==> u >= 0.0 && hv <= 0.0 && (u == 0.0 || hv == 0.0)
  {
    SubstitutedEntryValue(f, C, h, L, phi, dimu, i, env, sqrt);
    FbZeroIsComplementarity(env(U(dimu + |C| + i)), Eval(h[i], env, sqrt), sqrt);
  }

}

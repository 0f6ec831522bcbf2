/** The AutoGenU builder: a stateful object that collects the problem definition
    (parameters, functions, epsilons, saturations) and the solver settings, and turns
    them into the header and the driver (autogenu/autogenu.py, class AutoGenU). The six
    "is ... set" flags of the source are the `Some?` of the corresponding fields. */
module AutoGen {
  import opened Outcomes
  import opened Symbolic
  import opened Registry
  import opened Formulation
  import opened Emission
  import opened SolverConfig

  class AutoGenU {
    const modelName: string
    const dimx: nat
    const dimu: nat
    var scalarVars: seq<ScalarVar>
    var arrayVars: seq<ArrayVar>
    var saturations: seq<Saturation>
    var functions: Option<Conditions>
    var fbEpsilon: Option<seq<real>>
    var solverType: Option<SolverType>
    var solverParameters: Option<SolverParameters>
    var initialization: Option<Initialization>
    var simulation: Option<Simulation>
    var initialLagrangeMultiplier: Option<seq<real>>

    /** What the setters guarantee about the state they leave behind. */
    ghost predicate Valid()
      reads this
    {
      dimx > 0 && dimu > 0 &&
      ScalarsWellFormed(scalarVars) && ArraysWellFormed(arrayVars) &&
      SaturationsWellFormed(saturations, dimu) &&
      (functions.Some? ==>
         var c := functions.value;
         |c.f| == dimx && |c.hx| == dimx && |c.phix| == dimx && |c.hu| == dimu + c.dimc + c.dimh) &&
      (fbEpsilon.Some? ==> forall i :: 0 <= i < |fbEpsilon.value| ==> fbEpsilon.value[i] >= 0.0) &&
      (solverParameters.Some? ==> PositiveParameters(solverParameters.value)) &&
      (initialization.Some? ==>
         functions.Some? && |initialization.value.guess| >= dimu &&
         initialization.value.tolerance > 0.0 && initialization.value.maxIter > 0) &&
      (simulation.Some? ==>
         |simulation.value.x0| == dimx && simulation.value.length > 0.0 && simulation.value.dt > 0.0)
    }

    /** A builder for a model with `dimx` states and `dimu` inputs; nothing is registered
        and nothing is set. */
    constructor (modelName: string, dimx: nat, dimu: nat)
      requires dimx > 0 && dimu > 0
      ensures Valid()
      ensures this.modelName == modelName && this.dimx == dimx && this.dimu == dimu
      ensures scalarVars == [] && arrayVars == [] && saturations == []
      ensures functions.None? && fbEpsilon.None? && solverType.None? && solverParameters.None? &&
              initialization.None? && simulation.None? && initialLagrangeMultiplier.None?
    {
      this.modelName := modelName;
      this.dimx := dimx;
      this.dimu := dimu;
      scalarVars := [];
      arrayVars := [];
      saturations := [];
      functions := None;
      fbEpsilon := None;
      solverType := None;
      solverParameters := None;
      initialization := None;
      simulation := None;
      initialLagrangeMultiplier := None;
    }

    // ----- Symbols -----

    /** The time symbol. */
    function DefineT(): (t: Expr)
      ensures t.Var? && FreeSyms(t) == {Named("t")}
    {
      Var(Named("t"))
    }

    /** The state symbols `x[0:dimx]`: exactly those hx and phix differentiate by. */
    function DefineX(): (xs: seq<Expr>)
      ensures |xs| == dimx
      ensures forall i :: 0 <= i < dimx ==> xs[i] == Var(X(i))
    {
      Vector("x", dimx)
    }

    /** The input symbols `u[0:dimu]`: the first dimu of those hu differentiates by. */
    function DefineU(): (us: seq<Expr>)
      ensures |us| == dimu
      ensures forall i :: 0 <= i < dimu ==> us[i] == Var(U(i))
    {
      Vector("u", dimu)
    }

    // ----- Parameters -----

    /** Registers a scalar parameter with value 0, even if the name is already taken. */
    method DefineScalarVar(name: string) returns (sym: Expr)
      requires Valid()
      modifies this`scalarVars
      ensures Valid()
      ensures scalarVars == old(scalarVars) + ScalarEntries([name])
      ensures sym == Var(Named(name))
    {
      sym := Var(Named(name));
      scalarVars := scalarVars + [ScalarVar(sym, name, 0.0)];
    }

    /** Registers the scalar parameters one after the other. */
    method DefineScalarVars(names: seq<string>) returns (syms: seq<Expr>)
      requires Valid()
      modifies this`scalarVars
      ensures Valid()
      ensures scalarVars == old(scalarVars) + ScalarEntries(names)
      ensures |syms| == |names| && forall i :: 0 <= i < |names| ==> syms[i] == Var(Named(names[i]))
    {
      syms := [];
      var i := 0;
      while i < |names|
        invariant 0 <= i <= |names| && Valid()
        invariant scalarVars == old(scalarVars) + ScalarEntries(names[..i])
        invariant |syms| == i && forall j :: 0 <= j < i ==> syms[j] == Var(Named(names[j]))
      {
        var sym := Var(Named(names[i]));
        assert ScalarEntries(names[..i + 1]) == ScalarEntries(names[..i]) + [ScalarVar(sym, names[i], 0.0)];
        scalarVars := scalarVars + [ScalarVar(sym, names[i], 0.0)];
        syms := syms + [sym];
        i := i + 1;
      }
      assert names[..i] == names;
    }

    /** Registers an array parameter of `dim` elements with no values yet; a dimension
        below 1 is refused. */
    method DefineArrayVar(name: string, dim: int) returns (r: Result<seq<Expr>>)
      requires Valid()
      modifies this`arrayVars
      ensures Valid()
      ensures dim <= 0 ==> r == Err(NonPositiveDimension) && arrayVars == old(arrayVars)
      ensures dim > 0 ==>
        r == Ok(Vector(name, dim)) && arrayVars == old(arrayVars) + [ArrayVar(Vector(name, dim), name, [])]
    {
      if dim <= 0 {
        return Err(NonPositiveDimension);
      }
      var syms := Vector(name, dim);
      arrayVars := arrayVars + [ArrayVar(syms, name, [])];
      r := Ok(syms);
    }

    /** Every entry named `key` takes `value`; the loop of set_scalar_var(s). */
    method AssignScalar(key: string, value: real)
      requires Valid()
      modifies this`scalarVars
      ensures Valid()
      ensures scalarVars == AssignByName(old(scalarVars), key, value)
    {
      ghost var before := scalarVars;
      var k := 0;
      while k < |scalarVars|
        invariant 0 <= k <= |scalarVars| == |before|
        invariant forall j :: 0 <= j < k ==> scalarVars[j] == AssignByName(before, key, value)[j]
        invariant forall j :: k <= j < |before| ==> scalarVars[j] == before[j]
      {
        if scalarVars[k].name == key {
          scalarVars := scalarVars[k := scalarVars[k].(value := value)];
        }
        k := k + 1;
      }
      assert scalarVars == AssignByName(before, key, value);
    }

    /** set_scalar_var as written: the entries named by the first character of `name`
        take the value; indexing the empty name raises as soon as there is an entry. */
    method SetScalarVar(name: string, value: real) returns (r: Outcome)
      requires Valid()
      modifies this`scalarVars
      ensures Valid()
      ensures name == [] && old(scalarVars) != [] ==> r == Fail(IndexOutOfBounds) && scalarVars == old(scalarVars)
      ensures name == [] && old(scalarVars) == [] ==> r == Pass && scalarVars == []
      ensures name != [] ==> r == Pass && scalarVars == AssignByFirstCharacter(old(scalarVars), name, value)
    {
      if name == [] {
        return if scalarVars == [] then Pass else Fail(IndexOutOfBounds);
      }
      AssignScalar(name[..1], value);
      r := Pass;
    }

    /** set_scalar_vars: the pairs applied in order, each to every entry of its name. */
    method SetScalarVars(pairs: seq<(string, real)>)
      requires Valid()
      modifies this`scalarVars
      ensures Valid()
      ensures scalarVars == AssignPairs(old(scalarVars), pairs)
    {
      var i := 0;
      while i < |pairs|
        invariant 0 <= i <= |pairs| && Valid()
        invariant scalarVars == AssignPairs(old(scalarVars), pairs[..i])
      {
        assert pairs[..i + 1][..i] == pairs[..i];
        AssignScalar(pairs[i].0, pairs[i].1);
        i := i + 1;
      }
      assert pairs[..i] == pairs;
    }

    /** set_array_var: every entry of that name whose dimension equals the number of
        values takes them. */
    method SetArrayVar(name: string, values: seq<real>)
      requires Valid()
      modifies this`arrayVars
      ensures Valid()
      ensures arrayVars == AssignArray(old(arrayVars), name, values)
    {
      ghost var before := arrayVars;
      var k := 0;
      while k < |arrayVars|
        invariant 0 <= k <= |arrayVars| == |before|
        invariant forall j :: 0 <= j < k ==> arrayVars[j] == AssignArray(before, name, values)[j]
        invariant forall j :: k <= j < |before| ==> arrayVars[j] == before[j]
      {
        if arrayVars[k].name == name && |arrayVars[k].syms| == |values| {
          arrayVars := arrayVars[k := arrayVars[k].(values := values)];
        }
        k := k + 1;
      }
      assert arrayVars == AssignArray(before, name, values);
    }

    /** set_FB_epsilon: each epsilon is checked in turn; the first negative one refuses
        the whole array. Its length is checked only when the header is written. */
    method SetFbEpsilon(eps: seq<real>) returns (r: Outcome)
      requires Valid()
      modifies this`fbEpsilon
      ensures Valid()
      ensures r.Pass? <==> forall i :: 0 <= i < |eps| ==> eps[i] >= 0.0
      ensures r.Pass? ==> fbEpsilon == Some(eps)
      ensures r.Fail? ==> r.error == NegativeFbEpsilon && fbEpsilon == old(fbEpsilon)
    {
      var i := 0;
      while i < |eps|
        invariant 0 <= i <= |eps|
        invariant forall j :: 0 <= j < i ==> eps[j] >= 0.0
      {
        if eps[i] < 0.0 {
          return Fail(NegativeFbEpsilon);
        }
        i := i + 1;
      }
      fbEpsilon := Some(eps);
      r := Pass;
    }

    // ----- The optimal control problem -----

    /** set_functions: requires one state equation per state, then stores the dynamics
        and the derived conditions, with the Fischer-Burmeister substitution done entry by
        entry. */
    method SetFunctions(f: seq<Expr>, C: seq<Expr>, h: seq<Expr>, L: Expr, phi: Expr) returns (r: Outcome)
      requires Valid()
      modifies this`functions
      ensures Valid()
      ensures r.Pass? <==> |f| == dimx
      ensures r.Pass? ==> functions == Some(Derive(f, C, h, L, phi, dimu))
      ensures r.Fail? ==> r.error == WrongStateDimension && functions == old(functions)
    {
      if |f| == 0 || |f| != dimx {
        return Fail(WrongStateDimension);
      }
      var dimuc := dimu + |C|;
      var H := Hamiltonian(L, f, C, h, dimu);
      var raw := Gradient(H, Symbols("u", dimuc + |h|));
      var hu := SubstituteInPlace(raw, h, dimuc);
      var c := Conditions(f, |C|, |h|, Gradient(H, Symbols("x", dimx)), hu, Gradient(phi, Symbols("x", dimx)));
      DeriveFromParts(f, C, h, L, phi, dimu, hu);
      functions := Some(c);
      r := Pass;
    }

    /** add_control_input_saturation: the checks in order, then every descriptor with
        that index is overwritten, or the new one appended if there is none. */
    method AddControlInputSaturation(index: int, uMin: real, uMax: real, dummyWeight: real, quadraticWeight: real)
      returns (r: Outcome)
      requires Valid()
      modifies this`saturations
      ensures Valid()
      ensures var s := Saturation(index, uMin, uMax, dummyWeight, quadraticWeight);
        (r.Pass? <==> Admissible(s, dimu)) &&
        (r.Pass? ==> saturations == Upsert(old(saturations), s)) &&
        (r.Fail? ==> saturations == old(saturations))
      ensures r == Fail(InputIndexOutOfRange) <==> index < 0 || index >= dimu
      ensures r == Fail(EmptyInputBounds) <==> 0 <= index < dimu && uMin >= uMax
      ensures r == Fail(NegativeWeight) <==>
        0 <= index < dimu && uMin < uMax && (dummyWeight < 0.0 || quadraticWeight < 0.0)
    {
      if index < 0 || index >= dimu {
        return Fail(InputIndexOutOfRange);
      }
      if uMin >= uMax {
        return Fail(EmptyInputBounds);
      }
      if dummyWeight < 0.0 || quadraticWeight < 0.0 {
        return Fail(NegativeWeight);
      }
      var s := Saturation(index, uMin, uMax, dummyWeight, quadraticWeight);
      ghost var before := saturations;
      var found := false;
      var k := 0;
      while k < |saturations|
        invariant 0 <= k <= |saturations| == |before|
        invariant found <==> HasIndex(before[..k], index)
        invariant forall j :: 0 <= j < k ==> saturations[j] == (if before[j].index == index then s else before[j])
        invariant forall j :: k <= j < |before| ==> saturations[j] == before[j]
      {
        assert before[..k + 1] == before[..k] + [before[k]];
        if saturations[k].index == index {
          found := true;
          saturations := saturations[k := s];
        }
        k := k + 1;
      }
      assert before[..k] == before;
      if !found {
        saturations := saturations + [s];
      }
      assert saturations == Upsert(before, s);
      UpsertWellFormed(before, s, dimu);
      r := Pass;
    }

    // ----- Solver settings -----

    method SetSolverType(t: SolverType)
      requires Valid()
      modifies this`solverType
      ensures Valid()
      ensures solverType == Some(t)
    {
      solverType := Some(t);
    }

    /** set_solver_parameters: all six values must be positive. */
    method SetSolverParameters(tf: real, alpha: real, n: int, fdIncrement: real, zeta: real, kmax: int)
      returns (r: Outcome)
      requires Valid()
      modifies this`solverParameters
      ensures Valid()
      ensures var p := SolverParameters(tf, alpha, n, fdIncrement, zeta, kmax);
        (r.Pass? <==> PositiveParameters(p)) &&
        (r.Pass? ==> solverParameters == Some(p)) &&
        (r.Fail? ==> r.error == NonPositiveParameter && solverParameters == old(solverParameters))
    {
      if tf <= 0.0 || alpha <= 0.0 || n <= 0 || fdIncrement <= 0.0 || zeta <= 0.0 || kmax <= 0 {
        return Fail(NonPositiveParameter);
      }
      solverParameters := Some(SolverParameters(tf, alpha, n, fdIncrement, zeta, kmax));
      r := Pass;
    }

    /** set_initialization_parameters: reads dimc and dimh first, which fails before the
        functions are set; the guess must cover every input and multiplier; the saturation
        multiplier guess is kept only when one is given. */
    method SetInitializationParameters(guess: seq<real>, tolerance: real, maxIter: int, multiplier: Option<seq<real>>)
      returns (r: Outcome)
      requires Valid()
      modifies this`initialization, this`initialLagrangeMultiplier
      ensures Valid()
      ensures functions.None? ==> r == Fail(MissingAttribute)
      ensures functions.Some? ==>
        (r.Pass? <==> |guess| == dimu + functions.value.dimc + functions.value.dimh && tolerance > 0.0 && maxIter > 0) &&
        (r.Fail? && |guess| != dimu + functions.value.dimc + functions.value.dimh ==> r.error == WrongGuessDimension)
      ensures r.Pass? ==>
        initialization == Some(Initialization(guess, tolerance, maxIter)) &&
        initialLagrangeMultiplier == (if multiplier.Some? then multiplier else old(initialLagrangeMultiplier))
      ensures r.Fail? ==>
        initialization == old(initialization) && initialLagrangeMultiplier == old(initialLagrangeMultiplier)
    {
      if functions.None? {
        return Fail(MissingAttribute);
      }
      var dimuch := dimu + functions.value.dimc + functions.value.dimh;
      if |guess| != dimuch {
        return Fail(WrongGuessDimension);
      }
      if tolerance <= 0.0 || maxIter <= 0 {
        return Fail(NonPositiveParameter);
      }
      initialization := Some(Initialization(guess, tolerance, maxIter));
      if multiplier.Some? {
        initialLagrangeMultiplier := multiplier;
      }
      r := Pass;
    }

    /** set_simulation_parameters: one initial value per state, positive length and period. */
    method SetSimulationParameters(t0: real, x0: seq<real>, length: real, dt: real) returns (r: Outcome)
      requires Valid()
      modifies this`simulation
      ensures Valid()
      ensures r.Pass? <==> |x0| == dimx && length > 0.0 && dt > 0.0
      ensures r.Pass? ==> simulation == Some(Simulation(t0, x0, length, dt))
      ensures r.Fail? ==>
        simulation == old(simulation) && r.error == (if |x0| != dimx then WrongStateDimension else NonPositiveParameter)
    {
      if |x0| != dimx {
        return Fail(WrongStateDimension);
      }
      if length <= 0.0 || dt <= 0.0 {
        return Fail(NonPositiveParameter);
      }
      simulation := Some(Simulation(t0, x0, length, dt));
      r := Pass;
    }

    // ----- Generation -----

    /** The epsilons as far as the header needs them; absent epsilons are only possible
        when there are no inequality constraints, and then none are written. */
    function Epsilons(): seq<real>
      reads this
    {
      if fbEpsilon.Some? then fbEpsilon.value else []
    }

    /** Whether generate_source_files gets past its checks. */
    predicate SourceChecksPass()
      reads this
    {
      functions.Some? &&
      (functions.value.dimh > 0 ==> fbEpsilon.Some? && |fbEpsilon.value| == functions.value.dimh)
    }

    /** generate_source_files: the checks, then (if asked) the stored outputs are
        simplified in place, then the header is written. The simplification stays even
        when writing the literals fails afterwards. */
    method GenerateSourceFiles(useSimplification: bool, useCse: bool) returns (r: Result<seq<Line>>)
      requires Valid()
      modifies this`functions
      ensures Valid()
      ensures functions.None? ==> r == Err(FunctionsNotSet)
      ensures old(functions).Some? && old(functions).value.dimh > 0 && fbEpsilon.None? ==> r == Err(FbEpsilonNotSet)
      ensures (old(functions).Some? && old(functions).value.dimh > 0 && fbEpsilon.Some? &&
               |fbEpsilon.value| != old(functions).value.dimh) ==> r == Err(FbEpsilonLengthMismatch)
      ensures functions == (if old(SourceChecksPass()) && useSimplification then Some(Simplified(old(functions).value))
                            else old(functions))
      ensures old(SourceChecksPass()) ==>
        r == Header(modelName, dimx, dimu, functions.value, scalarVars, arrayVars, Epsilons(), useCse) &&
        (r.Ok? <==> forall k :: 0 <= k < |arrayVars| ==> arrayVars[k].values != [])
    {
      if functions.None? {
        return Err(FunctionsNotSet);
      }
      var c := functions.value;
      if c.dimh > 0 {
        if fbEpsilon.None? {
          return Err(FbEpsilonNotSet);
        }
        if |fbEpsilon.value| != c.dimh {
          return Err(FbEpsilonLengthMismatch);
        }
      }
      assert c.dimh == 0 || |Epsilons()| == c.dimh;
      if useSimplification {
        c := Simplified(c);
        functions := Some(c);
      }
      r := WriteHeader(modelName, dimx, dimu, c, scalarVars, arrayVars, Epsilons(), useCse);
    }

    /** The number of equality and inequality constraints, once set_functions has run. */
    function ConstraintCounts(): Option<(nat, nat)>
      reads this
    {
      if functions.Some? then Some((functions.value.dimc, functions.value.dimh)) else None
    }

    /** generate_main: the flags in order, then the driver and bindings for the two
        implemented solvers. */
    method GenerateMain() returns (r: MainOutcome)
      requires Valid()
      ensures r == Main(solverType, solverParameters, initialization, simulation, initialLagrangeMultiplier,
                        dimu, ConstraintCounts())
      ensures r.Generated? <==>
        solverType.Some? && solverParameters.Some? && initialization.Some? && simulation.Some? &&
        solverType.value != MSCGMRESWithInputSaturation
      ensures r.Generated? ==>
        r.main.multiplier.None? && r.main.kmax <= r.bindings.kmax &&
        1 <= r.main.kmax && 1 <= r.bindings.kmaxInit && 1 <= r.bindings.kmax &&
        1 <= r.main.kmaxInit <= r.main.params.kmax && r.main.kmaxInit <= |r.main.init.guess|
    {
      MainOutcomes(solverType, solverParameters, initialization, simulation, initialLagrangeMultiplier,
                   dimu, ConstraintCounts());
      r := Main(solverType, solverParameters, initialization, simulation, initialLagrangeMultiplier,
                dimu, ConstraintCounts());
      if r.Generated? {
        var p := solverParameters.value;
        KrylovCapsBounds(p, initialization.value, dimu, functions.value.dimc, functions.value.dimh);
      }
    }
  }
}

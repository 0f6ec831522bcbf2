/** The solver settings collected by the set_solver_* / set_*_parameters setters, and what
    generate_main makes of them: which solver the driver instantiates and the Krylov
    iteration caps it and the binding files declare (autogenu/autogenu.py, 183-282 and
    474-899). */
module SolverConfig {
  import opened Outcomes

  /** The three solver variants set_solver_type accepts. */
  datatype SolverType = ContinuationGMRES | MultipleShootingCGMRES | MSCGMRESWithInputSaturation

  /** Horizon length Tf and growth rate alpha, grid size N, finite-difference increment,
      stabilisation zeta and the Krylov iteration bound kmax. */
  datatype SolverParameters = SolverParameters(tf: real, alpha: real, n: int, fdIncrement: real, zeta: real, kmax: int)

  /** The initial guess of the zero-horizon solve, its Newton tolerance and iteration bound. */
  datatype Initialization = Initialization(guess: seq<real>, tolerance: real, maxIter: int)

  /** Initial time, initial state, simulated length and sampling period. */
  datatype Simulation = Simulation(t0: real, x0: seq<real>, length: real, dt: real)

  /** What set_solver_parameters demands: all six values positive. */
  predicate PositiveParameters(p: SolverParameters) {
    p.tf > 0.0 && p.alpha > 0.0 && p.n > 0 && p.fdIncrement > 0.0 && p.zeta > 0.0 && p.kmax > 0
  }

  function Min(a: int, b: int): (m: int)
    ensures m <= a && m <= b && (m == a || m == b)
  {
    if a <= b then a else b
  }

  // ----- Krylov caps -----

  /** kmax_init of main.cpp: the bound capped by the length of the initial guess. */
  function MainKmaxInit(p: SolverParameters, init: Initialization): (k: int)
    ensures k <= p.kmax && k <= |init.guess| && (k == p.kmax || k == |init.guess|)
  {
    Min(p.kmax, |init.guess|)
  }

  /** kmax of main.cpp: the bound capped by N (dimu + dimc); dimh is not counted. */
  function MainKmax(p: SolverParameters, dimu: nat, dimc: nat): (k: int)
    ensures k <= p.kmax && k <= p.n * (dimu + dimc) && (k == p.kmax || k == p.n * (dimu + dimc))
  {
    Min(p.kmax, p.n * (dimu + dimc))
  }

  /** kmax_init of the zero-horizon binding: the bound capped by dimc + dimu + dimh. */
  function BindingKmaxInit(p: SolverParameters, dimu: nat, dimc: nat, dimh: nat): (k: int)
    ensures k <= p.kmax && k <= dimc + dimu + dimh && (k == p.kmax || k == dimc + dimu + dimh)
  {
    Min(p.kmax, dimc + dimu + dimh)
  }

  /** kmax of the two shooting bindings: the bound capped by N (dimc + dimu + dimh). */
  function BindingKmax(p: SolverParameters, dimu: nat, dimc: nat, dimh: nat): (k: int)
    ensures k <= p.kmax && k <= p.n * (dimc + dimu + dimh) && (k == p.kmax || k == p.n * (dimc + dimu + dimh))
  {
    Min(p.kmax, p.n * (dimc + dimu + dimh))
  }

  lemma ProductAtLeastOne(n: int, d: int)
    requires n >= 1 && d >= 1
    ensures n * d >= 1 && n * d >= d
  {
    assert n * d == (n - 1) * d + d;
    assert (n - 1) * d >= 0;
  }

  /** With admissible parameters every cap is a positive number of iterations that
      exceeds neither the requested bound nor the number of unknowns it is capped by. */
  lemma KrylovCapsBounds(p: SolverParameters, init: Initialization, dimu: nat, dimc: nat, dimh: nat)
    requires PositiveParameters(p) && dimu > 0
    ensures |init.guess| >= 1 ==>
      1 <= MainKmaxInit(p, init) <= p.kmax && MainKmaxInit(p, init) <= |init.guess|
    ensures 1 <= MainKmax(p, dimu, dimc) <= p.kmax && MainKmax(p, dimu, dimc) <= p.n * (dimu + dimc)
    ensures 1 <= BindingKmax(p, dimu, dimc, dimh) <= p.kmax &&
      BindingKmax(p, dimu, dimc, dimh) <= p.n * (dimc + dimu + dimh)
    ensures 1 <= BindingKmaxInit(p, dimu, dimc, dimh) <= p.kmax &&
      BindingKmaxInit(p, dimu, dimc, dimh) <= dimc + dimu + dimh
  {
    ProductAtLeastOne(p.n, dimu + dimc);
    ProductAtLeastOne(p.n, dimc + dimu + dimh);
  }

  /** The driver never allows more iterations than the bindings, and allows as many
      exactly when there are no inequality constraints or the requested bound is the
      smaller cap anyway. */
  lemma MainKmaxAgainstBinding(p: SolverParameters, dimu: nat, dimc: nat, dimh: nat)
    requires p.n > 0
    ensures MainKmax(p, dimu, dimc) <= BindingKmax(p, dimu, dimc, dimh)
    ensures MainKmax(p, dimu, dimc) == BindingKmax(p, dimu, dimc, dimh) <==>
      dimh == 0 || p.kmax <= p.n * (dimu + dimc)
  {
    var small, large := p.n * (dimu + dimc), p.n * (dimc + dimu + dimh);
    assert large == small + p.n * dimh;
    if dimh > 0 {
      ProductAtLeastOne(p.n, dimh);
    } else {
      assert p.n * dimh == 0;
    }
  }

  // ----- generate_main -----

  /** The settings main.cpp is written with: the solver it instantiates, the parameters
      it prints, the two caps, whether it writes the saturation-multiplier guess, and
      whether it also seeds the costate and state of a multiple-shooting solver. */
  datatype MainProgram = MainProgram(
    solver: SolverType, params: SolverParameters, init: Initialization, sim: Simulation,
    kmaxInit: int, kmax: int, multiplier: Option<seq<real>>, seedsLmdAndState: bool)

  /** The caps declared by the binding files. */
  datatype Bindings = Bindings(kmaxInit: int, kmax: int)

  /** generate_main either writes the driver and the bindings, returns (without raising)
      a NotImplementedError object, or raises. */
  datatype MainOutcome =
    | Generated(main: MainProgram, bindings: Bindings)
    | ReturnedNotImplemented
    | Failed(error: Error)

  /** generate_main: the four "set" flags in order, the solver dispatch, then the caps;
      dimc and dimh are attributes that exist only once the functions are set. */
  function Main(solverType: Option<SolverType>, params: Option<SolverParameters>, init: Option<Initialization>,
                sim: Option<Simulation>, multiplier: Option<seq<real>>, dimu: nat, dims: Option<(nat, nat)>): (r: MainOutcome)
    ensures r.Failed? <==>
      solverType.None? || params.None? || init.None? || sim.None? ||
      (solverType.value != MSCGMRESWithInputSaturation && dims.None?)
    ensures r.Failed? && solverType.Some? && params.Some? && init.Some? && sim.Some? ==> r.error == MissingAttribute
    ensures r.Generated? ==>
      r.main.solver == solverType.value && r.main.params == params.value && r.main.init == init.value &&
      r.main.sim == sim.value && (r.main.seedsLmdAndState <==> solverType.value == MultipleShootingCGMRES)
  {
    if solverType.None? then Failed(SolverTypeNotSet)
    else if params.None? then Failed(SolverParametersNotSet)
    else if init.None? then Failed(InitializationNotSet)
    else if sim.None? then Failed(SimulationNotSet)
    else if solverType.value == MSCGMRESWithInputSaturation then ReturnedNotImplemented
    else if dims.None? then Failed(MissingAttribute)
    else
      var t, p, (dimc, dimh) := solverType.value, params.value, dims.value;
      var saturationGuess := if t == MSCGMRESWithInputSaturation then multiplier else None;
      Generated(
        MainProgram(t, p, init.value, sim.value, MainKmaxInit(p, init.value), MainKmax(p, dimu, dimc),
                    saturationGuess, t == MultipleShootingCGMRES),
        Bindings(BindingKmaxInit(p, dimu, dimc, dimh), BindingKmax(p, dimu, dimc, dimh)))
  }

  /** The driver is written exactly when the four settings and the functions are present
      and the solver is not the saturation variant; that variant always ends in the
      returned error object, so the multiplier block is never written. When the initial
      guess has the length set_initialization_parameters demands, the driver and the
      zero-horizon binding agree on kmax_init; the driver's kmax never exceeds the
      bindings'. */
  lemma MainOutcomes(solverType: Option<SolverType>, params: Option<SolverParameters>, init: Option<Initialization>,
                     sim: Option<Simulation>, multiplier: Option<seq<real>>, dimu: nat, dims: Option<(nat, nat)>)
    requires params.Some? ==> PositiveParameters(params.value)
    ensures var r := Main(solverType, params, init, sim, multiplier, dimu, dims);
      (r.Generated? <==> solverType.Some? && params.Some? && init.Some? && sim.Some? && dims.Some? &&
                         solverType.value != MSCGMRESWithInputSaturation) &&
      (r.ReturnedNotImplemented? <==> solverType == Some(MSCGMRESWithInputSaturation) && params.Some? &&
                                      init.Some? && sim.Some?) &&
      (r.Generated? ==>
         r.main.multiplier.None? && r.main.solver == solverType.value &&
         r.main.kmax <= r.bindings.kmax &&
         (|init.value.guess| == dimu + dims.value.0 + dims.value.1 ==> r.main.kmaxInit == r.bindings.kmaxInit))
  {
    var r := Main(solverType, params, init, sim, multiplier, dimu, dims);
    if r.Generated? {
      MainKmaxAgainstBinding(params.value, dimu, dims.value.0, dims.value.1);
    }
  }
}

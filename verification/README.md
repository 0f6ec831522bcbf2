# AutoGenU builder: a verified model

AutoGenU (`autogenu/autogenu.py`) is the Python front end of a C/GMRES nonlinear model
predictive control code generator. A user builds one `AutoGenU` object per optimal-control
problem and works through it in order:

- **Registry.** The user declares the time, state and input symbols. The user also
  registers named scalar and array parameters and updates their values by name.
- **Saturation table.** Control-input saturation descriptors are upserted by input index.
- **Optimality conditions.** `set_functions` forms the Hamiltonian
  `H = L + Σ lmd[i] f[i] + Σ u[dimu+i] C[i] + Σ u[dimu+dimc+i] h[i]`. From it, it derives
  `hx = ∂H/∂x`, `hu = ∂H/∂u` and `phix = ∂phi/∂x`. The last `dimh` entries of `hu` are
  then replaced by the semismooth Fischer–Burmeister function
  `sqrt(u² + h² + fb_eps) - (u - h)`.
- **Header.** `generate_source_files` checks that the functions and the `fb_eps`
  regularisation are set. It optionally simplifies the outputs in place, then writes the
  header. The header holds the dimension constants, the parameter constants and array
  literals, the `fb_eps` array, and one member function per output. Each member function
  is written by `__write_function`, with or without common-subexpression elimination.
- **Solver configuration.** Four flag-guarded groups of solver settings are set.
  `generate_main` checks them, dispatches on the solver type and computes the Krylov
  iteration caps `kmax_init` and `kmax` of the driver and of the Python binding files.

## The Dafny modules

- `outcomes.dfy`: the error kinds, `Result`, `Outcome` and `Option`.
- `symbolic.dfy`: a small expression language.
  - It covers symbols, `+ - * /`, natural powers and `sqrt`.
  - `Diff` is the usual partial derivative, unsimplified.
  - `Eval` evaluates over the reals, with the square root as a parameter.
  - `Simplify` is a normaliser proved value-preserving.
- `cse.dfy`: a minimal common-subexpression eliminator. Its temporaries are named in order.
- `formulation.dfy`: the Hamiltonian, the Fischer–Burmeister function, and `Derive`.
  - `Derive` specifies what `set_functions` computes.
  - Lemmas state what the derived expressions evaluate to.
- `registry.dfy`: the parameter records and the saturation descriptors, with the
  functions that specify every update.
- `emission.dfy`: the header as a sequence of `Line`s rather than text.
  - `Header` specifies the header as a function.
  - `WriteFunction`, `EmitArrayLiteral` and `WriteHeader` are the loops that write it.
- `header_layout.dfy`: lemmas on which lines of each kind the header contains, in which
  order.
- `solver_config.dfy`: the solver settings and the Krylov caps, and `Main`, the outcome
  of `generate_main`.
- `autogenu.dfy`: the class `AutoGenU`.
  - The source's fields become fields.
  - The six `__is_*_set` flags become `Option` fields.
  - Each setter is a method with a `modifies` frame of the fields it writes, and it keeps
    the class invariant `Valid()`.

**Modelling conventions:**

- **Assertions.** A failing Python `assert` in a setter becomes a `Fail`/`Err` result
  naming the check, and the object is left unchanged. The constructor's asserts
  (`dimx > 0`, `dimu > 0`) become its precondition.
- **Header text.** The header is modelled as lines, not characters. Each line records
  what the source prints into it.

**Behaviour of the source worth noting:**

- `set_scalar_vars` updates *every* entry whose name matches.
- The Fischer–Burmeister term `sqrt(u² + h² + eps) - (u - h)` is zero (with `eps = 0`)
  exactly when `u >= 0`, `h <= 0` and one of them is zero.
- With the saturation solver, `generate_main` *returns* a `NotImplementedError` object
  rather than raising it (`SolverConfig.MainOutcome.ReturnedNotImplemented`).

## Model

| member | source | states |
|---|---|---|
| AutoGen.AutoGenU.constructor | autogenu/autogenu.py:26-41 | Requires `dimx > 0` and `dimu > 0`. Registries and saturation table start empty; nothing is set; the class invariant holds. |
| AutoGen.AutoGenU.DefineT | autogenu/autogenu.py:43-46 | The time handle is a single symbol whose only free symbol is `t`. |
| AutoGen.AutoGenU.DefineX | autogenu/autogenu.py:48-51 | Exactly `dimx` handles, the i-th being the state symbol `x[i]`. |
| AutoGen.AutoGenU.DefineU | autogenu/autogenu.py:53-56 | Exactly `dimu` handles, the i-th being the input symbol `u[i]`. |
| AutoGen.AutoGenU.DefineScalarVar | autogenu/autogenu.py:58-68 | Appends one entry (symbol, name, 0) without deduplicating. Earlier entries are unchanged. Returns that symbol. |
| AutoGen.AutoGenU.DefineScalarVars | autogenu/autogenu.py:70-83 | Appends one entry per name in order, each with value 0. Earlier entries are unchanged. Returns the symbols in the same order. |
| AutoGen.AutoGenU.DefineArrayVar | autogenu/autogenu.py:85-97 | A non-positive dimension is rejected and the registry is unchanged. Otherwise it appends (name[0:dim], name, no values) and returns the `dim` symbols. |
| AutoGen.AutoGenU.AssignScalar | autogenu/autogenu.py:131-134 | The inner loop of `set_scalar_vars`. Every entry with the given name takes the value; other entries, all names and all symbols are unchanged. |
| AutoGen.AutoGenU.SetScalarVar | autogenu/autogenu.py:112-122 | As written: the key compared is the first character of the name. An empty name raises an index error when the registry is non-empty and does nothing otherwise. |
| AutoGen.AutoGenU.SetScalarVars | autogenu/autogenu.py:124-134 | The pairs are applied in order, each to every entry of that name (see `Registry.AssignPairsValue`). |
| AutoGen.AutoGenU.SetArrayVar | autogenu/autogenu.py:136-148 | Every entry of that name whose dimension equals the number of values takes them. A length mismatch changes nothing. Array well-formedness is kept. |
| AutoGen.AutoGenU.SetFbEpsilon | autogenu/autogenu.py:99-110 | Succeeds iff every epsilon is non-negative, and then stores them. Otherwise it reports the negative epsilon and changes nothing. |
| AutoGen.AutoGenU.SetFunctions | autogenu/autogenu.py:150-181 | Succeeds iff `len(f) == dimx`, and then stores exactly the conditions `Formulation.Derive` specifies. Otherwise it reports the wrong dimension and changes nothing. |
| AutoGen.AutoGenU.AddControlInputSaturation | autogenu/autogenu.py:284-314 | Succeeds iff the index is in `[0, dimu)`, `u_min < u_max` and both weights are non-negative, and then upserts the descriptor. Each failing check maps to its own error, in the source's order; a failure changes nothing. Index uniqueness is kept. |
| AutoGen.AutoGenU.SetSolverType | autogenu/autogenu.py:183-197 | The solver type is set to the given variant. |
| AutoGen.AutoGenU.SetSolverParameters | autogenu/autogenu.py:199-229 | Succeeds iff all six parameters are positive, and then stores them. Otherwise nothing changes. |
| AutoGen.AutoGenU.SetInitializationParameters | autogenu/autogenu.py:231-260 | Fails with a missing attribute before `set_functions`. Otherwise it succeeds iff the guess has length `dimu + dimc + dimh` and tolerance and iteration bound are positive. A multiplier guess replaces the stored one only when given. A failure changes nothing. |
| AutoGen.AutoGenU.SetSimulationParameters | autogenu/autogenu.py:262-282 | Succeeds iff the initial state has length `dimx` and length and sampling period are positive. On failure the first failing check is reported and nothing changes. |
| AutoGen.AutoGenU.GenerateSourceFiles | autogenu/autogenu.py:316-471 | Functions unset, `fb_eps` unset or `fb_eps` of the wrong length each give their error. The outputs are simplified in place only when the checks pass and simplification is asked for. The result is then the header of the stored conditions; it is written iff every array parameter has values. |
| AutoGen.AutoGenU.GenerateMain | autogenu/autogenu.py:474-805 | Equals `SolverConfig.Main` of the stored settings. The driver is generated iff the four settings are present and the solver is not the saturation variant. The driver's `kmax` is then at most the bindings' `kmax`. Every cap, the driver's `kmax_init` included, is at least 1. `kmax_init` is at most the requested bound and the length of the guess. |
| Symbolic.DiffOfAbsentSymbol | autogenu/autogenu.py:175-176 | The derivative with respect to a symbol that does not occur evaluates to 0 everywhere. |
| Symbolic.SimplifyPreservesValue | autogenu/autogenu.py:332-336 | Simplification preserves the value at every point and introduces no new symbol. |
| Emission.SimplifiedPreservesValues | autogenu/autogenu.py:332-336 | Simplifying the four output vectors in place changes no dimension and no value. |
| Cse.Shared | autogenu/autogenu.py:1097 | Every subexpression chosen for a temporary occurs at least twice among the outputs' subterms, and none is chosen twice. |
| Cse.Eliminate | autogenu/autogenu.py:1097-1108 | One reduced expression per output, and temporaries named `Temp(0)`, `Temp(1)`, … in order. |
| Formulation.Derive | autogenu/autogenu.py:163-180 | `hx[i] = ∂H/∂x[i]` and `phix[i] = ∂phi/∂x[i]` for the `len(f)` states. `hu[k] = ∂H/∂u[k]` below `dimu + dimc`. The last `dimh` entries of `hu` are the Fischer–Burmeister terms of `u[dimuc+i]`, `h[i]` and `fb_eps[i]`. `dimc`, `dimh` and `f` are recorded. |
| Formulation.SubstituteInPlace | autogenu/autogenu.py:178-179 | The loop that overwrites `hu[dimuc+i]` yields the raw gradient with exactly its last `dimh` entries replaced by the Fischer–Burmeister terms. |
| Formulation.NoInequalityNoSubstitution | autogenu/autogenu.py:175-179 | Without inequality constraints, `hu` is the raw gradient of the Hamiltonian. |
| Formulation.EvalWeightedSum | autogenu/autogenu.py:171-174 | A generator sum `Σ base[offset+i]·e[i]` evaluates to the dot product of the symbols' values with the expressions' values. |
| Formulation.Hamiltonian | autogenu/autogenu.py:171-174 | At every point `H` evaluates to `L + lmd·f + u[dimu..]·C + u[dimu+dimc..]·h`. |
| Formulation.DiffWeightedSum | autogenu/autogenu.py:171-176 | For expressions over the first `dimu` inputs, the derivative of a multiplier sum with respect to `u[m]` is the constraint that `u[m]` multiplies, or 0. |
| Formulation.HamiltonianMultiplierDerivative | autogenu/autogenu.py:171-176 | For a problem over the first `dimu` inputs, `∂H/∂u[m]` evaluates to `C[m-dimu]` or `h[m-dimu-dimc]` for every multiplier index `m`. |
| Formulation.EqualityResidualInHu | autogenu/autogenu.py:171-176 | The entry `hu[dimu+j]` is the residual of the j-th equality constraint. |
| Formulation.ReplacedEntryIsConstraint | autogenu/autogenu.py:171-179 | The raw entry that the substitution discards is the inequality constraint `h[i]` itself. |
| Formulation.FischerBurmeister | autogenu/autogenu.py:179 | At every point the emitted expression evaluates to `sqrt(u² + h² + eps) - (u - h)` of the operands' values. |
| Formulation.Substituted | autogenu/autogenu.py:178-179 | Same length as the raw gradient. The first `dimu + dimc` entries are unchanged. Entry `dimuc + i` is the Fischer–Burmeister term of `u[dimuc+i]`, `h[i]` and `fb_eps[i]`. |
| Formulation.FbZero | autogenu/autogenu.py:179 | For `eps >= 0` the term is zero iff `u - h >= 0` and `2uh + eps = 0`. |
| Formulation.FbZeroIsComplementarity | autogenu/autogenu.py:179 | For `eps = 0` the term is zero iff `u >= 0`, `h <= 0` and one of the two is zero. |
| Formulation.SubstitutedEntryValue | autogenu/autogenu.py:177-179 | `hu[dimuc+i]` evaluates to the Fischer–Burmeister value of `u[dimuc+i]`, `h[i]` and `fb_eps[i]`. |
| Formulation.SubstitutedEntryComplementarity | autogenu/autogenu.py:177-179 | With `fb_eps[i] = 0`, `hu[dimuc+i]` vanishes iff `u[dimuc+i] >= 0`, `h[i] <= 0` and one of them is zero. |
| Registry.ScalarEntries | autogenu/autogenu.py:77-83 | One entry per name, in order, each with that name, value 0 and the symbol of that name. |
| Registry.AssignByName | autogenu/autogenu.py:131-134 | Same length. Entries with the name take the value; all other entries are unchanged. Names and symbols never change. |
| Registry.FirstCharacterMissesLongNames | autogenu/autogenu.py:119-122 | `set_scalar_var` leaves unchanged every entry carrying a name of two or more characters that it was called with. |
| Registry.FirstCharacterWitness | autogenu/autogenu.py:119-122 | On the registry ["mass", "m"], `set_scalar_var("mass", 2.0)` changes "m" and not "mass". The by-name update changes "mass" only. |
| Registry.AssignByFirstCharacter | autogenu/autogenu.py:119-122 | `set_scalar_var` as written. Exactly the entries named by the one-character string of the first character take the value; names, symbols and the number of entries are unchanged. |
| Registry.AssignPairs | autogenu/autogenu.py:131-134 | Applying the pairs in order keeps the number of entries, every name and every symbol, and keeps symbols matching names. |
| Registry.AssignPairsValue | autogenu/autogenu.py:124-134 | After the pairs, each entry holds the value of the last pair naming it, or its old value. Count, names and symbols are unchanged. |
| Registry.AssignArray | autogenu/autogenu.py:145-148 | Entries of that name and matching dimension take the values; everything else is unchanged. With no matching dimension the registry is unchanged. Well-formedness is kept. |
| Registry.Upsert | autogenu/autogenu.py:305-314 | The table grows by one iff no descriptor has the index. The new descriptor is present, and descriptors of other indices are unchanged. Index uniqueness is kept. |
| Registry.UpsertWellFormed | autogenu/autogenu.py:299-314 | Upserting an admissible descriptor keeps the table admissible and free of duplicate indices. |
| Emission.FunctionLines | autogenu/autogenu.py:1096-1113 | One line per temporary (none without CSE), all of them declarations, then `name[i] = out[i]` for every component in index order. |
| Emission.WriteFunction | autogenu/autogenu.py:1082-1113 | The lines written are `Emission.FunctionLines`: the temporaries, then one assignment per component. |
| Emission.FunctionLinesAssignments | autogenu/autogenu.py:1096-1113 | With or without CSE, the assignments are exactly `name[i] = out[i]` for `i = 0 … len-1`, in index order. |
| Emission.FunctionLinesKinds | autogenu/autogenu.py:1096-1113 | Every line is an assignment to the target or, with CSE, the declaration of the temporary of its position. |
| Emission.FunctionLinesOrder | autogenu/autogenu.py:1096-1108 | No temporary is declared after an assignment: all temporaries come first. |
| Emission.FunctionLinesOtherTargets | autogenu/autogenu.py:1082-1113 | A function body assigns to no other output. |
| Emission.EmitArrayLiteral | autogenu/autogenu.py:386-392 | The literal of an array of `dim` elements holds its first `dim` values. There is an index error when fewer are stored. |
| Emission.Literal | autogenu/autogenu.py:386-392 | The literal succeeds iff at least `dim` values are stored; otherwise it is an index error. It carries the array's name and exactly `dim` values, element `i` being `values[i]`. |
| Emission.ArrayLines | autogenu/autogenu.py:386-392 | On success there is one literal per array parameter, in registration order, with that array's name and first `dim` values. A failure is an index error. |
| Emission.ArrayLinesSucceed | autogenu/autogenu.py:386-392 | For a well-formed registry the literals are written iff every array parameter has values. |
| Emission.ArrayLinesFailsEarly | autogenu/autogenu.py:386-392 | The first failing array parameter decides the error; later ones are never reached. |
| Emission.Header | autogenu/autogenu.py:337-459 | The header succeeds iff every array literal succeeds and, when `dimh > 0`, at least `dimh` epsilons are stored; any failure is an index error. It opens with the prologue and ends with the epilogue. |
| Emission.HeaderSucceeds | autogenu/autogenu.py:327-399 | Once the source checks pass, the header is written iff every array parameter has values. |
| Emission.WriteHeader | autogenu/autogenu.py:337-459 | The sequential writer produces exactly `Emission.Header`. Under the source checks it succeeds iff every array parameter has values. |
| HeaderLayout.HeaderSelect | autogenu/autogenu.py:366-459 | The header's lines of each kind. The integer constants are the dimensions. The real constants are the scalars. The literals are the arrays then `fb_eps`. The assignments to an output are exactly that output's. |
| HeaderLayout.DefinitionsSelect | autogenu/autogenu.py:405-459 | The four member functions contain no constant or literal, and the assignments to each output come only from its own function. |
| HeaderLayout.PreludeSelect | autogenu/autogenu.py:337-384 | The prelude's integer constants are the dimensions and its real constants are the scalar parameters. |
| HeaderLayout.HeaderDimensions | autogenu/autogenu.py:366-378 | The header's integer constants are `nx = dimx`, `nu = dimu`, `nc = dimc + dimh`, `nuc = dimu + dimc + dimh`, in this order. |
| HeaderLayout.HeaderScalars | autogenu/autogenu.py:381-384 | One real constant per registered scalar, in registration order, with its name and current value. |
| HeaderLayout.HeaderLiterals | autogenu/autogenu.py:386-399 | One literal per array with its name and first `dim` values. When `dimh > 0` it is followed by `fb_eps` with the first `dimh` epsilons. |
| HeaderLayout.HeaderAssignments | autogenu/autogenu.py:414-459 | Each output gets one assignment per component, indexed `0 … len-1`, to that output. Without CSE each right-hand side is the component itself. |
| SolverConfig.KrylovCapsBounds | autogenu/autogenu.py:542-728 | With admissible parameters, every cap is at least 1 and at most `kmax`. This includes the driver's `kmax_init`, given a non-empty guess. No cap exceeds the number of unknowns or guess entries it is capped by. |
| SolverConfig.MainKmaxInit | autogenu/autogenu.py:542 | The driver's `kmax_init` is the smaller of the requested bound and the length of the initial guess. |
| SolverConfig.MainKmax | autogenu/autogenu.py:584 | The driver's `kmax` is the smaller of the requested bound and `N (dimu + dimc)`. |
| SolverConfig.BindingKmaxInit | autogenu/autogenu.py:662 | The zero-horizon binding's `kmax_init` is the smaller of the requested bound and `dimc + dimu + dimh`. |
| SolverConfig.BindingKmax | autogenu/autogenu.py:694-695 | The shooting bindings' `kmax` is the smaller of the requested bound and `N (dimc + dimu + dimh)`. |
| SolverConfig.Main | autogenu/autogenu.py:481-584 | It fails iff one of the four settings is missing, or the solver is not the saturation variant and the constraint counts are missing. With all four settings present, the only failure is the missing attribute. A generated driver carries the solver, parameters, initialization and simulation as set. It seeds costate and state iff the solver is multiple shooting. |
| SolverConfig.MainKmaxAgainstBinding | autogenu/autogenu.py:584-695 | The driver's `kmax` never exceeds the bindings'. It equals them iff `dimh = 0` or `kmax <= N (dimu + dimc)`. |
| SolverConfig.MainOutcomes | autogenu/autogenu.py:481-584 | The driver is generated iff the four settings and the functions are present and the solver is not the saturation variant. That variant returns the error object whenever the four settings are present, so the multiplier block is never written. The driver's `kmax` is at most the bindings'. With a guess of length `dimu + dimc + dimh`, driver and binding agree on `kmax_init`. |

## Left out

- File and process side effects are not modelled: `__make_model_dir`, `generate_cmake`,
  `build`, `run_simulation` and `__remove_build_dir` only create directories, write
  fixed templates or run external tools.
- The text of the generated files is not modelled character by character.
  - The header is a sequence of `Line`s that records what each line carries.
  - `str()` of numbers and `sympy.ccode` rendering are not modelled.
  - The fixed template text of `ocp.hpp`, `main.cpp` and the binding files is not
    modelled.
  - From `main.cpp` and the bindings, only the solver dispatch, the settings written and
    the `kmax`/`kmax_init` values are modelled.
  - When a literal raises an index error, the partially written file is not modelled.
- The `symfunc` helper module and sympy are not part of this model.
  - Differentiation, simplification and CSE use the model's own minimal definitions over
    a small expression type.
  - `sympy.simplify` is replaced by a value-preserving normaliser, and
    `sympy.cse` by a repeated-subterm eliminator.
- Cse.Eliminate: does not state that the reduced outputs, with the temporaries
  substituted back, equal the original outputs, because the soundness of sympy's CSE is
  outside this model.
- Floating point is not modelled: values are reals, and the square root is a parameter,
  assumed to be a non-negative root where a lemma needs one.
- `isinstance` checks on names are discharged by the types, and so is the assert in
  `set_solver_type` that the argument is a `SolverType`.
- The saturation table is filled but never consumed by any generator, so no consumer is
  modelled.
- `generate_main` reads `__dimc`/`__dimh` and `__initial_Lagrange_multiplier`, which exist
  only after `set_functions` and an initialization with a multiplier. A missing `dimc` is
  modelled as a `MissingAttribute` error; the multiplier is never read on a generating path.
- Aliasing of the caller's lists is not modelled: the model stores values.
  - `set_functions` keeps the caller's `f` list, and simplification in
    `generate_source_files` rewrites it in place. The caller's list therefore changes too.
  - `set_array_var` and `set_FB_epsilon` keep the caller's list, so a later change by the
    caller changes the emitted literal. The model freezes the values at the call.
- AutoGen.AutoGenU.DefineArrayVar: assumes the name yields exactly `dim` symbols.
  - `sympy.symbols(name + '[0:dim]')` splits names containing a comma, a space or a
    colon into several symbol ranges, and the model does not capture that.
- The `simulation_plottor` module and the generated example programs are not part of this
  model.

## Findings

| source | as written | input that shows it | evidently intended | confidence | as-written member | corrected member |
|---|---|---|---|---|---|---|
| autogenu/autogenu.py:119-122 | `set_scalar_var` compares `scalar_var_name[0]`, the first character only, with each stored name | scalars "mass" and "m" registered, then `set_scalar_var("mass", 2.0)`: "m" becomes 2.0 and "mass" keeps 0 | update every entry whose whole name equals the argument, as `set_scalar_vars` does | not executed | Registry.FirstCharacterWitness | Registry.AssignByName |

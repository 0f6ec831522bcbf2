/** Errors raised by the code generator, and the failure-compatible results that carry them. */
module Outcomes {

  /** Each failure the builder can raise. Most are Python `AssertionError`s; the
      comment names the exception where it is a different one. */
  datatype Error =
    | NonPositiveDimension       // define_array_var: dim > 0
    | NegativeFbEpsilon          // set_FB_epsilon: every eps >= 0
    | WrongStateDimension        // set_functions: len(f) == dimx; set_simulation_parameters: len(initial_state) == dimx
    | WrongGuessDimension        // set_initialization_parameters: len(guess) == dimu + dimc + dimh
    | NonPositiveParameter       // solver, initialization and simulation parameters > 0
    | InputIndexOutOfRange       // add_control_input_saturation: 0 <= index < dimu
    | EmptyInputBounds           // add_control_input_saturation: u_min < u_max
    | NegativeWeight             // add_control_input_saturation: weights >= 0
    | FunctionsNotSet            // generate_source_files before set_functions
    | FbEpsilonNotSet            // generate_source_files with dimh > 0 before set_FB_epsilon
    | FbEpsilonLengthMismatch    // generate_source_files: len(FB_epsilon) == dimh
    | SolverTypeNotSet           // generate_main
    | SolverParametersNotSet     // generate_main
    | InitializationNotSet       // generate_main
    | SimulationNotSet           // generate_main
    | MissingAttribute           // AttributeError: dimc/dimh read before set_functions
    | IndexOutOfBounds           // IndexError: "".__getitem__(0), or an array literal with too few values

  datatype Result<T> = Ok(value: T) | Err(error: Error) {
    predicate IsFailure() { Err? }
    function PropagateFailure<U>(): Result<U> requires Err? { Err(error) }
    function Extract(): T requires Ok? { value }
  }

  datatype Outcome = Pass | Fail(error: Error)

  datatype Option<T> = None | Some(value: T)
}

/**
 * Selection of the implicit time-integration scheme from the integer
 * `ode_solver_type` option of `joule_solve`.
 */
module OdeSchemes {
  import opened Wrappers

  /** The implicit schemes a solver code can select. */
  datatype Scheme =
    | BackwardEuler     // code 1: BackwardEulerSolver
    | SDIRK23LStable    // code 2: SDIRK23Solver constructed with gamma option 2
    | SDIRK33           // code 3: SDIRK33Solver
    | ImplicitMidpoint  // code 22: ImplicitMidpointSolver
    | SDIRK23           // code 23: SDIRK23Solver with its default gamma option
    | SDIRK34           // code 34: SDIRK34Solver

  /** The codes the selector accepts. */
  const ValidCodes: set<int> := {1, 2, 3, 22, 23, 34}

  /** The code that selects each scheme. */
  function SchemeCode(s: Scheme): (code: int)
  {
    match s
    case BackwardEuler => 1
    case SDIRK23LStable => 2
    case SDIRK33 => 3
    case ImplicitMidpoint => 22
    case SDIRK23 => 23
    case SDIRK34 => 34
  }

  /** The first three schemes are L-stable; the other three are A-stable only. */
  predicate LStable(s: Scheme)
  {
    s.BackwardEuler? || s.SDIRK23LStable? || s.SDIRK33?
  }

  /**
   * The `switch` on the solver code: a scheme for each accepted code and
   * nothing for any other code (the caller then exits with status 3).
   */
  function SelectScheme(code: int): (r: Option<Scheme>)
    ensures r.Some? <==> code in ValidCodes
    ensures r.Some? ==> SchemeCode(r.value) == code
  {
    match code
    case 1 => Some(BackwardEuler)
    case 2 => Some(SDIRK23LStable)
    case 3 => Some(SDIRK33)
    case 22 => Some(ImplicitMidpoint)
    case 23 => Some(SDIRK23)
    case 34 => Some(SDIRK34)
    case _ => None
  }

  /** Every scheme is selected by its own code, and only by that code. */
  lemma SelectSchemeRoundTrip(s: Scheme, code: int)
    ensures SelectScheme(SchemeCode(s)) == Some(s)
    ensures SelectScheme(code) == Some(s) <==> code == SchemeCode(s)
  {
    match s
    case BackwardEuler =>
    case SDIRK23LStable =>
    case SDIRK33 =>
    case ImplicitMidpoint =>
    case SDIRK23 =>
    case SDIRK34 =>
  }

  /** The L-stable schemes are exactly those of codes 1, 2 and 3. */
  lemma LStableCodes(code: int)
    requires code in ValidCodes
    ensures LStable(SelectScheme(code).value) <==> code <= 3
  {
  }
}

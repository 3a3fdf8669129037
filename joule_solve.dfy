/**
 * The control path of `joule_solve`: option check, scheme selection,
 * optional local refinement of the metal region, then the time loop; and
 * the exit status each path returns.
 */
module JouleSolve {
  import opened Wrappers
  import opened OdeSchemes
  import opened Refinement
  import opened TimeLoop

  /** Exit status when the options do not parse. */
  const BadOptionsStatus := 1
  /** Exit status for a solver code the selector does not accept. */
  const UnknownSolverStatus := 3
  /** Exit status of a completed run. */
  const CompletedStatus := 0

  /**
   * One run. `optionsGood` is the verdict of the option parser,
   * `attributes` the element attributes of the parallel mesh. A failed
   * option check returns 1 and an unknown solver code returns 3, both
   * before any refinement or step; otherwise the run refines (when
   * `amr == 1`), steps to the end and returns 0.
   */
  method Solve(optionsGood: bool, odeSolverType: int, amr: int, attributes: seq<int>,
               dt: real, tFinal: real, visSteps: int)
    returns (status: int, scheme: Option<Scheme>, refList: Option<seq<nat>>,
             t: real, steps: nat, reports: seq<Report>)
    requires optionsGood && odeSolverType in ValidCodes ==> dt > 0.0 && visSteps != 0
    ensures status == BadOptionsStatus <==> !optionsGood
    ensures status == UnknownSolverStatus <==> optionsGood && odeSolverType !in ValidCodes
    ensures status == CompletedStatus <==> optionsGood && odeSolverType in ValidCodes
    ensures status != CompletedStatus ==>
              scheme == None && refList == None && steps == 0 && reports == [] && t == 0.0
    ensures status == CompletedStatus ==>
              && scheme.Some? && SchemeCode(scheme.value) == odeSolverType
              && (refList.None? <==> amr != 1)
              && (refList.Some? ==> forall e: nat :: e in refList.value <==> Marked(attributes, e))
              && (refList.Some? ==> StrictlyIncreasing(refList.value))
              && steps == StepCount(dt, tFinal) && t == steps as real * dt
              && reports == Reports(steps, steps, dt, visSteps)
  {
    scheme, refList, t, steps, reports := None, None, 0.0, 0, [];
    if !optionsGood {
      status := BadOptionsStatus;
      return;
    }
    scheme := SelectScheme(odeSolverType);
    if scheme.None? {
      status := UnknownSolverStatus;
      return;
    }
    refList := SelectElements(amr, attributes);
    t, steps, reports := Run(dt, tFinal, visSteps);
    status := CompletedStatus;
  }
}

/**
 * The shared `recommendation_sim` object: an input slot for `genre`, an output
 * slot for `recommendation`, and `compute()`, which fills the output from the
 * input or fails. `get_recommendation` drives it and maps a failure to 0.
 */
module Simulation {
  import opened Wrappers
  import Fuzzy

  class ControlSystemSimulation {
    const system: Fuzzy.ControlSystem
    /** `input['genre']`, absent until first written. */
    var input: Option<real>
    /** `output['recommendation']`, absent until a successful `compute()`. */
    var output: Option<real>

    constructor(sys: Fuzzy.ControlSystem)
      requires Fuzzy.ValidSystem(sys)
      ensures system == sys && input == None && output == None
    {
      system := sys;
      input := None;
      output := None;
    }

    /** `input['genre'] = x`. */
    method SetInput(x: real)
      modifies this`input
      ensures input == Some(x)
    {
      input := Some(x);
    }

    /**
     * `compute()`: succeeds exactly when an input is set and the centroid of
     * the aggregate is defined; then the output holds that centroid. A failed
     * computation leaves the output slot as it was.
     */
    method Compute() returns (ok: bool)
      requires Fuzzy.ValidSystem(system)
      modifies this`output
      ensures ok <==> input.Some? && Fuzzy.Infer(system, input.value).Success?
      ensures ok ==> output == Some(Fuzzy.Infer(system, input.value).value)
      ensures !ok ==> output == old(output)
    {
      ok := false;
      if input.Some? {
        var r := Fuzzy.Infer(system, input.value);
        if r.Success? {
          output := Some(r.value);
          ok := true;
        }
      }
    }
  }

  /**
   * `get_recommendation`: write the input, compute, and return the output, or
   * 0 when the computation fails. The result is the fuzzy score of the input.
   */
  method GetRecommendation(sim: ControlSystemSimulation, genreMatch: real) returns (r: real)
    requires Fuzzy.ValidSystem(sim.system)
    modifies sim
    ensures sim.input == Some(genreMatch)
    ensures r == Fuzzy.Score(sim.system, genreMatch)
    ensures Fuzzy.Infer(sim.system, genreMatch).Success? ==> sim.output == Some(r)
    ensures Fuzzy.Infer(sim.system, genreMatch).Failure? ==> sim.output == old(sim.output)
  {
    sim.SetInput(genreMatch);
    var ok := sim.Compute();
    if ok {
      r := sim.output.value;
    } else {
      r := 0.0;
    }
  }
}

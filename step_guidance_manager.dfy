/**
 * The step-based route tracker (`GuidanceManager.kt` in the package root):
 * a list of route steps and the index of the next one, advanced when the
 * user comes within 5 m of that step's start. Its call `setStartGuiding()`
 * is read as `setStartGuiding(true)`, the only form `GuidanceState` offers.
 */
module StepGuidanceManager {
  import opened Geo
  import opened PathGuidanceState

  const ADVANCE_DISTANCE_METERS: real := 5.0
  const ARRIVED_MESSAGE := "You have arrived."

  /** A step of a route leg: its instruction text and where it starts and ends. */
  datatype RouteLegStep = RouteLegStep(instructionText: string, startLocation: LatLng, endLocation: LatLng)

  class GuidanceManager {
    const guidanceState: GuidanceState
    var steps: seq<RouteLegStep>
    var currentStepIndex: int

    /** The index never passes the end of the steps. */
    ghost predicate Valid()
      reads this
    {
      0 <= currentStepIndex <= |steps|
    }

    constructor (guidanceState: GuidanceState)
      ensures Valid() && this.guidanceState == guidanceState
      ensures steps == [] && currentStepIndex == 0
    {
      this.guidanceState := guidanceState;
      steps := [];
      currentStepIndex := 0;
    }

    /** Replaces the route, restarts at step 0, turns guiding on and writes step 0's
        instruction when there is one. */
    method SetRoute(newSteps: seq<RouteLegStep>)
      modifies this, guidanceState
      ensures Valid()
      ensures steps == newSteps && currentStepIndex == 0 && guidanceState.startGuiding
      ensures guidanceState.currentInstruction
        == if newSteps != [] then newSteps[0].instructionText else old(guidanceState.currentInstruction)
    {
      steps := newSteps;
      currentStepIndex := 0;
      guidanceState.SetStartGuiding(true);
      ProvideGuidanceForCurrentStep();
    }

    /** Moves to the next step when the user is within 5 m of the current one's start;
        past the last step, announces arrival and ends guiding. */
    method UpdateUserLocation(userLocation: LatLng, geo: Geometry)
      requires Valid()
      modifies this, guidanceState
      ensures Valid() && steps == old(steps)
      ensures old(currentStepIndex) >= |steps| ==> unchanged(this, guidanceState)
      ensures old(currentStepIndex) < |steps| ==>
        var advance := geo.computeDistanceBetween(userLocation, steps[old(currentStepIndex)].startLocation)
          < ADVANCE_DISTANCE_METERS;
        && currentStepIndex == old(currentStepIndex) + (if advance then 1 else 0)
        && (!advance ==> unchanged(guidanceState))
        && (advance && currentStepIndex < |steps| ==>
              guidanceState.currentInstruction == steps[currentStepIndex].instructionText
              && guidanceState.startGuiding == old(guidanceState.startGuiding))
        && (advance && currentStepIndex == |steps| ==>
              guidanceState.currentInstruction == ARRIVED_MESSAGE && !guidanceState.startGuiding)
    {
      if steps == [] || currentStepIndex >= |steps| {
        return;
      }
      var nextStep := steps[currentStepIndex];
      var distanceToNextStep := geo.computeDistanceBetween(userLocation, nextStep.startLocation);
      if distanceToNextStep < ADVANCE_DISTANCE_METERS {
        currentStepIndex := currentStepIndex + 1;
        if currentStepIndex < |steps| {
          ProvideGuidanceForCurrentStep();
        } else {
          guidanceState.SetInstruction(ARRIVED_MESSAGE);
          guidanceState.DoneGuiding();
        }
      }
    }

    /** Writes the current step's instruction, if there is a current step. */
    method ProvideGuidanceForCurrentStep()
      requires Valid()
      modifies guidanceState
      ensures guidanceState.startGuiding == old(guidanceState.startGuiding)
      ensures guidanceState.currentInstruction
        == if currentStepIndex < |steps| then steps[currentStepIndex].instructionText
           else old(guidanceState.currentInstruction)
    {
      if currentStepIndex < |steps| {
        var instruction := steps[currentStepIndex].instructionText;
        guidanceState.SetInstruction(instruction);
      }
    }

    /** Forgets the route; the shared state is not touched. */
    method Clear()
      modifies this
      ensures Valid() && steps == [] && currentStepIndex == 0
    {
      steps := [];
      currentStepIndex := 0;
    }
  }
}

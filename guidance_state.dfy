/**
 * The shared navigation state: the current instruction text and the
 * "guiding" flag, written by the guidance managers and read by the renderer.
 * The atomic reference around the instruction is modelled as a plain field;
 * every access here is one indivisible step.
 */
module PathGuidanceState {

  class GuidanceState {
    var currentInstruction: string
    var startGuiding: bool

    /** A fresh state has no instruction and is not guiding. */
    constructor ()
      ensures currentInstruction == "" && !startGuiding
    {
      currentInstruction := "";
      startGuiding := false;
    }

    method SetInstruction(instruction: string)
      modifies this
      ensures currentInstruction == instruction && startGuiding == old(startGuiding)
    {
      currentInstruction := instruction;
    }

    /** Returns the value of the most recent `SetInstruction` (or `Clear`). */
    method GetInstruction() returns (instruction: string)
      ensures instruction == currentInstruction
    {
      instruction := currentInstruction;
    }

    /** Empties the instruction; the guiding flag is left alone. */
    method Clear()
      modifies this
      ensures currentInstruction == "" && startGuiding == old(startGuiding)
    {
      currentInstruction := "";
    }

    method GetStartGuiding() returns (guiding: bool)
      ensures guiding == startGuiding
    {
      guiding := startGuiding;
    }

    /** Sets the flag; the instruction is left alone. */
    method SetStartGuiding(state: bool)
      modifies this
      ensures startGuiding == state && currentInstruction == old(currentInstruction)
    {
      startGuiding := state;
    }

    /** Ends guiding; the instruction is left alone. */
    method DoneGuiding()
      modifies this
      ensures !startGuiding && currentInstruction == old(currentInstruction)
    {
      startGuiding := false;
    }
  }
}

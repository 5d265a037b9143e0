/**
 * `java.util.concurrent.atomic.AtomicBoolean`, as the renderer uses it. Threads
 * are not modelled: each call is one indivisible step of a sequential run.
 */
module Atomic {

  class AtomicBoolean {
    var value: bool

    constructor (initial: bool)
      ensures value == initial
    {
      value := initial;
    }

    method Get() returns (v: bool)
      ensures v == value
    {
      v := value;
    }

    /** Writes `update` only when the current value is `expectedValue`, and says whether it did. */
    method CompareAndSet(expectedValue: bool, update: bool) returns (success: bool)
      modifies this
      ensures success <==> old(value) == expectedValue
      ensures value == if success then update else old(value)
    {
      success := value == expectedValue;
      if success {
        value := update;
      }
    }

    /** Writes `newValue` and returns the value it replaced. */
    method GetAndSet(newValue: bool) returns (previous: bool)
      modifies this
      ensures previous == old(value) && value == newValue
    {
      previous := value;
      value := newValue;
    }
  }
}

/** What several modules use. */
module Shared {

  datatype Option<+T> = None | Some(value: T)

  function Min(a: nat, b: nat): nat { if a <= b then a else b }

  /** A time constant in frames: no decay, or a decay over at least one frame. The plots pass whole
      numbers of frames, so they pass no other; the functions that take it have a double parameter. */
  predicate Steady(tau: real) {
    tau <= 0.0 || tau >= 1.0
  }
}

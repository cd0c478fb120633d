/** Vocabulary shared by the atomic models: the time advance a model waits for, and the
    outcome of a transition that C++ may leave undefined. */
module Devs {
  datatype Option<+T> = None | Some(value: T)

  /** The result of a transition. `Undefined` stands for C++ undefined behaviour: popping an empty
      container, indexing out of range, or reading through a null pointer. */
  datatype Outcome<+T> = Defined(value: T) | Undefined

  /** A time advance (`sigma`): a real number of seconds, or "wait for an input". */
  datatype Duration = Finite(secs: real) | Infinite {
    /** The engine calls `dext` with an elapsed time between zero and `sigma`. */
    predicate Allows(e: real) {
      0.0 <= e && (Finite? ==> e <= secs)
    }

    function Minus(e: real): Duration {
      if Finite? then Finite(secs - e) else Infinite
    }

    predicate AtLeast(r: real) {
      Finite? ==> secs >= r
    }
  }

  function MaxReal(a: real, b: real): real {
    if a < b then b else a
  }

  function MaxInt(a: int, b: int): int {
    if a < b then b else a
  }

  function AbsReal(a: real): real {
    if a < 0.0 then -a else a
  }

  /** Conversion of a double to an integer type: truncation toward zero. */
  function Trunc(a: real): int {
    if a < 0.0 then -(-a).Floor else a.Floor
  }
}

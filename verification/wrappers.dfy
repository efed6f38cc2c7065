/** Failure-compatible wrappers and the byte type shared by every module of
    the model:
    - Option<T> stands for Swift's optional `T?`,
    - Result<T, E> stands for a thrown or published error,
    - Promise<T> stands for the single-shot promise of a Combine `Future`. */
module Wrappers {

  /** An octet, Swift's `UInt8`. */
  type byte = x: int | 0 <= x < 256

  datatype Option<+T> = None | Some(value: T) {

    /** The wrapped value, or `default` when there is none (Swift's `??`). */
    function GetOr(default: T): T {
      match this
      case Some(v) => v
      case None => default
    }
  }

  datatype Result<+T, +E> = Success(value: T) | Failure(error: E) {

    function ToOption(): Option<T> {
      match this
      case Success(v) => Some(v)
      case Failure(_) => None
    }
  }

  /** The promise handed to the body of a Combine `Future`. Only the first call
      to `promise(...)` is delivered to subscribers; every later call is ignored. */
  datatype Promise<T> = Pending | Fulfilled(outcome: T) {

    /** Calls the promise with `r`. */
    function Fulfil(r: T): (p: Promise<T>)
      ensures p.Fulfilled?
      ensures Pending? ==> p.outcome == r
      ensures Fulfilled? ==> p == this
    {
      if Pending? then Fulfilled(r) else this
    }
  }
}

/** Failure-compatible wrappers used by every service of the model. */
module Wrappers {

  /** A value that may be missing: `undefined` (or `null`) on the TypeScript side. */
  datatype Option<+T> = None | Some(value: T) {

    /** Returns the wrapped value, or `default` when there is none. */
    function GetOr(default: T): T {
      match this
      case Some(v) => v
      case None => default
    }
  }

  /** Either a value or the error that was thrown instead. */
  datatype Result<+T, +E> = Ok(value: T) | Err(error: E) {

    predicate IsFailure() {
      Err?
    }

    function PropagateFailure<U>(): Result<U, E>
      requires Err?
    {
      Err(error)
    }

    function Extract(): T
      requires Ok?
    {
      value
    }
  }

  /** `xs.some((y) => y === x)`. */
  function SomeEqual<T(==)>(xs: seq<T>, x: T): (r: bool)
    ensures r <==> x in xs
  {
    if |xs| == 0 then false
    else xs[0] == x || SomeEqual(xs[1..], x)
  }

  /** Optional chaining `o?.f()`: applies `f` under `Some`, keeps `None`. */
  function MapOption<T, U>(o: Option<T>, f: T -> U): (r: Option<U>)
    ensures r.Some? <==> o.Some?
    ensures r.Some? ==> r.value == f(o.value)
  {
    match o
    case Some(v) => Some(f(v))
    case None => None
  }
}

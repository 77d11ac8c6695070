/** Failure-compatible wrappers used throughout the model: `Option` for
    lookups that may find nothing and `Result` for operations that raise
    an exception in the scraper. */
module Results {

  datatype Option<+T> = None | Some(value: T) {

    predicate IsFailure() {
      None?
    }

    function PropagateFailure<U>(): Option<U>
      requires None?
    {
      None
    }

    function Extract(): T
      requires Some?
    {
      value
    }
  }

  datatype Result<+T, +E> = Ok(value: T) | Err(error: E) {

    predicate IsFailure() {
      Err?
    }

    function PropagateFailure<U>(): Result<U, E>
      requires Err?
    {
      Err(error)
    }

    function Extract(): T
      requires Ok?
    {
      value
    }

    /** The same outcome with the error translated by `f`. */
    function MapError<F>(f: E -> F): (r: Result<T, F>)
      ensures r.Ok? <==> Ok?
      ensures Ok? ==> r.value == value
      ensures Err? ==> r.error == f(error)
    {
      match this
      case Ok(v) => Ok(v)
      case Err(e) => Err(f(e))
    }
  }

  /** Puts `p` in front of a successful string result; errors pass through. */
  function Prepend<E>(p: string, r: Result<string, E>): (r': Result<string, E>)
    ensures r'.Ok? <==> r.Ok?
  {
    match r
    case Ok(v) => Ok(p + v)
    case Err(e) => Err(e)
  }

  lemma PrependAppend<E>(p: string, q: string, r: Result<string, E>)
    ensures Prepend(p, Prepend(q, r)) == Prepend(p + q, r)
  {
    match r
    case Ok(v) => assert p + (q + v) == (p + q) + v;
    case Err(e) =>
  }
}

/** The results of reading functions: a value with the position after it, or an error with the position it is
    reported for. */
module ZtlReading {

  datatype Reading<+T, +E> = Ok(value: T, pos: nat) | Err(error: E, at: nat) {
    predicate IsFailure() { Err? }
    function PropagateFailure<U>(): Reading<U, E>
      requires Err?
    {
      Err(error, at)
    }
    function Extract(): (T, nat)
      requires Ok?
    {
      (value, pos)
    }
  }

  /** What a method comes back with: a value, or what the exception it throws carries. */
  datatype Attempt<+T, +E> = Done(value: T) | Failed(error: E) {
    predicate IsFailure() { Failed? }
    function PropagateFailure<U>(): Attempt<U, E>
      requires Failed?
    {
      Failed(error)
    }
    function Extract(): T
      requires Done?
    {
      value
    }
  }

  // ---- collecting loops ----

  /** The result of a recursive list function, with what a loop has already collected in front. */
  function Prepend<T, E>(done: seq<T>, rest: Reading<seq<T>, E>): Reading<seq<T>, E> {
    match rest
    case Ok(value, pos) => Ok(done + value, pos)
    case Err(_, _) => rest
  }

  lemma PrependNothing<T, E>(rest: Reading<seq<T>, E>)
    ensures Prepend([], rest) == rest
  {
    if rest.Ok? {
      assert [] + rest.value == rest.value;
    }
  }

  lemma PrependTwice<T, E>(done: seq<T>, next: seq<T>, rest: Reading<seq<T>, E>)
    ensures Prepend(done, Prepend(next, rest)) == Prepend(done + next, rest)
  {
    if rest.Ok? {
      assert done + (next + rest.value) == done + next + rest.value;
    }
  }
}

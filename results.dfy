/** Failure-carrying values shared by every part of the model: the Go code returns
    `(value, error)` pairs, which become `Result` here. */
module Results {

  datatype Option<+T> = None | Some(value: T)

  /** The errors the generator can report. `Collaborator` carries an error produced
      outside the core (the cog backend, CUE field iteration) and is passed on verbatim. */
  datatype Error =
    | VersionNotFound(version: string, kind: string)
    | UnexpectedFileCount(got: nat)
    | Collaborator(message: string)

  datatype Result<+T, +E> = Success(value: T) | Failure(error: E) {
    predicate IsFailure() {
      Failure?
    }

    function PropagateFailure<U>(): Result<U, E>
      requires Failure?
    {
      Failure(error)
    }

    function Extract(): T
      requires Success?
    {
      value
    }
  }

  /** `files = append(files, generated...)` followed by the rest of a loop that may still fail. */
  function Prepend<T, E>(prefix: seq<T>, rest: Result<seq<T>, E>): (r: Result<seq<T>, E>)
    ensures r.Success? <==> rest.Success?
    ensures r.Success? ==> r.value == prefix + rest.value
    ensures r.Failure? ==> r.error == rest.error
  {
    match rest
    case Success(s) => Success(prefix + s)
    case Failure(e) => Failure(e)
  }

  lemma PrependNothing<T, E>(rest: Result<seq<T>, E>)
    ensures Prepend([], rest) == rest
  {
    if rest.Success? {
      assert [] + rest.value == rest.value;
    }
  }

  lemma PrependPrepend<T, E>(a: seq<T>, b: seq<T>, rest: Result<seq<T>, E>)
    ensures Prepend(a, Prepend(b, rest)) == Prepend(a + b, rest)
  {
    if rest.Success? {
      assert a + (b + rest.value) == (a + b) + rest.value;
    }
  }
}

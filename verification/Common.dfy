/** What several modules share. */
module Common {

  datatype Option<T> = None | Some(value: T)

  /** A value or an error; `:-` passes errors on. */
  datatype Result<T, E> = Ok(value: T) | Err(error: E) {
    predicate IsFailure() {
      Err?
    }
    function PropagateFailure<U>(): Result<U, E>
      requires Err?
    {
      Err(error)
    }
    function Extract(): T
      requires Ok?
    {
      value
    }
  }

  predicate Distinct<T(==)>(s: seq<T>) {
    forall i, j :: 0 <= i < j < |s| ==> s[i] != s[j]
  }

  function Power2(n: nat): (r: nat)
    ensures r > 0
  {
    if n == 0 then 1 else 2 * Power2(n - 1)
  }
}

/** Option and Result, the two failure-carrying datatypes every other module uses. */
module Wrappers {

  datatype Option<+T> = None | Some(value: T)

  datatype Result<+T, +E> = Ok(value: T) | Err(error: E) {

    predicate IsFailure() {
      Err?
    }

    function PropagateFailure<U>(): Result<U, E>
      requires Err?
    {
      Err(error)
    }

    function Extract(): T
      requires Ok?
    {
      value
    }
  }

  /**
   * A loop that builds one value per element and stops at the first failure:
   * element `k` is handed its position `start + k`.
   */
  function MapResult<A, B, E>(xs: seq<A>, f: (nat, A) -> Result<B, E>, start: nat): (r: Result<seq<B>, E>)
    ensures r.Ok? <==> forall k :: 0 <= k < |xs| ==> f(start + k, xs[k]).Ok?
    ensures r.Ok? ==> |r.value| == |xs| && forall k :: 0 <= k < |xs| ==> r.value[k] == f(start + k, xs[k]).value
    ensures r.Err? ==>
      exists k :: 0 <= k < |xs| && f(start + k, xs[k]) == Err(r.error) && forall j :: 0 <= j < k ==> f(start + j, xs[j]).Ok?
    decreases |xs|
  {
    if xs == [] then Ok([])
    else match f(start, xs[0])
      case Err(e) => Err(e)
      case Ok(y) =>
        match MapResult(xs[1..], f, start + 1)
        case Err(e) => Err(e)
        case Ok(ys) => Ok([y] + ys)
  }
}

/** Optional values and the .NET exceptions that the search client can raise,
    written as values so that every error path is part of the model. */
module Outcomes {

  /** A nullable reference: `None` is .NET's `null`. */
  datatype Option<+T> = None | Some(value: T)

  /** The exceptions that escape (or are caught by) the client's operations. */
  datatype Exception =
    | ArgumentException          // Dictionary.Add / ToDictionary met a key already present
    | KeyNotFoundException       // a dictionary indexer was asked for a missing key
    | InvalidCastException       // FieldValue.GetValue<string>() on a value that is not a string
    | ArgumentNullException      // a LINQ operator was applied to a null source (a subclass of ArgumentException)
    | RemoteException(message: string)  // the embedding service or the vector store failed

  /** Either a value or the exception that was thrown instead. */
  datatype Result<+T> = Success(value: T) | Failure(error: Exception) {
    predicate IsFailure() {
      Failure?
    }

    function PropagateFailure<U>(): Result<U>
      requires Failure?
    {
      Failure(error)
    }

    function Extract(): T
      requires Success?
    {
      value
    }
  }

  /** `xs.Select(f).ToList()`: the results in order, or the exception of the
      first element for which `f` throws. */
  function SelectAll<A, B>(xs: seq<A>, f: A -> Result<B>): (r: Result<seq<B>>)
    ensures r.Success? <==> forall i :: 0 <= i < |xs| ==> f(xs[i]).Success?
    ensures r.Success? ==> |r.value| == |xs| && forall i :: 0 <= i < |xs| ==> f(xs[i]) == Success(r.value[i])
    ensures r.Failure? ==>
      exists i :: 0 <= i < |xs| && f(xs[i]) == Failure(r.error)
        && forall j :: 0 <= j < i ==> f(xs[j]).Success?
  {
    if xs == [] then Success([])
    else
      var n := |xs| - 1;
      assert forall i :: 0 <= i < n ==> xs[..n][i] == xs[i];
      match SelectAll(xs[..n], f)
      case Failure(e) => Failure(e)
      case Success(front) =>
        match f(xs[n])
        case Failure(e) => Failure(e)
        case Success(last) => Success(front + [last])
  }
}

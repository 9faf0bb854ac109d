/** Optional values, results with an error message, and the positional
    "all or nothing" combination that `Promise.all` performs. */
module Wrappers {

  datatype Option<+T> = None | Some(value: T)

  /** A computation that either produced a value or failed with a message
      (the message of the `Error` the source throws). */
  datatype Result<+T> = Ok(value: T) | Err(message: string) {
    function ToOption(): (o: Option<T>)
      ensures o.Some? <==> Ok?
      ensures Ok? ==> o.value == value
    {
      match this
      case Ok(v) => Some(v)
      case Err(_) => None
    }
  }

  /** `Promise.all` over already-settled results: the values in the same
      positions when every result succeeded, otherwise the error of the
      first failing position. */
  function All<T>(rs: seq<Result<T>>): (r: Result<seq<T>>)
    ensures r.Ok? <==> forall i :: 0 <= i < |rs| ==> rs[i].Ok?
    ensures r.Ok? ==> |r.value| == |rs| && forall i :: 0 <= i < |rs| ==> r.value[i] == rs[i].value
    ensures r.Err? ==> exists i :: 0 <= i < |rs| && rs[i] == Err(r.message)
                                   && forall j :: 0 <= j < i ==> rs[j].Ok?
  {
    if rs == [] then Ok([])
    else match rs[0]
      case Err(m) => Err(m)
      case Ok(v) =>
        match All(rs[1..])
        case Err(m) =>
          assert forall j :: 1 <= j < |rs| ==> rs[j] == rs[1..][j - 1];
          Err(m)
        case Ok(vs) => Ok([v] + vs)
  }
}

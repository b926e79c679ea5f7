/** Optional values and error returns. */
module Wrappers {
  datatype Option<+T> = None | Some(value: T) {
    function GetOr(default: T): T {
      if Some? then value else default
    }
  }

  datatype Result<+T, +E> = Ok(value: T) | Err(error: E)

  /** All the values, or the first error. */
  function Collect<T>(results: seq<Result<T, string>>): Result<seq<T>, string> {
    if results == [] then Ok([])
    else
      match Collect(results[..|results| - 1])
      case Err(e) => Err(e)
      case Ok(init) =>
        match results[|results| - 1]
        case Err(e) => Err(e)
        case Ok(last) => Ok(init + [last])
  }

  lemma {:induction false} FirstError<T>(results: seq<Result<T, string>>, k: nat)
    requires k < |results| && Collect(results[..k]).Ok? && results[k].Err?
    ensures Collect(results) == Err(results[k].error)
  {
    var last := |results| - 1;
    if k < last {
      assert results[..last][..k] == results[..k];
      FirstError(results[..last], k);
    }
  }

  lemma CollectNext<T>(results: seq<Result<T, string>>, k: nat)
    requires k < |results| && Collect(results[..k]).Ok? && results[k].Ok?
    ensures Collect(results[..k + 1]) == Ok(Collect(results[..k]).value + [results[k].value])
  {
    assert results[..k + 1][..k] == results[..k];
  }

  lemma Assoc<T>(a: seq<T>, b: seq<T>, c: seq<T>)
    ensures a + (b + c) == (a + b) + c
  {
  }

  function Flatten<T>(parts: seq<seq<T>>): seq<T> {
    if parts == [] then [] else Flatten(parts[..|parts| - 1]) + parts[|parts| - 1]
  }

  lemma FlattenNext<T>(parts: seq<seq<T>>, k: nat)
    requires k < |parts|
    ensures Flatten(parts[..k + 1]) == Flatten(parts[..k]) + parts[k]
  {
    assert parts[..k + 1][..k] == parts[..k];
  }
}

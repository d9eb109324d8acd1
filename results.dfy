/** Option and Result, and the short-circuiting collection of per-item parses
    that every solver's `parse_input` performs with `Iterator::collect` into a `Result`. */
module Results {

  datatype Option<+T> = None | Some(value: T)

  datatype Result<+T, +E> = Ok(value: T) | Err(error: E)

  /** Parses every item in order. The first item whose parse fails aborts the
      whole collection with that item's error; otherwise the parsed values are
      returned, one per item, in order. No partial result is ever returned. */
  function Collect<X, T, E>(items: seq<X>, parse: X -> Result<T, E>): (r: Result<seq<T>, E>)
    ensures r.Ok? <==> forall i :: 0 <= i < |items| ==> parse(items[i]).Ok?
    ensures r.Ok? ==> |r.value| == |items|
    ensures r.Ok? ==> forall i :: 0 <= i < |items| ==> parse(items[i]) == Ok(r.value[i])
    ensures r.Err? ==> exists k :: FirstFailure(items, parse, k) && parse(items[k]) == Err(r.error)
  {
    if items == [] then Ok([])
    else
      match parse(items[0])
      case Err(e) =>
        assert FirstFailure(items, parse, 0);
        Err(e)
      case Ok(head) =>
        match Collect(items[1..], parse)
        case Err(e) =>
          assert forall k :: FirstFailure(items[1..], parse, k) ==>
            FirstFailure(items, parse, k + 1) && items[1..][k] == items[k + 1];
          Err(e)
        case Ok(tail) =>
          assert forall i :: 1 <= i < |items| ==> items[i] == items[1..][i - 1];
          Ok([head] + tail)
  }

  /** Item `k` is the first item whose parse fails. */
  predicate FirstFailure<X, T, E>(items: seq<X>, parse: X -> Result<T, E>, k: int)
  {
    && 0 <= k < |items|
    && parse(items[k]).Err?
    && forall i :: 0 <= i < k ==> parse(items[i]).Ok?
  }
}

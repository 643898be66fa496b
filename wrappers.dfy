/** Failure-compatible result types used across the model. */
module Wrappers {

  /** A value that may be absent (JavaScript `undefined` / `null`). */
  datatype Option<+T> = None | Some(value: T) {
    function GetOr(default: T): T {
      match this
      case Some(v) => v
      case None => default
    }
  }

  /** Why a library call would throw. */
  datatype Error =
    | InvalidHex         // a character that is not a hexadecimal digit
    | OutOfBounds        // an ABI read past the end of the data
    | SignatureNotFound  // no function of the ABI has the call's selector
    | OddLength          // a hex string of odd length where even is demanded
    | NullDereference    // a property read on `undefined` (a TypeError)

  /** The outcome of a computation that may throw. */
  datatype Result<+T> = Ok(value: T) | Err(error: Error) {
    predicate IsFailure() { Err? }
    function PropagateFailure<U>(): Result<U> requires Err? { Err(error) }
    function Extract(): T requires Ok? { value }
  }

  /** `xs.map(f)` where `f` may throw: one throw ends the whole map, and otherwise every
      element is mapped, in order. */
  function MapAll<A, B>(xs: seq<A>, f: A -> Result<B>): (r: Result<seq<B>>)
    ensures r.Ok? <==> forall i :: 0 <= i < |xs| ==> f(xs[i]).Ok?
    ensures r.Ok? ==> |r.value| == |xs| && forall i :: 0 <= i < |xs| ==> f(xs[i]) == Ok(r.value[i])
  {
    if xs == [] then Ok([])
    else
      var head :- f(xs[0]);
      var tail :- MapAll(xs[1..], f);
      assert forall i :: 1 <= i < |xs| ==> xs[i] == xs[1..][i - 1];
      Ok([head] + tail)
  }
}

/** Optional values and results with an error message, standing in for the
    source's `undefined` returns and thrown exceptions. */
module Wrappers {

  datatype Option<+T> = None | Some(value: T) {
    function GetOr(default: T): T {
      match this
      case Some(v) => v
      case None => default
    }
  }

  /** A computation that either produced a value or threw an error with a message. */
  datatype Result<+T> = Ok(value: T) | Err(message: string) {
    predicate IsFailure() {
      Err?
    }

    function PropagateFailure<U>(): Result<U>
      requires Err?
    {
      Err(message)
    }

    function Extract(): T
      requires Ok?
    {
      value
    }
  }

  /** `xs.map(f)` where `f` may throw: all the values in order, or the error
      of the first element that fails. */
  function MapResults<A, B>(f: A -> Result<B>, xs: seq<A>): (r: Result<seq<B>>)
    ensures r.Ok? <==> forall i :: 0 <= i < |xs| ==> f(xs[i]).Ok?
    ensures r.Ok? ==> |r.value| == |xs|
    ensures r.Ok? ==> forall i :: 0 <= i < |xs| ==> Ok(r.value[i]) == f(xs[i])
    ensures r.Err? ==> exists i :: 0 <= i < |xs| && f(xs[i]).Err? && (forall k :: 0 <= k < i ==> f(xs[k]).Ok?) &&
                         r.message == f(xs[i]).message
    decreases |xs|
  {
    if |xs| == 0 then Ok([])
    else
      var first := f(xs[0]);
      var rest := MapResults(f, xs[1..]);
      assert forall i :: 1 <= i < |xs| ==> xs[i] == xs[1..][i - 1];
      if first.Err? then Err(first.message)
      else if rest.Err? then
        assert exists i :: 0 <= i < |xs| && f(xs[i]).Err? && (forall k :: 0 <= k < i ==> f(xs[k]).Ok?) &&
                           rest.message == f(xs[i]).message by {
          var i :| 0 <= i < |xs[1..]| && f(xs[1..][i]).Err? && (forall k :: 0 <= k < i ==> f(xs[1..][k]).Ok?) &&
                   rest.message == f(xs[1..][i]).message;
          assert forall k :: 1 <= k < i + 1 ==> xs[k] == xs[1..][k - 1];
        }
        Err(rest.message)
      else
        var values := [first.value] + rest.value;
        assert forall i :: 1 <= i < |xs| ==> values[i] == rest.value[i - 1];
        Ok(values)
  }
}

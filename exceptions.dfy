/** The Python exceptions the generator can raise, and the Option/Result
    wrappers that carry them through the model instead of unwinding. */
module Exceptions {

  /** The exceptions raised by the modelled code: an index into an empty
      string or list, a missing dictionary key, an undefined global name. */
  datatype Error =
    | IndexError
    | KeyError(key: string)
    | NameError(name: string)

  datatype Option<+T> = None | Some(value: T) {
    function GetOr(default: T): T {
      match this
      case Some(v) => v
      case None => default
    }
  }

  /** A computation that returned `value` or raised `error`. */
  datatype Result<+T> = Ok(value: T) | Err(error: Error) {
    predicate IsFailure() {
      Err?
    }

    function PropagateFailure<U>(): Result<U>
      requires Err?
    {
      Err(error)
    }

    function Extract(): T
      requires Ok?
    {
      value
    }
  }

  /** Applying `f` to every element in order, the first failure propagating:
      a Python loop that appends `f(x)` for each `x` and lets the exception
      of a failing call escape. */
  function MapResult<X, Y>(f: X -> Result<Y>, xs: seq<X>): (r: Result<seq<Y>>)
    ensures r.Ok? ==> |r.value| == |xs|
    ensures r.Err? ==> exists i :: 0 <= i < |xs| && f(xs[i]) == Err(r.error)
  {
    if xs == [] then Ok([])
    else
      var init :- MapResult(f, xs[..|xs| - 1]);
      var last :- f(xs[|xs| - 1]);
      Ok(init + [last])
  }

  /** When the map succeeds, element `i` is the value `f` gave for `xs[i]`. */
  lemma {:induction false} MapResultAt<X, Y>(f: X -> Result<Y>, xs: seq<X>, i: nat)
    requires MapResult(f, xs).Ok? && i < |xs|
    ensures f(xs[i]).Ok? && MapResult(f, xs).value[i] == f(xs[i]).value
  {
    var n := |xs| - 1;
    if i < n {
      MapResultAt(f, xs[..n], i);
      assert xs[..n][i] == xs[i];
    }
  }

  /** One failing element makes the whole map fail. */
  lemma {:induction false} MapResultFail<X, Y>(f: X -> Result<Y>, xs: seq<X>, i: nat)
    requires i < |xs| && f(xs[i]).Err?
    ensures MapResult(f, xs).Err?
  {
    var n := |xs| - 1;
    if i < n {
      MapResultFail(f, xs[..n], i);
      assert xs[..n][i] == xs[i];
    }
  }

  /** The map succeeds exactly when `f` succeeds on every element. */
  lemma MapResultOk<X, Y>(f: X -> Result<Y>, xs: seq<X>)
    ensures MapResult(f, xs).Ok? <==> forall i :: 0 <= i < |xs| ==> f(xs[i]).Ok?
  {
    if MapResult(f, xs).Ok? {
      forall i | 0 <= i < |xs|
        ensures f(xs[i]).Ok?
      {
        MapResultAt(f, xs, i);
      }
    }
  }
}

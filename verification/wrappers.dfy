/** Failure-compatible wrappers shared by every module of the model. */
module Wrappers {
  import opened Errors

  /** An optional value: `None` stands for JavaScript's `undefined`. */
  datatype Option<+T> = None | Some(value: T) {

    predicate IsFailure() {
      None?
    }

    function PropagateFailure<U>(): Option<U>
      requires None?
    {
      None
    }

    function Extract(): T
      requires Some?
    {
      value
    }

    function GetOr(default: T): T {
      match this
      case Some(v) => v
      case None => default
    }
  }

  /** The outcome of an operation that may throw: `Err` carries what was thrown. */
  datatype Result<+T> = Ok(value: T) | Err(error: Error) {

    predicate IsFailure() {
      Err?
    }

    function PropagateFailure<U>(): Result<U>
      requires Err?
    {
      Err(error)
    }

    function Extract(): T
      requires Ok?
    {
      value
    }
  }

  /** A check that throws `error` unless `cond` holds. */
  datatype Outcome = Pass | Fail(error: Error) {

    predicate IsFailure() {
      Fail?
    }

    function PropagateFailure<U>(): Result<U>
      requires Fail?
    {
      Err(error)
    }
  }

  function Need(cond: bool, error: Error): (r: Outcome)
    ensures r.Pass? <==> cond
  {
    if cond then Pass else Fail(error)
  }

  /** `rs[k]` is the first failure of the list. */
  predicate FirstErr<T>(rs: seq<Result<T>>, k: int) {
    0 <= k < |rs| && rs[k].Err? && forall j :: 0 <= j < k ==> rs[j].Ok?
  }

  /** Run a list of steps left to right: all their values, or the first error. */
  function Collect<T>(rs: seq<Result<T>>): (r: Result<seq<T>>)
    ensures r.Ok? <==> forall i :: 0 <= i < |rs| ==> rs[i].Ok?
    ensures r.Ok? ==> |r.value| == |rs|
    ensures r.Ok? ==> forall i :: 0 <= i < |rs| ==> r.value[i] == rs[i].value
    ensures r.Err? ==> exists k :: FirstErr(rs, k) && r.error == rs[k].error
  {
    if |rs| == 0 then Ok([])
    else
      var prefix := rs[..|rs| - 1];
      assert forall i :: 0 <= i < |prefix| ==> prefix[i] == rs[i];
      var acc := Collect(prefix);
      if acc.Err? then
        var k :| FirstErr(prefix, k) && acc.error == prefix[k].error;
        assert FirstErr(rs, k);
        Err(acc.error)
      else if rs[|rs| - 1].Err? then
        assert FirstErr(rs, |rs| - 1);
        Err(rs[|rs| - 1].error)
      else Ok(acc.value + [rs[|rs| - 1].value])
  }

  /** Apply `f` to the elements left to right: all the values, or the first failure. */
  function MapAll<X, T>(xs: seq<X>, f: X -> Result<T>): (r: Result<seq<T>>)
    ensures r.Ok? <==> forall i :: 0 <= i < |xs| ==> f(xs[i]).Ok?
    ensures r.Ok? ==> |r.value| == |xs| && forall i :: 0 <= i < |xs| ==> r.value[i] == f(xs[i]).value
    ensures r.Err? ==> exists k :: (0 <= k < |xs| && f(xs[k]).Err? && r.error == f(xs[k]).error &&
      forall j :: 0 <= j < k ==> f(xs[j]).Ok?)
  {
    var rs := seq(|xs|, i requires 0 <= i < |xs| => f(xs[i]));
    assert forall i :: 0 <= i < |xs| ==> rs[i] == f(xs[i]);
    var all := Collect(rs);
    if all.Err? then
      var k :| FirstErr(rs, k) && all.error == rs[k].error;
      assert forall j :: 0 <= j < k ==> f(xs[j]).Ok?;
      Err(all.error)
    else all
  }

  /** Apply `f` to the elements left to right, stopping at the first failure. */
  function Each<X, T>(xs: seq<X>, f: X -> Result<T>): (r: Outcome)
    ensures r.Pass? <==> forall i :: 0 <= i < |xs| ==> f(xs[i]).Ok?
    ensures r.Fail? ==> exists k :: (0 <= k < |xs| && f(xs[k]).Err? && r.error == f(xs[k]).error &&
      forall j :: 0 <= j < k ==> f(xs[j]).Ok?)
  {
    var all := MapAll(xs, f);
    if all.Err? then Fail(all.error) else Pass
  }
}

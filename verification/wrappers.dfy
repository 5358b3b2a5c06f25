/** Optional values and results, the model's stand-ins for java.util.Optional and thrown exceptions. */
module Wrappers {

  /** java.util.Optional: None plays the part of Optional.empty() and of a null reference. */
  datatype Option<+T> = None | Some(value: T) {

    /** Optional.orElse */
    function GetOr(default: T): T {
      match this
      case Some(v) => v
      case None => default
    }
  }

  /** The outcome of an operation that may throw: Failure carries what was thrown. */
  datatype Result<+T, +E> = Success(value: T) | Failure(error: E)

  /** The values of f over xs, in order, as a loop that lets the first exception escape: it
      succeeds exactly when f succeeds on every element, and otherwise fails with the first
      failure. */
  function Collect<A, T(==), E(==)>(f: A --> Result<T, E>, xs: seq<A>): (r: Result<seq<T>, E>)
    requires forall i :: 0 <= i < |xs| ==> f.requires(xs[i])
    ensures r.Success? ==> |r.value| == |xs| && forall i :: 0 <= i < |xs| ==> f(xs[i]) == Success(r.value[i])
    ensures r.Failure? ==> exists i :: 0 <= i < |xs| && f(xs[i]) == Failure(r.error)
                                       && forall j :: 0 <= j < i ==> f(xs[j]).Success?
    ensures r.Failure? <==> exists i :: 0 <= i < |xs| && f(xs[i]).Failure?
  {
    if xs == [] then Success([])
    else
      match f(xs[0])
      case Failure(e) => Failure(e)
      case Success(v) =>
        var rest := Collect(f, xs[1..]);
        assert forall i :: 1 <= i < |xs| ==> xs[i] == xs[1..][i - 1];
        match rest
        case Success(vs) => Success([v] + vs)
        case Failure(e) =>
          var i :| 0 <= i < |xs[1..]| && f(xs[1..][i]) == Failure(e)
                   && forall j :: 0 <= j < i ==> f(xs[1..][j]).Success?;
          assert f(xs[i + 1]) == Failure(e);
          Failure(e)
  }
}

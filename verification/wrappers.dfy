/** Failure-carrying values shared by both puzzle units: the `Option` and
    `Result` of the Rust code, and the short-circuiting collection of a
    sequence of results. */
module Wrappers {

  datatype Option<+T> = None | Some(value: T)

  /** Rust's `Result`; `:-` propagates the first `Err`, as `?` does. */
  datatype Result<+T, +E> = Ok(value: T) | Err(error: E) {

    predicate IsFailure() {
      Err?
    }

    function PropagateFailure<U>(): Result<U, E>
      requires Err?
    {
      Err(error)
    }

    function Extract(): T
      requires Ok?
    {
      value
    }
  }

  /** `xs.map(f).collect::<Result<Vec<_>, _>>()`: every element mapped in
      order, stopping at the first error, which becomes the whole result. */
  function Traverse<A, B, E>(xs: seq<A>, f: A -> Result<B, E>): (r: Result<seq<B>, E>)
    ensures r.Ok? <==> forall i :: 0 <= i < |xs| ==> f(xs[i]).Ok?
    ensures r.Ok? ==> |r.value| == |xs|
    ensures r.Ok? ==> forall i :: 0 <= i < |xs| ==> f(xs[i]).value == r.value[i]
    ensures r.Err? ==> exists i :: 0 <= i < |xs| && FailsFirstAt(xs, f, i, r.error)
  {
    if |xs| == 0 then Ok([])
    else match f(xs[0])
      case Err(e) =>
        assert FailsFirstAt(xs, f, 0, e);
        Err(e)
      case Ok(y) =>
        match Traverse(xs[1..], f)
        case Err(e) =>
          assert forall i :: 0 <= i < |xs[1..]| && FailsFirstAt(xs[1..], f, i, e) ==> FailsFirstAt(xs, f, i + 1, e);
          Err(e)
        case Ok(ys) => Ok([y] + ys)
  }

  /** Element `i` is the first one that `f` maps to an error, and that error is `e`. */
  ghost predicate FailsFirstAt<A, B, E>(xs: seq<A>, f: A -> Result<B, E>, i: nat, e: E)
    requires i < |xs|
  {
    && f(xs[i]).Err?
    && f(xs[i]).error == e
    && forall j :: 0 <= j < i ==> f(xs[j]).Ok?
  }
}

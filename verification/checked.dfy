/** `Iterator::sum` over fallible values into a fixed-width unsigned
    integer, in a build that checks overflow (a debug build, as used by
    `cargo run` and `cargo test`): the first error, or the first addition
    that passes the type's largest value, ends the sum. */
module Checked {
  import opened Wrappers

  /** Sum `values` onto `acc`, stopping at the first error or at the first
      partial sum above `limit`, which is reported as `overflow`. */
  function CheckedSum<E>(values: seq<Result<nat, E>>, limit: nat, overflow: E, acc: nat): Result<nat, E>
    decreases |values|
  {
    if |values| == 0 then Ok(acc)
    else match values[0]
      case Err(e) => Err(e)
      case Ok(v) => if acc + v > limit then Err(overflow) else CheckedSum(values[1..], limit, overflow, acc + v)
  }

  predicate AllOk<E>(values: seq<Result<nat, E>>) {
    forall k :: 0 <= k < |values| ==> values[k].Ok?
  }

  /** Reference definition: the unbounded sum of the values, an error counting as 0. */
  function PlainSum<E>(values: seq<Result<nat, E>>): nat {
    if |values| == 0 then 0
    else (if values[0].Ok? then values[0].value else 0) + PlainSum(values[1..])
  }

  /** The checked running sum succeeds exactly when every value is present
      and the unbounded total stays within `limit`, and then it is that total.
      (All values are non-negative, so no partial sum passes the limit
      unless the total does.) */
  lemma {:induction false} CheckedSumIsPlainSum<E>(values: seq<Result<nat, E>>, limit: nat, overflow: E, acc: nat)
    requires acc <= limit
    ensures CheckedSum(values, limit, overflow, acc).Ok? <==> AllOk(values) && acc + PlainSum(values) <= limit
    ensures CheckedSum(values, limit, overflow, acc).Ok? ==> CheckedSum(values, limit, overflow, acc).value == acc + PlainSum(values)
    decreases |values|
  {
    if |values| > 0 && values[0].Ok? {
      var v := values[0].value;
      if acc + v <= limit {
        CheckedSumIsPlainSum(values[1..], limit, overflow, acc + v);
        assert AllOk(values) <==> AllOk(values[1..]);
      }
    }
  }
}

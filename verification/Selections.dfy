/** Picking the elements of a sequence at some positions. */
module Selections {
  predicate AllBelow(positions: seq<nat>, n: nat) { forall k | 0 <= k < |positions| :: positions[k] < n }

  function Picked<T>(values: seq<T>, positions: seq<nat>): (picked: seq<T>)
    requires AllBelow(positions, |values|)
    ensures |picked| == |positions| && forall k | 0 <= k < |positions| :: picked[k] == values[positions[k]]
  {
    seq(|positions|, k requires 0 <= k < |positions| => values[positions[k]])
  }
}

/** The visibility thresholds handed to the observer. */
module Thresholds {

  /** Threshold `k` of the list: `k` steps of five hundredths. */
  function Step(k: nat): real {
    (5 * k) as real / 100.0
  }

  /** Builds `[0, 0.05, ..., 1]` by pushing `i / 100` for `i = 0, 5, ..., 100`. */
  method BuildThresholdList() returns (thresholds: seq<real>)
    ensures |thresholds| == 21
    ensures forall k :: 0 <= k < |thresholds| ==> thresholds[k] == Step(k)
    ensures thresholds[0] == 0.0 && thresholds[20] == 1.0
    ensures forall j, k :: 0 <= j < k < |thresholds| ==> thresholds[j] < thresholds[k]
    ensures forall k :: 0 <= k < |thresholds| ==> 0.0 <= thresholds[k] <= 1.0
  {
    thresholds := [];
    var i := 0;
    while i <= 100
      invariant 0 <= i <= 105 && i % 5 == 0
      invariant |thresholds| == i / 5
      invariant forall k :: 0 <= k < |thresholds| ==> thresholds[k] == Step(k)
    {
      thresholds := thresholds + [i as real / 100.0];
      i := i + 5;
    }
  }
}

/**
 * The ordered-threshold scan that format_number (over its tier table) and
 * color_for_level (over the level-colour table) both perform: walk the
 * limits from the first and stop at the first index that is the last one or
 * whose successor's limit exceeds the value.  limits[0] itself is never
 * consulted.
 */
module Thresholds {

  ghost predicate Ascending(limits: seq<real>)
  {
    forall a, b :: 0 <= a <= b < |limits| ==> limits[a] <= limits[b]
  }

  /** The index the scan stops at. */
  function FirstRise(limits: seq<real>, x: real): (i: nat)
    requires |limits| > 0
    ensures i < |limits|
    ensures i == |limits| - 1 || limits[i + 1] > x
    ensures forall j :: 1 <= j <= i ==> limits[j] <= x
  {
    FirstRiseFrom(limits, x, 0)
  }

  /** The scan started at index k. */
  function FirstRiseFrom(limits: seq<real>, x: real, k: nat): (i: nat)
    requires k < |limits|
    ensures k <= i < |limits|
    ensures i == |limits| - 1 || limits[i + 1] > x
    ensures forall j :: k < j <= i ==> limits[j] <= x
    decreases |limits| - k
  {
    if k == |limits| - 1 || limits[k + 1] > x then k else FirstRiseFrom(limits, x, k + 1)
  }

  /** The three facts FirstRise ensures single out its result. */
  lemma FirstRiseUnique(limits: seq<real>, x: real, i: nat)
    requires i < |limits|
    requires i == |limits| - 1 || limits[i + 1] > x
    requires forall j :: 1 <= j <= i ==> limits[j] <= x
    ensures i == FirstRise(limits, x)
  {
  }

  /** A larger value never stops the scan earlier, whatever the order of the limits. */
  lemma FirstRiseMonotone(limits: seq<real>, x: real, y: real)
    requires |limits| > 0 && x <= y
    ensures FirstRise(limits, x) <= FirstRise(limits, y)
  {
  }

  /** A value below every limit after the first stops the scan at index 0. */
  lemma FirstRiseBelowAll(limits: seq<real>, x: real)
    requires |limits| > 0
    requires forall j :: 1 <= j < |limits| ==> x < limits[j]
    ensures FirstRise(limits, x) == 0
  {
    if 1 < |limits| {
      FirstRiseUnique(limits, x, 0);
    }
  }

  /**
   * On ascending limits, once the value reaches limits[0] the scan stops at
   * the LAST index whose limit is at most the value.
   */
  lemma FirstRiseAscending(limits: seq<real>, x: real)
    requires |limits| > 0 && Ascending(limits) && limits[0] <= x
    ensures var i := FirstRise(limits, x);
      limits[i] <= x && forall j :: i < j < |limits| ==> x < limits[j]
  {
    var i := FirstRise(limits, x);
    forall j | i < j < |limits|
      ensures x < limits[j]
    {
      assert limits[i + 1] <= limits[j];
    }
  }
}

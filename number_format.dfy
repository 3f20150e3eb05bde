/**
 * format_number: pick a unit tier for a magnitude by an ordered scan over a
 * constant limit table, then print the scaled value with that tier's
 * conversion into a buffer of MaxFormattedNumberSize characters (NUL
 * included).  The printf-style rendering of a real number is floating-point
 * work outside this model; it is the parameter `printf`.
 */
module NumberFormat {
  import opened Common
  import Thresholds

  const MaxFormattedNumberSize := 10

  type Divider = r: real | r > 0.0 witness 1.0

  /** One row of the tier table: the value at which the tier starts, the unit it divides by, its conversion. */
  datatype Tier = Tier(limit: real, divider: Divider, conversion: string)

  const K: real := 1024.0
  const M: real := K * K
  const G: real := M * K
  const T: real := G * K
  const P: real := T * K

  /** Raw with one decimal, raw, then K, M, G, T, P each with one and with zero decimals, then scientific. */
  const Tiers: seq<Tier> := [
    Tier(0.0, 1.0, "%.1f"),
    Tier(10.0, 1.0, "%.0f"),
    Tier(K, K, "%.1fK"),
    Tier(K * 10.0, K, "%.0fK"),
    Tier(M, M, "%.1fM"),
    Tier(M * 10.0, M, "%.0fM"),
    Tier(G, G, "%.1fG"),
    Tier(G * 10.0, G, "%.0fG"),
    Tier(T, T, "%.1fT"),
    Tier(T * 10.0, T, "%.0fT"),
    Tier(P, P, "%.1fP"),
    Tier(P * 10.0, P, "%.0fP"),
    Tier(P * K * K, 1.0, "%.2e")
  ]

  /** The tier limits, in table order. */
  function Limits(): (ls: seq<real>)
    ensures |ls| == |Tiers| && forall i :: 0 <= i < |Tiers| ==> ls[i] == Tiers[i].limit
  {
    seq(|Tiers|, i requires 0 <= i < |Tiers| => Tiers[i].limit)
  }

  /** The tier format_number's scan selects for x. */
  function TierOf(x: real): (i: nat)
    ensures i < |Tiers|
  {
    Thresholds.FirstRise(Limits(), x)
  }

  /** The text format_number leaves in its buffer: the rendering, cut to fit with the NUL. */
  function NumberText(x: real, printf: (string, real) -> CString): (r: CString)
    ensures |r| < MaxFormattedNumberSize
    ensures r <= printf(Tiers[TierOf(x)].conversion, x / Tiers[TierOf(x)].divider)
  {
    var t := Tiers[TierOf(x)];
    Truncate(printf(t.conversion, x / t.divider), MaxFormattedNumberSize - 1)
  }

  /** format_number, with its scan loop; the text is returned instead of written to a buffer. */
  method FormatNumber(x: real, printf: (string, real) -> CString) returns (text: CString)
    ensures text == NumberText(x, printf)
  {
    var i := 0;
    // the source's `for` stops at the first i that is the last tier or whose successor's limit exceeds x
    while i < |Tiers| - 1 && Tiers[i + 1].limit <= x
      invariant 0 <= i < |Tiers|
      invariant forall j :: 1 <= j <= i ==> Tiers[j].limit <= x
    {
      i := i + 1;
    }
    Thresholds.FirstRiseUnique(Limits(), x, i);
    text := Truncate(printf(Tiers[i].conversion, x / Tiers[i].divider), MaxFormattedNumberSize - 1);
  }

  lemma LimitsAscending()
    ensures Thresholds.Ascending(Limits())
  {
    assert forall i :: 0 <= i < |Limits()| - 1 ==> Limits()[i] <= Limits()[i + 1];
    forall a, b | 0 <= a <= b < |Limits()|
      ensures Limits()[a] <= Limits()[b]
    {
      AscendingStep(Limits(), a, b);
    }
  }

  /** Neighbouring order extends to any two indexes. */
  lemma {:induction false} AscendingStep(s: seq<real>, a: nat, b: nat)
    requires a <= b < |s|
    requires forall i :: 0 <= i < |s| - 1 ==> s[i] <= s[i + 1]
    ensures s[a] <= s[b]
    decreases b - a
  {
    if a < b {
      AscendingStep(s, a + 1, b);
    }
  }

  /**
   * Values below 10 use the first (one-decimal raw) tier; from 10 on, the
   * selected tier is the one whose range [limit, next limit) holds the value,
   * the scientific tier having no upper end.
   */
  lemma TierBrackets(x: real)
    ensures x < 10.0 ==> TierOf(x) == 0
    ensures 10.0 <= x ==> var i := TierOf(x);
      Tiers[i].limit <= x && (i == |Tiers| - 1 || x < Tiers[i + 1].limit)
  {
    LimitsAscending();
    if x < 10.0 {
      Thresholds.FirstRiseUnique(Limits(), x, 0);
    } else {
      Thresholds.FirstRiseAscending(Limits(), x);
    }
  }

  /** A larger magnitude never selects a finer tier. */
  lemma TierMonotone(x: real, y: real)
    requires x <= y
    ensures TierOf(x) <= TierOf(y)
  {
    Thresholds.FirstRiseMonotone(Limits(), x, y);
  }
}

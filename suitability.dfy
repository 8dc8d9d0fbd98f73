/** The four-colour suitability tiers of a predicted score (`get_color`). */
module Suitability {

  datatype Color = Green | Yellow | Orange | Red

  /**
   * Colour of a score. Every threshold is strict, so a score exactly on
   * 0.8, 0.6 or 0.4 falls to the lower tier.
   */
  function GetColor(value: real): (c: Color)
    ensures c == Green <==> value > 0.8
    ensures c == Yellow <==> 0.6 < value <= 0.8
    ensures c == Orange <==> 0.4 < value <= 0.6
    ensures c == Red <==> value <= 0.4
  {
    if value > 0.8 then Green
    else if value > 0.6 then Yellow
    else if value > 0.4 then Orange
    else Red
  }

  /** Position of a colour in the order red < orange < yellow < green. */
  function Rank(c: Color): nat
  {
    match c
    case Red => 0
    case Orange => 1
    case Yellow => 2
    case Green => 3
  }

  /** How many of the three thresholds a score lies strictly above. */
  function ThresholdsPassed(value: real): nat
  {
    (if value > 0.4 then 1 else 0) + (if value > 0.6 then 1 else 0) + (if value > 0.8 then 1 else 0)
  }

  /** The tier of a score is the number of thresholds it passes. */
  lemma RankCountsThresholds(value: real)
    ensures Rank(GetColor(value)) == ThresholdsPassed(value)
  {
  }

  /** A higher score never gets a lower tier. */
  lemma GetColorMonotone(v1: real, v2: real)
    requires v1 <= v2
    ensures Rank(GetColor(v1)) <= Rank(GetColor(v2))
  {
    RankCountsThresholds(v1);
    RankCountsThresholds(v2);
  }

  /** The colours on and just above each threshold. */
  lemma GetColorBoundaries()
    ensures GetColor(0.8) == Yellow && GetColor(0.80001) == Green
    ensures GetColor(0.6) == Orange && GetColor(0.60001) == Yellow
    ensures GetColor(0.4) == Red && GetColor(0.41) == Orange
  {
  }
}

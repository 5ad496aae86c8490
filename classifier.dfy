/**
 * The risk-tier classifier of the hotspot map (`getHeatmapColor` in
 * src/components/CrimeMap.jsx). An intensity is compared against two
 * thresholds and mapped to one of three tiers; the renderer only ever reads
 * the tier's colour. Intensities are exact reals: only the comparisons matter.
 */
module Classifier {

  /** The three risk tiers, ordered by `Rank`: Low < Medium < High. */
  datatype Tier = Low | Medium | High {

    function Rank(): nat {
      match this
      case Low => 0
      case Medium => 1
      case High => 2
    }

    /** The stroke/fill colour the map uses for this tier. */
    function Color(): string {
      match this
      case High => "#ef4444"
      case Medium => "#f59e0b"
      case Low => "#10b981"
    }
  }

  /** Inclusive lower bound of the high tier. */
  const HighThreshold: real := 0.7
  /** Inclusive lower bound of the medium tier. */
  const MediumThreshold: real := 0.4

  /**
   * `getHeatmapColor`, reduced to the tier it picks. Total: every real,
   * including values outside [0, 1], gets exactly one tier; nothing is
   * clamped or rejected. The three intervals are half-open, so each threshold
   * itself belongs to the tier above.
   */
  function HeatmapTier(intensity: real): (t: Tier)
    ensures t == High <==> intensity >= HighThreshold
    ensures t == Medium <==> MediumThreshold <= intensity < HighThreshold
    ensures t == Low <==> intensity < MediumThreshold
  {
    if intensity >= HighThreshold then High
    else if intensity >= MediumThreshold then Medium
    else Low
  }

  /** The colour `getHeatmapColor(intensity).color` that circles and labels use. */
  function TierColor(intensity: real): (c: string)
    ensures c == "#ef4444" <==> intensity >= HighThreshold
    ensures c == "#f59e0b" <==> MediumThreshold <= intensity < HighThreshold
    ensures c == "#10b981" <==> intensity < MediumThreshold
  {
    HeatmapTier(intensity).Color()
  }

  /** A higher intensity never yields a lower tier. */
  lemma Monotone(a: real, b: real)
    requires a <= b
    ensures HeatmapTier(a).Rank() <= HeatmapTier(b).Rank()
  {
  }

  /** Distinct tiers are drawn in distinct colours, so the colour determines the tier. */
  lemma ColorsDistinct(s: Tier, t: Tier)
    ensures s.Color() == t.Color() <==> s == t
  {
  }

  /** The values on either side of each threshold. */
  lemma Boundaries()
    ensures HeatmapTier(0.7) == High && HeatmapTier(0.6999) == Medium
    ensures HeatmapTier(0.4) == Medium && HeatmapTier(0.39999) == Low
    ensures HeatmapTier(1.5) == High && HeatmapTier(-0.2) == Low
  {
  }

  /**
   * The displayed risk percentage, `Math.round(intensity * 100)`: the integer
   * nearest to 100 * intensity, halves rounded upwards.
   */
  function RiskPercent(intensity: real): (p: int)
    ensures p as real - 0.5 <= intensity * 100.0 < p as real + 0.5
  {
    (intensity * 100.0 + 0.5).Floor
  }

  /** A higher intensity never displays a lower percentage. */
  lemma RiskPercentMonotone(a: real, b: real)
    requires a <= b
    ensures RiskPercent(a) <= RiskPercent(b)
  {
  }
}

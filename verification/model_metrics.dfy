/**
 * Single-threshold scoring and selection (src/riskloom/modeling/metrics.py),
 * related to the two-threshold bands.
 */
module ModelMetrics {
  import opened Common
  import opened PolicyBands

  datatype Metrics = Metrics(
    truePositive: nat, falsePositive: nat, trueNegative: nat, falseNegative: nat, cost: int, threshold: real)

  function Confused(rows: seq<Row>, t: real, flagged: bool, attack: bool): nat {
    if rows == [] then 0
    else (if (rows[0].probability >= t) == flagged && rows[0].attack == attack then 1 else 0) + Confused(rows[1..], t, flagged, attack)
  }

  function ThresholdMetrics(rows: seq<Row>, t: real, falsePositiveCost: nat, falseNegativeCost: nat): Metrics {
    var fp, fn := Confused(rows, t, true, false), Confused(rows, t, false, true);
    Metrics(Confused(rows, t, true, true), fp, Confused(rows, t, false, false), fn,
            fp * falsePositiveCost + fn * falseNegativeCost, t)
  }

  lemma {:induction false} ConfusedIsBelow(rows: seq<Row>, t: real)
    ensures Confused(rows, t, false, true) == AttacksBelow(rows, t)
    ensures Confused(rows, t, false, false) + Confused(rows, t, false, true) == Below(rows, t)
    ensures Confused(rows, t, true, true) == TruePositive(rows, t)
    ensures Confused(rows, t, true, false) == FalsePositive(rows, t)
  {
    if rows != [] {
      ConfusedIsBelow(rows[1..], t);
    }
  }

  /** A band with equal thresholds is exactly the single-threshold policy, whatever a review costs. */
  lemma DegenerateBand(rows: seq<Row>, t: real, costs: Costs)
    ensures var m := ThresholdMetrics(rows, t, costs.falsePositive, costs.falseNegative);
            var o := EvaluateBand(rows, Band(t, t), costs);
            && o.reviewCount == 0
            && (m.truePositive, m.falsePositive, m.trueNegative, m.falseNegative, m.cost)
            == (o.truePositive, o.falsePositive, o.trueNegative, o.falseNegative, o.costUnits)
  {
    ConfusedIsBelow(rows, t);
    RoutedIsBelow(rows, Band(t, t));
  }

  function PrecisionKey(m: Metrics): real {
    if m.truePositive + m.falsePositive == 0 then 0.0
    else -(m.truePositive as real / (m.truePositive + m.falsePositive) as real)
  }

  /** The selection key, precision rung included. */
  predicate KeyLess(a: Metrics, b: Metrics) {
    if a.cost != b.cost then a.cost < b.cost
    else if a.falsePositive != b.falsePositive then a.falsePositive < b.falsePositive
    else if a.truePositive != b.truePositive then a.truePositive > b.truePositive
    else if PrecisionKey(a) != PrecisionKey(b) then PrecisionKey(a) < PrecisionKey(b)
    else a.threshold > b.threshold
  }

  /** The same order with the precision rung left out. */
  predicate NoWorse(a: Metrics, b: Metrics) {
    if a.cost != b.cost then a.cost < b.cost
    else if a.falsePositive != b.falsePositive then a.falsePositive < b.falsePositive
    else if a.truePositive != b.truePositive then a.truePositive > b.truePositive
    else a.threshold >= b.threshold
  }

  /** Exhaustive over the observed values, yet optimal over every threshold in [0, 1]. */
  method SelectThreshold(rows: seq<Row>, falsePositiveCost: nat, falseNegativeCost: nat) returns (selected: Metrics)
    ensures selected.threshold in Observed(rows)
    ensures selected == ThresholdMetrics(rows, selected.threshold, falsePositiveCost, falseNegativeCost)
    ensures forall c :: c in Observed(rows) ==>
      NoWorse(selected, ThresholdMetrics(rows, c, falsePositiveCost, falseNegativeCost))
    ensures forall c :: c in Observed(rows) ==>
              var m := ThresholdMetrics(rows, c, falsePositiveCost, falseNegativeCost);
              || selected.cost < m.cost
              || (selected.cost == m.cost && selected.falsePositive < m.falsePositive)
              || (selected.cost == m.cost && selected.falsePositive == m.falsePositive && selected.truePositive > m.truePositive)
              || (selected.cost == m.cost && selected.falsePositive == m.falsePositive && selected.truePositive == m.truePositive
                  && selected.threshold >= c)
    ensures (forall r :: r in rows ==> Unit(r.probability)) ==>
      forall t :: Unit(t) ==> selected.cost <= ThresholdMetrics(rows, t, falsePositiveCost, falseNegativeCost).cost
  {
    hide Observed, Confused;
    var cs := Observed(rows);
    ZeroIsObserved(rows);
    selected := ThresholdMetrics(rows, cs[0], falsePositiveCost, falseNegativeCost);
    for i := 1 to |cs|
      invariant selected.threshold in cs
      invariant selected == ThresholdMetrics(rows, selected.threshold, falsePositiveCost, falseNegativeCost)
      invariant forall k :: 0 <= k < i ==> NoWorse(selected, ThresholdMetrics(rows, cs[k], falsePositiveCost, falseNegativeCost))
    {
      var m := ThresholdMetrics(rows, cs[i], falsePositiveCost, falseNegativeCost);
      if KeyLess(m, selected) {
        forall k | 0 <= k < i
          ensures NoWorse(m, ThresholdMetrics(rows, cs[k], falsePositiveCost, falseNegativeCost))
        {
          NoWorseChains(m, selected, ThresholdMetrics(rows, cs[k], falsePositiveCost, falseNegativeCost));
        }
        selected := m;
      }
    }
    if forall r :: r in rows ==> Unit(r.probability) {
      forall t | Unit(t)
        ensures selected.cost <= ThresholdMetrics(rows, t, falsePositiveCost, falseNegativeCost).cost
      {
        var c := ObservedThreshold(rows, t, falsePositiveCost, falseNegativeCost);
      }
    }
  }

  lemma ZeroIsObserved(rows: seq<Row>)
    ensures 0.0 in Observed(rows)
  {
  }

  lemma NoWorseChains(a: Metrics, b: Metrics, c: Metrics)
    requires NoWorse(b, c) && NoWorse(a, b)
    ensures NoWorse(a, c)
  {
  }

  /** Some observed threshold costs what `t` costs. */
  lemma ObservedThreshold(rows: seq<Row>, t: real, falsePositiveCost: nat, falseNegativeCost: nat) returns (c: real)
    requires Unit(t) && forall r :: r in rows ==> Unit(r.probability)
    ensures c in Observed(rows)
    ensures ThresholdMetrics(rows, c, falsePositiveCost, falseNegativeCost).cost
         == ThresholdMetrics(rows, t, falsePositiveCost, falseNegativeCost).cost
  {
    hide SortedSet, Probabilities, NextObserved, Confused, Below, AttacksBelow, Attacks;
    c := NextObserved(rows, t);
    NextObservedBelow(rows, t);
    SameSideSameCounts(rows, t, c);
    ConfusedIsBelow(rows, t);
    ConfusedIsBelow(rows, c);
  }

  function BasisPoints(numerator: nat, denominator: nat): Option<int> {
    if denominator == 0 then None else Some((numerator * 20_000 + denominator) / (2 * denominator))
  }

  /** Rounded half up: comparing basis points with a ceiling is comparing the exact rate with the ceiling plus a half. */
  lemma BasisPointsCeiling(numerator: nat, denominator: nat, ceiling: int)
    requires denominator > 0
    ensures BasisPoints(numerator, denominator).value <= ceiling <==> 20_000 * numerator < (2 * ceiling + 1) * denominator
  {
    var d := 2 * denominator;
    var q := (numerator * 20_000 + denominator) / d;
    assert q * d <= numerator * 20_000 + denominator < (q + 1) * d by {
      assert numerator * 20_000 + denominator == q * d + (numerator * 20_000 + denominator) % d;
    }
    assert (2 * ceiling + 1) * denominator == (ceiling + 1) * d - denominator;
    if q <= ceiling {
      Scaled(q + 1, ceiling + 1, d);
    } else {
      Scaled(ceiling + 1, q, d);
    }
  }
}

/**
 * What the counts, the cost, the candidates and the choice of
 * src/riskloom/policy/bands.py are, in terms of the rows themselves.
 */
module BandMeaning {
  import opened Common
  import opened PolicyBands

  // ----- counting rows

  ghost function Picked(rows: seq<Row>, b: Band, d: Decision, attack: bool): set<nat> {
    set i: nat | i < |rows| && Route(rows[i].probability, b) == d && rows[i].attack == attack
  }

  lemma {:induction false} RoutedSnoc(rows: seq<Row>, r: Row, b: Band, d: Decision, attack: bool)
    ensures Routed(rows + [r], b, d, attack)
         == Routed(rows, b, d, attack) + if Route(r.probability, b) == d && r.attack == attack then 1 else 0
  {
    if rows == [] {
      assert [] + [r] == [r] && [r][1..] == [];
    } else {
      RoutedSnoc(rows[1..], r, b, d, attack);
      assert (rows + [r])[1..] == rows[1..] + [r];
    }
  }

  lemma {:induction false} RoutedIsPicked(rows: seq<Row>, b: Band, d: Decision, attack: bool)
    ensures Routed(rows, b, d, attack) == |Picked(rows, b, d, attack)|
  {
    hide Route;
    if rows != [] {
      var n := |rows| - 1;
      RoutedIsPicked(rows[..n], b, d, attack);
      RoutedSnoc(rows[..n], rows[n], b, d, attack);
      assert rows == rows[..n] + [rows[n]];
      var m := Picked(rows[..n], b, d, attack);
      assert Picked(rows, b, d, attack)
          == if Route(rows[n].probability, b) == d && rows[n].attack == attack then m + {n} else m;
    }
  }

  lemma {:induction false} AttacksArePicked(rows: seq<Row>, b: Band)
    ensures Attacks(rows) == Routed(rows, b, Allow, true) + Routed(rows, b, Review, true) + Routed(rows, b, Deny, true)
  {
    if rows != [] {
      AttacksArePicked(rows[1..], b);
    }
  }

  /**
   * The outcome of a band counts rows: allowed below the lower threshold,
   * denied from the upper one on, reviewed between; a missed attack, a denied
   * legitimate row and a review cost what each is said to cost.
   */
  lemma OutcomeCounts(rows: seq<Row>, b: Band, costs: Costs)
    requires b.lower <= b.upper
    ensures var o := EvaluateBand(rows, b, costs);
            var missed := set i: nat | i < |rows| && rows[i].attack && rows[i].probability < b.lower;
            var passed := set i: nat | i < |rows| && !rows[i].attack && rows[i].probability < b.lower;
            var caught := set i: nat | i < |rows| && rows[i].attack && rows[i].probability >= b.upper;
            var harmed := set i: nat | i < |rows| && !rows[i].attack && rows[i].probability >= b.upper;
            && o.falseNegative == |missed| && o.trueNegative == |passed|
            && o.truePositive == |caught| && o.falsePositive == |harmed|
            && o.allowCount == |missed| + |passed| && o.denyCount == |caught| + |harmed|
            && o.reviewCount == |rows| - o.allowCount - o.denyCount
            && o.costUnits == |missed| * costs.falseNegative + |harmed| * costs.falsePositive + o.reviewCount * costs.review
    ensures var o := EvaluateBand(rows, b, costs);
            o.rowCount == |rows| == o.attackCount + o.legitimateCount && o.attackCount == |set i: nat | i < |rows| && rows[i].attack|
  {
    RoutedIsPicked(rows, b, Allow, true);
    RoutedIsPicked(rows, b, Allow, false);
    RoutedIsPicked(rows, b, Deny, true);
    RoutedIsPicked(rows, b, Deny, false);
    RoutedIsBelow(rows, b);
    PickedAre(rows, b);
    AttackCount(rows);
    hide Routed, Picked, Attacks, Below, AttacksBelow, Route;
  }

  lemma PickedAre(rows: seq<Row>, b: Band)
    requires b.lower <= b.upper
    ensures Picked(rows, b, Allow, true) == set i: nat | i < |rows| && rows[i].attack && rows[i].probability < b.lower
    ensures Picked(rows, b, Allow, false) == set i: nat | i < |rows| && !rows[i].attack && rows[i].probability < b.lower
    ensures Picked(rows, b, Deny, true) == set i: nat | i < |rows| && rows[i].attack && rows[i].probability >= b.upper
    ensures Picked(rows, b, Deny, false) == set i: nat | i < |rows| && !rows[i].attack && rows[i].probability >= b.upper
  {
  }

  lemma {:induction false} AttacksSnoc(rows: seq<Row>, r: Row)
    ensures Attacks(rows + [r]) == Attacks(rows) + if r.attack then 1 else 0
  {
    if rows == [] {
      assert [] + [r] == [r] && [r][1..] == [];
    } else {
      AttacksSnoc(rows[1..], r);
      assert (rows + [r])[1..] == rows[1..] + [r];
    }
  }

  lemma {:induction false} AttackCount(rows: seq<Row>)
    ensures Attacks(rows) == |set i: nat | i < |rows| && rows[i].attack|
  {
    if rows != [] {
      var n := |rows| - 1;
      AttackCount(rows[..n]);
      AttacksSnoc(rows[..n], rows[n]);
      assert rows == rows[..n] + [rows[n]];
      var m := set i: nat | i < n && rows[..n][i].attack;
      assert (set i: nat | i < |rows| && rows[i].attack) == if rows[n].attack then m + {n} else m;
    }
  }

  // ----- the candidates

  /** The values a threshold is first taken from: zero, one and every probability, in order and once each. */
  lemma ObservedAre(rows: seq<Row>, x: real)
    ensures x in Observed(rows) <==> x == 0.0 || x == 1.0 || exists i :: 0 <= i < |rows| && rows[i].probability == x
    ensures forall i, j :: 0 <= i < j < |Observed(rows)| ==> Observed(rows)[i] < Observed(rows)[j]
  {
    hide SortedSet;
    var ps := Probabilities(rows);
    assert x in Observed(rows) <==> x in [0.0, 1.0] + ps;
    assert x in ps <==> exists i :: 0 <= i < |rows| && rows[i].probability == x by {
      if i :| 0 <= i < |rows| && rows[i].probability == x {
        assert ps[i] == x;
      }
      if x in ps {
        var i :| 0 <= i < |ps| && ps[i] == x;
        assert rows[i].probability == x;
      }
    }
  }

  /** The candidates: the required values and the observed ones, thinned out to evenly spaced positions when there are too many. */
  lemma CandidatesAre(rows: seq<Row>, gridSize: nat, required: seq<real>, x: real)
    requires gridSize >= 2
    ensures |Observed(rows)| >= 2
    ensures x in SweepCandidates(rows, gridSize, required) <==>
            || x in required
            || (|Observed(rows)| <= gridSize && x in Observed(rows))
            || (|Observed(rows)| > gridSize
                && exists k :: 0 <= k < gridSize && IsPick(Observed(rows), k, gridSize, x))
  {
    hide SortedSet, Pick;
    var observed := Observed(rows);
    assert 0.0 in observed && 1.0 in observed;
    TwoMembers(observed);
    if |observed| > gridSize {
      forall k | 0 <= k < gridSize
        ensures IsPick(observed, k, gridSize, x) <==> Subsample(observed, gridSize)[k] == x
      {
        PickIs(k, |observed|, gridSize);
      }
      var picked := Subsample(observed, gridSize);
      assert x in picked <==> exists k :: 0 <= k < gridSize && picked[k] == x;
    }
  }

  /** The value at the floor of the k-th of the evenly spaced positions. */
  predicate IsPick(observed: seq<real>, k: nat, gridSize: nat, x: real)
    requires gridSize >= 2
  {
    var at := k * (|observed| - 1) / (gridSize - 1);
    0 <= at < |observed| && observed[at] == x
  }

  lemma PickIs(k: nat, total: nat, gridSize: nat)
    requires k < gridSize && gridSize >= 2 && total > 0
    ensures Pick(k, total, gridSize) == k * (total - 1) / (gridSize - 1)
  {
  }

  lemma TwoMembers(s: seq<real>)
    requires 0.0 in s && 1.0 in s
    ensures |s| >= 2
  {
  }

  // ----- the choice

  /** First by cost, then false positives, then most attacks caught, then fewest reviews, then the higher upper, then the higher lower threshold. */
  predicate FirstOf(a: Outcome, x: Band, b: Outcome, y: Band) {
    || a.costUnits < b.costUnits
    || (a.costUnits == b.costUnits
        && (|| a.falsePositive < b.falsePositive
            || (a.falsePositive == b.falsePositive
                && (|| a.truePositive > b.truePositive
                    || (a.truePositive == b.truePositive
                        && (|| a.reviewCount < b.reviewCount
                            || (a.reviewCount == b.reviewCount
                                && (x.upper > y.upper || (x.upper == y.upper && x.lower >= y.lower)))))))))
  }

  /** The selected band comes first of all ordered candidate pairs, by their outcomes row by row. */
  lemma BestIsFirst(rows: seq<Row>, costs: Costs, cs: seq<real>, e: Entry, lower: real, upper: real)
    requires IsBest(rows, costs, cs, e) && lower in cs && upper in cs && lower <= upper
    ensures e.lower <= e.upper
    ensures FirstOf(EvaluateBand(rows, Band(e.lower, e.upper), costs), Band(e.lower, e.upper),
                    EvaluateBand(rows, Band(lower, upper), costs), Band(lower, upper))
  {
    BestIsLegal(rows, costs, cs, e);
    BelowGrows(rows, lower, upper);
    assert Precedes(e, EntryOf(rows, costs, lower, upper));
    EvaluateIsSweep(rows, Band(e.lower, e.upper), costs);
    EvaluateIsSweep(rows, Band(lower, upper), costs);
    hide EvaluateBand, SweepCost, Below, AttacksBelow;
  }

  /** And no other ordered pair does. */
  lemma OneIsFirst(a: Outcome, x: Band, b: Outcome, y: Band)
    requires FirstOf(a, x, b, y) && FirstOf(b, y, a, x)
    ensures x == y
  {
  }
}

/**
 * Two-threshold banding and its cost-minimising sweep (src/riskloom/policy/bands.py).
 * Probabilities are reals; only their order matters.
 */
module PolicyBands {
  import opened Common
  import opened Sorting

  datatype Costs = Costs(falseNegative: nat, falsePositive: nat, review: nat)

  /** One scored row: its calibrated probability and its ground truth. */
  datatype Row = Row(probability: real, attack: bool)

  datatype Band = Band(lower: real, upper: real)

  datatype Decision = Allow | Review | Deny

  datatype BandError = ShapeInvalid | TargetInvalid | GridSizeInvalid | RowsRequired | BandInvalid | SweepInconsistent

  datatype Outcome = Outcome(
    allowCount: int, reviewCount: int, denyCount: int,
    truePositive: int, falsePositive: int, trueNegative: int, falseNegative: int,
    rowCount: int, attackCount: int, legitimateCount: int, costUnits: int)

  predicate Unit(x: real) {
    0.0 <= x <= 1.0
  }

  predicate LegalBand(b: Band) {
    Unit(b.lower) && Unit(b.upper) && b.lower <= b.upper
  }

  // ----- routing

  function Route(x: real, b: Band): Decision {
    if x < b.lower then Allow else if x < b.upper then Review else Deny
  }

  /** Fill with ALLOW, then overwrite by the lower and then by the upper threshold. */
  method BandDecisions(probabilities: seq<real>, b: Band) returns (decisions: array<Decision>)
    requires LegalBand(b)
    ensures fresh(decisions) && decisions.Length == |probabilities|
    ensures forall i :: 0 <= i < |probabilities| ==> decisions[i] == Route(probabilities[i], b)
  {
    decisions := new Decision[|probabilities|](_ => Allow);
    for i := 0 to |probabilities|
      invariant forall k :: 0 <= k < |probabilities| ==>
        decisions[k] == if k < i && probabilities[k] >= b.lower then Review else Allow
    {
      if probabilities[i] >= b.lower {
        decisions[i] := Review;
      }
    }
    for i := 0 to |probabilities|
      invariant forall k :: 0 <= k < i ==> decisions[k] == Route(probabilities[k], b)
      invariant forall k :: i <= k < |probabilities| ==> decisions[k] == if probabilities[k] >= b.lower then Review else Allow
    {
      if probabilities[i] >= b.upper {
        decisions[i] := Deny;
      }
    }
  }

  // ----- scoring one band

  /** How many rows get decision `d` and have ground truth `attack`. */
  function Routed(rows: seq<Row>, b: Band, d: Decision, attack: bool): nat {
    if rows == [] then 0
    else (if Route(rows[0].probability, b) == d && rows[0].attack == attack then 1 else 0) + Routed(rows[1..], b, d, attack)
  }

  function EvaluateBand(rows: seq<Row>, b: Band, costs: Costs): Outcome {
    var allowedAttack, allowedLegitimate := Routed(rows, b, Allow, true), Routed(rows, b, Allow, false);
    var deniedAttack, deniedLegitimate := Routed(rows, b, Deny, true), Routed(rows, b, Deny, false);
    var reviewed := Routed(rows, b, Review, true) + Routed(rows, b, Review, false);
    var attacks := Attacks(rows);
    Outcome(
      allowedAttack + allowedLegitimate, reviewed, deniedAttack + deniedLegitimate,
      deniedAttack, deniedLegitimate, allowedLegitimate, allowedAttack,
      |rows|, attacks, |rows| - attacks,
      allowedAttack * costs.falseNegative + deniedLegitimate * costs.falsePositive + reviewed * costs.review)
  }

  // ----- counting below a threshold

  function Attacks(rows: seq<Row>): nat {
    if rows == [] then 0 else (if rows[0].attack then 1 else 0) + Attacks(rows[1..])
  }

  function Below(rows: seq<Row>, x: real): nat {
    if rows == [] then 0 else (if rows[0].probability < x then 1 else 0) + Below(rows[1..], x)
  }

  function AttacksBelow(rows: seq<Row>, x: real): nat {
    if rows == [] then 0 else (if rows[0].probability < x && rows[0].attack then 1 else 0) + AttacksBelow(rows[1..], x)
  }

  /** Denials depend on the upper threshold alone; reviews on both. */
  function ReviewCount(rows: seq<Row>, lower: real, upper: real): int {
    Below(rows, upper) - Below(rows, lower)
  }

  function TruePositive(rows: seq<Row>, upper: real): int {
    Attacks(rows) - AttacksBelow(rows, upper)
  }

  function FalsePositive(rows: seq<Row>, upper: real): int {
    |rows| - Below(rows, upper) - TruePositive(rows, upper)
  }

  function SweepCost(rows: seq<Row>, costs: Costs, lower: real, upper: real): int {
    AttacksBelow(rows, lower) * costs.falseNegative + FalsePositive(rows, upper) * costs.falsePositive
    + ReviewCount(rows, lower, upper) * costs.review
  }

  /** The prefix-sum form of every count agrees with routing row by row. */
  lemma {:induction false} RoutedIsBelow(rows: seq<Row>, b: Band)
    requires b.lower <= b.upper
    ensures Routed(rows, b, Allow, true) == AttacksBelow(rows, b.lower)
    ensures Routed(rows, b, Allow, true) + Routed(rows, b, Allow, false) == Below(rows, b.lower)
    ensures Routed(rows, b, Review, true) == AttacksBelow(rows, b.upper) - AttacksBelow(rows, b.lower)
    ensures Routed(rows, b, Review, true) + Routed(rows, b, Review, false) == Below(rows, b.upper) - Below(rows, b.lower)
    ensures Routed(rows, b, Deny, true) == Attacks(rows) - AttacksBelow(rows, b.upper)
    ensures Routed(rows, b, Deny, true) + Routed(rows, b, Deny, false) == |rows| - Below(rows, b.upper)
  {
    if rows != [] {
      RoutedIsBelow(rows[1..], b);
    }
  }

  lemma EvaluateIsSweep(rows: seq<Row>, b: Band, costs: Costs)
    requires b.lower <= b.upper
    ensures var o := EvaluateBand(rows, b, costs);
            && o.costUnits == SweepCost(rows, costs, b.lower, b.upper)
            && o.reviewCount == ReviewCount(rows, b.lower, b.upper)
            && o.truePositive == TruePositive(rows, b.upper)
            && o.falsePositive == FalsePositive(rows, b.upper)
            && o.allowCount + o.reviewCount + o.denyCount == |rows|
  {
    RoutedIsBelow(rows, b);
  }

  /** Counts only grow with the threshold, attacks no faster than rows. */
  lemma {:induction false} BelowGrows(rows: seq<Row>, x: real, y: real)
    requires x <= y
    ensures 0 <= AttacksBelow(rows, y) - AttacksBelow(rows, x) <= Below(rows, y) - Below(rows, x)
    ensures AttacksBelow(rows, y) <= Attacks(rows) && Below(rows, y) <= |rows|
    ensures Attacks(rows) - AttacksBelow(rows, y) <= |rows| - Below(rows, y)
  {
    if rows != [] {
      BelowGrows(rows[1..], x, y);
    }
  }

  /** Two thresholds with as many rows below them are indistinguishable. */
  lemma SameBelow(rows: seq<Row>, x: real, y: real)
    requires Below(rows, x) == Below(rows, y)
    ensures AttacksBelow(rows, x) == AttacksBelow(rows, y)
  {
    if x <= y {
      BelowGrows(rows, x, y);
    } else {
      BelowGrows(rows, y, x);
    }
  }

  // ----- candidates

  predicate Less(a: real, b: real) {
    a < b
  }

  ghost predicate Ascending(xs: seq<real>) {
    forall i, j :: 0 <= i < j < |xs| ==> xs[i] < xs[j]
  }

  /** The sorted set of the given values. */
  function SortedSet(values: seq<real>): (ys: seq<real>)
    ensures Ascending(ys)
    ensures forall y :: y in ys <==> y in values
  {
    if values == [] then []
    else
      var rest := SortedSet(values[1..]);
      assert SortedBy(Less, rest);
      if values[0] in rest then rest else InsertBy(Less, rest, values[0])
  }

  function Probabilities(rows: seq<Row>): (ps: seq<real>)
    ensures |ps| == |rows|
    ensures forall i :: 0 <= i < |rows| ==> ps[i] == rows[i].probability
  {
    seq(|rows|, i requires 0 <= i < |rows| => rows[i].probability)
  }

  function Observed(rows: seq<Row>): seq<real> {
    SortedSet([0.0, 1.0] + Probabilities(rows))
  }

  /** The position of the `k`-th of `gridSize` evenly spaced picks, by the source's integer formula. */
  function Pick(k: nat, total: nat, gridSize: nat): (i: nat)
    requires k < gridSize && gridSize >= 2 && total > 0
    ensures i < total
  {
    var steps, last := gridSize - 1, total - 1;
    var a := k * last;
    assert a <= steps * last by {
      Scaled(k, steps, last);
    }
    var q := a / steps;
    assert q * steps <= a;
    assert q <= last by {
      assert (last + 1) * steps == steps * last + steps;
      Scaled(last + 1, q, steps);
    }
    q
  }

  function Subsample(observed: seq<real>, gridSize: nat): (picked: seq<real>)
    requires gridSize >= 2 && |observed| > 0
    ensures forall x :: x in picked ==> x in observed
  {
    seq(gridSize, k requires 0 <= k < gridSize => observed[Pick(k, |observed|, gridSize)])
  }

  function SweepCandidates(rows: seq<Row>, gridSize: nat, required: seq<real>): (cs: seq<real>)
    requires gridSize >= 2
    ensures Ascending(cs)
    ensures forall r :: r in required ==> r in cs
    ensures forall c :: c in cs ==> c in required || c in Observed(rows)
    ensures |Observed(rows)| <= gridSize ==> forall x :: x in Observed(rows) ==> x in cs
  {
    var observed := Observed(rows);
    assert 0.0 in observed;
    var kept := if |observed| > gridSize then Subsample(observed, gridSize) else observed;
    SortedSet(kept + required)
  }

  /** Picks are evenly spaced: each is the floor of its exact position, so they ascend from the first to the last. */
  lemma PicksEvenly(k: nat, total: nat, gridSize: nat)
    requires k < gridSize && gridSize >= 2 && total > 0
    ensures Pick(k, total, gridSize) * (gridSize - 1) <= k * (total - 1) < (Pick(k, total, gridSize) + 1) * (gridSize - 1)
    ensures k == 0 ==> Pick(k, total, gridSize) == 0
    ensures k == gridSize - 1 ==> Pick(k, total, gridSize) == total - 1
  {
    var steps, a, q := gridSize - 1, k * (total - 1), Pick(k, total, gridSize);
    assert a == q * steps + a % steps && (q + 1) * steps == q * steps + steps;
    if k == steps {
      Scaled(q + 1, total - 1, steps);
    }
    if k == 0 {
      Scaled(1, q, steps);
    }
  }

  lemma BetweenEnds(xs: seq<real>, x: real)
    requires Ascending(xs) && x in xs
    ensures xs[0] <= x <= xs[|xs| - 1]
  {
    var i :| 0 <= i < |xs| && xs[i] == x;
  }

  lemma AscendingBounds(xs: seq<real>, low: real, high: real)
    requires Ascending(xs) && low in xs && high in xs && forall x :: x in xs ==> low <= x <= high
    ensures xs[0] == low && xs[|xs| - 1] == high
  {
    BetweenEnds(xs, low);
    BetweenEnds(xs, high);
    var first, last := xs[0], xs[|xs| - 1];
    assert first in xs && last in xs;
  }

  /** Subsampling never drops the thresholds 0 and 1, so allowing or denying everything can always be expressed. */
  lemma EndsAreCandidates(rows: seq<Row>, gridSize: nat, required: seq<real>)
    requires gridSize >= 2 && forall r :: r in rows ==> Unit(r.probability)
    ensures 0.0 in SweepCandidates(rows, gridSize, required) && 1.0 in SweepCandidates(rows, gridSize, required)
  {
    hide Pick, Ascending, SortedSet;
    var observed := Observed(rows);
    assert 0.0 in observed && 1.0 in observed;
    ObservedInUnit(rows);
    AscendingBounds(observed, 0.0, 1.0);
    var total := |observed|;
    if total > gridSize {
      PicksEvenly(0, total, gridSize);
      PicksEvenly(gridSize - 1, total, gridSize);
      var picked := Subsample(observed, gridSize);
      assert picked[0] == 0.0 && picked[gridSize - 1] == 1.0;
      assert picked[0] in picked + required && picked[gridSize - 1] in picked + required;
    }
  }

  lemma ObservedInUnit(rows: seq<Row>)
    requires forall r :: r in rows ==> Unit(r.probability)
    ensures forall x :: x in Observed(rows) ==> 0.0 <= x <= 1.0
  {
    forall x | x in Observed(rows)
      ensures 0.0 <= x <= 1.0
    {
      if x in Probabilities(rows) {
        var i :| 0 <= i < |rows| && Probabilities(rows)[i] == x;
        assert rows[i] in rows;
      }
    }
  }

  // ----- the candidates lose nothing

  /** The smallest observed value at or above `x`, or 1. */
  function NextObserved(rows: seq<Row>, x: real): real {
    if rows == [] then 1.0
    else
      var next := NextObserved(rows[1..], x);
      if x <= rows[0].probability < next then rows[0].probability else next
  }

  lemma {:induction false} NextObservedBelow(rows: seq<Row>, x: real)
    requires x <= 1.0 && forall r :: r in rows ==> Unit(r.probability)
    ensures var c := NextObserved(rows, x);
            && x <= c <= 1.0
            && (c == 1.0 || c in Probabilities(rows))
            && (forall r :: r in rows ==> (r.probability < x <==> r.probability < c))
  {
    if rows != [] {
      NextObservedBelow(rows[1..], x);
      var c, next := NextObserved(rows, x), NextObserved(rows[1..], x);
      if c == rows[0].probability {
        assert Probabilities(rows)[0] == c;
      } else if next in Probabilities(rows[1..]) {
        var i :| 0 <= i < |rows| - 1 && Probabilities(rows[1..])[i] == next;
        assert Probabilities(rows)[i + 1] == next;
      }
      forall r | r in rows
        ensures r.probability < x <==> r.probability < c
      {
        assert r == rows[0] || r in rows[1..];
      }
    }
  }

  lemma {:induction false} SameSideSameCounts(rows: seq<Row>, x: real, y: real)
    requires forall r :: r in rows ==> (r.probability < x <==> r.probability < y)
    ensures Below(rows, x) == Below(rows, y) && AttacksBelow(rows, x) == AttacksBelow(rows, y)
  {
    if rows != [] {
      assert rows[0] in rows;
      SameSideSameCounts(rows[1..], x, y);
    }
  }

  lemma {:induction false} NextObservedGrows(rows: seq<Row>, x: real, y: real)
    requires x <= y
    ensures NextObserved(rows, x) <= NextObserved(rows, y)
  {
    if rows != [] {
      NextObservedGrows(rows[1..], x, y);
    }
  }

  /** Any band in the unit square costs exactly what some band of observed thresholds costs. */
  lemma ObservedBandCostsTheSame(rows: seq<Row>, costs: Costs, lower: real, upper: real) returns (l: real, u: real)
    requires forall r :: r in rows ==> Unit(r.probability)
    requires Unit(lower) && Unit(upper) && lower <= upper
    ensures l in Observed(rows) && u in Observed(rows) && l <= u
    ensures SweepCost(rows, costs, l, u) == SweepCost(rows, costs, lower, upper)
  {
    hide SortedSet, Probabilities, NextObserved, Below, AttacksBelow, Attacks;
    l, u := NextObserved(rows, lower), NextObserved(rows, upper);
    NextObservedBelow(rows, lower);
    NextObservedBelow(rows, upper);
    NextObservedGrows(rows, lower, upper);
    SameSideSameCounts(rows, lower, l);
    SameSideSameCounts(rows, upper, u);
  }

  // ----- the tie-break order

  /** A pair of candidates with the counts the sweep compares. */
  datatype Entry = Entry(cost: int, falsePositive: int, truePositive: int, review: int, lower: real, upper: real)

  function EntryOf(rows: seq<Row>, costs: Costs, lower: real, upper: real): Entry {
    Entry(SweepCost(rows, costs, lower, upper), FalsePositive(rows, upper), TruePositive(rows, upper),
          ReviewCount(rows, lower, upper), lower, upper)
  }

  /**
   * Cost, then false positives, then most true positives, then fewest reviews,
   * then the largest upper and the largest lower threshold.  Candidates ascend
   * strictly, so the index rungs of the source can no longer decide anything.
   */
  predicate Precedes(a: Entry, b: Entry) {
    if a.cost != b.cost then a.cost < b.cost
    else if a.falsePositive != b.falsePositive then a.falsePositive < b.falsePositive
    else if a.truePositive != b.truePositive then a.truePositive > b.truePositive
    else if a.review != b.review then a.review < b.review
    else if a.upper != b.upper then a.upper > b.upper
    else a.lower >= b.lower
  }

  /** The pairs the sweep admits: ordered by boundary index, not by threshold value. */
  predicate Admitted(rows: seq<Row>, cs: seq<real>, lower: real, upper: real) {
    lower in cs && upper in cs && Below(rows, lower) <= Below(rows, upper)
  }

  ghost predicate IsBest(rows: seq<Row>, costs: Costs, cs: seq<real>, e: Entry) {
    && Admitted(rows, cs, e.lower, e.upper)
    && e == EntryOf(rows, costs, e.lower, e.upper)
    && forall l, u :: Admitted(rows, cs, l, u) ==> Precedes(e, EntryOf(rows, costs, l, u))
  }

  /** Tied pairs may have lower > upper, but the order never lets one of them win. */
  lemma BestIsLegal(rows: seq<Row>, costs: Costs, cs: seq<real>, e: Entry)
    requires IsBest(rows, costs, cs, e)
    ensures e.lower <= e.upper
  {
    if e.upper <= e.lower {
      BelowGrows(rows, e.upper, e.lower);
      SameBelow(rows, e.upper, e.lower);
      assert Admitted(rows, cs, e.lower, e.lower);
      assert Precedes(e, EntryOf(rows, costs, e.lower, e.lower));
    }
  }

  /** No pair of ordered candidates, in particular no incumbent threshold, is cheaper. */
  lemma BestIsCheapest(rows: seq<Row>, costs: Costs, cs: seq<real>, e: Entry, lower: real, upper: real)
    requires IsBest(rows, costs, cs, e) && lower in cs && upper in cs && lower <= upper
    ensures e.cost <= SweepCost(rows, costs, lower, upper)
  {
    BelowGrows(rows, lower, upper);
    assert Precedes(e, EntryOf(rows, costs, lower, upper));
  }

  /** With every observed value a candidate, no band at all is cheaper. */
  lemma BestIsOptimal(rows: seq<Row>, costs: Costs, cs: seq<real>, e: Entry, lower: real, upper: real)
    requires IsBest(rows, costs, cs, e)
    requires forall r :: r in rows ==> Unit(r.probability)
    requires forall x :: x in Observed(rows) ==> x in cs
    requires Unit(lower) && Unit(upper) && lower <= upper
    ensures e.cost <= SweepCost(rows, costs, lower, upper)
  {
    var l, u := ObservedBandCostsTheSame(rows, costs, lower, upper);
    BestIsCheapest(rows, costs, cs, e, l, u);
  }

  /** What collapsing a band saves: at its lower threshold the reviews for false positives, at its upper for missed attacks. */
  lemma CollapseSaves(rows: seq<Row>, costs: Costs, lower: real, upper: real)
    ensures var attacks := AttacksBelow(rows, upper) - AttacksBelow(rows, lower);
            var reviewed := ReviewCount(rows, lower, upper);
            && SweepCost(rows, costs, lower, lower) - SweepCost(rows, costs, lower, upper)
               == (reviewed - attacks) * costs.falsePositive - reviewed * costs.review
            && SweepCost(rows, costs, upper, upper) - SweepCost(rows, costs, lower, upper)
               == attacks * costs.falseNegative - reviewed * costs.review
  {
    hide Below, AttacksBelow, Attacks;
    Distribute(costs.falsePositive, FalsePositive(rows, lower), FalsePositive(rows, upper));
    Distribute(costs.falseNegative, AttacksBelow(rows, upper), AttacksBelow(rows, lower));
  }

  /** Whether a review costs at least a false positive decides it. */
  lemma OneSaves(costs: Costs, attacks: nat, legitimate: nat)
    requires attacks + legitimate > 0 && costs.review >= 1 && costs.review >= costs.falsePositive
    ensures legitimate * costs.falsePositive < (attacks + legitimate) * costs.review
         || attacks * costs.falseNegative < (attacks + legitimate) * costs.review
  {
    var reviewed := attacks + legitimate;
    Scaled(1, costs.review, reviewed);
    if attacks > 0 {
      Scaled(costs.falsePositive, costs.review, legitimate);
      Scaled(legitimate + 1, reviewed, costs.review);
      assert (legitimate + 1) * costs.review == legitimate * costs.review + costs.review;
    }
  }

  /** A band with a review tier is beaten by collapsing it to one of its thresholds. */
  lemma ReviewNeverPays(rows: seq<Row>, costs: Costs, lower: real, upper: real)
    requires lower <= upper && ReviewCount(rows, lower, upper) > 0
    requires costs.review >= 1 && costs.review >= costs.falsePositive
    ensures SweepCost(rows, costs, lower, lower) < SweepCost(rows, costs, lower, upper)
         || SweepCost(rows, costs, upper, upper) < SweepCost(rows, costs, lower, upper)
  {
    BelowGrows(rows, lower, upper);
    CollapseSaves(rows, costs, lower, upper);
    hide SweepCost, AttacksBelow, Below;
    var attacks := AttacksBelow(rows, upper) - AttacksBelow(rows, lower);
    OneSaves(costs, attacks, ReviewCount(rows, lower, upper) - attacks);
  }

  /** The documented unreachability of the review tier. */
  lemma ReviewTierUnreachable(rows: seq<Row>, costs: Costs, cs: seq<real>, e: Entry)
    requires IsBest(rows, costs, cs, e)
    requires costs.review >= 1 && costs.review >= costs.falsePositive
    ensures e.lower == e.upper
    ensures forall l, u :: l in cs && u in cs && l <= u && SweepCost(rows, costs, l, u) == e.cost ==> ReviewCount(rows, l, u) == 0
  {
    BestIsLegal(rows, costs, cs, e);
    forall l, u | l in cs && u in cs && l <= u && SweepCost(rows, costs, l, u) == e.cost
      ensures ReviewCount(rows, l, u) == 0
    {
      BelowGrows(rows, l, u);
      if ReviewCount(rows, l, u) > 0 {
        ReviewNeverPays(rows, costs, l, u);
        BestIsCheapest(rows, costs, cs, e, l, l);
        BestIsCheapest(rows, costs, cs, e, u, u);
      }
    }
    assert ReviewCount(rows, e.lower, e.upper) == 0;
    SameBelow(rows, e.lower, e.upper);
    assert Admitted(rows, cs, e.upper, e.upper);
    assert Precedes(e, EntryOf(rows, costs, e.upper, e.upper));
  }

  // ----- the sweep

  ghost predicate SortedRows(rows: seq<Row>) {
    forall i, j :: 0 <= i < j < |rows| ==> rows[i].probability <= rows[j].probability
  }

  predicate NotAbove(a: Row, b: Row) {
    a.probability <= b.probability
  }

  function StableSort(rows: seq<Row>): (out: seq<Row>)
    ensures SortedRows(out) && multiset(out) == multiset(rows)
  {
    SortBy(NotAbove, rows)
  }

  /** Counting ignores order. */
  lemma {:induction false} PermutationSameCounts(a: seq<Row>, b: seq<Row>, x: real)
    requires multiset(a) == multiset(b)
    ensures Below(a, x) == Below(b, x) && AttacksBelow(a, x) == AttacksBelow(b, x) && Attacks(a) == Attacks(b) && |a| == |b|
  {
    if a == [] {
      assert |multiset(b)| == 0;
    } else {
      assert a[0] in multiset(a);
      var i :| 0 <= i < |b| && b[i] == a[0];
      WithoutFirst(a, b, i);
      PermutationSameCounts(a[1..], b[..i] + b[i + 1..], x);
      CountsConcat(b[..i], b[i..], x);
      CountsConcat(b[..i], b[i + 1..], x);
      assert b[..i] + b[i..] == b && b[i..][1..] == b[i + 1..];
    }
  }

  lemma WithoutFirst(a: seq<Row>, b: seq<Row>, i: nat)
    requires a != [] && i < |b| && b[i] == a[0] && multiset(a) == multiset(b)
    ensures multiset(a[1..]) == multiset(b[..i] + b[i + 1..])
  {
    assert a == [a[0]] + a[1..];
    assert b == b[..i] + [b[i]] + b[i + 1..];
    assert multiset(b) == multiset(b[..i] + b[i + 1..]) + multiset{b[i]};
    assert multiset(a[1..]) == multiset(a) - multiset{a[0]};
  }

  lemma {:induction false} CountsConcat(a: seq<Row>, b: seq<Row>, x: real)
    ensures Below(a + b, x) == Below(a, x) + Below(b, x)
    ensures AttacksBelow(a + b, x) == AttacksBelow(a, x) + AttacksBelow(b, x)
    ensures Attacks(a + b) == Attacks(a) + Attacks(b)
  {
    if a == [] {
      assert a + b == b;
    } else {
      assert (a + b)[1..] == a[1..] + b;
      CountsConcat(a[1..], b, x);
    }
  }

  lemma {:induction false} AllBelow(rows: seq<Row>, x: real)
    ensures (forall r :: r in rows ==> r.probability < x) ==> Below(rows, x) == |rows| && AttacksBelow(rows, x) == Attacks(rows)
    ensures (forall r :: r in rows ==> r.probability >= x) ==> Below(rows, x) == 0 && AttacksBelow(rows, x) == 0
  {
    if rows != [] {
      AllBelow(rows[1..], x);
      assert rows[0] in rows && forall r :: r in rows[1..] ==> r in rows;
    }
  }

  /** In sorted rows the boundary splits the counts. */
  lemma BoundarySplits(sorted: seq<Row>, x: real, b: nat)
    requires b <= |sorted|
    requires forall i :: 0 <= i < b ==> sorted[i].probability < x
    requires forall i :: b <= i < |sorted| ==> sorted[i].probability >= x
    ensures Below(sorted, x) == b && AttacksBelow(sorted, x) == Attacks(sorted[..b])
  {
    assert sorted == sorted[..b] + sorted[b..];
    CountsConcat(sorted[..b], sorted[b..], x);
    AllBelow(sorted[..b], x);
    AllBelow(sorted[b..], x);
  }

  /** Left-sided binary search. */
  method SearchSorted(sorted: seq<Row>, x: real) returns (b: nat)
    requires SortedRows(sorted)
    ensures b <= |sorted| && b == Below(sorted, x)
    ensures AttacksBelow(sorted, x) == Attacks(sorted[..b])
  {
    var lo, hi := 0, |sorted|;
    while lo < hi
      invariant 0 <= lo <= hi <= |sorted|
      invariant forall i :: 0 <= i < lo ==> sorted[i].probability < x
      invariant forall i :: hi <= i < |sorted| ==> sorted[i].probability >= x
    {
      var mid := (lo + hi) / 2;
      if sorted[mid].probability < x {
        lo := mid + 1;
      } else {
        hi := mid;
      }
    }
    b := lo;
    BoundarySplits(sorted, x, b);
  }

  method CumulativeAttacks(sorted: seq<Row>) returns (cumulative: seq<int>)
    ensures |cumulative| == |sorted| + 1
    ensures forall i :: 0 <= i <= |sorted| ==> cumulative[i] == Attacks(sorted[..i])
  {
    cumulative := [0];
    for i := 0 to |sorted|
      invariant |cumulative| == i + 1
      invariant forall k :: 0 <= k <= i ==> cumulative[k] == Attacks(sorted[..k])
    {
      assert sorted[..i + 1] == sorted[..i] + [sorted[i]];
      CountsConcat(sorted[..i], [sorted[i]], 0.0);
      cumulative := cumulative + [cumulative[i] + if sorted[i].attack then 1 else 0];
    }
  }

  /** Per candidate: rows below it, and attacks among them. */
  method Boundaries(rows: seq<Row>, cs: seq<real>) returns (below: seq<int>, attacksBelow: seq<int>, attacks: int)
    ensures |below| == |attacksBelow| == |cs|
    ensures forall k :: 0 <= k < |cs| ==> below[k] == Below(rows, cs[k]) && attacksBelow[k] == AttacksBelow(rows, cs[k])
    ensures attacks == Attacks(rows)
  {
    var sorted := StableSort(rows);
    var cumulative := CumulativeAttacks(sorted);
    attacks := cumulative[|sorted|];
    assert sorted[..|sorted|] == sorted;
    PermutationSameCounts(sorted, rows, 0.0);
    below, attacksBelow := [], [];
    for k := 0 to |cs|
      invariant |below| == |attacksBelow| == k
      invariant forall i :: 0 <= i < k ==> below[i] == Below(rows, cs[i]) && attacksBelow[i] == AttacksBelow(rows, cs[i])
    {
      var b := SearchSorted(sorted, cs[k]);
      PermutationSameCounts(sorted, rows, cs[k]);
      below, attacksBelow := below + [b], attacksBelow + [cumulative[b]];
    }
  }

  /** Keep only entries of the least cost seen, all of them. */
  function AddEntry(entries: seq<Entry>, e: Entry): seq<Entry> {
    if entries == [] || e.cost < entries[0].cost then [e]
    else if e.cost == entries[0].cost then entries + [e]
    else entries
  }

  ghost predicate Genuine(rows: seq<Row>, costs: Costs, cs: seq<real>, entries: seq<Entry>) {
    forall e :: e in entries ==>
      e.cost == entries[0].cost && Admitted(rows, cs, e.lower, e.upper) && e == EntryOf(rows, costs, e.lower, e.upper)
  }

  /** `x` was kept, or is dearer than what was. */
  ghost predicate Settled(entries: seq<Entry>, x: Entry) {
    entries != [] && (x in entries || entries[0].cost < x.cost)
  }

  ghost predicate RowSettled(rows: seq<Row>, costs: Costs, cs: seq<real>, entries: seq<Entry>, i: nat, columns: nat)
    requires i < |cs| && columns <= |cs|
  {
    forall j :: 0 <= j < columns && Below(rows, cs[i]) <= Below(rows, cs[j]) ==> Settled(entries, EntryOf(rows, costs, cs[i], cs[j]))
  }

  lemma AddEntryKeeps(rows: seq<Row>, costs: Costs, cs: seq<real>, entries: seq<Entry>, e: Entry)
    requires Genuine(rows, costs, cs, entries)
    requires Admitted(rows, cs, e.lower, e.upper) && e == EntryOf(rows, costs, e.lower, e.upper)
    ensures Genuine(rows, costs, cs, AddEntry(entries, e))
    ensures Settled(AddEntry(entries, e), e)
    ensures forall x :: Settled(entries, x) ==> Settled(AddEntry(entries, e), x)
  {
  }

  /** One row of the cost matrix. */
  method AddRow(rows: seq<Row>, costs: Costs, cs: seq<real>, below: seq<int>, attacksBelow: seq<int>, attacks: int, i: nat, before: seq<Entry>)
    returns (entries: seq<Entry>)
    requires i < |cs| == |below| == |attacksBelow| && attacks == Attacks(rows)
    requires forall k :: 0 <= k < |cs| ==> below[k] == Below(rows, cs[k]) && attacksBelow[k] == AttacksBelow(rows, cs[k])
    requires Genuine(rows, costs, cs, before)
    ensures Genuine(rows, costs, cs, entries)
    ensures RowSettled(rows, costs, cs, entries, i, |cs|)
    ensures forall x :: Settled(before, x) ==> Settled(entries, x)
  {
    hide Settled;
    hide Genuine;
    hide AddEntry;
    entries := before;
    for j := 0 to |cs|
      invariant Genuine(rows, costs, cs, entries)
      invariant RowSettled(rows, costs, cs, entries, i, j)
      invariant forall x :: Settled(before, x) ==> Settled(entries, x)
    {
      if below[i] <= below[j] {
        var truePositive := attacks - attacksBelow[j];
        var falsePositive := |rows| - below[j] - truePositive;
        var review := below[j] - below[i];
        var cost := attacksBelow[i] * costs.falseNegative + falsePositive * costs.falsePositive + review * costs.review;
        var e := Entry(cost, falsePositive, truePositive, review, cs[i], cs[j]);
        AddEntryKeeps(rows, costs, cs, entries, e);
        entries := AddEntry(entries, e);
      }
    }
  }

  /** The tied entries of the cheapest admitted pairs. */
  method CheapestEntries(rows: seq<Row>, costs: Costs, cs: seq<real>) returns (entries: seq<Entry>)
    requires |cs| > 0
    ensures entries != [] && Genuine(rows, costs, cs, entries)
    ensures forall l, u :: Admitted(rows, cs, l, u) ==> Settled(entries, EntryOf(rows, costs, l, u))
  {
    hide Settled;
    hide Genuine;
    var below, attacksBelow, attacks := Boundaries(rows, cs);
    entries := [];
    NoEntries(rows, costs, cs);
    for i := 0 to |cs|
      invariant Genuine(rows, costs, cs, entries)
      invariant forall a :: 0 <= a < i ==> RowSettled(rows, costs, cs, entries, a, |cs|)
    {
      ghost var before := entries;
      entries := AddRow(rows, costs, cs, below, attacksBelow, attacks, i, entries);
      forall a | 0 <= a < i
        ensures RowSettled(rows, costs, cs, entries, a, |cs|)
      {
        assert RowSettled(rows, costs, cs, before, a, |cs|);
      }
    }
    AllSettled(rows, costs, cs, entries);
  }

  lemma NoEntries(rows: seq<Row>, costs: Costs, cs: seq<real>)
    ensures Genuine(rows, costs, cs, [])
  {
  }

  lemma AllSettled(rows: seq<Row>, costs: Costs, cs: seq<real>, entries: seq<Entry>)
    requires |cs| > 0
    requires forall a :: 0 <= a < |cs| ==> RowSettled(rows, costs, cs, entries, a, |cs|)
    ensures entries != []
    ensures forall l, u :: Admitted(rows, cs, l, u) ==> Settled(entries, EntryOf(rows, costs, l, u))
  {
    assert RowSettled(rows, costs, cs, entries, 0, |cs|);
    assert Settled(entries, EntryOf(rows, costs, cs[0], cs[0]));
    forall l, u | Admitted(rows, cs, l, u)
      ensures Settled(entries, EntryOf(rows, costs, l, u))
    {
      var a :| 0 <= a < |cs| && cs[a] == l;
      var b :| 0 <= b < |cs| && cs[b] == u;
      assert RowSettled(rows, costs, cs, entries, a, |cs|);
    }
  }

  /** The first of the tied entries in the tie-break order. */
  method BestEntry(entries: seq<Entry>) returns (best: Entry)
    requires entries != []
    ensures best in entries && forall e :: e in entries ==> Precedes(best, e)
  {
    best := entries[0];
    for i := 1 to |entries|
      invariant best in entries
      invariant forall k :: 0 <= k < i ==> Precedes(best, entries[k])
    {
      if !Precedes(best, entries[i]) {
        forall k | 0 <= k < i
          ensures Precedes(entries[i], entries[k])
        {
          PrecedesChains(entries[i], best, entries[k]);
        }
        best := entries[i];
      }
    }
  }

  lemma PrecedesChains(a: Entry, b: Entry, c: Entry)
    requires Precedes(b, c) && (Precedes(a, b) || !Precedes(b, a))
    ensures Precedes(a, c)
  {
  }

  // ----- the whole selection

  predicate InputsValid(targets: seq<int>, probabilities: seq<real>) {
    |targets| == |probabilities| && forall t :: t in targets ==> t == 0 || t == 1
  }

  function RowsOf(targets: seq<int>, probabilities: seq<real>): (rows: seq<Row>)
    requires |targets| == |probabilities|
    ensures |rows| == |targets|
    ensures forall i :: 0 <= i < |rows| ==> rows[i].probability == probabilities[i] && (rows[i].attack <==> targets[i] == 1)
  {
    seq(|targets|, i requires 0 <= i < |targets| => Row(probabilities[i], targets[i] == 1))
  }

  /**
   * The fast form: sort, prefix sums, binary search and one pass over the pairs.
   * The sweep and the row-by-row score never disagree, and on probabilities and
   * required thresholds in [0, 1] a band is always returned.
   */
  method SelectBand(targets: seq<int>, probabilities: seq<real>, costs: Costs, gridSize: nat, required: seq<real>)
    returns (r: Result<(Band, Outcome), BandError>)
    ensures |targets| != |probabilities| ==> r == Err(ShapeInvalid)
    ensures |targets| == |probabilities| && !InputsValid(targets, probabilities) ==> r == Err(TargetInvalid)
    ensures InputsValid(targets, probabilities) && targets == [] ==> r == Err(RowsRequired)
    ensures InputsValid(targets, probabilities) && targets != [] && gridSize < 2 ==> r == Err(GridSizeInvalid)
    ensures InputsValid(targets, probabilities) && targets != [] && gridSize >= 2
            && (forall p :: p in probabilities ==> Unit(p)) && (forall p :: p in required ==> Unit(p))
            ==> r.Ok?
    ensures r != Err(SweepInconsistent)
    ensures r.Ok? ==>
              && InputsValid(targets, probabilities) && targets != [] && gridSize >= 2
              && LegalBand(r.value.0)
              && var rows := RowsOf(targets, probabilities);
                 && r.value.1 == EvaluateBand(rows, r.value.0, costs)
                 && IsBest(rows, costs, SweepCandidates(rows, gridSize, required), EntryOf(rows, costs, r.value.0.lower, r.value.0.upper))
                 && BeatsCandidates(rows, costs, SweepCandidates(rows, gridSize, required), r.value.1.costUnits)
                 && ((forall p :: p in probabilities ==> Unit(p)) && |Observed(rows)| <= gridSize ==>
                       BeatsEveryBand(rows, costs, r.value.1.costUnits))
  {
    hide EvaluateBand, SweepCandidates, Observed, BeatsCandidates, BeatsEveryBand, Genuine, Settled, Precedes, SweepCost;
    if |targets| != |probabilities| {
      return Err(ShapeInvalid);
    }
    if !(forall t :: t in targets ==> t == 0 || t == 1) {
      return Err(TargetInvalid);
    }
    if |targets| == 0 {
      return Err(RowsRequired);
    }
    if gridSize < 2 {
      return Err(GridSizeInvalid);
    }
    var rows := RowsOf(targets, probabilities);
    var cs := SweepCandidates(rows, gridSize, required);
    CandidatesNonempty(rows, gridSize, required);
    var entries := CheapestEntries(rows, costs, cs);
    var best := BestEntry(entries);
    EntriesGiveBest(rows, costs, cs, entries, best);
    BestIsLegal(rows, costs, cs, best);
    var band := Band(best.lower, best.upper);
    if (forall p :: p in probabilities ==> Unit(p)) && (forall p :: p in required ==> Unit(p)) {
      UnitCandidates(targets, probabilities, gridSize, required);
    }
    if !LegalBand(band) {
      return Err(BandInvalid);
    }
    var outcome := EvaluateBand(rows, band, costs);
    EvaluateIsSweep(rows, band, costs);
    if outcome.costUnits != best.cost {
      return Err(SweepInconsistent);
    }
    BestBeats(rows, costs, cs, best);
    if (forall p :: p in probabilities ==> Unit(p)) && |Observed(rows)| <= gridSize {
      BestBeatsEvery(rows, costs, cs, best);
    }
    return Ok((band, outcome));
  }

  /** Brute force over ordered candidate pairs finds nothing cheaper. */
  ghost predicate BeatsCandidates(rows: seq<Row>, costs: Costs, cs: seq<real>, cost: int) {
    forall b: Band :: b.lower in cs && b.upper in cs && b.lower <= b.upper ==> cost <= EvaluateBand(rows, b, costs).costUnits
  }

  /** Nor does brute force over every band there is. */
  ghost predicate BeatsEveryBand(rows: seq<Row>, costs: Costs, cost: int) {
    forall b: Band :: LegalBand(b) ==> cost <= EvaluateBand(rows, b, costs).costUnits
  }

  lemma BestBeats(rows: seq<Row>, costs: Costs, cs: seq<real>, e: Entry)
    requires IsBest(rows, costs, cs, e)
    ensures BeatsCandidates(rows, costs, cs, e.cost)
  {
    forall b: Band | b.lower in cs && b.upper in cs && b.lower <= b.upper
      ensures e.cost <= EvaluateBand(rows, b, costs).costUnits
    {
      BestIsCheapest(rows, costs, cs, e, b.lower, b.upper);
      EvaluateIsSweep(rows, b, costs);
    }
  }

  lemma BestBeatsEvery(rows: seq<Row>, costs: Costs, cs: seq<real>, e: Entry)
    requires IsBest(rows, costs, cs, e)
    requires forall r :: r in rows ==> Unit(r.probability)
    requires forall x :: x in Observed(rows) ==> x in cs
    ensures BeatsEveryBand(rows, costs, e.cost)
  {
    forall b: Band | LegalBand(b)
      ensures e.cost <= EvaluateBand(rows, b, costs).costUnits
    {
      BestIsOptimal(rows, costs, cs, e, b.lower, b.upper);
      EvaluateIsSweep(rows, b, costs);
    }
  }

  lemma CandidatesNonempty(rows: seq<Row>, gridSize: nat, required: seq<real>)
    requires gridSize >= 2
    ensures |SweepCandidates(rows, gridSize, required)| > 0
  {
    var observed := Observed(rows);
    assert 0.0 in observed;
    if |observed| > gridSize {
      var picked := Subsample(observed, gridSize);
      assert picked[0] in picked + required;
    } else {
      assert 0.0 in observed + required;
    }
  }

  lemma EntriesGiveBest(rows: seq<Row>, costs: Costs, cs: seq<real>, entries: seq<Entry>, best: Entry)
    requires entries != [] && Genuine(rows, costs, cs, entries)
    requires forall l, u :: Admitted(rows, cs, l, u) ==> Settled(entries, EntryOf(rows, costs, l, u))
    requires best in entries && forall e :: e in entries ==> Precedes(best, e)
    ensures IsBest(rows, costs, cs, best)
  {
  }

  lemma UnitCandidates(targets: seq<int>, probabilities: seq<real>, gridSize: nat, required: seq<real>)
    requires |targets| == |probabilities| && gridSize >= 2
    requires (forall p :: p in probabilities ==> Unit(p)) && (forall p :: p in required ==> Unit(p))
    ensures forall c :: c in SweepCandidates(RowsOf(targets, probabilities), gridSize, required) ==> Unit(c)
  {
    var rows := RowsOf(targets, probabilities);
    forall c | c in Observed(rows)
      ensures Unit(c)
    {
      if c in Probabilities(rows) {
        var i :| 0 <= i < |rows| && Probabilities(rows)[i] == c;
        assert probabilities[i] in probabilities;
      }
    }
  }
}

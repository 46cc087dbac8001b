/**
 * For which costs the best band of src/riskloom/policy/bands.py can have a
 * review tier at all, over every set of scored rows.
 */
module ReviewTier {
  import opened Common
  import opened PolicyBands

  ghost predicate UnitRows(rows: seq<Row>) {
    forall r :: r in rows ==> Unit(r.probability)
  }

  /** The selected band sends at least one row to review. */
  ghost predicate Reviews(rows: seq<Row>, costs: Costs, gridSize: nat, required: seq<real>)
    requires gridSize >= 2
  {
    exists e :: IsBest(rows, costs, SweepCandidates(rows, gridSize, required), e) && ReviewCount(rows, e.lower, e.upper) > 0
  }

  /** Reviews pay against the mix of attacks and legitimate rows for which allowing and denying cost the same. */
  predicate ReviewPays(costs: Costs) {
    || costs.falseNegative * costs.falsePositive > costs.review * (costs.falseNegative + costs.falsePositive)
    || (costs.falsePositive == 0 && costs.review == 0 && costs.falseNegative > 0)
  }

  // ----- a review tier needs such costs

  /** The savings of both collapses, weighed by the opposite cost, add up to the condition. */
  lemma Weighed(costs: Costs, attacks: nat, legitimate: nat)
    requires attacks + legitimate > 0
    requires legitimate * costs.falsePositive >= (attacks + legitimate) * costs.review
    requires attacks * costs.falseNegative > (attacks + legitimate) * costs.review
    ensures ReviewPays(costs)
  {
    var n, missed, denied, review := attacks + legitimate, costs.falseNegative, costs.falsePositive, costs.review;
    assert missed > 0;
    if denied == 0 {
      assert review == 0;
    } else {
      SavingsAddUp(attacks, legitimate, missed, denied, n * review);
      Associate(n, review, missed + denied);
      Scaled(missed * denied, review * (missed + denied), n);
    }
  }

  lemma SavingsAddUp(attacks: nat, legitimate: nat, missed: nat, denied: nat, spent: nat)
    requires legitimate * denied >= spent && attacks * missed > spent && denied > 0
    ensures (attacks + legitimate) * (missed * denied) > spent * (missed + denied)
  {
    var both := missed * denied;
    Scaled(spent, legitimate * denied, missed);
    Scaled(spent + 1, attacks * missed, denied);
    Associate(legitimate, denied, missed);
    Associate(attacks, missed, denied);
    Distribute(both, legitimate, attacks);
    Distribute(spent, missed, denied);
  }

  lemma Associate(a: int, b: int, c: int)
    ensures a * b * c == a * (b * c)
  {
  }

  /** A best band with a review tier beats both of its collapses, the upper one strictly. */
  lemma BestBeatsCollapses(rows: seq<Row>, costs: Costs, cs: seq<real>, e: Entry)
    requires IsBest(rows, costs, cs, e) && ReviewCount(rows, e.lower, e.upper) > 0
    ensures SweepCost(rows, costs, e.lower, e.upper) <= SweepCost(rows, costs, e.lower, e.lower)
    ensures SweepCost(rows, costs, e.lower, e.upper) < SweepCost(rows, costs, e.upper, e.upper)
  {
    assert Admitted(rows, cs, e.lower, e.lower) && Admitted(rows, cs, e.upper, e.upper);
    assert Precedes(e, EntryOf(rows, costs, e.lower, e.lower));
    assert Precedes(e, EntryOf(rows, costs, e.upper, e.upper));
  }

  lemma ReviewsNeedCosts(rows: seq<Row>, costs: Costs, cs: seq<real>, e: Entry)
    requires IsBest(rows, costs, cs, e) && ReviewCount(rows, e.lower, e.upper) > 0
    ensures ReviewPays(costs)
  {
    BestBeatsCollapses(rows, costs, cs, e);
    BestIsLegal(rows, costs, cs, e);
    BelowGrows(rows, e.lower, e.upper);
    CollapseSaves(rows, costs, e.lower, e.upper);
    hide SweepCost, Below, AttacksBelow;
    var attacks := AttacksBelow(rows, e.upper) - AttacksBelow(rows, e.lower);
    Weighed(costs, attacks, ReviewCount(rows, e.lower, e.upper) - attacks);
  }

  // ----- such costs have rows that are reviewed

  function Repeated(r: Row, n: nat): (rows: seq<Row>)
    ensures |rows| == n && forall x :: x in rows ==> x == r
  {
    if n == 0 then [] else [r] + Repeated(r, n - 1)
  }

  /** Attacks and legitimate rows the model cannot tell apart. */
  function Mixed(attacks: nat, legitimate: nat): seq<Row> {
    Repeated(Row(0.5, true), attacks) + Repeated(Row(0.5, false), legitimate)
  }

  lemma {:induction false} RepeatedCounts(r: Row, n: nat, x: real)
    ensures Below(Repeated(r, n), x) == if r.probability < x then n else 0
    ensures AttacksBelow(Repeated(r, n), x) == if r.probability < x && r.attack then n else 0
    ensures Attacks(Repeated(r, n)) == if r.attack then n else 0
  {
    if n > 0 {
      RepeatedCounts(r, n - 1, x);
      assert Repeated(r, n)[1..] == Repeated(r, n - 1);
    }
  }

  lemma MixedCounts(attacks: nat, legitimate: nat, x: real)
    ensures var rows := Mixed(attacks, legitimate);
            && |rows| == attacks + legitimate && Attacks(rows) == attacks
            && Below(rows, x) == (if 0.5 < x then attacks + legitimate else 0)
            && AttacksBelow(rows, x) == (if 0.5 < x then attacks else 0)
  {
    var a, l := Repeated(Row(0.5, true), attacks), Repeated(Row(0.5, false), legitimate);
    RepeatedCounts(Row(0.5, true), attacks, x);
    RepeatedCounts(Row(0.5, false), legitimate, x);
    CountsConcat(a, l, x);
  }

  /** Some candidate pair is best. */
  lemma BestExists(rows: seq<Row>, costs: Costs, cs: seq<real>) returns (e: Entry)
    requires cs != []
    ensures IsBest(rows, costs, cs, e)
  {
    var all := set l, u | l in cs && u in cs && Below(rows, l) <= Below(rows, u) :: EntryOf(rows, costs, l, u);
    assert Admitted(rows, cs, cs[0], cs[0]);
    assert EntryOf(rows, costs, cs[0], cs[0]) in all;
    e := LeastOf(all);
    forall l, u | Admitted(rows, cs, l, u)
      ensures Precedes(e, EntryOf(rows, costs, l, u))
    {
      assert EntryOf(rows, costs, l, u) in all;
    }
  }

  lemma {:induction false} LeastOf(all: set<Entry>) returns (e: Entry)
    requires all != {}
    ensures e in all && forall x :: x in all ==> Precedes(e, x)
  {
    var pick :| pick in all;
    e := pick;
    if all != {pick} {
      assert all - {pick} != {};
      var rest := LeastOf(all - {pick});
      e := if Precedes(pick, rest) then pick else rest;
      forall x | x in all
        ensures Precedes(e, x)
      {
        if x != pick {
          PrecedesChains(e, rest, x);
        }
      }
    }
  }

  lemma MixedEntry(costs: Costs, attacks: nat, legitimate: nat, lower: real, upper: real)
    requires lower <= upper
    ensures var rows, n := Mixed(attacks, legitimate), attacks + legitimate;
            && ReviewCount(rows, lower, upper) == (if lower <= 0.5 < upper then n else 0)
            && FalsePositive(rows, upper) == (if 0.5 < upper then 0 else legitimate)
            && SweepCost(rows, costs, lower, upper)
               == if 0.5 < lower then attacks * costs.falseNegative
                  else if 0.5 < upper then n * costs.review
                  else legitimate * costs.falsePositive
  {
    MixedCounts(attacks, legitimate, lower);
    MixedCounts(attacks, legitimate, upper);
    hide Below, AttacksBelow, Attacks, Mixed;
  }

  /** On the witness, reviewing all rows is cheaper than allowing them, and cheaper than denying them or as cheap without a false positive. */
  lemma WitnessCosts(costs: Costs)
    requires ReviewPays(costs)
    ensures var attacks, legitimate := WitnessAttacks(costs), costs.falseNegative;
            var spent := (attacks + legitimate) * costs.review;
            && legitimate > 0 && spent < attacks * costs.falseNegative && spent <= legitimate * costs.falsePositive
  {
    var attacks, legitimate := WitnessAttacks(costs), costs.falseNegative;
    assert (attacks + legitimate) * costs.review == costs.review * (legitimate + attacks);
    assert costs.review * (legitimate + attacks) >= 0;
  }

  /** With `falsePositive` attacks and `falseNegative` legitimate rows at one probability, a band that reviews nothing loses. */
  lemma WitnessIsReviewed(costs: Costs, cs: seq<real>, e: Entry)
    requires ReviewPays(costs) && 0.0 in cs && 1.0 in cs
    requires IsBest(Witness(costs), costs, cs, e)
    ensures ReviewCount(Witness(costs), e.lower, e.upper) > 0
  {
    var rows, attacks, legitimate := Witness(costs), WitnessAttacks(costs), costs.falseNegative;
    BestIsLegal(rows, costs, cs, e);
    BelowGrows(rows, 0.0, 1.0);
    assert Admitted(rows, cs, 0.0, 1.0);
    assert Precedes(e, EntryOf(rows, costs, 0.0, 1.0));
    WitnessCosts(costs);
    MixedEntry(costs, attacks, legitimate, 0.0, 1.0);
    MixedEntry(costs, attacks, legitimate, e.lower, e.upper);
    hide ReviewPays, IsBest, SweepCost, FalsePositive, TruePositive, ReviewCount, Below, Mixed;
  }

  function WitnessAttacks(costs: Costs): nat {
    if costs.falsePositive == 0 then 1 else costs.falsePositive
  }

  function Witness(costs: Costs): seq<Row> {
    Mixed(WitnessAttacks(costs), costs.falseNegative)
  }

  /** Some candidate pair is best on the witness, and any best pair reviews. */
  lemma WitnessReviews(costs: Costs, gridSize: nat, required: seq<real>)
    requires gridSize >= 2 && ReviewPays(costs)
    ensures UnitRows(Witness(costs)) && Reviews(Witness(costs), costs, gridSize, required)
  {
    hide ReviewPays, IsBest, SweepCandidates, ReviewCount;
    var rows := Witness(costs);
    assert UnitRows(rows);
    EndsAreCandidates(rows, gridSize, required);
    var cs := SweepCandidates(rows, gridSize, required);
    var e := BestExists(rows, costs, cs);
    WitnessIsReviewed(costs, cs, e);
  }

  /**
   * For any grid and any required thresholds, some rows make the sweep select
   * a band with a review tier if and only if reviews pay at these costs.
   */
  lemma ReviewTierReachable(costs: Costs, gridSize: nat, required: seq<real>)
    requires gridSize >= 2
    ensures (exists rows :: UnitRows(rows) && Reviews(rows, costs, gridSize, required)) <==> ReviewPays(costs)
  {
    forall rows | Reviews(rows, costs, gridSize, required)
      ensures ReviewPays(costs)
    {
      var cs := SweepCandidates(rows, gridSize, required);
      var e :| IsBest(rows, costs, cs, e) && ReviewCount(rows, e.lower, e.upper) > 0;
      ReviewsNeedCosts(rows, costs, cs, e);
    }
    hide ReviewPays, UnitRows, Reviews;
    if ReviewPays(costs) {
      WitnessReviews(costs, gridSize, required);
    }
  }

  lemma Regroup(a: nat, b: nat)
    ensures a * (26 * b) == (26 * a) * b
  {
  }

  /** Dividing both sides by the cost of a false positive. */
  lemma LockedPays(costs: Costs)
    requires costs.falsePositive >= 1 && costs.falseNegative == 25 * costs.falsePositive
    ensures ReviewPays(costs) <==> 26 * costs.review < 25 * costs.falsePositive
  {
    var missed, denied, review := costs.falseNegative, costs.falsePositive, costs.review;
    var saved, spent := 25 * denied, 26 * review;
    assert missed + denied == 26 * denied;
    Regroup(review, denied);
    if spent < saved {
      Scaled(spent + 1, saved, denied);
      assert (spent + 1) * denied == spent * denied + denied;
    } else {
      Scaled(saved, spent, denied);
    }
  }

  /** At the ratio of one to twenty-five that the configuration locks, a review must cost under 25/26 of a false positive. */
  lemma LockedRatio(costs: Costs, gridSize: nat, required: seq<real>)
    requires gridSize >= 2 && costs.falsePositive >= 1 && costs.falseNegative == 25 * costs.falsePositive
    ensures (exists rows :: UnitRows(rows) && Reviews(rows, costs, gridSize, required)) <==> 26 * costs.review < 25 * costs.falsePositive
  {
    hide ReviewPays, UnitRows, Reviews;
    ReviewTierReachable(costs, gridSize, required);
    LockedPays(costs);
  }
}

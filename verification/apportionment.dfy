/**
 * Exact integer apportionment (src/riskloom/simulation/generation.py, lines 44-89):
 * largest remainders, even splitting, and the cutting of a retry quota into
 * chains.  The keys of a weight table are their ranks in sorted order; a random
 * draw is an arbitrary value in range and a shuffle an arbitrary permutation.
 */
module Apportionment {
  import opened Common
  import opened Sorting

  function Sum(xs: seq<nat>): nat {
    if xs == [] then 0 else Sum(xs[..|xs| - 1]) + xs[|xs| - 1]
  }

  lemma {:induction false} SumUpdate(xs: seq<nat>, i: nat, v: nat)
    requires i < |xs|
    ensures Sum(xs[i := v]) == Sum(xs) - xs[i] + v
  {
    var n := |xs| - 1;
    if i < n {
      SumUpdate(xs[..n], i, v);
      assert xs[i := v][..n] == xs[..n][i := v];
    } else {
      assert xs[i := v][..n] == xs[..n];
    }
  }

  // ----- largest remainders

  /** What is left of a key's exact share after its floor, and the key. */
  datatype Share = Share(remainder: nat, key: nat)

  /** Larger remainders first, earlier keys first among equals. */
  predicate Precedes(a: Share, b: Share) {
    a.remainder > b.remainder || (a.remainder == b.remainder && a.key < b.key)
  }

  function Remainders(shares: seq<Share>): nat {
    if shares == [] then 0 else Remainders(shares[1..]) + shares[0].remainder
  }

  ghost predicate Ordered(shares: seq<Share>) {
    forall i, j :: 0 <= i < j < |shares| ==> Precedes(shares[i], shares[j])
  }

  ghost predicate DistinctKeys(shares: seq<Share>) {
    forall i, j :: 0 <= i < j < |shares| ==> shares[i].key != shares[j].key
  }

  ghost predicate NewKey(shares: seq<Share>, key: nat) {
    forall i :: 0 <= i < |shares| ==> shares[i].key != key
  }

  lemma {:induction false} InsertAdds(shares: seq<Share>, s: Share)
    requires Ordered(shares) && NewKey(shares, s.key)
    ensures Orders(Precedes, shares, s)
    ensures Remainders(InsertBy(Precedes, shares, s)) == Remainders(shares) + s.remainder
  {
    if shares == [] {
      assert [s][1..] == [];
    } else if Precedes(shares[0], s) {
      InsertAdds(shares[1..], s);
      var rest := InsertBy(Precedes, shares[1..], s);
      assert ([shares[0]] + rest)[1..] == rest;
    } else {
      assert ([s] + shares)[1..] == shares;
    }
  }

  lemma {:induction false} SortKeepsTotal(shares: seq<Share>)
    requires DistinctKeys(shares)
    ensures OrdersAll(Precedes, shares)
    ensures Remainders(SortBy(Precedes, shares)) == Remainders(shares)
  {
    if shares != [] {
      hide Remainders, SortBy, InsertBy;
      var front, last := shares[..|shares| - 1], shares[|shares| - 1];
      assert shares == front + [last];
      SortKeepsTotal(front);
      SortSnoc(Precedes, front, last);
      var rest := SortBy(Precedes, front);
      assert forall i :: 0 <= i < |rest| ==> rest[i] in front;
      InsertAdds(rest, last);
      RemaindersSnoc(front, last);
    }
  }

  function Sort(shares: seq<Share>): (out: seq<Share>)
    requires DistinctKeys(shares)
    ensures Ordered(out) && |out| == |shares|
    ensures Remainders(out) == Remainders(shares)
    ensures forall x :: x in out <==> x in shares
  {
    SortKeepsTotal(shares);
    SortBy(Precedes, shares)
  }

  /** A positive remainder total that fills L whole units has at least L positive remainders. */
  lemma {:induction false} RemaindersBelow(shares: seq<Share>, k: nat, W: nat)
    requires W > 0 && k <= |shares|
    requires forall i :: 0 <= i < k ==> shares[i].remainder < W
    requires forall i :: k <= i < |shares| ==> shares[i].remainder == 0
    ensures Remainders(shares) <= k * (W - 1)
  {
    if shares != [] {
      RemaindersBelow(shares[1..], if k == 0 then 0 else k - 1, W);
      if k > 0 {
        assert (k - 1) * (W - 1) + (W - 1) == k * (W - 1);
      }
    }
  }

  lemma Exceeds(L: nat, k: nat, W: nat)
    requires W > 0 && L * W <= k * (W - 1)
    ensures L == 0 || L < k
  {
    assert k * (W - 1) == k * W - k;
  }

  /** Exactly the floor of a key's share of `count`, or the ceiling. */
  predicate FloorOrCeiling(a: nat, count: nat, weight: nat, W: nat)
    requires W > 0
  {
    a == count * weight / W || (a == count * weight / W + 1 && count * weight % W != 0)
  }

  function Floor(count: nat, weight: nat, W: nat): nat
    requires W > 0
  {
    count * weight / W
  }

  function FloorsOf(count: nat, weights: seq<nat>, W: nat): (floors: seq<nat>)
    requires W > 0
    ensures |floors| == |weights| && forall i :: 0 <= i < |weights| ==> floors[i] == Floor(count, weights[i], W)
  {
    seq(|weights|, i requires 0 <= i < |weights| => Floor(count, weights[i], W))
  }

  function SharesOf(count: nat, weights: seq<nat>, W: nat): (shares: seq<Share>)
    requires W > 0
    ensures |shares| == |weights| && DistinctKeys(shares)
    ensures forall i :: 0 <= i < |weights| ==> shares[i] == Share(count * weights[i] % W, i)
  {
    seq(|weights|, i requires 0 <= i < |weights| => Share(count * weights[i] % W, i))
  }

  lemma {:induction false} RemaindersSnoc(shares: seq<Share>, s: Share)
    ensures Remainders(shares + [s]) == Remainders(shares) + s.remainder
  {
    if shares != [] {
      RemaindersSnoc(shares[1..], s);
      assert (shares + [s])[1..] == shares[1..] + [s];
    } else {
      assert [s][1..] == [];
    }
  }

  /** Floors and remainders together are the whole count. */
  lemma {:induction false} FloorsAndRemainders(count: nat, weights: seq<nat>, W: nat)
    requires W > 0
    ensures W * Sum(FloorsOf(count, weights, W)) + Remainders(SharesOf(count, weights, W)) == count * Sum(weights)
  {
    if weights != [] {
      hide Remainders, FloorsOf, SharesOf, Floor;
      var n := |weights| - 1;
      var front, w := weights[..n], weights[n];
      FloorsAndRemainders(count, front, W);
      LastShare(count, weights, W);
      RemaindersSnoc(SharesOf(count, front, W), Share(count * w % W, n));
      Distribute(W, Sum(FloorsOf(count, front, W)), Floor(count, w, W));
      Distribute(count, Sum(front), w);
      FloorIs(count, w, W);
    }
  }

  lemma LastShare(count: nat, weights: seq<nat>, W: nat)
    requires W > 0 && weights != []
    ensures var n := |weights| - 1;
            && Sum(FloorsOf(count, weights, W)) == Sum(FloorsOf(count, weights[..n], W)) + Floor(count, weights[n], W)
            && SharesOf(count, weights, W) == SharesOf(count, weights[..n], W) + [Share(count * weights[n] % W, n)]
  {
    var n := |weights| - 1;
    assert FloorsOf(count, weights, W)[..n] == FloorsOf(count, weights[..n], W);
  }

  lemma FloorIs(count: nat, w: nat, W: nat)
    requires W > 0
    ensures count * w == W * Floor(count, w, W) + count * w % W
  {
  }

  /** The remainders fill exactly the units the floors leave over. */
  lemma UnitsLeft(count: nat, weights: seq<nat>)
    requires Sum(weights) > 0
    ensures Sum(FloorsOf(count, weights, Sum(weights))) <= count
    ensures Remainders(SharesOf(count, weights, Sum(weights)))
         == (count - Sum(FloorsOf(count, weights, Sum(weights)))) * Sum(weights)
  {
    hide Remainders, SharesOf, FloorsOf, DistinctKeys;
    var W := Sum(weights);
    FloorsAndRemainders(count, weights, W);
    AtMost(W, Sum(FloorsOf(count, weights, W)), Remainders(SharesOf(count, weights, W)), count);
  }

  lemma AtMost(W: nat, floors: nat, remainders: nat, count: nat)
    requires W > 0 && W * floors + remainders == count * W
    ensures floors <= count && remainders == (count - floors) * W
  {
    assert floors > count ==> W * floors >= W * (count + 1);
    assert (count - floors) * W == count * W - floors * W;
  }

  /** Each unit the floors leave over goes to a key of its own with a positive remainder. */
  lemma LeftOver(ordered: seq<Share>, W: nat, left: nat)
    requires W > 0 && Ordered(ordered) && Remainders(ordered) == left * W
    requires forall i :: 0 <= i < |ordered| ==> ordered[i].remainder < W
    ensures left <= |ordered|
    ensures forall i :: 0 <= i < left ==> ordered[i].remainder > 0
  {
    RemaindersBelow(ordered, |ordered|, W);
    Exceeds(left, |ordered|, W);
    forall i | 0 <= i < left
      ensures ordered[i].remainder > 0
    {
      if ordered[i].remainder == 0 {
        forall j | i <= j < |ordered|
          ensures ordered[j].remainder == 0
        {
          assert i < j ==> Precedes(ordered[i], ordered[j]);
        }
        RemaindersBelow(ordered, i, W);
        Exceeds(left, i, W);
        assert false;
      }
    }
  }

  /** Whether the largest-remainder rule gives this key a unit above its floor. */
  ghost predicate RoundedUp(ordered: seq<Share>, left: nat, key: nat) {
    exists j :: 0 <= j < left && j < |ordered| && ordered[j].key == key
  }

  ghost predicate Apportioned(a: seq<nat>, count: nat, weights: seq<nat>) {
    && |a| == |weights| && Sum(weights) > 0
    && Sum(a) == count
    && (forall i :: 0 <= i < |a| ==> FloorOrCeiling(a[i], count, weights[i], Sum(weights)))
    && (forall i, j :: 0 <= i < |a| && 0 <= j < |a|
          && a[i] > count * weights[i] / Sum(weights) && a[j] == count * weights[j] / Sum(weights)
          ==> Precedes(Share(count * weights[i] % Sum(weights), i), Share(count * weights[j] % Sum(weights), j)))
  }

  /** No share is a whole unit off its exact value, and a share above its floor left the larger rest, or as large a rest with the earlier key. */
  lemma SharesAreFair(a: seq<nat>, count: nat, weights: seq<nat>, i: nat, j: nat)
    requires Apportioned(a, count, weights) && i < |a| && j < |a|
    ensures var W := Sum(weights);
            && (a[i] - 1) * W < count * weights[i] < (a[i] + 1) * W
            && (a[i] * W > count * weights[i] && a[j] * W <= count * weights[j] ==>
                  var given, kept := count * weights[i] - (a[i] - 1) * W, count * weights[j] - a[j] * W;
                  given > kept || (given == kept && i < j))
  {
    var W := Sum(weights);
    hide Sum;
    FairShare(a[i], count, weights[i], W);
    FairShare(a[j], count, weights[j], W);
  }

  lemma FairShare(share: nat, count: nat, weight: nat, W: nat)
    requires W > 0 && FloorOrCeiling(share, count, weight, W)
    ensures (share - 1) * W < count * weight < (share + 1) * W
    ensures share * W > count * weight ==> share == count * weight / W + 1 && count * weight % W == count * weight - (share - 1) * W
    ensures share * W <= count * weight ==> share == count * weight / W && count * weight % W == count * weight - share * W
  {
    var exact := count * weight;
    var floor, rest := exact / W, exact % W;
    assert exact == floor * W + rest;
    Distribute(W, floor, 1);
    Distribute(W, share, 1);
    assert share * W == W * share && floor * W == W * floor;
  }

  /** Give the left-over units to the largest remainders. */
  method Allocate(count: nat, weights: seq<nat>) returns (a: seq<nat>)
    requires Sum(weights) > 0
    ensures Apportioned(a, count, weights)
  {
    hide Ordered, DistinctKeys, Apportioned, Remainders, Sum;
    var W := Sum(weights);
    var floors := FloorsOf(count, weights, W);
    var ordered := Sort(SharesOf(count, weights, W));
    UnitsLeft(count, weights);
    var left := count - Sum(floors);
    assert forall i :: 0 <= i < |ordered| ==> ordered[i] in ordered;
    LeftOver(ordered, W, left);
    a := floors;
    for t := 0 to left
      invariant |a| == |weights| && Sum(a) == Sum(floors) + t
      invariant forall i :: 0 <= i < |a| ==> a[i] == floors[i] + if RoundedUp(ordered, t, i) then 1 else 0
    {
      a := RoundUp(count, weights, ordered, t, a);
    }
    RoundingIsFair(a, count, weights, ordered, left);
  }

  /** One left-over unit goes to the next key in order. */
  method RoundUp(count: nat, weights: seq<nat>, ordered: seq<Share>, t: nat, a: seq<nat>) returns (b: seq<nat>)
    requires Sum(weights) > 0 && ordered == Sort(SharesOf(count, weights, Sum(weights))) && t < |ordered|
    requires |a| == |weights|
    requires forall i :: 0 <= i < |a| ==> a[i] == FloorsOf(count, weights, Sum(weights))[i] + if RoundedUp(ordered, t, i) then 1 else 0
    ensures |b| == |weights| && Sum(b) == Sum(a) + 1
    ensures forall i :: 0 <= i < |b| ==> b[i] == FloorsOf(count, weights, Sum(weights))[i] + if RoundedUp(ordered, t + 1, i) then 1 else 0
  {
    hide Ordered, DistinctKeys, Remainders, Sum, SharesOf, Sort, FloorsOf;
    var key := ordered[t].key;
    KeyOf(count, weights, ordered, t);
    SumUpdate(a, key, a[key] + 1);
    assert forall i :: 0 <= i < |a| ==> (RoundedUp(ordered, t + 1, i) <==> RoundedUp(ordered, t, i) || i == key) by {
      forall i | 0 <= i < |a|
        ensures RoundedUp(ordered, t + 1, i) <==> RoundedUp(ordered, t, i) || i == key
      {
        assert i == key ==> ordered[t].key == i;
      }
    }
    b := a[key := a[key] + 1];
  }

  lemma OrderedPair(shares: seq<Share>, i: nat, j: nat)
    requires Ordered(shares) && i < j < |shares|
    ensures Precedes(shares[i], shares[j])
  {
  }

  lemma KeyOf(count: nat, weights: seq<nat>, ordered: seq<Share>, t: nat)
    requires Sum(weights) > 0 && ordered == Sort(SharesOf(count, weights, Sum(weights))) && t < |ordered|
    ensures ordered[t].key < |weights|
    ensures ordered[t].remainder == count * weights[ordered[t].key] % Sum(weights)
    ensures !RoundedUp(ordered, t, ordered[t].key)
  {
    hide Ordered, Remainders, Sum, Sort;
    var shares := SharesOf(count, weights, Sum(weights));
    hide SharesOf;
    assert ordered[t] in ordered;
    assert ordered[t] in shares;
    forall j | 0 <= j < t
      ensures ordered[j].key != ordered[t].key
    {
      assert ordered[j] in ordered && ordered[j] in shares;
      OrderedPair(ordered, j, t);
    }
  }

  lemma RoundingIsFair(a: seq<nat>, count: nat, weights: seq<nat>, ordered: seq<Share>, left: nat)
    requires Sum(weights) > 0 && ordered == Sort(SharesOf(count, weights, Sum(weights)))
    requires |a| == |weights| && Sum(a) == count && left <= |ordered|
    requires forall i :: 0 <= i < left ==> ordered[i].remainder > 0
    requires forall i :: 0 <= i < |a| ==> a[i] == count * weights[i] / Sum(weights) + if RoundedUp(ordered, left, i) then 1 else 0
    ensures Apportioned(a, count, weights)
  {
    var W := Sum(weights);
    var shares := SharesOf(count, weights, W);
    forall i | 0 <= i < |a|
      ensures FloorOrCeiling(a[i], count, weights[i], W)
    {
      if j :| 0 <= j < left && ordered[j].key == i {
        KeyOf(count, weights, ordered, j);
      }
    }
    forall i, j | 0 <= i < |a| && 0 <= j < |a| && RoundedUp(ordered, left, i) && !RoundedUp(ordered, left, j)
      ensures Precedes(shares[i], shares[j])
    {
      var p :| 0 <= p < left && ordered[p].key == i;
      KeyOf(count, weights, ordered, p);
      assert shares[j] in ordered;
      var q :| 0 <= q < |ordered| && ordered[q] == shares[j];
      assert p < left <= q;
    }
  }

  /** Each key as often as it was allocated. */
  function Expand(a: seq<nat>): (values: seq<nat>)
    ensures |values| == Sum(a)
    ensures forall v :: v in values ==> v < |a|
  {
    if a == [] then []
    else Expand(a[..|a| - 1]) + Copies(|a| - 1, a[|a| - 1])
  }

  function Copies(value: nat, times: nat): (values: seq<nat>)
    ensures |values| == times && forall v :: v in values ==> v == value
    ensures Times(values, value) == times
  {
    if times == 0 then [] else Copies(value, times - 1) + [value]
  }

  lemma TimesTogether(a: seq<nat>, b: seq<nat>, v: nat)
    ensures Times(a + b, v) == Times(a, v) + Times(b, v)
  {
    assert multiset(a + b) == multiset(a) + multiset(b);
  }

  lemma TimesOfOthers(a: seq<nat>, v: nat)
    requires v !in a
    ensures Times(a, v) == 0
  {
    assert v !in multiset(a);
  }

  lemma {:induction false} ExpandCounts(a: seq<nat>, key: nat)
    requires key < |a|
    ensures Times(Expand(a), key) == a[key]
  {
    var n := |a| - 1;
    var front, last := Expand(a[..n]), Copies(n, a[n]);
    TimesTogether(front, last, key);
    if key < n {
      ExpandCounts(a[..n], key);
      TimesOfOthers(last, key);
    } else {
      TimesOfOthers(front, key);
    }
  }

  ghost predicate Permutes<T>(a: seq<T>, b: seq<T>) {
    multiset(a) == multiset(b)
  }

  lemma PermutedAlike<T(!new)>(a: seq<T>, b: seq<T>)
    requires Permutes(a, b)
    ensures |a| == |b| && forall v :: v in a <==> v in b
  {
    assert |multiset(a)| == |multiset(b)|;
    assert forall v :: v in a <==> v in multiset(a);
    assert forall v :: v in b <==> v in multiset(b);
  }

  ghost predicate Shuffles(shuffle: seq<nat> -> seq<nat>) {
    forall values :: Permutes(shuffle(values), values)
  }

  datatype AllocationError = DivisionByZero

  /** One value per unit, in any order: an empty table yields nothing, and a table of zeros cannot be divided. */
  method AllocateWeighted(count: nat, weights: seq<nat>, shuffle: seq<nat> -> seq<nat>)
    returns (r: Result<seq<nat>, AllocationError>)
    requires Shuffles(shuffle)
    ensures r.Err? <==> weights != [] && Sum(weights) == 0
    ensures weights == [] ==> r == Ok([])
    ensures r.Ok? && weights != [] ==>
              && |r.value| == count
              && (forall v :: v in r.value ==> v < |weights|)
              && exists a: seq<nat> :: Apportioned(a, count, weights) && forall k :: 0 <= k < |a| ==> Times(r.value, k) == a[k]
  {
    if weights == [] {
      PermutedAlike(shuffle([]), []);
      return Ok(shuffle([]));
    }
    if Sum(weights) == 0 {
      return Err(DivisionByZero);
    }
    var a := Allocate(count, weights);
    var values := Expand(a);
    var shuffled := shuffle(values);
    PermutedAlike(shuffled, values);
    forall k | 0 <= k < |a|
      ensures Times(shuffled, k) == a[k]
    {
      ExpandCounts(a, k);
    }
    return Ok(shuffled);
  }

  /** The three demands leave no choice: the apportionment is unique. */
  lemma ApportionmentIsUnique(a: seq<nat>, b: seq<nat>, count: nat, weights: seq<nat>)
    requires Apportioned(a, count, weights) && Apportioned(b, count, weights)
    ensures a == b
  {
    NowhereAbove(a, b, count, weights);
    NowhereAbove(b, a, count, weights);
  }

  /** Were `a` to round up where `b` does not, equal sums would force a key the other way round, against the order. */
  lemma NowhereAbove(a: seq<nat>, b: seq<nat>, count: nat, weights: seq<nat>)
    requires Apportioned(a, count, weights) && Apportioned(b, count, weights)
    ensures forall i :: 0 <= i < |a| ==> a[i] <= b[i]
  {
    forall i | 0 <= i < |a|
      ensures a[i] <= b[i]
    {
      if a[i] > b[i] {
        var j := SomewhereLess(a, b, i);
        assert false;
      }
    }
  }

  lemma {:induction false} SumMonotone(a: seq<nat>, b: seq<nat>)
    requires |a| == |b| && forall j :: 0 <= j < |a| ==> a[j] >= b[j]
    ensures Sum(a) >= Sum(b)
  {
    if a != [] {
      SumMonotone(a[..|a| - 1], b[..|b| - 1]);
    }
  }

  lemma SomewhereLess(a: seq<nat>, b: seq<nat>, i: nat) returns (j: nat)
    requires |a| == |b| && Sum(a) == Sum(b) && i < |a| && a[i] > b[i]
    ensures j < |a| && a[j] < b[j]
  {
    assert exists k :: 0 <= k < |a| && a[k] < b[k] by {
      if forall k :: 0 <= k < |a| ==> a[k] >= b[k] {
        SumMonotone(a[i := b[i]], b);
        SumUpdate(a, i, b[i]);
        assert false;
      }
    }
    j :| 0 <= j < |a| && a[j] < b[j];
  }

  // ----- even splitting

  function SplitIntoGroups(total: nat, groups: nat): (sizes: seq<nat>)
    requires groups > 0
    ensures |sizes| == groups
  {
    seq(groups, i requires 0 <= i < groups => total / groups + if i < total % groups then 1 else 0)
  }

  function Steps(base: nat, extra: nat, n: nat): seq<nat> {
    seq(n, i requires 0 <= i < n => base + if i < extra then 1 else 0)
  }

  lemma {:induction false} StepsSum(base: nat, extra: nat, n: nat)
    requires extra <= n
    ensures Sum(Steps(base, extra, n)) == base * n + extra
  {
    if n > 0 {
      var m := n - 1;
      var less := if extra == n then m else extra;
      StepsSum(base, less, m);
      assert Steps(base, extra, n)[..m] == Steps(base, less, m);
      Distribute(base, m, 1);
    }
  }

  /** The groups hold the total, no two differ by more than one, and the larger come first. */
  lemma SplitIsEven(total: nat, groups: nat)
    requires groups > 0
    ensures Sum(SplitIntoGroups(total, groups)) == total
    ensures forall i, j :: 0 <= i < j < groups ==>
              SplitIntoGroups(total, groups)[j] <= SplitIntoGroups(total, groups)[i] <= SplitIntoGroups(total, groups)[j] + 1
    ensures total % groups == 0 ==> forall i :: 0 <= i < groups ==> SplitIntoGroups(total, groups)[i] * groups == total
  {
    StepsSum(total / groups, total % groups, groups);
    assert SplitIntoGroups(total, groups) == Steps(total / groups, total % groups, groups);
    assert total / groups * groups + total % groups == total;
  }

  // ----- cutting a retry quota into chains

  datatype ChainError = NothingToExtend | BadQuota

  ghost predicate DrawsWithin(draw: nat -> nat, minimum: nat, maximum: nat) {
    forall k :: minimum <= draw(k) <= maximum
  }

  /** The size taken when more than one chain's worth remains. */
  function Taken(remaining: nat, minimum: nat, drawn: nat): nat
    requires minimum <= drawn < remaining
  {
    if remaining - drawn < minimum then remaining - minimum else drawn
  }

  /** The chains taken from a remainder that cannot strand less than a minimum. */
  ghost function Chains(remaining: nat, minimum: nat, maximum: nat, draw: nat -> nat, step: nat): (sizes: seq<nat>)
    requires 1 <= minimum <= maximum && DrawsWithin(draw, minimum, maximum)
    requires remaining == 0 || remaining >= minimum
    decreases remaining
  {
    if remaining == 0 then []
    else if remaining <= maximum then [remaining]
    else
      var size := Taken(remaining, minimum, draw(step));
      [size] + Chains(remaining - size, minimum, maximum, draw, step + 1)
  }

  predicate AllWithin(sizes: seq<nat>, minimum: nat, maximum: nat) {
    forall i :: 0 <= i < |sizes| ==> minimum <= sizes[i] <= maximum
  }

  lemma {:induction false} SumAppend(a: seq<nat>, b: seq<nat>)
    ensures Sum(a + b) == Sum(a) + Sum(b)
  {
    if b == [] {
      assert a + b == a;
    } else {
      SumAppend(a, b[..|b| - 1]);
      assert (a + b)[..|a + b| - 1] == a + b[..|b| - 1];
    }
  }

  /** The quota is always met exactly: only a chain's bounds can fail. */
  lemma {:induction false} ChainsSum(remaining: nat, minimum: nat, maximum: nat, draw: nat -> nat, step: nat)
    requires 1 <= minimum <= maximum && DrawsWithin(draw, minimum, maximum)
    requires remaining == 0 || remaining >= minimum
    ensures Sum(Chains(remaining, minimum, maximum, draw, step)) == remaining
    decreases remaining
  {
    if remaining == 0 {
    } else if remaining <= maximum {
      assert [remaining][..0] == [];
    } else {
      var size := Taken(remaining, minimum, draw(step));
      ChainsSum(remaining - size, minimum, maximum, draw, step + 1);
      SumAppend([size], Chains(remaining - size, minimum, maximum, draw, step + 1));
      assert [size][..0] == [];
    }
  }

  lemma StartChains(total: nat, minimum: nat, maximum: nat, draw: nat -> nat)
    requires 1 <= minimum <= maximum && DrawsWithin(draw, minimum, maximum)
    ensures total == 0 || total >= minimum ==> OnCourse([], total, total, minimum, maximum, draw, 0)
  {
  }

  lemma AllTaken(sizes: seq<nat>, total: nat, minimum: nat, maximum: nat, draw: nat -> nat, step: nat)
    requires 1 <= minimum <= maximum && DrawsWithin(draw, minimum, maximum)
    requires total == 0 || total >= minimum
    requires OnCourse(sizes, 0, total, minimum, maximum, draw, step)
    ensures sizes == Chains(total, minimum, maximum, draw, 0) && Sum(sizes) == total
  {
    ChainsSum(total, minimum, maximum, draw, 0);
  }

  /** Which chains are still to come after those already taken. */
  ghost predicate OnCourse(sizes: seq<nat>, remaining: nat, total: nat, minimum: nat, maximum: nat, draw: nat -> nat, step: nat)
    requires 1 <= minimum <= maximum && DrawsWithin(draw, minimum, maximum)
    requires total == 0 || total >= minimum
  {
    && (remaining == 0 || remaining >= minimum)
    && Chains(total, minimum, maximum, draw, 0) == sizes + Chains(remaining, minimum, maximum, draw, step)
  }

  lemma NothingStranded(sizes: seq<nat>, remaining: nat, total: nat, minimum: nat, maximum: nat, draw: nat -> nat, step: nat)
    requires 1 <= minimum <= maximum && DrawsWithin(draw, minimum, maximum)
    ensures (total == 0 || total >= minimum) && OnCourse(sizes, remaining, total, minimum, maximum, draw, step)
         ==> remaining == 0 || remaining >= minimum
  {
  }

  lemma LastChain(sizes: seq<nat>, remaining: nat, total: nat, minimum: nat, maximum: nat, draw: nat -> nat, step: nat)
    requires 1 <= minimum <= maximum && DrawsWithin(draw, minimum, maximum)
    requires total == 0 || total >= minimum
    requires OnCourse(sizes, remaining, total, minimum, maximum, draw, step) && 0 < remaining <= maximum
    ensures OnCourse(sizes + [remaining], 0, total, minimum, maximum, draw, step)
  {
    assert Chains(remaining, minimum, maximum, draw, step) == [remaining];
    assert Chains(0, minimum, maximum, draw, step) == [];
  }

  lemma NextChain(sizes: seq<nat>, remaining: nat, total: nat, minimum: nat, maximum: nat, draw: nat -> nat, step: nat)
    requires 1 <= minimum <= maximum && DrawsWithin(draw, minimum, maximum)
    requires total == 0 || total >= minimum
    requires OnCourse(sizes, remaining, total, minimum, maximum, draw, step) && remaining > maximum
    ensures OnCourse(sizes + [Taken(remaining, minimum, draw(step))], remaining - Taken(remaining, minimum, draw(step)),
                     total, minimum, maximum, draw, step + 1)
  {
    var size := Taken(remaining, minimum, draw(step));
    var rest := Chains(remaining - size, minimum, maximum, draw, step + 1);
    assert Chains(remaining, minimum, maximum, draw, step) == [size] + rest;
    assert sizes + ([size] + rest) == sizes + [size] + rest;
  }

  /** The loop as written: a total under the minimum has no chain to extend, and otherwise the quota fails only on bounds. */
  method RetryGroupSizes(total: nat, minimum: nat, maximum: nat, draw: nat -> nat) returns (r: Result<seq<nat>, ChainError>)
    requires 1 <= minimum <= maximum && DrawsWithin(draw, minimum, maximum)
    ensures r == Err(NothingToExtend) <==> 0 < total < minimum
    ensures total == 0 || total >= minimum ==>
              r == if AllWithin(Chains(total, minimum, maximum, draw, 0), minimum, maximum)
                   then Ok(Chains(total, minimum, maximum, draw, 0)) else Err(BadQuota)
    ensures r.Ok? ==> Sum(r.value) == total && AllWithin(r.value, minimum, maximum)
  {
    hide Chains, Sum, AllWithin, OnCourse;
    var sizes: seq<nat> := [];
    var remaining: nat := total;
    var step: nat := 0;
    StartChains(total, minimum, maximum, draw);
    while remaining != 0
      invariant total == 0 || total >= minimum ==> OnCourse(sizes, remaining, total, minimum, maximum, draw, step)
      invariant 0 < total < minimum ==> remaining == total && sizes == []
      decreases remaining
    {
      NothingStranded(sizes, remaining, total, minimum, maximum, draw, step);
      if remaining <= maximum {
        if remaining < minimum {
          if sizes == [] {
            return Err(NothingToExtend);
          }
          // Extending the last chain is dead code: no size taken strands less than a minimum.
          assert false;
        } else {
          LastChain(sizes, remaining, total, minimum, maximum, draw, step);
          sizes := sizes + [remaining];
        }
        remaining := 0;
        break;
      }
      var size := draw(step);
      if 0 < remaining - size < minimum {
        size := size - (minimum - (remaining - size));
      }
      NextChain(sizes, remaining, total, minimum, maximum, draw, step);
      sizes := sizes + [size];
      remaining := remaining - size;
      step := step + 1;
    }
    AllTaken(sizes, total, minimum, maximum, draw, step);
    if Sum(sizes) != total || !AllWithin(sizes, minimum, maximum) {
      return Err(BadQuota);
    }
    return Ok(sizes);
  }

  /**
   * The totals that form valid chains whatever is drawn.  Wide bounds take any
   * total over the minimum; narrow ones strand the totals that some sequence of
   * draws brings strictly between one maximum and two minimums.
   */
  predicate AlwaysForms(total: nat, minimum: nat, maximum: nat)
    requires 1 <= minimum <= maximum
  {
    || total == 0
    || minimum <= total <= maximum
    || (maximum >= 2 * minimum - 1 && total >= minimum)
    || (minimum == maximum && total % minimum == 0)
    || 2 * minimum <= total <= minimum + maximum
    || total == 2 * minimum + maximum
  }

  lemma OneFewer(total: nat, minimum: nat)
    requires total >= minimum >= 1
    ensures total % minimum == (total - minimum) % minimum
  {
    var q, r := (total - minimum) / minimum, (total - minimum) % minimum;
    assert total == (q + 1) * minimum + r;
    Quotient(total, minimum, q + 1, r);
  }

  lemma Quotient(n: nat, d: nat, q: nat, r: nat)
    requires n == q * d + r && r < d
    ensures n % d == r
  {
    SameRemainder(d, n / d, n % d, q, r);
  }

  lemma SameRemainder(d: nat, p: nat, m: nat, q: nat, r: nat)
    requires p * d + m == q * d + r && m < d && r < d
    ensures m == r
  {
    assert (p - q) * d == r - m;
    AtLeastOne(p - q, d);
    AtLeastOne(q - p, d);
    assert (q - p) * d == m - r;
  }

  lemma AtLeastOne(x: int, d: nat)
    ensures x >= 1 ==> x * d >= d
  {
    assert x >= 1 ==> (x - 1) * d >= 0;
  }

  lemma SmallRemainder(n: nat, d: nat)
    requires n < d
    ensures n % d == n
  {
  }

  /** One step within an always-forming total leaves an always-forming total. */
  lemma StepForms(total: nat, minimum: nat, maximum: nat, drawn: nat)
    requires 1 <= minimum <= drawn <= maximum < total && AlwaysForms(total, minimum, maximum)
    ensures minimum <= Taken(total, minimum, drawn) <= maximum
    ensures AlwaysForms(total - Taken(total, minimum, drawn), minimum, maximum)
  {
    if minimum == maximum {
      OneFewer(total, minimum);
      if total < 2 * minimum {
        SmallRemainder(total - minimum, minimum);
      }
    }
  }

  lemma {:induction false} AlwaysFormsSuffices(total: nat, minimum: nat, maximum: nat, draw: nat -> nat, step: nat)
    requires 1 <= minimum <= maximum && DrawsWithin(draw, minimum, maximum)
    requires total == 0 || total >= minimum
    requires AlwaysForms(total, minimum, maximum)
    ensures AllWithin(Chains(total, minimum, maximum, draw, step), minimum, maximum)
    decreases total
  {
    if total > maximum {
      StepForms(total, minimum, maximum, draw(step));
      AlwaysFormsSuffices(total - Taken(total, minimum, draw(step)), minimum, maximum, draw, step + 1);
    }
  }

  /** A draw that leaves a total no draws can always form. */
  function Misdraw(total: nat, minimum: nat, maximum: nat): nat {
    if total < 2 * minimum || minimum == maximum then minimum
    else if total == 3 * minimum + maximum then minimum + 1
    else if total > 2 * minimum + maximum then minimum
    else if total > 2 * maximum then maximum
    else if total > maximum then total - maximum - 1 else minimum
  }

  lemma MisdrawMisleads(total: nat, minimum: nat, maximum: nat)
    requires 1 <= minimum <= maximum && total >= minimum && !AlwaysForms(total, minimum, maximum)
    ensures minimum <= Misdraw(total, minimum, maximum) <= maximum < total
    ensures var taken := Taken(total, minimum, Misdraw(total, minimum, maximum));
            taken < minimum || (total - taken >= minimum && !AlwaysForms(total - taken, minimum, maximum))
  {
    if minimum == maximum {
      OneFewer(total, minimum);
      assert (total - minimum) % minimum != 0;
      if total >= 2 * minimum {
        OneFewer(total - minimum, minimum);
        if total >= 3 * minimum {
          OneFewer(total - 2 * minimum, minimum);
        }
        assert minimum % minimum == 0;
      }
    }
  }

  /** The chains depend only on the draws still to come. */
  lemma {:induction false} ChainsShift(remaining: nat, minimum: nat, maximum: nat, a: nat -> nat, b: nat -> nat, step: nat)
    requires 1 <= minimum <= maximum && DrawsWithin(a, minimum, maximum) && DrawsWithin(b, minimum, maximum)
    requires remaining == 0 || remaining >= minimum
    requires forall k: nat :: b(k) == a(k + 1)
    ensures Chains(remaining, minimum, maximum, a, step + 1) == Chains(remaining, minimum, maximum, b, step)
    decreases remaining
  {
    if remaining > maximum {
      assert b(step) == a(step + 1);
      ChainsShift(remaining - Taken(remaining, minimum, b(step)), minimum, maximum, a, b, step + 1);
    }
  }

  ghost predicate Strands(draw: nat -> nat, total: nat, minimum: nat, maximum: nat)
    requires 1 <= minimum <= maximum
    requires total == 0 || total >= minimum
  {
    DrawsWithin(draw, minimum, maximum) && !AllWithin(Chains(total, minimum, maximum, draw, 0), minimum, maximum)
  }

  lemma {:induction false} AlwaysFormsNeeded(total: nat, minimum: nat, maximum: nat) returns (draw: nat -> nat)
    requires 1 <= minimum <= maximum && total >= minimum && !AlwaysForms(total, minimum, maximum)
    ensures Strands(draw, total, minimum, maximum)
    decreases total
  {
    MisdrawMisleads(total, minimum, maximum);
    var drawn := Misdraw(total, minimum, maximum);
    var taken := Taken(total, minimum, drawn);
    if taken < minimum {
      draw := k => drawn;
      assert Chains(total, minimum, maximum, draw, 0)[0] == taken;
    } else {
      var later := AlwaysFormsNeeded(total - taken, minimum, maximum);
      draw := (k: nat) => if k == 0 then drawn else later(k - 1);
      ChainsShift(total - taken, minimum, maximum, draw, later, 0);
      var rest := Chains(total - taken, minimum, maximum, later, 0);
      assert Chains(total, minimum, maximum, draw, 0) == [taken] + rest;
      var i :| 0 <= i < |rest| && !(minimum <= rest[i] <= maximum);
      assert Chains(total, minimum, maximum, draw, 0)[i + 1] == rest[i];
    }
  }

  /** A quota forms valid chains for all draws exactly when the condition on total and bounds holds. */
  lemma FormsForAllDraws(total: nat, minimum: nat, maximum: nat)
    requires 1 <= minimum <= maximum
    requires total == 0 || total >= minimum
    ensures (forall draw: nat -> nat :: DrawsWithin(draw, minimum, maximum)
               ==> AllWithin(Chains(total, minimum, maximum, draw, 0), minimum, maximum))
       <==> AlwaysForms(total, minimum, maximum)
  {
    if AlwaysForms(total, minimum, maximum) {
      forall draw: nat -> nat | DrawsWithin(draw, minimum, maximum)
        ensures AllWithin(Chains(total, minimum, maximum, draw, 0), minimum, maximum)
      {
        AlwaysFormsSuffices(total, minimum, maximum, draw, 0);
      }
    } else {
      var draw := AlwaysFormsNeeded(total, minimum, maximum);
      assert Strands(draw, total, minimum, maximum);
    }
  }

  /**
   * A fact about the cutting alone: the bounds are safe for every total exactly
   * when they are wide; else one over the maximum always fails.
   */
  lemma WideBoundsOrNone(minimum: nat, maximum: nat)
    requires 1 <= minimum <= maximum
    ensures (forall total :: total >= minimum ==> AlwaysForms(total, minimum, maximum)) <==> maximum >= 2 * minimum - 1
    ensures maximum < 2 * minimum - 1 ==> forall draw: nat -> nat ::
              DrawsWithin(draw, minimum, maximum) ==> !AllWithin(Chains(maximum + 1, minimum, maximum, draw, 0), minimum, maximum)
  {
    if maximum < 2 * minimum - 1 {
      if minimum == maximum {
        OneFewer(maximum + 1, minimum);
        SmallRemainder(1, minimum);
      }
      assert !AlwaysForms(maximum + 1, minimum, maximum);
      forall draw: nat -> nat | DrawsWithin(draw, minimum, maximum)
        ensures !AllWithin(Chains(maximum + 1, minimum, maximum, draw, 0), minimum, maximum)
      {
        assert Chains(maximum + 1, minimum, maximum, draw, 0)[0] < minimum;
      }
    }
  }

  // ----- the quotas and bounds of a configuration

  /** The share of retries, in ten-thousandths, that every configuration must have. */
  const RETRY_WEIGHT := 800

  predicate AcceptedEvents(events: nat) {
    100 <= events <= 10_000_000 && events % 100 == 0
  }

  predicate AcceptedBounds(minimum: nat, maximum: nat) {
    2 <= minimum <= maximum <= 4
  }

  function RetryQuota(events: nat): nat {
    events * RETRY_WEIGHT / 10_000
  }

  /** A quota is a multiple of eight, so it is never too small for a chain. */
  lemma QuotaIsEights(events: nat)
    requires AcceptedEvents(events)
    ensures RetryQuota(events) == 8 * (events / 100) >= 8
  {
    assert events == 100 * (events / 100);
  }

  lemma EightsForm(k: nat, minimum: nat, maximum: nat)
    requires k >= 1 && AcceptedBounds(minimum, maximum)
    ensures AlwaysForms(8 * k, minimum, maximum) <==> minimum != 3 || (maximum == 3 && k % 3 == 0)
  {
    Eights(k);
    var total := 8 * k;
    if minimum == 2 {
      assert AlwaysForms(total, 2, maximum);
    } else if minimum == 3 {
      assert total % 3 == 0 <==> k % 3 == 0;
    } else {
      assert AlwaysForms(total, 4, 4);
    }
  }

  lemma Eights(k: nat)
    ensures 8 * k % 2 == 0 && 8 * k % 4 == 0 && (8 * k % 3 == 0 <==> k % 3 == 0)
  {
    Quotient(8 * k, 2, 4 * k, 0);
    Quotient(8 * k, 4, 2 * k, 0);
    var q, r := k / 3, k % 3;
    Quotient(8 * k, 3, 8 * q + 8 * r / 3, 8 * r % 3);
  }

  /** The accepted configurations whose retries form valid chains for all draws. */
  lemma ConfiguredQuotasForm(events: nat, minimum: nat, maximum: nat)
    requires AcceptedEvents(events) && AcceptedBounds(minimum, maximum)
    ensures RetryQuota(events) >= minimum
    ensures (forall draw: nat -> nat :: DrawsWithin(draw, minimum, maximum)
               ==> AllWithin(Chains(RetryQuota(events), minimum, maximum, draw, 0), minimum, maximum))
       <==> minimum != 3 || (maximum == 3 && events % 300 == 0)
  {
    QuotaIsEights(events);
    EightsForm(events / 100, minimum, maximum);
    FormsForAllDraws(RetryQuota(events), minimum, maximum);
    assert events / 100 % 3 == 0 <==> events % 300 == 0;
  }

  /** With chains of exactly three, a quota that three does not divide fails whatever is drawn. */
  lemma {:induction false} ThreesFail(total: nat, draw: nat -> nat, step: nat)
    requires total >= 3 && total % 3 != 0 && DrawsWithin(draw, 3, 3)
    ensures !AllWithin(Chains(total, 3, 3, draw, step), 3, 3)
    decreases total
  {
    var sizes := Chains(total, 3, 3, draw, step);
    var size := Taken(total, 3, draw(step));
    if size == 3 {
      var rest := Chains(total - 3, 3, 3, draw, step + 1);
      ThreesFail(total - 3, draw, step + 1);
      var i :| 0 <= i < |rest| && !(3 <= rest[i] <= 3);
      assert sizes[i + 1] == rest[i];
    } else {
      assert sizes[0] == size;
    }
  }

  /** With chains of three or four, drawing only fours succeeds. */
  lemma {:induction false} FoursForm(k: nat, draw: nat -> nat, step: nat)
    requires DrawsWithin(draw, 3, 4) && forall i :: draw(i) == 4
    ensures AllWithin(Chains(4 * k, 3, 4, draw, step), 3, 4)
  {
    if k > 1 {
      FoursForm(k - 1, draw, step + 1);
    }
  }

  /** What becomes of each accepted configuration that some draws can fail: bounds of three fail for all, of three or four for some. */
  lemma ConfiguredQuotasFail(events: nat, draw: nat -> nat)
    requires AcceptedEvents(events)
    ensures events % 300 != 0 && DrawsWithin(draw, 3, 3) ==> !AllWithin(Chains(RetryQuota(events), 3, 3, draw, 0), 3, 3)
    ensures (forall i :: draw(i) == 4) ==> DrawsWithin(draw, 3, 4) && AllWithin(Chains(RetryQuota(events), 3, 4, draw, 0), 3, 4)
  {
    QuotaIsEights(events);
    var quota, k := RetryQuota(events), events / 100;
    assert quota % 3 == 0 <==> events % 300 == 0;
    if quota % 3 != 0 && DrawsWithin(draw, 3, 3) {
      ThreesFail(quota, draw, 0);
    }
    if forall i :: draw(i) == 4 {
      FoursForm(2 * k, draw, 0);
    }
  }

  /** The smallest accepted split: its eight retries are never chains of three, and not always chains of three or four. */
  lemma HundredEvents(draw: nat -> nat)
    ensures AcceptedEvents(100) && AcceptedBounds(3, 3) && AcceptedBounds(3, 4) && RetryQuota(100) == 8
    ensures DrawsWithin(draw, 3, 3) ==> !AllWithin(Chains(8, 3, 3, draw, 0), 3, 3)
    ensures DrawsWithin(draw, 3, 4) ==> (AllWithin(Chains(8, 3, 4, draw, 0), 3, 4) <==> draw(0) == 4)
  {
    ConfiguredQuotasFail(100, draw);
    if DrawsWithin(draw, 3, 4) {
      var sizes := Chains(8, 3, 4, draw, 0);
      if draw(0) == 3 {
        assert sizes[1] == 2;
      } else {
        assert sizes == [4] + Chains(4, 3, 4, draw, 1);
      }
    }
  }
}

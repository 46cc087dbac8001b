/**
 * Streaming percentiles over frequency counters (src/riskloom/features/reporting.py)
 * and their direct form over a list (src/riskloom/simulation/reporting.py).
 */
module NearestRank {
  import opened Common
  import opened Sorting

  type Counter = map<int, nat>

  // ----- counting below a value

  function Below(values: seq<int>, x: int): (n: nat)
    ensures n <= |values|
  {
    if values == [] then 0 else Below(values[1..], x) + if values[0] < x then 1 else 0
  }

  function AtMost(values: seq<int>, x: int): (n: nat)
    ensures n <= |values|
  {
    if values == [] then 0 else AtMost(values[1..], x) + if values[0] <= x then 1 else 0
  }

  lemma {:induction false} AtMostIsBelowAndEqual(values: seq<int>, x: int)
    ensures AtMost(values, x) == Below(values, x) + Times(values, x)
  {
    if values != [] {
      AtMostIsBelowAndEqual(values[1..], x);
      assert values == [values[0]] + values[1..];
    }
  }

  lemma {:induction false} NothingBetween(values: seq<int>, a: int, b: int)
    requires a < b && forall v :: v in values ==> v <= a || b <= v
    ensures AtMost(values, a) == Below(values, b)
  {
    if values != [] {
      assert values[0] in values && forall v :: v in values[1..] ==> v in values;
      NothingBetween(values[1..], a, b);
    }
  }

  lemma {:induction false} NothingBelow(values: seq<int>, x: int)
    requires forall v :: v in values ==> x <= v
    ensures Below(values, x) == 0
  {
    if values != [] {
      assert values[0] in values && forall v :: v in values[1..] ==> v in values;
      NothingBelow(values[1..], x);
    }
  }

  lemma {:induction false} NothingAbove(values: seq<int>, x: int)
    requires forall v :: v in values ==> v <= x
    ensures AtMost(values, x) == |values|
  {
    if values != [] {
      assert values[0] in values && forall v :: v in values[1..] ==> v in values;
      NothingAbove(values[1..], x);
    }
  }

  // ----- sorted lists

  ghost predicate Ascending(s: seq<int>) {
    forall i, j :: 0 <= i < j < |s| ==> s[i] <= s[j]
  }

  ghost predicate StrictlyAscending(s: seq<int>) {
    forall i, j :: 0 <= i < j < |s| ==> s[i] < s[j]
  }

  predicate Upto(a: int, b: int) {
    a <= b
  }

  predicate Less(a: int, b: int) {
    a < b
  }

  function Sorted(values: seq<int>): (out: seq<int>)
    ensures Ascending(out) && multiset(out) == multiset(values) && |out| == |values|
  {
    SortBy(Upto, values)
  }

  lemma {:induction false} InsertCounts(s: seq<int>, v: int, x: int)
    requires SortedBy(Upto, s)
    ensures Below(InsertBy(Upto, s, v), x) == Below(s, x) + if v < x then 1 else 0
    ensures AtMost(InsertBy(Upto, s, v), x) == AtMost(s, x) + if v <= x then 1 else 0
  {
    if s == [] || v < s[0] {
      assert ([v] + s)[1..] == s && (s == [] ==> [v] == [v] + s);
    } else {
      InsertCounts(s[1..], v, x);
      assert ([s[0]] + InsertBy(Upto, s[1..], v))[1..] == InsertBy(Upto, s[1..], v);
    }
  }

  lemma {:induction false} CountsSnoc(values: seq<int>, v: int, x: int)
    ensures Below(values + [v], x) == Below(values, x) + if v < x then 1 else 0
    ensures AtMost(values + [v], x) == AtMost(values, x) + if v <= x then 1 else 0
  {
    if values == [] {
      assert [v][1..] == [] && [] + [v] == [v];
    } else {
      CountsSnoc(values[1..], v, x);
      assert (values + [v])[1..] == values[1..] + [v];
    }
  }

  /** Sorting changes no count. */
  lemma {:induction false} SortedCounts(values: seq<int>, x: int)
    ensures Below(Sorted(values), x) == Below(values, x) && AtMost(Sorted(values), x) == AtMost(values, x)
  {
    if values != [] {
      hide Below, AtMost, SortBy, InsertBy;
      var front, last := values[..|values| - 1], values[|values| - 1];
      assert values == front + [last];
      SortedCounts(front, x);
      SortSnoc(Upto, front, last);
      InsertCounts(Sorted(front), last, x);
      CountsSnoc(front, last, x);
    }
  }

  lemma {:induction false} BelowPrefix(s: seq<int>, x: int, k: nat)
    requires Ascending(s) && k < |s|
    ensures s[k] < x ==> Below(s, x) >= k + 1
    ensures s[k] > x ==> AtMost(s, x) <= k
  {
    if k > 0 {
      BelowPrefix(s[1..], x, k - 1);
      assert s[1..][k - 1] == s[k];
    } else if s[0] > x {
      NoneAtMost(s, x);
    }
  }

  lemma {:induction false} NoneAtMost(s: seq<int>, x: int)
    requires forall i :: 0 <= i < |s| ==> s[i] > x
    ensures AtMost(s, x) == 0
  {
    if s != [] {
      NoneAtMost(s[1..], x);
    }
  }

  /** The value at a rank is the one whose equal run covers that rank. */
  lemma RankIs(values: seq<int>, x: int, rank: nat)
    requires 1 <= rank && Below(values, x) < rank <= AtMost(values, x)
    ensures rank <= |values| && Sorted(values)[rank - 1] == x
  {
    SortedCounts(values, x);
    BelowPrefix(Sorted(values), x, rank - 1);
  }

  /** And conversely: fewer than `rank` values lie below the sorted list's element, and at least `rank` at or below. */
  lemma RankCounts(values: seq<int>, rank: nat)
    requires 1 <= rank <= |values|
    ensures Below(values, Sorted(values)[rank - 1]) < rank <= AtMost(values, Sorted(values)[rank - 1])
  {
    hide Sorted, Below, AtMost;
    var x := Sorted(values)[rank - 1];
    SortedCounts(values, x);
    EqualRun(Sorted(values), rank - 1);
  }

  lemma {:induction false} EqualRun(s: seq<int>, k: nat)
    requires Ascending(s) && k < |s|
    ensures Below(s, s[k]) <= k < AtMost(s, s[k])
  {
    if k > 0 {
      EqualRun(s[1..], k - 1);
      assert s[1..][k - 1] == s[k];
    } else {
      assert forall v :: v in s ==> s[0] <= v;
      NothingBelow(s, s[0]);
    }
  }

  // ----- the nearest rank

  function Rank(percentile: nat, count: nat): nat {
    Max((percentile * count + 99) / 100, 1)
  }

  lemma RankInRange(percentile: nat, count: nat)
    requires count > 0
    ensures Rank(percentile, count) >= 1
    ensures percentile <= 100 ==> Rank(percentile, count) <= count
  {
    if percentile <= 100 {
      assert percentile * count <= 100 * count;
    }
  }

  /** The rank is the least one that covers the percentile. */
  lemma RankIsLeast(percentile: nat, count: nat)
    ensures var rank := Rank(percentile, count);
            && rank >= 1 && 100 * rank >= percentile * count && (rank == 1 || 100 * (rank - 1) < percentile * count)
  {
    var product := percentile * count;
    assert product + 99 == 100 * ((product + 99) / 100) + (product + 99) % 100;
  }

  lemma {:induction false} CountsAreSets(values: seq<int>, x: int)
    ensures Below(values, x) == |set i: nat | i < |values| && values[i] < x|
    ensures AtMost(values, x) == |set i: nat | i < |values| && values[i] <= x|
  {
    if values != [] {
      var n := |values| - 1;
      CountsAreSets(values[..n], x);
      CountsSnoc(values[..n], values[n], x);
      assert values == values[..n] + [values[n]];
      var below, most := set i: nat | i < n && values[..n][i] < x, set i: nat | i < n && values[..n][i] <= x;
      assert (set i: nat | i < |values| && values[i] < x) == if values[n] < x then below + {n} else below;
      assert (set i: nat | i < |values| && values[i] <= x) == if values[n] <= x then most + {n} else most;
    }
  }

  /** At least that percentage of the values is at or below a percentile, and less is below it, unless it is the least value. */
  lemma PercentileMeans(values: seq<int>, percentile: nat, v: int)
    requires HasRank(values, percentile, v)
    ensures v in values
    ensures 100 * |set i: nat | i < |values| && values[i] <= v| >= percentile * |values|
    ensures var below := set i: nat | i < |values| && values[i] < v;
            below == {} || 100 * |below| < percentile * |values|
  {
    var rank := Rank(percentile, |values|);
    RankIsLeast(percentile, |values|);
    RankCounts(values, rank);
    CountsAreSets(values, v);
    assert v in Sorted(values) && v in multiset(Sorted(values));
    hide Sorted, Below, AtMost, Rank;
  }

  /** The direct form: index into the sorted list, out of range exactly for ranks beyond it. */
  method NearestRankOfList(values: seq<int>, percentile: nat) returns (r: Result<int, ReportError>)
    ensures values == [] ==> r == Ok(0)
    ensures values != [] ==> (r.Ok? <==> Rank(percentile, |values|) <= |values|)
    ensures values != [] && r.Ok? ==> r.value == Sorted(values)[Rank(percentile, |values|) - 1]
    ensures percentile <= 100 ==> r.Ok?
  {
    hide Sorted;
    if values == [] {
      return Ok(0);
    }
    RankInRange(percentile, |values|);
    var ordered, rank := Sorted(values), Rank(percentile, |values|);
    if rank > |ordered| {
      return Err(RankOutOfRange);
    }
    return Ok(ordered[rank - 1]);
  }

  /** The counter holds exactly the frequencies of the values. */
  ghost predicate Tallies(frequencies: Counter, values: seq<int>) {
    && (forall v :: v in frequencies <==> v in values)
    && (forall v :: v in frequencies ==> frequencies[v] == Times(values, v))
  }

  method SortedKeys(keys: set<int>) returns (ordered: seq<int>)
    ensures StrictlyAscending(ordered) && forall v :: v in ordered <==> v in keys
  {
    ordered := [];
    var left := keys;
    while left != {}
      invariant left <= keys && StrictlyAscending(ordered)
      invariant forall v :: v in ordered <==> v in keys - left
      decreases left
    {
      var v := PickFrom(left);
      ordered := InsertBy(Less, ordered, v);
      left := left - {v};
    }
  }

  datatype ReportError = Unreachable | EmptyStatistics | RankOutOfRange

  /** Every key is on one side of a key and its successor. */
  lemma BesideKey(ordered: seq<int>, i: nat, v: int)
    requires StrictlyAscending(ordered) && i < |ordered| && v in ordered
    ensures i == 0 ==> ordered[i] <= v
    ensures if i + 1 < |ordered| then v <= ordered[i] || ordered[i + 1] <= v else v <= ordered[i]
  {
    var j :| 0 <= j < |ordered| && ordered[j] == v;
  }

  /** One key's run of equal values: what is counted before it, and what with it. */
  lemma RunOfKey(frequencies: Counter, values: seq<int>, ordered: seq<int>, i: nat)
    requires Tallies(frequencies, values) && StrictlyAscending(ordered) && i < |ordered|
    requires forall v :: v in ordered <==> v in frequencies
    ensures ordered[i] in frequencies
    ensures Below(values, ordered[i]) + frequencies[ordered[i]] == AtMost(values, ordered[i])
    ensures i == 0 ==> Below(values, ordered[i]) == 0
    ensures i + 1 < |ordered| ==> AtMost(values, ordered[i]) == Below(values, ordered[i + 1])
    ensures i + 1 == |ordered| ==> AtMost(values, ordered[i]) == |values|
  {
    var x := ordered[i];
    assert x in ordered;
    AtMostIsBelowAndEqual(values, x);
    forall v | v in values
      ensures i == 0 ==> x <= v
      ensures if i + 1 < |ordered| then v <= x || ordered[i + 1] <= v else v <= x
    {
      assert v in ordered;
      BesideKey(ordered, i, v);
    }
    assert i + 1 < |ordered| ==> x < ordered[i + 1];
    hide StrictlyAscending, Below, AtMost, Times;
    if i == 0 {
      NothingBelow(values, x);
    }
    if i + 1 < |ordered| {
      NothingBetween(values, x, ordered[i + 1]);
    } else {
      NothingAbove(values, x);
    }
  }

  /** The streaming form: walk the counter's keys in order until enough values are behind. */
  method NearestRank(frequencies: Counter, percentile: nat, count: nat, ghost values: seq<int>)
    returns (r: Result<int, ReportError>)
    requires Tallies(frequencies, values)
    ensures r.Ok? <==> Rank(percentile, count) <= |values|
    ensures r.Ok? ==> r.value == Sorted(values)[Rank(percentile, count) - 1]
    ensures r.Err? ==> r.error == Unreachable
  {
    hide Tallies, StrictlyAscending, Ascending;
    var target := Rank(percentile, count);
    var ordered := SortedKeys(frequencies.Keys);
    var cumulative := 0;
    StartOfKeys(frequencies, values, ordered);
    for i := 0 to |ordered|
      invariant cumulative < target
      invariant cumulative == if i < |ordered| then Below(values, ordered[i]) else |values|
    {
      RunOfKey(frequencies, values, ordered, i);
      cumulative := cumulative + frequencies[ordered[i]];
      if cumulative >= target {
        RankIs(values, ordered[i], target);
        return Ok(ordered[i]);
      }
    }
    return Err(Unreachable);
  }

  lemma FirstIsCounted(frequencies: Counter, values: seq<int>)
    requires Tallies(frequencies, values) && values != []
    ensures values[0] in frequencies
  {
    var v := values[0];
    assert v in values;
    assert v in frequencies;
  }

  lemma KeysCover(frequencies: Counter, values: seq<int>, ordered: seq<int>)
    requires Tallies(frequencies, values) && values != []
    requires forall v :: v in ordered <==> v in frequencies
    ensures ordered != []
  {
    FirstIsCounted(frequencies, values);
    var v := values[0];
    assert v in ordered;
  }

  lemma StartOfKeys(frequencies: Counter, values: seq<int>, ordered: seq<int>)
    requires Tallies(frequencies, values) && StrictlyAscending(ordered)
    requires forall v :: v in ordered <==> v in frequencies
    ensures 0 == if ordered != [] then Below(values, ordered[0]) else |values|
  {
    if values != [] {
      KeysCover(frequencies, values, ordered);
    }
    if ordered != [] {
      RunOfKey(frequencies, values, ordered, 0);
    }
  }

  /** The first and last keys are the least and the greatest value, and a missing key counts zero. */
  lemma Extremes(frequencies: Counter, values: seq<int>, ordered: seq<int>)
    requires Tallies(frequencies, values) && StrictlyAscending(ordered) && ordered != []
    requires forall v :: v in ordered <==> v in frequencies
    ensures ordered[0] in values && ordered[|ordered| - 1] in values
    ensures forall v :: v in values ==> ordered[0] <= v <= ordered[|ordered| - 1]
    ensures Times(values, 0) == if 0 in frequencies then frequencies[0] else 0
  {
    assert ordered[0] in ordered && ordered[|ordered| - 1] in ordered;
    forall v | v in values
      ensures ordered[0] <= v <= ordered[|ordered| - 1]
    {
      assert v in ordered;
    }
  }

  // ----- the streaming statistics

  type Row = map<string, int>

  datatype Distribution = Distribution(max: int, min: int, p50: int, p95: int, p99: int, zeroCount: nat)

  ghost predicate Named(rows: seq<Row>, name: string) {
    forall i :: 0 <= i < |rows| ==> name in rows[i]
  }

  ghost function Column(rows: seq<Row>, name: string): (values: seq<int>)
    requires Named(rows, name)
    ensures |values| == |rows| && forall i :: 0 <= i < |rows| ==> values[i] == rows[i][name]
  {
    seq(|rows|, i requires 0 <= i < |rows| => rows[i][name])
  }

  function Counted(frequencies: Counter, v: int): Counter {
    frequencies[v := (if v in frequencies then frequencies[v] else 0) + 1]
  }

  lemma CountedTallies(frequencies: Counter, values: seq<int>, v: int)
    requires Tallies(frequencies, values)
    ensures Tallies(Counted(frequencies, v), values + [v])
  {
    assert forall x :: x in values ==> Times(values, x) > 0;
  }

  /** The report on one column says what the plain list of its values says. */
  ghost predicate Describes(d: Distribution, values: seq<int>) {
    && d.max in values && (forall v :: v in values ==> v <= d.max)
    && d.min in values && (forall v :: v in values ==> d.min <= v)
    && HasRank(values, 50, d.p50) && HasRank(values, 95, d.p95) && HasRank(values, 99, d.p99)
    && d.zeroCount == Times(values, 0)
  }

  /** The value at the percentile's nearest rank in the sorted list of all values. */
  ghost predicate HasRank(values: seq<int>, percentile: nat, v: int) {
    var rank := Rank(percentile, |values|);
    1 <= rank <= |values| && Sorted(values)[rank - 1] == v
  }

  ghost predicate Reported(result: map<string, Distribution>, rows: seq<Row>, name: string) {
    rows != [] && name in result && Named(rows, name) && Describes(result[name], Column(rows, name))
  }

  lemma ReportedMore(result: map<string, Distribution>, rows: seq<Row>, names: seq<string>, i: nat, d: Distribution)
    requires i < |names| && forall j :: 0 <= j < i ==> names[j] != names[i] && Reported(result, rows, names[j])
    requires rows != [] && Named(rows, names[i]) && Describes(d, Column(rows, names[i]))
    ensures forall j :: 0 <= j <= i ==> Reported(result[names[i] := d], rows, names[j])
  {
    hide Describes, Named;
  }

  class FeatureStatistics {
    const names: seq<string>
    var frequencies: map<string, Counter>
    var rowCount: nat
    ghost var rows: seq<Row>

    ghost predicate Valid()
      reads this
    {
      && (forall i, j :: 0 <= i < j < |names| ==> names[i] != names[j])
      && rowCount == |rows|
      && forall i :: 0 <= i < |names| ==>
           names[i] in frequencies && Named(rows, names[i]) && Tallies(frequencies[names[i]], Column(rows, names[i]))
    }

    constructor (names: seq<string>)
      requires forall i, j :: 0 <= i < j < |names| ==> names[i] != names[j]
      ensures Valid() && rows == [] && this.names == names
    {
      this.names := names;
      frequencies := map name | name in names :: map[];
      rowCount := 0;
      rows := [];
    }

    method Add(row: Row)
      requires Valid() && forall i :: 0 <= i < |names| ==> names[i] in row
      modifies this
      ensures Valid() && rows == old(rows) + [row]
    {
      hide Tallies;
      ghost var more := rows + [row];
      for i := 0 to |names|
        invariant rows == old(rows) && rowCount == old(rowCount)
        invariant forall j :: 0 <= j < |names| ==> names[j] in frequencies && Named(rows, names[j])
        invariant forall j :: 0 <= j < i ==> Named(more, names[j]) && Tallies(frequencies[names[j]], Column(more, names[j]))
        invariant forall j :: i <= j < |names| ==> Tallies(frequencies[names[j]], Column(rows, names[j]))
      {
        var name := names[i];
        CountedTallies(frequencies[name], Column(rows, name), row[name]);
        assert Column(more, name) == Column(rows, name) + [row[name]];
        frequencies := frequencies[name := Counted(frequencies[name], row[name])];
      }
      rowCount := rowCount + 1;
      rows := more;
    }

    /** Every column's figures; the unreachable error never comes up. */
    method Distributions() returns (r: Result<map<string, Distribution>, ReportError>)
      requires Valid()
      ensures if rows == [] then r == Err(EmptyStatistics) else r.Ok?
      ensures r.Ok? ==> forall i :: 0 <= i < |names| ==> Reported(r.value, rows, names[i])
    {
      if rowCount == 0 {
        return Err(EmptyStatistics);
      }
      hide Tallies, Describes, Named, Column;
      var result: map<string, Distribution> := map[];
      for i := 0 to |names|
        invariant forall j :: 0 <= j < i ==> Reported(result, rows, names[j])
      {
        var d := Describe(frequencies[names[i]], rowCount, Column(rows, names[i]));
        if d.Err? {
          return Err(Unreachable);
        }
        ReportedMore(result, rows, names, i, d.value);
        result := result[names[i] := d.value];
      }
      return Ok(result);
    }
  }

  /** The figures of one column. */
  method Describe(frequencies: Counter, count: nat, ghost values: seq<int>) returns (r: Result<Distribution, ReportError>)
    requires Tallies(frequencies, values) && count == |values| > 0
    ensures r.Ok? && Describes(r.value, values)
  {
    hide Tallies, StrictlyAscending, Sorted, Rank, Times;
    var ordered := SortedKeys(frequencies.Keys);
    KeysCover(frequencies, values, ordered);
    Extremes(frequencies, values, ordered);
    var least, most := ordered[0], ordered[|ordered| - 1];
    RankInRange(50, count);
    RankInRange(95, count);
    RankInRange(99, count);
    var p50 := NearestRank(frequencies, 50, count, values);
    var p95 := NearestRank(frequencies, 95, count, values);
    var p99 := NearestRank(frequencies, 99, count, values);
    if p50.Err? || p95.Err? || p99.Err? {
      return Err(Unreachable);
    }
    var zeros := if 0 in frequencies then frequencies[0] else 0;
    return Ok(Distribution(most, least, p50.value, p95.value, p99.value, zeros));
  }
}

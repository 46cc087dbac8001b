/**
 * The 75-field feature vector and the validator every computed vector must pass
 * (src/riskloom/features/schema.py).  The rolling fields are grouped by family
 * and window instead of being spelled out one by one.
 */
module FeatureSchema {
  import opened Common
  import opened RollingIndexes
  import opened FeatureStates

  type Key = (Family, nat)

  datatype WindowCounts = WindowCounts(attempts: int, failures: int, distinct: map<Relation, int>)

  datatype FeatureVector = FeatureVector(
    amountSubunits: int, utcHour: int, utcDayOfWeek: int,
    channelWeb: int, channelMobileWeb: int, channelMobileApp: int,
    customerMissing: int, deviceMissing: int, networkMissing: int,
    checkoutAttempts: int, checkoutAgeMs: int, checkoutHistoryPresent: int,
    windows: map<Key, WindowCounts>,
    rates: map<Family, int>)

  const FAMILIES: seq<Family> := [Merchant, Device, Network, Instrument, Session]

  function Windows(f: Family): seq<nat> {
    match f
    case Checkout => []
    case Merchant => [60, 300, 3600]
    case Device => [60, 300, 3600]
    case Network => [60, 300, 3600]
    case Instrument => [300, 3600]
    case Session => [60, 300]
  }

  function Relations(f: Family): seq<Relation> {
    match f
    case Checkout => []
    case Merchant => [Instruments, Devices, Networks]
    case Device => [Instruments, Sessions]
    case Network => [Instruments, Devices, Sessions]
    case Instrument => [Devices, Networks, Merchants]
    case Session => [Instruments]
  }

  function Rate(attempts: int, failures: int): int {
    if attempts == 0 then 0 else failures * 10000 / attempts
  }

  // ----- field by field

  ghost predicate Bit(x: int) { 0 <= x <= 1 }

  ghost predicate CountsInRange(c: WindowCounts, f: Family) {
    && 0 <= c.attempts && 0 <= c.failures
    && c.distinct.Keys == (set r | r in Relations(f))
    && forall r :: r in c.distinct ==> 0 <= c.distinct[r]
  }

  /** The declared type of every field. */
  ghost predicate FieldsInRange(v: FeatureVector) {
    && 1 <= v.amountSubunits <= 100_000_000
    && 0 <= v.utcHour <= 23
    && 0 <= v.utcDayOfWeek <= 6
    && Bit(v.channelWeb) && Bit(v.channelMobileWeb) && Bit(v.channelMobileApp)
    && Bit(v.customerMissing) && Bit(v.deviceMissing) && Bit(v.networkMissing)
    && 0 <= v.checkoutAttempts && 0 <= v.checkoutAgeMs < 3_600_000 && Bit(v.checkoutHistoryPresent)
    && WindowsInRange(v)
    && RatesInRange(v)
  }

  ghost predicate WindowsInRange(v: FeatureVector) {
    && v.windows.Keys == (set f, w | f in FAMILIES && w in Windows(f) :: (f, w))
    && forall k :: k in v.windows ==> CountsInRange(v.windows[k], k.0)
  }

  ghost predicate RatesInRange(v: FeatureVector) {
    && v.rates.Keys == (set f | f in FAMILIES)
    && forall f :: f in v.rates ==> 0 <= v.rates[f] <= 10000
  }

  // ----- how the fields fit together

  ghost predicate NoSmaller(narrow: WindowCounts, wide: WindowCounts, f: Family) {
    && narrow.attempts <= wide.attempts
    && narrow.failures <= wide.failures
    && forall r :: r in Relations(f) && r in narrow.distinct && r in wide.distinct ==> narrow.distinct[r] <= wide.distinct[r]
  }

  ghost predicate Bounded(c: WindowCounts, f: Family) {
    && c.failures <= c.attempts
    && forall r :: r in Relations(f) && r in c.distinct ==> c.distinct[r] <= c.attempts
  }

  /** Any wider window of a family counts at least as much as any narrower one. */
  ghost predicate FamilyCoherent(v: FeatureVector, f: Family)
    requires f in FAMILIES && WindowsInRange(v) && RatesInRange(v)
  {
    && (forall w :: w in Windows(f) ==> Bounded(v.windows[(f, w)], f))
    && (forall narrow, wide :: narrow in Windows(f) && wide in Windows(f) && narrow < wide ==>
          NoSmaller(v.windows[(f, narrow)], v.windows[(f, wide)], f))
    && v.rates[f] == Rate(v.windows[(f, 300)].attempts, v.windows[(f, 300)].failures)
  }

  ghost predicate NoHistory(v: FeatureVector, f: Family)
    requires f in FAMILIES && WindowsInRange(v) && RatesInRange(v)
  {
    && v.rates[f] == 0
    && forall w :: w in Windows(f) ==>
         var c := v.windows[(f, w)];
         c.attempts == 0 && c.failures == 0 && forall r :: r in c.distinct ==> c.distinct[r] == 0
  }

  ghost predicate Coherent(v: FeatureVector)
    requires FieldsInRange(v)
  {
    && v.channelWeb + v.channelMobileWeb + v.channelMobileApp == 1
    && (v.checkoutAttempts > 0 <==> v.checkoutHistoryPresent != 0)
    && (v.checkoutAttempts == 0 ==> v.checkoutAgeMs == 0)
    && (forall f :: f in FAMILIES ==> FamilyCoherent(v, f))
    && (v.deviceMissing != 0 ==> NoHistory(v, Device))
    && (v.networkMissing != 0 ==> NoHistory(v, Network))
  }

  // ----- the validator

  method AnyDistinct(c: WindowCounts, f: Family, limit: int) returns (above: bool)
    requires CountsInRange(c, f)
    ensures above <==> exists r :: r in Relations(f) && r in c.distinct && c.distinct[r] > limit
  {
    var relations := Relations(f);
    above := false;
    for i := 0 to |relations|
      invariant above <==> exists k :: 0 <= k < i && c.distinct[relations[k]] > limit
    {
      above := above || c.distinct[relations[i]] > limit;
    }
    if above {
      var k :| 0 <= k < |relations| && c.distinct[relations[k]] > limit;
      assert relations[k] in Relations(f);
    }
  }

  method IsBounded(c: WindowCounts, f: Family) returns (bounded: bool)
    requires CountsInRange(c, f)
    ensures bounded <==> Bounded(c, f)
  {
    if c.failures > c.attempts {
      return false;
    }
    var above := AnyDistinct(c, f, c.attempts);
    return !above;
  }

  method IsSmaller(current: WindowCounts, previous: WindowCounts, f: Family) returns (smaller: bool)
    requires CountsInRange(current, f) && CountsInRange(previous, f)
    ensures smaller <==> !NoSmaller(previous, current, f)
  {
    var relations := Relations(f);
    smaller := current.attempts < previous.attempts || current.failures < previous.failures;
    for i := 0 to |relations|
      invariant smaller <==>
        || current.attempts < previous.attempts || current.failures < previous.failures
        || exists k :: 0 <= k < i && current.distinct[relations[k]] < previous.distinct[relations[k]]
    {
      smaller := smaller || current.distinct[relations[i]] < previous.distinct[relations[i]];
    }
    if k :| 0 <= k < |relations| && current.distinct[relations[k]] < previous.distinct[relations[k]] {
      assert relations[k] in Relations(f);
    }
  }

  lemma NoSmallerChains(a: WindowCounts, b: WindowCounts, c: WindowCounts, f: Family)
    requires CountsInRange(a, f) && CountsInRange(b, f) && CountsInRange(c, f)
    requires NoSmaller(a, b, f) && NoSmaller(b, c, f)
    ensures NoSmaller(a, c, f)
  {
    forall r | r in Relations(f)
      ensures a.distinct[r] <= c.distinct[r]
    {
      assert r in b.distinct;
    }
  }

  lemma WindowsAscend(f: Family)
    ensures forall i, j :: 0 <= i < j < |Windows(f)| ==> Windows(f)[i] < Windows(f)[j]
    ensures f in FAMILIES ==> 300 in Windows(f)
  {
  }

  /** The counts of a family, narrowest window first. */
  function InOrder(v: FeatureVector, f: Family): (counts: seq<WindowCounts>)
    requires FieldsInRange(v) && f in FAMILIES
    ensures |counts| == |Windows(f)|
    ensures forall i :: 0 <= i < |counts| ==> CountsInRange(counts[i], f)
  {
    seq(|Windows(f)|, i requires 0 <= i < |Windows(f)| => CountsAt(v, f, i))
  }

  function CountsAt(v: FeatureVector, f: Family, i: nat): (c: WindowCounts)
    requires FieldsInRange(v) && f in FAMILIES && i < |Windows(f)|
    ensures CountsInRange(c, f)
  {
    assert Windows(f)[i] in Windows(f);
    v.windows[(f, Windows(f)[i])]
  }

  ghost predicate Chain(counts: seq<WindowCounts>, f: Family, i: nat) {
    && i <= |counts|
    && (forall k :: 0 <= k < i ==> Bounded(counts[k], f))
    && (forall k, l :: 0 <= k < l < i ==> NoSmaller(counts[k], counts[l], f))
  }

  lemma ChainIsAllPairs(windows: seq<nat>, all: map<Key, WindowCounts>, f: Family, counts: seq<WindowCounts>)
    requires forall i, j :: 0 <= i < j < |windows| ==> windows[i] < windows[j]
    requires |counts| == |windows|
    requires forall i :: 0 <= i < |windows| ==> (f, windows[i]) in all && counts[i] == all[(f, windows[i])]
    ensures forall w :: w in windows ==> (f, w) in all
    ensures Chain(counts, f, |counts|) <==>
              && (forall w :: w in windows ==> Bounded(all[(f, w)], f))
              && (forall narrow, wide :: narrow in windows && wide in windows && narrow < wide ==>
                    NoSmaller(all[(f, narrow)], all[(f, wide)], f))
  {
    hide Bounded, NoSmaller;
    assert forall i :: 0 <= i < |windows| ==> windows[i] in windows;
    if Chain(counts, f, |counts|) {
      forall narrow, wide | narrow in windows && wide in windows && narrow < wide
        ensures NoSmaller(all[(f, narrow)], all[(f, wide)], f)
      {
        ChainPair(windows, f, counts, narrow, wide);
      }
      assert forall w :: w in windows ==> Bounded(all[(f, w)], f);
    }
  }

  lemma ChainPair(windows: seq<nat>, f: Family, counts: seq<WindowCounts>, narrow: nat, wide: nat)
    requires forall i, j :: 0 <= i < j < |windows| ==> windows[i] < windows[j]
    requires |counts| == |windows| && Chain(counts, f, |counts|)
    requires narrow in windows && wide in windows && narrow < wide
    ensures exists i, j :: 0 <= i < |windows| && 0 <= j < |windows| && windows[i] == narrow && windows[j] == wide && NoSmaller(counts[i], counts[j], f)
  {
    hide Bounded, NoSmaller;
    var i :| 0 <= i < |windows| && windows[i] == narrow;
    var j :| 0 <= j < |windows| && windows[j] == wide;
    assert i < j;
  }

  lemma CoherentIsChain(v: FeatureVector, f: Family)
    requires FieldsInRange(v) && f in FAMILIES
    ensures FamilyCoherent(v, f) <==>
              && Chain(InOrder(v, f), f, |Windows(f)|)
              && v.rates[f] == Rate(v.windows[(f, 300)].attempts, v.windows[(f, 300)].failures)
  {
    hide Bounded, NoSmaller, CountsInRange, Chain;
    WindowsAscend(f);
    AllCounted(v, f);
    ChainIsAllPairs(Windows(f), v.windows, f, InOrder(v, f));
  }

  lemma AllCounted(v: FeatureVector, f: Family)
    requires FieldsInRange(v) && f in FAMILIES
    ensures forall i :: 0 <= i < |Windows(f)| ==> (f, Windows(f)[i]) in v.windows && InOrder(v, f)[i] == v.windows[(f, Windows(f)[i])]
  {
    hide Windows, CountsInRange;
    var windows := Windows(f);
    assert forall i :: 0 <= i < |windows| ==> windows[i] in windows;
  }

  /** Comparing with the previous window is comparing with all narrower ones. */
  lemma ChainExtends(counts: seq<WindowCounts>, f: Family, i: nat)
    requires i < |counts| && Chain(counts, f, i)
    requires forall k :: 0 <= k < |counts| ==> CountsInRange(counts[k], f)
    ensures Chain(counts, f, i + 1) <==> Bounded(counts[i], f) && (i > 0 ==> NoSmaller(counts[i - 1], counts[i], f))
  {
    hide Bounded, NoSmaller, CountsInRange;
    if i > 0 && NoSmaller(counts[i - 1], counts[i], f) {
      forall k | 0 <= k < i - 1
        ensures NoSmaller(counts[k], counts[i], f)
      {
        NoSmallerChains(counts[k], counts[i - 1], counts[i], f);
      }
    }
  }

  lemma ChainPrefix(counts: seq<WindowCounts>, f: Family, i: nat, n: nat)
    requires i <= n && Chain(counts, f, n)
    ensures Chain(counts, f, i)
  {
    hide Bounded, NoSmaller;
  }

  /** One family: each window compared with the one before it only. */
  method ValidateFamily(v: FeatureVector, f: Family) returns (ok: bool)
    requires FieldsInRange(v) && f in FAMILIES
    ensures ok <==> FamilyCoherent(v, f)
  {
    CoherentIsChain(v, f);
    WindowsAscend(f);
    var counts := InOrder(v, f);
    assert (f, 300) in v.windows;
    hide Bounded, NoSmaller, CountsInRange, FieldsInRange, FamilyCoherent;
    ok := ValidateChain(counts, f);
    if !ok {
      return false;
    }
    var middle := v.windows[(f, 300)];
    return v.rates[f] == (if middle.attempts != 0 then middle.failures * 10000 / middle.attempts else 0);
  }

  method ValidateChain(counts: seq<WindowCounts>, f: Family) returns (ok: bool)
    requires forall i :: 0 <= i < |counts| ==> CountsInRange(counts[i], f)
    ensures ok <==> Chain(counts, f, |counts|)
  {
    hide Bounded, NoSmaller, CountsInRange, Chain;
    var previous: Option<WindowCounts> := None;
    assert Chain(counts, f, 0) by { EmptyChain(counts, f); }
    for i := 0 to |counts|
      invariant previous == if i == 0 then None else Some(counts[i - 1])
      invariant Chain(counts, f, i)
    {
      var current := counts[i];
      ChainExtends(counts, f, i);
      var bounded := IsBounded(current, f);
      var smaller := false;
      if previous.Some? {
        smaller := IsSmaller(current, previous.value, f);
      }
      if !bounded || smaller {
        if Chain(counts, f, |counts|) {
          ChainPrefix(counts, f, i + 1, |counts|);
        }
        return false;
      }
      previous := Some(current);
    }
    return true;
  }

  lemma EmptyChain(counts: seq<WindowCounts>, f: Family)
    ensures Chain(counts, f, 0)
  {
  }

  /** The first windows of the family hold nothing. */
  ghost predicate ZeroUpTo(v: FeatureVector, f: Family, i: nat)
    requires FieldsInRange(v) && f in FAMILIES && i <= |Windows(f)|
  {
    forall k :: 0 <= k < i ==> Zero(v.windows[(f, Windows(f)[k])])
  }

  lemma NoneZero(v: FeatureVector, f: Family)
    requires FieldsInRange(v) && f in FAMILIES
    ensures ZeroUpTo(v, f, 0)
  {
  }

  lemma NextZero(v: FeatureVector, f: Family, i: nat)
    requires FieldsInRange(v) && f in FAMILIES && i < |Windows(f)|
    ensures (f, Windows(f)[i]) in v.windows && CountsInRange(v.windows[(f, Windows(f)[i])], f)
    ensures ZeroUpTo(v, f, i + 1) <==> ZeroUpTo(v, f, i) && Zero(v.windows[(f, Windows(f)[i])])
  {
    assert Windows(f)[i] in Windows(f);
  }

  method AnyHistory(v: FeatureVector, f: Family) returns (any: bool)
    requires FieldsInRange(v) && f in FAMILIES
    ensures any <==> !NoHistory(v, f)
  {
    ZeroWindows(v, f);
    hide Zero, NoHistory, CountsInRange, ZeroUpTo, Windows;
    var windows := Windows(f);
    any := v.rates[f] != 0;
    NoneZero(v, f);
    for i := 0 to |windows|
      invariant any <==> v.rates[f] != 0 || !ZeroUpTo(v, f, i)
    {
      NextZero(v, f, i);
      var history := HasHistory(v.windows[(f, windows[i])], f);
      any := any || history;
    }
  }

  method HasHistory(c: WindowCounts, f: Family) returns (any: bool)
    requires CountsInRange(c, f)
    ensures any <==> !Zero(c)
  {
    var some := AnyDistinct(c, f, 0);
    any := c.attempts != 0 || c.failures != 0 || some;
  }

  lemma ZeroWindows(v: FeatureVector, f: Family)
    requires FieldsInRange(v) && f in FAMILIES
    ensures NoHistory(v, f) <==> v.rates[f] == 0 && ZeroUpTo(v, f, |Windows(f)|)
  {
    assert forall w :: w in Windows(f) ==> exists k :: 0 <= k < |Windows(f)| && Windows(f)[k] == w;
    assert forall k :: 0 <= k < |Windows(f)| ==> Windows(f)[k] in Windows(f);
  }

  ghost predicate Zero(c: WindowCounts) {
    c.attempts == 0 && c.failures == 0 && forall r :: r in c.distinct ==> c.distinct[r] == 0
  }

  method ValidateCoherentIndicators(v: FeatureVector) returns (ok: bool)
    requires FieldsInRange(v)
    ensures ok <==> Coherent(v)
  {
    hide FamilyCoherent;
    hide NoHistory;
    hide WindowsInRange;
    hide RatesInRange;
    if v.channelWeb + v.channelMobileWeb + v.channelMobileApp != 1 {
      return false;
    }
    var hasHistory := v.checkoutAttempts > 0;
    if hasHistory != (v.checkoutHistoryPresent != 0) {
      return false;
    }
    if !hasHistory && v.checkoutAgeMs != 0 {
      return false;
    }
    for i := 0 to |FAMILIES|
      invariant forall k :: 0 <= k < i ==> FamilyCoherent(v, FAMILIES[k])
    {
      var coherent := ValidateFamily(v, FAMILIES[i]);
      if !coherent {
        return false;
      }
    }
    var deviceHistory := AnyHistory(v, Device);
    if v.deviceMissing != 0 && deviceHistory {
      return false;
    }
    var networkHistory := AnyHistory(v, Network);
    if v.networkMissing != 0 && networkHistory {
      return false;
    }
    return true;
  }
}

/** The compute-before-update feature engine (src/riskloom/features/engine.py). */
module FeatureEngines {
  import opened Common
  import opened RollingIndexes
  import opened FeatureStates
  import opened FeatureScan
  import opened FeatureSchema

  datatype EngineError = NotStrictlyMonotonic | VectorInvalid | Faulted

  /** Where `Process` may be interrupted. */
  datatype ProcessFault = NoProcessFault | InComputation | InObservation(fault: Fault)

  predicate Interrupts(fault: ProcessFault) {
    match fault
    case NoProcessFault => false
    case InComputation => true
    case InObservation(f) => Fires(f)
  }

  /** The position of "family_seconds" in the index table. */
  function IndexOf(f: Family, seconds: nat): (i: nat)
    requires f in FAMILIES && seconds in FeatureSchema.Windows(f)
    ensures i < COUNT && SPECIFICATIONS[i] == IndexSpec(f, seconds, Relations(f))
  {
    match f
    case Merchant => if seconds == 60 then 1 else if seconds == 300 then 2 else 3
    case Device => if seconds == 60 then 4 else if seconds == 300 then 5 else 6
    case Network => if seconds == 60 then 7 else if seconds == 300 then 8 else 9
    case Instrument => if seconds == 300 then 10 else 11
    case Session => if seconds == 60 then 12 else 13
  }

  // ----- the vector as a scan of the history

  function CountsFrom(s: Snapshot, f: Family): WindowCounts {
    WindowCounts(s.attempts, s.failures, map r | r in Relations(f) :: if r in s.distinct then s.distinct[r] else 0)
  }

  ghost function SnapOf(f: Family, seconds: nat, history: seq<Event>, e: Event): Snapshot {
    Snap(IndexSpec(f, seconds, Relations(f)), history, e)
  }

  function Flag(b: bool): int {
    if b then 1 else 0
  }

  /** Every field of the vector, each read off a scan of the events before `e`. */
  ghost function VectorOf(history: seq<Event>, e: Event): FeatureVector {
    var checkout := SnapOf(Checkout, 3600, history, e);
    FeatureVector(
      e.amountSubunits,
      e.occurredAt / 3_600_000 % 24,
      (e.occurredAt / 86_400_000 + 3) % 7,
      Flag(e.channel.Web?), Flag(e.channel.MobileWeb?), Flag(e.channel.MobileApp?),
      Flag(e.customer.None?), Flag(e.device.None?), Flag(e.network.None?),
      checkout.attempts,
      if checkout.last.Some? then e.occurredAt - checkout.last.value else 0,
      Flag(checkout.attempts > 0),
      map f, w | f in FAMILIES && w in FeatureSchema.Windows(f) :: (f, w) := CountsFrom(SnapOf(f, w, history, e), f),
      map f | f in FAMILIES :: Rate(SnapOf(f, 300, history, e).attempts, SnapOf(f, 300, history, e).failures))
  }

  /** The first Monday of the epoch, 1970-01-05, in milliseconds. */
  const FIRST_MONDAY := 4 * 86_400_000

  /** A time that many weeks, days and hours after a Monday's midnight has that weekday and that hour. */
  lemma CalendarFields(history: seq<Event>, e: Event, weeks: int, day: nat, hour: nat, ms: nat)
    requires day < 7 && hour < 24 && ms < 3_600_000
    requires e.occurredAt == FIRST_MONDAY + ((weeks * 7 + day) * 24 + hour) * 3_600_000 + ms
    ensures VectorOf(history, e).utcDayOfWeek == day && VectorOf(history, e).utcHour == hour
  {
    hide SnapOf;
    WeekdayAndHour(e.occurredAt, weeks, day, hour, ms);
  }

  lemma WeekdayAndHour(t: int, weeks: int, day: nat, hour: nat, ms: nat)
    requires day < 7 && hour < 24 && ms < 3_600_000
    requires t == FIRST_MONDAY + ((weeks * 7 + day) * 24 + hour) * 3_600_000 + ms
    ensures t / 3_600_000 % 24 == hour && (t / 86_400_000 + 3) % 7 == day
  {
    var days := weeks * 7 + day + 4;
    assert t / 3_600_000 == days * 24 + hour;
    assert t / 86_400_000 == days;
    assert days + 3 == (weeks + 1) * 7 + day;
  }

  /** The bounds the event schema puts on an event. */
  predicate WellFormedEvent(e: Event) {
    1 <= e.amountSubunits <= 100_000_000
  }

  // ----- every computed vector passes the validator

  lemma SnapShape(f: Family, w: nat, history: seq<Event>, e: Event)
    ensures var s := SnapOf(f, w, history, e);
            && (s == EMPTY_SNAPSHOT || s.distinct.Keys == set r | r in Relations(f))
            && CountsFrom(s, f).distinct.Keys == (set r | r in Relations(f))
            && (forall r :: r in Relations(f) ==> CountsFrom(s, f).distinct[r] >= 0)
  {
  }

  lemma SnapBounded(f: Family, w: nat, history: seq<Event>, e: Event)
    ensures Bounded(CountsFrom(SnapOf(f, w, history, e), f), f)
  {
    var entries := Retained(IndexSpec(f, w, Relations(f)), e.occurredAt, history);
    if PrimaryOf(f, e).Some? {
      var t := PrimaryOf(f, e).value;
      TallyAtMostAttempts(Failure, t, entries);
      forall r
        ensures |DistinctTokens(r, t, entries)| <= Tally(Attempt, t, entries)
      {
        DistinctAtMostAttempts(r, t, entries);
      }
    }
  }

  lemma DistinctTokensGrow(r: Relation, t: Token, a: seq<Entry>, b: seq<Entry>)
    requires forall x :: x in a ==> x in b
    ensures |DistinctTokens(r, t, a)| <= |DistinctTokens(r, t, b)|
  {
    forall x | x in DistinctTokens(r, t, a)
      ensures x in DistinctTokens(r, t, b)
    {
      var i :| 0 <= i < |a| && a[i].primary == t && r in a[i].relations && a[i].relations[r] == Some(x);
      assert a[i] in b;
    }
    SubsetSize(DistinctTokens(r, t, a), DistinctTokens(r, t, b));
  }

  lemma SnapGrows(f: Family, narrow: nat, wide: nat, history: seq<Event>, e: Event)
    requires narrow <= wide
    ensures NoSmaller(CountsFrom(SnapOf(f, narrow, history, e), f), CountsFrom(SnapOf(f, wide, history, e), f), f)
  {
    if PrimaryOf(f, e).Some? {
      var t := PrimaryOf(f, e).value;
      var s, l := IndexSpec(f, narrow, Relations(f)), IndexSpec(f, wide, Relations(f));
      var a, b := Retained(s, e.occurredAt, history), Retained(l, e.occurredAt, history);
      WiderCountsMore(Attempt, t, s, l, e.occurredAt, history);
      WiderCountsMore(Failure, t, s, l, e.occurredAt, history);
      LastOfSome(t, a);
      LastOfSome(t, b);
      forall r
        ensures |DistinctTokens(r, t, a)| <= |DistinctTokens(r, t, b)|
      {
        DistinctTokensGrow(r, t, a, b);
      }
    }
  }

  lemma CheckoutAge(history: seq<Event>, e: Event)
    ensures var s := SnapOf(Checkout, 3600, history, e);
            && (s.last.Some? <==> s.attempts > 0)
            && (s.last.Some? ==> 0 <= e.occurredAt - s.last.value < 3_600_000)
  {
    var spec := IndexSpec(Checkout, 3600, Relations(Checkout));
    var entries := Retained(spec, e.occurredAt, history);
    LastOfSome(e.checkout, entries);
    if LastOf(e.checkout, entries).Some? {
      var i :| 0 <= i < |entries| && entries[i].primary == e.checkout && entries[i].occurredAt == LastOf(e.checkout, entries).value;
      RetainedFrom(spec, e.occurredAt, history, entries[i]);
    }
  }

  lemma RateInRange(attempts: int, failures: int)
    requires 0 <= failures <= attempts
    ensures 0 <= Rate(attempts, failures) <= 10000
  {
  }

  lemma VectorFamilyCoherent(history: seq<Event>, e: Event, f: Family)
    requires f in FAMILIES && FieldsInRange(VectorOf(history, e))
    ensures FamilyCoherent(VectorOf(history, e), f)
  {
    hide Bounded;
    hide NoSmaller;
    hide SnapOf;
    WindowsAscend(f);
    forall w | w in FeatureSchema.Windows(f)
      ensures Bounded(VectorOf(history, e).windows[(f, w)], f)
    {
      SnapBounded(f, w, history, e);
    }
    forall narrow, wide | narrow in FeatureSchema.Windows(f) && wide in FeatureSchema.Windows(f) && narrow < wide
      ensures NoSmaller(VectorOf(history, e).windows[(f, narrow)], VectorOf(history, e).windows[(f, wide)], f)
    {
      SnapGrows(f, narrow, wide, history, e);
    }
  }

  lemma VectorInRange(history: seq<Event>, e: Event)
    requires WellFormedEvent(e)
    ensures FieldsInRange(VectorOf(history, e))
  {
    hide SnapOf;
    var v := VectorOf(history, e);
    CheckoutAge(history, e);
    forall k | k in v.windows
      ensures CountsInRange(v.windows[k], k.0)
    {
      SnapShape(k.0, k.1, history, e);
    }
    forall f | f in v.rates
      ensures 0 <= v.rates[f] <= 10000
    {
      SnapBounded(f, 300, history, e);
      RateInRange(SnapOf(f, 300, history, e).attempts, SnapOf(f, 300, history, e).failures);
    }
  }

  /** Whatever the history, the computed vector satisfies the whole validator. */
  lemma VectorIsCoherent(history: seq<Event>, e: Event)
    requires WellFormedEvent(e)
    ensures FieldsInRange(VectorOf(history, e)) && Coherent(VectorOf(history, e))
  {
    hide SnapOf;
    hide FamilyCoherent;
    hide NoHistory;
    hide WindowsInRange;
    hide RatesInRange;
    VectorInRange(history, e);
    CheckoutAge(history, e);
    forall f | f in FAMILIES
      ensures FamilyCoherent(VectorOf(history, e), f)
    {
      VectorFamilyCoherent(history, e, f);
    }
    MissingHasNoHistory(history, e, Device);
    MissingHasNoHistory(history, e, Network);
  }

  lemma MissingHasNoHistory(history: seq<Event>, e: Event, f: Family)
    requires f in FAMILIES && FieldsInRange(VectorOf(history, e))
    ensures PrimaryOf(f, e).None? ==> NoHistory(VectorOf(history, e), f)
  {
  }

  // ----- the engine

  function KeyOf(e: Event): (int, nat) {
    (e.occurredAt, e.id)
  }

  predicate KeyLess(a: (int, nat), b: (int, nat)) {
    a.0 < b.0 || (a.0 == b.0 && a.1 < b.1)
  }

  /** Each index retains exactly the in-window events of the history, as of `now`. */
  ghost predicate RetainsScan(state: FeatureState, history: seq<Event>, now: int)
    requires state.Owns()
    reads state, state.indexes
  {
    forall i :: 0 <= i < COUNT ==> Entries(state.indexes[i].observations) == Retained(SPECIFICATIONS[i], now, history)
  }

  lemma LastIsLatest(history: seq<Event>)
    requires Ordered(history)
    ensures history != [] ==> NoneAfter(history, history[|history| - 1].occurredAt)
  {
  }

  lemma NothingIsAfter(history: seq<Event>, now: int)
    ensures history == [] ==> NoneAfter(history, now)
  {
  }

  /** An empty history is the same scan at any time. */
  lemma NothingRetained(history: seq<Event>, now: int, later: int)
    ensures history == [] || now == later ==> forall spec :: Retained(spec, now, history) == Retained(spec, later, history)
  {
  }

  lemma OrderedAppend(history: seq<Event>, e: Event)
    requires Ordered(history)
    requires history != [] ==> KeyLess(KeyOf(history[|history| - 1]), KeyOf(e))
    ensures Ordered(history + [e])
  {
    if history != [] {
      forall i | 0 <= i < |history|
        ensures KeyBefore(history[i], e)
      {
        var n := |history| - 1;
        assert i < n ==> KeyBefore(history[i], history[n]);
      }
    }
  }

  /** Observing `e` at its own time extends the scan by `e`. */
  lemma ObservedIsScan(spec: IndexSpec, history: seq<Event>, e: Event, before: seq<Observation>, after: seq<Observation>)
    requires Entries(before) == Retained(spec, e.occurredAt, history)
    requires Observed(before, after, spec, e) && spec.seconds > 0
    ensures Entries(after) == Retained(spec, e.occurredAt, history + [e])
  {
    assert (history + [e])[..|history|] == history;
    if EntryOf(spec, e).None? {
      assert Entries(before) + [] == Entries(before);
    } else {
      assert after == before + [after[|before|]];
      EntriesConcat(before, [after[|before|]]);
      assert Entries([after[|before|]]) == [EntryOf(spec, e).value];
    }
  }

  lemma WindowsPositive()
    ensures forall i :: 0 <= i < COUNT ==> SPECIFICATIONS[i].seconds > 0
  {
  }

  class FeatureEngine {
    const state: FeatureState
    var lastKey: Option<(int, nat)>
    /** Every event accepted so far. */
    ghost var history: seq<Event>

    ghost predicate Valid()
      reads this, state, state.indexes
    {
      && state.Valid()
      && Ordered(history)
      && lastKey == (if history == [] then None else Some(KeyOf(history[|history| - 1])))
      && RetainsScan(state, history, Now())
    }

    /** The time of the last accepted event. */
    ghost function Now(): int
      reads this
    {
      if lastKey.None? then 0 else lastKey.value.0
    }

    /** Every index, counter and peak is what it was before. */
    twostate predicate Untouched()
      requires state.Owns()
      reads this, state, state.indexes
    {
      && state.peakObservationReferences == old(state.peakObservationReferences)
      && state.peakEntityBuckets == old(state.peakEntityBuckets)
      && forall i :: 0 <= i < COUNT ==>
           && state.indexes[i].observations == old(state.indexes[i].observations)
           && state.indexes[i].aggregates == old(state.indexes[i].aggregates)
           && state.indexes[i].peakObservations == old(state.indexes[i].peakObservations)
           && state.indexes[i].peakEntities == old(state.indexes[i].peakEntities)
    }

    constructor ()
      ensures Valid() && fresh(state) && fresh(state.indexes)
      ensures history == []
    {
      state := new FeatureState();
      lastKey, history := None, [];
    }

    /**
     * Compute the vector of `e` from the events before it, then take `e` in.
     * A failure anywhere leaves no trace in any index, peak or key.
     */
    method Process(e: Event, fault: ProcessFault) returns (r: Result<FeatureVector, EngineError>)
      requires Valid() && WellFormedEvent(e)
      modifies this, state, state.indexes
      ensures Valid()
      ensures r == if old(lastKey).Some? && !KeyLess(old(lastKey).value, KeyOf(e)) then Err(NotStrictlyMonotonic)
                   else if Interrupts(fault) then Err(Faulted)
                   else Ok(VectorOf(old(history), e))
      ensures r == Err(NotStrictlyMonotonic) <==>
                && old(history) != []
                && var last := old(history)[|old(history)| - 1];
                   e.occurredAt < last.occurredAt || (e.occurredAt == last.occurredAt && e.id <= last.id)
      ensures r.Ok? ==> history == old(history) + [e] && lastKey == Some(KeyOf(e))
      ensures r.Err? ==> history == old(history) && lastKey == old(lastKey) && Untouched()
    {
      if lastKey.Some? && !KeyLess(lastKey.value, KeyOf(e)) {
        return Err(NotStrictlyMonotonic);
      }
      hide VectorOf;
      hide FeatureScan.Retained;
      hide FeatureState.Valid;
      hide RollingIndex.Valid;
      hide SPECIFICATIONS;
      hide RetainsScan;
      hide Ordered;
      hide FeatureEngine.Untouched;
      r := Transact(e, fault);
      if r.Ok? {
        OrderedAppend(history, e);
        Accept(e);
      } else {
        StillRetains();
      }
    }

    /** The new key, once the indexes have taken the event in. */
    method Accept(e: Event)
      requires state.Valid() && Ordered(history + [e])
      requires RetainsScan(state, history + [e], e.occurredAt)
      modifies this`lastKey, this`history
      ensures Valid() && history == old(history) + [e] && lastKey == Some(KeyOf(e))
    {
      hide RetainsScan;
      hide FeatureState.Valid;
      hide Ordered;
      lastKey := Some(KeyOf(e));
      history := history + [e];
    }

    /** Indexes with the observations they had before retain the scan they retained before. */
    twostate lemma StillRetains()
      requires old(state.Valid()) && state.Owns() && old(RetainsScan(state, history, Now()))
      requires history == old(history) && lastKey == old(lastKey)
      requires Untouched()
      ensures RetainsScan(state, history, Now())
    {
    }

    /** Everything `Process` does to the indexes. */
    method Transact(e: Event, fault: ProcessFault) returns (r: Result<FeatureVector, EngineError>)
      requires Valid() && WellFormedEvent(e)
      requires lastKey.Some? ==> lastKey.value.0 <= e.occurredAt
      modifies state, state.indexes
      ensures state.Valid()
      ensures r == if Interrupts(fault) then Err(Faulted) else Ok(VectorOf(history, e))
      ensures r.Ok? ==> RetainsScan(state, history + [e], e.occurredAt)
      ensures r.Err? ==> Untouched()
    {
      hide SPECIFICATIONS;
      hide VectorOf;
      hide RollingIndex.Valid;
      hide FeatureScan.Retained;
      var checkpoint := EvictForEvent(e);
      r := ComputeAndObserve(e, fault);
      if r.Err? {
        forall i | 0 <= i < COUNT
          ensures WellFormed(checkpoint[i] + state.indexes[i].observations, state.indexes[i].names)
        {
          WasWellFormed(i);
        }
        state.RestoreEviction(checkpoint);
        forall i | 0 <= i < COUNT
          ensures state.indexes[i].aggregates == old(state.indexes[i].aggregates)
        {
          SameCounters(i);
        }
      }
    }

    /** The part of `Process` that eviction is undone after. */
    method ComputeAndObserve(e: Event, fault: ProcessFault) returns (r: Result<FeatureVector, EngineError>)
      requires state.Valid() && WellFormedEvent(e)
      requires RetainsScan(state, history, e.occurredAt)
      modifies state, state.indexes
      ensures state.Valid()
      ensures r == if Interrupts(fault) then Err(Faulted) else Ok(VectorOf(history, e))
      ensures r.Ok? ==> RetainsScan(state, history + [e], e.occurredAt)
      ensures r.Err? ==>
                && state.peakObservationReferences == old(state.peakObservationReferences)
                && state.peakEntityBuckets == old(state.peakEntityBuckets)
                && forall i :: 0 <= i < COUNT ==>
                     && state.indexes[i].observations == old(state.indexes[i].observations)
                     && state.indexes[i].peakObservations == old(state.indexes[i].peakObservations)
                     && state.indexes[i].peakEntities == old(state.indexes[i].peakEntities)
    {
      WindowsPositive();
      hide SPECIFICATIONS;
      hide VectorOf;
      hide RollingIndex.Valid;
      hide FeatureScan.Retained;
      NothingAfter(e);
      r := ComputeRecord(e, fault.InComputation?);
      if r.Err? {
        return;
      }
      var observed := state.Observe(e, if fault.InObservation? then fault.fault else NoFault);
      if !observed {
        return Err(Faulted);
      }
      forall i | 0 <= i < COUNT
        ensures Entries(state.indexes[i].observations) == Retained(SPECIFICATIONS[i], e.occurredAt, history + [e])
      {
        ObservedIsScan(SPECIFICATIONS[i], history, e, old(state.indexes[i].observations), state.indexes[i].observations);
      }
    }

    twostate lemma WasWellFormed(i: nat)
      requires i < COUNT && old(state.Valid()) && |state.indexes| == COUNT
      ensures WellFormed(old(state.indexes[i].observations), state.indexes[i].names)
    {
    }

    /** An index with the observations it had before has the counters it had before. */
    twostate lemma SameCounters(i: nat)
      requires i < COUNT && old(state.Valid()) && state.Valid()
      requires state.indexes[i].observations == old(state.indexes[i].observations)
      ensures state.indexes[i].aggregates == old(state.indexes[i].aggregates)
    {
      var index := state.indexes[i];
      AgreesUnique(index.aggregates, old(index.aggregates), Entries(index.observations), index.names);
    }

    lemma NothingAfter(e: Event)
      requires state.Valid() && RetainsScan(state, history, e.occurredAt)
      ensures state.NotAfter(e.occurredAt)
    {
      forall i, x | 0 <= i < COUNT && x in Entries(state.indexes[i].observations)
        ensures x.occurredAt <= e.occurredAt
      {
        RetainedFrom(SPECIFICATIONS[i], e.occurredAt, history, x);
      }
    }

    method ReadIndex(i: nat, e: Event) returns (s: Snapshot)
      requires i < COUNT && state.Valid()
      requires RetainsScan(state, history, e.occurredAt)
      ensures s == Snap(SPECIFICATIONS[i], history, e)
    {
      s := state.indexes[i].GetSnapshot(PrimaryOf(SPECIFICATIONS[i].family, e));
    }

    method ReadFamily(f: Family, seconds: nat, e: Event) returns (s: Snapshot)
      requires f in FAMILIES && seconds in FeatureSchema.Windows(f) && state.Valid()
      requires RetainsScan(state, history, e.occurredAt)
      ensures s == SnapOf(f, seconds, history, e)
    {
      s := ReadIndex(IndexOf(f, seconds), e);
    }

    /** One family's counts, window by window. */
    method FamilyFeatures(f: Family, e: Event) returns (counts: map<nat, WindowCounts>)
      requires f in FAMILIES && state.Valid()
      requires RetainsScan(state, history, e.occurredAt)
      ensures counts == map w | w in FeatureSchema.Windows(f) :: CountsFrom(SnapOf(f, w, history, e), f)
    {
      hide FeatureState.Valid;
      hide RetainsScan;
      hide SnapOf;
      var seconds := FeatureSchema.Windows(f);
      hide FeatureSchema.Windows;
      counts := map[];
      for i := 0 to |seconds|
        invariant forall w :: w in counts <==> w in seconds[..i]
        invariant forall w :: w in counts ==> counts[w] == CountsFrom(SnapOf(f, w, history, e), f)
      {
        var s := ReadFamily(f, seconds[i], e);
        counts := counts[seconds[i] := CountsFrom(s, f)];
        assert seconds[..i + 1] == seconds[..i] + [seconds[i]];
      }
      assert seconds[..|seconds|] == seconds;
    }

    method ReadWindows(e: Event) returns (windows: map<Key, WindowCounts>)
      requires state.Valid()
      requires RetainsScan(state, history, e.occurredAt)
      ensures windows == VectorOf(history, e).windows
    {
      hide FeatureState.Valid;
      hide RetainsScan;
      hide SnapOf;
      hide FeatureSchema.Windows;
      hide VectorOf;
      windows := map[];
      for i := 0 to |FAMILIES|
        invariant Filled(windows, FAMILIES[..i], history, e)
      {
        var f := FAMILIES[i];
        var counts := FamilyFeatures(f, e);
        FilledMore(windows, FAMILIES[..i], f, counts, history, e);
        assert FAMILIES[..i + 1] == FAMILIES[..i] + [f];
        windows := Merged(windows, f, counts);
      }
      assert FAMILIES[..|FAMILIES|] == FAMILIES;
      AllWindows(windows, history, e);
    }

    function Merged(windows: map<Key, WindowCounts>, f: Family, counts: map<nat, WindowCounts>): map<Key, WindowCounts> {
      windows + map w | w in counts :: (f, w) := counts[w]
    }

    /** The windows of the families read so far, each with its scanned counts. */
    ghost predicate Filled(windows: map<Key, WindowCounts>, families: seq<Family>, past: seq<Event>, e: Event) {
      && (forall k :: k in windows <==> k.0 in families && k.1 in FeatureSchema.Windows(k.0))
      && (forall k :: k in windows ==> windows[k] == CountsFrom(SnapOf(k.0, k.1, past, e), k.0))
    }

    lemma FilledMore(windows: map<Key, WindowCounts>, families: seq<Family>, f: Family, counts: map<nat, WindowCounts>,
                     past: seq<Event>, e: Event)
      requires Filled(windows, families, past, e)
      requires counts == map w | w in FeatureSchema.Windows(f) :: CountsFrom(SnapOf(f, w, past, e), f)
      ensures Filled(Merged(windows, f, counts), families + [f], past, e)
    {
      hide SnapOf, FeatureSchema.Windows, CountsFrom;
    }

    lemma AllWindows(windows: map<Key, WindowCounts>, past: seq<Event>, e: Event)
      requires Filled(windows, FAMILIES, past, e)
      ensures windows == VectorOf(past, e).windows
    {
      hide SnapOf, FeatureSchema.Windows, CountsFrom;
    }

    method ReadRates(e: Event) returns (rates: map<Family, int>)
      requires state.Valid()
      requires RetainsScan(state, history, e.occurredAt)
      ensures rates == VectorOf(history, e).rates
    {
      hide FeatureState.Valid;
      hide RetainsScan;
      hide SnapOf;
      rates := map[];
      for i := 0 to |FAMILIES|
        invariant rates.Keys == set f | f in FAMILIES[..i]
        invariant forall f :: f in rates ==> rates[f] == Rate(SnapOf(f, 300, history, e).attempts, SnapOf(f, 300, history, e).failures)
      {
        var f := FAMILIES[i];
        WindowsAscend(f);
        var s := ReadFamily(f, 300, e);
        rates := rates[f := if s.attempts == 0 then 0 else s.failures * 10000 / s.attempts];
        assert FAMILIES[..i + 1] == FAMILIES[..i] + [f];
      }
      assert FAMILIES[..|FAMILIES|] == FAMILIES;
    }

    /** Read every snapshot the vector needs, then validate the result. */
    method ComputeRecord(e: Event, fails: bool) returns (r: Result<FeatureVector, EngineError>)
      requires state.Valid() && WellFormedEvent(e)
      requires RetainsScan(state, history, e.occurredAt)
      ensures r == if fails then Err(Faulted) else Ok(VectorOf(history, e))
    {
      VectorIsCoherent(history, e);
      hide FeatureState.Valid;
      hide RetainsScan;
      hide Snap;
      hide FieldsInRange;
      hide Coherent;
      var checkout := ReadIndex(0, e);
      assert checkout == SnapOf(Checkout, 3600, history, e);
      var windows := ReadWindows(e);
      var rates := ReadRates(e);
      var v := FeatureVector(
        e.amountSubunits,
        e.occurredAt / 3_600_000 % 24,
        (e.occurredAt / 86_400_000 + 3) % 7,
        Flag(e.channel.Web?), Flag(e.channel.MobileWeb?), Flag(e.channel.MobileApp?),
        Flag(e.customer.None?), Flag(e.device.None?), Flag(e.network.None?),
        checkout.attempts,
        if checkout.last.Some? then e.occurredAt - checkout.last.value else 0,
        Flag(checkout.attempts > 0),
        windows,
        rates);
      assert v == VectorOf(history, e);
      if fails {
        return Err(Faulted);
      }
      var coherent := ValidateCoherentIndicators(v);
      if !coherent {
        return Err(VectorInvalid);
      }
      return Ok(v);
    }

    /** Evict at the time of `e`; afterwards every index retains the scan at that time. */
    method EvictForEvent(e: Event) returns (checkpoint: seq<seq<Observation>>)
      requires Valid()
      requires lastKey.Some? ==> lastKey.value.0 <= e.occurredAt
      modifies state.indexes
      ensures state.Valid() && |checkpoint| == COUNT
      ensures RetainsScan(state, history, e.occurredAt)
      ensures forall i :: 0 <= i < COUNT ==>
        && old(state.indexes[i].observations) == checkpoint[i] + state.indexes[i].observations
        && state.indexes[i].peakObservations == old(state.indexes[i].peakObservations)
        && state.indexes[i].peakEntities == old(state.indexes[i].peakEntities)
    {
      hide SPECIFICATIONS;
      hide RollingIndex.Valid;
      hide FeatureScan.Retained;
      LastIsLatest(history);
      hide Ordered;
      hide NoneAfter;
      assert history == [] ==> NoneAfter(history, e.occurredAt) by {
        NothingIsAfter(history, e.occurredAt);
      }
      ghost var now := if history == [] then e.occurredAt else Now();
      assert forall i :: 0 <= i < COUNT ==> Entries(state.indexes[i].observations) == Retained(SPECIFICATIONS[i], now, history) by {
        NothingRetained(history, Now(), now);
      }
      checkpoint := state.Evict(e.occurredAt);
      forall i | 0 <= i < COUNT
        ensures Entries(state.indexes[i].observations) == Retained(SPECIFICATIONS[i], e.occurredAt, history)
      {
        EvictionIsScan(SPECIFICATIONS[i], now, e.occurredAt, history, checkpoint[i], state.indexes[i].observations);
      }
    }
  }
}

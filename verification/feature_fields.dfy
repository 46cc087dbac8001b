/**
 * What each field of a computed vector is, in terms of the events themselves:
 * for the model's consumers the meaning of src/riskloom/features/engine.py,
 * lines 58 to 160, without the indexes.
 */
module FeatureFields {
  import opened Common
  import opened RollingIndexes
  import opened FeatureStates
  import opened FeatureScan
  import opened FeatureSchema
  import opened FeatureEngines

  /** Whether the event counts in the index of the family, by the event's own fields. */
  lemma CountedMeans(q: Query, t: Token, spec: IndexSpec, now: int, x: Event)
    requires q == Attempt || q == Failure
    ensures FeatureScan.Counted(q, t, spec, now, x) <==>
            && now - spec.seconds * 1000 < x.occurredAt <= now
            && PrimaryOf(spec.family, x) == Some(t)
            && (q == Failure ==> x.failed)
  {
  }

  lemma TokensMeans(r: Relation, t: Token, spec: IndexSpec, now: int, x: Event)
    requires r in spec.names && forall n :: n in spec.names ==> n in RelationsOf(spec.family, x)
    ensures TokensOf(r, t, spec, now, x) ==
            if FeatureScan.Counted(Attempt, t, spec, now, x) && FieldOf(r, x).Some? then {FieldOf(r, x).value} else {}
  {
    FamilyCarriesFields(spec.family, x);
  }

  /** The events before `e` with its token in the window that ends at `e`. */
  ghost function Past(f: Family, seconds: nat, history: seq<Event>, e: Event): set<nat> {
    set i: nat | i < |history| && PrimaryOf(f, e).Some? && PrimaryOf(f, history[i]) == PrimaryOf(f, e)
      && e.occurredAt - seconds * 1000 < history[i].occurredAt <= e.occurredAt
  }

  lemma NothingPicked(past: set<nat>, history: seq<Event>)
    requires forall i :: i in past ==> i < |history|
    ensures past == {} ==> Failed(past, history) == {} && forall r :: Seen(r, past, history) == {}
  {
  }

  ghost function Failed(past: set<nat>, history: seq<Event>): set<nat>
    requires forall i :: i in past ==> i < |history|
  {
    set i | i in past && history[i].failed
  }

  /** The tokens of the field a relation is named after, among those events. */
  ghost function Seen(r: Relation, past: set<nat>, history: seq<Event>): set<Token>
    requires forall i :: i in past ==> i < |history|
  {
    set i | i in past && FieldOf(r, history[i]).Some? :: FieldOf(r, history[i]).value
  }

  lemma SnapCounts(f: Family, w: nat, history: seq<Event>, e: Event)
    ensures var s, past := SnapOf(f, w, history, e), Past(f, w, history, e);
            && s.attempts == |past| && s.failures == |Failed(past, history)|
            && (s.last.None? <==> past == {})
            && (s.last.Some? ==> exists m :: m in past && history[m].occurredAt == s.last.value && forall k :: k in past ==> k <= m)
  {
    var spec, past := IndexSpec(f, w, Relations(f)), Past(f, w, history, e);
    if PrimaryOf(f, e).Some? {
      var t := PrimaryOf(f, e).value;
      SnapshotIsEventScan(spec, history, e, t);
      hide Snap, PrimaryOf, FeatureScan.Counted;
      forall i: nat | i < |history|
        ensures i in Matching(Attempt, t, spec, e.occurredAt, history) <==> i in past
        ensures i in Matching(Failure, t, spec, e.occurredAt, history) <==> i in past && history[i].failed
      {
        CountedMeans(Attempt, t, spec, e.occurredAt, history[i]);
        CountedMeans(Failure, t, spec, e.occurredAt, history[i]);
      }
      assert Matching(Attempt, t, spec, e.occurredAt, history) == past;
      assert Matching(Failure, t, spec, e.occurredAt, history) == Failed(past, history);
    } else {
      NothingPicked(past, history);
    }
  }

  lemma SnapDistinct(f: Family, w: nat, history: seq<Event>, e: Event, r: Relation)
    requires r in Relations(f)
    ensures CountsFrom(SnapOf(f, w, history, e), f).distinct[r] == |Seen(r, Past(f, w, history, e), history)|
  {
    var spec, past := IndexSpec(f, w, Relations(f)), Past(f, w, history, e);
    if PrimaryOf(f, e).Some? {
      var t := PrimaryOf(f, e).value;
      SnapshotIsEventScan(spec, history, e, t);
      SeenIsTokensSeen(f, w, history, e, t, r);
      hide Snap, PrimaryOf, Seen, Past, TokensSeen;
    } else {
      NothingPicked(past, history);
    }
  }

  lemma SeenIsTokensSeen(f: Family, w: nat, history: seq<Event>, e: Event, t: Token, r: Relation)
    requires r in Relations(f) && PrimaryOf(f, e) == Some(t)
    ensures TokensSeen(r, t, IndexSpec(f, w, Relations(f)), e.occurredAt, history) == Seen(r, Past(f, w, history, e), history)
  {
    var spec, past := IndexSpec(f, w, Relations(f)), Past(f, w, history, e);
    FamilyHasRelations(f);
    hide PrimaryOf, FeatureScan.Counted, FieldOf, RelationsOf, TokensOf, Relations;
    forall i: nat | i < |history|
      ensures TokensOf(r, t, spec, e.occurredAt, history[i])
           == if i in past && FieldOf(r, history[i]).Some? then {FieldOf(r, history[i]).value} else {}
    {
      CountedMeans(Attempt, t, spec, e.occurredAt, history[i]);
      TokensMeans(r, t, spec, e.occurredAt, history[i]);
    }
    assert forall x :: x in TokensSeen(r, t, spec, e.occurredAt, history) <==>
      exists i: nat :: i < |history| && x in TokensOf(r, t, spec, e.occurredAt, history[i]);
  }

  lemma WindowIs(f: Family, w: nat, history: seq<Event>, e: Event)
    requires f in FAMILIES && w in FeatureSchema.Windows(f)
    ensures (f, w) in VectorOf(history, e).windows
    ensures VectorOf(history, e).windows[(f, w)] == CountsFrom(SnapOf(f, w, history, e), f)
  {
    hide SnapOf, CountsFrom, FeatureSchema.Windows, FAMILIES;
  }

  /** A window of the vector, by family. */
  lemma CountsAre(f: Family, w: nat, history: seq<Event>, e: Event)
    requires f in FAMILIES && w in FeatureSchema.Windows(f)
    ensures (f, w) in VectorOf(history, e).windows
    ensures var c, past := VectorOf(history, e).windows[(f, w)], Past(f, w, history, e);
            && c.attempts == |past| && c.failures == |Failed(past, history)|
            && c.distinct.Keys == (set r | r in Relations(f))
            && forall r :: r in Relations(f) ==> c.distinct[r] == |Seen(r, past, history)|
  {
    WindowIs(f, w, history, e);
    SnapCounts(f, w, history, e);
    forall r | r in Relations(f)
      ensures CountsFrom(SnapOf(f, w, history, e), f).distinct[r] == |Seen(r, Past(f, w, history, e), history)|
    {
      SnapDistinct(f, w, history, e, r);
    }
    hide SnapOf, Past, Failed, Seen, VectorOf, Relations, FeatureSchema.Windows;
  }

  // The relations by the names of the event's fields.

  lemma SeenInstruments(past: set<nat>, history: seq<Event>)
    requires forall i :: i in past ==> i < |history|
    ensures Seen(Instruments, past, history) == set i | i in past :: history[i].instrument
  {
    SeenPlain(Instruments, past, history);
  }

  lemma SeenMerchants(past: set<nat>, history: seq<Event>)
    requires forall i :: i in past ==> i < |history|
    ensures Seen(Merchants, past, history) == set i | i in past :: history[i].merchant
  {
    SeenPlain(Merchants, past, history);
  }

  lemma SeenSessions(past: set<nat>, history: seq<Event>)
    requires forall i :: i in past ==> i < |history|
    ensures Seen(Sessions, past, history) == set i | i in past :: history[i].session
  {
    SeenPlain(Sessions, past, history);
  }

  lemma SeenDevices(past: set<nat>, history: seq<Event>)
    requires forall i :: i in past ==> i < |history|
    ensures Seen(Devices, past, history) == set i | i in past && history[i].device.Some? :: history[i].device.value
  {
  }

  lemma SeenNetworks(past: set<nat>, history: seq<Event>)
    requires forall i :: i in past ==> i < |history|
    ensures Seen(Networks, past, history) == set i | i in past && history[i].network.Some? :: history[i].network.value
  {
  }

  lemma SeenPlain(r: Relation, past: set<nat>, history: seq<Event>)
    requires forall i :: i in past ==> i < |history|
    requires forall x: Event :: FieldOf(r, x).Some?
    ensures Seen(r, past, history) == set i | i in past :: FieldOf(r, history[i]).value
  {
    hide FieldOf;
  }

  lemma FamilyHasRelations(f: Family)
    ensures forall x, r :: r in Relations(f) ==> r in RelationsOf(f, x)
  {
    forall x: Event, r | r in Relations(f)
      ensures r in RelationsOf(f, x)
    {
      match f
      case Checkout =>
      case Merchant =>
      case Device =>
      case Network =>
      case Instrument =>
      case Session =>
    }
  }

  lemma FailedIs(past: set<nat>, history: seq<Event>)
    requires forall i :: i in past ==> i < |history|
    ensures Failed(past, history) == set i | i in past && history[i].failed
  {
  }

  // ----- family by family

  /** The counts of the merchant. */
  lemma MerchantFields(history: seq<Event>, e: Event, w: nat)
    requires w in {60, 300, 3600}
    ensures (Merchant, w) in VectorOf(history, e).windows
    ensures var c := VectorOf(history, e).windows[(Merchant, w)];
            var past := set i: nat | i < |history| && history[i].merchant == e.merchant
                          && e.occurredAt - w * 1000 < history[i].occurredAt <= e.occurredAt;
            && c.attempts == |past|
            && c.failures == |set i | i in past && history[i].failed|
            && c.distinct.Keys == {Instruments, Devices, Networks}
            && c.distinct[Instruments] == |set i | i in past :: history[i].instrument|
            && c.distinct[Devices] == |set i | i in past && history[i].device.Some? :: history[i].device.value|
            && c.distinct[Networks] == |set i | i in past && history[i].network.Some? :: history[i].network.value|
  {
    MerchantShape(w);
    hide FAMILIES, FeatureSchema.Windows, Relations, VectorOf, Past, Seen, PrimaryOf, FieldOf, Failed;
    CountsAre(Merchant, w, history, e);
    var past := Past(Merchant, w, history, e);
    SeenInstruments(past, history);
    SeenDevices(past, history);
    SeenNetworks(past, history);
    FailedIs(past, history);
    MerchantPast(history, e, w);
  }

  lemma MerchantShape(w: nat)
    requires w in {60, 300, 3600}
    ensures Merchant in FAMILIES && w in FeatureSchema.Windows(Merchant)
    ensures Relations(Merchant) == [Instruments, Devices, Networks] && (set r | r in Relations(Merchant)) == {Instruments, Devices, Networks}
  {
  }

  lemma MerchantPast(history: seq<Event>, e: Event, w: nat)
    ensures Past(Merchant, w, history, e) == set i: nat | i < |history| && history[i].merchant == e.merchant
                  && e.occurredAt - w * 1000 < history[i].occurredAt <= e.occurredAt
  {
  }

  /** The counts of the device; an event without one matches nothing. */
  lemma DeviceFields(history: seq<Event>, e: Event, w: nat)
    requires w in {60, 300, 3600}
    ensures (Device, w) in VectorOf(history, e).windows
    ensures var c := VectorOf(history, e).windows[(Device, w)];
            var past := set i: nat | i < |history| && e.device.Some? && history[i].device == e.device
                          && e.occurredAt - w * 1000 < history[i].occurredAt <= e.occurredAt;
            && c.attempts == |past|
            && c.failures == |set i | i in past && history[i].failed|
            && c.distinct.Keys == {Instruments, Sessions}
            && c.distinct[Instruments] == |set i | i in past :: history[i].instrument|
            && c.distinct[Sessions] == |set i | i in past :: history[i].session|
  {
    DeviceShape(w);
    hide FAMILIES, FeatureSchema.Windows, Relations, VectorOf, Past, Seen, PrimaryOf, FieldOf, Failed;
    CountsAre(Device, w, history, e);
    var past := Past(Device, w, history, e);
    SeenInstruments(past, history);
    SeenSessions(past, history);
    FailedIs(past, history);
    DevicePast(history, e, w);
  }

  lemma DeviceShape(w: nat)
    requires w in {60, 300, 3600}
    ensures Device in FAMILIES && w in FeatureSchema.Windows(Device)
    ensures Relations(Device) == [Instruments, Sessions] && (set r | r in Relations(Device)) == {Instruments, Sessions}
  {
  }

  lemma DevicePast(history: seq<Event>, e: Event, w: nat)
    ensures Past(Device, w, history, e) == set i: nat | i < |history| && e.device.Some? && history[i].device == e.device
                  && e.occurredAt - w * 1000 < history[i].occurredAt <= e.occurredAt
  {
  }

  /** The counts of the network; an event without one matches nothing. */
  lemma NetworkFields(history: seq<Event>, e: Event, w: nat)
    requires w in {60, 300, 3600}
    ensures (Network, w) in VectorOf(history, e).windows
    ensures var c := VectorOf(history, e).windows[(Network, w)];
            var past := set i: nat | i < |history| && e.network.Some? && history[i].network == e.network
                          && e.occurredAt - w * 1000 < history[i].occurredAt <= e.occurredAt;
            && c.attempts == |past|
            && c.failures == |set i | i in past && history[i].failed|
            && c.distinct.Keys == {Instruments, Devices, Sessions}
            && c.distinct[Instruments] == |set i | i in past :: history[i].instrument|
            && c.distinct[Devices] == |set i | i in past && history[i].device.Some? :: history[i].device.value|
            && c.distinct[Sessions] == |set i | i in past :: history[i].session|
  {
    NetworkShape(w);
    hide FAMILIES, FeatureSchema.Windows, Relations, VectorOf, Past, Seen, PrimaryOf, FieldOf, Failed;
    CountsAre(Network, w, history, e);
    var past := Past(Network, w, history, e);
    SeenInstruments(past, history);
    SeenDevices(past, history);
    SeenSessions(past, history);
    FailedIs(past, history);
    NetworkPast(history, e, w);
  }

  lemma NetworkShape(w: nat)
    requires w in {60, 300, 3600}
    ensures Network in FAMILIES && w in FeatureSchema.Windows(Network)
    ensures Relations(Network) == [Instruments, Devices, Sessions] && (set r | r in Relations(Network)) == {Instruments, Devices, Sessions}
  {
  }

  lemma NetworkPast(history: seq<Event>, e: Event, w: nat)
    ensures Past(Network, w, history, e) == set i: nat | i < |history| && e.network.Some? && history[i].network == e.network
                  && e.occurredAt - w * 1000 < history[i].occurredAt <= e.occurredAt
  {
  }

  /** The counts of the payment instrument. */
  lemma InstrumentFields(history: seq<Event>, e: Event, w: nat)
    requires w in {300, 3600}
    ensures (Instrument, w) in VectorOf(history, e).windows
    ensures var c := VectorOf(history, e).windows[(Instrument, w)];
            var past := set i: nat | i < |history| && history[i].instrument == e.instrument
                          && e.occurredAt - w * 1000 < history[i].occurredAt <= e.occurredAt;
            && c.attempts == |past|
            && c.failures == |set i | i in past && history[i].failed|
            && c.distinct.Keys == {Devices, Networks, Merchants}
            && c.distinct[Devices] == |set i | i in past && history[i].device.Some? :: history[i].device.value|
            && c.distinct[Networks] == |set i | i in past && history[i].network.Some? :: history[i].network.value|
            && c.distinct[Merchants] == |set i | i in past :: history[i].merchant|
  {
    InstrumentShape(w);
    hide FAMILIES, FeatureSchema.Windows, Relations, VectorOf, Past, Seen, PrimaryOf, FieldOf, Failed;
    CountsAre(Instrument, w, history, e);
    var past := Past(Instrument, w, history, e);
    SeenDevices(past, history);
    SeenNetworks(past, history);
    SeenMerchants(past, history);
    FailedIs(past, history);
    InstrumentPast(history, e, w);
  }

  lemma InstrumentShape(w: nat)
    requires w in {300, 3600}
    ensures Instrument in FAMILIES && w in FeatureSchema.Windows(Instrument)
    ensures Relations(Instrument) == [Devices, Networks, Merchants] && (set r | r in Relations(Instrument)) == {Devices, Networks, Merchants}
  {
  }

  lemma InstrumentPast(history: seq<Event>, e: Event, w: nat)
    ensures Past(Instrument, w, history, e) == set i: nat | i < |history| && history[i].instrument == e.instrument
                  && e.occurredAt - w * 1000 < history[i].occurredAt <= e.occurredAt
  {
  }

  /** The counts of the session. */
  lemma SessionFields(history: seq<Event>, e: Event, w: nat)
    requires w in {60, 300}
    ensures (Session, w) in VectorOf(history, e).windows
    ensures var c := VectorOf(history, e).windows[(Session, w)];
            var past := set i: nat | i < |history| && history[i].session == e.session
                          && e.occurredAt - w * 1000 < history[i].occurredAt <= e.occurredAt;
            && c.attempts == |past|
            && c.failures == |set i | i in past && history[i].failed|
            && c.distinct.Keys == {Instruments}
            && c.distinct[Instruments] == |set i | i in past :: history[i].instrument|
  {
    SessionShape(w);
    hide FAMILIES, FeatureSchema.Windows, Relations, VectorOf, Past, Seen, PrimaryOf, FieldOf, Failed;
    CountsAre(Session, w, history, e);
    var past := Past(Session, w, history, e);
    SeenInstruments(past, history);
    FailedIs(past, history);
    SessionPast(history, e, w);
  }

  lemma SessionShape(w: nat)
    requires w in {60, 300}
    ensures Session in FAMILIES && w in FeatureSchema.Windows(Session)
    ensures Relations(Session) == [Instruments] && (set r | r in Relations(Session)) == {Instruments}
  {
  }

  lemma SessionPast(history: seq<Event>, e: Event, w: nat)
    ensures Past(Session, w, history, e) == set i: nat | i < |history| && history[i].session == e.session
                  && e.occurredAt - w * 1000 < history[i].occurredAt <= e.occurredAt
  {
  }

  /** The checkout's own attempts within the hour, and the age of the latest of them. */
  lemma CheckoutFields(history: seq<Event>, e: Event)
    ensures var v := VectorOf(history, e);
            var past := set i: nat | i < |history| && history[i].checkout == e.checkout
                          && e.occurredAt - 3_600_000 < history[i].occurredAt <= e.occurredAt;
            && v.checkoutAttempts == |past|
            && v.checkoutHistoryPresent == (if past == {} then 0 else 1)
            && (past == {} ==> v.checkoutAgeMs == 0)
            && (past != {} ==> exists m :: m in past && (forall k :: k in past ==> k <= m)
                                 && v.checkoutAgeMs == e.occurredAt - history[m].occurredAt)
  {
    SnapCounts(Checkout, 3600, history, e);
    CheckoutPast(history, e);
    CheckoutFrom(history, e);
    hide SnapOf, Past, VectorOf, PrimaryOf, Failed;
  }

  lemma CheckoutPast(history: seq<Event>, e: Event)
    ensures Past(Checkout, 3600, history, e) == set i: nat | i < |history| && history[i].checkout == e.checkout
                          && e.occurredAt - 3_600_000 < history[i].occurredAt <= e.occurredAt
  {
  }

  lemma CheckoutFrom(history: seq<Event>, e: Event)
    ensures var v, s := VectorOf(history, e), SnapOf(Checkout, 3600, history, e);
            && v.checkoutAttempts == s.attempts && v.checkoutHistoryPresent == (if s.attempts > 0 then 1 else 0)
            && v.checkoutAgeMs == if s.last.Some? then e.occurredAt - s.last.value else 0
  {
    hide SnapOf, CountsFrom, FeatureSchema.Windows, Rate;
  }

  /** What the vector takes from the event itself. */
  lemma EventFields(history: seq<Event>, e: Event)
    ensures var v := VectorOf(history, e);
            && v.amountSubunits == e.amountSubunits
            && v.channelWeb == (if e.channel == Web then 1 else 0)
            && v.channelMobileWeb == (if e.channel == MobileWeb then 1 else 0)
            && v.channelMobileApp == (if e.channel == MobileApp then 1 else 0)
            && v.customerMissing == (if e.customer == None then 1 else 0)
            && v.deviceMissing == (if e.device == None then 1 else 0)
            && v.networkMissing == (if e.network == None then 1 else 0)
  {
    hide SnapOf;
  }

  /** Which windows and which rates there are. */
  lemma WindowKeys(history: seq<Event>, e: Event)
    ensures VectorOf(history, e).windows.Keys
         == {(Merchant, 60), (Merchant, 300), (Merchant, 3600), (Device, 60), (Device, 300), (Device, 3600),
             (Network, 60), (Network, 300), (Network, 3600), (Instrument, 300), (Instrument, 3600),
             (Session, 60), (Session, 300)}
    ensures VectorOf(history, e).rates.Keys == {Merchant, Device, Network, Instrument, Session}
  {
    WindowNames();
    RateNames();
    hide SnapOf, VectorOf, FeatureSchema.Windows, FAMILIES;
    WindowsOf(history, e);
    RateOf(history, e, Merchant);
  }

  /** The failure rate of a family over its five minutes in basis points, rounded down. */
  lemma RateFields(history: seq<Event>, e: Event, f: Family)
    requires f in [Merchant, Device, Network, Instrument, Session]
    ensures (f, 300) in VectorOf(history, e).windows && f in VectorOf(history, e).rates
    ensures var v := VectorOf(history, e);
            var c := v.windows[(f, 300)];
            if c.attempts == 0 then v.rates[f] == 0
            else v.rates[f] * c.attempts <= 10_000 * c.failures < (v.rates[f] + 1) * c.attempts
  {
    RateNames();
    WindowsAscend(f);
    hide SnapOf, VectorOf, FeatureSchema.Windows, FAMILIES;
    RateOf(history, e, f);
    WindowIs(f, 300, history, e);
    var s := SnapOf(f, 300, history, e);
    if s.attempts == 0 {
      NoRate(s.failures);
    } else {
      FloorRate(s.attempts, s.failures);
    }
  }

  lemma RateNames()
    ensures (set f | f in FAMILIES) == {Merchant, Device, Network, Instrument, Session} && Merchant in FAMILIES
    ensures forall f :: f in FAMILIES <==> f in [Merchant, Device, Network, Instrument, Session]
  {
  }

  lemma WindowNames()
    ensures (set f, w | f in FAMILIES && w in FeatureSchema.Windows(f) :: (f, w))
         == {(Merchant, 60), (Merchant, 300), (Merchant, 3600), (Device, 60), (Device, 300), (Device, 3600),
             (Network, 60), (Network, 300), (Network, 3600), (Instrument, 300), (Instrument, 3600),
             (Session, 60), (Session, 300)}
  {
  }

  lemma RateOf(history: seq<Event>, e: Event, f: Family)
    requires f in FAMILIES
    ensures VectorOf(history, e).rates.Keys == set g | g in FAMILIES
    ensures VectorOf(history, e).rates[f] == Rate(SnapOf(f, 300, history, e).attempts, SnapOf(f, 300, history, e).failures)
  {
    hide SnapOf, CountsFrom, FeatureSchema.Windows, FAMILIES, Rate;
  }

  lemma WindowsOf(history: seq<Event>, e: Event)
    ensures VectorOf(history, e).windows.Keys == set f, w | f in FAMILIES && w in FeatureSchema.Windows(f) :: (f, w)
  {
    hide SnapOf, CountsFrom, FeatureSchema.Windows, FAMILIES, Rate;
  }

  lemma NoRate(failures: int)
    ensures Rate(0, failures) == 0
  {
  }

  lemma FloorRate(attempts: nat, failures: nat)
    requires attempts > 0
    ensures var rate := Rate(attempts, failures); rate * attempts <= 10_000 * failures < (rate + 1) * attempts
  {
    var rate := failures * 10000 / attempts;
    assert failures * 10000 == rate * attempts + failures * 10000 % attempts;
    assert (rate + 1) * attempts == rate * attempts + attempts;
  }

  /** A card that moved to another session is still seen. */
  lemma CardAcrossSessions(a: Event, e: Event)
    requires a.instrument == e.instrument && e.occurredAt - 300_000 < a.occurredAt <= e.occurredAt
    ensures (Instrument, 300) in VectorOf([a], e).windows && VectorOf([a], e).windows[(Instrument, 300)].attempts == 1
  {
    InstrumentShape(300);
    hide FAMILIES, FeatureSchema.Windows, Relations, VectorOf, Seen, Failed;
    CountsAre(Instrument, 300, [a], e);
    OnlyThatOne(a, e);
  }

  lemma OnlyThatOne(a: Event, e: Event)
    requires a.instrument == e.instrument && e.occurredAt - 300_000 < a.occurredAt <= e.occurredAt
    ensures Past(Instrument, 300, [a], e) == {0}
  {
    var history := [a];
    assert history[0] == a;
    assert 0 in Past(Instrument, 300, history, e);
    assert forall i :: i in Past(Instrument, 300, history, e) ==> i == 0;
  }
}

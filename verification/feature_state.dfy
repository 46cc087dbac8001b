/**
 * The fourteen rolling indexes of the feature engine, updated together as one
 * transaction (src/riskloom/features/state.py).
 */
module FeatureStates {
  import opened Common
  import opened RollingIndexes

  datatype Channel = Web | MobileWeb | MobileApp

  /**
   * A checkout attempt. Event ids are fixed-width lower-case hex, so their
   * order is the order of the numbers they spell.
   */
  datatype Event = Event(
    id: nat, occurredAt: int,
    checkout: Token, merchant: Token, customer: Option<Token>, device: Option<Token>, network: Option<Token>,
    instrument: Token, session: Token,
    amountSubunits: int, channel: Channel, failed: bool)

  datatype Family = Checkout | Merchant | Device | Network | Instrument | Session

  datatype IndexSpec = IndexSpec(family: Family, seconds: nat, names: seq<Relation>)

  const COUNT := 14

  const SPECIFICATIONS: seq<IndexSpec> := [
    IndexSpec(Checkout, 3600, []),
    IndexSpec(Merchant, 60, [Instruments, Devices, Networks]),
    IndexSpec(Merchant, 300, [Instruments, Devices, Networks]),
    IndexSpec(Merchant, 3600, [Instruments, Devices, Networks]),
    IndexSpec(Device, 60, [Instruments, Sessions]),
    IndexSpec(Device, 300, [Instruments, Sessions]),
    IndexSpec(Device, 3600, [Instruments, Sessions]),
    IndexSpec(Network, 60, [Instruments, Devices, Sessions]),
    IndexSpec(Network, 300, [Instruments, Devices, Sessions]),
    IndexSpec(Network, 3600, [Instruments, Devices, Sessions]),
    IndexSpec(Instrument, 300, [Devices, Networks, Merchants]),
    IndexSpec(Instrument, 3600, [Devices, Networks, Merchants]),
    IndexSpec(Session, 60, [Instruments]),
    IndexSpec(Session, 300, [Instruments])
  ]

  /** The order in which an observation reaches the indexes, and its inverse. */
  const OPERATIONS: seq<nat> := [1, 4, 7, 2, 5, 8, 3, 6, 9, 10, 11, 12, 13, 0]
  const POSITIONS: seq<nat> := [13, 0, 3, 6, 1, 4, 7, 2, 5, 8, 9, 10, 11, 12]

  function PrimaryOf(f: Family, e: Event): Option<Token> {
    match f
    case Checkout => Some(e.checkout)
    case Merchant => Some(e.merchant)
    case Device => e.device
    case Network => e.network
    case Instrument => Some(e.instrument)
    case Session => Some(e.session)
  }

  function RelationsOf(f: Family, e: Event): map<Relation, Option<Token>> {
    match f
    case Checkout => map[]
    case Merchant => map[Instruments := Some(e.instrument), Devices := e.device, Networks := e.network]
    case Device => map[Instruments := Some(e.instrument), Sessions := Some(e.session)]
    case Network => map[Instruments := Some(e.instrument), Devices := e.device, Sessions := Some(e.session)]
    case Instrument => map[Devices := e.device, Networks := e.network, Merchants := Some(e.merchant)]
    case Session => map[Instruments := Some(e.instrument)]
  }

  function EntryOf(spec: IndexSpec, e: Event): Option<Entry> {
    match PrimaryOf(spec.family, e)
    case None => None
    case Some(t) => Some(MakeEntry(e.occurredAt, t, e.failed, RelationsOf(spec.family, e), spec.names))
  }

  /** The event field a relation is named after. */
  function FieldOf(r: Relation, e: Event): Option<Token> {
    match r
    case Instruments => Some(e.instrument)
    case Devices => e.device
    case Networks => e.network
    case Sessions => Some(e.session)
    case Merchants => Some(e.merchant)
  }

  lemma FamilyCarriesFields(f: Family, e: Event)
    ensures forall r :: r in RelationsOf(f, e) ==> RelationsOf(f, e)[r] == FieldOf(r, e)
  {
    match f
    case Checkout =>
    case Merchant =>
    case Device =>
    case Network =>
    case Instrument =>
    case Session =>
  }

  /** In every index, each relation carries the event field it is named after. */
  lemma RelationsCarryFields(i: nat, e: Event)
    requires i < COUNT
    ensures var spec := SPECIFICATIONS[i];
            && (EntryOf(spec, e).Some? <==> PrimaryOf(spec.family, e).Some?)
            && (EntryOf(spec, e).Some? ==>
                  && EntryOf(spec, e).value.relations.Keys == (set r | r in spec.names)
                  && forall r :: r in spec.names ==> EntryOf(spec, e).value.relations[r] == FieldOf(r, e))
  {
    hide FieldOf, PrimaryOf;
    var spec := SPECIFICATIONS[i];
    FamilyCarriesFields(spec.family, e);
    assert forall r :: r in spec.names ==> r in RelationsOf(spec.family, e);
    hide SPECIFICATIONS, RelationsOf;
  }

  ghost predicate Observed(before: seq<Observation>, after: seq<Observation>, spec: IndexSpec, e: Event) {
    match EntryOf(spec, e)
    case None => after == before
    case Some(x) =>
      |after| == |before| + 1 && after[..|before|] == before && after[|before|].entry == x
  }

  lemma ObservedGrows(before: seq<Observation>, after: seq<Observation>, spec: IndexSpec, e: Event)
    ensures Observed(before, after, spec, e) || after == before
            ==> |before| <= |after| <= |before| + 1 && after[..|before|] == before
  {
  }

  /**
   * Where an observation may be interrupted: after some whole index updates,
   * or after all of them and some diagnostics commits.
   */
  datatype Fault = NoFault | DuringUpdates(updates: nat) | DuringCommits(commits: nat)

  predicate Fires(fault: Fault) {
    match fault
    case NoFault => false
    case DuringUpdates(k) => k < COUNT
    case DuringCommits(k) => k <= COUNT
  }

  function SumObservations(s: seq<RollingIndex>): nat
    reads s
  {
    if s == [] then 0 else SumObservations(s[..|s| - 1]) + |s[|s| - 1].observations|
  }

  function SumEntities(s: seq<RollingIndex>): nat
    reads s
  {
    if s == [] then 0 else SumEntities(s[..|s| - 1]) + |s[|s| - 1].aggregates|
  }

  lemma OrderIsPermutation()
    ensures |OPERATIONS| == |POSITIONS| == |SPECIFICATIONS| == COUNT
    ensures forall k :: 0 <= k < COUNT ==> OPERATIONS[k] < COUNT && POSITIONS[OPERATIONS[k]] == k
    ensures forall i :: 0 <= i < COUNT ==> POSITIONS[i] < COUNT && OPERATIONS[POSITIONS[i]] == i
  {
  }

  class FeatureState {
    const indexes: seq<RollingIndex>
    var peakObservationReferences: nat
    var peakEntityBuckets: nat

    ghost predicate Owns()
      reads this
    {
      && |indexes| == |SPECIFICATIONS| == COUNT
      && Distinct(indexes)
      && forall i :: 0 <= i < COUNT ==> indexes[i].windowSeconds == SPECIFICATIONS[i].seconds && indexes[i].names == SPECIFICATIONS[i].names
    }

    ghost predicate Valid()
      reads this, indexes
    {
      Owns() && forall i :: 0 <= i < COUNT ==> indexes[i].Valid()
    }

    ghost predicate NotAfter(time: int)
      requires |indexes| == COUNT
      reads this, indexes
    {
      forall i, x :: 0 <= i < COUNT && x in Entries(indexes[i].observations) ==> x.occurredAt <= time
    }

    constructor ()
      ensures Valid() && fresh(indexes)
      ensures forall i :: 0 <= i < COUNT ==> indexes[i].observations == []
    {
      hide RollingIndex.Valid;
      var created: seq<RollingIndex> := [];
      for i := 0 to COUNT
        invariant |created| == i
        invariant fresh(created) && Distinct(created)
        invariant forall k :: 0 <= k < i ==>
          && created[k].Valid() && created[k].observations == []
          && created[k].windowSeconds == SPECIFICATIONS[k].seconds && created[k].names == SPECIFICATIONS[k].names
      {
        var index := new RollingIndex(SPECIFICATIONS[i].seconds, SPECIFICATIONS[i].names);
        created := created + [index];
      }
      indexes := created;
      peakObservationReferences, peakEntityBuckets := 0, 0;
    }

    method Evict(currentTime: int) returns (checkpoint: seq<seq<Observation>>)
      requires Valid()
      modifies indexes
      ensures Valid() && |checkpoint| == COUNT
      ensures forall i :: 0 <= i < COUNT ==>
        && old(indexes[i].observations) == checkpoint[i] + indexes[i].observations
        && (forall o :: o in checkpoint[i] ==> o.entry.occurredAt <= currentTime - indexes[i].windowSeconds * 1000)
        && (forall o :: o in indexes[i].observations ==> currentTime - indexes[i].windowSeconds * 1000 < o.entry.occurredAt)
      ensures forall i :: 0 <= i < COUNT ==>
        && indexes[i].peakObservations == old(indexes[i].peakObservations)
        && indexes[i].peakEntities == old(indexes[i].peakEntities)
    {
      hide Agrees;
      hide WellFormed;
      hide RollingIndex.Valid;
      hide SPECIFICATIONS;
      checkpoint := [];
      for k := 0 to COUNT
        invariant Valid() && |checkpoint| == k
        invariant forall i :: 0 <= i < k ==>
          && old(indexes[i].observations) == checkpoint[i] + indexes[i].observations
          && (forall o :: o in checkpoint[i] ==> o.entry.occurredAt <= currentTime - indexes[i].windowSeconds * 1000)
          && (forall o :: o in indexes[i].observations ==> currentTime - indexes[i].windowSeconds * 1000 < o.entry.occurredAt)
        invariant forall i :: k <= i < COUNT ==> indexes[i].observations == old(indexes[i].observations)
        invariant forall i :: 0 <= i < COUNT ==>
          && indexes[i].peakObservations == old(indexes[i].peakObservations)
          && indexes[i].peakEntities == old(indexes[i].peakEntities)
      {
        var evicted := indexes[k].Evict(currentTime);
        checkpoint := checkpoint + [evicted];
      }
    }

    method RestoreEviction(checkpoint: seq<seq<Observation>>)
      requires Valid() && |checkpoint| == COUNT
      requires forall i :: 0 <= i < COUNT ==> WellFormed(checkpoint[i] + indexes[i].observations, indexes[i].names)
      modifies indexes
      ensures Valid()
      ensures forall i :: 0 <= i < COUNT ==>
        && indexes[i].observations == checkpoint[i] + old(indexes[i].observations)
        && indexes[i].peakObservations == old(indexes[i].peakObservations)
        && indexes[i].peakEntities == old(indexes[i].peakEntities)
    {
      hide Agrees;
      hide WellFormed;
      hide RollingIndex.Valid;
      hide SPECIFICATIONS;
      for k := 0 to COUNT
        invariant Valid()
        invariant forall i :: 0 <= i < COUNT ==>
          && indexes[i].observations == (if i < k then checkpoint[i] + old(indexes[i].observations) else old(indexes[i].observations))
          && indexes[i].peakObservations == old(indexes[i].peakObservations)
          && indexes[i].peakEntities == old(indexes[i].peakEntities)
      {
        ghost var evicted := indexes[k].observations;
        assert evicted == old(indexes[k].observations);
        indexes[k].RestoreEvicted(checkpoint[k]);
        assert indexes[k].observations == checkpoint[k] + evicted;
      }
    }

    /** Observe in operation order, stopping after `limit` whole index updates. */
    method ObserveAll(e: Event, limit: nat) returns (updates: nat)
      requires Valid()
      requires NotAfter(e.occurredAt)
      modifies indexes
      ensures Valid() && updates == if limit < COUNT then limit else COUNT
      ensures forall i :: 0 <= i < COUNT ==>
        if POSITIONS[i] < updates then Observed(old(indexes[i].observations), indexes[i].observations, SPECIFICATIONS[i], e)
        else indexes[i].observations == old(indexes[i].observations)
      ensures forall i :: 0 <= i < COUNT ==>
        && indexes[i].peakObservations == old(indexes[i].peakObservations)
        && indexes[i].peakEntities == old(indexes[i].peakEntities)
    {
      hide Agrees;
      hide WellFormed;
      OrderIsPermutation();
      hide OPERATIONS;
      hide POSITIONS;
      hide SPECIFICATIONS;
      updates := 0;
      while updates < COUNT && updates < limit
        invariant Valid() && 0 <= updates <= COUNT && updates <= limit
        invariant forall i :: 0 <= i < COUNT ==>
          if POSITIONS[i] < updates then Observed(old(indexes[i].observations), indexes[i].observations, SPECIFICATIONS[i], e)
          else indexes[i].observations == old(indexes[i].observations)
        invariant forall i :: 0 <= i < COUNT ==>
          && indexes[i].peakObservations == old(indexes[i].peakObservations)
          && indexes[i].peakEntities == old(indexes[i].peakEntities)
      {
        var i := OPERATIONS[updates];
        var family := SPECIFICATIONS[i].family;
        indexes[i].Observe(e.occurredAt, PrimaryOf(family, e), e.failed, RelationsOf(family, e));
        updates := updates + 1;
      }
    }

    /** Commit the diagnostics in operation order, stopping after `limit` of them. */
    method CommitAll(limit: nat)
      requires Valid()
      modifies indexes
      ensures Valid()
      ensures forall i :: 0 <= i < COUNT ==>
        && indexes[i].observations == old(indexes[i].observations)
        && indexes[i].aggregates == old(indexes[i].aggregates)
        && (limit >= COUNT ==>
              && indexes[i].peakObservations == Max(old(indexes[i].peakObservations), |indexes[i].observations|)
              && indexes[i].peakEntities == Max(old(indexes[i].peakEntities), |indexes[i].aggregates|))
    {
      hide Agrees;
      hide WellFormed;
      OrderIsPermutation();
      hide OPERATIONS;
      hide POSITIONS;
      hide SPECIFICATIONS;
      var commits := 0;
      while commits < COUNT && commits < limit
        invariant Valid() && 0 <= commits <= COUNT
        invariant forall i :: 0 <= i < COUNT ==>
          && indexes[i].observations == old(indexes[i].observations)
          && indexes[i].aggregates == old(indexes[i].aggregates)
        invariant forall i :: 0 <= i < COUNT ==>
          && indexes[i].peakObservations == (if POSITIONS[i] < commits then Max(old(indexes[i].peakObservations), |indexes[i].observations|) else old(indexes[i].peakObservations))
          && indexes[i].peakEntities == (if POSITIONS[i] < commits then Max(old(indexes[i].peakEntities), |indexes[i].aggregates|) else old(indexes[i].peakEntities))
      {
        indexes[OPERATIONS[commits]].CommitDiagnostics();
        commits := commits + 1;
      }
    }

    /** Take back, latest first, what the attempted operations observed. */
    method RollBackAll(counts: seq<nat>, attempted: nat)
      requires Valid() && |counts| == COUNT && attempted <= COUNT
      requires forall i :: 0 <= i < COUNT ==>
        if POSITIONS[i] < attempted then counts[i] <= |indexes[i].observations| <= counts[i] + 1
        else |indexes[i].observations| == counts[i]
      modifies indexes
      ensures Valid()
      ensures forall i :: 0 <= i < COUNT ==>
        && indexes[i].observations == old(indexes[i].observations)[..counts[i]]
        && indexes[i].peakObservations == old(indexes[i].peakObservations)
        && indexes[i].peakEntities == old(indexes[i].peakEntities)
    {
      hide Agrees;
      hide WellFormed;
      hide RollingIndex.Valid;
      OrderIsPermutation();
      hide OPERATIONS;
      hide POSITIONS;
      hide SPECIFICATIONS;
      for k := attempted downto 0
        invariant Valid()
        invariant forall i :: 0 <= i < COUNT ==>
          && indexes[i].peakObservations == old(indexes[i].peakObservations)
          && indexes[i].peakEntities == old(indexes[i].peakEntities)
        invariant forall i :: 0 <= i < COUNT ==>
          indexes[i].observations == if POSITIONS[i] < k then old(indexes[i].observations) else old(indexes[i].observations)[..counts[i]]
      {
        var i := OPERATIONS[k];
        var rolledBack := indexes[i].RollbackToObservationCount(counts[i]);
        assert rolledBack.Ok?;
      }
    }

    method RestorePeaks(peaks: seq<(nat, nat)>)
      requires Valid() && |peaks| == COUNT
      modifies indexes
      ensures Valid()
      ensures forall i :: 0 <= i < COUNT ==>
        && indexes[i].observations == old(indexes[i].observations)
        && (indexes[i].peakObservations, indexes[i].peakEntities) == peaks[i]
    {
      hide Agrees;
      hide WellFormed;
      OrderIsPermutation();
      hide OPERATIONS;
      hide POSITIONS;
      hide SPECIFICATIONS;
      for k := 0 to COUNT
        invariant Valid()
        invariant forall i :: 0 <= i < COUNT ==>
          && indexes[i].observations == old(indexes[i].observations)
          && (POSITIONS[i] < k ==> (indexes[i].peakObservations, indexes[i].peakEntities) == peaks[i])
      {
        var i := OPERATIONS[k];
        indexes[i].peakObservations, indexes[i].peakEntities := peaks[i].0, peaks[i].1;
      }
    }

    /** The counts and peaks an observation is rolled back to. */
    method Checkpoint() returns (counts: seq<nat>, peaks: seq<(nat, nat)>)
      requires Valid()
      ensures |counts| == |peaks| == COUNT
      ensures forall k :: 0 <= k < COUNT ==>
        counts[k] == |indexes[k].observations| && peaks[k] == (indexes[k].peakObservations, indexes[k].peakEntities)
    {
      counts, peaks := [], [];
      for i := 0 to COUNT
        invariant |counts| == |peaks| == i
        invariant forall k :: 0 <= k < i ==>
          counts[k] == |indexes[k].observations| && peaks[k] == (indexes[k].peakObservations, indexes[k].peakEntities)
      {
        counts := counts + [|indexes[i].observations|];
        peaks := peaks + [(indexes[i].peakObservations, indexes[i].peakEntities)];
      }
    }

    /** Undo what was attempted since the checkpoint. */
    method TakeBack(counts: seq<nat>, attempted: nat, peaks: seq<(nat, nat)>)
      requires Valid() && |counts| == |peaks| == COUNT && attempted <= COUNT
      requires forall i :: 0 <= i < COUNT ==>
        if POSITIONS[i] < attempted then counts[i] <= |indexes[i].observations| <= counts[i] + 1
        else |indexes[i].observations| == counts[i]
      modifies indexes
      ensures Valid()
      ensures forall i :: 0 <= i < COUNT ==>
        && indexes[i].observations == old(indexes[i].observations)[..counts[i]]
        && (indexes[i].peakObservations, indexes[i].peakEntities) == peaks[i]
    {
      RollBackAll(counts, attempted);
      RestorePeaks(peaks);
    }

    /** The rolled-back part of an observation: every index and its peaks. */
    method ObserveIndexes(e: Event, fault: Fault) returns (ok: bool)
      requires Valid()
      requires NotAfter(e.occurredAt)
      modifies indexes
      ensures Valid()
      ensures ok <==> !Fires(fault)
      ensures forall i :: 0 <= i < COUNT ==>
        if ok then Observed(old(indexes[i].observations), indexes[i].observations, SPECIFICATIONS[i], e)
        else indexes[i].observations == old(indexes[i].observations)
      ensures forall i :: 0 <= i < COUNT ==>
        && indexes[i].peakObservations == (if ok then Max(old(indexes[i].peakObservations), |indexes[i].observations|) else old(indexes[i].peakObservations))
        && indexes[i].peakEntities == (if ok then Max(old(indexes[i].peakEntities), |indexes[i].aggregates|) else old(indexes[i].peakEntities))
    {
      hide Agrees;
      hide WellFormed;
      OrderIsPermutation();
      hide OPERATIONS;
      hide POSITIONS;
      hide SPECIFICATIONS;
      hide FeatureState.NotAfter;
      hide Observed;
      hide RollingIndex.Valid;
      var counts, peaks := Checkpoint();
      var updates := ObserveAll(e, if fault.DuringUpdates? then fault.updates else COUNT);
      forall i | 0 <= i < COUNT
        ensures counts[i] <= |indexes[i].observations| <= counts[i] + 1
        ensures indexes[i].observations[..counts[i]] == old(indexes[i].observations)
      {
        ObservedGrows(old(indexes[i].observations), indexes[i].observations, SPECIFICATIONS[i], e);
      }
      if updates < COUNT {
        TakeBack(counts, updates + 1, peaks);
        return false;
      }
      CommitAll(if fault.DuringCommits? then fault.commits else COUNT + 1);
      if fault.DuringCommits? && fault.commits <= COUNT {
        TakeBack(counts, COUNT, peaks);
        return false;
      }
      return true;
    }

    /**
     * Add one event to every index whose primary token it carries.  When the
     * fault fires, the observations already made are taken back and the peaks restored.
     */
    method Observe(e: Event, fault: Fault) returns (ok: bool)
      requires Valid()
      requires NotAfter(e.occurredAt)
      modifies this, indexes
      ensures Valid()
      ensures ok <==> !Fires(fault)
      ensures forall i :: 0 <= i < COUNT ==>
        if ok then Observed(old(indexes[i].observations), indexes[i].observations, SPECIFICATIONS[i], e)
        else indexes[i].observations == old(indexes[i].observations)
      ensures forall i :: 0 <= i < COUNT ==>
        && indexes[i].peakObservations == (if ok then Max(old(indexes[i].peakObservations), |indexes[i].observations|) else old(indexes[i].peakObservations))
        && indexes[i].peakEntities == (if ok then Max(old(indexes[i].peakEntities), |indexes[i].aggregates|) else old(indexes[i].peakEntities))
      ensures peakObservationReferences ==
        (if ok then Max(old(peakObservationReferences), SumObservations(indexes)) else old(peakObservationReferences))
      ensures peakEntityBuckets ==
        (if ok then Max(old(peakEntityBuckets), SumEntities(indexes)) else old(peakEntityBuckets))
    {
      hide RollingIndex.Valid;
      hide Observed;
      hide SPECIFICATIONS;
      hide SumObservations;
      hide SumEntities;
      ok := ObserveIndexes(e, fault);
      if ok {
        peakObservationReferences := Max(peakObservationReferences, SumObservations(indexes));
        peakEntityBuckets := Max(peakEntityBuckets, SumEntities(indexes));
      }
    }
  }
}

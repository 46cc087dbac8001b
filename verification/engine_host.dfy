/**
 * The live host of one feature engine (src/riskloom/serving/engine_host.py).
 * Its lock makes each call one step, so a call is a method here.
 */
module EngineHost {
  import opened Common
  import opened RollingIndexes
  import opened FeatureStates
  import opened FeatureSchema
  import opened FeatureEngines

  datatype Request = Request(
    eventId: nat, checkout: Token, merchant: Token, customer: Option<Token>, device: Option<Token>, network: Option<Token>,
    instrument: Token, session: Token, amountSubunits: int, channel: Channel)

  /** At preflight nothing has failed yet. */
  function PreflightToEvent(r: Request, occurredAt: int): Event {
    Event(r.eventId, occurredAt, r.checkout, r.merchant, r.customer, r.device, r.network, r.instrument, r.session,
          r.amountSubunits, r.channel, false)
  }

  class OnlineFeatureEngine {
    const engine: FeatureEngine
    var lastOccurredAt: Option<int>

    ghost predicate Valid()
      reads this, engine, engine.state, engine.state.indexes
    {
      && engine.Valid()
      && (engine.lastKey.Some? ==> lastOccurredAt.Some? && engine.lastKey.value.0 <= lastOccurredAt.value)
    }

    constructor ()
      ensures Valid() && fresh(engine) && fresh(engine.state) && fresh(engine.state.indexes)
      ensures engine.history == []
    {
      engine := new FeatureEngine();
      lastOccurredAt := None;
    }

    /** Whole milliseconds, never at or before the previous answer, whatever the clock says. */
    method NextTimestamp(sampledMicroseconds: int) returns (now: int)
      modifies this`lastOccurredAt
      ensures lastOccurredAt == Some(now)
      ensures old(lastOccurredAt).Some? ==> old(lastOccurredAt).value < now
      ensures old(lastOccurredAt).None? || old(lastOccurredAt).value < sampledMicroseconds / 1000 ==> now == sampledMicroseconds / 1000
      ensures old(lastOccurredAt).Some? && sampledMicroseconds / 1000 <= old(lastOccurredAt).value ==> now == old(lastOccurredAt).value + 1
    {
      now := sampledMicroseconds / 1000;
      if lastOccurredAt.Some? && now <= lastOccurredAt.value {
        now := lastOccurredAt.value + 1;
      }
      lastOccurredAt := Some(now);
    }

    /**
     * One request advances the engine by one event.  The engine's ordering
     * check can never refuse it: only an injected fault can.
     */
    method Process(request: Request, sampledMicroseconds: int, fault: ProcessFault)
      returns (occurredAt: int, r: Result<FeatureVector, EngineError>)
      requires Valid() && WellFormedEvent(PreflightToEvent(request, 0))
      modifies this, engine, engine.state, engine.state.indexes
      ensures Valid()
      ensures lastOccurredAt == Some(occurredAt)
      ensures old(lastOccurredAt).Some? ==> old(lastOccurredAt).value < occurredAt
      ensures r == if Interrupts(fault) then Err(Faulted)
                   else Ok(VectorOf(old(engine.history), PreflightToEvent(request, occurredAt)))
      ensures engine.history == if r.Ok? then old(engine.history) + [PreflightToEvent(request, occurredAt)] else old(engine.history)
      ensures r.Ok? ==>
                var e := engine.history[|engine.history| - 1];
                && e.id == request.eventId && e.occurredAt == occurredAt && !e.failed
                && e.checkout == request.checkout && e.merchant == request.merchant && e.customer == request.customer
                && e.device == request.device && e.network == request.network && e.instrument == request.instrument
                && e.session == request.session && e.amountSubunits == request.amountSubunits && e.channel == request.channel
    {
      hide FeatureEngine.Valid;
      occurredAt := NextTimestamp(sampledMicroseconds);
      r := engine.Process(PreflightToEvent(request, occurredAt), fault);
    }
  }

  /**
   * Posting the outcome as authorized is sound for scoring: the outcome of an
   * event never reaches its own vector.
   */
  lemma OutcomeNeverRead(history: seq<Event>, e: Event, failed: bool)
    ensures VectorOf(history, e) == VectorOf(history, e.(failed := failed))
  {
    var other := e.(failed := failed);
    forall f, w
      ensures SnapOf(f, w, history, e) == SnapOf(f, w, history, other)
    {
      assert PrimaryOf(f, e) == PrimaryOf(f, other);
    }
    hide SnapOf;
    assert VectorOf(history, e).windows == VectorOf(history, other).windows;
    assert VectorOf(history, e).rates == VectorOf(history, other).rates;
  }
}

/**
 * Live preflight requests as an interleaved protocol: claim, score, act,
 * finalise (src/riskloom/services/preflight.py, src/riskloom/serving/decisions.py).
 *
 * Each step is what runs between two awaits.  Upstream order creation is a
 * separate step of the outside world: it may happen before the reply, after a
 * timeout, or never.  A request may crash before any of its steps.
 */
module Preflight {
  import opened Common

  type EventId = nat
  type RequestId = nat
  type ProcessId = nat
  type OrderId = nat

  datatype Risk = RiskAllow | RiskDeny
  datatype Action = Allow | Review | Deny
  datatype Reason = FeatureComputationFailed | ScoringFailed | OrderCreationFailed | OrderBudgetExhausted

  // ----- the decision rule

  datatype Decision = Decision(risk: Option<Risk>, action: Action, reason: Option<Reason>)

  function Classify(probability: real, threshold: real): Risk {
    if probability >= threshold then RiskDeny else RiskAllow
  }

  function Decide(probability: real, threshold: real): Decision {
    var risk := Classify(probability, threshold);
    Decision(Some(risk), if risk.RiskDeny? then Deny else Allow, None)
  }

  function FailSafe(reason: Reason, risk: Option<Risk>): Decision {
    Decision(risk, Review, Some(reason))
  }

  // ----- the ledger's decimal columns

  /** Ledger probabilities have eighteen decimals: a column holds this many units for one. */
  const UNITS := 1_000_000_000_000_000_000.0

  type Column = int

  /** Quantised to eighteen decimals, ties to the even unit. */
  function Quantise(x: real): (units: Column)
    ensures -0.5 <= units as real - x * UNITS <= 0.5
    ensures units as real - x * UNITS == 0.5 || units as real - x * UNITS == -0.5 ==> units % 2 == 0
  {
    var below := (x * UNITS).Floor;
    var rest := x * UNITS - below as real;
    if rest < 0.5 || (rest == 0.5 && below % 2 == 0) then below else below + 1
  }

  /** Rounding into the column can merge values but never reverses them. */
  lemma QuantiseGrows(x: real, y: real)
    requires x <= y
    ensures Quantise(x) <= Quantise(y)
  {
    var a, b := Quantise(x), Quantise(y);
    assert x * UNITS <= y * UNITS;
    assert a > b ==> a as real - b as real >= 1.0;
  }

  function Stored(probability: Option<real>): Option<Column> {
    if probability.Some? then Some(Quantise(probability.value)) else None
  }

  /**
   * The comparison of the stored columns tells the decision that was taken on
   * the unrounded values, unless rounding merged a lower probability with the threshold.
   */
  lemma StoredComparison(p: real, threshold: real)
    ensures (Quantise(p) >= Quantise(threshold) <==> Classify(p, threshold).RiskDeny?)
       <==> !(p < threshold && Quantise(p) == Quantise(threshold))
    ensures Classify(p, threshold).RiskDeny? ==> Quantise(p) >= Quantise(threshold)
  {
    if p < threshold {
      QuantiseGrows(p, threshold);
    } else {
      QuantiseGrows(threshold, p);
    }
  }

  // ----- stored and running state

  /** Every row stores the threshold column when it is claimed; the rest when it is finalised. */
  datatype Row =
    | PendingRow(threshold: Column)
    | FinalRow(threshold: Column, decision: Decision, probability: Option<Column>, order: Option<OrderId>)

  datatype Phase =
    | Arrived
    | Duplicate
    | Claimed
    | Advanced
    | Ordering(scored: real)
    | Decided(decision: Decision, probability: Option<real>, order: Option<OrderId>)
    | Responded(row: Row, duplicate: bool)
    | PendingRefused
    | Crashed

  datatype Request = Request(process: ProcessId, event: EventId, phase: Phase)

  datatype Budget = Budget(limit: nat, attempted: nat)

  /** An outbound order call: the order it created upstream, if any, and whether the caller learnt of it. */
  datatype Call = Call(process: ProcessId, event: EventId, order: Option<OrderId>, acknowledged: bool)

  datatype State = State(
    threshold: real,
    rows: map<EventId, Row>,
    reviews: seq<EventId>,
    requests: map<RequestId, Request>,
    budgets: map<ProcessId, Budget>,
    advances: seq<EventId>,
    scores: map<EventId, real>,
    calls: seq<Call>)

  datatype Scoring = Probability(p: real) | Fails

  datatype Step =
    | StartProcess(process: ProcessId, limit: nat)
    | Arrive(id: RequestId, process: ProcessId, event: EventId)
    | CreateOrder(call: nat, order: OrderId)
    | Claim(id: RequestId)
    | Lookup(id: RequestId)
    | Advance(id: RequestId, ok: bool)
    | Judge(id: RequestId, scoring: Scoring)
    | Reply(id: RequestId, ok: bool)
    | Finalise(id: RequestId)
    | Crash(id: RequestId)

  function Move(s: State, id: RequestId, phase: Phase): State
    requires id in s.requests
  {
    s.(requests := s.requests[id := s.requests[id].(phase := phase)])
  }

  /** The position of the call made for an event. */
  function CallFor(calls: seq<Call>, e: EventId): (k: nat)
    ensures k <= |calls|
    ensures k < |calls| ==> calls[k].event == e
    ensures forall i :: 0 <= i < k ==> calls[i].event != e
  {
    if calls == [] then 0
    else if calls[0].event == e then 0
    else
      var k := CallFor(calls[1..], e);
      assert forall i :: 1 <= i < k + 1 ==> calls[i] == calls[1..][i - 1];
      k + 1
  }

  // ----- the steps

  function Apply(s: State, step: Step): State {
    match step
    case StartProcess(p, limit) => if p in s.budgets then s else s.(budgets := s.budgets[p := Budget(limit, 0)])
    case Arrive(id, p, e) =>
      if id in s.requests || p !in s.budgets then s else s.(requests := s.requests[id := Request(p, e, Arrived)])
    case CreateOrder(k, o) =>
      if k < |s.calls| && s.calls[k].order.None? then s.(calls := s.calls[k := s.calls[k].(order := Some(o))]) else s
    case _ => if step.id in s.requests then ApplyTo(s, step) else s
  }

  function ApplyTo(s: State, step: Step): State
    requires !step.StartProcess? && !step.Arrive? && !step.CreateOrder?
    requires step.id in s.requests
  {
    var id := step.id;
    var r := s.requests[id];
    match (step, r.phase)
    case (Claim(_), Arrived) =>
      if r.event in s.rows then Move(s, id, Duplicate)
      else Move(s.(rows := s.rows[r.event := PendingRow(Quantise(s.threshold))]), id, Claimed)
    case (Lookup(_), Duplicate) =>
      if r.event in s.rows && s.rows[r.event].FinalRow? then Move(s, id, Responded(s.rows[r.event], true))
      else Move(s, id, PendingRefused)
    case (Advance(_, ok), Claimed) =>
      if ok then Move(s.(advances := s.advances + [r.event]), id, Advanced)
      else Move(s, id, Decided(FailSafe(FeatureComputationFailed, None), None, None))
    case (Judge(_, scoring), Advanced) => Act(s, id, scoring)
    case (Reply(_, ok), Ordering(p)) =>
      var k := CallFor(s.calls, r.event);
      if ok && k < |s.calls| && s.calls[k].order.Some? then
        Move(s.(calls := s.calls[k := s.calls[k].(acknowledged := true)]), id,
             Decided(Decide(p, s.threshold), Some(p), s.calls[k].order))
      else if ok then s
      else Move(s, id, Decided(FailSafe(OrderCreationFailed, Decide(p, s.threshold).risk), Some(p), None))
    case (Finalise(_), Decided(decision, probability, order)) =>
      var row := FinalRow(Quantise(s.threshold), decision, Stored(probability), order);
      var reviews := if decision.action.Review? && r.event !in s.reviews then s.reviews + [r.event] else s.reviews;
      Move(s.(rows := s.rows[r.event := row], reviews := reviews), id, Responded(row, false))
    case (Crash(_), _) => Move(s, id, Crashed)
    case _ => s
  }

  /** Score, decide on the unrounded values, and for an allow spend one budget unit and start the order call. */
  function Act(before: State, id: RequestId, scoring: Scoring): State
    requires id in before.requests
  {
    var r := before.requests[id];
    match scoring
    case Fails => Move(before, id, Decided(FailSafe(ScoringFailed, None), None, None))
    case Probability(p) =>
      var s := before.(scores := before.scores[r.event := p]);
      var decision := Decide(p, s.threshold);
      if !decision.action.Allow? then Move(s, id, Decided(decision, Some(p), None))
      else if r.process in s.budgets && s.budgets[r.process].attempted < s.budgets[r.process].limit then
        var b := s.budgets[r.process];
        Move(s.(budgets := s.budgets[r.process := b.(attempted := b.attempted + 1)],
                calls := s.calls + [Call(r.process, r.event, None, false)]), id, Ordering(p))
      else Move(s, id, Decided(FailSafe(OrderBudgetExhausted, decision.risk), Some(p), None))
  }

  function Initial(threshold: real): State {
    State(threshold, map[], [], map[], map[], [], map[], [])
  }

  function Run(threshold: real, steps: seq<Step>): State {
    if steps == [] then Initial(threshold) else Apply(Run(threshold, steps[..|steps| - 1]), steps[|steps| - 1])
  }

  // ----- the invariant

  predicate Owns(p: Phase) {
    p.Claimed? || p.Advanced? || p.Ordering? || p.Decided?
  }

  function CallOf(s: State, e: EventId): Option<Call> {
    var k := CallFor(s.calls, e);
    if k < |s.calls| then Some(s.calls[k]) else None
  }

  /** The unrounded probability the event was scored with. */
  function ScoreOf(s: State, e: EventId): Option<real> {
    if e in s.scores then Some(s.scores[e]) else None
  }

  /** What a completed decision says: its three actions, and what each of them rests on. */
  ghost predicate Sound(s: State, e: EventId, d: Decision, probability: Option<real>, order: Option<OrderId>) {
    && (d.action.Allow? <==> order.Some?)
    && (d.action.Allow? ==> d.risk == Some(RiskAllow))
    && (d.action.Review? <==> d.reason.Some?)
    && (d.action.Deny? <==> d.risk == Some(RiskDeny))
    && (d.risk == (if probability.Some? then Some(Classify(probability.value, s.threshold)) else None))
    && (CallOf(s, e).Some? <==> d.action.Allow? || d.reason == Some(OrderCreationFailed))
    && (CallOf(s, e).Some? ==> (CallOf(s, e).value.acknowledged <==> d.action.Allow?))
    && (order.Some? ==> CallOf(s, e).Some? && CallOf(s, e).value.order == order)
  }

  ghost predicate RequestOk(s: State, r: Request) {
    && (Owns(r.phase) ==> r.event in s.rows && s.rows[r.event].PendingRow?)
    && (r.phase.Claimed? ==> r.event !in s.advances)
    && (r.phase.Claimed? || r.phase.Advanced? ==> CallOf(s, r.event).None? && ScoreOf(s, r.event).None?)
    && (r.phase.Ordering? ==>
          && ScoreOf(s, r.event) == Some(r.phase.scored)
          && CallOf(s, r.event).Some? && !CallOf(s, r.event).value.acknowledged
          && Classify(r.phase.scored, s.threshold).RiskAllow?)
    && (r.phase.Decided? ==>
          && ScoreOf(s, r.event) == r.phase.probability
          && Sound(s, r.event, r.phase.decision, r.phase.probability, r.phase.order))
    && (r.phase.Responded? ==> r.event in s.rows && s.rows[r.event] == r.phase.row && r.phase.row.FinalRow?)
  }

  ghost predicate RowOk(s: State, e: EventId)
    requires e in s.rows
  {
    match s.rows[e]
    case PendingRow(threshold) => threshold == Quantise(s.threshold) && e !in s.reviews
    case FinalRow(threshold, d, probability, order) =>
      && threshold == Quantise(s.threshold)
      && probability == Stored(ScoreOf(s, e))
      && Sound(s, e, d, ScoreOf(s, e), order)
      && (e in s.reviews <==> d.action.Review?)
  }

  predicate Clash(a: Request, b: Request) {
    a.event == b.event && Owns(a.phase) && Owns(b.phase)
  }

  function CallsBy(calls: seq<Call>, p: ProcessId): nat {
    if calls == [] then 0 else CallsBy(calls[1..], p) + if calls[0].process == p then 1 else 0
  }

  function Events(calls: seq<Call>): (es: seq<EventId>)
    ensures |es| == |calls|
    ensures forall i :: 0 <= i < |es| ==> es[i] == calls[i].event
  {
    seq(|calls|, i requires 0 <= i < |calls| => calls[i].event)
  }

  ghost predicate LogsOk(s: State) {
    && Distinct(s.advances) && (forall e :: e in s.advances ==> e in s.rows)
    && (forall e :: e in s.scores ==> e in s.rows)
    && Distinct(Events(s.calls)) && (forall c :: c in s.calls ==> c.event in s.rows && c.process in s.budgets)
    && (forall c :: c in s.calls && c.acknowledged ==> c.order.Some?)
    && Distinct(s.reviews)
    && (forall p :: p in s.budgets ==> CallsBy(s.calls, p) == s.budgets[p].attempted <= s.budgets[p].limit)
  }

  ghost predicate Inv(s: State) {
    && (forall e :: e in s.rows ==> RowOk(s, e))
    && (forall e :: e in s.reviews ==> e in s.rows)
    && (forall id :: id in s.requests ==> s.requests[id].process in s.budgets && RequestOk(s, s.requests[id]))
    && (forall i, j :: i in s.requests && j in s.requests && i != j ==> !Clash(s.requests[i], s.requests[j]))
    && LogsOk(s)
  }

  // ----- a step concerns one event

  /** Nothing about event `e` differs between the two states. */
  ghost predicate SameFor(s: State, t: State, e: EventId) {
    && s.threshold == t.threshold
    && (e in s.rows <==> e in t.rows) && (e in s.rows ==> s.rows[e] == t.rows[e])
    && (e in s.reviews <==> e in t.reviews)
    && (e in s.advances <==> e in t.advances)
    && ScoreOf(s, e) == ScoreOf(t, e)
    && CallOf(s, e) == CallOf(t, e)
  }

  lemma CallAppended(s: State, c: Call, e: EventId)
    ensures CallOf(s.(calls := s.calls + [c]), e)
         == if CallOf(s, e).Some? then CallOf(s, e) else if c.event == e then Some(c) else None
  {
    var calls := s.calls + [c];
    var k, j := CallFor(s.calls, e), CallFor(calls, e);
    assert forall i :: 0 <= i < |s.calls| ==> calls[i] == s.calls[i];
    assert calls[|s.calls|] == c;
    assert j >= k;
    if k < |s.calls| {
      assert calls[k].event == e;
    }
  }

  lemma CallUpdated(s: State, k: nat, c: Call, e: EventId)
    requires k < |s.calls| && s.calls[k].event == c.event && Distinct(Events(s.calls))
    ensures CallOf(s.(calls := s.calls[k := c]), e) == if e == c.event then Some(c) else CallOf(s, e)
  {
    var calls := s.calls[k := c];
    var i, j := CallFor(s.calls, e), CallFor(calls, e);
    assert forall x :: 0 <= x < |calls| ==> calls[x].event == s.calls[x].event;
    if e == c.event {
      assert Events(s.calls)[k] == e;
      assert j < |calls| ==> Events(s.calls)[j] == e;
    }
  }

  lemma SameRow(s: State, t: State, e: EventId)
    requires SameFor(s, t, e) && e in s.rows && RowOk(s, e)
    ensures RowOk(t, e)
  {
  }

  lemma SameRequest(s: State, t: State, r: Request)
    requires SameFor(s, t, r.event) && RequestOk(s, r)
    ensures RequestOk(t, r)
  {
  }

  /** The pending row of an event shows who owns it, and a final row that nobody does. */
  lemma OwnerHasPending(s: State, r: Request)
    requires RequestOk(s, r)
    ensures Owns(r.phase) ==> r.event in s.rows && s.rows[r.event].PendingRow?
    ensures r.phase.Responded? ==> r.event in s.rows && s.rows[r.event].FinalRow?
  {
  }

  lemma IdleRequest(t: State, r: Request)
    requires !Owns(r.phase) && !r.phase.Responded?
    ensures RequestOk(t, r)
  {
  }

  /** What a request step may do: touch only its own event, and keep what is said of that event. */
  ghost predicate OwnStep(s: State, t: State, id: RequestId, phase: Phase)
    requires id in s.requests
  {
    var r := s.requests[id];
    && t.requests == s.requests[id := r.(phase := phase)]
    && t.budgets.Keys == s.budgets.Keys
    && (forall e :: e != r.event ==> SameFor(s, t, e))
    && s.threshold == t.threshold
    && (r.event in t.rows ==> RowOk(t, r.event))
    && (r.event in t.reviews ==> r.event in t.rows)
    && RequestOk(t, r.(phase := phase))
    && (Owns(r.phase) || !Owns(phase) || r.event !in s.rows)
    && (SameFor(s, t, r.event) || Owns(r.phase) || r.event !in s.rows)
    && LogsOk(t)
  }

  lemma OwnEventOnly(s: State, t: State, id: RequestId, phase: Phase)
    requires Inv(s) && id in s.requests && OwnStep(s, t, id, phase)
    ensures Inv(t)
  {
    hide RowOk, RequestOk, SameFor, LogsOk;
    var r := s.requests[id];
    forall e | e in t.rows
      ensures RowOk(t, e)
    {
      if e != r.event {
        SameMembers(s, t, e);
        SameRow(s, t, e);
      }
    }
    forall e | e in t.reviews
      ensures e in t.rows
    {
      if e != r.event {
        SameMembers(s, t, e);
      }
    }
    forall i | i in t.requests && i != id
      ensures RequestOk(t, t.requests[i])
    {
      OtherRequest(s, t, id, phase, i);
    }
    forall i, j | i in t.requests && j in t.requests && i != j
      ensures !Clash(t.requests[i], t.requests[j])
    {
      assert !Clash(s.requests[i], s.requests[j]);
      OwnerHasPending(s, s.requests[i]);
      OwnerHasPending(s, s.requests[j]);
    }
  }

  lemma SameMembers(s: State, t: State, e: EventId)
    requires SameFor(s, t, e)
    ensures (e in s.rows <==> e in t.rows) && (e in s.reviews <==> e in t.reviews)
  {
  }

  lemma OtherRequest(s: State, t: State, id: RequestId, phase: Phase, i: RequestId)
    requires Inv(s) && id in s.requests && OwnStep(s, t, id, phase)
    requires i in s.requests && i != id
    ensures RequestOk(t, s.requests[i])
  {
    hide RowOk, RequestOk, LogsOk;
    var q, r := s.requests[i], s.requests[id];
    OwnerHasPending(s, q);
    OwnerHasPending(s, r);
    if SameFor(s, t, q.event) {
      SameRequest(s, t, q);
    } else {
      assert !Clash(q, r);
      IdleRequest(t, q);
    }
  }

  /** A step that leaves calls and budgets alone keeps the logs in order. */
  lemma LogsGrow(s: State, t: State)
    requires LogsOk(s)
    requires t.calls == s.calls && t.budgets == s.budgets && s.rows.Keys <= t.rows.Keys
    requires Distinct(t.advances) && Distinct(t.reviews)
    requires (forall e :: e in t.advances ==> e in t.rows) && (forall e :: e in t.scores ==> e in t.rows)
    ensures LogsOk(t)
  {
    hide Distinct;
  }

  /** A step that stores nothing. */
  lemma MoveKeeps(s: State, id: RequestId, phase: Phase)
    requires Inv(s) && id in s.requests
    requires RequestOk(s, s.requests[id].(phase := phase)) && (Owns(phase) ==> Owns(s.requests[id].phase))
    ensures Inv(Move(s, id, phase))
  {
    var t := Move(s, id, phase);
    var r := s.requests[id];
    NothingStored(s, t);
    if r.event in s.rows {
      SameRow(s, t, r.event);
    }
    SameRequest(s, t, r.(phase := phase));
    hide RowOk, RequestOk;
    LogsGrow(s, t);
    hide LogsOk, SameFor;
    OwnEventOnly(s, t, id, phase);
  }

  lemma NothingStored(s: State, t: State)
    requires t == s.(requests := t.requests)
    ensures forall e :: SameFor(s, t, e)
  {
  }

  /** The log as it was, or with one event that it did not hold. */
  predicate AtMostAdds(before: seq<EventId>, after: seq<EventId>, e: EventId) {
    after == before || (after == before + [e] && e !in before)
  }

  lemma AddsOnce(before: seq<EventId>, after: seq<EventId>, e: EventId)
    requires Distinct(before) && AtMostAdds(before, after, e)
    ensures Distinct(after) && (e in before ==> e in after)
    ensures forall x :: x != e ==> (x in before <==> x in after)
    ensures forall x :: x in after ==> x in before || x == e
  {
    assert forall i :: 0 <= i < |before| ==> before[i] in before;
  }

  /** A step that stores something about its own event, the calls and budgets left alone. */
  lemma StoreKeeps(s: State, t: State, id: RequestId, phase: Phase)
    requires Inv(s) && id in s.requests
    requires var r := s.requests[id];
             && t.requests == s.requests[id := r.(phase := phase)]
             && t.threshold == s.threshold && t.calls == s.calls && t.budgets == s.budgets
             && s.rows.Keys + {r.event} == t.rows.Keys && (forall e :: e in s.rows && e != r.event ==> t.rows[e] == s.rows[e])
             && (t.scores == s.scores || t.scores.Keys == s.scores.Keys + {r.event})
             && (forall e :: e in s.scores && e != r.event ==> t.scores[e] == s.scores[e])
             && AtMostAdds(s.advances, t.advances, r.event) && AtMostAdds(s.reviews, t.reviews, r.event)
             && (Owns(r.phase) || r.event !in s.rows)
             && RowOk(t, r.event) && RequestOk(t, r.(phase := phase))
    ensures Inv(t)
  {
    hide RowOk, RequestOk, AtMostAdds, CallFor;
    var r := s.requests[id];
    AddsOnce(s.advances, t.advances, r.event);
    AddsOnce(s.reviews, t.reviews, r.event);
    forall e | e != r.event
      ensures SameFor(s, t, e)
    {
    }
    LogsGrow(s, t);
    hide LogsOk, SameFor;
    OwnEventOnly(s, t, id, phase);
  }

  /** An event without a row has left no trace. */
  lemma Untouched(s: State, e: EventId)
    requires LogsOk(s) && e !in s.rows
    ensures e !in s.advances && CallOf(s, e).None? && ScoreOf(s, e).None?
  {
    assert forall i :: 0 <= i < |s.calls| ==> s.calls[i] in s.calls;
  }

  lemma ClaimKeeps(s: State, id: RequestId)
    requires Inv(s) && id in s.requests && s.requests[id].phase.Arrived?
    ensures Inv(Apply(s, Claim(id)))
  {
    hide Quantise, CallFor, SameFor, Decide;
    var e := s.requests[id].event;
    if e in s.rows {
      MoveKeeps(s, id, Duplicate);
    } else {
      var t := Apply(s, Claim(id));
      Untouched(s, e);
      assert CallOf(t, e) == CallOf(s, e);
      hide LogsOk;
      StoreKeeps(s, t, id, Claimed);
    }
  }

  lemma AdvanceKeeps(s: State, id: RequestId, ok: bool)
    requires Inv(s) && id in s.requests && s.requests[id].phase.Claimed?
    ensures Inv(Apply(s, Advance(id, ok)))
  {
    hide Quantise, CallFor, SameFor, LogsOk;
    var r := s.requests[id];
    assert RequestOk(s, r) && RowOk(s, r.event);
    if ok {
      var t := Apply(s, Advance(id, ok));
      assert CallOf(t, r.event) == CallOf(s, r.event);
      StoreKeeps(s, t, id, Advanced);
    } else {
      MoveKeeps(s, id, Decided(FailSafe(FeatureComputationFailed, None), None, None));
    }
  }

  lemma JudgeKeeps(s: State, id: RequestId, scoring: Scoring)
    requires Inv(s) && id in s.requests && s.requests[id].phase.Advanced?
    ensures Inv(Apply(s, Judge(id, scoring)))
  {
    hide Quantise, CallFor, SameFor, LogsOk, RowOk;
    var r := s.requests[id];
    assert RequestOk(s, r);
    match scoring
    case Fails => MoveKeeps(s, id, Decided(FailSafe(ScoringFailed, None), None, None));
    case Probability(p) =>
      var d := Decide(p, s.threshold);
      if !d.action.Allow? {
        ScoreKeeps(s, id, p, d);
      } else if s.budgets[r.process].attempted < s.budgets[r.process].limit {
        OrderCallKeeps(s, id, p);
      } else {
        ScoreKeeps(s, id, p, FailSafe(OrderBudgetExhausted, d.risk));
      }
  }

  /** A scored decision that needs no order. */
  lemma ScoreKeeps(s: State, id: RequestId, p: real, d: Decision)
    requires Inv(s) && id in s.requests && s.requests[id].phase.Advanced?
    requires d.action.Deny? || d.action.Review?
    requires d.action.Review? <==> d.reason.Some?
    requires d.risk == Some(Classify(p, s.threshold)) && (d.action.Deny? <==> d.risk == Some(RiskDeny))
    requires d.reason != Some(OrderCreationFailed)
    ensures Inv(Move(s.(scores := s.scores[s.requests[id].event := p]), id, Decided(d, Some(p), None)))
  {
    hide Quantise, CallFor, SameFor, LogsOk;
    var r := s.requests[id];
    assert RequestOk(s, r) && RowOk(s, r.event);
    var t := Move(s.(scores := s.scores[r.event := p]), id, Decided(d, Some(p), None));
    assert CallOf(t, r.event) == CallOf(s, r.event);
    StoreKeeps(s, t, id, Decided(d, Some(p), None));
  }

  lemma {:induction false} CallsByAppended(calls: seq<Call>, c: Call, p: ProcessId)
    ensures CallsBy(calls + [c], p) == CallsBy(calls, p) + if c.process == p then 1 else 0
  {
    if calls != [] {
      assert (calls + [c])[1..] == calls[1..] + [c];
      CallsByAppended(calls[1..], c, p);
    } else {
      assert [] + [c] == [c] && [c][1..] == [];
    }
  }

  lemma {:induction false} CallsByUpdated(calls: seq<Call>, k: nat, c: Call, p: ProcessId)
    requires k < |calls| && c.process == calls[k].process
    ensures CallsBy(calls[k := c], p) == CallsBy(calls, p)
  {
    if k == 0 {
      assert calls[0 := c][1..] == calls[1..];
    } else {
      assert calls[k := c][1..] == calls[1..][k - 1 := c];
      CallsByUpdated(calls[1..], k - 1, c, p);
    }
  }

  lemma OrderCallKeeps(s: State, id: RequestId, p: real)
    requires Inv(s) && id in s.requests && s.requests[id].phase.Advanced?
    requires Decide(p, s.threshold).action.Allow?
    requires var b := s.budgets[s.requests[id].process]; b.attempted < b.limit
    ensures Inv(Act(s, id, Probability(p)))
  {
    hide Quantise;
    var r := s.requests[id];
    assert RequestOk(s, r) && RowOk(s, r.event);
    var t := Act(s, id, Probability(p));
    var c := Call(r.process, r.event, None, false);
    CallAdded(s, t, c);
    assert RowOk(t, r.event);
    OrderCallLogs(s, t, r, p, c);
    hide CallFor, LogsOk, RowOk, Act;
    forall e | e != r.event
      ensures SameFor(s, t, e)
    {
    }
    OwnEventOnly(s, t, id, Ordering(p));
  }

  lemma CallAdded(s: State, t: State, c: Call)
    requires t.calls == s.calls + [c] && CallOf(s, c.event).None?
    ensures forall e :: CallOf(t, e) == if e == c.event then Some(c) else CallOf(s, e)
  {
    forall e
      ensures CallOf(t, e) == if e == c.event then Some(c) else CallOf(s, e)
    {
      CallAppended(s, c, e);
      assert CallOf(t, e) == CallOf(s.(calls := t.calls), e);
    }
  }

  lemma OrderCallLogs(s: State, t: State, r: Request, p: real, c: Call)
    requires LogsOk(s) && r.event in s.rows && r.process in s.budgets && s.budgets[r.process].attempted < s.budgets[r.process].limit
    requires c == Call(r.process, r.event, None, false) && CallOf(s, r.event).None?
    requires t == s.(requests := t.requests, scores := s.scores[r.event := p], calls := s.calls + [c],
                     budgets := s.budgets[r.process := s.budgets[r.process].(attempted := s.budgets[r.process].attempted + 1)])
    ensures LogsOk(t)
  {
    forall q
      ensures CallsBy(t.calls, q) == CallsBy(s.calls, q) + if q == r.process then 1 else 0
    {
      CallsByAppended(s.calls, c, q);
    }
    NoEventTwice(s, c);
  }

  lemma NoEventTwice(s: State, c: Call)
    requires Distinct(Events(s.calls)) && CallOf(s, c.event).None?
    ensures Distinct(Events(s.calls + [c]))
  {
    var es := Events(s.calls + [c]);
    forall i, j | 0 <= i < j < |es|
      ensures es[i] != es[j]
    {
      assert es[i] == Events(s.calls)[i];
      assert j < |s.calls| ==> es[j] == Events(s.calls)[j];
    }
  }

  /** Acknowledging a call changes what is known of its own event only. */
  lemma CallAcknowledged(s: State, t: State, k: nat, c: Call, event: EventId)
    requires Distinct(Events(s.calls)) && k < |s.calls| && c.event == s.calls[k].event == event
    requires t.calls == s.calls[k := c]
    ensures forall e :: CallOf(t, e) == if e == event then Some(c) else CallOf(s, e)
  {
    forall e
      ensures CallOf(t, e) == if e == event then Some(c) else CallOf(s, e)
    {
      CallUpdated(s, k, c, e);
      assert CallOf(t, e) == CallOf(s.(calls := t.calls), e);
    }
  }

  /** The caller learns of its order. */
  lemma AcknowledgeKeeps(s: State, id: RequestId, k: nat)
    requires Inv(s) && id in s.requests && s.requests[id].phase.Ordering?
    requires k == CallFor(s.calls, s.requests[id].event) && k < |s.calls| && s.calls[k].order.Some?
    ensures Inv(Apply(s, Reply(id, true)))
  {
    hide Quantise, Inv;
    var r := s.requests[id];
    assert RequestOk(s, r) && RowOk(s, r.event) && LogsOk(s) by {
      InvParts(s, id);
    }
    var t := Apply(s, Reply(id, true));
    var c := s.calls[k].(acknowledged := true);
    CallAcknowledged(s, t, k, c, r.event);
    UpdateKeepsLogs(s, k, c);
    assert LogsOk(t) && RowOk(t, r.event);
    hide CallFor, LogsOk, RowOk, Apply;
    OwnEventOnly(s, t, id, t.requests[id].phase);
  }

  lemma InvParts(s: State, id: RequestId)
    requires Inv(s) && id in s.requests
    ensures RequestOk(s, s.requests[id]) && LogsOk(s)
    ensures s.requests[id].event in s.rows ==> RowOk(s, s.requests[id].event)
  {
  }

  lemma ReplyKeeps(s: State, id: RequestId, ok: bool)
    requires Inv(s) && id in s.requests && s.requests[id].phase.Ordering?
    ensures Inv(Apply(s, Reply(id, ok)))
  {
    hide Quantise, LogsOk, RowOk;
    var r := s.requests[id];
    var p := r.phase.scored;
    assert RequestOk(s, r);
    var k := CallFor(s.calls, r.event);
    if ok && s.calls[k].order.Some? {
      AcknowledgeKeeps(s, id, k);
    } else if !ok {
      MoveKeeps(s, id, Decided(FailSafe(OrderCreationFailed, Decide(p, s.threshold).risk), Some(p), None));
    }
  }

  lemma UpdateKeepsLogs(s: State, k: nat, c: Call)
    requires LogsOk(s) && k < |s.calls|
    requires c.process == s.calls[k].process && c.event == s.calls[k].event && (c.acknowledged ==> c.order.Some?)
    ensures LogsOk(s.(calls := s.calls[k := c]))
  {
    assert Events(s.calls[k := c]) == Events(s.calls);
    assert s.calls[k] in s.calls;
    forall p
      ensures CallsBy(s.calls[k := c], p) == CallsBy(s.calls, p)
    {
      CallsByUpdated(s.calls, k, c, p);
    }
  }

  lemma FinaliseKeeps(s: State, id: RequestId)
    requires Inv(s) && id in s.requests && s.requests[id].phase.Decided?
    ensures Inv(Apply(s, Finalise(id)))
  {
    hide Quantise, CallFor, SameFor, LogsOk;
    var r := s.requests[id];
    assert RequestOk(s, r) && RowOk(s, r.event);
    var t := Apply(s, Finalise(id));
    assert CallOf(t, r.event) == CallOf(s, r.event);
    StoreKeeps(s, t, id, t.requests[id].phase);
  }

  /** An order appears upstream: known to nobody here until a reply says so. */
  lemma CreateKeeps(s: State, k: nat, o: OrderId)
    requires Inv(s) && k < |s.calls| && s.calls[k].order.None?
    ensures Inv(Apply(s, CreateOrder(k, o)))
  {
    var t := Apply(s, CreateOrder(k, o));
    var c := s.calls[k].(order := Some(o));
    assert s.calls[k] in s.calls && !c.acknowledged;
    UpdateKeepsLogs(s, k, c);
    forall e
      ensures CallOf(t, e) == if e == c.event then Some(c) else CallOf(s, e)
    {
      CallUpdated(s, k, c, e);
    }
    CallUpdated(s, k, s.calls[k], c.event);
    assert s.calls[k := s.calls[k]] == s.calls;
    assert CallOf(s, c.event) == Some(s.calls[k]);
    forall e | e in t.rows
      ensures RowOk(t, e)
    {
      assert RowOk(s, e);
    }
    forall i | i in t.requests
      ensures RequestOk(t, t.requests[i])
    {
      assert RequestOk(s, s.requests[i]);
    }
  }

  lemma RequestStepKeeps(s: State, step: Step)
    requires !step.StartProcess? && !step.Arrive? && !step.CreateOrder?
    requires Inv(s) && step.id in s.requests
    ensures Inv(ApplyTo(s, step))
  {
    var r := s.requests[step.id];
    assert RequestOk(s, r);
    match (step, r.phase)
    case (Claim(id), Arrived) => ClaimKeeps(s, id);
    case (Lookup(id), Duplicate) =>
      MoveKeeps(s, id, if r.event in s.rows && s.rows[r.event].FinalRow? then Responded(s.rows[r.event], true) else PendingRefused);
    case (Advance(id, ok), Claimed) => AdvanceKeeps(s, id, ok);
    case (Judge(id, scoring), Advanced) => JudgeKeeps(s, id, scoring);
    case (Reply(id, ok), Ordering(_)) => ReplyKeeps(s, id, ok);
    case (Finalise(id), Decided(_, _, _)) => FinaliseKeeps(s, id);
    case (Crash(id), _) => MoveKeeps(s, id, Crashed);
    case _ =>
  }

  lemma {:induction false} NoCallsBy(calls: seq<Call>, p: ProcessId)
    requires forall c :: c in calls ==> c.process != p
    ensures CallsBy(calls, p) == 0
  {
    if calls != [] {
      assert calls[0] in calls;
      NoCallsBy(calls[1..], p);
    }
  }

  lemma StepKeeps(s: State, step: Step)
    requires Inv(s)
    ensures Inv(Apply(s, step))
  {
    match step
    case StartProcess(p, limit) =>
      if p !in s.budgets {
        NoCallsBy(s.calls, p);
        OnlyParties(s, Apply(s, step));
      }
    case Arrive(id, p, e) => OnlyParties(s, Apply(s, step));
    case CreateOrder(k, o) =>
      if k < |s.calls| && s.calls[k].order.None? {
        CreateKeeps(s, k, o);
      }
    case _ =>
      if step.id in s.requests {
        RequestStepKeeps(s, step);
      }
  }

  /** New processes and new requests say nothing about any event. */
  lemma OnlyParties(s: State, t: State)
    requires Inv(s) && LogsOk(t)
    requires t == s.(requests := t.requests, budgets := t.budgets)
    requires s.budgets.Keys <= t.budgets.Keys && s.requests.Keys <= t.requests.Keys
    requires forall i :: i in t.requests ==>
      if i in s.requests then t.requests[i] == s.requests[i]
      else t.requests[i].phase.Arrived? && t.requests[i].process in t.budgets
    ensures Inv(t)
  {
    forall e | e in t.rows
      ensures RowOk(t, e)
    {
      assert RowOk(s, e);
    }
    forall i | i in t.requests
      ensures RequestOk(t, t.requests[i])
    {
      assert i in s.requests ==> RequestOk(s, s.requests[i]);
    }
  }

  lemma {:induction false} RunKeeps(threshold: real, steps: seq<Step>)
    ensures Inv(Run(threshold, steps))
  {
    if steps != [] {
      RunKeeps(threshold, steps[..|steps| - 1]);
      StepKeeps(Run(threshold, steps[..|steps| - 1]), steps[|steps| - 1]);
    }
  }

  // ----- what holds in every run

  /** Each event id advances the engine at most once and causes at most one order call. */
  lemma AtMostOnce(threshold: real, steps: seq<Step>, e: EventId)
    ensures var s := Run(threshold, steps);
            multiset(s.advances)[e] <= 1 && multiset(Events(s.calls))[e] <= 1 && multiset(s.reviews)[e] <= 1
  {
    RunKeeps(threshold, steps);
    var s := Run(threshold, steps);
    DistinctOnce(s.advances, e);
    DistinctOnce(Events(s.calls), e);
    DistinctOnce(s.reviews, e);
  }

  lemma {:induction false} DistinctOnce(es: seq<EventId>, e: EventId)
    requires Distinct(es)
    ensures multiset(es)[e] == if e in es then 1 else 0
  {
    if es != [] {
      var n := |es| - 1;
      DistinctOnce(es[..n], e);
      assert es == es[..n] + [es[n]];
    }
  }

  lemma CallsWithinLimit(threshold: real, steps: seq<Step>, p: ProcessId)
    ensures var s := Run(threshold, steps);
            CallsBy(s.calls, p) <= if p in s.budgets then s.budgets[p].limit else 0
  {
    RunKeeps(threshold, steps);
    var s := Run(threshold, steps);
    if p !in s.budgets {
      NoCallsBy(s.calls, p);
    }
  }

  /**
   * What a final row means, in every run: its action follows the unrounded
   * probability, of which the row stores the rounded column.
   */
  lemma FinalRows(threshold: real, steps: seq<Step>, e: EventId)
    ensures var s := Run(threshold, steps);
            e in s.rows && s.rows[e].FinalRow? ==>
              var row := s.rows[e];
              var d := row.decision;
              var scored := ScoreOf(s, e);
              && (d.action.Allow? <==> row.order.Some?)
              && (d.action.Review? <==> d.reason.Some?)
              && (d.action.Review? <==> multiset(s.reviews)[e] == 1)
              && (d.action.Deny? <==> d.risk == Some(RiskDeny))
              && (d.action.Deny? <==> scored.Some? && scored.value >= threshold)
              && (d.action.Allow? ==> scored.Some? && scored.value < threshold)
              && row.probability == Stored(scored) && row.threshold == Quantise(threshold)
  {
    RunKeeps(threshold, steps);
    ThresholdFixed(threshold, steps);
    var s := Run(threshold, steps);
    DistinctOnce(s.reviews, e);
    if e in s.rows {
      assert RowOk(s, e);
    }
  }

  /** Whether a row's own columns read as reaching the threshold, as an explanation is told. */
  predicate ColumnsReach(row: Row) {
    row.FinalRow? && row.probability.Some? && row.probability.value >= row.threshold
  }

  /**
   * In every run: what a final row's columns say is its risk decision, except
   * exactly when rounding merged a probability below the threshold with it.
   * A denied row, the only kind that is explained, never reads otherwise.
   */
  lemma ColumnsTellTheRisk(threshold: real, steps: seq<Step>, e: EventId)
    ensures var s := Run(threshold, steps);
            e in s.rows && s.rows[e].FinalRow? && s.rows[e].decision.risk.Some? ==>
              && ScoreOf(s, e).Some?
              && ((ColumnsReach(s.rows[e]) <==> s.rows[e].decision.risk == Some(RiskDeny))
                  <==> !(ScoreOf(s, e).value < threshold && Quantise(ScoreOf(s, e).value) == Quantise(threshold)))
              && (s.rows[e].decision.risk == Some(RiskDeny) ==> ColumnsReach(s.rows[e]))
  {
    RunKeeps(threshold, steps);
    ThresholdFixed(threshold, steps);
    var s := Run(threshold, steps);
    if e in s.rows {
      assert RowOk(s, e);
      if ScoreOf(s, e).Some? {
        StoredComparison(ScoreOf(s, e).value, threshold);
      }
    }
  }

  lemma {:induction false} ThresholdFixed(threshold: real, steps: seq<Step>)
    ensures Run(threshold, steps).threshold == threshold
  {
    hide Apply;
    if steps != [] {
      ThresholdFixed(threshold, steps[..|steps| - 1]);
      StepFixesThreshold(Run(threshold, steps[..|steps| - 1]), steps[|steps| - 1]);
    }
  }

  lemma StepFixesThreshold(s: State, step: Step)
    ensures Apply(s, step).threshold == s.threshold
  {
    hide Quantise, Decide, CallFor;
  }

  lemma FinalKept(s: State, step: Step, e: EventId)
    requires Inv(s) && e in s.rows && s.rows[e].FinalRow?
    ensures e in Apply(s, step).rows && Apply(s, step).rows[e] == s.rows[e]
  {
    if !step.StartProcess? && !step.Arrive? && !step.CreateOrder? && step.id in s.requests {
      OwnFinalKept(s, step, e);
    }
  }

  lemma OwnFinalKept(s: State, step: Step, e: EventId)
    requires Inv(s) && e in s.rows && s.rows[e].FinalRow?
    requires !step.StartProcess? && !step.Arrive? && !step.CreateOrder? && step.id in s.requests
    ensures e in Apply(s, step).rows && Apply(s, step).rows[e] == s.rows[e]
  {
    assert RequestOk(s, s.requests[step.id]);
    hide Inv, Quantise, Decide, CallFor;
  }

  /** A final row is never re-decided or removed. */
  lemma {:induction false} FinalForever(threshold: real, steps: seq<Step>, more: seq<Step>, e: EventId)
    requires e in Run(threshold, steps).rows && Run(threshold, steps).rows[e].FinalRow?
    ensures e in Run(threshold, steps + more).rows
    ensures Run(threshold, steps + more).rows[e] == Run(threshold, steps).rows[e]
  {
    hide Inv;
    hide Apply;
    if more == [] {
      assert steps + more == steps;
    } else {
      var n := |more| - 1;
      FinalForever(threshold, steps, more[..n], e);
      RunKeeps(threshold, steps + more[..n]);
      FinalKept(Run(threshold, steps + more[..n]), more[n], e);
      assert (steps + more)[..|steps + more| - 1] == steps + more[..n];
    }
  }

  /** Every answer a caller got, duplicate or not, is the one final row of its event. */
  lemma AnswersAreFinalRows(threshold: real, steps: seq<Step>, id: RequestId)
    ensures var s := Run(threshold, steps);
            id in s.requests && s.requests[id].phase.Responded? ==>
              s.requests[id].event in s.rows && s.rows[s.requests[id].event] == s.requests[id].phase.row
  {
    RunKeeps(threshold, steps);
    var s := Run(threshold, steps);
    if id in s.requests {
      assert RequestOk(s, s.requests[id]);
    }
  }

  /**
   * An order that exists upstream is backed by a final allow row, or its row is
   * still pending, exactly when its creation was acknowledged or is undecided;
   * the rest are the orders whose reply was an error.
   */
  lemma OrdersAreBacked(threshold: real, steps: seq<Step>, c: Call)
    requires c in Run(threshold, steps).calls && c.order.Some?
    ensures var s := Run(threshold, steps);
            && c.event in s.rows
            && match s.rows[c.event]
               case PendingRow(_) => true
               case FinalRow(_, d, _, order) =>
                 && (c.acknowledged <==> d.action.Allow?)
                 && (c.acknowledged ==> order == c.order)
                 && (!c.acknowledged <==> d.reason == Some(OrderCreationFailed))
  {
    RunKeeps(threshold, steps);
    var s := Run(threshold, steps);
    var k :| 0 <= k < |s.calls| && s.calls[k] == c;
    var j := CallFor(s.calls, c.event);
    assert Events(s.calls)[k] == c.event;
    assert j == k by {
      assert j < |s.calls| ==> Events(s.calls)[j] == c.event;
    }
    assert RowOk(s, c.event);
  }

  /** A first request for event 7 holds its row. */
  lemma ClaimedRun(threshold: real) returns (steps: seq<Step>)
    ensures Run(threshold, steps)
         == State(threshold, map[7 := PendingRow(Quantise(threshold))], [], map[0 := Request(0, 7, Claimed)], map[0 := Budget(1, 0)], [], map[], [])
  {
    hide Quantise;
    var none: seq<Step> := [];
    var started := none + [StartProcess(0, 1)];
    Snoc(threshold, none, StartProcess(0, 1));
    var arrived := started + [Arrive(0, 0, 7)];
    Snoc(threshold, started, Arrive(0, 0, 7));
    assert Run(threshold, arrived) == State(threshold, map[], [], map[0 := Request(0, 7, Arrived)], map[0 := Budget(1, 0)], [], map[], []);
    steps := arrived + [Claim(0)];
    Snoc(threshold, arrived, Claim(0));
  }

  /** It is scored `p`, below the threshold, and waits for its order. */
  lemma AllowedAndOrdering(p: real, threshold: real) returns (steps: seq<Step>)
    requires p < threshold
    ensures Run(threshold, steps) == State(
      threshold, map[7 := PendingRow(Quantise(threshold))], [], map[0 := Request(0, 7, Ordering(p))], map[0 := Budget(1, 1)],
      [7], map[7 := p], [Call(0, 7, None, false)])
  {
    hide Quantise, Run;
    var row := PendingRow(Quantise(threshold));
    var claimed := ClaimedRun(threshold);
    var advanced := claimed + [Advance(0, true)];
    Snoc(threshold, claimed, Advance(0, true));
    assert Run(threshold, advanced)
        == State(threshold, map[7 := row], [], map[0 := Request(0, 7, Advanced)], map[0 := Budget(1, 0)], [7], map[], []);
    steps := advanced + [Judge(0, Probability(p))];
    Snoc(threshold, advanced, Judge(0, Probability(p)));
  }

  /** Such an unbacked order is reachable: it is created, its reply is lost, the row says review. */
  lemma LostReply(o: OrderId) returns (steps: seq<Step>)
    ensures var s := Run(1.0, steps);
            && s.calls == [Call(0, 7, Some(o), false)]
            && s.rows == map[7 := FinalRow(Quantise(1.0), FailSafe(OrderCreationFailed, Some(RiskAllow)), Some(Quantise(0.5)), None)]
  {
    hide Quantise, Run;
    var ordering := AllowedAndOrdering(0.5, 1.0);
    var created := ordering + [CreateOrder(0, o)];
    Snoc(1.0, ordering, CreateOrder(0, o));
    var call := Call(0, 7, Some(o), false);
    assert Run(1.0, created).calls == [call];
    var lost := created + [Reply(0, false)];
    Snoc(1.0, created, Reply(0, false));
    assert Run(1.0, lost).requests == map[0 := Request(0, 7, Decided(FailSafe(OrderCreationFailed, Some(RiskAllow)), Some(0.5), None))];
    steps := lost + [Finalise(0)];
    Snoc(1.0, lost, Finalise(0));
  }

  /** An event scored below the threshold and allowed, up to its final row. */
  lemma Allowed(p: real, threshold: real, o: OrderId) returns (steps: seq<Step>)
    requires p < threshold
    ensures Run(threshold, steps).rows
         == map[7 := FinalRow(Quantise(threshold), Decide(p, threshold), Some(Quantise(p)), Some(o))]
  {
    hide Quantise, Run;
    var ordering := AllowedAndOrdering(p, threshold);
    var created := ordering + [CreateOrder(0, o)];
    Snoc(threshold, ordering, CreateOrder(0, o));
    assert Run(threshold, created).calls == [Call(0, 7, Some(o), false)];
    var replied := created + [Reply(0, true)];
    Snoc(threshold, created, Reply(0, true));
    assert Run(threshold, replied).requests == map[0 := Request(0, 7, Decided(Decide(p, threshold), Some(p), Some(o)))];
    steps := replied + [Finalise(0)];
    Snoc(threshold, replied, Finalise(0));
  }

  /** The locked development threshold, and the probability one float64 step below it. */
  const LOCKED_THRESHOLD := 0.0033862949155182734
  const STEP_BELOW := 0.003386294915518273

  /** The columns can read as a deny where the row is a true allow: the locked threshold and the cluster just below it. */
  lemma ColumnsMisread(o: OrderId) returns (steps: seq<Step>)
    ensures 7 in Run(LOCKED_THRESHOLD, steps).rows
    ensures var row := Run(LOCKED_THRESHOLD, steps).rows[7];
            row.FinalRow? && row.decision.action.Allow? && ColumnsReach(row)
  {
    steps := Allowed(STEP_BELOW, LOCKED_THRESHOLD, o);
    assert STEP_BELOW * UNITS == 3_386_294_915_518_273.0;
    assert LOCKED_THRESHOLD * UNITS == 3_386_294_915_518_273.4;
    assert Quantise(STEP_BELOW) == Quantise(LOCKED_THRESHOLD) == 3_386_294_915_518_273;
  }

  lemma Snoc(threshold: real, steps: seq<Step>, step: Step)
    ensures Run(threshold, steps + [step]) == Apply(Run(threshold, steps), step)
  {
    assert (steps + [step])[..|steps|] == steps;
  }
}

/**
 * What each step of a preflight request stores and answers, in every run
 * (src/riskloom/services/preflight.py).
 */
module PreflightOutcomes {
  import opened Common
  import opened Preflight

  ghost predicate StandsAt(s: State, id: RequestId, p: ProcessId, e: EventId, phase: Phase) {
    id in s.requests && s.requests[id] == Request(p, e, phase)
  }

  // ----- claims and duplicates

  /** Repeating a request whose event has a final row is answered with that row, and does nothing else. */
  lemma DuplicateIsAnswered(threshold: real, steps: seq<Step>, id: RequestId, p: ProcessId, e: EventId)
    requires e in Run(threshold, steps).rows && Run(threshold, steps).rows[e].FinalRow?
    requires id !in Run(threshold, steps).requests && p in Run(threshold, steps).budgets
    ensures var s, t := Run(threshold, steps), Run(threshold, steps + [Arrive(id, p, e)] + [Claim(id)] + [Lookup(id)]);
            t == s.(requests := s.requests[id := Request(p, e, Responded(s.rows[e], true))])
  {
    Snoc(threshold, steps, Arrive(id, p, e));
    Snoc(threshold, steps + [Arrive(id, p, e)], Claim(id));
    Snoc(threshold, steps + [Arrive(id, p, e)] + [Claim(id)], Lookup(id));
    var s := Run(threshold, steps);
    hide Run, Quantise;
    assert Apply(s, Arrive(id, p, e)) == s.(requests := s.requests[id := Request(p, e, Arrived)]);
  }

  /** A duplicate is refused as pending exactly when its event has no final row yet. */
  lemma DuplicateReads(threshold: real, steps: seq<Step>, id: RequestId, p: ProcessId, e: EventId)
    requires StandsAt(Run(threshold, steps), id, p, e, Duplicate)
    ensures var s, t := Run(threshold, steps), Run(threshold, steps + [Lookup(id)]);
            && (StandsAt(t, id, p, e, PendingRefused) <==> !(e in s.rows && s.rows[e].FinalRow?))
            && (e in s.rows && s.rows[e].FinalRow? ==> StandsAt(t, id, p, e, Responded(s.rows[e], true)))
            && t == s.(requests := t.requests)
  {
    Snoc(threshold, steps, Lookup(id));
  }

  /** The first request of an event claims it with a pending row; any other is a duplicate. */
  lemma ClaimDecides(threshold: real, steps: seq<Step>, id: RequestId, p: ProcessId, e: EventId)
    requires StandsAt(Run(threshold, steps), id, p, e, Arrived)
    ensures var s, t := Run(threshold, steps), Run(threshold, steps + [Claim(id)]);
            if e in s.rows then StandsAt(t, id, p, e, Duplicate) && t.rows == s.rows
            else StandsAt(t, id, p, e, Claimed) && t.rows == s.rows[e := PendingRow(Quantise(threshold))]
  {
    Snoc(threshold, steps, Claim(id));
    ThresholdFixed(threshold, steps);
  }

  // ----- the final row of each course of events

  /** The request is answered with this row, which is stored; the event is up for review exactly if the action is review. */
  ghost predicate Ends(s: State, t: State, id: RequestId, p: ProcessId, e: EventId, row: Row)
    requires row.FinalRow?
  {
    && StandsAt(t, id, p, e, Responded(row, false))
    && t.rows == s.rows[e := row]
    && (row.decision.action == Review ==> e in t.reviews)
    && (row.decision.action != Review ==> t.reviews == s.reviews)
  }

  lemma Finalised(threshold: real, steps: seq<Step>, id: RequestId, p: ProcessId, e: EventId,
                  d: Decision, probability: Option<real>, order: Option<OrderId>)
    requires StandsAt(Run(threshold, steps), id, p, e, Decided(d, probability, order))
    ensures var s, t := Run(threshold, steps), Run(threshold, steps + [Finalise(id)]);
            && Ends(s, t, id, p, e, FinalRow(Quantise(threshold), d, Stored(probability), order))
            && t.calls == s.calls && t.budgets == s.budgets && t.scores == s.scores && t.advances == s.advances
  {
    Snoc(threshold, steps, Finalise(id));
    ThresholdFixed(threshold, steps);
    hide Run, Quantise, Stored;
  }

  /** When the features cannot be computed the row is a review for that reason, without a score or a risk. */
  lemma FeatureFailureIsReviewed(threshold: real, steps: seq<Step>, id: RequestId, p: ProcessId, e: EventId)
    requires StandsAt(Run(threshold, steps), id, p, e, Claimed)
    ensures var s, t := Run(threshold, steps), Run(threshold, steps + [Advance(id, false)] + [Finalise(id)]);
            && Ends(s, t, id, p, e, FinalRow(Quantise(threshold), Decision(None, Review, Some(FeatureComputationFailed)), None, None))
            && t.calls == s.calls && t.advances == s.advances
  {
    Snoc(threshold, steps, Advance(id, false));
    Finalised(threshold, steps + [Advance(id, false)], id, p, e, Decision(None, Review, Some(FeatureComputationFailed)), None, None);
  }

  /** Computed features advance the engine by this event and nothing else. */
  lemma FeaturesAdvance(threshold: real, steps: seq<Step>, id: RequestId, p: ProcessId, e: EventId)
    requires StandsAt(Run(threshold, steps), id, p, e, Claimed)
    ensures var s, t := Run(threshold, steps), Run(threshold, steps + [Advance(id, true)]);
            && StandsAt(t, id, p, e, Advanced) && t.advances == s.advances + [e] && t.rows == s.rows && t.calls == s.calls
  {
    Snoc(threshold, steps, Advance(id, true));
  }

  /** When scoring fails the row is a review for that reason, without a score or a risk. */
  lemma ScoringFailureIsReviewed(threshold: real, steps: seq<Step>, id: RequestId, p: ProcessId, e: EventId)
    requires StandsAt(Run(threshold, steps), id, p, e, Advanced)
    ensures var s, t := Run(threshold, steps), Run(threshold, steps + [Judge(id, Fails)] + [Finalise(id)]);
            && Ends(s, t, id, p, e, FinalRow(Quantise(threshold), Decision(None, Review, Some(ScoringFailed)), None, None))
            && t.calls == s.calls
  {
    Snoc(threshold, steps, Judge(id, Fails));
    Finalised(threshold, steps + [Judge(id, Fails)], id, p, e, Decision(None, Review, Some(ScoringFailed)), None, None);
  }

  /** A score at or above the threshold is denied, without an order call. */
  lemma HighScoreIsDenied(threshold: real, steps: seq<Step>, id: RequestId, p: ProcessId, e: EventId, score: real)
    requires StandsAt(Run(threshold, steps), id, p, e, Advanced) && score >= threshold
    ensures var s, t := Run(threshold, steps), Run(threshold, steps + [Judge(id, Probability(score))] + [Finalise(id)]);
            && Ends(s, t, id, p, e, FinalRow(Quantise(threshold), Decision(Some(RiskDeny), Deny, None), Some(Quantise(score)), None))
            && t.calls == s.calls && t.budgets == s.budgets
  {
    Snoc(threshold, steps, Judge(id, Probability(score)));
    ThresholdFixed(threshold, steps);
    Finalised(threshold, steps + [Judge(id, Probability(score))], id, p, e, Decision(Some(RiskDeny), Deny, None), Some(score), None);
  }

  /** A score below the threshold gets its order call whenever the budget has a unit left, and takes that unit. */
  lemma LowScoreOrders(threshold: real, steps: seq<Step>, id: RequestId, p: ProcessId, e: EventId, score: real)
    requires StandsAt(Run(threshold, steps), id, p, e, Advanced) && score < threshold
    requires p in Run(threshold, steps).budgets && Run(threshold, steps).budgets[p].attempted < Run(threshold, steps).budgets[p].limit
    ensures var s, t := Run(threshold, steps), Run(threshold, steps + [Judge(id, Probability(score))]);
            && StandsAt(t, id, p, e, Ordering(score))
            && t.calls == s.calls + [Call(p, e, None, false)]
            && t.budgets == s.budgets[p := Budget(s.budgets[p].limit, s.budgets[p].attempted + 1)]
            && t.rows == s.rows && t.reviews == s.reviews
  {
    Snoc(threshold, steps, Judge(id, Probability(score)));
    ThresholdFixed(threshold, steps);
    hide Run, Quantise;
  }

  /** Without a unit it is a review for that reason, and calls nobody. */
  lemma ExhaustedBudgetIsReviewed(threshold: real, steps: seq<Step>, id: RequestId, p: ProcessId, e: EventId, score: real)
    requires StandsAt(Run(threshold, steps), id, p, e, Advanced) && score < threshold
    requires p in Run(threshold, steps).budgets && Run(threshold, steps).budgets[p].attempted >= Run(threshold, steps).budgets[p].limit
    ensures var s, t := Run(threshold, steps), Run(threshold, steps + [Judge(id, Probability(score))] + [Finalise(id)]);
            && Ends(s, t, id, p, e,
                    FinalRow(Quantise(threshold), Decision(Some(RiskAllow), Review, Some(OrderBudgetExhausted)), Some(Quantise(score)), None))
            && t.calls == s.calls && t.budgets == s.budgets
  {
    Snoc(threshold, steps, Judge(id, Probability(score)));
    ThresholdFixed(threshold, steps);
    Finalised(threshold, steps + [Judge(id, Probability(score))], id, p, e,
              Decision(Some(RiskAllow), Review, Some(OrderBudgetExhausted)), Some(score), None);
  }

  /** An order that failed, as far as the caller knows, makes the row a review for that reason. */
  lemma FailedOrderIsReviewed(threshold: real, steps: seq<Step>, id: RequestId, p: ProcessId, e: EventId, score: real)
    requires StandsAt(Run(threshold, steps), id, p, e, Ordering(score))
    ensures var s, t := Run(threshold, steps), Run(threshold, steps + [Reply(id, false)] + [Finalise(id)]);
            && Ends(s, t, id, p, e,
                    FinalRow(Quantise(threshold), Decision(Some(RiskAllow), Review, Some(OrderCreationFailed)), Some(Quantise(score)), None))
            && t.calls == s.calls
  {
    hide Inv, Quantise;
    RunKeeps(threshold, steps);
    ThresholdFixed(threshold, steps);
    Snoc(threshold, steps, Reply(id, false));
    hide Run;
    ReplyFails(Run(threshold, steps), id, p, e, score);
    hide Apply;
    Finalised(threshold, steps + [Reply(id, false)], id, p, e,
              Decision(Some(RiskAllow), Review, Some(OrderCreationFailed)), Some(score), None);
  }

  lemma ReplyFails(s: State, id: RequestId, p: ProcessId, e: EventId, score: real)
    requires Inv(s) && StandsAt(s, id, p, e, Ordering(score))
    ensures Apply(s, Reply(id, false))
         == Move(s, id, Decided(Decision(Some(RiskAllow), Review, Some(OrderCreationFailed)), Some(score), None))
  {
    OrderingIsLow(s, id, score);
    hide Inv;
  }

  lemma ReplyArrives(s: State, id: RequestId, p: ProcessId, e: EventId, score: real, k: nat, o: OrderId)
    requires Inv(s) && StandsAt(s, id, p, e, Ordering(score))
    requires k < |s.calls| && s.calls[k].event == e && s.calls[k].order == Some(o)
    ensures Apply(s, Reply(id, true))
         == Move(s.(calls := s.calls[k := s.calls[k].(acknowledged := true)]), id,
                 Decided(Decision(Some(RiskAllow), Allow, None), Some(score), Some(o)))
  {
    OrderingIsLow(s, id, score);
    OneCallFor(s, e, k);
    hide Inv, CallFor, Act, Quantise;
    assert Decide(score, s.threshold) == Decision(Some(RiskAllow), Allow, None);
  }

  lemma OrderingIsLow(s: State, id: RequestId, score: real)
    requires Inv(s) && id in s.requests && s.requests[id].phase == Ordering(score)
    ensures score < s.threshold && CallFor(s.calls, s.requests[id].event) < |s.calls|
  {
    assert RequestOk(s, s.requests[id]);
  }

  /** An order the caller learns of makes the row an allow with that order. */
  lemma LearntOrderIsAllowed(threshold: real, steps: seq<Step>, id: RequestId, p: ProcessId, e: EventId, score: real, k: nat, o: OrderId)
    requires StandsAt(Run(threshold, steps), id, p, e, Ordering(score))
    requires k < |Run(threshold, steps).calls| && Run(threshold, steps).calls[k].event == e && Run(threshold, steps).calls[k].order == Some(o)
    ensures var s, t := Run(threshold, steps), Run(threshold, steps + [Reply(id, true)] + [Finalise(id)]);
            && Ends(s, t, id, p, e, FinalRow(Quantise(threshold), Decision(Some(RiskAllow), Allow, None), Some(Quantise(score)), Some(o)))
            && t.calls == s.calls[k := s.calls[k].(acknowledged := true)]
  {
    hide Inv, Quantise;
    RunKeeps(threshold, steps);
    ThresholdFixed(threshold, steps);
    Snoc(threshold, steps, Reply(id, true));
    hide Run;
    ReplyArrives(Run(threshold, steps), id, p, e, score, k, o);
    hide Apply;
    Finalised(threshold, steps + [Reply(id, true)], id, p, e, Decision(Some(RiskAllow), Allow, None), Some(score), Some(o));
  }

  lemma OneCallFor(s: State, e: EventId, k: nat)
    requires Inv(s) && k < |s.calls| && s.calls[k].event == e
    ensures CallFor(s.calls, e) == k
  {
    var j := CallFor(s.calls, e);
    assert Events(s.calls)[k] == e;
    assert j < |s.calls| ==> Events(s.calls)[j] == e;
  }

  /** A crash ends a request and touches nothing stored. */
  lemma CrashStoresNothing(threshold: real, steps: seq<Step>, id: RequestId)
    requires id in Run(threshold, steps).requests
    ensures var s, t := Run(threshold, steps), Run(threshold, steps + [Crash(id)]);
            t == s.(requests := s.requests[id := s.requests[id].(phase := Crashed)])
  {
    Snoc(threshold, steps, Crash(id));
  }
}

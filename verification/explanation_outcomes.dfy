/**
 * What the steps of an explanation request read, store and answer, over every
 * run of the protocol (src/riskloom/services/explanations.py).
 */
module ExplanationOutcomes {
  import opened Explanations

  lemma Snoc(steps: seq<Step>, step: Step)
    ensures Run(steps + [step]) == Apply(Run(steps), step)
  {
    assert (steps + [step])[..|steps|] == steps;
  }

  /** The request stands at this phase, for this decision. */
  ghost predicate StandsAt(s: State, id: RequestId, d: DecisionId, phase: Phase) {
    id in s.requests && s.requests[id].decision == d && s.requests[id].phase == phase
  }

  // ----- what is stored

  /** Whatever terminal answer a call gets is stored under its attempt, and nothing else changes. */
  lemma AnswerIsStored(steps: seq<Step>, id: RequestId, d: DecisionId, n: nat, o: Attempt)
    requires StandsAt(Run(steps), id, d, Calling(n)) && o.status in {Ready, Failed, Rejected}
    ensures var t := Run(steps + [Respond(id, o)] + [Finalise(id)]);
            t.attempts == Run(steps).attempts[(d, n) := o] && StandsAt(t, id, d, Viewed)
  {
    Snoc(steps, Respond(id, o));
    Snoc(steps + [Respond(id, o)], Finalise(id));
  }

  /** A claimed attempt for which the budget has a unit takes it and calls. */
  lemma UnitIsSpent(steps: seq<Step>, id: RequestId, d: DecisionId, n: nat, p: ProcessId)
    requires StandsAt(Run(steps), id, d, Claimed(n)) && Run(steps).requests[id].process == p && p in Run(steps).budgets
    requires Run(steps).budgets[p].attempted < Run(steps).budgets[p].limit
    ensures var s, t := Run(steps), Run(steps + [Spend(id)]);
            && StandsAt(t, id, d, Calling(n)) && t.calls == s.calls + [Call(p, d, n)] && t.attempts == s.attempts
            && t.budgets == s.budgets[p := Budget(s.budgets[p].limit, s.budgets[p].attempted + 1)]
  {
    Snoc(steps, Spend(id));
    var s := Run(steps);
    hide Run, Plan;
    var b := s.budgets[p];
    assert Apply(s, Spend(id)) == Move(s.(budgets := s.budgets[p := b.(attempted := b.attempted + 1)],
                                          calls := s.calls + [Call(p, d, n)]), id, Calling(n));
    hide Apply;
  }

  /** Without a unit it fails as exhausted, calls nobody, and the request is refused. */
  lemma ExhaustionIsStored(steps: seq<Step>, id: RequestId, d: DecisionId, n: nat, p: ProcessId)
    requires StandsAt(Run(steps), id, d, Claimed(n)) && Run(steps).requests[id].process == p && p in Run(steps).budgets
    requires Run(steps).budgets[p].attempted >= Run(steps).budgets[p].limit
    ensures var s, t := Run(steps), Run(steps + [Spend(id)] + [Finalise(id)]);
            && t.calls == s.calls && t.budgets == s.budgets
            && t.attempts == s.attempts[(d, n) := Attempt(Failed, "budget_exhausted")]
            && StandsAt(t, id, d, Refused(BudgetExhausted))
  {
    Snoc(steps, Spend(id));
    Snoc(steps + [Spend(id)], Finalise(id));
    hide Run;
    assert Apply(Run(steps), Spend(id)) == Move(Run(steps), id, OverBudget(n));
  }

  /** A crash ends a request and touches nothing stored. */
  lemma CrashStoresNothing(steps: seq<Step>, id: RequestId)
    requires id in Run(steps).requests
    ensures var s, t := Run(steps), Run(steps + [Crash(id)]);
            t == s.(requests := s.requests[id := s.requests[id].(phase := Crashed)])
  {
    Snoc(steps, Crash(id));
  }

  // ----- what is refused, and for what

  /** Only a decision that is final and a deny goes on. */
  lemma DecisionRead(steps: seq<Step>, id: RequestId, d: DecisionId)
    requires StandsAt(Run(steps), id, d, Arrived)
    ensures var s, t := Run(steps), Run(steps + [ReadDecision(id)]);
            && (StandsAt(t, id, d, Refused(NotFound)) <==> d !in s.ledger)
            && (StandsAt(t, id, d, Eligible) <==> d in s.ledger && s.ledger[d] == Decided(VerdictDeny))
            && (StandsAt(t, id, d, Refused(NotEligible)) <==> d in s.ledger && s.ledger[d] != Decided(VerdictDeny))
            && t.attempts == s.attempts && t.calls == s.calls
  {
    Snoc(steps, ReadDecision(id));
  }

  /** Every stored attempt of the decision failed or was rejected. */
  ghost predicate AllSpent(s: State, d: DecisionId) {
    forall k :: (d, k) in s.attempts ==> s.attempts[(d, k)].status in {Failed, Rejected}
  }

  /** The answer to an eligible request follows the attempts it reads, in this order; the next attempt has the first free number. */
  lemma AttemptsRead(steps: seq<Step>, id: RequestId, d: DecisionId, configured: bool)
    requires StandsAt(Run(steps), id, d, Eligible)
    ensures var s, t := Run(steps), Run(steps + [ReadAttempts(id, configured)]);
            var pending := exists k :: (d, k) in s.attempts && s.attempts[(d, k)].status == Pending;
            var ready := exists k :: (d, k) in s.attempts && s.attempts[(d, k)].status == Ready;
            var full := (d, 1) in s.attempts && (d, 2) in s.attempts && (d, 3) in s.attempts;
            && (StandsAt(t, id, d, Refused(InProgress)) <==> pending)
            && (StandsAt(t, id, d, Viewed) <==> !pending && ready)
            && (StandsAt(t, id, d, Refused(AttemptsExhausted)) <==> AllSpent(s, d) && full)
            && (StandsAt(t, id, d, Refused(NotConfigured)) <==> AllSpent(s, d) && !full && !configured)
            && (forall n :: StandsAt(t, id, d, Planned(n)) <==>
                  && AllSpent(s, d) && !full && configured
                  && 1 <= n <= 3 && (d, n) !in s.attempts && forall k :: 1 <= k < n ==> (d, k) in s.attempts)
            && t.attempts == s.attempts && t.calls == s.calls
  {
    var s := Run(steps);
    RunKeeps(steps);
    Snoc(steps, ReadAttempts(id, configured));
    assert WellNumbered(s.attempts, d);
    hide Run, Inv;
    FirstThree(s.attempts, d);
    StatusesRead(s, d);
    hide WellNumbered, Numbers, AnyWith, AllSpent;
  }

  lemma FirstThree(attempts: map<(DecisionId, nat), Attempt>, d: DecisionId)
    requires WellNumbered(attempts, d)
    ensures var count := |Numbers(attempts, d)|;
            && (count >= 3 <==> (d, 1) in attempts && (d, 2) in attempts && (d, 3) in attempts)
            && forall n: nat :: n == count + 1 <==> n >= 1 && (d, n) !in attempts && forall k :: 1 <= k < n ==> (d, k) in attempts
  {
    var numbers := Numbers(attempts, d);
    assert forall k :: (d, k) in attempts <==> k in numbers;
    var count := |numbers|;
    forall n: nat
      ensures n == count + 1 <==> n >= 1 && (d, n) !in attempts && forall k :: 1 <= k < n ==> (d, k) in attempts
    {
      assert n > count + 1 ==> (d, count + 1) !in attempts;
      assert 1 <= n <= count ==> (d, n) in attempts;
    }
  }

  lemma StatusesRead(s: State, d: DecisionId)
    ensures AnyWith(s.attempts, d, Pending) <==> exists k :: (d, k) in s.attempts && s.attempts[(d, k)].status == Pending
    ensures AnyWith(s.attempts, d, Ready) <==> exists k :: (d, k) in s.attempts && s.attempts[(d, k)].status == Ready
    ensures AllSpent(s, d) <==> !AnyWith(s.attempts, d, Pending) && !AnyWith(s.attempts, d, Ready)
  {
    assert forall k :: (d, k) in s.attempts <==> k in Numbers(s.attempts, d);
  }

  /** A planned attempt is claimed as pending if its number is still free, and otherwise someone else is at it. */
  lemma ClaimTaken(steps: seq<Step>, id: RequestId, d: DecisionId, n: nat)
    requires StandsAt(Run(steps), id, d, Planned(n))
    ensures var s, t := Run(steps), Run(steps + [Claim(id)]);
            if (d, n) in s.attempts then StandsAt(t, id, d, Refused(InProgress)) && t.attempts == s.attempts
            else StandsAt(t, id, d, Claimed(n)) && t.attempts == s.attempts[(d, n) := Attempt(Pending, "")]
  {
    Snoc(steps, Claim(id));
  }

  // ----- where every stored attempt comes from

  /** Some step answered the call of the request that had claimed this attempt with `o`. */
  ghost predicate Given(steps: seq<Step>, d: DecisionId, n: nat, o: Attempt) {
    exists i, id :: 0 <= i < |steps| && GivenAt(steps, i, id, d, n, o)
  }

  ghost predicate GivenAt(steps: seq<Step>, i: nat, id: RequestId, d: DecisionId, n: nat, o: Attempt)
    requires i < |steps|
  {
    steps[i] == Respond(id, o) && StandsAt(Run(steps[..i]), id, d, Calling(n))
  }

  /** Some step ended the request that had claimed this attempt and found its budget spent. */
  ghost predicate Exhausted(steps: seq<Step>, d: DecisionId, n: nat) {
    exists i, id :: 0 <= i < |steps| && ExhaustedAt(steps, i, id, d, n)
  }

  ghost predicate ExhaustedAt(steps: seq<Step>, i: nat, id: RequestId, d: DecisionId, n: nat)
    requires i < |steps|
  {
    steps[i] == Finalise(id) && StandsAt(Run(steps[..i]), id, d, OverBudget(n))
  }

  lemma GivenGrows(steps: seq<Step>, step: Step, d: DecisionId, n: nat, o: Attempt)
    requires Given(steps, d, n, o)
    ensures Given(steps + [step], d, n, o)
  {
    var i, id :| 0 <= i < |steps| && GivenAt(steps, i, id, d, n, o);
    assert (steps + [step])[..i] == steps[..i];
    assert GivenAt(steps + [step], i, id, d, n, o);
  }

  lemma ExhaustedGrows(steps: seq<Step>, step: Step, d: DecisionId, n: nat)
    requires Exhausted(steps, d, n)
    ensures Exhausted(steps + [step], d, n)
  {
    var i, id :| 0 <= i < |steps| && ExhaustedAt(steps, i, id, d, n);
    assert (steps + [step])[..i] == steps[..i];
    assert ExhaustedAt(steps + [step], i, id, d, n);
  }

  ghost predicate AttemptSourced(steps: seq<Step>, d: DecisionId, n: nat) {
    var s := Run(steps);
    (d, n) in s.attempts && s.attempts[(d, n)].status != Pending ==>
      || Given(steps, d, n, s.attempts[(d, n)])
      || (s.attempts[(d, n)] == Attempt(Failed, "budget_exhausted") && Exhausted(steps, d, n))
  }

  ghost predicate AnswerSourced(steps: seq<Step>, id: RequestId) {
    var s := Run(steps);
    id in s.requests && s.requests[id].phase.Answered? ==>
      Given(steps, s.requests[id].decision, s.requests[id].phase.number, s.requests[id].phase.outcome)
  }

  /** Every terminal attempt of every run is the answer its own call got, or the failure of an exhausted budget. */
  lemma {:induction false} AttemptsAreAnswers(steps: seq<Step>)
    ensures forall d, n :: AttemptSourced(steps, d, n)
    ensures forall id :: AnswerSourced(steps, id)
  {
    if steps != [] {
      var n := |steps| - 1;
      var before, step := steps[..n], steps[n];
      AttemptsAreAnswers(before);
      assert steps == before + [step];
      forall d, k
        ensures AttemptSourced(steps, d, k)
      {
        StepSources(before, step, d, k);
      }
      forall id
        ensures AnswerSourced(steps, id)
      {
        StepAnswers(before, step, id);
      }
    }
  }

  lemma StepAnswers(steps: seq<Step>, step: Step, id: RequestId)
    requires AnswerSourced(steps, id)
    ensures AnswerSourced(steps + [step], id)
  {
    var s, all := Run(steps), steps + [step];
    Snoc(steps, step);
    hide Run;
    var t := Run(all);
    if id in t.requests && t.requests[id].phase.Answered? {
      var d, n, o := t.requests[id].decision, t.requests[id].phase.number, t.requests[id].phase.outcome;
      if id in s.requests && s.requests[id] == t.requests[id] {
        GivenGrows(steps, step, d, n, o);
      } else {
        assert all[..|steps|] == steps;
        assert GivenAt(all, |steps|, id, d, n, o);
      }
    }
  }

  lemma StepSources(steps: seq<Step>, step: Step, d: DecisionId, n: nat)
    requires AttemptSourced(steps, d, n) && forall id :: AnswerSourced(steps, id)
    ensures AttemptSourced(steps + [step], d, n)
  {
    var s, all := Run(steps), steps + [step];
    Snoc(steps, step);
    hide Run;
    var t := Run(all);
    if (d, n) in t.attempts && t.attempts[(d, n)].status != Pending {
      var a := t.attempts[(d, n)];
      if (d, n) in s.attempts && s.attempts[(d, n)] == a {
        if Given(steps, d, n, a) {
          GivenGrows(steps, step, d, n, a);
        } else {
          ExhaustedGrows(steps, step, d, n);
        }
      } else {
        var r := s.requests[step.id];
        assert step.Finalise? && r.decision == d;
        if r.phase.Answered? {
          assert AnswerSourced(steps, step.id);
          GivenGrows(steps, step, d, n, a);
        } else {
          assert all[..|steps|] == steps;
          assert ExhaustedAt(all, |steps|, step.id, d, n);
        }
      }
    }
  }

  // ----- an explanation can be had

  /** A denied decision, a budget of one and an answer: the summary ends up stored as ready. */
  lemma ReadyIsReached(summary: string) returns (steps: seq<Step>)
    ensures Run(steps).attempts == map[(7, 1) := Attempt(Ready, summary)]
    ensures Run(steps).calls == [Call(0, 7, 1)] && StandsAt(Run(steps), 0, 7, Viewed)
  {
    hide Run, Plan, Apply;
    var answer := Attempt(Ready, summary);
    steps := OneCalling();
    AnswerIsStored(steps, 0, 7, 1, answer);
    CallsKept(steps, 0, 1, answer);
    steps := steps + [Respond(0, answer)] + [Finalise(0)];
  }

  lemma OneCalling() returns (steps: seq<Step>)
    ensures Run(steps) == State(map[7 := Decided(VerdictDeny)], map[(7, 1) := Attempt(Pending, "")], map[0 := Request(0, 7, Calling(1))],
                                map[0 := Budget(1, 1)], [Call(0, 7, 1)])
  {
    hide Run, Plan;
    var ledger, claimed := map[7 := Decided(VerdictDeny)], map[(7, 1) := Attempt(Pending, "")];
    steps := OnePlanned();
    steps := Next(steps, Claim(0), State(ledger, claimed, map[0 := Request(0, 7, Claimed(1))], map[0 := Budget(1, 0)], []));
    steps := Next(steps, Spend(0), State(ledger, claimed, map[0 := Request(0, 7, Calling(1))], map[0 := Budget(1, 1)], [Call(0, 7, 1)]));
  }

  lemma CallsKept(steps: seq<Step>, id: RequestId, n: nat, o: Attempt)
    requires id in Run(steps).requests && Run(steps).requests[id].phase == Calling(n) && Terminal(o)
    ensures Run(steps + [Respond(id, o)] + [Finalise(id)]).calls == Run(steps).calls
  {
    Snoc(steps, Respond(id, o));
    Snoc(steps + [Respond(id, o)], Finalise(id));
    hide Run, Plan;
  }

  lemma OnePlanned() returns (steps: seq<Step>)
    ensures Run(steps) == State(map[7 := Decided(VerdictDeny)], map[], map[0 := Request(0, 7, Planned(1))], map[0 := Budget(1, 0)], [])
  {
    hide Run, Plan;
    var ledger, budgets := map[7 := Decided(VerdictDeny)], map[0 := Budget(1, 0)];
    NothingRun();
    steps := Next([], Record(7), State(map[7 := Undecided], map[], map[], map[], []));
    steps := Next(steps, Decide(7, VerdictDeny), State(ledger, map[], map[], map[], []));
    steps := Next(steps, StartProcess(0, 1), State(ledger, map[], map[], budgets, []));
    steps := Next(steps, Arrive(0, 0, 7), State(ledger, map[], map[0 := Request(0, 7, Arrived)], budgets, []));
    steps := Next(steps, ReadDecision(0), State(ledger, map[], map[0 := Request(0, 7, Eligible)], budgets, []));
    PlanFirst(Run(steps), 7);
    steps := Next(steps, ReadAttempts(0, true), State(ledger, map[], map[0 := Request(0, 7, Planned(1))], budgets, []));
  }

  lemma NothingRun()
    ensures Run([]) == State(map[], map[], map[], map[], [])
  {
  }

  lemma PlanFirst(s: State, d: DecisionId)
    requires forall k :: (d, k) !in s.attempts
    ensures Plan(s, d, true) == Planned(1)
  {
    assert Numbers(s.attempts, d) == {};
  }

  lemma Next(steps: seq<Step>, step: Step, t: State) returns (more: seq<Step>)
    requires Apply(Run(steps), step) == t
    ensures Run(more) == t
  {
    more := steps + [step];
    Snoc(steps, step);
  }
}

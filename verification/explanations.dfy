/**
 * Explanation requests as an interleaved protocol (src/riskloom/services/explanations.py).
 *
 * The database is a map with unique keys, each step is what runs between two
 * awaits, upstream outcomes are chosen by the step, and a request may crash
 * before any of its steps.
 */
module Explanations {
  import opened Common

  const MAX_ATTEMPTS := 3

  type DecisionId = nat
  type RequestId = nat
  type ProcessId = nat

  /** The part of the decision ledger that eligibility reads. */
  datatype Verdict = VerdictAllow | VerdictDeny | NoVerdict
  datatype Ledger = Undecided | Decided(verdict: Verdict)

  datatype Status = Pending | Ready | Failed | Rejected

  /** A stored attempt; `content` is the summary or the failure reason. */
  datatype Attempt = Attempt(status: Status, content: string)

  datatype Refusal = NotFound | NotEligible | InProgress | AttemptsExhausted | NotConfigured | BudgetExhausted

  datatype Phase =
    | Arrived
    | Eligible
    | Planned(number: nat)
    | Claimed(number: nat)
    | Calling(number: nat)
    | Answered(number: nat, outcome: Attempt)
    | OverBudget(number: nat)
    | Refused(code: Refusal)
    | Viewed
    | Crashed

  datatype Request = Request(process: ProcessId, decision: DecisionId, phase: Phase)

  datatype Budget = Budget(limit: nat, attempted: nat)

  /** One outbound call. */
  datatype Call = Call(process: ProcessId, decision: DecisionId, number: nat)

  datatype State = State(
    ledger: map<DecisionId, Ledger>,
    attempts: map<(DecisionId, nat), Attempt>,
    requests: map<RequestId, Request>,
    budgets: map<ProcessId, Budget>,
    calls: seq<Call>)

  datatype Step =
    | Record(decision: DecisionId)
    | Decide(decision: DecisionId, verdict: Verdict)
    | StartProcess(process: ProcessId, limit: nat)
    | Arrive(id: RequestId, process: ProcessId, decision: DecisionId)
    | ReadDecision(id: RequestId)
    | ReadAttempts(id: RequestId, configured: bool)
    | Claim(id: RequestId)
    | Spend(id: RequestId)
    | Respond(id: RequestId, outcome: Attempt)
    | Finalise(id: RequestId)
    | Crash(id: RequestId)

  predicate IsEligible(ledger: map<DecisionId, Ledger>, d: DecisionId) {
    d in ledger && ledger[d] == Decided(VerdictDeny)
  }

  predicate Terminal(a: Attempt) {
    !a.status.Pending?
  }

  predicate Spent(a: Attempt) {
    a.status.Failed? || a.status.Rejected?
  }

  /** The attempt numbers stored for a decision. */
  function Numbers(attempts: map<(DecisionId, nat), Attempt>, d: DecisionId): set<nat> {
    set k | k in attempts && k.0 == d :: k.1
  }

  predicate AnyWith(attempts: map<(DecisionId, nat), Attempt>, d: DecisionId, status: Status) {
    exists n | n in Numbers(attempts, d) :: attempts[(d, n)].status == status
  }

  function Move(s: State, id: RequestId, phase: Phase): State
    requires id in s.requests
  {
    s.(requests := s.requests[id := s.requests[id].(phase := phase)])
  }

  // ----- the steps

  function Plan(s: State, d: DecisionId, configured: bool): Phase {
    if AnyWith(s.attempts, d, Pending) then Refused(InProgress)
    else if AnyWith(s.attempts, d, Ready) then Viewed
    else if |Numbers(s.attempts, d)| >= MAX_ATTEMPTS then Refused(AttemptsExhausted)
    else if !configured then Refused(NotConfigured)
    else Planned(|Numbers(s.attempts, d)| + 1)
  }

  function Store(s: State, id: RequestId, number: nat, a: Attempt, next: Phase): State
    requires id in s.requests
  {
    Move(s.(attempts := s.attempts[(s.requests[id].decision, number) := a]), id, next)
  }

  function Apply(s: State, step: Step): State {
    match step
    case Record(d) => if d in s.ledger then s else s.(ledger := s.ledger[d := Undecided])
    case Decide(d, v) => if d in s.ledger && s.ledger[d].Undecided? then s.(ledger := s.ledger[d := Decided(v)]) else s
    case StartProcess(p, limit) => if p in s.budgets then s else s.(budgets := s.budgets[p := Budget(limit, 0)])
    case Arrive(id, p, d) =>
      if id in s.requests || p !in s.budgets then s else s.(requests := s.requests[id := Request(p, d, Arrived)])
    case _ => if step.id in s.requests then ApplyTo(s, step) else s
  }

  function ApplyTo(s: State, step: Step): State
    requires !step.Record? && !step.Decide? && !step.StartProcess? && !step.Arrive?
    requires step.id in s.requests
  {
    var id := step.id;
    var r := s.requests[id];
    match (step, r.phase)
    case (ReadDecision(_), Arrived) =>
      Move(s, id, if r.decision !in s.ledger then Refused(NotFound)
                  else if IsEligible(s.ledger, r.decision) then Eligible else Refused(NotEligible))
    case (ReadAttempts(_, configured), Eligible) => Move(s, id, Plan(s, r.decision, configured))
    case (Claim(_), Planned(n)) =>
      if (r.decision, n) in s.attempts then Move(s, id, Refused(InProgress))
      else Store(s, id, n, Attempt(Pending, ""), Claimed(n))
    case (Spend(_), Claimed(n)) =>
      if r.process in s.budgets && s.budgets[r.process].attempted < s.budgets[r.process].limit then
        var b := s.budgets[r.process];
        Move(s.(budgets := s.budgets[r.process := b.(attempted := b.attempted + 1)],
                calls := s.calls + [Call(r.process, r.decision, n)]), id, Calling(n))
      else Move(s, id, OverBudget(n))
    case (Respond(_, outcome), Calling(n)) => if Terminal(outcome) then Move(s, id, Answered(n, outcome)) else s
    case (Finalise(_), Answered(n, outcome)) => Store(s, id, n, outcome, Viewed)
    case (Finalise(_), OverBudget(n)) => Store(s, id, n, Attempt(Failed, "budget_exhausted"), Refused(BudgetExhausted))
    case (Crash(_), _) => Move(s, id, Crashed)
    case _ => s
  }

  /** Nothing stored, nobody there. */
  const INITIAL := State(map[], map[], map[], map[], [])

  function Run(steps: seq<Step>): State {
    if steps == [] then INITIAL else Apply(Run(steps[..|steps| - 1]), steps[|steps| - 1])
  }

  // ----- the invariant

  /** Numbered 1..n with n at most three, and all but the last of them spent. */
  ghost predicate WellNumbered(attempts: map<(DecisionId, nat), Attempt>, d: DecisionId) {
    var n := |Numbers(attempts, d)|;
    && n <= MAX_ATTEMPTS
    && (forall k :: k in Numbers(attempts, d) <==> 1 <= k <= n)
    && (forall k :: 1 <= k < n ==> (d, k) in attempts && Spent(attempts[(d, k)]))
  }

  ghost predicate AllNumbered(attempts: map<(DecisionId, nat), Attempt>) {
    forall d: DecisionId :: WellNumbered(attempts, d)
  }

  /** The attempt a request has claimed and not yet finalised. */
  function Holds(p: Phase): Option<nat> {
    match p
    case Claimed(n) => Some(n)
    case Calling(n) => Some(n)
    case Answered(n, _) => Some(n)
    case OverBudget(n) => Some(n)
    case _ => None
  }

  ghost predicate Called(calls: seq<Call>, d: DecisionId, n: nat) {
    exists i :: 0 <= i < |calls| && calls[i].decision == d && calls[i].number == n
  }

  ghost predicate RequestOk(s: State, r: Request) {
    && (r.phase.Eligible? || r.phase.Planned? || Holds(r.phase).Some? ==> IsEligible(s.ledger, r.decision))
    && (r.phase.Planned? ==>
          && 1 <= r.phase.number <= MAX_ATTEMPTS
          && forall k :: 1 <= k < r.phase.number ==> (r.decision, k) in s.attempts && Spent(s.attempts[(r.decision, k)]))
    && (Holds(r.phase).Some? ==>
          (r.decision, Holds(r.phase).value) in s.attempts && s.attempts[(r.decision, Holds(r.phase).value)].status.Pending?)
    && (r.phase.Claimed? ==> !Called(s.calls, r.decision, r.phase.number))
    && (r.phase.Answered? ==> Terminal(r.phase.outcome))
  }

  /** No two requests hold the same attempt. */
  ghost predicate Exclusive(s: State) {
    forall i, j :: i in s.requests && j in s.requests && i != j ==> !Clash(s.requests[i], s.requests[j])
  }

  predicate Clash(a: Request, b: Request) {
    a.decision == b.decision && Holds(a.phase).Some? && Holds(a.phase) == Holds(b.phase)
  }

  function CallsBy(calls: seq<Call>, p: ProcessId): nat {
    if calls == [] then 0 else CallsBy(calls[..|calls| - 1], p) + if calls[|calls| - 1].process == p then 1 else 0
  }

  ghost predicate CallsOk(s: State) {
    && (forall c :: c in s.calls ==> (c.decision, c.number) in s.attempts && c.process in s.budgets)
    && (forall i, j :: 0 <= i < j < |s.calls| ==> (s.calls[i].decision, s.calls[i].number) != (s.calls[j].decision, s.calls[j].number))
    && (forall p :: p in s.budgets ==> CallsBy(s.calls, p) == s.budgets[p].attempted <= s.budgets[p].limit)
  }

  ghost predicate Inv(s: State) {
    && AllNumbered(s.attempts)
    && (forall k :: k in s.attempts ==> IsEligible(s.ledger, k.0))
    && (forall id :: id in s.requests ==> s.requests[id].process in s.budgets && RequestOk(s, s.requests[id]))
    && Exclusive(s)
    && CallsOk(s)
  }

  // ----- every step keeps it

  lemma MoveKeeps(s: State, id: RequestId, phase: Phase)
    requires Inv(s) && id in s.requests
    requires RequestOk(s, s.requests[id].(phase := phase))
    requires Holds(phase).None? || Holds(phase) == Holds(s.requests[id].phase)
    ensures Inv(Move(s, id, phase))
  {
    var t := Move(s, id, phase);
    forall i | i in t.requests
      ensures t.requests[i].process in t.budgets && RequestOk(t, t.requests[i])
    {
      assert i != id ==> RequestOk(s, s.requests[i]);
    }
    forall i, j | i in t.requests && j in t.requests && i != j
      ensures !Clash(t.requests[i], t.requests[j])
    {
      assert !Clash(s.requests[i], s.requests[j]);
    }
  }

  /** A new attempt gets the next number, on top of spent ones. */
  lemma ClaimKeepsNumbers(attempts: map<(DecisionId, nat), Attempt>, d: DecisionId, n: nat, a: Attempt)
    requires AllNumbered(attempts)
    requires 1 <= n <= MAX_ATTEMPTS && (d, n) !in attempts
    requires forall k :: 1 <= k < n ==> (d, k) in attempts && Spent(attempts[(d, k)])
    ensures n == |Numbers(attempts, d)| + 1
    ensures AllNumbered(attempts[(d, n) := a])
  {
    var before := Numbers(attempts, d);
    assert WellNumbered(attempts, d);
    assert n !in before;
    assert n > 1 ==> n - 1 in before by {
      assert n > 1 ==> (d, n - 1) in attempts;
    }
    var after := attempts[(d, n) := a];
    forall e: DecisionId
      ensures WellNumbered(after, e)
    {
      if e == d {
        assert Numbers(after, d) == before + {n};
      } else {
        assert Numbers(after, e) == Numbers(attempts, e);
        assert WellNumbered(attempts, e);
        assert forall k :: 1 <= k < |Numbers(attempts, e)| ==> (e, k) in attempts;
      }
    }
  }

  /** Rewriting an unspent attempt touches only the last one. */
  lemma RewriteKeepsNumbers(attempts: map<(DecisionId, nat), Attempt>, d: DecisionId, n: nat, a: Attempt)
    requires AllNumbered(attempts)
    requires (d, n) in attempts && !Spent(attempts[(d, n)])
    ensures n == |Numbers(attempts, d)|
    ensures AllNumbered(attempts[(d, n) := a])
  {
    assert WellNumbered(attempts, d);
    assert n in Numbers(attempts, d);
    var after := attempts[(d, n) := a];
    forall e: DecisionId
      ensures WellNumbered(after, e)
    {
      assert Numbers(after, e) == Numbers(attempts, e);
      assert WellNumbered(attempts, e);
    }
  }

  lemma ClaimKeeps(s: State, id: RequestId)
    requires Inv(s) && id in s.requests && s.requests[id].phase.Planned?
    ensures Inv(Apply(s, Claim(id)))
  {
    var r := s.requests[id];
    var d, n := r.decision, r.phase.number;
    assert RequestOk(s, r);
    if (d, n) in s.attempts {
      MoveKeeps(s, id, Refused(InProgress));
    } else {
      ClaimKeepsNumbers(s.attempts, d, n, Attempt(Pending, ""));
      var t := Store(s, id, n, Attempt(Pending, ""), Claimed(n));
      StoreKeeps(s, id, n, Attempt(Pending, ""), Claimed(n));
    }
  }

  /** Storing under one's own number, new or held, upsets no other request. */
  lemma StoreKeeps(s: State, id: RequestId, n: nat, a: Attempt, next: Phase)
    requires Inv(s) && id in s.requests
    requires var d := s.requests[id].decision;
             && IsEligible(s.ledger, d)
             && ((d, n) !in s.attempts || Holds(s.requests[id].phase) == Some(n))
             && AllNumbered(s.attempts[(d, n) := a])
    requires var t := Store(s, id, n, a, next); RequestOk(t, t.requests[id])
    requires Holds(next).None? || Holds(next) == Some(n)
    ensures Inv(Store(s, id, n, a, next))
  {
    var d := s.requests[id].decision;
    var t := Store(s, id, n, a, next);
    assert RequestOk(s, s.requests[id]);
    forall i | i in t.requests && i != id
      ensures RequestOk(t, t.requests[i]) && !Clash(t.requests[i], t.requests[id]) && !Clash(t.requests[id], t.requests[i])
    {
      var q := s.requests[i];
      assert RequestOk(s, q);
      assert !Clash(q, s.requests[id]) && !Clash(s.requests[id], q);
    }
    assert Exclusive(t) by {
      forall i, j | i in t.requests && j in t.requests && i != j
        ensures !Clash(t.requests[i], t.requests[j])
      {
        assert !Clash(s.requests[i], s.requests[j]);
      }
    }
  }

  lemma FinaliseKeeps(s: State, id: RequestId)
    requires Inv(s) && id in s.requests && (s.requests[id].phase.Answered? || s.requests[id].phase.OverBudget?)
    ensures Inv(Apply(s, Finalise(id)))
  {
    var r := s.requests[id];
    var n := r.phase.number;
    assert RequestOk(s, r);
    var a := if r.phase.Answered? then r.phase.outcome else Attempt(Failed, "budget_exhausted");
    RewriteKeepsNumbers(s.attempts, r.decision, n, a);
    StoreKeeps(s, id, n, a, if r.phase.Answered? then Viewed else Refused(BudgetExhausted));
  }

  lemma SpendKeeps(s: State, id: RequestId)
    requires Inv(s) && id in s.requests && s.requests[id].phase.Claimed?
    ensures Inv(Apply(s, Spend(id)))
  {
    var r := s.requests[id];
    var n := r.phase.number;
    assert RequestOk(s, r);
    var b := s.budgets[r.process];
    if b.attempted < b.limit {
      var call := Call(r.process, r.decision, n);
      var t := Apply(s, Spend(id));
      forall i | i in t.requests
        ensures RequestOk(t, t.requests[i])
      {
        assert RequestOk(s, s.requests[i]) && (i != id ==> !Clash(s.requests[i], r));
        if i != id && s.requests[i].phase.Claimed? {
          CalledGrows(s.calls, call, s.requests[i].decision, s.requests[i].phase);
        }
      }
      assert Exclusive(t) by {
        forall i, j | i in t.requests && j in t.requests && i != j
          ensures !Clash(t.requests[i], t.requests[j])
        {
          assert !Clash(s.requests[i], s.requests[j]);
        }
      }
      CallsGrow(s, call, t);
    } else {
      MoveKeeps(s, id, OverBudget(n));
    }
  }

  lemma CalledGrows(calls: seq<Call>, call: Call, d: DecisionId, p: Phase)
    requires p.Claimed? && !Called(calls, d, p.number)
    ensures (call.decision, call.number) != (d, p.number) ==> !Called(calls + [call], d, p.number)
  {
    if k :| 0 <= k < |calls + [call]| && (calls + [call])[k].decision == d && (calls + [call])[k].number == p.number {
      assert k < |calls| ==> calls[k] == (calls + [call])[k];
    }
  }

  lemma CallsGrow(s: State, call: Call, t: State)
    requires CallsOk(s) && (call.decision, call.number) in s.attempts && call.process in s.budgets
    requires !Called(s.calls, call.decision, call.number)
    requires var b := s.budgets[call.process];
             b.attempted < b.limit && t == s.(requests := t.requests, calls := s.calls + [call],
                                              budgets := s.budgets[call.process := b.(attempted := b.attempted + 1)])
    ensures CallsOk(t)
  {
    assert t.calls[..|t.calls| - 1] == s.calls;
    forall i, j | 0 <= i < j < |t.calls|
      ensures (t.calls[i].decision, t.calls[i].number) != (t.calls[j].decision, t.calls[j].number)
    {
      assert t.calls[i] == s.calls[i];
      assert j < |s.calls| ==> t.calls[j] == s.calls[j];
    }
  }

  lemma PlanKeeps(s: State, id: RequestId, configured: bool)
    requires Inv(s) && id in s.requests && s.requests[id].phase.Eligible?
    ensures Inv(Apply(s, ReadAttempts(id, configured)))
  {
    var r := s.requests[id];
    assert RequestOk(s, r) && WellNumbered(s.attempts, r.decision);
    MoveKeeps(s, id, Plan(s, r.decision, configured)) by {
      if Plan(s, r.decision, configured).Planned? {
        forall k | 1 <= k <= |Numbers(s.attempts, r.decision)|
          ensures (r.decision, k) in s.attempts && Spent(s.attempts[(r.decision, k)])
        {
          assert k in Numbers(s.attempts, r.decision);
        }
      }
    }
  }

  lemma RequestStepKeeps(s: State, step: Step)
    requires !step.Record? && !step.Decide? && !step.StartProcess? && !step.Arrive?
    requires Inv(s) && step.id in s.requests
    ensures Inv(ApplyTo(s, step))
  {
    var r := s.requests[step.id];
    assert RequestOk(s, r);
    match (step, r.phase)
    case (ReadDecision(id), Arrived) =>
      MoveKeeps(s, id, if r.decision !in s.ledger then Refused(NotFound)
                       else if IsEligible(s.ledger, r.decision) then Eligible else Refused(NotEligible));
    case (ReadAttempts(id, configured), Eligible) => PlanKeeps(s, id, configured);
    case (Claim(id), Planned(_)) => ClaimKeeps(s, id);
    case (Spend(id), Claimed(_)) => SpendKeeps(s, id);
    case (Respond(id, outcome), Calling(n)) =>
      if Terminal(outcome) {
        MoveKeeps(s, id, Answered(n, outcome));
      }
    case (Finalise(id), Answered(_, _)) => FinaliseKeeps(s, id);
    case (Finalise(id), OverBudget(_)) => FinaliseKeeps(s, id);
    case (Crash(id), _) => MoveKeeps(s, id, Crashed);
    case _ =>
  }

  /** What is true of a request stays true when nothing it looks at changes. */
  lemma OutsideStepKeeps(s: State, step: Step)
    requires Inv(s) && (step.Record? || step.Decide? || step.StartProcess?)
    ensures Inv(Apply(s, step))
  {
    if step.StartProcess? {
      NoCallsBy(s, step.process);
    }
    forall id | id in s.requests
      ensures RequestOk(Apply(s, step), s.requests[id])
    {
      assert RequestOk(s, s.requests[id]);
    }
  }

  lemma ArriveKeeps(s: State, step: Step)
    requires Inv(s) && step.Arrive?
    ensures Inv(Apply(s, step))
  {
    forall i | i in s.requests
      ensures RequestOk(Apply(s, step), s.requests[i])
    {
      assert RequestOk(s, s.requests[i]);
    }
  }

  lemma StepKeeps(s: State, step: Step)
    requires Inv(s)
    ensures Inv(Apply(s, step))
  {
    hide Inv;
    if step.Record? || step.Decide? || step.StartProcess? {
      OutsideStepKeeps(s, step);
    } else if step.Arrive? {
      ArriveKeeps(s, step);
    } else if step.id in s.requests {
      RequestStepKeeps(s, step);
    }
  }

  lemma {:induction false} NoCallsByFrom(calls: seq<Call>, p: ProcessId)
    requires forall c :: c in calls ==> c.process != p
    ensures CallsBy(calls, p) == 0
  {
    if calls != [] {
      NoCallsByFrom(calls[..|calls| - 1], p);
    }
  }

  lemma NoCallsBy(s: State, p: ProcessId)
    requires CallsOk(s)
    ensures p !in s.budgets ==> CallsBy(s.calls, p) == 0
  {
    if p !in s.budgets {
      NoCallsByFrom(s.calls, p);
    }
  }

  lemma {:induction false} RunKeeps(steps: seq<Step>)
    ensures Inv(Run(steps))
  {
    if steps == [] {
      assert forall d: DecisionId :: Numbers(INITIAL.attempts, d) == {};
    } else {
      RunKeeps(steps[..|steps| - 1]);
      StepKeeps(Run(steps[..|steps| - 1]), steps[|steps| - 1]);
    }
  }

  // ----- what holds in every run

  /** In every interleaving: numbers 1..n, n at most three, only the last attempt possibly live. */
  lemma AttemptsInEveryRun(steps: seq<Step>, d: DecisionId)
    ensures var attempts := Run(steps).attempts;
            var n := |Numbers(attempts, d)|;
            && n <= MAX_ATTEMPTS
            && (forall k :: k in Numbers(attempts, d) <==> 1 <= k <= n)
            && (forall k :: k in Numbers(attempts, d) && !Spent(attempts[(d, k)]) ==> k == n)
            && (n > 0 ==> IsEligible(Run(steps).ledger, d))
  {
    RunKeeps(steps);
    assert WellNumbered(Run(steps).attempts, d);
    if 1 in Numbers(Run(steps).attempts, d) {
      assert (d, 1) in Run(steps).attempts;
    }
  }

  /** A stored terminal attempt is never rewritten or removed. */
  lemma TerminalKept(s: State, step: Step, k: (DecisionId, nat))
    requires Inv(s) && k in s.attempts && Terminal(s.attempts[k])
    ensures k in Apply(s, step).attempts && Apply(s, step).attempts[k] == s.attempts[k]
  {
    if !step.Record? && !step.Decide? && !step.StartProcess? && !step.Arrive? && step.id in s.requests {
      assert RequestOk(s, s.requests[step.id]);
    }
  }

  lemma {:induction false} TerminalForever(steps: seq<Step>, more: seq<Step>, k: (DecisionId, nat))
    requires k in Run(steps).attempts && Terminal(Run(steps).attempts[k])
    ensures k in Run(steps + more).attempts && Run(steps + more).attempts[k] == Run(steps).attempts[k]
  {
    if more == [] {
      assert steps + more == steps;
    } else {
      var n := |more| - 1;
      TerminalForever(steps, more[..n], k);
      RunKeeps(steps + more[..n]);
      TerminalKept(Run(steps + more[..n]), more[n], k);
      assert (steps + more)[..|steps + more| - 1] == steps + more[..n];
    }
  }

  /** Outbound calls of a process never exceed its limit. */
  lemma CallsWithinLimit(steps: seq<Step>, p: ProcessId)
    ensures var s := Run(steps);
            p in s.budgets ==> CallsBy(s.calls, p) <= s.budgets[p].limit
    ensures p !in Run(steps).budgets ==> CallsBy(Run(steps).calls, p) == 0
  {
    RunKeeps(steps);
    NoCallsBy(Run(steps), p);
  }

  /** The attempt numbers a decision was called upstream for. */
  ghost function CalledNumbers(calls: seq<Call>, d: DecisionId): set<nat> {
    set i | 0 <= i < |calls| && calls[i].decision == d :: calls[i].number
  }

  function CallsFor(calls: seq<Call>, d: DecisionId): nat {
    if calls == [] then 0 else CallsFor(calls[..|calls| - 1], d) + if calls[|calls| - 1].decision == d then 1 else 0
  }

  lemma OneMoreCall(calls: seq<Call>, c: Call, d: DecisionId)
    ensures CalledNumbers(calls + [c], d) == CalledNumbers(calls, d) + if c.decision == d then {c.number} else {}
    ensures CallsFor(calls + [c], d) == CallsFor(calls, d) + if c.decision == d then 1 else 0
  {
    var all := calls + [c];
    assert all[..|all| - 1] == calls;
    assert forall i :: 0 <= i < |calls| ==> all[i] == calls[i];
    assert all[|calls|] == c;
    forall n
      ensures n in CalledNumbers(all, d) <==> n in CalledNumbers(calls, d) || (c.decision == d && n == c.number)
    {
      if i :| 0 <= i < |calls| && calls[i].decision == d && calls[i].number == n {
        assert all[i].decision == d && all[i].number == n;
      }
    }
  }

  lemma {:induction false} CallsAreCounted(calls: seq<Call>, d: DecisionId)
    requires forall i, j :: 0 <= i < j < |calls| ==> (calls[i].decision, calls[i].number) != (calls[j].decision, calls[j].number)
    ensures CallsFor(calls, d) == |CalledNumbers(calls, d)|
  {
    if calls != [] {
      var n := |calls| - 1;
      var c := calls[n];
      CallsAreCounted(calls[..n], d);
      assert calls[..n] + [c] == calls;
      OneMoreCall(calls[..n], c, d);
      assert c.decision == d ==> c.number !in CalledNumbers(calls[..n], d);
    }
  }

  /** However many processes serve it, a decision costs at most one call per attempt, so at most three. */
  lemma CallsPerDecision(steps: seq<Step>, d: DecisionId)
    ensures CallsFor(Run(steps).calls, d) <= |Numbers(Run(steps).attempts, d)| <= MAX_ATTEMPTS
  {
    var s := Run(steps);
    RunKeeps(steps);
    CallsAreCounted(s.calls, d);
    assert WellNumbered(s.attempts, d);
    forall n | n in CalledNumbers(s.calls, d)
      ensures n in Numbers(s.attempts, d)
    {
      var i :| 0 <= i < |s.calls| && s.calls[i].decision == d && s.calls[i].number == n;
      assert s.calls[i] in s.calls;
      assert (d, n) in s.attempts;
    }
    SubsetSize(CalledNumbers(s.calls, d), Numbers(s.attempts, d));
  }

  ghost predicate HasReady(s: State, d: DecisionId) {
    exists n :: n in Numbers(s.attempts, d) && s.attempts[(d, n)].status.Ready?
  }

  lemma ReadyBlocks(s: State, r: Request)
    requires Inv(s) && RequestOk(s, r) && HasReady(s, r.decision)
    ensures Holds(r.phase).None?
    ensures r.phase.Planned? ==> (r.decision, r.phase.number) in s.attempts
  {
    var d := r.decision;
    var n :| n in Numbers(s.attempts, d) && s.attempts[(d, n)].status.Ready?;
    assert WellNumbered(s.attempts, d);
    assert n == |Numbers(s.attempts, d)|;
    assert forall k :: Holds(r.phase) == Some(k) ==> k in Numbers(s.attempts, d);
    if r.phase.Planned? {
      assert r.phase.number <= n;
      assert r.phase.number in Numbers(s.attempts, d);
    }
  }

  lemma BlockedKept(s: State, step: Step)
    requires !step.Record? && !step.Decide? && !step.StartProcess? && !step.Arrive?
    requires step.id in s.requests
    requires var r := s.requests[step.id];
             Holds(r.phase).None? && (r.phase.Planned? ==> (r.decision, r.phase.number) in s.attempts)
    ensures Apply(s, step).attempts == s.attempts && Apply(s, step).calls == s.calls
  {
  }

  /** A ready explanation closes its decision: no later step calls upstream or stores anything for it. */
  lemma ReadyCloses(s: State, step: Step, d: DecisionId)
    requires Inv(s) && HasReady(s, d)
    ensures var t := Apply(s, step);
            && HasReady(t, d)
            && CallsFor(t.calls, d) == CallsFor(s.calls, d)
            && Numbers(t.attempts, d) == Numbers(s.attempts, d)
            && forall n :: n in Numbers(s.attempts, d) ==> t.attempts[(d, n)] == s.attempts[(d, n)]
  {
    hide Inv;
    hide WellNumbered;
    if !step.Record? && !step.Decide? && !step.StartProcess? && !step.Arrive? && step.id in s.requests {
      if s.requests[step.id].decision == d {
        RequestIsOk(s, step.id);
        ReadyBlocks(s, s.requests[step.id]);
        BlockedKept(s, step);
      } else {
        OtherDecisionKept(s, step, d);
      }
    }
  }

  lemma RequestIsOk(s: State, id: RequestId)
    requires Inv(s) && id in s.requests
    ensures RequestOk(s, s.requests[id])
  {
  }

  lemma OtherDecisionKept(s: State, step: Step, d: DecisionId)
    requires !step.Record? && !step.Decide? && !step.StartProcess? && !step.Arrive?
    requires step.id in s.requests && s.requests[step.id].decision != d
    ensures var t := Apply(s, step);
            && CallsFor(t.calls, d) == CallsFor(s.calls, d)
            && Numbers(t.attempts, d) == Numbers(s.attempts, d)
            && forall n :: n in Numbers(s.attempts, d) ==> t.attempts[(d, n)] == s.attempts[(d, n)]
  {
    hide IsEligible, Plan, Terminal;
    var t := Apply(s, step);
    forall k: (DecisionId, nat) | k.0 == d
      ensures k in t.attempts <==> k in s.attempts
      ensures k in s.attempts ==> t.attempts[k] == s.attempts[k]
    {
    }
    if t.calls != s.calls {
      assert t.calls[..|t.calls| - 1] == s.calls;
    }
  }

  // ----- the current view

  /** The last ready attempt. */
  ghost predicate LastReady(rows: seq<Attempt>, i: nat) {
    i < |rows| && rows[i].status.Ready? && forall k :: i < k < |rows| ==> !rows[k].status.Ready?
  }

  /** The last ready attempt if there is one, else the last attempt. */
  method Latest(rows: seq<Attempt>) returns (chosen: Option<Attempt>)
    ensures rows == [] <==> chosen.None?
    ensures forall i: nat :: LastReady(rows, i) ==> chosen == Some(rows[i])
    ensures (exists i: nat :: LastReady(rows, i)) <==> exists k :: 0 <= k < |rows| && rows[k].status.Ready?
    ensures rows != [] && (forall k :: 0 <= k < |rows| ==> !rows[k].status.Ready?) ==> chosen == Some(rows[|rows| - 1])
  {
    if rows == [] {
      return None;
    }
    var ready: seq<Attempt> := [];
    ghost var last: nat := 0;
    for i := 0 to |rows|
      invariant ready == [] ==> forall k :: 0 <= k < i ==> !rows[k].status.Ready?
      invariant ready != [] ==> last < i && ready[|ready| - 1] == rows[last] && rows[last].status.Ready?
      invariant ready != [] ==> forall k :: last < k < i ==> !rows[k].status.Ready?
    {
      if rows[i].status.Ready? {
        ready := ready + [rows[i]];
        last := i;
      }
    }
    if ready != [] {
      assert LastReady(rows, last);
      assert forall i: nat :: LastReady(rows, i) ==> i == last;
      return Some(ready[|ready| - 1]);
    }
    return Some(rows[|rows| - 1]);
  }

  /** On the attempts the protocol stores, where all but the last are spent, the view is simply the last attempt. */
  lemma StoredLatest(rows: seq<Attempt>)
    requires rows != [] && forall i :: 0 <= i < |rows| - 1 ==> Spent(rows[i])
    ensures forall i: nat :: LastReady(rows, i) ==> i == |rows| - 1
  {
  }
}

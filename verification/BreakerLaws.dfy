/** What the engine decides about a proposal, and what the circuit breaker counts. */
module BreakerLaws {
  import opened Results
  import opened Controls
  import opened Governance
  import opened Automation
  import opened EngineLaws

  /** The handler would be reached and return: an automatic proposal within bounds, with
      the switch on, that is not high-risk under the approver's own name. */
  predicate Succeeds(pid: string, prop: Proposal) {
    (prop.risk == High ==> pid != "supervisor") && (prop.mode == Live ==> prop.run == Returns)
  }

  /** A submitted automatic proposal within bounds and with the switch on. */
  predicate Attempted(s: System, policy: Policy, prop: Proposal) {
    Submittable(s.plane, prop) && policy.auto && prop.inBounds && prop.enabled
  }

  /** How every proposal ends: with an exception that ends the tick, blocked at the
      interlock, at its bounds or at the switch, waiting for a person, carried out, or as a
      failure that trips the breaker from the third in a row on. */
  lemma DecisionMeans(s: System, pid: string, policy: Policy, prop: Proposal)
    ensures var d := Propose(s, pid, policy, prop).1;
      && (d == Aborted <==> EndsTick(s.plane, prop))
      && (d == Proposed <==> Submittable(s.plane, prop) && !policy.auto)
      && (d == Blocked <==>
            || (!EndsTick(s.plane, prop) && !Submittable(s.plane, prop))
            || (Submittable(s.plane, prop) && policy.auto && !(prop.inBounds && prop.enabled)))
      && (d == Carried <==> Attempted(s, policy, prop) && Succeeds(pid, prop))
      && (d == Tripped <==>
            && Attempted(s, policy, prop) && !Succeeds(pid, prop)
            && pid in s.policies && s.policies[pid].failures >= 2)
      && (d == Decision.Failed <==>
            && Attempted(s, policy, prop) && !Succeeds(pid, prop)
            && !(pid in s.policies && s.policies[pid].failures >= 2))
  {
    hide Propose;
    CarriedIff(s, pid, policy, prop);
    ProposalTouches(s, pid, policy, prop);
    FailureIff(s, pid, policy, prop);
  }

  lemma FailureIff(s: System, pid: string, policy: Policy, prop: Proposal)
    ensures var d := Propose(s, pid, policy, prop).1;
      && (d == Proposed <==> Submittable(s.plane, prop) && !policy.auto)
      && (d == Tripped || d == Decision.Failed <==> Attempted(s, policy, prop) && d != Carried)
      && (d == Tripped ==> pid in s.policies && s.policies[pid].failures >= 2)
      && (d == Decision.Failed ==> !(pid in s.policies && s.policies[pid].failures >= 2))
  {
    hide Dispose;
  }

  /** The stored policy after a proposal: cleared when it was carried out, one more
      failure and perhaps a trip when it failed, and nothing otherwise. */
  lemma CounterMoves(s: System, pid: string, policy: Policy, prop: Proposal)
    requires pid in s.policies
    ensures var (t, d) := Propose(s, pid, policy, prop);
      t.policies == s.policies[pid := s.policies[pid].(
        failures := Counted(s.policies[pid].failures, d), tripped := s.policies[pid].tripped || d == Tripped)]
  {
    hide Dispose, Submit;
  }

  /** Failures in a row: a success starts over, a failure counts, the rest leaves it. */
  function Counted(before: nat, d: Decision): nat {
    match d
    case Carried => 0
    case Failed => before + 1
    case Tripped => before + 1
    case _ => before
  }

  function Streak(before: nat, ds: seq<Decision>): nat {
    if ds == [] then before else Counted(Streak(before, ds[..|ds| - 1]), ds[|ds| - 1])
  }

  /** The decisions of one policy's turn, up to the one that ends the tick. */
  function Decisions(s: System, pid: string, policy: Policy, props: seq<Proposal>): seq<Decision> {
    if props == [] then []
    else
      var k := |props| - 1;
      var (before, going) := ProposeAll(s, pid, policy, props[..k]);
      Decisions(s, pid, policy, props[..k]) + if going then [Propose(before, pid, policy, props[k]).1] else []
  }

  /** A policy after these decisions. */
  function Counting(p: Policy, ds: seq<Decision>): Policy {
    p.(failures := Streak(p.failures, ds), tripped := p.tripped || Tripped in ds)
  }

  lemma CountingOne(p: Policy, ds: seq<Decision>, d: Decision)
    ensures Counting(p, ds + [d])
      == Counting(p, ds).(
           failures := Counted(Counting(p, ds).failures, d), tripped := Counting(p, ds).tripped || d == Tripped)
  {
    assert (ds + [d])[..|ds|] == ds && (ds + [d])[|ds|] == d;
    assert Tripped in ds + [d] <==> Tripped in ds || d == Tripped;
  }

  lemma TurnStep(s: System, pid: string, policy: Policy, props: seq<Proposal>)
    requires props != []
    ensures var k := |props| - 1;
      var (before, going) := ProposeAll(s, pid, policy, props[..k]);
      var ds := Decisions(s, pid, policy, props[..k]);
      && (!going ==> ProposeAll(s, pid, policy, props) == (before, false) && Decisions(s, pid, policy, props) == ds)
      && (going ==>
            && ProposeAll(s, pid, policy, props).0 == Propose(before, pid, policy, props[k]).0
            && Decisions(s, pid, policy, props) == ds + [Propose(before, pid, policy, props[k]).1])
  {
    hide Propose;
  }

  /** After a turn the stored counter is the number of failures since the last success,
      the breaker is tripped exactly if it was or some failure was the third in a row, and
      no other policy has moved. */
  lemma {:induction false} CounterIsStreak(s: System, pid: string, policy: Policy, props: seq<Proposal>)
    requires pid in s.policies
    ensures ProposeAll(s, pid, policy, props).0.policies
      == s.policies[pid := Counting(s.policies[pid], Decisions(s, pid, policy, props))]
  {
    if props == [] {
      NoDecisions(s, pid, policy);
    } else {
      hide *;
      var k := |props| - 1;
      CounterIsStreak(s, pid, policy, props[..k]);
      TurnStep(s, pid, policy, props);
      var (before, going) := ProposeAll(s, pid, policy, props[..k]);
      if going {
        CounterMoves(before, pid, policy, props[k]);
        CountingOne(s.policies[pid], Decisions(s, pid, policy, props[..k]), Propose(before, pid, policy, props[k]).1);
      }
    }
  }

  lemma NoDecisions(s: System, pid: string, policy: Policy)
    requires pid in s.policies
    ensures ProposeAll(s, pid, policy, []).0.policies
      == s.policies[pid := Counting(s.policies[pid], Decisions(s, pid, policy, []))]
  {
  }

  /** The i-th decision trips the breaker exactly when it is a failure and at least the
      third in a row. */
  lemma {:induction false} TripsFromThird(s: System, pid: string, policy: Policy, props: seq<Proposal>, i: nat)
    requires pid in s.policies && i < |Decisions(s, pid, policy, props)|
    ensures var ds := Decisions(s, pid, policy, props);
      (ds[i] == Tripped || ds[i] == Decision.Failed) ==>
        (ds[i] == Tripped <==> Streak(s.policies[pid].failures, ds[..i + 1]) >= 3)
  {
    hide Propose;
    var k := |props| - 1;
    var ds := Decisions(s, pid, policy, props[..k]);
    if i < |ds| {
      TripsFromThird(s, pid, policy, props[..k], i);
      assert Decisions(s, pid, policy, props)[..i + 1] == ds[..i + 1];
    } else {
      var before := ProposeAll(s, pid, policy, props[..k]).0;
      CounterIsStreak(s, pid, policy, props[..k]);
      DecisionMeans(before, pid, policy, props[k]);
      assert Decisions(s, pid, policy, props)[..i] == ds && Decisions(s, pid, policy, props)[..i + 1][..i] == ds;
    }
  }

  // ---- who runs ------------------------------------------------------------

  /** A policy that is unknown, disabled or tripped when a tick starts requests nothing in
      it, and one that is enabled and not tripped has its proposals made. */
  lemma WhoRuns(s: System, work: seq<Work>, pid: string, props: seq<Proposal>)
    ensures !(pid in s.policies && s.policies[pid].enabled && !s.policies[pid].tripped) ==>
      Idle(s.plane, TickAll(s, s.policies, work).0.plane, EngineName(pid))
    ensures pid in s.policies && s.policies[pid].enabled && !s.policies[pid].tripped ==>
      TickAll(s, s.policies, [Work(pid, props)]) == ProposeAll(s, pid, s.policies[pid], props)
  {
    hide ProposeAll, Idle, EngineName;
    if !(pid in s.policies && s.policies[pid].enabled && !s.policies[pid].tripped) {
      TrippedIsIdle(s, s.policies, work, pid);
    } else {
      OneTurn(s, pid, props);
    }
  }

  lemma OneTurn(s: System, pid: string, props: seq<Proposal>)
    requires Runs(s.policies, pid)
    ensures TickAll(s, s.policies, [Work(pid, props)]) == ProposeAll(s, pid, s.policies[pid], props)
  {
    hide ProposeAll;
    var work := [Work(pid, props)];
    assert work[..0] == [] && TickAll(s, s.policies, work[..0]) == (s, true);
  }

  lemma DisposeExtends(plane: State, pid: string, prop: Proposal)
    ensures Extends(plane, Dispose(plane, pid, prop).0)
  {
    hide Extends, Approve, Execute;
    var approved := Approve(plane, prop.id, Actor("supervisor")).0;
    CallExtends(plane, ApproveCall(prop.id, Actor("supervisor")));
    CallExtends(plane, ExecuteCall(prop.id, Actor(pid), prop.enabled, prop.run));
    CallExtends(approved, ExecuteCall(prop.id, Actor(pid), prop.enabled, prop.run));
    ExtendsThrough(plane, approved, Execute(approved, prop.id, Actor(pid), prop.enabled, prop.run).0);
  }

  lemma ExtendsThrough(a: State, b: State, c: State)
    requires Extends(a, b) && Extends(b, c)
    ensures Extends(a, c)
  {
  }

  lemma SubmittedRow(s: State, pid: string, policy: Policy, prop: Proposal)
    requires Submittable(s, prop)
    ensures var (t, reply) := Submit(s, prop.id, RequestOf(policy, prop), EngineName(pid));
      && reply == Done(Pending) && prop.id in t.rows && t.rows[prop.id].requestedBy == "automation:" + pid
      && t.rows[prop.id].actionType == prop.actionType && t.rows[prop.id].mode == prop.mode
      && t.rows[prop.id].risk == prop.risk
      && t.rows[prop.id].tenant == if policy.tenant == "" then "default" else policy.tenant
  {
  }

  /** The row of a submitted proposal is what the policy proposed, in the policy's tenant
      and under the name "automation:" with the policy's own. */
  lemma ProposedRow(s: System, pid: string, policy: Policy, prop: Proposal)
    requires Submittable(s.plane, prop)
    ensures var t := Propose(s, pid, policy, prop).0.plane;
      && prop.id in t.rows && t.rows[prop.id].requestedBy == "automation:" + pid
      && t.rows[prop.id].actionType == prop.actionType && t.rows[prop.id].mode == prop.mode
      && t.rows[prop.id].risk == prop.risk
      && t.rows[prop.id].tenant == if policy.tenant == "" then "default" else policy.tenant
  {
    hide Submit, Dispose, Submittable, EngineName, RequestOf, Cleared, Bumped;
    SubmittedRow(s.plane, pid, policy, prop);
    var plane := Submit(s.plane, prop.id, RequestOf(policy, prop), EngineName(pid)).0;
    DisposeExtends(plane, pid, prop);
  }

  // ---- settings over runs --------------------------------------------------

  /** The settings people make, which the engine never touches. */
  predicate SameSettings(p: Policy, q: Policy) {
    p.enabled == q.enabled && p.auto == q.auto && p.tenant == q.tenant
  }

  ghost predicate Steady(before: map<string, Policy>, after: map<string, Policy>) {
    && after.Keys == before.Keys
    && forall pid :: pid in before ==>
      SameSettings(before[pid], after[pid]) && (before[pid].tripped ==> after[pid].tripped)
  }

  lemma ProposalIsSteady(s: System, pid: string, policy: Policy, prop: Proposal)
    ensures Steady(s.policies, Propose(s, pid, policy, prop).0.policies)
  {
    hide Submit, Dispose;
  }

  lemma SteadyThrough(a: map<string, Policy>, b: map<string, Policy>, c: map<string, Policy>)
    requires Steady(a, b) && Steady(b, c)
    ensures Steady(a, c)
  {
  }

  lemma {:induction false} TurnIsSteady(s: System, pid: string, policy: Policy, props: seq<Proposal>)
    ensures Steady(s.policies, ProposeAll(s, pid, policy, props).0.policies)
  {
    hide Propose, Steady;
    if props == [] {
      SteadyHere(s.policies);
    } else {
      var k := |props| - 1;
      var before := ProposeAll(s, pid, policy, props[..k]).0;
      TurnIsSteady(s, pid, policy, props[..k]);
      ProposalIsSteady(before, pid, policy, props[k]);
      SteadyThrough(s.policies, before.policies, Propose(before, pid, policy, props[k]).0.policies);
    }
  }

  lemma SteadyHere(a: map<string, Policy>)
    ensures Steady(a, a)
  {
  }

  lemma {:induction false} TickIsSteady(s: System, snapshot: map<string, Policy>, work: seq<Work>)
    ensures Steady(s.policies, TickAll(s, snapshot, work).0.policies)
  {
    hide ProposeAll, Steady;
    if work == [] {
      SteadyHere(s.policies);
    } else {
      var k := |work| - 1;
      var before, w := TickAll(s, snapshot, work[..k]).0, work[k];
      TickIsSteady(s, snapshot, work[..k]);
      if Runs(snapshot, w.pid) {
        TurnIsSteady(before, w.pid, snapshot[w.pid], w.proposals);
        SteadyThrough(s.policies, before.policies,
          ProposeAll(before, w.pid, snapshot[w.pid], w.proposals).0.policies);
      }
    }
  }

  /** No move of the run patches that policy, except perhaps without a reset. */
  predicate NoReset(moves: seq<Move>, pid: string) {
    forall i :: 0 <= i < |moves| && moves[i].Patches? && moves[i].pid == pid ==> !moves[i].resetTrip
  }

  predicate NoPatch(moves: seq<Move>, pid: string) {
    forall i :: 0 <= i < |moves| ==> !(moves[i].Patches? && moves[i].pid == pid)
  }

  lemma StepKeeps(s: System, m: Move, pid: string)
    requires pid in s.policies
    ensures pid in Step(s, m).policies
    ensures !(m.Patches? && m.pid == pid && m.resetTrip) && s.policies[pid].tripped ==> Step(s, m).policies[pid].tripped
    ensures !(m.Patches? && m.pid == pid) ==> SameSettings(s.policies[pid], Step(s, m).policies[pid])
  {
    hide TickAll;
    if m.EngineTicks? { TickIsSteady(s, s.policies, m.work); }
  }

  /** A tripped policy stays tripped until somebody resets it, and its enabling, its mode
      and its tenant stay as they are until somebody patches it. */
  lemma {:induction false} SettingsLast(s: System, moves: seq<Move>, pid: string)
    requires pid in s.policies
    ensures pid in Run(s, moves).policies
    ensures NoReset(moves, pid) && s.policies[pid].tripped ==> Run(s, moves).policies[pid].tripped
    ensures NoPatch(moves, pid) ==> SameSettings(s.policies[pid], Run(s, moves).policies[pid])
  {
    hide Step;
    if moves != [] {
      var k := |moves| - 1;
      SettingsLast(s, moves[..k], pid);
      StepKeeps(Run(s, moves[..k]), moves[k], pid);
    }
  }

  /** A patch sets what it names, and a reset clears the trip and the counter. */
  lemma PatchMeans(s: System, pid: string, enabled: Option<bool>, auto: Option<bool>, reset: bool)
    requires pid in s.policies
    ensures var p, q := s.policies[pid], Step(s, Patches(pid, enabled, auto, reset)).policies[pid];
      && q.enabled == (if enabled.Some? then enabled.value else p.enabled)
      && q.auto == (if auto.Some? then auto.value else p.auto) && q.tenant == p.tenant
      && (reset ==> !q.tripped && q.failures == 0)
      && (!reset ==> q.tripped == p.tripped && q.failures == p.failures)
    ensures forall other :: other in s.policies && other != pid ==>
      Step(s, Patches(pid, enabled, auto, reset)).policies[other] == s.policies[other]
  {
  }
}

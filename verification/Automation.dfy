/** The closed-loop engine: policies propose actions, and each proposal goes through the
    same governed calls that people make. What a policy proposes, and whether a proposal
    is within bounds, are inputs of a tick. */
module Automation {
  import opened Results
  import opened Controls

  const TRIP_THRESHOLD: nat := 3

  datatype Policy = Policy(enabled: bool, tripped: bool, failures: nat, auto: bool, tenant: string)

  /** `enabled` is the controls switch while the proposal runs. */
  datatype Proposal = Proposal(
    id: ActionId, actionType: string, mode: Mode, plan: Outcome, risk: Risk,
    inBounds: bool, enabled: bool, run: Outcome)

  datatype Decision = Blocked | Proposed | Carried | Failed | Tripped | Aborted

  datatype System = System(plane: State, policies: map<string, Policy>)

  function EngineName(suffix: string): string { "automation:" + suffix }

  function Actor(suffix: string): Principal { Principal(EngineName(suffix), None) }

  function RequestOf(policy: Policy, prop: Proposal): Request {
    Request(prop.actionType, prop.mode, Some(policy.tenant), prop.plan, prop.risk)
  }

  /** The counter as stored moves, the policy as read at the start of the tick does not. */
  function Bumped(policies: map<string, Policy>, pid: string): map<string, Policy> {
    if pid !in policies then policies
    else
      var p := policies[pid];
      policies[pid := p.(failures := p.failures + 1, tripped := p.tripped || p.failures + 1 >= TRIP_THRESHOLD)]
  }

  function Cleared(policies: map<string, Policy>, pid: string): map<string, Policy> {
    if pid !in policies then policies else policies[pid := policies[pid].(failures := 0)]
  }

  function FailedDecision(policies: map<string, Policy>, pid: string): Decision {
    if pid in policies && policies[pid].failures + 1 >= TRIP_THRESHOLD then Tripped else Decision.Failed
  }

  /** Approves, if the risk is high, and executes. */
  function Dispose(plane: State, pid: string, prop: Proposal): (State, Reply) {
    if prop.risk == High then
      var (s, r) := Approve(plane, prop.id, Actor("supervisor"));
      if r.Done? then Execute(s, prop.id, Actor(pid), prop.enabled, prop.run) else (s, r)
    else Execute(plane, prop.id, Actor(pid), prop.enabled, prop.run)
  }

  function Propose(s: System, pid: string, policy: Policy, prop: Proposal): (System, Decision) {
    var (plane, r) := Submit(s.plane, prop.id, RequestOf(policy, prop), EngineName(pid));
    if r == Broke then (s, Aborted)
    else if r.Raised? then (s, Blocked)
    else if !policy.auto then (s.(plane := plane), Proposed)
    else if !prop.inBounds || !prop.enabled then (s.(plane := plane), Blocked)
    else
      var (plane', r') := Dispose(plane, pid, prop);
      if r' == Done(Executed) then (System(plane', Cleared(s.policies, pid)), Carried)
      else (System(plane', Bumped(s.policies, pid)), FailedDecision(s.policies, pid))
  }

  /** The proposals of one policy in turn; an exception that is not caught ends the tick. */
  function ProposeAll(s: System, pid: string, policy: Policy, props: seq<Proposal>): (System, bool) {
    if props == [] then (s, true)
    else
      var (before, going) := ProposeAll(s, pid, policy, props[..|props| - 1]);
      if !going then (before, false)
      else
        var (after, d) := Propose(before, pid, policy, props[|props| - 1]);
        (after, d != Aborted)
  }

  datatype Work = Work(pid: string, proposals: seq<Proposal>)

  predicate Runs(policies: map<string, Policy>, pid: string) {
    pid in policies && policies[pid].enabled && !policies[pid].tripped
  }

  /** The policies as they stood at the start decide who runs. */
  function TickAll(s: System, snapshot: map<string, Policy>, work: seq<Work>): (System, bool) {
    if work == [] then (s, true)
    else
      var (before, going) := TickAll(s, snapshot, work[..|work| - 1]);
      var w := work[|work| - 1];
      if !going || !Runs(snapshot, w.pid) then (before, going)
      else ProposeAll(before, w.pid, snapshot[w.pid], w.proposals)
  }

  class AutomationEngine {
    const plane: ControlPlane
    var policies: map<string, Policy>

    function View(): System
      reads this, plane
    {
      System(plane.View(), policies)
    }

    constructor (plane: ControlPlane, policies: map<string, Policy>)
      ensures this.plane == plane && this.policies == policies
    {
      this.plane, this.policies := plane, policies;
    }

    method BumpFailures(pid: string) returns (d: Decision)
      modifies this`policies
      ensures policies == Bumped(old(policies), pid) && d == FailedDecision(old(policies), pid)
    {
      if pid !in policies {
        return Decision.Failed;
      }
      var p := policies[pid];
      var fails := p.failures + 1;
      policies := policies[pid := p.(failures := fails)];
      if fails >= TRIP_THRESHOLD {
        policies := policies[pid := policies[pid].(tripped := true)];
        return Tripped;
      }
      return Decision.Failed;
    }

    method DisposeOf(pid: string, prop: Proposal) returns (r: Reply)
      modifies plane
      ensures (plane.View(), r) == Dispose(old(plane.View()), pid, prop)
    {
      if prop.risk == High {
        r := plane.ApproveAction(prop.id, Actor("supervisor"));
        if !r.Done? {
          return;
        }
      }
      r := plane.ExecuteAction(prop.id, Actor(pid), prop.enabled, prop.run);
    }

    method RunProposal(pid: string, policy: Policy, prop: Proposal) returns (d: Decision)
      modifies this, plane
      ensures (View(), d) == Propose(old(View()), pid, policy, prop)
    {
      hide Submit, Dispose, Bumped, FailedDecision;
      var r := plane.SubmitAction(prop.id, RequestOf(policy, prop), EngineName(pid));
      if r == Broke {
        SubmitOrNothing(old(plane.View()), prop.id, RequestOf(policy, prop), EngineName(pid));
        return Aborted;
      }
      if r.Raised? {
        SubmitOrNothing(old(plane.View()), prop.id, RequestOf(policy, prop), EngineName(pid));
        return Blocked;
      }
      if !policy.auto {
        return Proposed;
      }
      if !prop.inBounds || !prop.enabled {
        return Blocked;
      }
      var r' := DisposeOf(pid, prop);
      if r' == Done(Executed) {
        policies := Cleared(policies, pid);
        return Carried;
      }
      d := BumpFailures(pid);
    }

    method RunPolicy(pid: string, policy: Policy, props: seq<Proposal>) returns (going: bool)
      modifies this, plane
      ensures (View(), going) == ProposeAll(old(View()), pid, policy, props)
    {
      hide Propose;
      going := true;
      for i := 0 to |props|
        invariant (View(), going) == ProposeAll(old(View()), pid, policy, props[..i]) && going
      {
        var d := RunProposal(pid, policy, props[i]);
        assert props[..i + 1][..i] == props[..i];
        if d == Aborted {
          StopsForGood(old(View()), pid, policy, props, i + 1);
          return false;
        }
      }
      assert props[..|props|] == props;
    }

    method Tick(on: bool, work: seq<Work>) returns (ran: bool)
      modifies this, plane
      ensures ran == on
      ensures View() == if on then TickAll(old(View()), old(policies), work).0 else old(View())
    {
      hide ProposeAll;
      if !on {
        return false;
      }
      var snapshot := policies;
      for i := 0 to |work|
        invariant (View(), true) == TickAll(old(View()), snapshot, work[..i])
      {
        assert work[..i + 1][..i] == work[..i];
        if Runs(snapshot, work[i].pid) {
          var going := RunPolicy(work[i].pid, snapshot[work[i].pid], work[i].proposals);
          if !going {
            TickStopsForGood(old(View()), snapshot, work, i + 1);
            return true;
          }
        }
      }
      assert work[..|work|] == work;
      return true;
    }
  }

  lemma SubmitOrNothing(s: State, id: ActionId, r: Request, name: string)
    ensures !Submit(s, id, r, name).1.Done? ==> Submit(s, id, r, name).0 == s
  {
  }

  lemma {:induction false} StopsForGood(s: System, pid: string, policy: Policy, props: seq<Proposal>, i: nat)
    requires i <= |props| && !ProposeAll(s, pid, policy, props[..i]).1
    ensures ProposeAll(s, pid, policy, props) == ProposeAll(s, pid, policy, props[..i])
    decreases |props| - i
  {
    hide Propose;
    if i == |props| {
      assert props[..i] == props;
    } else {
      assert props[..i + 1][..i] == props[..i];
      StopsForGood(s, pid, policy, props, i + 1);
    }
  }

  lemma {:induction false} TickStopsForGood(s: System, snapshot: map<string, Policy>, work: seq<Work>, i: nat)
    requires i <= |work| && !TickAll(s, snapshot, work[..i]).1
    ensures TickAll(s, snapshot, work) == TickAll(s, snapshot, work[..i])
    decreases |work| - i
  {
    hide ProposeAll;
    if i == |work| {
      assert work[..i] == work;
    } else {
      assert work[..i + 1][..i] == work[..i];
      TickStopsForGood(s, snapshot, work, i + 1);
    }
  }
}

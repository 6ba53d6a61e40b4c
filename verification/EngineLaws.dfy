/** The engine adds nothing to governance: whatever it does, people could have done with
    the same calls. And what its circuit breaker does and does not stop. */
module EngineLaws {
  import opened Results
  import opened Controls
  import opened Governance
  import opened Automation

  datatype Move =
    | PersonCalls(call: Call)
    | EngineTicks(on: bool, work: seq<Work>)
    | Patches(pid: string, enabled: Option<bool>, auto: Option<bool>, resetTrip: bool)

  function Patched(p: Policy, enabled: Option<bool>, auto: Option<bool>, resetTrip: bool): Policy {
    var p1 := if enabled.Some? then p.(enabled := enabled.value) else p;
    var p2 := if auto.Some? then p1.(auto := auto.value) else p1;
    if resetTrip then p2.(tripped := false, failures := 0) else p2
  }

  function Step(s: System, m: Move): System {
    match m
    case PersonCalls(c) => s.(plane := Made(s.plane, c).0)
    case EngineTicks(on, work) => if on then TickAll(s, s.policies, work).0 else s
    case Patches(pid, enabled, auto, resetTrip) =>
      if pid in s.policies then s.(policies := s.policies[pid := Patched(s.policies[pid], enabled, auto, resetTrip)])
      else s
  }

  function Run(s: System, moves: seq<Move>): System {
    if moves == [] then s else Step(Run(s, moves[..|moves| - 1]), moves[|moves| - 1])
  }

  // ---- the engine only makes governed calls --------------------------------

  ghost predicate ByCalls(s: State, t: State) {
    exists calls :: t == After(s, calls)
  }

  lemma NoCalls(s: State)
    ensures ByCalls(s, s)
  {
    assert After(s, []) == s;
  }

  lemma OneCall(s: State, t: State, c: Call)
    requires ByCalls(s, t)
    ensures ByCalls(s, Made(t, c).0)
  {
    hide Made;
    var calls :| t == After(s, calls);
    assert (calls + [c])[..|calls|] == calls;
    assert After(s, calls + [c]) == Made(t, c).0;
  }

  lemma {:induction false} MoreCalls(s: State, t: State, calls: seq<Call>)
    requires ByCalls(s, t)
    ensures ByCalls(s, After(t, calls))
  {
    hide Made, ByCalls;
    if calls != [] {
      MoreCalls(s, t, calls[..|calls| - 1]);
      OneCall(s, After(t, calls[..|calls| - 1]), calls[|calls| - 1]);
    }
  }

  lemma ProposalByCalls(s: State, sys: System, pid: string, policy: Policy, prop: Proposal)
    requires ByCalls(s, sys.plane)
    ensures ByCalls(s, Propose(sys, pid, policy, prop).0.plane)
  {
    hide ByCalls, Submit, Approve, Execute, Bumped, Cleared;
    var submit := SubmitCall(prop.id, RequestOf(policy, prop), EngineName(pid));
    var approve := ApproveCall(prop.id, Actor("supervisor"));
    var execute := ExecuteCall(prop.id, Actor(pid), prop.enabled, prop.run);
    OneCall(s, sys.plane, submit);
    var plane := Made(sys.plane, submit).0;
    OneCall(s, plane, execute);
    OneCall(s, plane, approve);
    OneCall(s, Made(plane, approve).0, execute);
  }

  lemma {:induction false} ProposalsByCalls(s: State, sys: System, pid: string, policy: Policy, props: seq<Proposal>)
    requires ByCalls(s, sys.plane)
    ensures ByCalls(s, ProposeAll(sys, pid, policy, props).0.plane)
  {
    hide ByCalls, Propose;
    if props != [] {
      ProposalsByCalls(s, sys, pid, policy, props[..|props| - 1]);
      ProposalByCalls(s, ProposeAll(sys, pid, policy, props[..|props| - 1]).0, pid, policy, props[|props| - 1]);
    }
  }

  lemma {:induction false} TickByCalls(s: State, sys: System, snapshot: map<string, Policy>, work: seq<Work>)
    requires ByCalls(s, sys.plane)
    ensures ByCalls(s, TickAll(sys, snapshot, work).0.plane)
  {
    hide ByCalls, ProposeAll;
    if work != [] {
      var before, w := TickAll(sys, snapshot, work[..|work| - 1]).0, work[|work| - 1];
      TickByCalls(s, sys, snapshot, work[..|work| - 1]);
      if Runs(snapshot, w.pid) { ProposalsByCalls(s, before, w.pid, snapshot[w.pid], w.proposals); }
    }
  }

  /** Any run of people, engine and configuration changes leaves tables that some run of
      governed calls leaves. */
  lemma {:induction false} RunByCalls(s: System, moves: seq<Move>)
    ensures ByCalls(s.plane, Run(s, moves).plane)
  {
    hide ByCalls, Made, TickAll;
    NoCalls(s.plane);
    if moves != [] {
      var before, m := Run(s, moves[..|moves| - 1]), moves[|moves| - 1];
      RunByCalls(s, moves[..|moves| - 1]);
      match m
      case PersonCalls(c) => OneCall(s.plane, before.plane, c);
      case EngineTicks(_, work) => TickByCalls(s.plane, before, before.policies, work);
      case Patches(_, _, _, _) =>
    }
  }

  /** So everything proved of runs of calls holds with the engine among the callers. */
  lemma GovernedByPeopleOrEngine(s: System, moves: seq<Move>, id: ActionId)
    requires Fresh(s.plane) && id in Run(s, moves).plane.rows
    ensures var t := Run(s, moves).plane; var row := t.rows[id];
      && (row.risk == High && row.mode == Live && Concluded(At(row.status)) ==>
            row.approvedBy.Some? && row.approvedBy.value != row.requestedBy)
      && (row.risk == High && row.mode == Live ==>
            forall j :: 0 <= j < |t.trail| && t.trail[j].id == id && Actuates(t.trail[j].event) ==>
              ApprovedByAnother(t.trail[..j], id, row.requestedBy))
      && Fold(t.trail, id) == At(row.status)
      && Conclusions(t.trail, id) <= 1
  {
    hide Made, TrailExplains, DutiesSeparated, ApprovalComesFirst, ApprovedByAnother, Step;
    RunByCalls(s, moves);
    var calls :| Run(s, moves).plane == After(s.plane, calls);
    SecondPersonAndOnce(s.plane, calls, id);
    RunsKeepInv(s.plane, calls);
    Explained(Run(s, moves).plane, id);
  }

  lemma Explained(t: State, id: ActionId)
    requires Inv(t) && id in t.rows
    ensures Fold(t.trail, id) == At(t.rows[id].status)
  {
    hide ApprovedByAnother;
  }

  // ---- what the engine may do ----------------------------------------------

  /** The action can be inserted: its type has a handler, the plan returns, the id is new. */
  predicate Submittable(plane: State, prop: Proposal) {
    prop.actionType in plane.handlers && prop.plan == Returns && prop.id !in plane.rows
  }

  /** The engine carries a proposal out exactly when it can be submitted, the policy is
      in automatic mode, the proposal is within bounds, the controls switch is on, a live
      action's handler returns, and a high-risk one is not proposed under the approver's
      own name. */
  lemma CarriedIff(s: System, pid: string, policy: Policy, prop: Proposal)
    ensures Propose(s, pid, policy, prop).1 == Carried
      <==> && Submittable(s.plane, prop) && policy.auto && prop.inBounds && prop.enabled
           && (prop.risk == High ==> pid != "supervisor") && (prop.mode == Live ==> prop.run == Returns)
  {
    SameNameIff(pid, "supervisor");
  }

  lemma SameNameIff(a: string, b: string)
    ensures EngineName(a) == EngineName(b) <==> a == b
  {
    if EngineName(a) == EngineName(b) { NamesApart(a, b); }
  }

  /** What is carried out leaves an executed row under the policy's name, approved by the
      supervisor if the risk is high, and a cleared counter. */
  lemma CarriedLeaves(s: System, pid: string, policy: Policy, prop: Proposal)
    requires Propose(s, pid, policy, prop).1 == Carried
    ensures var t := Propose(s, pid, policy, prop).0;
      && prop.id in t.plane.rows && t.policies == Cleared(s.policies, pid)
      && t.plane.rows[prop.id].status == Executed && t.plane.rows[prop.id].requestedBy == EngineName(pid)
      && (prop.risk == High ==> t.plane.rows[prop.id].approvedBy == Some(EngineName("supervisor")))
  {
  }

  /** A policy called "supervisor" shares its requester's name with the approver: its
      high-risk proposals stay pending and count as failures. */
  lemma SupervisorIsRefused(s: System, policy: Policy, prop: Proposal)
    requires Submittable(s.plane, prop) && policy.auto && prop.inBounds && prop.enabled && prop.risk == High
    ensures var (t, d) := Propose(s, "supervisor", policy, prop);
      && d == FailedDecision(s.policies, "supervisor") && t.policies == Bumped(s.policies, "supervisor")
      && t.plane.rows.Keys == s.plane.rows.Keys + {prop.id}
      && t.plane.rows[prop.id].status == Pending && t.plane.rows[prop.id].approvedBy == None
  {
  }

  /** In recommending mode a proposal leaves at most a pending action. */
  lemma RecommendsOnly(s: System, pid: string, policy: Policy, prop: Proposal)
    requires !policy.auto
    ensures var t := Propose(s, pid, policy, prop).0;
      t.policies == s.policies &&
      (t.plane == s.plane || (prop.id !in s.plane.rows && prop.id in t.plane.rows
         && t.plane.rows == s.plane.rows[prop.id := t.plane.rows[prop.id]]
         && t.plane.rows[prop.id].status == Pending && t.plane.rows[prop.id].approvedBy == None))
  {
  }

  // ---- the circuit breaker -------------------------------------------------

  /** No policy has failed the threshold number of times in a row without being tripped. */
  ghost predicate BreakersHold(policies: map<string, Policy>) {
    forall pid :: pid in policies ==> policies[pid].failures >= TRIP_THRESHOLD ==> policies[pid].tripped
  }

  lemma ProposalKeepsBreakers(s: System, pid: string, policy: Policy, prop: Proposal)
    requires BreakersHold(s.policies)
    ensures BreakersHold(Propose(s, pid, policy, prop).0.policies)
  {
  }

  lemma {:induction false} ProposalsKeepBreakers(s: System, pid: string, policy: Policy, props: seq<Proposal>)
    requires BreakersHold(s.policies)
    ensures BreakersHold(ProposeAll(s, pid, policy, props).0.policies)
  {
    hide Propose, BreakersHold;
    if props != [] {
      ProposalsKeepBreakers(s, pid, policy, props[..|props| - 1]);
      ProposalKeepsBreakers(ProposeAll(s, pid, policy, props[..|props| - 1]).0, pid, policy, props[|props| - 1]);
    }
  }

  lemma {:induction false} TickKeepsBreakers(s: System, snapshot: map<string, Policy>, work: seq<Work>)
    requires BreakersHold(s.policies)
    ensures BreakersHold(TickAll(s, snapshot, work).0.policies)
  {
    hide ProposeAll, BreakersHold;
    if work != [] {
      var before, w := TickAll(s, snapshot, work[..|work| - 1]).0, work[|work| - 1];
      TickKeepsBreakers(s, snapshot, work[..|work| - 1]);
      if Runs(snapshot, w.pid) { ProposalsKeepBreakers(before, w.pid, snapshot[w.pid], w.proposals); }
    }
  }

  lemma {:induction false} RunsKeepBreakers(s: System, moves: seq<Move>)
    requires BreakersHold(s.policies)
    ensures BreakersHold(Run(s, moves).policies)
  {
    hide Made, TickAll;
    if moves != [] {
      RunsKeepBreakers(s, moves[..|moves| - 1]);
      var before, m := Run(s, moves[..|moves| - 1]), moves[|moves| - 1];
      if m.EngineTicks? { TickKeepsBreakers(before, before.policies, m.work); }
    }
  }

  /** Requests made under a name. */
  ghost predicate NoNewRequest(s: State, t: State, name: string) {
    forall id :: id in t.rows && t.rows[id].requestedBy == name ==> id in s.rows
  }

  lemma NamesApart(a: string, b: string)
    requires EngineName(a) == EngineName(b)
    ensures a == b
  {
    assert EngineName(a)[|"automation:"|..] == a && EngineName(b)[|"automation:"|..] == b;
  }

  ghost predicate Idle(s: State, t: State, name: string) {
    NoNewRequest(s, t, name) && s.rows.Keys <= t.rows.Keys
    && forall id :: id in s.rows ==> SameRequest(s.rows[id], t.rows[id])
  }

  lemma CallIsIdle(s: State, t: State, c: Call, name: string)
    requires Idle(s, t, name) && (c.SubmitCall? ==> c.requester != name)
    ensures Idle(s, Made(t, c).0, name)
  {
    CallExtends(t, c);
  }

  lemma ProposalRequestsAsItself(s: System, pid: string, policy: Policy, prop: Proposal, name: string)
    requires name != EngineName(pid)
    ensures Idle(s.plane, Propose(s, pid, policy, prop).0.plane, name)
  {
    hide Idle, Submit, Approve, Execute, Bumped, Cleared;
    assert Idle(s.plane, s.plane, name) by { IdleSelf(s.plane, name); }
    var submit := SubmitCall(prop.id, RequestOf(policy, prop), EngineName(pid));
    var approve := ApproveCall(prop.id, Actor("supervisor"));
    var execute := ExecuteCall(prop.id, Actor(pid), prop.enabled, prop.run);
    CallIsIdle(s.plane, s.plane, submit, name);
    var plane := Made(s.plane, submit).0;
    CallIsIdle(s.plane, plane, execute, name);
    CallIsIdle(s.plane, plane, approve, name);
    CallIsIdle(s.plane, Made(plane, approve).0, execute, name);
  }

  lemma IdleSelf(s: State, name: string)
    ensures Idle(s, s, name)
  {
  }

  lemma {:induction false} ProposalsRequestAsThemselves(
      s: System, pid: string, policy: Policy, props: seq<Proposal>, name: string)
    requires name != EngineName(pid)
    ensures Idle(s.plane, ProposeAll(s, pid, policy, props).0.plane, name)
  {
    hide Propose;
    if props != [] {
      ProposalsRequestAsThemselves(s, pid, policy, props[..|props| - 1], name);
      ProposalRequestsAsItself(
        ProposeAll(s, pid, policy, props[..|props| - 1]).0, pid, policy, props[|props| - 1], name);
    }
  }

  /** A policy that is disabled or tripped when a tick starts requests nothing in it. */
  lemma {:induction false} TrippedIsIdle(s: System, snapshot: map<string, Policy>, work: seq<Work>, pid: string)
    requires !Runs(snapshot, pid)
    ensures Idle(s.plane, TickAll(s, snapshot, work).0.plane, EngineName(pid))
  {
    hide ProposeAll, EngineName;
    if work != [] {
      var before, w := TickAll(s, snapshot, work[..|work| - 1]).0, work[|work| - 1];
      TrippedIsIdle(s, snapshot, work[..|work| - 1], pid);
      if Runs(snapshot, w.pid) {
        if EngineName(pid) == EngineName(w.pid) { NamesApart(pid, w.pid); }
        ProposalsRequestAsThemselves(before, w.pid, snapshot[w.pid], w.proposals, EngineName(pid));
      }
    }
  }

  // ---- within a tick -------------------------------------------------------

  /** Neither the counter nor the trip flag as stored is read while a policy runs. */
  lemma ProposalIgnoresBreaker(s: System, t: System, pid: string, policy: Policy, prop: Proposal)
    requires s.plane == t.plane
    ensures Propose(s, pid, policy, prop).0.plane == Propose(t, pid, policy, prop).0.plane
    ensures Propose(s, pid, policy, prop).1 == Aborted <==> Propose(t, pid, policy, prop).1 == Aborted
  {
    hide Submit, Dispose;
  }

  lemma {:induction false} ProposalsIgnoreBreaker(
      s: System, t: System, pid: string, policy: Policy, props: seq<Proposal>)
    requires s.plane == t.plane
    ensures ProposeAll(s, pid, policy, props).0.plane == ProposeAll(t, pid, policy, props).0.plane
    ensures ProposeAll(s, pid, policy, props).1 == ProposeAll(t, pid, policy, props).1
  {
    hide Propose;
    if props != [] {
      var k := |props| - 1;
      ProposalsIgnoreBreaker(s, t, pid, policy, props[..k]);
      ProposalIgnoresBreaker(
        ProposeAll(s, pid, policy, props[..k]).0, ProposeAll(t, pid, policy, props[..k]).0, pid, policy, props[k]);
    }
  }

  /** So what a whole tick does to the actions depends on the policies as they stood when
      it started and on nothing that happens to their counters and flags meanwhile. */
  lemma {:induction false} TickIgnoresBreaker(s: System, t: System, snapshot: map<string, Policy>, work: seq<Work>)
    requires s.plane == t.plane
    ensures TickAll(s, snapshot, work).0.plane == TickAll(t, snapshot, work).0.plane
    ensures TickAll(s, snapshot, work).1 == TickAll(t, snapshot, work).1
  {
    hide ProposeAll;
    if work != [] {
      var k, w := |work| - 1, work[|work| - 1];
      TickIgnoresBreaker(s, t, snapshot, work[..k]);
      if Runs(snapshot, w.pid) {
        ProposalsIgnoreBreaker(
          TickAll(s, snapshot, work[..k]).0, TickAll(t, snapshot, work[..k]).0, w.pid, snapshot[w.pid], w.proposals);
      }
    }
  }

  /** An exception that is not an HTTP error leaves the submission and ends the tick. */
  predicate EndsTick(plane: State, prop: Proposal) {
    prop.actionType in plane.handlers && (prop.plan == Crashes || (prop.plan == Returns && prop.id in plane.rows))
  }

  /** Some proposal can be submitted before one ends the tick. */
  predicate SomethingFollows(plane: State, props: seq<Proposal>) {
    props != [] && (Submittable(plane, props[0]) || (!EndsTick(plane, props[0]) && SomethingFollows(plane, props[1..])))
  }

  lemma ProposalTouches(s: System, pid: string, policy: Policy, prop: Proposal)
    ensures Propose(s, pid, policy, prop).1 == Aborted <==> EndsTick(s.plane, prop)
    ensures Submittable(s.plane, prop) ==> prop.id in Propose(s, pid, policy, prop).0.plane.rows
    ensures !Submittable(s.plane, prop) ==> Propose(s, pid, policy, prop).0.plane == s.plane
  {
  }

  lemma ProposeOne(s: System, pid: string, policy: Policy, prop: Proposal)
    ensures ProposeAll(s, pid, policy, [prop])
         == (Propose(s, pid, policy, prop).0, Propose(s, pid, policy, prop).1 != Aborted)
  {
    hide Propose;
    assert [prop][..0] == [];
  }

  lemma {:induction false} ProposeInTwo(s: System, pid: string, policy: Policy, a: seq<Proposal>, b: seq<Proposal>)
    ensures var (t, going) := ProposeAll(s, pid, policy, a);
      ProposeAll(s, pid, policy, a + b) == if going then ProposeAll(t, pid, policy, b) else (t, false)
  {
    hide Propose;
    if b == [] {
      assert a + b == a;
    } else {
      var k := |b| - 1;
      ProposeInTwo(s, pid, policy, a, b[..k]);
      assert (a + b)[..|a + b| - 1] == a + b[..k];
    }
  }

  lemma ProposalsOnlyAdd(s: System, pid: string, policy: Policy, props: seq<Proposal>)
    ensures s.plane.rows.Keys <= ProposeAll(s, pid, policy, props).0.plane.rows.Keys
  {
    hide ProposeAll;
    NoCalls(s.plane);
    ProposalsByCalls(s.plane, s, pid, policy, props);
    var calls :| ProposeAll(s, pid, policy, props).0.plane == After(s.plane, calls);
    RunsExtend(s.plane, calls);
  }

  /** A run of proposals leaves the actions alone exactly when none of them can be
      submitted before one ends the tick. */
  lemma {:induction false} NothingFollowsIff(s: System, pid: string, policy: Policy, props: seq<Proposal>)
    ensures ProposeAll(s, pid, policy, props).0.plane == s.plane <==> !SomethingFollows(s.plane, props)
    decreases |props|
  {
    if props != [] {
      var first, rest := props[0], props[1..];
      assert [first] + rest == props;
      ProposeInTwo(s, pid, policy, [first], rest);
      ProposeOne(s, pid, policy, first);
      ProposalTouches(s, pid, policy, first);
      var t := Propose(s, pid, policy, first).0;
      hide ProposeAll, Propose, Submittable, EndsTick;
      if Submittable(s.plane, first) {
        SubmittableIsNew(s.plane, first);
        if !EndsTick(s.plane, first) { ProposalsOnlyAdd(t, pid, policy, rest); }
      } else if !EndsTick(s.plane, first) {
        NothingFollowsIff(t, pid, policy, rest);
      }
    }
  }

  lemma SubmittableIsNew(plane: State, prop: Proposal)
    requires Submittable(plane, prop)
    ensures prop.id !in plane.rows && !EndsTick(plane, prop)
  {
  }

  /** The breaker stops a policy within its own tick exactly when it had nothing left: a
      proposal that trips it is the last to touch the actions if and only if no later one
      can be submitted before one ends the tick. */
  lemma TripIsLastIff(s: System, pid: string, policy: Policy, props: seq<Proposal>, i: nat)
    requires i < |props| && ProposeAll(s, pid, policy, props[..i]).1
    requires Propose(ProposeAll(s, pid, policy, props[..i]).0, pid, policy, props[i]).1 == Tripped
    ensures var t := Propose(ProposeAll(s, pid, policy, props[..i]).0, pid, policy, props[i]).0;
      && (ProposeAll(s, pid, policy, props).0.plane == t.plane <==> !SomethingFollows(t.plane, props[i + 1..]))
      && (i == |props| - 1 ==> ProposeAll(s, pid, policy, props).0 == t)
  {
    hide Propose;
    var before, upTo, rest := props[..i], props[..i + 1], props[i + 1..];
    assert upTo[..i] == before && upTo[i] == props[i] && upTo + rest == props;
    var t := ProposeAll(s, pid, policy, upTo).0;
    ProposeInTwo(s, pid, policy, upTo, rest);
    NothingFollowsIff(t, pid, policy, rest);
  }

  function Ready(id: ActionId, run: Outcome): Proposal {
    Proposal(id, "noop", Live, Returns, Low, true, true, run)
  }

  /** Within a tick the breaker stops nothing: a policy two failures down trips on its
      first proposal, and its second is still carried out. */
  lemma TripDoesNotEndTick()
    ensures var policy := Policy(true, false, 2, true, "default");
      var s := System(State({"noop"}, map[], []), map["p" := policy]);
      var t := TickAll(s, s.policies, [Work("p", [Ready(0, Crashes), Ready(1, Returns)])]).0;
      "p" in t.policies && {0, 1} <= t.plane.rows.Keys
      && t.policies["p"].tripped && t.policies["p"].failures == 0
      && t.plane.rows[0].status == Status.Failed && t.plane.rows[1].status == Executed
  {
    var policy := Policy(true, false, 2, true, "default");
    var s := System(State({"noop"}, map[], []), map["p" := policy]);
    var props := [Ready(0, Crashes), Ready(1, Returns)];
    var w := Work("p", props);
    assert [w][..0] == [] && props[..0] == [] && props[..1][..0] == [];
    var (s1, d1) := Propose(s, "p", policy, props[0]);
    assert d1 == Tripped;
    assert ProposeAll(s, "p", policy, props[..1]) == (s1, true);
    var (s2, d2) := Propose(s1, "p", policy, props[1]);
    assert d2 == Carried;
    assert ProposeAll(s, "p", policy, props) == (s2, true);
    assert TickAll(s, s.policies, [w][..0]) == (s, true);
    assert TickAll(s, s.policies, [w]) == (s2, true);
  }
}

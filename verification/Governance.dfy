/** What every run of governance calls keeps: the trail explains every status, high-risk
    live actions pass through a second person, and nothing executes twice. */
module Governance {
  import opened Results
  import opened Controls

  datatype Call =
    | SubmitCall(id: ActionId, request: Request, requester: string)
    | ApproveCall(id: ActionId, p: Principal)
    | RejectCall(id: ActionId, p: Principal)
    | ExecuteCall(id: ActionId, p: Principal, enabled: bool, o: Outcome)
    | RollbackCall(id: ActionId, p: Principal, o: Outcome)

  function Made(s: State, c: Call): (State, Reply) {
    match c
    case SubmitCall(id, r, name) => Submit(s, id, r, name)
    case ApproveCall(id, p) => Approve(s, id, p)
    case RejectCall(id, p) => Reject(s, id, p)
    case ExecuteCall(id, p, enabled, o) => Execute(s, id, p, enabled, o)
    case RollbackCall(id, p, o) => Rollback(s, id, p, o)
  }

  function After(s: State, calls: seq<Call>): State {
    if calls == [] then s else Made(After(s, calls[..|calls| - 1]), calls[|calls| - 1]).0
  }

  // ---- the status machine, read off the trail ------------------------------

  datatype Progress = Absent | At(status: Status) | Broken

  /** Where an event takes an action; an event that has no place there breaks the trail. */
  function Advance(p: Progress, e: Event): Progress {
    match e
    case RequestedEvent => if p == Absent then At(Pending) else Broken
    case ApprovedEvent => if p == At(Pending) then At(Approved) else Broken
    case RejectedEvent => if p == At(Pending) then At(Rejected) else Broken
    case DryRunEvent => if p == At(Pending) || p == At(Approved) then At(Executed) else Broken
    case ExecutedEvent => if p == At(Pending) || p == At(Approved) then At(Executed) else Broken
    case FailedEvent => if p == At(Pending) || p == At(Approved) then At(Failed) else Broken
    case BlockedEvent => if p.At? then p else Broken
    case RolledBackEvent => if p == At(Executed) then At(RolledBack) else Broken
  }

  function Fold(trail: seq<Entry>, id: ActionId): Progress {
    if trail == [] then Absent
    else
      var p, last := Fold(trail[..|trail| - 1], id), trail[|trail| - 1];
      if last.id == id then Advance(p, last.event) else p
  }

  /** The name on the last decision about an action. */
  function Decider(trail: seq<Entry>, id: ActionId): Option<string> {
    if trail == [] then None
    else
      var last := trail[|trail| - 1];
      if last.id == id && Decides(last.event) then Some(last.actor)
      else Decider(trail[..|trail| - 1], id)
  }

  predicate Concludes(e: Event) {
    e == DryRunEvent || e == ExecutedEvent || e == FailedEvent
  }

  function Conclusions(trail: seq<Entry>, id: ActionId): nat {
    if trail == [] then 0
    else
      var last := trail[|trail| - 1];
      Conclusions(trail[..|trail| - 1], id) + if last.id == id && Concludes(last.event) then 1 else 0
  }

  predicate Concluded(p: Progress) {
    p == At(Executed) || p == At(Failed) || p == At(RolledBack)
  }

  /** A trail that never breaks concludes an action at most once, and exactly once when
      the action ends up executed, failed or rolled back. */
  lemma {:induction false} ConcludesOnce(trail: seq<Entry>, id: ActionId)
    requires Fold(trail, id) != Broken
    ensures Conclusions(trail, id) == if Concluded(Fold(trail, id)) then 1 else 0
  {
    if trail != [] {
      ConcludesOnce(trail[..|trail| - 1], id);
    }
  }

  // ---- invariants ----------------------------------------------------------

  ghost predicate TrailExplains(s: State) {
    forall id :: Fold(s.trail, id) == if id in s.rows then At(s.rows[id].status) else Absent
  }

  ghost predicate DecidersMatch(s: State) {
    forall id :: Decider(s.trail, id) == if id in s.rows then s.rows[id].approvedBy else None
  }

  /** Somebody other than the requester has approved. */
  ghost predicate ApprovedByAnother(trail: seq<Entry>, id: ActionId, requester: string) {
    exists i :: 0 <= i < |trail| && trail[i].id == id && trail[i].event == ApprovedEvent && trail[i].actor != requester
  }

  predicate NeedsSecondPerson(row: Row) {
    row.risk == High && (
      || row.status == Approved
      || (row.mode == Live && (row.status == Executed || row.status == Failed || row.status == RolledBack)))
  }

  ghost predicate DutiesSeparated(s: State) {
    forall id :: id in s.rows && NeedsSecondPerson(s.rows[id]) ==>
      && ApprovedByAnother(s.trail, id, s.rows[id].requestedBy)
      && s.rows[id].approvedBy.Some? && s.rows[id].approvedBy.value != s.rows[id].requestedBy
  }

  predicate Actuates(e: Event) {
    e == ExecutedEvent || e == FailedEvent || e == RolledBackEvent
  }

  /** In the trail itself the second person comes before the first attempt to actuate. */
  ghost predicate ApprovalComesFirst(s: State) {
    forall j :: 0 <= j < |s.trail| ==> ApprovalBefore(s, j)
  }

  ghost predicate ApprovalBefore(s: State, j: nat)
    requires j < |s.trail|
  {
    var e := s.trail[j];
    Actuates(e.event) && e.id in s.rows && s.rows[e.id].risk == High && s.rows[e.id].mode == Live
    ==> ApprovedByAnother(s.trail[..j], e.id, s.rows[e.id].requestedBy)
  }

  ghost predicate Inv(s: State) {
    TrailExplains(s) && DecidersMatch(s) && DutiesSeparated(s) && ApprovalComesFirst(s)
  }

  /** What was requested never changes, and rows and entries are never taken away. */
  ghost predicate Extends(s: State, s': State) {
    && s.trail <= s'.trail && s.rows.Keys <= s'.rows.Keys && s'.handlers == s.handlers
    && forall id :: id in s.rows ==> SameRequest(s.rows[id], s'.rows[id])
  }

  predicate SameRequest(a: Row, b: Row) {
    && a.actionType == b.actionType && a.mode == b.mode && a.risk == b.risk
    && a.requestedBy == b.requestedBy && a.tenant == b.tenant
  }

  lemma CallExtends(s: State, c: Call)
    ensures Extends(s, Made(s, c).0)
  {
  }

  predicate Decides(e: Event) {
    e == ApprovedEvent || e == RejectedEvent
  }

  /** A row moves as its entry says. */
  ghost predicate IsMove(s: State, s': State, id: ActionId, row: Row, event: Event, actor: string) {
    var known := id in s.rows;
    var from := if known then At(s.rows[id].status) else Absent;
    var decider := if Decides(event) then Some(actor) else if known then s.rows[id].approvedBy else None;
    && s' == Moved(s, id, row, event, actor)
    && (known ==> SameRequest(s.rows[id], row))
    && Advance(from, event) == At(row.status) && row.approvedBy == decider
    && (event == ApprovedEvent && row.risk == High ==> actor != row.requestedBy)
    && (event == DryRunEvent ==> row.mode == DryRun)
    && (FirstActuation(row, event) ==> from == At(Approved))
  }

  predicate FirstActuation(row: Row, event: Event) {
    row.risk == High && row.mode == Live && (event == ExecutedEvent || event == FailedEvent)
  }

  /** Which row a call would move, and the event and name it would record. */
  lemma CallMoves(s: State, c: Call)
    ensures var s' := Made(s, c).0;
      s' == s || (s'.trail != [] && var e := s'.trail[|s'.trail| - 1];
                  e.id in s'.rows && IsMove(s, s', e.id, s'.rows[e.id], e.event, e.actor))
  {
  }

  lemma Appended(trail: seq<Entry>, e: Entry)
    ensures (trail + [e])[..|trail + [e]| - 1] == trail
  {
  }

  lemma MoveKeepsTrail(s: State, s': State, id: ActionId, row: Row, event: Event, actor: string)
    requires TrailExplains(s) && DecidersMatch(s) && IsMove(s, s', id, row, event, actor)
    ensures TrailExplains(s') && DecidersMatch(s')
  {
    Appended(s.trail, Entry(id, event, actor));
  }

  lemma ApprovalStays(trail: seq<Entry>, e: Entry, id: ActionId, requester: string)
    requires ApprovedByAnother(trail, id, requester)
    ensures ApprovedByAnother(trail + [e], id, requester)
  {
    var i :| 0 <= i < |trail| && trail[i].id == id && trail[i].event == ApprovedEvent && trail[i].actor != requester;
    assert (trail + [e])[i] == trail[i];
  }

  lemma ApprovalNow(trail: seq<Entry>, e: Entry, requester: string)
    requires e.event == ApprovedEvent && e.actor != requester
    ensures ApprovedByAnother(trail + [e], e.id, requester)
  {
    assert (trail + [e])[|trail|] == e;
  }

  lemma MoveKeepsDuties(s: State, s': State, id: ActionId, row: Row, event: Event, actor: string)
    requires DutiesSeparated(s) && IsMove(s, s', id, row, event, actor)
    ensures DutiesSeparated(s')
  {
    hide ApprovedByAnother;
    var e := Entry(id, event, actor);
    forall k | k in s'.rows && NeedsSecondPerson(s'.rows[k])
      ensures ApprovedByAnother(s'.trail, k, s'.rows[k].requestedBy)
      ensures s'.rows[k].approvedBy.Some? && s'.rows[k].approvedBy.value != s'.rows[k].requestedBy
    {
      if k == id && event == ApprovedEvent {
        ApprovalNow(s.trail, e, row.requestedBy);
      } else {
        ApprovalStays(s.trail, e, k, s.rows[k].requestedBy);
      }
    }
  }

  lemma MoveKeepsOrder(s: State, s': State, id: ActionId, row: Row, event: Event, actor: string)
    requires Inv(s) && IsMove(s, s', id, row, event, actor)
    ensures ApprovalComesFirst(s')
  {
    hide ApprovedByAnother, TrailExplains, DecidersMatch;
    forall j | 0 <= j < |s'.trail| ensures ApprovalBefore(s', j) {
      if j < |s.trail| {
        assert ApprovalBefore(s, j);
        assert s'.trail[..j] == s.trail[..j];
        EntryHasRow(s, j);
      } else {
        assert s'.trail[..j] == s.trail;
      }
    }
  }

  lemma {:induction false} UnknownHasNoEntry(trail: seq<Entry>, id: ActionId, j: nat)
    requires Fold(trail, id) == Absent && j < |trail|
    ensures trail[j].id != id
  {
    if j < |trail| - 1 { UnknownHasNoEntry(trail[..|trail| - 1], id, j); }
  }

  lemma EntryHasRow(s: State, j: nat)
    requires TrailExplains(s) && j < |s.trail|
    ensures s.trail[j].id in s.rows
  {
    if s.trail[j].id !in s.rows { UnknownHasNoEntry(s.trail, s.trail[j].id, j); }
  }

  lemma CallKeepsInv(s: State, c: Call)
    requires Inv(s)
    ensures Inv(Made(s, c).0)
  {
    hide Made, TrailExplains, DecidersMatch, DutiesSeparated, ApprovalComesFirst, IsMove;
    CallMoves(s, c);
    var s' := Made(s, c).0;
    if s' != s {
      var e := s'.trail[|s'.trail| - 1];
      MoveKeepsTrail(s, s', e.id, s'.rows[e.id], e.event, e.actor);
      MoveKeepsDuties(s, s', e.id, s'.rows[e.id], e.event, e.actor);
      MoveKeepsOrder(s, s', e.id, s'.rows[e.id], e.event, e.actor);
    }
  }

  ghost predicate Fresh(s: State) { s.rows == map[] && s.trail == [] }

  /** Over every run of calls from empty tables. */
  lemma {:induction false} RunsKeepInv(s: State, calls: seq<Call>)
    requires Inv(s) || Fresh(s)
    ensures Inv(After(s, calls))
  {
    hide Made;
    if calls != [] {
      RunsKeepInv(s, calls[..|calls| - 1]);
      CallKeepsInv(After(s, calls[..|calls| - 1]), calls[|calls| - 1]);
    }
  }

  /** Later states only add to earlier ones. */
  lemma {:induction false} RunsExtend(s: State, calls: seq<Call>)
    ensures Extends(s, After(s, calls))
  {
    hide Made;
    if calls != [] {
      RunsExtend(s, calls[..|calls| - 1]);
      CallExtends(After(s, calls[..|calls| - 1]), calls[|calls| - 1]);
    }
  }

  /** A high-risk live action that was executed, failed or rolled back in some run was
      approved, before that, by a name other than its requester's, and that name is on
      its row; and no action is concluded twice. */
  lemma SecondPersonAndOnce(s: State, calls: seq<Call>, id: ActionId)
    requires Fresh(s) && id in After(s, calls).rows
    ensures var t := After(s, calls); var row := t.rows[id];
      && (row.risk == High && row.mode == Live && Concluded(At(row.status)) ==>
            row.approvedBy.Some? && row.approvedBy.value != row.requestedBy)
      && (row.risk == High && row.mode == Live ==>
            forall j :: 0 <= j < |t.trail| && t.trail[j].id == id && Actuates(t.trail[j].event) ==>
              ApprovedByAnother(t.trail[..j], id, row.requestedBy))
      && Conclusions(t.trail, id) <= 1
  {
    hide Made, ApprovedByAnother;
    RunsKeepInv(s, calls);
    var t := After(s, calls);
    ConcludesOnce(t.trail, id);
    forall j | 0 <= j < |t.trail| && t.trail[j].id == id && Actuates(t.trail[j].event)
      ensures ApprovalBefore(t, j) {}
  }

  // ---- runs with the switch off, and runs of one tenant --------------------

  predicate SwitchedOff(calls: seq<Call>) {
    forall i :: 0 <= i < |calls| && calls[i].ExecuteCall? ==> !calls[i].enabled
  }

  /** A live action moves on to executed or failed in no way, and to rolled back only if it
      had been executed before. */
  predicate LiveKept(a: Row, b: Row) {
    && (b.status in {Executed, Failed} ==> a.status == b.status)
    && (b.status == RolledBack ==> a.status in {Executed, RolledBack})
  }

  ghost predicate NothingActuated(s: State, t: State) {
    && Extends(s, t)
    && (forall id :: id in s.rows && s.rows[id].mode == Live ==> LiveKept(s.rows[id], t.rows[id]))
    && (forall id :: id in t.rows && id !in s.rows && t.rows[id].mode == Live ==>
          t.rows[id].status in {Pending, Approved, Rejected})
    && (forall j :: |s.trail| <= j < |t.trail| ==> LiveEntryOk(s, t, t.trail[j]))
  }

  /** A new entry about a live action records no execution and no failure, and a rollback
      only of what was executed at the start. */
  ghost predicate LiveEntryOk(s: State, t: State, e: Entry) {
    e.id in t.rows && (t.rows[e.id].mode == Live ==>
      && e.event != ExecutedEvent && e.event != FailedEvent
      && (e.event == RolledBackEvent ==> e.id in s.rows && s.rows[e.id].status == Executed))
  }

  predicate OffMove(known: bool, from: Status, to: Status, event: Event) {
    if !known then event == RequestedEvent && to == Pending
    else match event
      case BlockedEvent => to == from
      case ApprovedEvent => to == Approved
      case RejectedEvent => to == Rejected
      case RolledBackEvent => from == Executed && to == RolledBack
      case _ => false
  }

  /** With the switch off a call moves one row, and a live one only as `OffMove` allows. */
  lemma OffCallMoves(t: State, c: Call)
    requires c.ExecuteCall? ==> !c.enabled
    ensures var t' := Made(t, c).0;
      t' == t || (t'.trail != [] && var e := t'.trail[|t'.trail| - 1];
        && e.id in t'.rows && t' == Moved(t, e.id, t'.rows[e.id], e.event, e.actor)
        && (e.id in t.rows ==> t.rows[e.id].mode == t'.rows[e.id].mode)
        && (t'.rows[e.id].mode == Live ==>
              OffMove(
                e.id in t.rows, if e.id in t.rows then t.rows[e.id].status else Pending, t'.rows[e.id].status,
                e.event)))
  {
  }

  lemma SwitchOffCall(s: State, t: State, c: Call)
    requires NothingActuated(s, t) && (c.ExecuteCall? ==> !c.enabled)
    ensures NothingActuated(s, Made(t, c).0)
  {
    hide Extends, LiveEntryOk;
    var t' := Made(t, c).0;
    StillExtends(s, t, c);
    RowMoves(s, t, c);
    forall j | |s.trail| <= j < |t'.trail| ensures LiveEntryOk(s, t', t'.trail[j]) {
      EntryKept(s, t, c, j);
    }
  }

  lemma StillExtends(s: State, t: State, c: Call)
    requires Extends(s, t)
    ensures Extends(s, Made(t, c).0)
  {
    hide Made;
    CallExtends(t, c);
  }

  lemma RowMoves(s: State, t: State, c: Call)
    requires NothingActuated(s, t) && (c.ExecuteCall? ==> !c.enabled)
    ensures var t' := Made(t, c).0;
      && (forall id :: id in s.rows && s.rows[id].mode == Live ==> id in t'.rows && LiveKept(s.rows[id], t'.rows[id]))
      && (forall id :: id in t'.rows && id !in s.rows && t'.rows[id].mode == Live ==>
            t'.rows[id].status in {Pending, Approved, Rejected})
  {
    hide LiveEntryOk, Made;
    OffCallMoves(t, c);
  }

  lemma EntryKept(s: State, t: State, c: Call, j: nat)
    requires NothingActuated(s, t) && (c.ExecuteCall? ==> !c.enabled)
    requires |s.trail| <= j < |Made(t, c).0.trail|
    ensures LiveEntryOk(s, Made(t, c).0, Made(t, c).0.trail[j])
  {
    hide Made;
    OffCallMoves(t, c);
    if j < |t.trail| {
      assert LiveEntryOk(s, t, t.trail[j]);
    }
  }

  /** While the master switch is off, no run of calls executes a live action or fails one,
      and it rolls back only what was executed before. */
  lemma {:induction false} SwitchOffBlocks(s: State, calls: seq<Call>)
    requires SwitchedOff(calls)
    ensures NothingActuated(s, After(s, calls))
  {
    hide Made, NothingActuated;
    if calls == [] {
      StandsStill(s);
    } else {
      var k := |calls| - 1;
      SwitchOffBlocks(s, calls[..k]);
      SwitchOffCall(s, After(s, calls[..k]), calls[k]);
    }
  }

  lemma StandsStill(s: State)
    ensures NothingActuated(s, s)
  {
  }

  /** The rollback that remains: it does not read the switch. */
  lemma RollbackIgnoresSwitch(s: State, id: ActionId, p: Principal)
    requires id in s.rows && TenantOk(p, s.rows[id]) && s.rows[id].status == Executed
    requires s.rows[id].actionType in s.handlers && s.rows[id].mode == Live
    ensures SwitchedOff([RollbackCall(id, p, Returns)])
    ensures var t := After(s, [RollbackCall(id, p, Returns)]);
      id in t.rows && t.rows[id].status == RolledBack
  {
    var calls := [RollbackCall(id, p, Returns)];
    assert calls[..0] == [] && After(s, calls[..0]) == s;
  }

  function CallerOf(c: Call): Option<Principal> {
    match c
    case SubmitCall(_, _, _) => None
    case ApproveCall(_, p) => Some(p)
    case RejectCall(_, p) => Some(p)
    case ExecuteCall(_, p, _, _) => Some(p)
    case RollbackCall(_, p, _) => Some(p)
  }

  /** Every caller of the run is bound to that tenant. */
  predicate BoundTo(calls: seq<Call>, tenant: string) {
    forall i :: 0 <= i < |calls| && CallerOf(calls[i]).Some? ==> CallerOf(calls[i]).value.tenant == Some(tenant)
  }

  /** The call of a caller bound to another tenant, and a request for an id that is taken,
      leave a row and its history alone. */
  lemma ForeignCall(s: State, c: Call, id: ActionId)
    requires id in s.rows
    requires CallerOf(c).Some? ==> CallerOf(c).value.tenant.Some? && CallerOf(c).value.tenant.value != s.rows[id].tenant
    ensures var s' := Made(s, c).0;
      id in s'.rows && s'.rows[id] == s.rows[id]
      && forall j :: |s.trail| <= j < |s'.trail| ==> s'.trail[j].id != id
    ensures CallerOf(c).Some? && c.id == id ==> Made(s, c) == (s, Raised(403))
  {
  }

  /** Callers bound to a tenant never move another tenant's action nor leave a mark on it,
      whatever they call and however often. */
  lemma {:induction false} TenantsApart(s: State, calls: seq<Call>, tenant: string, id: ActionId)
    requires BoundTo(calls, tenant) && id in s.rows && s.rows[id].tenant != tenant
    ensures var t := After(s, calls);
      && id in t.rows && t.rows[id] == s.rows[id] && s.trail <= t.trail
      && forall j :: |s.trail| <= j < |t.trail| ==> t.trail[j].id != id
  {
    hide Made, CallerOf;
    if calls != [] {
      var k := |calls| - 1;
      var t := After(s, calls[..k]);
      TenantsApart(s, calls[..k], tenant, id);
      ForeignCall(t, calls[k], id);
      CallExtends(t, calls[k]);
    }
  }
}

/** When each governed call succeeds, what it then leaves, and what it answers otherwise. */
module ControlLaws {
  import opened Results
  import opened Controls

  /** The call left the tables alone. */
  predicate Untouched(s: State, t: State) { t == s }

  /** One row took this status, and one entry with this event and name was appended. */
  ghost predicate Recorded(s: State, t: State, id: ActionId, status: Status, event: Event, name: string) {
    && id in t.rows && t.rows[id].status == status && t.rows == s.rows[id := t.rows[id]]
    && t.trail == s.trail + [Entry(id, event, name)] && t.handlers == s.handlers
  }

  predicate Open(row: Row) { row.status == Pending || row.status == Approved }

  /** A caller bound to another tenant than the row's. */
  predicate Foreign(p: Principal, row: Row) {
    p.tenant.Some? && p.tenant.value != row.tenant
  }

  /** A request is taken exactly for a type with a handler, a plan that returns and a new
      id; it waits under the requester's name, undecided, in the tenant asked for. */
  lemma SubmitVerdict(s: State, id: ActionId, r: Request, name: string)
    ensures var (t, reply) := Submit(s, id, r, name);
      && (reply.Done? <==> r.actionType in s.handlers && r.plan == Returns && id !in s.rows)
      && (reply.Done? ==>
            && reply == Done(Pending) && Recorded(s, t, id, Pending, RequestedEvent, name)
            && t.rows[id].requestedBy == name && t.rows[id].approvedBy == None
            && t.rows[id].actionType == r.actionType && t.rows[id].mode == r.mode && t.rows[id].risk == r.risk
            && (r.tenant.Some? && r.tenant.value != "" ==> t.rows[id].tenant == r.tenant.value)
            && (r.tenant.None? || r.tenant.value == "" ==> t.rows[id].tenant == "default"))
      && (!reply.Done? ==> Untouched(s, t))
      && (r.actionType !in s.handlers ==> reply == Raised(422))
      && (r.actionType in s.handlers && r.plan.Refuses? ==> reply == Raised(r.plan.code))
  {
  }

  /** An approval or a rejection succeeds exactly on a pending row within the caller's
      reach, an approval of a high-risk action only under another name than its
      requester's; it records the decider and changes nothing else. */
  lemma DecisionVerdict(s: State, id: ActionId, p: Principal)
    ensures var (t, reply) := Approve(s, id, p);
      && (reply.Done? <==>
            && id in s.rows && !Foreign(p, s.rows[id]) && s.rows[id].status == Pending
            && !(s.rows[id].risk == High && s.rows[id].requestedBy == p.name))
      && (reply.Done? ==>
            && reply == Done(Approved) && Recorded(s, t, id, Approved, ApprovedEvent, p.name)
            && t.rows[id] == s.rows[id].(status := Approved, approvedBy := Some(p.name)))
      && (!reply.Done? ==> Untouched(s, t))
      && (id !in s.rows ==> reply == Raised(404))
      && (id in s.rows && Foreign(p, s.rows[id]) ==> reply == Raised(403))
      && (id in s.rows && !Foreign(p, s.rows[id]) && s.rows[id].status != Pending ==> reply == Raised(409))
    ensures var (t, reply) := Reject(s, id, p);
      && (reply.Done? <==> id in s.rows && !Foreign(p, s.rows[id]) && s.rows[id].status == Pending)
      && (reply.Done? ==>
            && reply == Done(Rejected) && Recorded(s, t, id, Rejected, RejectedEvent, p.name)
            && t.rows[id] == s.rows[id].(status := Rejected, approvedBy := Some(p.name)))
      && (!reply.Done? ==> Untouched(s, t))
      && (id !in s.rows ==> reply == Raised(404))
      && (id in s.rows && Foreign(p, s.rows[id]) ==> reply == Raised(403))
      && (id in s.rows && !Foreign(p, s.rows[id]) && s.rows[id].status != Pending ==> reply == Raised(409))
  {
  }

  /** The caller may act on the row and its type has a handler. */
  predicate Reachable(s: State, id: ActionId, p: Principal) {
    id in s.rows && !Foreign(p, s.rows[id]) && s.rows[id].actionType in s.handlers
  }

  /** A live action that the switch or the two-person rule holds back. */
  predicate HeldBack(row: Row, enabled: bool) {
    row.mode == Live && (!enabled || (row.risk == High && row.status != Approved))
  }

  /** A live action that reaches its handler. */
  predicate Actuated(row: Row, enabled: bool) {
    row.mode == Live && enabled && (row.status == Approved || (row.status == Pending && row.risk == Low))
  }

  /** Executing: a dry run of an open action always succeeds and actuates nothing; a live
      action held back is recorded as blocked; one that reaches its handler ends executed
      or failed as the handler returns or crashes, and is left alone when the handler
      raises an error of its own; everything else is refused without a mark. */
  lemma ExecuteVerdict(s: State, id: ActionId, p: Principal, enabled: bool, o: Outcome)
    ensures var (t, reply) := Execute(s, id, p, enabled, o);
      && (id !in s.rows ==> reply == Raised(404))
      && (id in s.rows && Foreign(p, s.rows[id]) ==> reply == Raised(403))
      && (id in s.rows && !Foreign(p, s.rows[id]) && s.rows[id].actionType !in s.handlers ==> reply == Raised(422))
      && (Reachable(s, id, p) ==> var row := s.rows[id];
            && (row.mode == DryRun && Open(row) ==>
                  reply == Done(Executed) && Recorded(s, t, id, Executed, DryRunEvent, p.name))
            && (HeldBack(row, enabled) ==>
                  && reply == Raised(if enabled then 409 else 403)
                  && Recorded(s, t, id, row.status, BlockedEvent, p.name))
            && (Actuated(row, enabled) && o == Returns ==>
                  reply == Done(Executed) && Recorded(s, t, id, Executed, ExecutedEvent, p.name))
            && (Actuated(row, enabled) && o == Crashes ==>
                  reply == Raised(500) && Recorded(s, t, id, Failed, FailedEvent, p.name))
            && (Actuated(row, enabled) && o.Refuses? ==> reply == Raised(o.code) && Untouched(s, t))
            && (!Open(row) && !HeldBack(row, enabled) ==> reply == Raised(409) && Untouched(s, t)))
      && (!Reachable(s, id, p) ==> Untouched(s, t))
      && (id in s.rows ==> t.rows.Keys == s.rows.Keys && t.rows[id] == s.rows[id].(status := t.rows[id].status))
  {
  }

  /** Rolling back succeeds exactly for an executed action within reach whose handler
      returns; otherwise nothing changes. */
  lemma RollbackVerdict(s: State, id: ActionId, p: Principal, o: Outcome)
    ensures var (t, reply) := Rollback(s, id, p, o);
      && (reply.Done? <==> Reachable(s, id, p) && s.rows[id].status == Executed && o == Returns)
      && (reply.Done? ==>
            && reply == Done(RolledBack) && Recorded(s, t, id, RolledBack, RolledBackEvent, p.name)
            && t.rows[id] == s.rows[id].(status := RolledBack))
      && (!reply.Done? ==> Untouched(s, t))
      && (id !in s.rows ==> reply == Raised(404))
      && (id in s.rows && Foreign(p, s.rows[id]) ==> reply == Raised(403))
      && (id in s.rows && !Foreign(p, s.rows[id]) && s.rows[id].status != Executed ==> reply == Raised(409))
      && (id in s.rows && !Foreign(p, s.rows[id]) && s.rows[id].status == Executed && !Reachable(s, id, p) ==>
            reply == Raised(422))
  {
  }
}

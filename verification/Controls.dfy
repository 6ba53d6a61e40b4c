/** The governed control plane: a row for every control action and an audit trail that
    only grows. Each API call is one step. What a handler does when it is called is an
    input of the step, and so is the master switch, which is read at call time. */
module Controls {
  import opened Results

  type ActionId = nat

  datatype Status = Pending | Approved | Rejected | Executed | Failed | RolledBack
  datatype Risk = Low | High
  datatype Mode = DryRun | Live

  /** A handler returns, raises an HTTP error of its own, or fails in some other way. */
  datatype Outcome = Returns | Refuses(code: nat) | Crashes

  datatype Row = Row(
    actionType: string, mode: Mode, risk: Risk, status: Status,
    requestedBy: string, approvedBy: Option<string>, tenant: string)

  datatype Event =
    RequestedEvent | ApprovedEvent | RejectedEvent | DryRunEvent | ExecutedEvent | FailedEvent | BlockedEvent
    | RolledBackEvent

  datatype Entry = Entry(id: ActionId, event: Event, actor: string)

  datatype State = State(handlers: set<string>, rows: map<ActionId, Row>, trail: seq<Entry>)

  datatype Principal = Principal(name: string, tenant: Option<string>)

  /** `Broke` is an exception that is not an HTTP error; the server turns it into one. */
  datatype Reply = Done(status: Status) | Raised(code: nat) | Broke

  datatype Request = Request(actionType: string, mode: Mode, tenant: Option<string>, plan: Outcome, risk: Risk)

  function TenantOrDefault(tenant: Option<string>): string {
    if tenant == None || tenant.value == "" then "default" else tenant.value
  }

  predicate TenantOk(p: Principal, row: Row) {
    p.tenant == None || row.tenant == p.tenant.value
  }

  function Escape(o: Outcome): Reply { if o.Refuses? then Raised(o.code) else Broke }

  /** The row takes a status and the trail an entry. */
  function Moved(s: State, id: ActionId, row: Row, event: Event, actor: string): State {
    s.(rows := s.rows[id := row], trail := s.trail + [Entry(id, event, actor)])
  }

  /** The primary key refuses an id that is already there. */
  function Submit(s: State, id: ActionId, r: Request, requestedBy: string): (State, Reply) {
    if r.actionType !in s.handlers then (s, Raised(422))
    else if r.plan != Returns then (s, Escape(r.plan))
    else if id in s.rows then (s, Broke)
    else
      var row := Row(r.actionType, r.mode, r.risk, Pending, requestedBy, None, TenantOrDefault(r.tenant));
      (Moved(s, id, row, RequestedEvent, requestedBy), Done(Pending))
  }

  function Approve(s: State, id: ActionId, p: Principal): (State, Reply) {
    if id !in s.rows then (s, Raised(404))
    else
      var row := s.rows[id];
      if !TenantOk(p, row) then (s, Raised(403))
      else if row.status != Pending then (s, Raised(409))
      else if row.risk == High && p.name == row.requestedBy then (s, Raised(403))
      else
        (Moved(s, id, row.(status := Approved, approvedBy := Some(p.name)), ApprovedEvent, p.name), Done(Approved))
  }

  function Reject(s: State, id: ActionId, p: Principal): (State, Reply) {
    if id !in s.rows then (s, Raised(404))
    else
      var row := s.rows[id];
      if !TenantOk(p, row) then (s, Raised(403))
      else if row.status != Pending then (s, Raised(409))
      else
        (Moved(s, id, row.(status := Rejected, approvedBy := Some(p.name)), RejectedEvent, p.name), Done(Rejected))
  }

  function Execute(s: State, id: ActionId, p: Principal, enabled: bool, o: Outcome): (State, Reply) {
    if id !in s.rows then (s, Raised(404))
    else
      var row := s.rows[id];
      var open := row.status == Pending || row.status == Approved;
      if !TenantOk(p, row) then (s, Raised(403))
      else if row.actionType !in s.handlers then (s, Raised(422))
      else if row.mode == DryRun then
        if !open then (s, Raised(409))
        else (Moved(s, id, row.(status := Executed), DryRunEvent, p.name), Done(Executed))
      else if !enabled then (Moved(s, id, row, BlockedEvent, p.name), Raised(403))
      else if row.risk == High && row.status != Approved then
        (Moved(s, id, row, BlockedEvent, p.name), Raised(409))
      else if !open then (s, Raised(409))
      else match o
        case Refuses(code) => (s, Raised(code))
        case Crashes => (Moved(s, id, row.(status := Failed), FailedEvent, p.name), Raised(500))
        case Returns => (Moved(s, id, row.(status := Executed), ExecutedEvent, p.name), Done(Executed))
  }

  function Rollback(s: State, id: ActionId, p: Principal, o: Outcome): (State, Reply) {
    if id !in s.rows then (s, Raised(404))
    else
      var row := s.rows[id];
      if !TenantOk(p, row) then (s, Raised(403))
      else if row.status != Executed then (s, Raised(409))
      else if row.actionType !in s.handlers then (s, Raised(422))
      else if o != Returns then (s, Escape(o))
      else (Moved(s, id, row.(status := RolledBack), RolledBackEvent, p.name), Done(RolledBack))
  }

  /** The tables, and the calls that read a row, check it, update it and append. */
  class ControlPlane {
    const handlers: set<string>
    var rows: map<ActionId, Row>
    var trail: seq<Entry>

    function View(): State
      reads this
    {
      State(handlers, rows, trail)
    }

    constructor (handlers: set<string>)
      ensures View() == State(handlers, map[], [])
    {
      this.handlers := handlers;
      rows, trail := map[], [];
    }

    method Audit(id: ActionId, event: Event, actor: string)
      modifies this`trail
      ensures trail == old(trail) + [Entry(id, event, actor)]
    {
      trail := trail + [Entry(id, event, actor)];
    }

    method SubmitAction(id: ActionId, r: Request, requestedBy: string) returns (reply: Reply)
      modifies this
      ensures (View(), reply) == Submit(old(View()), id, r, requestedBy)
    {
      if r.actionType !in handlers {
        return Raised(422);
      }
      if r.plan != Returns {
        return Escape(r.plan);
      }
      if id in rows {
        return Broke;
      }
      rows := rows[id := Row(r.actionType, r.mode, r.risk, Pending, requestedBy, None, TenantOrDefault(r.tenant))];
      Audit(id, RequestedEvent, requestedBy);
      return Done(Pending);
    }

    method ApproveAction(id: ActionId, p: Principal) returns (reply: Reply)
      modifies this
      ensures (View(), reply) == Approve(old(View()), id, p)
    {
      if id !in rows {
        return Raised(404);
      }
      var row := rows[id];
      if !TenantOk(p, row) {
        return Raised(403);
      }
      if row.status != Pending {
        return Raised(409);
      }
      if row.risk == High && p.name == row.requestedBy {
        return Raised(403);
      }
      rows := rows[id := row.(status := Approved, approvedBy := Some(p.name))];
      Audit(id, ApprovedEvent, p.name);
      return Done(Approved);
    }

    method RejectAction(id: ActionId, p: Principal) returns (reply: Reply)
      modifies this
      ensures (View(), reply) == Reject(old(View()), id, p)
    {
      if id !in rows {
        return Raised(404);
      }
      var row := rows[id];
      if !TenantOk(p, row) {
        return Raised(403);
      }
      if row.status != Pending {
        return Raised(409);
      }
      rows := rows[id := row.(status := Rejected, approvedBy := Some(p.name))];
      Audit(id, RejectedEvent, p.name);
      return Done(Rejected);
    }

    method ExecuteAction(id: ActionId, p: Principal, enabled: bool, o: Outcome) returns (reply: Reply)
      modifies this
      ensures (View(), reply) == Execute(old(View()), id, p, enabled, o)
    {
      if id !in rows {
        return Raised(404);
      }
      var row := rows[id];
      if !TenantOk(p, row) {
        return Raised(403);
      }
      if row.actionType !in handlers {
        return Raised(422);
      }
      if row.mode == DryRun {
        if row.status != Pending && row.status != Approved {
          return Raised(409);
        }
        Audit(id, DryRunEvent, p.name);
        rows := rows[id := row.(status := Executed)];
        return Done(Executed);
      }
      if !enabled {
        Audit(id, BlockedEvent, p.name);
        assert rows[id := row] == rows;
        return Raised(403);
      }
      if row.risk == High {
        if row.status != Approved {
          Audit(id, BlockedEvent, p.name);
          assert rows[id := row] == rows;
          return Raised(409);
        }
      } else if row.status != Pending && row.status != Approved {
        return Raised(409);
      }
      match o
      case Refuses(code) =>
        return Raised(code);
      case Crashes =>
        rows := rows[id := row.(status := Failed)];
        Audit(id, FailedEvent, p.name);
        return Raised(500);
      case Returns =>
        rows := rows[id := row.(status := Executed)];
        Audit(id, ExecutedEvent, p.name);
        return Done(Executed);
    }

    method RollbackAction(id: ActionId, p: Principal, o: Outcome) returns (reply: Reply)
      modifies this
      ensures (View(), reply) == Rollback(old(View()), id, p, o)
    {
      if id !in rows {
        return Raised(404);
      }
      var row := rows[id];
      if !TenantOk(p, row) {
        return Raised(403);
      }
      if row.status != Executed {
        return Raised(409);
      }
      if row.actionType !in handlers {
        return Raised(422);
      }
      if o != Returns {
        return Escape(o);
      }
      rows := rows[id := row.(status := RolledBack)];
      Audit(id, RolledBackEvent, p.name);
      return Done(RolledBack);
    }
  }
}

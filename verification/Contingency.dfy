/** N-1 analysis: every in-service element is opened on a copy of the network, ties are
    closed to restore supply, and the outcome is classified. */
module Contingency {
  import opened Graph
  import opened Grid
  import opened Restoration
  import opened RestorationLaws
  import opened Results
  import opened Sums
  import opened ComplexNumbers
  import opened Reals
  import opened LoadFlow

  type Loads = map<NodeId, map<Phase, Complex>>

  datatype Classification = Unserved | Partial | Violation | Restorable | Secure

  /** What a study is given. The power flow depends on the switch positions only, the
      nodes and loads being fixed. */
  datatype Study = Study(
    loads: Loads, customers: map<NodeId, int>, loadFloor: map<NodeId, real>, flow: seq<Edge> -> FlowSummary)

  datatype Outcome = Outcome(
    element: EdgeId, lostLoadKw: real, lostGenerationKw: real, lostCustomers: int, restoredBy: seq<EdgeId>,
    unservedLoadKw: real, unservedCustomers: int, unservedNodes: set<NodeId>,
    postViolations: nat, converged: bool, classification: Classification, severity: real)

  function PhaseKw(ld: map<Phase, Complex>, p: Phase): real {
    if p in ld then ld[p].re else 0.0
  }

  /** Net real power of a node: consumption positive, generation negative. */
  function RealLoadKw(loads: Loads, n: NodeId): real {
    var ld := At(loads, n, map[]);
    PhaseKw(ld, A) + PhaseKw(ld, B) + PhaseKw(ld, C)
  }

  function LoadKw(loads: Loads, n: NodeId): real {
    Max(RealLoadKw(loads, n), 0.0)
  }

  function GenKw(loads: Loads, n: NodeId): real {
    Max(-RealLoadKw(loads, n), 0.0)
  }

  function ClassifLoad(s: Study, n: NodeId): real {
    Max(LoadKw(s.loads, n), At(s.loadFloor, n, 0.0))
  }

  function ClassifLoads(s: Study, nodes: seq<Node>): map<NodeId, real> {
    map n | n in NodeIds(nodes) :: ClassifLoad(s, n)
  }

  function GenLoads(s: Study, nodes: seq<Node>): map<NodeId, real> {
    map n | n in NodeIds(nodes) :: GenKw(s.loads, n)
  }

  predicate IsCandidate(e: Edge) {
    e.isClosed && e.kind in {Line, Transformer, Switch, Tie}
  }

  function Classify(unservedLoad: real, violations: nat, restoredBy: seq<EdgeId>): Classification {
    if unservedLoad > 0.0 then (if restoredBy == [] then Unserved else Partial)
    else if violations > 0 then Violation
    else if restoredBy != [] then Restorable else Secure
  }

  function Severity(unservedLoad: real, violations: nat, restoredBy: seq<EdgeId>, lostLoad: real): real {
    Round(unservedLoad * 1000.0 + violations as real * 100.0 + (if restoredBy != [] then lostLoad else 0.0), 100)
  }

  function Candidates(edges: seq<Edge>): (c: seq<Edge>)
    ensures forall e :: e in c <==> e in edges && IsCandidate(e)
  {
    if edges == [] then []
    else Candidates(edges[..|edges| - 1]) + if IsCandidate(edges[|edges| - 1]) then [edges[|edges| - 1]] else []
  }

  /** The nodes that lose supply when `e` opens, before any tie is closed. */
  ghost function LostBy(nodes: seq<Node>, edges: seq<Edge>, e: Edge): set<NodeId> {
    EnergizedBy(nodes, edges) - EnergizedBy(nodes, Toggle(edges, e.id, false))
  }

  ghost function RepairOf(nodes: seq<Node>, edges: seq<Edge>, e: Edge): Plan {
    Restored(nodes, Toggle(edges, e.id, false), e.id, LostBy(nodes, edges, e))
  }

  /** The nodes still dark when the repair has run. */
  ghost function DarkAfter(nodes: seq<Node>, edges: seq<Edge>, e: Edge): set<NodeId> {
    EnergizedBy(nodes, edges) - EnergizedBy(nodes, RepairOf(nodes, edges, e).edges)
  }

  ghost predicate IsOutcome(s: Study, nodes: seq<Node>, edges: seq<Edge>, e: Edge, o: Outcome) {
    var repair := RepairOf(nodes, edges, e);
    var lost, dark := LostBy(nodes, edges, e), DarkAfter(nodes, edges, e);
    && o.element == e.id
    && o.lostLoadKw == Round(TotalR(ClassifLoads(s, nodes), lost), 100)
    && o.lostGenerationKw == Round(TotalR(GenLoads(s, nodes), lost), 100)
    && o.lostCustomers == Total(s.customers, lost)
    && o.restoredBy == repair.ties
    && o.unservedLoadKw == Round(TotalR(ClassifLoads(s, nodes), dark), 100)
    && o.unservedCustomers == Total(s.customers, dark)
    && o.unservedNodes == (set n | n in dark && (ClassifLoad(s, n) > 0.0 || At(s.customers, n, 0) > 0))
    && o.postViolations == s.flow(repair.edges).violations
    && o.converged == s.flow(repair.edges).converged
    && o.classification == Classify(o.unservedLoadKw, o.postViolations, repair.ties)
    && o.severity == Severity(o.unservedLoadKw, o.postViolations, repair.ties, o.lostLoadKw)
  }

  method CopyEdges(edges: seq<Edge>) returns (cells: seq<EdgeCell>)
    ensures DistinctCells(cells) && fresh(cells)
    ensures Snapshot(cells) == edges
  {
    cells := [];
    for i := 0 to |edges|
      invariant |cells| == i && DistinctCells(cells) && fresh(cells)
      invariant forall j :: 0 <= j < i ==> cells[j].Now() == edges[j]
    {
      var c := new EdgeCell(edges[i]);
      cells := cells + [c];
    }
    SameSeq(Snapshot(cells), edges);
  }

  method OpenElement(ghost nodes: seq<Node>, cells: seq<EdgeCell>, k: nat)
    requires DistinctCells(cells) && WellFormed(nodes, Snapshot(cells)) && k < |cells|
    modifies cells
    ensures Snapshot(cells) == Toggle(old(Snapshot(cells)), old(Snapshot(cells))[k].id, false)
    ensures WellFormed(nodes, Snapshot(cells))
  {
    hide WellFormed, Toggle;
    ghost var edges := Snapshot(cells);
    cells[k].isClosed := false;
    UniqueFrom(nodes, edges);
    SwitchedOne(edges, Snapshot(cells), k, false);
    ToggleWellFormed(nodes, edges, edges[k].id, false);
  }

  /** One contingency, on a fresh copy of the edges. */
  method StudyOutage(s: Study, nodes: seq<Node>, edges: seq<Edge>, base: set<NodeId>, k: nat)
    returns (o: Outcome)
    requires WellFormed(nodes, edges) && k < |edges| && base == EnergizedBy(nodes, edges)
    ensures IsOutcome(s, nodes, edges, edges[k], o)
  {
    hide *;
    var e := edges[k];
    var cells := CopyEdges(edges);
    OpenElement(nodes, cells, k);
    var afterOut := FindEnergized(nodes, Snapshot(cells));
    var lost := base - afterOut;
    var lostLoad := TotalROver(ClassifLoads(s, nodes), lost);
    var lostGen := TotalROver(GenLoads(s, nodes), lost);
    var lostCustomers := TotalOver(s.customers, lost);
    var ties := Restore(nodes, cells, e.id, lost);
    var afterRestore := FindEnergized(nodes, Snapshot(cells));
    var dark := base - afterRestore;
    var unservedLoad := TotalROver(ClassifLoads(s, nodes), dark);
    var unservedCustomers := TotalOver(s.customers, dark);
    var flow := s.flow(Snapshot(cells));
    var unserved, lostKw := Round(unservedLoad, 100), Round(lostLoad, 100);
    o := Outcome(
      e.id, lostKw, Round(lostGen, 100), lostCustomers, ties, unserved, unservedCustomers,
      (set n | n in dark && (ClassifLoad(s, n) > 0.0 || At(s.customers, n, 0) > 0)),
      flow.violations, flow.converged, Classify(unserved, flow.violations, ties),
      Severity(unserved, flow.violations, ties, lostKw));
    OutcomeAssembled(s, nodes, edges, e, lost, dark, Plan(Snapshot(cells), {}, ties), o);
  }

  lemma OutcomeAssembled(
      s: Study, nodes: seq<Node>, edges: seq<Edge>, e: Edge, lost: set<NodeId>, dark: set<NodeId>, p: Plan, o: Outcome)
    requires lost == EnergizedBy(nodes, edges) - EnergizedBy(nodes, Toggle(edges, e.id, false))
    requires p.ties == Restored(nodes, Toggle(edges, e.id, false), e.id, lost).ties
    requires p.edges == Restored(nodes, Toggle(edges, e.id, false), e.id, lost).edges
    requires dark == EnergizedBy(nodes, edges) - EnergizedBy(nodes, p.edges)
    requires o == Outcome(
      e.id, Round(TotalR(ClassifLoads(s, nodes), lost), 100), Round(TotalR(GenLoads(s, nodes), lost), 100),
      Total(s.customers, lost), p.ties, Round(TotalR(ClassifLoads(s, nodes), dark), 100), Total(s.customers, dark),
      (set n | n in dark && (ClassifLoad(s, n) > 0.0 || At(s.customers, n, 0) > 0)),
      s.flow(p.edges).violations, s.flow(p.edges).converged,
      Classify(Round(TotalR(ClassifLoads(s, nodes), dark), 100), s.flow(p.edges).violations, p.ties),
      Severity(Round(TotalR(ClassifLoads(s, nodes), dark), 100), s.flow(p.edges).violations, p.ties,
        Round(TotalR(ClassifLoads(s, nodes), lost), 100)))
    ensures IsOutcome(s, nodes, edges, e, o)
  {
    hide Restored, Toggle, EnergizedBy, Round, TotalR, Total, Classify, Severity, ClassifLoad, ClassifLoads, GenLoads;
  }

  datatype Report = Report(outcomes: seq<Outcome>, secure: bool)

  ghost predicate IsReport(s: Study, nodes: seq<Node>, edges: seq<Edge>, r: Report) {
    && |r.outcomes| == |Candidates(edges)|
    && (forall i :: 0 <= i < |r.outcomes| ==> IsOutcome(s, nodes, edges, Candidates(edges)[i], r.outcomes[i]))
    && (r.secure <==> forall o :: o in r.outcomes ==> PassesN1(o))
  }

  predicate PassesN1(o: Outcome) {
    o.unservedLoadKw == 0.0 && o.postViolations == 0
  }

  /** The power flow of the base case raises when there is no substation. */
  method Analyze(s: Study, nodes: seq<Node>, edges: seq<Edge>) returns (r: Result<Report>)
    requires WellFormed(nodes, edges)
    ensures r.Err? <==> SourceList(nodes) == []
    ensures r.Ok? ==> IsReport(s, nodes, edges, r.value)
  {
    hide WellFormed, IsOutcome, PassesN1;
    var base := FindEnergized(nodes, edges);
    if SourceList(nodes) == [] {
      return Err("no substation/source node");
    }
    var outcomes: seq<Outcome>, secure := [], true;
    for k := 0 to |edges|
      invariant |outcomes| == |Candidates(edges[..k])|
      invariant forall i :: 0 <= i < |outcomes| ==>
        IsOutcome(s, nodes, edges, Candidates(edges[..k])[i], outcomes[i])
      invariant secure <==> forall o :: o in outcomes ==> PassesN1(o)
    {
      assert edges[..k + 1][..k] == edges[..k];
      if IsCandidate(edges[k]) {
        var o := StudyOutage(s, nodes, edges, base, k);
        outcomes := outcomes + [o];
        secure := secure && PassesN1(o);
      }
    }
    assert edges[..|edges|] == edges;
    r := Ok(Report(outcomes, secure));
  }

  /** On a radial network that supplies everyone no outage is ever classified "partial":
      either one tie brings every node back, or no tie is closed at all. */
  lemma NeverPartial(s: Study, nodes: seq<Node>, edges: seq<Edge>, e: Edge, o: Outcome)
    requires FullySupplied(nodes, edges) && e in edges && IsCandidate(e)
    requires IsOutcome(s, nodes, edges, e, o)
    ensures o.classification != Partial
    ensures o.restoredBy != [] ==>
      |o.restoredBy| == 1 && o.unservedLoadKw == 0.0 && o.unservedCustomers == 0 && o.unservedNodes == {}
    ensures o.restoredBy == [] ==>
      o.unservedLoadKw == o.lostLoadKw && o.unservedCustomers == o.lostCustomers
    ensures LostBy(nodes, edges, e) != {}
  {
    hide Reach, EnergizedBy, Restored, Toggle, WellFormed, IsRadial, IsOutcome;
    var p := RepairOf(nodes, edges, e);
    OneTieOrNone(nodes, edges, e);
    if p.ties == [] {
      UntouchedOutcome(s, nodes, edges, e, o);
    } else {
      RecoveredOutcome(s, nodes, edges, e, o);
    }
  }

  lemma OpeningKeepsRadial(nodes: seq<Node>, edges: seq<Edge>, e: Edge)
    requires WellFormed(nodes, edges) && e in edges && IsRadial(nodes, edges, EnergizedBy(nodes, edges))
    ensures WellFormed(nodes, Toggle(edges, e.id, false))
    ensures var cut := Toggle(edges, e.id, false); IsRadial(nodes, cut, EnergizedBy(nodes, cut))
  {
    hide Reach, Acyclic, ClosedLinks, WellFormed, IsRadial, Toggle;
    var cut := Toggle(edges, e.id, false);
    ToggleWellFormed(nodes, edges, e.id, false);
    UniqueFrom(nodes, edges);
    ToggleLinks(edges, e);
    RadialTestIsExact(nodes, edges);
    RadialTestIsExact(nodes, cut);
    var E, E', S := ClosedLinks(edges), ClosedLinks(cut), Sources(nodes);
    forall s, t | s in S && t in S && s != t ensures t !in Reach(E', {s}) {
      ReachIsLeast(E, {s});
      ReachMonotone(E', {s}, E, {s});
    }
    ReachIsLeast(E, S);
    ReachMonotone(E', S, E, S);
    ForestShrinks(E, S, E', S);
  }

  lemma ClosingKeepsWellFormed(nodes: seq<Node>, edges: seq<Edge>, edges': seq<Edge>, ties: seq<EdgeId>)
    requires WellFormed(nodes, edges) && OnlyCloses(edges, edges', ties)
    ensures WellFormed(nodes, edges')
  {
  }

  /** The network a study solves is radial when the base network is: whichever power flow
      of it is run reports the same, so taking the flow as a function of the switch
      positions loses nothing. */
  lemma StudiedFlowIsUnique(
      nodes: seq<Node>, edges: seq<Edge>, e: Edge, setup: Setup, f: FlowSummary, f': FlowSummary)
    requires WellFormed(nodes, edges) && SourceList(nodes) != [] && e in edges
    requires IsRadial(nodes, edges, EnergizedBy(nodes, edges))
    requires Solved(nodes, RepairOf(nodes, edges, e).edges, setup, f)
    requires Solved(nodes, RepairOf(nodes, edges, e).edges, setup, f')
    ensures f == f'
  {
    hide WellFormed, IsRadial, EnergizedBy, Toggle, Solved, Restored, LostBy, OnlyCloses, IsOpenable, Useful;
    var cut := Toggle(edges, e.id, false);
    OpeningKeepsRadial(nodes, edges, e);
    RestoreGuarantees(nodes, cut, e.id, LostBy(nodes, edges, e));
    ClosingKeepsWellFormed(nodes, cut, RepairOf(nodes, edges, e).edges, RepairOf(nodes, edges, e).ties);
    RadialSolvedOnce(nodes, RepairOf(nodes, edges, e).edges, setup, f, f');
  }

  lemma OneTieOrNone(nodes: seq<Node>, edges: seq<Edge>, e: Edge)
    requires FullySupplied(nodes, edges) && e in edges && e.isClosed
    ensures LostBy(nodes, edges, e) != {}
    ensures var p := RepairOf(nodes, edges, e);
      || (p.ties == [] && p.edges == Toggle(edges, e.id, false))
      || (|p.ties| == 1 && EnergizedBy(nodes, p.edges) == EnergizedBy(nodes, edges))
  {
    hide Reach, EnergizedBy, Restored, Toggle, WellFormed, IsRadial, Bridges, OpenableIds;
    var out := Toggle(edges, e.id, false);
    var live := EnergizedBy(nodes, out);
    var ids := OpenableIds(out, e.id);
    RestoreAfterOneOutage(nodes, edges, e);
    assert LostBy(nodes, edges, e) == NodeIds(nodes) - live;
    if exists id :: id in ids && Bridges(out, live, id) {
      var j := FirstBridging(out, live, ids);
      assert FirstBridge(out, live, ids, j);
    }
  }

  lemma RecoveredOutcome(s: Study, nodes: seq<Node>, edges: seq<Edge>, e: Edge, o: Outcome)
    requires IsOutcome(s, nodes, edges, e, o)
    requires EnergizedBy(nodes, edges) <= EnergizedBy(nodes, RepairOf(nodes, edges, e).edges)
    ensures o.restoredBy == RepairOf(nodes, edges, e).ties && o.classification != Partial
    ensures o.unservedLoadKw == 0.0 && o.unservedCustomers == 0 && o.unservedNodes == {}
  {
    hide EnergizedBy, Restored, Toggle;
    assert DarkAfter(nodes, edges, e) == {};
  }

  lemma UntouchedOutcome(s: Study, nodes: seq<Node>, edges: seq<Edge>, e: Edge, o: Outcome)
    requires IsOutcome(s, nodes, edges, e, o)
    requires RepairOf(nodes, edges, e).ties == []
    requires RepairOf(nodes, edges, e).edges == Toggle(edges, e.id, false)
    ensures o.restoredBy == [] && o.classification != Partial
    ensures o.unservedLoadKw == o.lostLoadKw && o.unservedCustomers == o.lostCustomers
  {
    hide EnergizedBy, Restored, Toggle;
    assert DarkAfter(nodes, edges, e) == LostBy(nodes, edges, e);
  }

  lemma {:induction false} FirstBridging(edges: seq<Edge>, live: set<NodeId>, ids: seq<EdgeId>) returns (j: nat)
    requires exists id :: id in ids && Bridges(edges, live, id)
    ensures j < |ids| && FirstBridge(edges, live, ids, j)
  {
    hide Bridges;
    j := 0;
    while !Bridges(edges, live, ids[j])
      invariant j < |ids| && forall i :: 0 <= i < j ==> !Bridges(edges, live, ids[i])
      invariant exists i :: j <= i < |ids| && Bridges(edges, live, ids[i])
      decreases |ids| - j
    {
      j := j + 1;
    }
  }

  lemma {:induction false} TotalNonNegative(w: map<NodeId, real>, S: set<NodeId>)
    requires forall n :: n in w ==> w[n] >= 0.0
    ensures TotalR(w, S) >= 0.0
    decreases |S|
  {
    if S != {} {
      var n :| n in S;
      TotalRSplit(w, S, n);
      TotalNonNegative(w, S - {n});
    }
  }

  lemma RoundNonNegative(x: real)
    requires x >= 0.0
    ensures Round(x, 100) >= 0.0
  {
    hide Round;
    var k := RoundIsOnGrid(x, 100);
    assert k >= 0;
  }

  /** Unserved load is never negative, so an outage passes the N-1 test exactly when it is
      classified as secure or restorable. */
  lemma PassesIffClassified(s: Study, nodes: seq<Node>, edges: seq<Edge>, e: Edge, o: Outcome)
    requires IsOutcome(s, nodes, edges, e, o)
    ensures o.unservedLoadKw >= 0.0
    ensures PassesN1(o) <==> o.classification == Secure || o.classification == Restorable
  {
    hide Round, TotalR, Total, RepairOf, DarkAfter, LostBy, GenLoads, Severity;
    TotalNonNegative(ClassifLoads(s, nodes), DarkAfter(nodes, edges, e));
    RoundNonNegative(TotalR(ClassifLoads(s, nodes), DarkAfter(nodes, edges, e)));
  }
}

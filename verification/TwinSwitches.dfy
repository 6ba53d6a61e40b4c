/** Two switches side by side, on which `recommend` trades a loss of less than a watt for an
    overloaded switch: its search reads losses and never violations. */
module TwinSwitches {
  import opened Graph
  import opened Grid
  import opened Results
  import opened RadialTree
  import opened TreeCuts
  import opened Restoration
  import opened Sums
  import opened Reals
  import opened ComplexNumbers
  import opened ComplexSums
  import opened PowerFlow
  import opened PowerBalance
  import opened Convergence
  import opened LoadFlow
  import opened Reconfiguration

  /** A substation and a load at 10 kV on one phase. */
  function TwinNodes(): seq<Node> {
    [Node(0, Substation, 10.0, 0.0, 0.0, {A}), Node(1, Load, 10.0, 0.0, 0.0, {A})]
  }

  function TwinSwitch(id: EdgeId, closed: bool, r: real): Edge {
    Edge(id, 0, 1, Switch, closed, true, true, false, r, 0.0, {A})
  }

  /** The first switch has no resistance, the second twenty micro-ohm. */
  function TwinEdges(first: bool, second: bool): seq<Edge> {
    [TwinSwitch(0, first, 0.0), TwinSwitch(1, second, 0.00002)]
  }

  /** One megawatt of load, and ampacities of 100 A and 200 A. */
  ghost predicate TwinSetup(s: Setup) {
    && GoodSetup(s) && s.loads == map[1 := map[A := Complex(1000.0, 0.0)]] && s.slack[A] == Complex(1.0, 0.0)
    && s.tol == 0.000001 && s.vMin == 0.95 && s.vMax == 1.05
    && s.ampacity == map[0 := 100.0, 1 := 200.0] && s.ratingKw == map[]
  }

  // ---- the network ---------------------------------------------------------

  lemma TwinLinks(first: bool, second: bool)
    ensures ClosedLinks(TwinEdges(first, second))
      == (if first then {Link(0, 0, 1)} else {}) + (if second then {Link(1, 0, 1)} else {})
  {
    var edges := TwinEdges(first, second);
    assert edges[0] in edges && edges[1] in edges;
    assert LinkOf(edges[0]) == Link(0, 0, 1) && LinkOf(edges[1]) == Link(1, 0, 1);
  }

  lemma TwinReach(first: bool, second: bool)
    ensures Sources(TwinNodes()) == {0}
    ensures EnergizedBy(TwinNodes(), TwinEdges(first, second)) == if first || second then {0, 1} else {0}
  {
    TwinLinks(first, second);
    assert TwinNodes()[0] in TwinNodes();
    var E := ClosedLinks(TwinEdges(first, second));
    ReachIsLeast(E, {0});
    hide Reach, ClosedLinks;
    if first { assert Link(0, 0, 1) in E; }
    if second { assert Link(1, 0, 1) in E; }
    assert Closed(E, if first || second then {0, 1} else {0});
  }

  lemma TwinSource()
    ensures SourceList(TwinNodes()) == [0]
  {
    var nodes := TwinNodes();
    assert SourceList(nodes) == [0] + SourceList(nodes[1..]);
    assert SourceList(nodes[1..]) == SourceList(nodes[1..][1..]);
  }

  lemma TwinCount(first: bool, second: bool, R: set<NodeId>)
    requires 0 in R && 1 in R
    ensures CountInside(TwinEdges(first, second), R) == (if first then 1 else 0) + if second then 1 else 0
  {
    var edges := TwinEdges(first, second);
    assert edges[1..] == [edges[1]] && edges[1..][1..] == [];
    assert CountInside(edges[1..], R) == CountInside(edges[1..][1..], R) + if second then 1 else 0;
  }

  lemma TwinWellFormed(first: bool, second: bool)
    ensures WellFormed(TwinNodes(), TwinEdges(first, second))
  {
    var nodes := TwinNodes();
    assert nodes[0] in nodes && nodes[1] in nodes;
  }

  /** Feasible means exactly one of the two closed. */
  lemma TwinFeasible(first: bool, second: bool)
    ensures Feasible(TwinNodes(), TwinEdges(first, second)) <==> first != second
  {
    var nodes := TwinNodes();
    TwinReach(first, second);
    TwinSource();
    TwinCount(first, second, {0, 1});
    hide EnergizedBy, CountInside, TwinEdges;
    assert nodes[0] in nodes && nodes[1] in nodes;
  }

  lemma TwinStates(c: State)
    requires |c| == 2
    ensures SwitchIds(TwinEdges(false, true)) == [0, 1]
    ensures Configured(TwinEdges(false, true), [0, 1], c) == TwinEdges(c[0], c[1])
  {
    var edges := TwinEdges(false, true);
    assert edges[..1] == [edges[0]] && edges[..1][..0] == [];
    assert SwitchIds(edges[..1]) == SwitchIds(edges[..1][..0]) + [0];
    var ids: seq<EdgeId> := [0, 1];
    assert ids[..1] == [0] && ids[..1][..0] == [] && c[..1] == [c[0]] && c[..1][..0] == [];
    assert Configured(edges, ids[..1], c[..1]) == Toggle(Configured(edges, ids[..1][..0], c[..1][..0]), 0, c[0]);
  }

  // ---- its power flow ------------------------------------------------------

  function Ohms(first: bool): real { if first then 0.0 else 0.00002 }

  function ClosedTwin(first: bool): Edge { TwinSwitch(if first then 0 else 1, true, Ohms(first)) }

  ghost predicate TwinTree(first: bool, net: Net) {
    && SubtreesOk(net) && net.tree.root == 0 && net.tree.Nodes() == {0, 1}
    && net.tree.parentEdge == map[1 := ClosedTwin(first)]
    && net.byId.Keys == {0, 1} && net.byId[0] == TwinNodes()[0] && net.byId[1] == TwinNodes()[1]
  }

  lemma TwinNet(first: bool, net: Net)
    requires IsNet(TwinNodes(), TwinEdges(first, !first), net)
    ensures TwinTree(first, net)
  {
    hide Reach, Below, Rooted, Chain;
    var nodes := TwinNodes();
    TwinReach(first, !first);
    TwinSource();
    assert nodes[0] in nodes && nodes[1] in nodes;
    assert 1 in net.tree.parentEdge;
    ParentLink(nodes, TwinEdges(first, !first), net, 1);
    TwinParent(first, net.tree.parentEdge[1]);
  }

  lemma TwinParent(first: bool, e: Edge)
    requires e in TwinEdges(first, !first) && LinkOf(e) in ClosedLinks(TwinEdges(first, !first))
    ensures e == ClosedTwin(first)
  {
    TwinLinks(first, !first);
  }

  lemma TwinBelow(first: bool, net: Net)
    requires TwinTree(first, net)
    ensures var id := ClosedTwin(first).id;
      id in net.subtree && net.subtree[id] == {1} && id in net.pu && net.pu[id] == Impedance(Ohms(first) / 100.0, 0.0)
  {
    var t := net.tree;
    assert Linked(t, 1);
    assert Chain(t, 0) == [0] && Chain(t, 1) == [1] + Chain(t, 0);
    assert Below(t, 1) == {1};
  }

  lemma {:induction false} OneTotal(w: map<NodeId, Complex>, n: NodeId)
    requires n in w
    ensures TotalC(w, {n}) == w[n]
  {
    TotalCSplit(w, {n}, n);
    assert {n} - {n} == {};
    TotalCEmpty(w);
  }

  lemma OneTimes(u: Complex)
    ensures Complex(1.0, 0.0).Times(u) == u
  {
  }

  lemma ThreeUnits()
    ensures SBASE_1PH_KW != 0.0 && Scaled(Complex(1000.0, 0.0), SBASE_1PH_KW) == Complex(3.0, 0.0)
  {
    assert SBASE_1PH_KW * 3.0 == 1000.0;
  }

  lemma ThreeOverOne()
    ensures Complex(1.0, 0.0) != ZERO && Complex(3.0, 0.0).Over(Complex(1.0, 0.0)).Conj() == Complex(3.0, 0.0)
  {
    hide Complex.Over, Complex.Times;
    var q := Complex(3.0, 0.0).Over(Complex(1.0, 0.0));
    OverUndone(Complex(3.0, 0.0), Complex(1.0, 0.0));
    OneTimes(q);
  }

  lemma TwinPhases(s: Setup, first: bool, net: Net)
    requires TwinTree(first, net)
    ensures var c := CaseOf(s, net);
      && c.Phases(0) == {A} && c.Phases(1) == {A} && 1 in net.tree.parentEdge && c.BranchPhases(1) == {A}
      && net.tree.parentEdge[1] == ClosedTwin(first) && net.tree.Parent(1) == 0
  {
  }

  /** The megawatt draws three times the current base at the slack voltage. */
  lemma TwinDraws(s: Setup, first: bool, net: Net, V0: Profile, i: Profile)
    requires TwinSetup(s) && TwinTree(first, net) && GoodCase(CaseOf(s, net)) && LoadsOk(CaseOf(s, net), V0, i)
    requires V0 == FlatProfile(CaseOf(s, net))
    ensures 1 in i && A in i[1] && i[1][A] == Complex(3.0, 0.0)
  {
    hide SubtreesOk, Complex.Over, Complex.Conj, Scaled;
    TwinPhases(s, first, net);
    ThreeUnits();
    ThreeOverOne();
    assert V0[1] == map[A := Complex(1.0, 0.0)];
  }

  lemma TwinBranch(s: Setup, first: bool, net: Net, i: Profile, J: map<EdgeId, PhaseMap>)
    requires TwinSetup(s) && TwinTree(first, net) && GoodCase(CaseOf(s, net)) && 1 in net.tree.parentEdge
    requires BranchOk(CaseOf(s, net), i, J, 1) && 1 in i && A in i[1] && i[1][A] == Complex(3.0, 0.0)
    ensures ClosedTwin(first).id in J && J[ClosedTwin(first).id] == map[A := Complex(3.0, 0.0)]
  {
    hide SubtreesOk, GoodCase, TotalC;
    TwinPhases(s, first, net);
    TwinBelow(first, net);
    OneTotal(Slice(i, A), 1);
  }

  function TwinVolts(first: bool): Complex { Complex(1.0 - 3.0 * (Ohms(first) / 100.0), 0.0) }

  lemma TwinVoltage(s: Setup, first: bool, net: Net, J: map<EdgeId, PhaseMap>, V: Profile)
    requires TwinSetup(s) && TwinTree(first, net) && GoodCase(CaseOf(s, net)) && 1 in net.tree.parentEdge
    requires ClosedTwin(first).id in J && J[ClosedTwin(first).id] == map[A := Complex(3.0, 0.0)]
    requires VoltageOk(CaseOf(s, net), J, V, 1) && 0 in V && V[0] == map[A := Complex(1.0, 0.0)]
    ensures V[1] == map[A := TwinVolts(first)]
  {
    hide SubtreesOk, GoodCase, Complex.Times, Complex.Minus, TwinVolts;
    TwinPhases(s, first, net);
    TwinBelow(first, net);
    DropsBy(first);
  }

  lemma DropsBy(first: bool)
    ensures Complex(1.0, 0.0).Minus(Complex(Ohms(first) / 100.0, 0.0).Times(Complex(3.0, 0.0))) == TwinVolts(first)
  {
  }

  lemma TwinSweep(
      s: Setup, first: bool, net: Net, V0: Profile, i: Profile, J: map<EdgeId, PhaseMap>, V: Profile)
    requires TwinSetup(s) && TwinTree(first, net) && GoodCase(CaseOf(s, net))
    requires V0 == FlatProfile(CaseOf(s, net)) && IsSweep(CaseOf(s, net), V0, i, J, V)
    ensures ClosedTwin(first).id in J && J[ClosedTwin(first).id] == map[A := Complex(3.0, 0.0)]
    ensures V == map[0 := map[A := Complex(1.0, 0.0)], 1 := map[A := TwinVolts(first)]]
  {
    hide SubtreesOk, GoodCase, LoadsOk, BranchOk, VoltageOk, IsSweep;
    var c := CaseOf(s, net);
    TwinPhases(s, first, net);
    SweepAtRoot(c, V0, i, J, V);
    RootKept(c, V0, i, J, V);
    SweepAt(c, V0, i, J, V, 1);
    TwinDraws(s, first, net, V0, i);
    TwinBranch(s, first, net, i, J);
    assert V0[0] == map[A := Complex(1.0, 0.0)];
    TwinVoltage(s, first, net, J, V);
  }

  lemma RealModulus(s: Setup, x: real)
    requires GoodSetup(s)
    ensures s.modulus(Complex(x, 0.0)) == Abs(x)
  {
    assert Complex(x, 0.0).Norm2() == Sq(x);
    assert Sq(Abs(x)) == Sq(x);
    SqInjective(s.modulus(Complex(x, 0.0)), Abs(x));
  }

  /** The first sweep moves no voltage by a millionth. */
  lemma TwinSettles(s: Setup, first: bool, net: Net, V0: Profile, V: Profile)
    requires TwinSetup(s) && TwinTree(first, net) && GoodCase(CaseOf(s, net)) && V0 == FlatProfile(CaseOf(s, net))
    requires V == map[0 := map[A := Complex(1.0, 0.0)], 1 := map[A := TwinVolts(first)]]
    ensures Settled(CaseOf(s, net), V0, V, s.tol)
  {
    hide SubtreesOk, GoodCase;
    var c := CaseOf(s, net);
    TwinPhases(s, first, net);
    assert V0[1] == map[A := Complex(1.0, 0.0)];
    assert TwinVolts(first).Minus(Complex(1.0, 0.0)) == Complex(-3.0 * (Ohms(first) / 100.0), 0.0);
    RealModulus(s, -3.0 * (Ohms(first) / 100.0));
  }

  // ---- what is reported ----------------------------------------------------

  lemma RootOfThree(s: real)
    requires s > 0.0 && Sq(s) == 3.0
    ensures 1.7 < s < 1.8
  {
    assert Product(1.7 - s, 1.7 + s) == 2.89 - Sq(s) && Product(s - 1.8, s + 1.8) == Sq(s) - 3.24;
    if s <= 1.7 { ProductNonNegative(1.7 - s, 1.7 + s); }
    if s >= 1.8 { ProductNonNegative(s - 1.8, s + 1.8); }
  }

  lemma TwinLoss(s: Setup, first: bool, net: Net, J: map<EdgeId, PhaseMap>)
    requires TwinSetup(s) && TwinTree(first, net) && Accounted(CaseOf(s, net), J)
    requires ClosedTwin(first).id in J && J[ClosedTwin(first).id] == map[A := Complex(3.0, 0.0)]
    ensures TotalR(BranchLosses(CaseOf(s, net), J), {1}) == 30.0 * Ohms(first)
  {
    hide SubtreesOk, OhmicLoss;
    var c := CaseOf(s, net);
    var w := BranchLosses(c, J);
    TwinPhases(s, first, net);
    RealModulus(s, 3.0);
    OhmicLossPerUnit(3.0, s.sqrt3, 10.0, Ohms(first));
    TotalRSplit(w, {1}, 1);
    assert {1} - {1} == {};
    EmptyTotal(w);
  }

  lemma TwinLossRounded(first: bool)
    ensures Round(30.0 * Ohms(first), 1000) == if first then 0.0 else 0.001
  {
    assert 30.0 * Ohms(first) * 1000.0 == if first then 0.0 else 0.6;
  }

  lemma InBand(s: Setup, x: real)
    requires TwinSetup(s) && 0.95 <= x <= 1.05
    ensures VoltageFlags(s, map[A := Complex(x, 0.0)]) == 0
  {
    RealModulus(s, x);
    hide GoodSetup;
  }

  lemma TwinInBand(s: Setup, first: bool)
    requires TwinSetup(s)
    ensures VoltageFlags(s, map[A := Complex(1.0, 0.0)]) == 0 && VoltageFlags(s, map[A := TwinVolts(first)]) == 0
  {
    hide VoltageFlags, TwinSetup;
    InBand(s, 1.0);
    InBand(s, 1.0 - 3.0 * (Ohms(first) / 100.0));
  }

  /** Three times the current base at 10 kV is 300 A over the root of three. */
  lemma TwinAmps(s: Setup, first: bool, net: Net)
    requires TwinSetup(s) && TwinTree(first, net)
    ensures 1 in net.tree.parentEdge && 1 in net.byId && s.sqrt3 > 0.0
    ensures MaxAmps(CaseOf(s, net), map[A := Complex(3.0, 0.0)], 1) == 300.0 / s.sqrt3
  {
    hide SubtreesOk;
    TwinPhases(s, first, net);
    RealModulus(s, 3.0);
    var k := s.sqrt3;
    NoZeroProduct(k, 10.0);
    assert 3000.0 / Product(k, 10.0) == 300.0 / k;
  }

  lemma TwinOverload(s: Setup, first: bool, net: Net, v: PhaseMap)
    requires TwinSetup(s) && TwinTree(first, net)
    ensures 1 in net.tree.parentEdge && 1 in net.byId && s.sqrt3 > 0.0 && forall p: Phase :: p in s.slack
    ensures Overloaded(s, CaseOf(s, net), map[A := Complex(3.0, 0.0)], v, 1) <==> first
  {
    hide SubtreesOk, MaxAmps, Round, Kva;
    TwinAmps(s, first, net);
    RootOfThree(s.sqrt3);
    var x := 300.0 / s.sqrt3;
    assert x * s.sqrt3 == 300.0;
    var load := if first then 100.0 * x / 100.0 else 100.0 * x / 200.0;
    var k := RoundIsOnGrid(load, 10);
  }

  lemma TwinVoltageCount(s: Setup, first: bool, V: Profile)
    requires TwinSetup(s)
    requires V == map[0 := map[A := Complex(1.0, 0.0)], 1 := map[A := TwinVolts(first)]]
    ensures Total(VoltageCounts(s, V), V.Keys) == 0
  {
    hide VoltageFlags, TwinSetup, TwinVolts, Total;
    TwinInBand(s, first);
    TwoTotal(VoltageCounts(s, V), 0, 1);
    assert V.Keys == {0, 1};
  }

  lemma TwinThermalCount(s: Setup, first: bool, net: Net, J: map<EdgeId, PhaseMap>, V: Profile)
    requires TwinSetup(s) && TwinTree(first, net) && Reportable(CaseOf(s, net), J, V)
    requires ClosedTwin(first).id in J && J[ClosedTwin(first).id] == map[A := Complex(3.0, 0.0)]
    ensures Total(ThermalCounts(s, CaseOf(s, net), J, V), net.tree.parentEdge.Keys) == if first then 1 else 0
  {
    hide SubtreesOk, Overloaded, TwinSetup, Total;
    TwinPhases(s, first, net);
    TwinOverload(s, first, net, V[1]);
    OneCount(ThermalCounts(s, CaseOf(s, net), J, V), 1);
    assert net.tree.parentEdge.Keys == {1};
  }

  lemma TwinViolations(s: Setup, first: bool, net: Net, J: map<EdgeId, PhaseMap>, V: Profile)
    requires TwinSetup(s) && TwinTree(first, net) && Reportable(CaseOf(s, net), J, V)
    requires ClosedTwin(first).id in J && J[ClosedTwin(first).id] == map[A := Complex(3.0, 0.0)]
    requires V == map[0 := map[A := Complex(1.0, 0.0)], 1 := map[A := TwinVolts(first)]]
    ensures ViolationTotal(s, CaseOf(s, net), J, V) == if first then 1 else 0
  {
    hide TwinTree, TwinSetup, VoltageCounts, ThermalCounts, Total, Reportable, ClosedTwin, TwinVolts;
    TwinVoltageCount(s, first, V);
    TwinThermalCount(s, first, net, J, V);
  }

  lemma OneCount(w: map<NodeId, int>, n: NodeId)
    requires n in w
    ensures Total(w, {n}) == w[n]
  {
    TotalSplit(w, {n}, n);
    assert {n} - {n} == {};
    NoTotal(w);
  }

  lemma TwoTotal(w: map<NodeId, int>, m: NodeId, n: NodeId)
    requires m in w && n in w && m != n
    ensures Total(w, {m, n}) == w[m] + w[n]
  {
    TotalSplit(w, {m, n}, m);
    assert {m, n} - {m} == {n};
    OneCount(w, n);
  }

  /** What any solve of the network with one switch closed reports. */
  lemma TwinSolved(s: Setup, first: bool, f: FlowSummary)
    requires TwinSetup(s) && Solved(TwinNodes(), TwinEdges(first, !first), s, f)
    ensures f == if first then FlowSummary(true, 1, 0.0) else FlowSummary(true, 0, 0.001)
  {
    hide IsNet, IsRun, IsSweep, Reportable, BranchLosses, ViolationTotal, SettledAt, Round, TotalR, TwinSetup, CaseOf,
      TwinTree, GoodCase, SubtreesOk;
    var net, chain, i, J :| SolvedBy(TwinNodes(), TwinEdges(first, !first), s, f, net, chain, i, J);
    TwinNet(first, net);
    TwinEnds(s, first, net, chain);
    ReportAccounts(CaseOf(s, net), J, chain[1]);
    TwinParts(s, first, net);
    TwinSweep(s, first, net, chain[0], i, J, chain[1]);
    TwinLoss(s, first, net, J);
    TwinLossRounded(first);
    TwinViolations(s, first, net, J, chain[1]);
  }

  lemma TwinParts(s: Setup, first: bool, net: Net)
    requires TwinSetup(s) && TwinTree(first, net)
    ensures GoodCase(CaseOf(s, net)) && CaseOf(s, net).net.tree.parentEdge.Keys == {1}
  {
    hide SubtreesOk;
  }

  /** The run is one sweep long. */
  lemma TwinEnds(s: Setup, first: bool, net: Net, chain: seq<Profile>)
    requires TwinSetup(s) && TwinTree(first, net) && IsRun(CaseOf(s, net), chain, s.tol) && |chain| > 1
    ensures forall p: Phase :: p in CaseOf(s, net).slack
    ensures |chain| == 2 && chain[0] == FlatProfile(CaseOf(s, net)) && SettledAt(CaseOf(s, net), chain, 1, s.tol)
  {
    hide TwinSetup, TwinTree, GoodCase, IsSweep, Settled, CaseOf, FlatProfile, SubtreesOk;
    var c := CaseOf(s, net);
    TwinParts(s, first, net);
    assert SweptAt(c, chain, 1);
    var i, J :| IsSweep(c, chain[0], i, J, chain[1]);
    TwinSweep(s, first, net, chain[0], i, J, chain[1]);
    TwinSettles(s, first, net, chain[0], chain[1]);
    assert SettledAt(c, chain, 1, s.tol);
  }

  // ---- the recommendation --------------------------------------------------

  lemma TwinEvaluated(s: Setup, c: State)
    requires TwinSetup(s) && |c| == 2
    requires exists f :: Solved(TwinNodes(), TwinEdges(true, false), s, f)
    requires exists f :: Solved(TwinNodes(), TwinEdges(false, true), s, f)
    ensures Evaluation(TwinNodes(), s, TwinEdges(c[0], c[1]))
      == if c[0] == c[1] then None else if c[0] then Some(Metrics(0.0, 1)) else Some(Metrics(0.001, 0))
  {
    hide TwinSetup, TwinEdges, TwinNodes, Solved, Feasible, WellFormed, Evaluation;
    TwinFeasible(c[0], c[1]);
    TwinWellFormed(c[0], c[1]);
    if c[0] == c[1] {
      NotEvaluated(TwinNodes(), s, TwinEdges(c[0], c[1]));
    } else {
      var f :| Solved(TwinNodes(), TwinEdges(c[0], !c[0]), s, f);
      TwinSolved(s, c[0], f);
      EvaluationIs(TwinNodes(), s, TwinEdges(c[0], c[1]), f);
    }
  }

  /** The network stands with the second switch closed and no violation. To save 0.6 W,
      which it reports as one, the recommendation is the first switch at 173 A of its 100 A. */
  method ViolationIsRecommended(s: Setup) returns (r: Recommendation)
    requires TwinSetup(s)
    ensures r.current == Some(Metrics(0.001, 0))
    ensures r.best.Some? && r.best.value.metrics == Metrics(0.0, 1)
    ensures r.plan == [(0, true), (1, false)]
  {
    hide TwinSetup, TwinEdges, TwinNodes, Solved, Feasible, WellFormed, Evaluation, LexBest, PlanFor, SwitchIds,
      States, PresentState, GoodSetup, FeasibleCount, Configured;
    TwinWellFormed(true, false);
    TwinWellFormed(false, true);
    TwinSource();
    TwinIsGood(s);
    var a := Solve(TwinNodes(), TwinEdges(true, false), s);
    var b := Solve(TwinNodes(), TwinEdges(false, true), s);
    r := Recommend(TwinNodes(), s, TwinEdges(false, true));
    assert Solved(TwinNodes(), TwinEdges(true, false), s, a.value);
    assert Solved(TwinNodes(), TwinEdges(false, true), s, b.value);
    TwinEvaluated(s, [false, true]);
    TwinStates([true, false]);
    TwinRecommended(s, r.best);
    TwinPlan();
  }

  lemma TwinIsGood(s: Setup)
    requires TwinSetup(s)
    ensures GoodSetup(s)
  {
  }

  lemma TwinEvalAt(s: Setup, c: State)
    requires TwinSetup(s) && |c| == 2
    requires exists f :: Solved(TwinNodes(), TwinEdges(true, false), s, f)
    requires exists f :: Solved(TwinNodes(), TwinEdges(false, true), s, f)
    ensures EvalAt(TwinNodes(), s, TwinEdges(false, true), [0, 1], c)
      == if c[0] == c[1] then None else if c[0] then Some(Metrics(0.0, 1)) else Some(Metrics(0.001, 0))
  {
    hide *;
    TwinStates(c);
    EvalAtMeans(TwinNodes(), s, TwinEdges(false, true), [0, 1], c);
    TwinEvaluated(s, c);
  }

  lemma TwinRecommended(s: Setup, best: Option<Best>)
    requires TwinSetup(s) && LexBest(TwinNodes(), s, TwinEdges(false, true), [0, 1], States(2), best)
    requires exists f :: Solved(TwinNodes(), TwinEdges(true, false), s, f)
    requires exists f :: Solved(TwinNodes(), TwinEdges(false, true), s, f)
    ensures best.Some? && best.value.metrics == Metrics(0.0, 1) && best.value.state == [true, false]
  {
    hide TwinSetup, TwinEdges, TwinNodes, Solved, LexBest, States, PresentState, Changes, EvalAt;
    StateIsListed(2, [true, false]);
    TwinEvalAt(s, [true, false]);
    LexBestCovers(TwinNodes(), s, TwinEdges(false, true), [0, 1], States(2), best, [true, false]);
    LexBestEvaluates(TwinNodes(), s, TwinEdges(false, true), [0, 1], States(2), best.value);
    TwinEvalAt(s, best.value.state);
  }

  lemma TwinPlan()
    ensures PlanFor([0, 1], [true, false], PresentState(TwinEdges(false, true), [0, 1])) == [(0, true), (1, false)]
  {
    TwinPresent();
    hide TwinEdges, PresentState;
    PlanOfTwo([0, 1], [true, false], [false, true]);
  }

  lemma PlanOfTwo(ids: seq<EdgeId>, want: State, have: State)
    requires |ids| == |want| == |have| == 2 && want[0] != have[0] && want[1] != have[1]
    ensures PlanFor(ids, want, have) == [(ids[0], want[0]), (ids[1], want[1])]
  {
    assert PlanFor(ids[..1][..0], want[..1][..0], have[..1][..0]) == [];
    assert PlanFor(ids[..1], want[..1], have[..1]) == [(ids[0], want[0])];
  }

  lemma TwinPresent()
    ensures PresentState(TwinEdges(false, true), [0, 1]) == [false, true]
  {
    var edges := TwinEdges(false, true);
    assert edges[0] in edges && edges[1] in edges;
    var p := PresentState(edges, [0, 1]);
    assert p[0] == ClosedIn(edges, 0) && p[1] == ClosedIn(edges, 1);
  }
}

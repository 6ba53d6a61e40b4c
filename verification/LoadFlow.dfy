/** The power flow of a network from its switch positions to what is reported of it, and
    why on a radial network nothing but the positions decides. */
module LoadFlow {
  import opened Graph
  import opened Grid
  import opened Results
  import opened RadialTree
  import opened TreeCuts
  import opened Sums
  import opened Reals
  import opened ComplexNumbers
  import opened ComplexSums
  import opened PowerFlow
  import opened PowerBalance
  import opened Convergence
  import opened Sequences

  /** Everything a solve is given besides the network. An absent or zero ampacity or
      rating is no limit. */
  datatype Setup = Setup(
    loads: map<NodeId, PhaseMap>, slack: PhaseMap, modulus: Complex -> real, sqrt3: real,
    tol: real, maxIter: nat, vMin: real, vMax: real, ampacity: map<EdgeId, real>, ratingKw: map<EdgeId, real>)

  ghost predicate GoodSetup(s: Setup) {
    && (forall p: Phase :: p in s.slack && s.slack[p] != ZERO)
    && (forall z: Complex :: s.modulus(z) >= 0.0 && Sq(s.modulus(z)) == z.Norm2())
    && s.sqrt3 > 0.0 && Sq(s.sqrt3) == 3.0 && s.maxIter >= 1
  }

  function CaseOf(s: Setup, net: Net): Case {
    Case(net, s.loads, s.slack, s.modulus, s.sqrt3)
  }

  lemma CaseIsGood(s: Setup, net: Net)
    requires GoodSetup(s) && SubtreesOk(net)
    ensures GoodCase(CaseOf(s, net)) && CaseOf(s, net).net == net && s.maxIter >= 1
  {
    hide SubtreesOk;
  }

  // ---- limits --------------------------------------------------------------

  predicate OutOfBand(s: Setup, v: PhaseMap, p: Phase) {
    p in v && (s.modulus(v[p]) < s.vMin || s.modulus(v[p]) > s.vMax)
  }

  function One(b: bool): int { if b then 1 else 0 }

  /** The phases of a node whose voltage leaves the band. */
  function VoltageFlags(s: Setup, v: PhaseMap): int {
    One(OutOfBand(s, v, A)) + One(OutOfBand(s, v, B)) + One(OutOfBand(s, v, C))
  }

  function Amps(c: Case, J: PhaseMap, n: NodeId, p: Phase): real
    requires n in c.net.tree.parentEdge && n in c.net.byId && c.sqrt3 != 0.0
  {
    NoZeroProduct(c.sqrt3, BaseKv(c.net.byId[n]));
    if p in c.BranchPhases(n) then
      c.modulus(PhaseOr(J, p, ZERO)) * SBASE_KW / Product(c.sqrt3, BaseKv(c.net.byId[n]))
    else 0.0
  }

  function MaxAmps(c: Case, J: PhaseMap, n: NodeId): real
    requires n in c.net.tree.parentEdge && n in c.net.byId && c.sqrt3 != 0.0
  {
    Max(0.0, Max(Amps(c, J, n, A), Max(Amps(c, J, n, B), Amps(c, J, n, C))))
  }

  function PhaseKva(c: Case, J: PhaseMap, v: PhaseMap, n: NodeId, p: Phase): real
    requires n in c.net.tree.parentEdge && p in c.slack
  {
    if p in c.BranchPhases(n) then
      c.modulus(PhaseOr(v, p, c.slack[p]).Times(PhaseOr(J, p, ZERO).Conj())) * SBASE_1PH_KW
    else 0.0
  }

  function Kva(c: Case, J: PhaseMap, v: PhaseMap, n: NodeId): real
    requires n in c.net.tree.parentEdge && forall p: Phase :: p in c.slack
  {
    PhaseKva(c, J, v, n, A) + PhaseKva(c, J, v, n, B) + PhaseKva(c, J, v, n, C)
  }

  /** The loading of a branch in percent, to one place: apparent power against the rating
      of a transformer that has one, else the largest phase current against the ampacity. */
  function Loading(s: Setup, c: Case, J: PhaseMap, v: PhaseMap, n: NodeId): Option<real>
    requires n in c.net.tree.parentEdge && n in c.net.byId && c.sqrt3 != 0.0 && forall p: Phase :: p in c.slack
  {
    var e := c.net.tree.parentEdge[n];
    var rating := if e.id in s.ratingKw then s.ratingKw[e.id] else 0.0;
    var ampacity := if e.id in s.ampacity then s.ampacity[e.id] else 0.0;
    if e.kind == Transformer && rating != 0.0 then Some(Round(100.0 * Kva(c, J, v, n) / rating, 10))
    else if ampacity != 0.0 then Some(Round(100.0 * MaxAmps(c, J, n) / ampacity, 10))
    else None
  }

  predicate Overloaded(s: Setup, c: Case, J: PhaseMap, v: PhaseMap, n: NodeId)
    requires n in c.net.tree.parentEdge && n in c.net.byId && c.sqrt3 != 0.0 && forall p: Phase :: p in c.slack
  {
    var loading := Loading(s, c, J, v, n);
    loading.Some? && loading.value > 100.0
  }

  ghost predicate Reportable(c: Case, J: map<EdgeId, PhaseMap>, V: Profile) {
    Accounted(c, J) && c.net.tree.parentEdge.Keys <= V.Keys && forall p: Phase :: p in c.slack
  }

  ghost function VoltageCounts(s: Setup, V: Profile): map<NodeId, int> {
    map n | n in V :: VoltageFlags(s, V[n])
  }

  ghost function ThermalCounts(s: Setup, c: Case, J: map<EdgeId, PhaseMap>, V: Profile): map<NodeId, int>
    requires Reportable(c, J, V)
  {
    map n | n in c.net.tree.parentEdge :: One(Overloaded(s, c, J[c.net.tree.parentEdge[n].id], V[n], n))
  }

  /** Voltages out of band over all nodes and phases, and overloaded branches. */
  ghost function ViolationTotal(s: Setup, c: Case, J: map<EdgeId, PhaseMap>, V: Profile): nat
    requires Reportable(c, J, V)
  {
    CountsAddUp(VoltageCounts(s, V), V.Keys);
    CountsAddUp(ThermalCounts(s, c, J, V), c.net.tree.parentEdge.Keys);
    Total(VoltageCounts(s, V), V.Keys) + Total(ThermalCounts(s, c, J, V), c.net.tree.parentEdge.Keys)
  }

  method CountVoltages(s: Setup, V: Profile) returns (count: int)
    ensures count == Total(VoltageCounts(s, V), V.Keys)
  {
    hide VoltageFlags, Total;
    count := 0;
    var todo := V.Keys;
    ghost var w := VoltageCounts(s, V);
    assert V.Keys - todo == {};
    NoTotal(w);
    while todo != {}
      invariant todo <= V.Keys && count == Total(w, V.Keys - todo)
      decreases todo
    {
      var n :| n in todo;
      TotalSplit(w, V.Keys - (todo - {n}), n);
      assert V.Keys - (todo - {n}) - {n} == V.Keys - todo;
      count := count + VoltageFlags(s, V[n]);
      todo := todo - {n};
    }
    assert V.Keys - {} == V.Keys;
  }

  lemma {:induction false} CountsAddUp(w: map<NodeId, int>, S: set<NodeId>)
    requires forall n :: n in w ==> w[n] >= 0
    ensures Total(w, S) >= 0
    decreases |S|
  {
    if S != {} {
      var x :| x in S;
      TotalSplit(w, S, x);
      CountsAddUp(w, S - {x});
    }
  }

  lemma NoTotal(w: map<NodeId, int>)
    ensures Total(w, {}) == 0
  {
  }

  method CountOverloads(s: Setup, c: Case, J: map<EdgeId, PhaseMap>, V: Profile) returns (count: int)
    requires Reportable(c, J, V) && Distinct(c.net.tree.order)
    requires Elems(c.net.tree.order) == c.net.tree.Nodes()
    requires c.net.tree.parentEdge.Keys == c.net.tree.Nodes() - {c.net.tree.root}
    ensures count == Total(ThermalCounts(s, c, J, V), c.net.tree.parentEdge.Keys)
  {
    hide Overloaded, Total;
    var order := c.net.tree.order;
    ghost var w := ThermalCounts(s, c, J, V);
    count := 0;
    assert Elems(order[..0]) - {c.net.tree.root} == {};
    NoTotal(w);
    for k := 0 to |order|
      invariant count == Total(w, Elems(order[..k]) - {c.net.tree.root})
    {
      var n := order[k];
      PrefixGrows(order, k);
      assert n in Elems(order);
      ghost var S, S' := Elems(order[..k]) - {c.net.tree.root}, Elems(order[..k + 1]) - {c.net.tree.root};
      if n != c.net.tree.root {
        if Overloaded(s, c, J[c.net.tree.parentEdge[n].id], V[n], n) {
          count := count + 1;
        }
        assert n !in Elems(order[..k]);
        assert S' - {n} == S;
        TotalSplit(w, S', n);
      } else {
        assert S' == S;
      }
    }
    assert order[..|order|] == order;
  }

  // ---- one solve -----------------------------------------------------------

  /** What the analyses use of a power flow. */
  datatype FlowSummary = FlowSummary(converged: bool, violations: nat, lossKw: real)

  /** The run behind a summary: a tree of the network, sweeps from the flat start until
      one settles or the budget is spent, and the figures of the last one. */
  ghost predicate SolvedBy(
    nodes: seq<Node>, edges: seq<Edge>, s: Setup, f: FlowSummary, net: Net, chain: seq<Profile>, i: Profile,
    J: map<EdgeId, PhaseMap>)
  {
    var c := CaseOf(s, net);
    var k := |chain| - 1;
    && IsNet(nodes, edges, net) && 1 <= k <= s.maxIter && IsRun(c, chain, s.tol)
    && IsSweep(c, chain[k - 1], i, J, chain[k]) && Reportable(c, J, chain[k])
    && (f.converged <==> SettledAt(c, chain, k, s.tol)) && (!f.converged ==> k == s.maxIter)
    && f.lossKw == Round(TotalR(BranchLosses(c, J), c.net.tree.parentEdge.Keys), 1000)
    && f.violations == ViolationTotal(s, c, J, chain[k])
  }

  ghost predicate Solved(nodes: seq<Node>, edges: seq<Edge>, s: Setup, f: FlowSummary) {
    exists net, chain, i, J :: SolvedBy(nodes, edges, s, f, net, chain, i, J)
  }

  lemma NetIsReady(nodes: seq<Node>, edges: seq<Edge>, net: Net)
    requires IsNet(nodes, edges, net)
    ensures SubtreesOk(net) && Rooted(edges, net.tree.root, net.tree.order, net.tree.parentEdge)
    ensures Elems(net.tree.order) == net.tree.Nodes() && Distinct(net.tree.order)
    ensures net.tree.parentEdge.Keys == net.tree.Nodes() - {net.tree.root}
  {
    hide Reach, ParentOk, Below;
  }

  lemma SweepIsReportable(c: Case, V0: Profile, i: Profile, J: map<EdgeId, PhaseMap>, V: Profile)
    requires IsSweep(c, V0, i, J, V) && Accounted(c, J)
    ensures Reportable(c, J, V)
  {
    hide Below, LoadsOk, BranchOk, VoltageOk, Accounted;
  }

  lemma ViolationsAre(s: Setup, c: Case, J: map<EdgeId, PhaseMap>, V: Profile, voltages: int, overloads: int)
    requires Reportable(c, J, V) && voltages == Total(VoltageCounts(s, V), V.Keys)
    requires overloads == Total(ThermalCounts(s, c, J, V), c.net.tree.parentEdge.Keys)
    ensures voltages + overloads == ViolationTotal(s, c, J, V)
  {
    hide Total, VoltageCounts, ThermalCounts;
  }

  lemma SolvedFrom(
      nodes: seq<Node>, edges: seq<Edge>, s: Setup, net: Net, r: FlowResult, chain: seq<Profile>, violations: nat)
    requires IsNet(nodes, edges, net) && 1 <= r.iterations <= s.maxIter && |chain| == r.iterations + 1
    requires IsRun(CaseOf(s, net), chain, s.tol) && chain[r.iterations] == r.V
    requires IsSweep(CaseOf(s, net), chain[r.iterations - 1], r.iLoad, r.J, r.V)
    requires Accounted(CaseOf(s, net), r.J)
    requires r.lossKw == TotalR(BranchLosses(CaseOf(s, net), r.J), CaseOf(s, net).net.tree.parentEdge.Keys)
    requires r.totalLossKw == Round(r.lossKw, 1000)
    requires r.converged <==> SettledAt(CaseOf(s, net), chain, r.iterations, s.tol)
    requires !r.converged ==> r.iterations == s.maxIter
    requires Reportable(CaseOf(s, net), r.J, r.V) && violations == ViolationTotal(s, CaseOf(s, net), r.J, r.V)
    ensures Solved(nodes, edges, s, FlowSummary(r.converged, violations, r.totalLossKw))
  {
    hide IsNet, IsRun, IsSweep, Accounted, Reportable, BranchLosses, TotalR, SettledAt, ViolationTotal, Round, CaseOf;
    assert SolvedBy(nodes, edges, s, FlowSummary(r.converged, violations, r.totalLossKw), net, chain, r.iLoad, r.J);
  }

  /** `solve`: the tree, the sweeps and the count of violations. */
  method Solve(nodes: seq<Node>, edges: seq<Edge>, s: Setup) returns (r: Result<FlowSummary>)
    requires WellFormed(nodes, edges) && GoodSetup(s)
    ensures r.Err? <==> SourceList(nodes) == []
    ensures r.Ok? ==> Solved(nodes, edges, s, r.value)
  {
    hide *;
    var built := BuildRadial(nodes, edges);
    if built.Err? {
      return Err(built.message);
    }
    var net := built.value;
    NetIsReady(nodes, edges, net);
    CaseIsGood(s, net);
    var c := CaseOf(s, net);
    var flow, chain := SolveFlow(c, edges, s.tol, s.maxIter);
    SweepIsReportable(c, chain[flow.iterations - 1], flow.iLoad, flow.J, flow.V);
    var voltages := CountVoltages(s, flow.V);
    var overloads := CountOverloads(s, c, flow.J, flow.V);
    ViolationsAre(s, c, flow.J, flow.V, voltages, overloads);
    SolvedFrom(nodes, edges, s, net, flow, chain, voltages + overloads);
    r := Ok(FlowSummary(flow.converged, voltages + overloads, flow.totalLossKw));
  }

  // ---- the order of the tree does not matter -------------------------------

  /** The same case over the same tree, grown in another order. */
  ghost predicate Alike(c: Case, d: Case) {
    && c == d.(net := c.net) && c.net == d.net.(tree := c.net.tree)
    && c.net.tree == d.net.tree.(order := c.net.tree.order)
  }

  lemma {:induction false} SameChain(t: Tree, u: Tree, n: NodeId)
    requires IsTree(t) && t == u.(order := t.order) && n in t.pathEdges
    ensures IsTree(u) && Chain(t, n) == Chain(u, n)
    decreases |t.pathEdges[n]|
  {
    SameTree(t, u);
    if n != t.root {
      assert Linked(t, n) && Linked(u, n);
      SameChain(t, u, t.Parent(n));
    }
  }

  lemma SameTree(t: Tree, u: Tree)
    requires IsTree(t) && t == u.(order := t.order)
    ensures IsTree(u)
  {
    assert forall n :: n in t.parentEdge ==> Linked(t, n) && Linked(u, n);
  }

  lemma SameBelow(t: Tree, u: Tree, n: NodeId)
    requires IsTree(t) && IsTree(u) && t == u.(order := t.order)
    ensures Below(t, n) == Below(u, n)
  {
    hide IsTree, Chain;
    forall k | k in t.pathEdges ensures n in Chain(t, k) <==> n in Chain(u, k) {
      SameChain(t, u, k);
    }
  }

  lemma SameNet(a: Net, b: Net)
    requires SubtreesOk(a) && a == b.(tree := a.tree) && a.tree == b.tree.(order := a.tree.order)
    ensures SubtreesOk(b)
  {
    hide Below, PerUnit, IsTree;
    SameTree(a.tree, b.tree);
    forall n ensures Below(a.tree, n) == Below(b.tree, n) {
      SameBelow(a.tree, b.tree, n);
    }
  }

  lemma SameGood(c: Case, d: Case)
    requires Alike(c, d) && GoodCase(c)
    ensures GoodCase(d)
  {
    hide SubtreesOk;
    SameNet(c.net, d.net);
  }

  lemma SlackNotZero(c: Case)
    requires GoodCase(c)
    ensures forall p: Phase :: p in c.slack && c.slack[p] != ZERO
  {
  }

  lemma SameLoadsOk(c: Case, d: Case, V0: Profile, i: Profile)
    requires Alike(c, d) && GoodCase(c) && GoodCase(d) && LoadsOk(c, V0, i)
    ensures LoadsOk(d, V0, i)
  {
    hide GoodCase;
    SlackNotZero(c);
    assert forall n, p :: LoadCurrent(c, V0, n, p) == LoadCurrent(d, V0, n, p);
  }

  lemma SameBranchOk(c: Case, d: Case, i: Profile, J: map<EdgeId, PhaseMap>, n: NodeId)
    requires Alike(c, d) && GoodCase(c) && GoodCase(d) && n in c.net.tree.parentEdge && BranchOk(c, i, J, n)
    ensures n in d.net.tree.parentEdge && BranchOk(d, i, J, n)
  {
    hide GoodCase, Slice, TotalC;
  }

  lemma SameVoltageOk(c: Case, d: Case, J: map<EdgeId, PhaseMap>, V: Profile, n: NodeId)
    requires Alike(c, d) && GoodCase(c) && GoodCase(d) && n in c.net.tree.parentEdge
    requires c.net.tree.parentEdge[n].id in J && VoltageOk(c, J, V, n)
    ensures n in d.net.tree.parentEdge && d.net.tree.parentEdge[n].id in J && VoltageOk(d, J, V, n)
  {
    hide SubtreesOk;
    forall p | p in V[n] ensures NewVoltage(c, V, J, n, p) == NewVoltage(d, V, J, n, p) {
    }
  }

  lemma SameSweep(c: Case, d: Case, V0: Profile, i: Profile, J: map<EdgeId, PhaseMap>, V: Profile)
    requires Alike(c, d) && IsSweep(c, V0, i, J, V)
    ensures IsSweep(d, V0, i, J, V)
  {
    SweepAtRoot(c, V0, i, J, V);
    RootKept(c, V0, i, J, V);
    SameGood(c, d);
    hide GoodCase, LoadsOk, BranchOk, VoltageOk, SubtreesOk, IsTree;
    SameLoadsOk(c, d, V0, i);
    forall n | n in c.net.tree.parentEdge
      ensures BranchOk(d, i, J, n) && d.net.tree.parentEdge[n].id in J && VoltageOk(d, J, V, n)
    {
      SweepAt(c, V0, i, J, V, n);
      SameBranchOk(c, d, i, J, n);
      SameVoltageOk(c, d, J, V, n);
    }
  }

  lemma SameSwept(c: Case, d: Case, V0: Profile, V: Profile)
    requires Alike(c, d) && Swept(c, V0, V)
    ensures Swept(d, V0, V)
  {
    hide IsSweep, Alike;
    var i, J :| IsSweep(c, V0, i, J, V);
    SameSweep(c, d, V0, i, J, V);
  }

  lemma SameSettled(c: Case, d: Case, chain: seq<Profile>, k: nat, tol: real)
    requires Alike(c, d) && 0 < k < |chain|
    ensures SettledAt(c, chain, k, tol) == SettledAt(d, chain, k, tol)
  {
    assert forall V0: Profile, V: Profile, n, p :: Moved(c, V0, V, n, p) == Moved(d, V0, V, n, p);
  }

  lemma SameFlat(c: Case, d: Case)
    requires Alike(c, d) && forall p: Phase :: p in c.slack
    ensures FlatProfile(c) == FlatProfile(d)
  {
  }

  lemma SameRun(c: Case, d: Case, chain: seq<Profile>, tol: real)
    requires Alike(c, d) && IsRun(c, chain, tol)
    ensures IsRun(d, chain, tol)
  {
    hide Swept, SettledAt, FlatProfile;
    SameFlat(c, d);
    forall k | 0 < k < |chain| ensures SweptAt(d, chain, k) {
      assert SweptAt(c, chain, k);
      SameSwept(c, d, chain[k - 1], chain[k]);
    }
    forall k | 0 < k < |chain| - 1 ensures !SettledAt(d, chain, k, tol) {
      SameSettled(c, d, chain, k, tol);
    }
  }

  /** On a radial network two trees differ in their order alone. */
  lemma NetsAlike(nodes: seq<Node>, edges: seq<Edge>, s: Setup, a: Net, b: Net)
    requires WellFormed(nodes, edges) && IsNet(nodes, edges, a) && IsNet(nodes, edges, b)
    requires SourceList(nodes) != [] && Slack(ClosedLinks(edges), {SourceList(nodes)[0]}) == 0
    ensures Alike(CaseOf(s, a), CaseOf(s, b))
  {
    hide Reach, Slack, ClosedLinks, WellFormed, Rooted, Below, SubtreesOk;
    IdsDiffer(nodes, edges);
    RadialTreeIsUnique(nodes, edges, a, b);
    assert a.byId == b.byId;
  }

  lemma IdsDiffer(nodes: seq<Node>, edges: seq<Edge>)
    requires WellFormed(nodes, edges)
    ensures UniqueIds(edges)
  {
  }

  /** A run that ends: it settled, or its budget is spent. */
  ghost predicate Ended(c: Case, s: Setup, chain: seq<Profile>) {
    && IsRun(c, chain, s.tol) && 1 < |chain| <= s.maxIter + 1
    && (!SettledAt(c, chain, |chain| - 1, s.tol) ==> |chain| == s.maxIter + 1)
  }

  lemma SettlesTogether(c: Case, a: seq<Profile>, b: seq<Profile>, tol: real, k: nat)
    requires IsRun(c, a, tol) && IsRun(c, b, tol) && 0 < k < |a| && k < |b|
    ensures SettledAt(c, a, k, tol) == SettledAt(c, b, k, tol)
    ensures k < |b| - 1 ==> !SettledAt(c, b, k, tol)
  {
    hide Settled, Swept, FlatProfile;
    RunsAgree(c, a, b, tol, k - 1);
    RunsAgree(c, a, b, tol, k);
  }

  lemma EndsNotLater(c: Case, s: Setup, a: seq<Profile>, b: seq<Profile>)
    requires Ended(c, s, a) && Ended(c, s, b)
    ensures |b| <= |a|
  {
    hide IsRun, SettledAt;
    if |a| < |b| { SettlesTogether(c, a, b, s.tol, |a| - 1); }
  }

  lemma EndsAlike(c: Case, s: Setup, a: seq<Profile>, b: seq<Profile>)
    requires Ended(c, s, a) && Ended(c, s, b)
    ensures |a| == |b| && forall k :: 0 <= k < |a| ==> a[k] == b[k]
  {
    hide Ended;
    EndsNotLater(c, s, a, b);
    EndsNotLater(c, s, b, a);
    EndedRuns(c, s, a);
    EndedRuns(c, s, b);
    forall k | 0 <= k < |a| ensures a[k] == b[k] {
      RunsAgree(c, a, b, s.tol, k);
    }
  }

  lemma EndedRuns(c: Case, s: Setup, chain: seq<Profile>)
    requires Ended(c, s, chain)
    ensures IsRun(c, chain, s.tol)
  {
  }

  lemma SameLosses(c: Case, d: Case, J: map<EdgeId, PhaseMap>, K: map<EdgeId, PhaseMap>)
    requires Alike(c, d) && Accounted(c, J) && Accounted(d, K) && SameBranches(c, J, K)
    ensures BranchLosses(c, J) == BranchLosses(d, K)
  {
    hide OhmicLoss;
    forall n, p | n in c.net.tree.parentEdge && n in c.net.byId
      ensures PhaseLoss(c, J[c.net.tree.parentEdge[n].id], n, p) == PhaseLoss(d, K[c.net.tree.parentEdge[n].id], n, p)
    {
    }
  }

  lemma SameFigures(c: Case, d: Case, j: PhaseMap, v: PhaseMap, n: NodeId, p: Phase)
    requires Alike(c, d) && n in c.net.tree.parentEdge && n in c.net.byId && c.sqrt3 != 0.0 && p in c.slack
    ensures Amps(c, j, n, p) == Amps(d, j, n, p) && PhaseKva(c, j, v, n, p) == PhaseKva(d, j, v, n, p)
  {
    hide Product, Complex.Times, Complex.Conj;
  }

  lemma AlikeFields(c: Case, d: Case)
    requires Alike(c, d)
    ensures c.net.tree.parentEdge == d.net.tree.parentEdge && c.net.byId == d.net.byId
    ensures c.sqrt3 == d.sqrt3 && c.slack == d.slack
  {
  }

  lemma SameOverload(s: Setup, c: Case, d: Case, j: PhaseMap, v: PhaseMap, n: NodeId)
    requires Alike(c, d) && n in c.net.tree.parentEdge && n in c.net.byId && c.sqrt3 != 0.0
    requires forall p: Phase :: p in c.slack
    ensures Overloaded(s, c, j, v, n) == Overloaded(s, d, j, v, n)
  {
    hide Round, Max, Amps, PhaseKva, Alike;
    AlikeFields(c, d);
    SameFigures(c, d, j, v, n, A);
    SameFigures(c, d, j, v, n, B);
    SameFigures(c, d, j, v, n, C);
  }

  lemma SameThermal(
      s: Setup, c: Case, d: Case, J: map<EdgeId, PhaseMap>, K: map<EdgeId, PhaseMap>, V: Profile, n: NodeId)
    requires Alike(c, d) && Reportable(c, J, V) && Reportable(d, K, V) && SameBranches(c, J, K)
    requires n in c.net.tree.parentEdge
    ensures n in d.net.tree.parentEdge && n in ThermalCounts(s, c, J, V) && n in ThermalCounts(s, d, K, V)
    ensures ThermalCounts(s, c, J, V)[n] == ThermalCounts(s, d, K, V)[n]
  {
    hide Overloaded, Alike;
    AlikeFields(c, d);
    SameOverload(s, c, d, J[c.net.tree.parentEdge[n].id], V[n], n);
  }

  lemma ThermalKeys(s: Setup, c: Case, J: map<EdgeId, PhaseMap>, V: Profile)
    requires Reportable(c, J, V)
    ensures ThermalCounts(s, c, J, V).Keys == c.net.tree.parentEdge.Keys
  {
    hide Overloaded;
  }

  lemma SameViolations(s: Setup, c: Case, d: Case, J: map<EdgeId, PhaseMap>, K: map<EdgeId, PhaseMap>, V: Profile)
    requires Alike(c, d) && Reportable(c, J, V) && Reportable(d, K, V) && SameBranches(c, J, K)
    ensures ViolationTotal(s, c, J, V) == ViolationTotal(s, d, K, V)
  {
    hide ThermalCounts, VoltageCounts, Total, Alike, Reportable, SameBranches;
    AlikeFields(c, d);
    ThermalKeys(s, c, J, V);
    ThermalKeys(s, d, K, V);
    forall n | n in c.net.tree.parentEdge ensures ThermalCounts(s, c, J, V)[n] == ThermalCounts(s, d, K, V)[n] {
      SameThermal(s, c, d, J, K, V, n);
    }
    assert ThermalCounts(s, c, J, V) == ThermalCounts(s, d, K, V);
  }

  /** Two solves of a radial network, each over a tree of its own: the same sweeps, and
      in the end the same voltages, currents and figures. */
  lemma SolvesAgree(
      nodes: seq<Node>, edges: seq<Edge>, s: Setup, f: FlowSummary, net: Net, chain: seq<Profile>, i: Profile,
      J: map<EdgeId, PhaseMap>, f': FlowSummary, net': Net, chain': seq<Profile>, i': Profile, J': map<EdgeId,
      PhaseMap>)
    requires WellFormed(nodes, edges) && SourceList(nodes) != []
    requires Slack(ClosedLinks(edges), {SourceList(nodes)[0]}) == 0
    requires SolvedBy(nodes, edges, s, f, net, chain, i, J) && SolvedBy(nodes, edges, s, f', net', chain', i', J')
    ensures chain == chain' && i == i' && SameBranches(CaseOf(s, net), J, J') && f == f'
  {
    hide IsNet, WellFormed, Slack, IsRun, IsSweep, SettledAt, Reportable, Alike, CaseOf, BranchLosses, ViolationTotal,
      SameBranches, Accounted, Ended, TotalR, Round;
    var c, d := CaseOf(s, net), CaseOf(s, net');
    var k := |chain| - 1;
    NetsAlike(nodes, edges, s, net, net');
    NetsAlike(nodes, edges, s, net', net);
    SelfAlike(c);
    HasEnded(nodes, edges, s, f, net, chain, i, J, c);
    HasEnded(nodes, edges, s, f', net', chain', i', J', c);
    EndsAlike(c, s, chain, chain');
    SameSweep(d, c, chain'[k - 1], i', J', chain'[k]);
    SweepIsUnique(c, chain[k - 1], i, J, chain[k], i', J', chain'[k]);
    SameSettled(c, d, chain, k, s.tol);
    ReportAccounts(c, J, chain[k]);
    ReportAccounts(d, J', chain'[k]);
    SameLosses(c, d, J, J');
    SameViolations(s, c, d, J, J', chain[k]);
    AlikeFields(c, d);
  }

  lemma ReportAccounts(c: Case, J: map<EdgeId, PhaseMap>, V: Profile)
    requires Reportable(c, J, V)
    ensures Accounted(c, J)
  {
  }

  lemma HasEnded(
      nodes: seq<Node>, edges: seq<Edge>, s: Setup, f: FlowSummary, net: Net, chain: seq<Profile>, i: Profile,
      J: map<EdgeId, PhaseMap>, c: Case)
    requires SolvedBy(nodes, edges, s, f, net, chain, i, J) && Alike(CaseOf(s, net), c)
    ensures Ended(c, s, chain)
  {
    hide IsNet, IsRun, IsSweep, SettledAt, Reportable, Alike, CaseOf, BranchLosses, ViolationTotal;
    SameRun(CaseOf(s, net), c, chain, s.tol);
    SameSettled(CaseOf(s, net), c, chain, |chain| - 1, s.tol);
  }

  lemma SelfAlike(c: Case)
    ensures Alike(c, c)
  {
  }

  /** So the positions of the switches decide what a power flow reports of a radial
      network. */
  lemma SolvedOnce(nodes: seq<Node>, edges: seq<Edge>, s: Setup, f: FlowSummary, f': FlowSummary)
    requires WellFormed(nodes, edges) && SourceList(nodes) != []
    requires Slack(ClosedLinks(edges), {SourceList(nodes)[0]}) == 0
    requires Solved(nodes, edges, s, f) && Solved(nodes, edges, s, f')
    ensures f == f'
  {
    hide SolvedBy, WellFormed, Slack;
    var net, chain, i, J :| SolvedBy(nodes, edges, s, f, net, chain, i, J);
    var net', chain', i', J' :| SolvedBy(nodes, edges, s, f', net', chain', i', J');
    SolvesAgree(nodes, edges, s, f, net, chain, i, J, f', net', chain', i', J');
  }

  /** On a radial network the part that the first substation supplies is radial. */
  lemma RootIsRadial(nodes: seq<Node>, edges: seq<Edge>)
    requires WellFormed(nodes, edges) && SourceList(nodes) != []
    requires IsRadial(nodes, edges, EnergizedBy(nodes, edges))
    ensures Slack(ClosedLinks(edges), {SourceList(nodes)[0]}) == 0
  {
    hide Reach, Acyclic, ClosedLinks, Slack, WellFormed, IsRadial;
    RadialTestIsExact(nodes, edges);
    var E, S, root := ClosedLinks(edges), Sources(nodes), SourceList(nodes)[0];
    assert root in S;
    ReachIsLeast(E, S);
    ReachMonotone(E, {root}, E, S);
    ForestShrinks(E, S, E, {root});
    NoSlackIffForest(E, {root});
  }

  lemma RadialSolvedOnce(nodes: seq<Node>, edges: seq<Edge>, s: Setup, f: FlowSummary, f': FlowSummary)
    requires WellFormed(nodes, edges) && SourceList(nodes) != []
    requires IsRadial(nodes, edges, EnergizedBy(nodes, edges))
    requires Solved(nodes, edges, s, f) && Solved(nodes, edges, s, f')
    ensures f == f'
  {
    hide *;
    RootIsRadial(nodes, edges);
    SolvedOnce(nodes, edges, s, f, f');
  }

  lemma LossIsRounded(nodes: seq<Node>, edges: seq<Edge>, s: Setup, f: FlowSummary) returns (loss: real)
    requires Solved(nodes, edges, s, f)
    ensures f.lossKw == Round(loss, 1000)
  {
    hide IsNet, IsRun, IsSweep, Reportable, BranchLosses, ViolationTotal, SettledAt, Round;
    var net, chain, i, J :| SolvedBy(nodes, edges, s, f, net, chain, i, J);
    ReportAccounts(CaseOf(s, net), J, chain[|chain| - 1]);
    loss := TotalR(BranchLosses(CaseOf(s, net), J), CaseOf(s, net).net.tree.parentEdge.Keys);
  }
}

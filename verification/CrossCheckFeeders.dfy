/** Two small feeders on which `cross_check` counts a mismatch although model, inference
    and telemetry are in order: a single opened switch, and two of them below a
    transformer that keeps its supply. */
module CrossCheckFeeders {
  import opened Graph
  import opened Grid
  import opened Results
  import opened RadialTree
  import opened TreeCuts
  import opened Sums
  import opened Contingency
  import opened Ancestry
  import opened Inference
  import opened Validation
  import opened CrossCheckLaws

  function Spot(id: NodeId, kind: NodeKind): Node {
    Node(id, kind, 0.4, 0.0, 0.0, {A})
  }

  /** A normally-closed edge. */
  function Span(id: EdgeId, a: NodeId, b: NodeId, kind: EdgeKind, closed: bool): Edge {
    Edge(id, a, b, kind, closed, true, true, false, 0.1, 0.1, {A})
  }

  // ---- any tree ------------------------------------------------------------

  /** A parent edge is an edge of the list, closed, between the node and its parent. */
  lemma ParentFrom(nodes: seq<Node>, edges: seq<Edge>, net: Net, n: NodeId)
    requires IsNet(nodes, edges, net) && n in net.tree.Nodes() && n != net.tree.root
    ensures IsTree(net.tree) && n in net.tree.parentEdge && Linked(net.tree, n)
    ensures net.tree.parentEdge[n] in edges && n in {net.tree.parentEdge[n].fromNode, net.tree.parentEdge[n].toNode}
    ensures Chain(net.tree, n) == [n] + Chain(net.tree, net.tree.Parent(n))
  {
    hide Reach;
    ParentLink(nodes, edges, net, n);
  }

  lemma RootFacts(nodes: seq<Node>, edges: seq<Edge>, net: Net)
    requires IsNet(nodes, edges, net)
    ensures IsTree(net.tree) && SubtreesOk(net) && SourceList(nodes) != [] && net.tree.root == SourceList(nodes)[0]
    ensures net.tree.Nodes() == Reach(ClosedLinks(edges), {net.tree.root})
    ensures net.tree.root in net.tree.pathEdges && net.tree.pathEdges[net.tree.root] == []
    ensures Chain(net.tree, net.tree.root) == [net.tree.root]
    ensures forall n :: n in nodes ==> n.id in net.byId && net.byId[n.id] == n
  {
    hide Reach;
  }

  /** The inferred ancestor is on every member's root path and as deep as any common one. */
  lemma AncestorIsDeep(net: Net, ctx: Context, c: Cluster, o: Outage, a: NodeId)
    requires SubtreesOk(net) && c.members != []
    requires forall m :: m in c.members ==> m in net.tree.pathEdges && |net.tree.pathEdges[m]| < GUARD
    requires IsOutage(net, ctx, c, o)
    requires IsTree(net.tree) && CommonAncestor(net.tree, c.members, a)
    ensures o.lca in net.tree.pathEdges && |net.tree.pathEdges[a]| <= |net.tree.pathEdges[o.lca]|
    ensures forall m :: m in c.members ==> o.lca in Chain(net.tree, m)
  {
    hide IsTree, Below, Total;
    WithinGuard(net.tree, c.members, o.lca);
  }

  ghost predicate FitsPass(net: Net, c: Cluster) {
    SubtreesOk(net) && IsTree(net.tree) && c.members != [] && forall m :: m in c.members ==> m in net.tree.pathEdges
  }

  lemma FallbackIff(nodes: seq<Node>, edges: seq<Edge>, dark: seq<NodeId>, ps: Passes)
    requires GoodPasses(nodes, edges, dark, ps)
    ensures forall m :: m in ps.fallback <==> m in dark && m in ps.snet.tree.Nodes() && m !in ps.enet.tree.Nodes()
    ensures IsTree(ps.snet.tree) && SubtreesOk(ps.snet) && AreClusters(ps.snet, ps.fallback, ps.sc)
    ensures IsNet(nodes, StructuralEdges(edges), ps.snet) && IsNet(nodes, edges, ps.enet)
  {
    hide IsNet, AreClusters, SubtreesOk, IsTree;
    NetParts(nodes, StructuralEdges(edges), ps.snet);
    NetParts(nodes, edges, ps.enet);
  }

  lemma StructuralPart(
      nodes: seq<Node>, edges: seq<Edge>, customers: map<NodeId, int>, seDead: set<NodeId>, ps: Passes,
      r: Inference.Report, j: nat)
    requires GoodReport(nodes, edges, customers, seDead, ps, r) && j < |ps.sc|
    ensures SubtreesOk(ps.snet) && |ps.ec| + j < |r.outages|
    ensures forall m :: m in ps.sc[j].members ==> m in ps.snet.tree.pathEdges
    ensures IsOutage(ps.snet, Context(Meters(nodes), customers, seDead, Structural, OpenIds(edges)), ps.sc[j],
      r.outages[|ps.ec| + j])
  {
    hide SubtreesOk, IsOutage, Meters, OpenIds;
    assert r.outages[|ps.ec|..][j] == r.outages[|ps.ec| + j];
  }

  /** A dark meter that only the structural tree locates has its outage in the report. */
  lemma StructuralOutageOf(
      nodes: seq<Node>, edges: seq<Edge>, dark: seq<NodeId>, customers: map<NodeId, int>, seDead: set<NodeId>,
      ps: Passes, r: Inference.Report, d: NodeId) returns (i: nat, c: Cluster)
    requires GoodPasses(nodes, edges, dark, ps) && GoodReport(nodes, edges, customers, seDead, ps, r)
    requires d in ps.fallback
    ensures i < |r.outages| && d in c.members && FitsPass(ps.snet, c)
    ensures IsOutage(ps.snet, Context(Meters(nodes), customers, seDead, Structural, OpenIds(edges)), c, r.outages[i])
    ensures forall m :: m in c.members ==> m in ps.fallback
    ensures (forall m :: m in ps.fallback ==> m in ps.snet.tree.pathEdges) && IsTree(ps.snet.tree)
    ensures forall m :: m in ps.fallback ==>
      (NearestTransformer(ps.snet, m) == NearestTransformer(ps.snet, d) <==> m in c.members)
  {
    hide *;
    FallbackIff(nodes, edges, dark, ps);
    FallbackKnown(ps);
    var j := ClusterOf(ps.snet, ps.fallback, ps.sc, d);
    StructuralPart(nodes, edges, customers, seDead, ps, r, j);
    i, c := |ps.ec| + j, ps.sc[j];
    Fits(ps.snet, c);
  }

  lemma FallbackKnown(ps: Passes)
    requires forall m :: m in ps.fallback ==> m in ps.snet.tree.Nodes()
    ensures forall m :: m in ps.fallback ==> m in ps.snet.tree.pathEdges
  {
  }

  lemma Fits(net: Net, c: Cluster)
    requires SubtreesOk(net) && IsTree(net.tree) && c.members != []
    requires forall m :: m in c.members ==> m in net.tree.pathEdges
    ensures FitsPass(net, c)
  {
    hide SubtreesOk, IsTree;
  }

  // ---- a switch opened above a meter ---------------------------------------

  function SwitchNodes(): seq<Node> {
    [Spot(0, Substation), Spot(1, Meter)]
  }

  function SwitchEdges(): seq<Edge> {
    [Span(0, 0, 1, Switch, false)]
  }

  lemma SwitchStructure()
    ensures WellFormed(SwitchNodes(), SwitchEdges())
    ensures SourceList(SwitchNodes()) == [0]
    ensures StructuralEdges(SwitchEdges()) == [Span(0, 0, 1, Switch, true)]
    ensures OpenIds(SwitchEdges()) == {0}
  {
    var nodes, edges := SwitchNodes(), SwitchEdges();
    assert nodes[0] in nodes && nodes[1] in nodes && edges[0] in edges;
    assert nodes[1..] == [Spot(1, Meter)] && SourceList(nodes[1..]) == SourceList(nodes[1..][1..]);
    assert edges[..0] == [] && StructuralEdges(edges) == StructuralEdges(edges[..0]) + [Span(0, 0, 1, Switch, true)];
  }

  lemma SwitchReach()
    ensures Reach(ClosedLinks(SwitchEdges()), {0}) == {0}
    ensures Reach(ClosedLinks([Span(0, 0, 1, Switch, true)]), {0}) == {0, 1}
  {
    var f := Span(0, 0, 1, Switch, true);
    assert f in [f];
    assert ClosedLinks(SwitchEdges()) == {} && ClosedLinks([f]) == {Link(0, 0, 1)};
    ReachIsLeast({}, {0});
    ReachIsLeast({Link(0, 0, 1)}, {0});
    hide Reach;
    assert Closed({}, {0});
    assert Link(0, 0, 1) in {Link(0, 0, 1)};
    assert Closed({Link(0, 0, 1)}, {0, 1});
  }

  lemma SwitchTree(snet: Net)
    requires IsNet(SwitchNodes(), StructuralEdges(SwitchEdges()), snet)
    ensures IsTree(snet.tree) && SubtreesOk(snet) && snet.tree.root == 0 && snet.tree.Nodes() == {0, 1}
    ensures |snet.tree.pathEdges[0]| == 0 && |snet.tree.pathEdges[1]| == 1 && Chain(snet.tree, 1) == [1, 0]
    ensures 1 in snet.tree.parentEdge && snet.tree.parentEdge[1].id == 0
  {
    hide Reach, IsNet, ClosedLinks, IsTree, SubtreesOk;
    SwitchStructure();
    SwitchReach();
    RootFacts(SwitchNodes(), StructuralEdges(SwitchEdges()), snet);
    ParentFrom(SwitchNodes(), StructuralEdges(SwitchEdges()), snet, 1);
  }

  ghost predicate UnknownToN1(r: Inference.Report, n1: Contingency.Report, tol: nat, i: nat) {
    i < |r.outages| && CheckOf(r.outages[i], n1.outcomes, tol).mismatch
    && CheckOf(r.outages[i], n1.outcomes, tol).flags == [NotInN1Model]
  }

  lemma SwitchDark(ps: Passes)
    requires GoodPasses(SwitchNodes(), SwitchEdges(), [1], ps)
    ensures IsNet(SwitchNodes(), StructuralEdges(SwitchEdges()), ps.snet)
    ensures forall m :: m in ps.fallback <==> m == 1
  {
    hide IsNet, Reach, AreClusters, ClosedLinks, IsTree, SubtreesOk, GoodPasses;
    SwitchStructure();
    SwitchReach();
    FallbackIff(SwitchNodes(), SwitchEdges(), [1], ps);
    SwitchTree(ps.snet);
    RootFacts(SwitchNodes(), SwitchEdges(), ps.enet);
  }

  lemma SwitchAncestor(snet: Net, ctx: Context, c: Cluster, o: Outage)
    requires IsNet(SwitchNodes(), StructuralEdges(SwitchEdges()), snet) && FitsPass(snet, c)
    requires (forall m :: m in c.members ==> m == 1) && IsOutage(snet, ctx, c, o)
    ensures o.lca == 1
  {
    hide IsNet, IsTree, SubtreesOk, IsOutage, Below, Chain;
    SwitchTree(snet);
    assert c.members[0] in c.members;
    assert [1, 0][0] == 1;
    AncestorIsDeep(snet, ctx, c, o, 1);
  }

  lemma SwitchIsOpen(snet: Net)
    requires IsNet(SwitchNodes(), StructuralEdges(SwitchEdges()), snet) && IsTree(snet.tree)
    requires 1 in snet.tree.pathEdges
    ensures FirstOpen(snet.tree, OpenIds(SwitchEdges()), 1).Some?
  {
    hide IsNet, SubtreesOk, IsTree;
    SwitchTree(snet);
    SwitchStructure();
  }

  /** A meter behind an opened switch goes dark. However the passes ran, its outage is
      counted as one whose device the N-1 study does not know. */
  lemma OpenedSwitchIsFlagged(
      s: Study, seDead: set<NodeId>, ps: Passes, r: Inference.Report, n1: Contingency.Report, tol: nat)
    requires GoodPasses(SwitchNodes(), SwitchEdges(), [1], ps)
    requires GoodReport(SwitchNodes(), SwitchEdges(), s.customers, seDead, ps, r)
    requires IsReport(s, SwitchNodes(), SwitchEdges(), n1)
    ensures WellFormed(SwitchNodes(), SwitchEdges()) && exists i: nat :: UnknownToN1(r, n1, tol, i)
  {
    hide IsNet, SubtreesOk, IsTree, IsOutage, GoodPasses, GoodReport, IsReport, CheckOf, WellFormed, SwitchNodes,
      SwitchEdges, FirstOpen, Chain, NearestTransformer;
    var nodes, edges := SwitchNodes(), SwitchEdges();
    SwitchStructure();
    SwitchDark(ps);
    var i, c := StructuralOutageOf(nodes, edges, [1], s.customers, seDead, ps, r, 1);
    var ctx := Context(Meters(nodes), s.customers, seDead, Structural, OpenIds(edges));
    SwitchAncestor(ps.snet, ctx, c, r.outages[i]);
    StructuralVerdict(s, nodes, edges, ps.snet, ctx, c, r.outages[i], n1, tol);
    SwitchIsOpen(ps.snet);
    assert UnknownToN1(r, n1, tol, i);
  }

  // ---- two switches opened below a live transformer ------------------------

  function ForkNodes(): seq<Node> {
    [Spot(0, Substation), Spot(1, TransformerNode), Spot(2, Meter), Spot(3, Meter)]
  }

  function ForkEdges(): seq<Edge> {
    [Span(0, 0, 1, Line, true), Span(1, 1, 2, Switch, false), Span(2, 1, 3, Switch, false)]
  }

  function ForkBuilt(): seq<Edge> {
    [Span(0, 0, 1, Line, true), Span(1, 1, 2, Switch, true), Span(2, 1, 3, Switch, true)]
  }

  lemma ForkSources()
    ensures SourceList(ForkNodes()) == [0]
  {
    var nodes := ForkNodes();
    assert nodes[1..][1..] == nodes[2..] && nodes[2..][1..] == nodes[3..];
    assert SourceList(nodes[3..]) == SourceList(nodes[3..][1..]);
    assert SourceList(nodes[2..]) == SourceList(nodes[3..]);
    assert SourceList(nodes[1..]) == SourceList(nodes[2..]);
  }

  lemma ForkStructure()
    ensures WellFormed(ForkNodes(), ForkEdges())
    ensures StructuralEdges(ForkEdges()) == ForkBuilt()
    ensures OpenIds(ForkEdges()) == {1, 2}
  {
    var edges := ForkEdges();
    ForkWellFormed();
    assert edges[1] in edges && edges[2] in edges;
    assert edges[..2][..1] == edges[..1] && edges[..1][..0] == [];
    assert StructuralEdges(edges[..1]) == StructuralEdges(edges[..1][..0]) + [Span(0, 0, 1, Line, true)];
    assert StructuralEdges(edges[..2]) == StructuralEdges(edges[..1]) + [Span(1, 1, 2, Switch, true)];
    assert StructuralEdges(edges) == StructuralEdges(edges[..2]) + [Span(2, 1, 3, Switch, true)];
  }

  lemma ForkWellFormed()
    ensures WellFormed(ForkNodes(), ForkEdges())
  {
    var nodes := ForkNodes();
    assert nodes[0] in nodes && nodes[1] in nodes && nodes[2] in nodes && nodes[3] in nodes;
  }

  lemma ForkLinks()
    ensures ClosedLinks(ForkEdges()) == {Link(0, 0, 1)}
    ensures ClosedLinks(ForkBuilt()) == YLinks()
  {
    var edges, built := ForkEdges(), ForkBuilt();
    assert edges[0] in edges && built[0] in built && built[1] in built && built[2] in built;
  }

  lemma ForkReach()
    ensures Reach(ClosedLinks(ForkEdges()), {0}) == {0, 1}
    ensures Reach(ClosedLinks(ForkBuilt()), {0}) == {0, 1, 2, 3}
  {
    ForkLinks();
    hide *;
    LineReach();
    YReach();
  }

  lemma LineReach()
    ensures Reach({Link(0, 0, 1)}, {0}) == {0, 1}
  {
    ReachIsLeast({Link(0, 0, 1)}, {0});
    hide Reach;
    assert Link(0, 0, 1) in {Link(0, 0, 1)};
    assert Closed({Link(0, 0, 1)}, {0, 1});
  }

  function YLinks(): set<Link> {
    {Link(0, 0, 1), Link(1, 1, 2), Link(2, 1, 3)}
  }

  lemma YReach()
    ensures Reach(YLinks(), {0}) == {0, 1, 2, 3}
  {
    hide *;
    var R := Reach(YLinks(), {0});
    ReachIsLeast(YLinks(), {0});
    YClosed(R);
    YClosed({0, 1, 2, 3});
    assert R <= {0, 1, 2, 3};
  }

  lemma YClosed(C: set<NodeId>)
    requires 0 in C
    ensures Closed(YLinks(), C) <==> 1 in C && 2 in C && 3 in C
  {
    var F := YLinks();
    assert Link(0, 0, 1) in F && Link(1, 1, 2) in F && Link(2, 1, 3) in F;
  }

  lemma ForkEnds(e: Edge, n: NodeId)
    requires e in ForkBuilt() && n in {e.fromNode, e.toNode}
    ensures n == 1 ==> e in {Span(0, 0, 1, Line, true), Span(1, 1, 2, Switch, true), Span(2, 1, 3, Switch, true)}
    ensures n == 2 ==> e == Span(1, 1, 2, Switch, true)
    ensures n == 3 ==> e == Span(2, 1, 3, Switch, true)
  {
  }

  lemma ForkParents(snet: Net)
    requires IsNet(ForkNodes(), StructuralEdges(ForkEdges()), snet)
    ensures IsTree(snet.tree) && SubtreesOk(snet) && snet.tree.root == 0 && snet.tree.Nodes() == {0, 1, 2, 3}
    ensures 1 in snet.tree.parentEdge && snet.tree.parentEdge[1].id == 0 && snet.tree.Parent(1) == 0
    ensures 2 in snet.tree.parentEdge && snet.tree.Parent(2) == 1
    ensures 3 in snet.tree.parentEdge && snet.tree.Parent(3) == 1
    ensures Linked(snet.tree, 1) && Linked(snet.tree, 2) && Linked(snet.tree, 3)
  {
    hide Reach, IsNet, ClosedLinks, SubtreesOk, Linked, ForkNodes, ForkEdges, ForkBuilt, Chain, IsTree;
    ForkSources();
    ForkStructure();
    ForkReach();
    RootFacts(ForkNodes(), ForkBuilt(), snet);
    ParentFrom(ForkNodes(), ForkBuilt(), snet, 1);
    ParentFrom(ForkNodes(), ForkBuilt(), snet, 2);
    ParentFrom(ForkNodes(), ForkBuilt(), snet, 3);
    ForkEnds(snet.tree.parentEdge[1], 1);
    ForkEnds(snet.tree.parentEdge[2], 2);
    ForkEnds(snet.tree.parentEdge[3], 3);
    EdgesApart(snet.tree, 1, 2);
    EdgesApart(snet.tree, 1, 3);
  }

  lemma EdgesApart(t: Tree, m: NodeId, n: NodeId)
    requires IsTree(t) && m in t.parentEdge && n in t.parentEdge && m != n
    ensures t.parentEdge[m].id != t.parentEdge[n].id
  {
  }

  lemma ForkTree(snet: Net)
    requires IsNet(ForkNodes(), StructuralEdges(ForkEdges()), snet)
    ensures IsTree(snet.tree) && SubtreesOk(snet) && snet.tree.root == 0 && snet.tree.Nodes() == {0, 1, 2, 3}
    ensures 1 in snet.tree.parentEdge && snet.tree.parentEdge[1].id == 0
    ensures Chain(snet.tree, 0) == [0] && Chain(snet.tree, 1) == [1, 0]
    ensures Chain(snet.tree, 2) == [2, 1, 0] && Chain(snet.tree, 3) == [3, 1, 0]
    ensures |snet.tree.pathEdges[0]| == 0 && |snet.tree.pathEdges[1]| == 1
    ensures |snet.tree.pathEdges[2]| == 2 && |snet.tree.pathEdges[3]| == 2
  {
    hide IsNet, IsTree, SubtreesOk, ForkNodes, ForkEdges, StructuralEdges, Chain;
    ForkParents(snet);
    RootFacts(ForkNodes(), StructuralEdges(ForkEdges()), snet);
    ParentFrom(ForkNodes(), StructuralEdges(ForkEdges()), snet, 1);
    ParentFrom(ForkNodes(), StructuralEdges(ForkEdges()), snet, 2);
    ParentFrom(ForkNodes(), StructuralEdges(ForkEdges()), snet, 3);
  }

  lemma ForkDark(ps: Passes)
    requires GoodPasses(ForkNodes(), ForkEdges(), [2, 3], ps)
    ensures IsNet(ForkNodes(), StructuralEdges(ForkEdges()), ps.snet)
    ensures forall m :: m in ps.fallback <==> m == 2 || m == 3
  {
    hide IsNet, Reach, AreClusters, ClosedLinks, IsTree, SubtreesOk, GoodPasses, ForkNodes, ForkEdges;
    ForkSources();
    ForkReach();
    FallbackIff(ForkNodes(), ForkEdges(), [2, 3], ps);
    ForkTree(ps.snet);
    RootFacts(ForkNodes(), ForkEdges(), ps.enet);
  }

  lemma SecondIsTransformer(byId: map<NodeId, Node>, m: NodeId)
    requires m in byId && byId[m].kind == Meter && 1 in byId && byId[1].kind == TransformerNode
    ensures FirstTransformer(byId, [m, 1, 0]) == Some(1)
  {
    assert [m, 1, 0][1..] == [1, 0];
  }

  lemma ForkKinds(byId: map<NodeId, Node>)
    requires forall n :: n in ForkNodes() ==> n.id in byId && byId[n.id] == n
    ensures 1 in byId && byId[1].kind == TransformerNode
    ensures 2 in byId && byId[2].kind == Meter && 3 in byId && byId[3].kind == Meter
  {
    var nodes := ForkNodes();
    assert nodes[1] in nodes && nodes[2] in nodes && nodes[3] in nodes;
  }

  lemma ShortIsWhole(t: Tree, n: NodeId)
    requires IsTree(t) && n in t.pathEdges && |Chain(t, n)| <= GUARD
    ensures Guarded(t, n) == Chain(t, n)
  {
  }

  /** Both meters hang below the one transformer. */
  lemma ForkTransformers(snet: Net)
    requires IsNet(ForkNodes(), StructuralEdges(ForkEdges()), snet) && IsTree(snet.tree)
    requires 2 in snet.tree.pathEdges && 3 in snet.tree.pathEdges
    ensures NearestTransformer(snet, 2) == NearestTransformer(snet, 3) == Some(1)
  {
    hide IsNet, IsTree, SubtreesOk, Chain, Guarded, FirstTransformer, ForkNodes, ForkEdges;
    ForkTree(snet);
    RootFacts(ForkNodes(), StructuralEdges(ForkEdges()), snet);
    ForkKinds(snet.byId);
    SecondIsTransformer(snet.byId, 2);
    SecondIsTransformer(snet.byId, 3);
    ShortIsWhole(snet.tree, 2);
    ShortIsWhole(snet.tree, 3);
  }

  lemma ForkAncestor(snet: Net, ctx: Context, c: Cluster, o: Outage)
    requires IsNet(ForkNodes(), StructuralEdges(ForkEdges()), snet) && FitsPass(snet, c)
    requires (forall m :: m in c.members <==> m == 2 || m == 3) && IsOutage(snet, ctx, c, o)
    ensures o.lca == 1
  {
    hide IsNet, IsTree, SubtreesOk, IsOutage, Below, Chain;
    ForkTree(snet);
    assert 2 in c.members && 3 in c.members;
    assert [2, 1, 0][1] == 1 && [3, 1, 0][1] == 1;
    assert CommonAncestor(snet.tree, c.members, 1);
    AncestorIsDeep(snet, ctx, c, o, 1);
  }

  lemma ForkIsLive(snet: Net)
    requires IsNet(ForkNodes(), StructuralEdges(ForkEdges()), snet) && IsTree(snet.tree)
    requires 1 in snet.tree.pathEdges
    ensures FirstOpen(snet.tree, OpenIds(ForkEdges()), 1).None? && snet.tree.root != 1
    ensures Below(snet.tree, 1) == {1, 2, 3}
  {
    hide IsNet, SubtreesOk, IsTree, Chain;
    ForkParents(snet);
    ForkTree(snet);
    ForkStructure();
    assert [1, 0][0] == 1 && [2, 1, 0][1] == 1 && [3, 1, 0][1] == 1;
  }

  lemma ForkIsNormal()
    ensures NormalFeeder(ForkNodes(), ForkEdges())
    ensures EnergizedBy(ForkNodes(), ForkEdges()) == {0, 1}
  {
    var nodes, edges, built := ForkNodes(), ForkEdges(), ForkBuilt();
    ForkSources();
    ForkStructure();
    ForkReach();
    hide Reach, ClosedLinks, WellFormed;
    OneSource(nodes);
    assert CountInside(built[3..], {0, 1, 2, 3}) == 0;
    assert built[2..][1..] == built[3..] && built[1..][1..] == built[2..];
    assert CountInside(built, {0, 1, 2, 3}) <= 3;
  }

  lemma ForkIsStudied(snet: Net)
    requires IsNet(ForkNodes(), StructuralEdges(ForkEdges()), snet) && 1 in snet.tree.parentEdge
    ensures Studied(ForkEdges(), snet.tree.parentEdge[1].id)
  {
    hide IsNet;
    ForkParents(snet);
    assert ForkEdges()[0] in ForkEdges();
  }

  ghost predicate CountedWrong(r: Inference.Report, n1: Contingency.Report, tol: nat, i: nat) {
    i < |r.outages| && CheckOf(r.outages[i], n1.outcomes, tol).mismatch
    && CustomerCountMismatch in CheckOf(r.outages[i], n1.outcomes, tol).flags
  }

  lemma TwoCustomers(w: map<NodeId, int>)
    ensures Total(w, {2, 3}) == At(w, 2, 0) + At(w, 3, 0)
  {
    TotalSplit(w, {2, 3}, 2);
    assert {2, 3} - {2} == {3};
    TotalSplit(w, {3}, 3);
    assert {3} - {3} == {};
  }

  /** Two switches open below a transformer that stays live. The outage is blamed on the
      closed line above it, and counts customers whom the loss of that line cannot cost
      their supply. */
  lemma LiveTransformerIsFlagged(
      s: Study, seDead: set<NodeId>, ps: Passes, r: Inference.Report, n1: Contingency.Report, tol: nat)
    requires GoodPasses(ForkNodes(), ForkEdges(), [2, 3], ps)
    requires GoodReport(ForkNodes(), ForkEdges(), s.customers, seDead, ps, r)
    requires IsReport(s, ForkNodes(), ForkEdges(), n1)
    requires At(s.customers, 2, 0) + At(s.customers, 3, 0) > tol
    ensures NormalFeeder(ForkNodes(), ForkEdges()) && exists i: nat :: CountedWrong(r, n1, tol, i)
  {
    hide IsNet, SubtreesOk, IsTree, IsOutage, GoodPasses, GoodReport, IsReport, WellFormed, ForkNodes, ForkEdges,
      FirstOpen, Chain, NearestTransformer, NormalFeeder, CheckOf, Total, EnergizedBy, OpenIds, Studied, Below;
    var nodes, edges := ForkNodes(), ForkEdges();
    ForkIsNormal();
    ForkDark(ps);
    var i, c := StructuralOutageOf(nodes, edges, [2, 3], s.customers, seDead, ps, r, 2);
    ForkTransformers(ps.snet);
    var ctx, o := Context(Meters(nodes), s.customers, seDead, Structural, OpenIds(edges)), r.outages[i];
    ForkAncestor(ps.snet, ctx, c, o);
    ForkTree(ps.snet);
    ForkIsLive(ps.snet);
    LiveAncestorIff(s, nodes, edges, ps.snet, ctx, c, o, n1, tol);
    LiveBlame(ps.snet, ctx, c, o);
    assert o.section - EnergizedBy(nodes, edges) == {2, 3};
    TwoCustomers(s.customers);
    ForkIsStudied(ps.snet);
    NormalIsWellFormed(nodes, edges);
    NotInModelIff(s, nodes, edges, o, n1, tol);
    MismatchKinds(o, n1.outcomes, tol);
    assert CountedWrong(r, n1, tol, i);
  }
}

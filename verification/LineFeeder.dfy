/** A feeder deeper than the guard of the ancestor walk: meters on one line, and two of
    them with more than a thousand edges between them. Inference cannot return on it. */
module LineFeeder {
  import opened Graph
  import opened Grid
  import opened Results
  import opened RadialTree
  import opened TreeCuts
  import opened Ancestry
  import opened Inference
  import opened Sequences

  function LineNode(n: NodeId): Node {
    Node(n, if n == 0 then Substation else Meter, 0.4, 0.0, 0.0, {A})
  }

  function LineEdge(n: NodeId): Edge
    requires n > 0
  {
    Edge(n, n - 1, n, Line, true, true, false, false, 0.1, 0.1, {A})
  }

  /** The nodes 0, 1, ..., `depth`, one below the other. */
  function LineNodes(depth: nat): seq<Node> {
    seq(depth + 1, i requires i >= 0 => LineNode(i))
  }

  function LineEdges(depth: nat): seq<Edge> {
    seq(depth, i requires i >= 0 => LineEdge(i + 1))
  }

  function UpTo(depth: nat): (s: set<NodeId>)
    ensures forall n: NodeId :: n in s <==> n <= depth
  {
    if depth == 0 then {0} else UpTo(depth - 1) + {depth}
  }

  lemma LineEdgeIn(depth: nat, e: Edge)
    ensures e in LineEdges(depth) <==> 0 < e.id <= depth && e == LineEdge(e.id)
  {
    if 0 < e.id <= depth && e == LineEdge(e.id) {
      assert LineEdges(depth)[e.id - 1] == e;
    }
  }

  lemma LineNodeIn(depth: nat, n: Node)
    ensures n in LineNodes(depth) <==> n.id <= depth && n == LineNode(n.id)
  {
    if n.id <= depth && n == LineNode(n.id) {
      assert LineNodes(depth)[n.id] == n;
    }
  }

  lemma LineIds(depth: nat)
    ensures NodeIds(LineNodes(depth)) == UpTo(depth)
    ensures Sources(LineNodes(depth)) == {0} && SourceList(LineNodes(depth)) == [0]
  {
    var nodes := LineNodes(depth);
    forall n: NodeId ensures n in NodeIds(nodes) <==> n <= depth {
      LineNodeIn(depth, LineNode(n));
    }
    assert nodes[0] in nodes;
    NoSources(nodes[1..]);
  }

  lemma {:induction false} NoSources(nodes: seq<Node>)
    requires forall n :: n in nodes ==> n.kind != Substation
    ensures SourceList(nodes) == []
  {
    if nodes != [] {
      assert nodes[0] in nodes;
      NoSources(nodes[1..]);
    }
  }

  lemma LineWellFormed(depth: nat)
    ensures WellFormed(LineNodes(depth), LineEdges(depth))
  {
    var edges := LineEdges(depth);
    LineIds(depth);
    hide NodeIds;
    forall e | e in edges ensures e.fromNode in NodeIds(LineNodes(depth)) && e.toNode in NodeIds(LineNodes(depth)) {
      LineEdgeIn(depth, e);
    }
  }

  lemma LineLink(depth: nat, n: NodeId)
    requires 0 < n <= depth
    ensures LineEdge(n) in LineEdges(depth) && Link(n, n - 1, n) in ClosedLinks(LineEdges(depth))
  {
    LineEdgeIn(depth, LineEdge(n));
    assert LinkOf(LineEdge(n)) == Link(n, n - 1, n);
  }

  lemma {:induction false} LineReaches(depth: nat, n: NodeId)
    requires n <= depth
    ensures n in Reach(ClosedLinks(LineEdges(depth)), {0})
  {
    hide Reach, ClosedLinks;
    ReachIsLeast(ClosedLinks(LineEdges(depth)), {0});
    if n > 0 {
      LineReaches(depth, n - 1);
      LineLink(depth, n);
    }
  }

  lemma LineReach(depth: nat)
    ensures Reach(ClosedLinks(LineEdges(depth)), {0}) == UpTo(depth)
  {
    hide Reach, ClosedLinks, WellFormed;
    LineIds(depth);
    LineWellFormed(depth);
    ReachKnown(LineNodes(depth), LineEdges(depth), {0});
    forall n: NodeId | n <= depth ensures n in Reach(ClosedLinks(LineEdges(depth)), {0}) {
      LineReaches(depth, n);
    }
  }

  // ---- every tree of the line ----------------------------------------------

  ghost predicate LineNet(depth: nat, net: Net) {
    IsNet(LineNodes(depth), LineEdges(depth), net)
  }

  lemma LineTreeNodes(depth: nat, net: Net)
    requires LineNet(depth, net)
    ensures IsTree(net.tree) && SubtreesOk(net) && net.tree.root == 0
    ensures forall n: NodeId :: n in net.tree.pathEdges <==> n <= depth
    ensures forall n: NodeId :: n in net.tree.parentEdge <==> 0 < n <= depth
    ensures forall n: NodeId :: n <= depth ==> n in net.byId && net.byId[n] == LineNode(n)
    ensures net.byId.Keys == UpTo(depth)
  {
    hide Reach, Rooted, Below;
    LineReach(depth);
    LineIds(depth);
    assert net.tree.pathEdges.Keys == UpTo(depth);
    forall n: NodeId | n <= depth ensures n in net.byId && net.byId[n] == LineNode(n) {
      LineNodeIn(depth, LineNode(n));
    }
  }

  /** From the far end back, every node hangs by the edge before it. */
  lemma {:induction false} LineParent(depth: nat, net: Net, n: NodeId)
    requires LineNet(depth, net) && 0 < n <= depth
    ensures IsTree(net.tree) && n in net.tree.parentEdge && net.tree.parentEdge[n] == LineEdge(n)
    decreases depth - n
  {
    hide LineNet, LineEdges, SubtreesOk, IsTree;
    LineTreeNodes(depth, net);
    LineParentEdge(depth, net, n);
    if n < depth {
      LineParent(depth, net, n + 1);
      LineParentsApart(net.tree, n, n + 1);
    }
  }

  lemma LineParentsApart(t: Tree, m: NodeId, n: NodeId)
    requires IsTree(t) && m in t.parentEdge && n in t.parentEdge && m != n
    ensures t.parentEdge[m].id != t.parentEdge[n].id
  {
  }

  lemma LineParentEdge(depth: nat, net: Net, n: NodeId)
    requires LineNet(depth, net) && n in net.tree.parentEdge
    ensures var e := net.tree.parentEdge[n]; 0 < e.id <= depth && e == LineEdge(e.id) && (e.id == n || e.id == n + 1)
  {
    hide IsNet, LineEdges, LineNodes;
    ParentLink(LineNodes(depth), LineEdges(depth), net, n);
    LineEdgeIn(depth, net.tree.parentEdge[n]);
  }

  lemma LineStep(t: Tree, n: NodeId)
    requires IsTree(t) && n in t.parentEdge && n > 0 && t.parentEdge[n] == LineEdge(n)
    ensures n in t.pathEdges && n - 1 in t.pathEdges && |t.pathEdges[n]| == |t.pathEdges[n - 1]| + 1
    ensures Chain(t, n) == [n] + Chain(t, n - 1)
  {
    assert Linked(t, n);
  }

  predicate HoldsUpTo(chain: seq<NodeId>, n: NodeId) {
    forall k: NodeId | k <= n :: k in chain
  }

  lemma HoldsOneMore(chain: seq<NodeId>, n: NodeId)
    requires n > 0 && HoldsUpTo(chain, n - 1)
    ensures HoldsUpTo([n] + chain, n)
  {
    forall k: NodeId | k <= n ensures k in [n] + chain {
      if k == n { assert ([n] + chain)[0] == k; }
    }
  }

  lemma {:induction false} LineDepth(depth: nat, net: Net, n: NodeId)
    requires LineNet(depth, net) && n <= depth
    ensures IsTree(net.tree) && n in net.tree.pathEdges && |net.tree.pathEdges[n]| == n
    ensures HoldsUpTo(Chain(net.tree, n), n)
  {
    hide LineNet, SubtreesOk, IsTree, Chain;
    LineTreeNodes(depth, net);
    if n == 0 {
      LineTop(net.tree);
    } else {
      LineDepth(depth, net, n - 1);
      LineParent(depth, net, n);
      LineStep(net.tree, n);
      HoldsOneMore(Chain(net.tree, n - 1), n);
    }
  }

  lemma LineTop(t: Tree)
    requires IsTree(t)
    ensures t.root in t.pathEdges && t.pathEdges[t.root] == [] && Chain(t, t.root) == [t.root]
  {
  }

  const DEEP: nat := 1001

  lemma MoreLackToo(t: Tree, few: seq<NodeId>, many: seq<NodeId>)
    requires IsTree(t) && (forall m :: m in many ==> m in t.pathEdges) && forall m :: m in few ==> m in many
    requires LacksCommon(t, few)
    ensures LacksCommon(t, many)
  {
    hide IsTree, Guarded;
    assert forall a :: GuardedCommon(t, many, a) ==> GuardedCommon(t, few, a);
  }

  /** In every tree of the line the walks of the first and the last meter share no node. */
  lemma EndsAreApart(net: Net, members: seq<NodeId>)
    requires LineNet(DEEP, net) && IsTree(net.tree) && forall m :: m in members ==> m in net.tree.pathEdges
    requires 1 in members && DEEP in members
    ensures LacksCommon(net.tree, members)
  {
    hide LineNet, IsTree, Chain, Guarded, LacksCommon;
    LineDepth(DEEP, net, 1);
    LineDepth(DEEP, net, DEEP);
    AncestorAndNode(net.tree, 1, DEEP);
    MoreLackToo(net.tree, [1, DEEP], members);
  }

  lemma {:induction false} NoTransformer(byId: map<NodeId, Node>, chain: seq<NodeId>)
    requires forall n :: n in byId ==> byId[n].kind != TransformerNode
    ensures FirstTransformer(byId, chain) == None
  {
    if chain != [] { NoTransformer(byId, chain[1..]); }
  }

  lemma LineKinds(net: Net)
    requires LineNet(DEEP, net)
    ensures forall n :: n in net.byId ==> net.byId[n].kind != TransformerNode
  {
    hide LineNet, IsTree, SubtreesOk;
    LineTreeNodes(DEEP, net);
  }

  lemma LineFeeds(net: Net, d: NodeId)
    requires LineNet(DEEP, net) && d <= DEEP
    ensures IsTree(net.tree) && d in net.tree.pathEdges && NearestTransformer(net, d) == None
  {
    hide IsTree, Guarded, SubtreesOk, FirstTransformer, LineNet;
    LineTreeNodes(DEEP, net);
    LineKinds(net);
    NoTransformer(net.byId, Guarded(net.tree, d));
  }

  lemma LineDark(ps: Passes)
    requires GoodPasses(LineNodes(DEEP), LineEdges(DEEP), [1, DEEP], ps)
    ensures LineNet(DEEP, ps.enet) && IsTree(ps.enet.tree) && 1 in ps.primary && DEEP in ps.primary && 1 <= DEEP
    ensures (forall d :: d in ps.primary ==> d in ps.enet.tree.pathEdges) && AreClusters(ps.enet, ps.primary, ps.ec)
  {
    hide IsNet, IsTree, AreClusters, SubtreesOk, LineNodes, LineEdges;
    assert LineNet(DEEP, ps.enet);
    LineTreeNodes(DEEP, ps.enet);
    assert [1, DEEP][0] == 1 && [1, DEEP][1] == DEEP;
  }

  lemma LackMeansNoReport(
      nodes: seq<Node>, edges: seq<Edge>, customers: map<NodeId, int>, seDead: set<NodeId>, ps: Passes, r: Report,
      j: nat)
    requires IsTree(ps.enet.tree) && j < |ps.ec|
    requires (forall m :: m in ps.ec[j].members ==> m in ps.enet.tree.pathEdges)
      && LacksCommon(ps.enet.tree, ps.ec[j].members)
    ensures !GoodReport(nodes, edges, customers, seDead, ps, r)
  {
    hide SubtreesOk, IsTree, GuardedCommon, SectionOk, DeviceFor, Confidence;
    var ctx := Context(Meters(nodes), customers, seDead, Energized, {});
    assert PassesFit(ps) && |ps.ec| <= |r.outages| ==> !IsOutage(ps.enet, ctx, ps.ec[j], r.outages[..|ps.ec|][j]);
  }

  /** With both of these meters dark, nothing is a report of `infer`: it raises, whatever
      tree it grows. */
  lemma LineCannotBeInferred(customers: map<NodeId, int>, seDead: set<NodeId>, ps: Passes, r: Report)
    requires GoodPasses(LineNodes(DEEP), LineEdges(DEEP), [1, DEEP], ps)
    ensures !GoodReport(LineNodes(DEEP), LineEdges(DEEP), customers, seDead, ps, r)
  {
    hide *;
    LineDark(ps);
    var j := ClusterOf(ps.enet, ps.primary, ps.ec, 1);
    LineFeeds(ps.enet, 1);
    LineFeeds(ps.enet, DEEP);
    EndsAreApart(ps.enet, ps.ec[j].members);
    LackMeansNoReport(LineNodes(DEEP), LineEdges(DEEP), customers, seDead, ps, r, j);
  }

  // ---- the tree that is grown ----------------------------------------------

  function LinePath(n: NodeId): (path: seq<Edge>)
    ensures |path| == n
  {
    if n == 0 then [] else LinePath(n - 1) + [LineEdge(n)]
  }

  function LineTree(depth: nat): Tree {
    var order := seq(depth + 1, i => i);
    Tree(0, order, map n | n in order && n != 0 :: LineEdge(n), map n | n in order :: LinePath(n))
  }

  lemma LineTreeAt(depth: nat, n: NodeId)
    ensures n in LineTree(depth).pathEdges <==> n <= depth
    ensures n <= depth ==> LineTree(depth).pathEdges[n] == LinePath(n)
    ensures n in LineTree(depth).parentEdge <==> 0 < n <= depth
    ensures 0 < n <= depth ==> LineTree(depth).parentEdge[n] == LineEdge(n)
  {
    hide LinePath;
    if n <= depth { assert LineTree(depth).order[n] == n; }
  }

  lemma LineIsTree(depth: nat)
    ensures IsTree(LineTree(depth))
  {
    var t := LineTree(depth);
    forall n: NodeId ensures n in t.pathEdges <==> n <= depth {
      LineTreeAt(depth, n);
    }
    forall n: NodeId ensures n in t.parentEdge <==> 0 < n <= depth {
      LineTreeAt(depth, n);
    }
    forall n: NodeId | 0 < n <= depth ensures Linked(t, n) && t.parentEdge[n].id == n {
      LineTreeAt(depth, n);
      LineTreeAt(depth, n - 1);
    }
    hide Linked;
    LineTreeAt(depth, 0);
  }

  lemma LineParentOk(depth: nat, i: nat)
    requires 0 < i <= depth
    ensures var t := LineTree(depth);
      |t.order| == depth + 1 && t.order[i] == i && i in t.parentEdge
      && ParentOk(LineEdges(depth), t.parentEdge[i], i, t.order[..i])
  {
    hide LineEdges, LinePath;
    LineLink(depth, i);
    LineTreeAt(depth, i);
    assert LineTree(depth).order[..i][i - 1] == i - 1;
  }

  lemma LineIsRooted(depth: nat)
    ensures var t := LineTree(depth); Rooted(LineEdges(depth), 0, t.order, t.parentEdge)
    ensures Elems(LineTree(depth).order) == LineTree(depth).Nodes()
  {
    hide LineEdges, LinePath, ParentOk;
    var t := LineTree(depth);
    forall i: nat | 0 < i < |t.order|
      ensures t.order[i] in t.parentEdge
      ensures ParentOk(LineEdges(depth), t.parentEdge[t.order[i]], t.order[i], t.order[..i])
    {
      LineParentOk(depth, i);
    }
  }

  ghost function LineBuilt(depth: nat): Net {
    LineIsTree(depth);
    var t := LineTree(depth);
    Net(t, map n | n in t.order :: LineNode(n), map n | n in t.parentEdge :: n := Below(t, n),
      map n | n in t.parentEdge :: n := PerUnit(LineEdge(n), LineNode(n)))
  }

  lemma LineEntry(depth: nat, n: NodeId)
    requires 0 < n <= depth
    ensures IsTree(LineTree(depth)) && n in LineTree(depth).parentEdge && n in LineTree(depth).order
    ensures LineTree(depth).parentEdge[n] == LineEdge(n) && n in LineBuilt(depth).byId
    ensures n in LineBuilt(depth).subtree && LineBuilt(depth).subtree[n] == Below(LineTree(depth), n)
    ensures n in LineBuilt(depth).pu && LineBuilt(depth).byId[n] == LineNode(n)
    ensures LineBuilt(depth).pu[n] == PerUnit(LineEdge(n), LineNode(n))
  {
    LineIsTree(depth);
    hide Below, PerUnit, IsTree, LinePath;
    LineTreeAt(depth, n);
    assert LineTree(depth).order[n] == n;
  }

  lemma LineKeys(depth: nat)
    ensures var net := LineBuilt(depth);
      && net.tree == LineTree(depth) && net.subtree.Keys == net.pu.Keys == net.tree.parentEdge.Keys
      && net.byId.Keys == net.tree.Nodes()
      && net.tree.parentEdge.Keys == set n | n in net.tree.parentEdge :: net.tree.parentEdge[n].id
  {
    LineIsTree(depth);
    hide Below, PerUnit, IsTree, LinePath;
    var net := LineBuilt(depth);
    forall n | n in net.tree.parentEdge ensures net.tree.parentEdge[n].id == n {
      LineTreeAt(depth, n);
    }
  }

  lemma LineSubtrees(depth: nat)
    ensures SubtreesOk(LineBuilt(depth))
  {
    hide Below, LineTree, PerUnit, IsTree, LineBuilt;
    var net := LineBuilt(depth);
    LineIsTree(depth);
    LineKeys(depth);
    forall n | n in net.tree.parentEdge
      ensures n in net.subtree && n in net.pu && net.tree.parentEdge[n].id == n && net.subtree[n] == Below(net.tree, n)
      ensures n in net.byId && net.pu[n] == PerUnit(net.tree.parentEdge[n], net.byId[n])
    {
      LineTreeAt(depth, n);
      LineEntry(depth, n);
    }
  }

  lemma LineIsNet(depth: nat)
    ensures LineNet(depth, LineBuilt(depth))
  {
    LineSubtrees(depth);
    hide Reach, Below, Rooted, SubtreesOk, ClosedLinks, PerUnit;
    var net := LineBuilt(depth);
    LineIds(depth);
    LineReach(depth);
    LineIsRooted(depth);
    forall n: NodeId ensures n in net.tree.Nodes() <==> n <= depth {
      LineTreeAt(depth, n);
    }
    forall n | n in LineNodes(depth) ensures net.byId[n.id] == n {
      LineNodeIn(depth, n);
    }
  }

  /** The depth guard cuts a cluster on this feeder. */
  lemma LineIsCut()
    ensures WellFormed(LineNodes(DEEP), LineEdges(DEEP))
    ensures GuardCuts(LineNodes(DEEP), LineEdges(DEEP), [1, DEEP])
  {
    hide *;
    LineWellFormed(DEEP);
    LineIsNet(DEEP);
    LinePass(LineBuilt(DEEP));
  }

  lemma LinePass(net: Net)
    requires LineNet(DEEP, net)
    ensures GuardCuts(LineNodes(DEEP), LineEdges(DEEP), [1, DEEP])
  {
    hide IsNet, IsTree, SubtreesOk, LineNodes, LineEdges, LacksCommon, NearestTransformer, Chain;
    var part := [1, DEEP];
    var cs := [Cluster(None, part)];
    LineFeeds(net, 1);
    LineFeeds(net, DEEP);
    assert part[0] == 1 && part[1] == DEEP;
    EndsAreApart(net, part);
    assert cs[0].members == part;
    KeptAll(part, Elems(part));
    assert CutPass(LineNodes(DEEP), LineEdges(DEEP), part, net, part, cs);
  }
}

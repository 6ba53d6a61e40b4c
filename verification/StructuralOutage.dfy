/** The structural pass: outages already visible as an opened device. */
module StructuralOutage {
  import opened Graph
  import opened Grid
  import opened Results
  import opened RadialTree
  import opened TreeCuts
  import opened Ancestry
  import opened Inference

  /** The edge of that id stands closed in the network as it is. */
  ghost predicate StandsClosed(edges: seq<Edge>, id: EdgeId) {
    exists e :: e in edges && e.id == id && e.isClosed
  }

  /** The edge of that id is a normally-closed device standing open. */
  ghost predicate StandsOpen(edges: seq<Edge>, id: EdgeId) {
    exists e :: e in edges && e.id == id && !e.isClosed && e.normallyClosed
  }

  /** Every path edge from `n` up to, but not including, the edge above `k` stands closed. */
  ghost predicate ClosedBetween(edges: seq<Edge>, t: Tree, n: NodeId, k: NodeId)
    requires IsTree(t) && n in t.pathEdges && k in t.pathEdges
  {
    forall j :: j in Chain(t, n) && j in t.parentEdge && |t.pathEdges[j]| > |t.pathEdges[k]| ==>
      StandsClosed(edges, t.parentEdge[j].id)
  }

  /** A structural tree edge that is not marked open is a closed link of the network. */
  lemma UnmarkedIsClosed(nodes: seq<Node>, edges: seq<Edge>, snet: Net, n: NodeId)
    requires WellFormed(nodes, edges) && IsNet(nodes, StructuralEdges(edges), snet) && n in snet.tree.parentEdge
    ensures snet.tree.parentEdge[n].id in OpenIds(edges) ==> StandsOpen(edges, snet.tree.parentEdge[n].id)
    ensures snet.tree.parentEdge[n].id !in OpenIds(edges) ==>
      StandsClosed(edges, snet.tree.parentEdge[n].id) && LinkOf(snet.tree.parentEdge[n]) in ClosedLinks(edges)
  {
    hide IsNet, WellFormed, Below;
    var f := snet.tree.parentEdge[n];
    ParentLink(nodes, StructuralEdges(edges), snet, n);
    var e :| e in edges && e.normallyClosed && f == e.(isClosed := true);
    if e.isClosed { assert LinkOf(e) in ClosedLinks(edges); }
  }

  /** Without an opened device on the way a node would still be energized. */
  lemma {:induction false} NoneOpenMeansLive(nodes: seq<Node>, edges: seq<Edge>, snet: Net, n: NodeId)
    requires WellFormed(nodes, edges) && IsNet(nodes, StructuralEdges(edges), snet) && n in snet.tree.pathEdges
    requires IsTree(snet.tree) && FirstOpen(snet.tree, OpenIds(edges), n) == None
    ensures n in Reach(ClosedLinks(edges), {snet.tree.root})
    decreases |snet.tree.pathEdges[n]|
  {
    hide IsNet, WellFormed, Reach, ClosedLinks, OpenIds;
    var t := snet.tree;
    ReachIsLeast(ClosedLinks(edges), {t.root});
    if n != t.root {
      assert Linked(t, n);
      NoneOpenMeansLive(nodes, edges, snet, t.Parent(n));
      UnmarkedIsClosed(nodes, edges, snet, n);
    }
  }

  /** Between the first opened device and the node, every path edge stands closed. */
  lemma {:induction false} ClosedBelowDevice(
      nodes: seq<Node>, edges: seq<Edge>, snet: Net, n: NodeId) returns (k: NodeId)
    requires WellFormed(nodes, edges) && IsNet(nodes, StructuralEdges(edges), snet) && n in snet.tree.pathEdges
    requires IsTree(snet.tree) && FirstOpen(snet.tree, OpenIds(edges), n).Some?
    ensures k in snet.tree.parentEdge && k in snet.tree.pathEdges && k in Chain(snet.tree, n)
    ensures FirstOpen(snet.tree, OpenIds(edges), n) == Some(snet.tree.parentEdge[k])
    ensures StandsOpen(edges, snet.tree.parentEdge[k].id)
    ensures ClosedBetween(edges, snet.tree, n, k)
    decreases |snet.tree.pathEdges[n]|
  {
    hide IsNet, WellFormed, OpenIds, StandsOpen, StandsClosed;
    var t := snet.tree;
    assert Linked(t, n);
    UnmarkedIsClosed(nodes, edges, snet, n);
    if t.parentEdge[n].id in OpenIds(edges) {
      k := n;
      forall j | j in Chain(t, n) && j in t.pathEdges ensures |t.pathEdges[j]| <= |t.pathEdges[n]| {
        ChainAbove(t, j, n);
      }
    } else {
      k := ClosedBelowDevice(nodes, edges, snet, t.Parent(n));
      assert Chain(t, n) == [n] + Chain(t, t.Parent(n));
    }
  }

  /** A structural-pass outage whose common ancestor is dark names an opened
      normally-closed device on the ancestor's root path, with only closed edges between. */
  lemma DeviceIsFirstOpen(nodes: seq<Node>, edges: seq<Edge>, snet: Net, ctx: Context, c: Cluster, o: Outage)
    requires WellFormed(nodes, edges) && IsNet(nodes, StructuralEdges(edges), snet) && SubtreesOk(snet)
    requires ctx.source == Structural && ctx.open == OpenIds(edges)
    requires (forall m :: m in c.members ==> m in snet.tree.pathEdges) && IsOutage(snet, ctx, c, o)
    requires o.lca in snet.tree.pathEdges && o.lca !in Reach(ClosedLinks(edges), {snet.tree.root})
    ensures exists k ::
      && k in snet.tree.parentEdge && k in snet.tree.pathEdges && k in Chain(snet.tree, o.lca)
      && o.device == Some(snet.tree.parentEdge[k]) && StandsOpen(edges, snet.tree.parentEdge[k].id)
      && o.section == Below(snet.tree, k)
      && ClosedBetween(edges, snet.tree, o.lca, k)
  {
    hide IsNet, WellFormed, Below, Reach, OpenIds, StandsOpen, StandsClosed, IsGuardedLca, IsTree;
    TreeOf(snet);
    if FirstOpen(snet.tree, ctx.open, o.lca).None? {
      NoneOpenMeansLive(nodes, edges, snet, o.lca);
    } else {
      var k := ClosedBelowDevice(nodes, edges, snet, o.lca);
      SubtreeOfParentEdge(snet, k);
      assert o.device == Some(snet.tree.parentEdge[k]);
    }
  }
}

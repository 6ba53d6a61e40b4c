/** What one outage does to the tree: the subtree below a tree edge against the nodes
    that lose supply when that edge is opened. */
module TreeCuts {
  import opened Graph
  import opened Grid
  import opened RadialTree
  import opened Sequences

  /** Every closed edge but `e`. */
  ghost function Without(edges: seq<Edge>, e: Edge): set<Link> {
    ClosedLinks(edges) - {LinkOf(e)}
  }

  lemma ParentLink(nodes: seq<Node>, edges: seq<Edge>, net: Net, k: NodeId)
    requires IsNet(nodes, edges, net) && k in net.tree.parentEdge
    ensures net.tree.parentEdge[k] in edges && LinkOf(net.tree.parentEdge[k]) in ClosedLinks(edges)
    ensures Joins(LinkOf(net.tree.parentEdge[k]), net.tree.Parent(k), k)
    ensures net.tree.Parent(k) in net.tree.pathEdges
  {
    var t := net.tree;
    assert Linked(t, k);
    assert k in Elems(t.order);
    var i :| 0 <= i < |t.order| && t.order[i] == k;
    assert ParentOk(edges, t.parentEdge[t.order[i]], t.order[i], t.order[..i]);
  }

  /** Whatever else is closed, the nodes outside the subtree keep their tree path. */
  lemma {:induction false} OutsideKeepsSupply(nodes: seq<Node>, edges: seq<Edge>, net: Net, n: NodeId, k: NodeId)
    requires IsNet(nodes, edges, net) && n in net.tree.parentEdge
    requires k in net.tree.Nodes() && k !in Below(net.tree, n)
    ensures k in Reach(Without(edges, net.tree.parentEdge[n]), {net.tree.root})
    decreases |net.tree.pathEdges[k]|
  {
    hide Reach, Rooted, ClosedLinks;
    var t := net.tree;
    var E' := Without(edges, t.parentEdge[n]);
    ReachIsLeast(E', {t.root});
    if k != t.root {
      assert Linked(t, k);
      ParentLink(nodes, edges, net, k);
      RootOutside(t, n);
      TreeLinkStaysOnOneSide(t, n, k);
      OutsideKeepsSupply(nodes, edges, net, n, t.Parent(k));
      assert LinkOf(t.parentEdge[k]) in E';
    }
  }

  ghost function TreeLinks(t: Tree): set<Link> {
    set k | k in t.parentEdge :: LinkOf(t.parentEdge[k])
  }

  lemma TreeLinkIn(t: Tree, k: NodeId)
    requires k in t.parentEdge
    ensures LinkOf(t.parentEdge[k]) in TreeLinks(t)
  {
  }

  lemma TreeLinkFrom(t: Tree, l: Link) returns (k: NodeId)
    requires l in TreeLinks(t)
    ensures k in t.parentEdge && l == LinkOf(t.parentEdge[k])
  {
    k :| k in t.parentEdge && l == LinkOf(t.parentEdge[k]);
  }

  /** Without loops every energized closed edge is some node's parent edge. */
  lemma RadialIsTreeLinks(nodes: seq<Node>, edges: seq<Edge>, net: Net)
    requires IsNet(nodes, edges, net) && Slack(ClosedLinks(edges), {net.tree.root}) == 0
    ensures Within(ClosedLinks(edges), net.tree.Nodes()) == TreeLinks(net.tree)
  {
    var t := net.tree;
    var W := Within(ClosedLinks(edges), t.Nodes());
    var K := t.parentEdge.Keys;
    var image := set k | k in K :: LinkOf(t.parentEdge[k]);
    forall k | k in K ensures LinkOf(t.parentEdge[k]) in W {
      ParentLink(nodes, edges, net, k);
    }
    ImageSize(t, K);
    assert image <= W;
    assert |K| == |t.Nodes()| - 1;
    SubsetSameSize(image, W);
  }

  lemma {:induction false} ImageSize(t: Tree, K: set<NodeId>)
    requires IsTree(t) && K <= t.parentEdge.Keys
    ensures |(set k | k in K :: LinkOf(t.parentEdge[k]))| == |K|
    decreases |K|
  {
    if K != {} {
      var x :| x in K;
      ImageSize(t, K - {x});
      var small := set k | k in K - {x} :: LinkOf(t.parentEdge[k]);
      assert LinkOf(t.parentEdge[x]) !in small;
      assert (set k | k in K :: LinkOf(t.parentEdge[k])) == small + {LinkOf(t.parentEdge[x])};
    }
  }

  lemma SubsetSameSize<T>(a: set<T>, b: set<T>)
    requires a <= b && |a| == |b|
    ensures a == b
  {
    assert |b - a| == |b| - |a|;
  }

  ghost predicate Crosses(l: Link, C: set<NodeId>) {
    (l.a in C) != (l.b in C)
  }

  /** On any feeder, opening a tree edge cuts off exactly the subtree below it just when
      no other closed edge leaves that subtree. */
  lemma CutIsSubtreeIff(nodes: seq<Node>, edges: seq<Edge>, net: Net, n: NodeId)
    requires IsNet(nodes, edges, net) && n in net.tree.parentEdge
    ensures
      var E' := Without(edges, net.tree.parentEdge[n]);
      Reach(E', {net.tree.root}) == net.tree.Nodes() - Below(net.tree, n)
      <==> forall l :: l in E' && l.a in net.tree.Nodes() ==> !Crosses(l, Below(net.tree, n))
  {
    hide Reach, Rooted, Below, Chain;
    var t := net.tree;
    var E, E', B := ClosedLinks(edges), Without(edges, t.parentEdge[n]), Below(t, n);
    forall k | k in t.Nodes() - B ensures k in Reach(E', {t.root}) {
      OutsideKeepsSupply(nodes, edges, net, n, k);
    }
    RootOutside(t, n);
    CutIff(E, E', t.root, B);
  }

  lemma CutIff(E: set<Link>, E': set<Link>, root: NodeId, B: set<NodeId>)
    requires E' <= E && root !in B && Reach(E, {root}) - B <= Reach(E', {root})
    ensures Reach(E', {root}) == Reach(E, {root}) - B
      <==> forall l :: l in E' && l.a in Reach(E, {root}) ==> !Crosses(l, B)
  {
    hide Reach;
    var R := Reach(E, {root});
    ReachIsLeast(E, {root});
    ReachIsLeast(E', {root});
    ReachMonotone(E', {root}, E, {root});
    if forall l :: l in E' && l.a in R ==> !Crosses(l, B) {
      assert Closed(E', R - B);
    } else {
      var l :| l in E' && l.a in R && Crosses(l, B);
      assert l.a in Reach(E', {root}) <==> l.b in Reach(E', {root});
    }
  }

  lemma RootOutside(t: Tree, n: NodeId)
    requires IsTree(t) && n in t.parentEdge
    ensures t.root !in Below(t, n) && n in Below(t, n)
  {
  }

  lemma TreeLinkStaysOnOneSide(t: Tree, n: NodeId, k: NodeId)
    requires IsTree(t) && n in t.parentEdge && k in t.parentEdge && k != n
    ensures t.Parent(k) in t.Nodes() && (k in Below(t, n) <==> t.Parent(k) in Below(t, n))
  {
  }

  /** The outage theorem: on a radial feeder the nodes that lose supply when a tree edge
      is opened are exactly the subtree the tree builder recorded for that edge. */
  lemma OutageIsSubtree(nodes: seq<Node>, edges: seq<Edge>, net: Net, n: NodeId)
    requires IsNet(nodes, edges, net) && n in net.tree.parentEdge
    requires Slack(ClosedLinks(edges), {net.tree.root}) == 0
    ensures Reach(Without(edges, net.tree.parentEdge[n]), {net.tree.root})
         == net.tree.Nodes() - net.subtree[net.tree.parentEdge[n].id]
  {
    var t := net.tree;
    var E := ClosedLinks(edges);
    hide Reach, Rooted, Below, Chain, ClosedLinks, Slack, Crosses;
    forall l | l in Without(edges, t.parentEdge[n]) && l.a in t.Nodes() ensures !Crosses(l, Below(t, n)) {
      OtherLinkStays(nodes, edges, net, n, l);
    }
    CutIsSubtreeIff(nodes, edges, net, n);
  }

  lemma OtherLinkStays(nodes: seq<Node>, edges: seq<Edge>, net: Net, n: NodeId, l: Link)
    requires IsNet(nodes, edges, net) && n in net.tree.parentEdge
    requires Slack(ClosedLinks(edges), {net.tree.root}) == 0
    requires l in Without(edges, net.tree.parentEdge[n]) && l.a in net.tree.Nodes()
    ensures !Crosses(l, Below(net.tree, n))
  {
    hide Reach, Rooted, Below, Chain, ClosedLinks, Slack;
    var t := net.tree;
    RadialIsTreeLinks(nodes, edges, net);
    ReachIsLeast(ClosedLinks(edges), {t.root});
    assert l in Within(ClosedLinks(edges), t.Nodes());
    var k :| k in t.parentEdge && l == LinkOf(t.parentEdge[k]);
    TreeLinkStaysOnOneSide(t, n, k);
    assert Linked(t, k);
  }

  // ---- one tree only -------------------------------------------------------

  lemma NetFacts(nodes: seq<Node>, edges: seq<Edge>, net: Net)
    requires IsNet(nodes, edges, net)
    ensures SubtreesOk(net) && IsTree(net.tree) && net.tree.root in net.tree.Nodes()
    ensures SourceList(nodes) != [] && net.tree.root == SourceList(nodes)[0]
    ensures net.tree.Nodes() == Reach(ClosedLinks(edges), {net.tree.root})
    ensures net.tree.parentEdge.Keys == net.tree.Nodes() - {net.tree.root}
  {
  }

  lemma SharedEdge(nodes: seq<Node>, edges: seq<Edge>, a: Net, b: Net, k: NodeId) returns (m: NodeId)
    requires IsNet(nodes, edges, a) && IsNet(nodes, edges, b) && UniqueIds(edges)
    requires Slack(ClosedLinks(edges), {a.tree.root}) == 0 && k in a.tree.parentEdge
    ensures m in b.tree.parentEdge && b.tree.parentEdge[m] == a.tree.parentEdge[k]
  {
    hide *;
    NetFacts(nodes, edges, a);
    NetFacts(nodes, edges, b);
    var l := LinkOf(a.tree.parentEdge[k]);
    RadialIsTreeLinks(nodes, edges, a);
    RadialIsTreeLinks(nodes, edges, b);
    TreeLinkIn(a.tree, k);
    assert a.tree.root == b.tree.root && a.tree.Nodes() == b.tree.Nodes();
    m := TreeLinkFrom(b.tree, l);
    ParentLink(nodes, edges, a, k);
    ParentLink(nodes, edges, b, m);
    SameLinkSameEdge(edges, a.tree.parentEdge[k], b.tree.parentEdge[m]);
  }

  lemma SameLinkSameEdge(edges: seq<Edge>, e: Edge, f: Edge)
    requires UniqueIds(edges) && e in edges && f in edges && LinkOf(e) == LinkOf(f)
    ensures e == f
  {
    SameEdge(edges, e, f);
  }

  /** Opening the edge cuts off the same nodes whichever tree records it, so both trees
      hang the same child from it. */
  lemma SameChild(nodes: seq<Node>, edges: seq<Edge>, a: Net, b: Net, k: NodeId, m: NodeId)
    requires IsNet(nodes, edges, a) && IsNet(nodes, edges, b)
    requires Slack(ClosedLinks(edges), {a.tree.root}) == 0
    requires k in a.tree.parentEdge && m in b.tree.parentEdge && b.tree.parentEdge[m] == a.tree.parentEdge[k]
    ensures m == k
  {
    hide IsNet, SubtreesOk, IsTree, Reach, Below, ClosedLinks, Slack, Within, Without;
    NetFacts(nodes, edges, a);
    NetFacts(nodes, edges, b);
    if m != k {
      ParentLink(nodes, edges, a, k);
      ParentLink(nodes, edges, b, m);
      OutageIsSubtree(nodes, edges, a, k);
      OutageIsSubtree(nodes, edges, b, m);
      RootOutside(b.tree, m);
      BelowInside(a, k);
      BelowInside(b, m);
      ParentOutside(a.tree, k);
    }
  }

  lemma SameParentEdge(nodes: seq<Node>, edges: seq<Edge>, a: Net, b: Net, k: NodeId)
    requires IsNet(nodes, edges, a) && IsNet(nodes, edges, b) && UniqueIds(edges)
    requires Slack(ClosedLinks(edges), {a.tree.root}) == 0 && k in a.tree.parentEdge
    ensures k in b.tree.parentEdge && b.tree.parentEdge[k] == a.tree.parentEdge[k]
  {
    hide *;
    var m := SharedEdge(nodes, edges, a, b, k);
    SameChild(nodes, edges, a, b, k, m);
  }

  lemma BelowInside(net: Net, k: NodeId)
    requires SubtreesOk(net) && k in net.tree.parentEdge
    ensures net.tree.parentEdge[k].id in net.subtree
    ensures net.subtree[net.tree.parentEdge[k].id] == Below(net.tree, k) <= net.tree.Nodes()
  {
  }

  lemma ParentOutside(t: Tree, k: NodeId)
    requires IsTree(t) && k in t.parentEdge
    ensures t.Parent(k) !in Below(t, k)
  {
    assert Linked(t, k);
    if t.Parent(k) in Below(t, k) { ChainAbove(t, k, t.Parent(k)); }
  }

  lemma SameEdge(edges: seq<Edge>, e: Edge, f: Edge)
    requires UniqueIds(edges) && e in edges && f in edges && e.id == f.id
    ensures e == f
  {
  }

  lemma {:induction false} SamePath(a: Tree, b: Tree, k: NodeId)
    requires IsTree(a) && IsTree(b) && a.root == b.root && a.parentEdge == b.parentEdge && k in a.pathEdges
    ensures k in b.pathEdges && b.pathEdges[k] == a.pathEdges[k]
    decreases |a.pathEdges[k]|
  {
    if k != a.root {
      assert Linked(a, k) && Linked(b, k);
      SamePath(a, b, a.Parent(k));
    }
  }

  /** On a radial feeder the tree does not depend on the order of the walk: any two valid
      trees have the same parent edges, root paths and subtrees. */
  lemma RadialTreeIsUnique(nodes: seq<Node>, edges: seq<Edge>, a: Net, b: Net)
    requires IsNet(nodes, edges, a) && IsNet(nodes, edges, b) && UniqueIds(edges)
    requires Slack(ClosedLinks(edges), {a.tree.root}) == 0
    ensures a.tree.root == b.tree.root && a.tree.parentEdge == b.tree.parentEdge && a.tree.pathEdges == b.tree.pathEdges
    ensures a.subtree == b.subtree && a.pu == b.pu
  {
    hide IsNet, SubtreesOk, IsTree, Reach, ClosedLinks, Slack;
    NetFacts(nodes, edges, a);
    NetFacts(nodes, edges, b);
    forall k | k in a.tree.parentEdge ensures b.tree.parentEdge[k] == a.tree.parentEdge[k] {
      SameParentEdge(nodes, edges, a, b, k);
    }
    forall k | k in a.tree.pathEdges ensures b.tree.pathEdges[k] == a.tree.pathEdges[k] {
      SamePath(a.tree, b.tree, k);
    }
    SameSubtrees(nodes, edges, a, b);
  }

  lemma SubtreeKeys(net: Net)
    requires SubtreesOk(net)
    ensures net.subtree.Keys == net.pu.Keys == (set n | n in net.tree.parentEdge :: net.tree.parentEdge[n].id)
    ensures net.tree.Nodes() <= net.byId.Keys
    ensures forall n :: n in net.tree.parentEdge ==>
      net.pu[net.tree.parentEdge[n].id] == PerUnit(net.tree.parentEdge[n], net.byId[n])
  {
  }

  lemma SameSubtree(nodes: seq<Node>, edges: seq<Edge>, a: Net, b: Net, n: NodeId)
    requires IsNet(nodes, edges, a) && IsNet(nodes, edges, b) && n in a.tree.parentEdge
    requires Slack(ClosedLinks(edges), {a.tree.root}) == 0
    requires a.tree.root == b.tree.root && a.tree.parentEdge == b.tree.parentEdge
    requires a.tree.pathEdges == b.tree.pathEdges
    ensures var id := a.tree.parentEdge[n].id;
      && id in a.subtree && id in b.subtree && a.subtree[id] == b.subtree[id]
      && id in a.pu && id in b.pu && a.pu[id] == b.pu[id]
  {
    hide IsNet, SubtreesOk, IsTree, Reach, Below, ClosedLinks, Slack, PerUnit, Without;
    NetFacts(nodes, edges, a);
    NetFacts(nodes, edges, b);
    SubtreeKeys(a);
    SubtreeKeys(b);
    OutageIsSubtree(nodes, edges, a, n);
    OutageIsSubtree(nodes, edges, b, n);
    BelowInside(a, n);
    BelowInside(b, n);
    SameNodeRecord(nodes, edges, a, b, n);
  }

  lemma SameSubtrees(nodes: seq<Node>, edges: seq<Edge>, a: Net, b: Net)
    requires IsNet(nodes, edges, a) && IsNet(nodes, edges, b)
    requires Slack(ClosedLinks(edges), {a.tree.root}) == 0
    requires a.tree.root == b.tree.root && a.tree.parentEdge == b.tree.parentEdge
    requires a.tree.pathEdges == b.tree.pathEdges
    ensures a.subtree == b.subtree && a.pu == b.pu
  {
    hide *;
    NetFacts(nodes, edges, a);
    NetFacts(nodes, edges, b);
    SubtreeKeys(a);
    SubtreeKeys(b);
    forall id | id in a.subtree ensures a.subtree[id] == b.subtree[id] && a.pu[id] == b.pu[id] {
      var n :| n in a.tree.parentEdge && a.tree.parentEdge[n].id == id;
      SameSubtree(nodes, edges, a, b, n);
    }
  }

  lemma SameNodeRecord(nodes: seq<Node>, edges: seq<Edge>, a: Net, b: Net, n: NodeId)
    requires IsNet(nodes, edges, a) && IsNet(nodes, edges, b) && n in a.tree.parentEdge
    ensures n in a.byId && n in b.byId && a.byId[n] == b.byId[n]
  {
    hide Reach, Rooted, Below;
    assert n in NodeIds(nodes);
    var x :| x in nodes && x.id == n;
  }
}

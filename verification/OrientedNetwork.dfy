/** What an oriented network gives the directed walk: no directed loops, a spanning tree
    of parents, and a walk from the root that finds its whole component. */
module OrientedNetwork {
  import opened Graph
  import opened Grid
  import opened Orientation
  import opened Downstream

  /** Consecutive nodes are joined by oriented edges that are not self-loops. */
  ghost predicate IsRun(oriented: seq<Edge>, p: seq<NodeId>) {
    p != [] && forall i :: 0 <= i < |p| - 1 ==> p[i] != p[i + 1] && Leads(AllLinks(oriented), p[i], p[i + 1])
  }

  lemma OrientedStep(
      edges: seq<Edge>, root: NodeId, discovery: map<NodeId, nat>, parent: map<NodeId, NodeId>,
      oriented: seq<Edge>, m: NodeId, n: NodeId)
    requires IsDiscovery(edges, root, discovery, parent) && IsOriented(edges, discovery, oriented)
    requires m in discovery && m != n && Leads(AllLinks(oriented), m, n)
    ensures n in discovery && discovery[m] < discovery[n]
  {
    var E := AllLinks(edges);
    ReachIsLeast(E, {root});
    var e :| e in oriented && LinkOf(e).a == m && LinkOf(e).b == n;
    var i :| 0 <= i < |oriented| && oriented[i] == e;
    assert LinkOf(edges[i]) in E;
  }

  /** A run from a reached node climbs the discovery numbers, so it never comes back:
      the edges between reached nodes form no directed loop. */
  lemma {:induction false} RunsNeverReturn(
      edges: seq<Edge>, root: NodeId, discovery: map<NodeId, nat>, parent: map<NodeId, NodeId>,
      oriented: seq<Edge>, p: seq<NodeId>)
    requires IsDiscovery(edges, root, discovery, parent) && IsOriented(edges, discovery, oriented)
    requires IsRun(oriented, p) && p[0] in discovery
    ensures forall i :: 0 <= i < |p| ==> p[i] in discovery
    ensures forall i, j :: 0 <= i < j < |p| ==> discovery[p[i]] < discovery[p[j]]
    ensures forall i, j :: 0 <= i < j < |p| ==> p[i] != p[j]
  {
    hide IsDiscovery, IsOriented, AllLinks, Leads;
    if |p| > 1 {
      var k := |p| - 1;
      RunsNeverReturn(edges, root, discovery, parent, oriented, p[..k]);
      assert p[..k][k - 1] == p[k - 1];
      OrientedStep(edges, root, discovery, parent, oriented, p[k - 1], p[k]);
      assert forall i :: 0 <= i < k ==> p[..k][i] == p[i];
    }
  }

  // ---- the hierarchy -------------------------------------------------------

  ghost function ParentLinks(parent: map<NodeId, NodeId>, K: set<NodeId>): set<Link>
    requires K <= parent.Keys
  {
    set n | n in K :: Link(n, parent[n], n)
  }

  lemma {:induction false} ParentLinksCount(parent: map<NodeId, NodeId>, K: set<NodeId>)
    requires K <= parent.Keys
    ensures |ParentLinks(parent, K)| == |K|
  {
    if K != {} {
      var n :| n in K;
      ParentLinksCount(parent, K - {n});
      assert ParentLinks(parent, K) == ParentLinks(parent, K - {n}) + {Link(n, parent[n], n)};
    }
  }

  lemma {:induction false} ParentLinksReach(
      edges: seq<Edge>, root: NodeId, discovery: map<NodeId, nat>, parent: map<NodeId, NodeId>, n: NodeId)
    requires IsDiscovery(edges, root, discovery, parent) && n in discovery
    ensures n in Reach(ParentLinks(parent, parent.Keys), {root})
    decreases discovery[n]
  {
    var T := ParentLinks(parent, parent.Keys);
    ReachIsLeast(T, {root});
    if n != root {
      assert FoundFrom(edges, discovery, parent[n], n);
      ParentLinksReach(edges, root, discovery, parent, parent[n]);
      assert Link(n, parent[n], n) in T;
    }
  }

  /** Parent links are edges of the network, join all of the root's component, and form
      a tree: one fewer than its nodes, and none of them closes a loop. */
  lemma ParentsSpan(
      edges: seq<Edge>, root: NodeId, discovery: map<NodeId, nat>, parent: map<NodeId, NodeId>)
    requires IsDiscovery(edges, root, discovery, parent)
    ensures forall n :: n in parent ==> Meets(edges, parent[n], n)
    ensures Reach(ParentLinks(parent, parent.Keys), {root}) == Reach(AllLinks(edges), {root})
    ensures |ParentLinks(parent, parent.Keys)| == |Reach(AllLinks(edges), {root})| - 1
    ensures RadialForest(ParentLinks(parent, parent.Keys), {root})
  {
    hide Reach, RadialForest;
    var T, D := ParentLinks(parent, parent.Keys), discovery.Keys;
    forall n | n in parent ensures parent[n] in D && Meets(edges, parent[n], n) {
      assert FoundFrom(edges, discovery, parent[n], n);
    }
    assert Closed(T, D);
    ReachIsLeast(T, {root});
    forall n | n in D ensures n in Reach(T, {root}) { ParentLinksReach(edges, root, discovery, parent, n); }
    assert Reach(T, {root}) == D;
    ParentLinksCount(parent, parent.Keys);
    assert Within(T, D) == T;
    NoSlackIffForest(T, {root});
  }

  // ---- the walk ------------------------------------------------------------

  lemma {:induction false} DownFindsReached(
      edges: seq<Edge>, root: NodeId, discovery: map<NodeId, nat>, parent: map<NodeId, NodeId>,
      oriented: seq<Edge>, n: NodeId)
    requires IsDiscovery(edges, root, discovery, parent) && IsOriented(edges, discovery, oriented)
    requires n in discovery
    ensures n in Down(Followed(oriented, false), {root})
    decreases discovery[n]
  {
    hide Reach, Down;
    var E := Followed(oriented, false);
    DownIsLeast(E, {root});
    if n != root {
      var m := parent[n];
      assert FoundFrom(edges, discovery, m, n);
      DownFindsReached(edges, root, discovery, parent, oriented, m);
      var e :| e in edges && Joins(LinkOf(e), m, n);
      var i :| 0 <= i < |edges| && edges[i] == e;
      assert oriented[i] in oriented;
      assert LinkOf(oriented[i]) in E;
    }
  }

  lemma OrientedBack(edges: seq<Edge>, discovery: map<NodeId, nat>, oriented: seq<Edge>, l: Link, closedOnly: bool)
    requires IsOriented(edges, discovery, oriented) && l in Followed(oriented, closedOnly)
    ensures exists k :: k in Followed(edges, closedOnly) && Joins(k, l.a, l.b)
  {
    var e :| e in oriented && (closedOnly ==> e.isClosed) && LinkOf(e) == l;
    var i :| 0 <= i < |oriented| && oriented[i] == e;
    var k := LinkOf(edges[i]);
    assert k in Followed(edges, closedOnly) && Joins(k, l.a, l.b);
  }

  /** The walk never leaves what undirected edges of the same kind reach. */
  lemma DownStaysInside(
      edges: seq<Edge>, discovery: map<NodeId, nat>, oriented: seq<Edge>, root: NodeId, closedOnly: bool)
    requires IsOriented(edges, discovery, oriented)
    ensures Down(Followed(oriented, closedOnly), {root}) <= Reach(Followed(edges, closedOnly), {root})
  {
    var D, R := Followed(oriented, closedOnly), Reach(Followed(edges, closedOnly), {root});
    ReachIsLeast(Followed(edges, closedOnly), {root});
    DownIsLeast(D, {root});
    forall l | l in D && l.a in R ensures l.b in R {
      OrientedBack(edges, discovery, oriented, l, closedOnly);
    }
  }

  /** Ignoring switch positions, the walk from the root visits exactly its component. */
  lemma DownstreamIsComponent(
      edges: seq<Edge>, root: NodeId, discovery: map<NodeId, nat>, parent: map<NodeId, NodeId>, oriented: seq<Edge>)
    requires IsDiscovery(edges, root, discovery, parent) && IsOriented(edges, discovery, oriented)
    ensures Down(Followed(oriented, false), {root}) == Reach(AllLinks(edges), {root})
  {
    assert Followed(edges, false) == AllLinks(edges);
    DownStaysInside(edges, discovery, oriented, root, false);
    forall n | n in discovery ensures n in Down(Followed(oriented, false), {root}) {
      DownFindsReached(edges, root, discovery, parent, oriented, n);
    }
  }

  /** Some closed edge, not a self-loop, is oriented into `n`. */
  ghost predicate Fed(oriented: seq<Edge>, n: NodeId) {
    exists e :: e in oriented && e.isClosed && e.toNode == n && e.fromNode != n
  }

  ghost predicate AllFed(edges: seq<Edge>, oriented: seq<Edge>, root: NodeId) {
    forall n :: n in Reach(ClosedLinks(edges), {root}) && n != root ==> Fed(oriented, n)
  }

  lemma FeederIsEarlier(
      edges: seq<Edge>, root: NodeId, discovery: map<NodeId, nat>, parent: map<NodeId, NodeId>,
      oriented: seq<Edge>, n: NodeId) returns (m: NodeId)
    requires IsDiscovery(edges, root, discovery, parent) && IsOriented(edges, discovery, oriented)
    requires n in Reach(ClosedLinks(edges), {root}) && Fed(oriented, n)
    ensures m in Reach(ClosedLinks(edges), {root}) && Leads(Followed(oriented, true), m, n)
    ensures m in discovery && n in discovery && discovery[m] < discovery[n]
  {
    var E, C := AllLinks(edges), ClosedLinks(edges);
    var e :| e in oriented && e.isClosed && e.toNode == n && e.fromNode != n;
    m := e.fromNode;
    assert LinkOf(e) in Followed(oriented, true);
    assert Followed(edges, true) == C;
    OrientedBack(edges, discovery, oriented, LinkOf(e), true);
    ReachIsLeast(C, {root});
    ReachMonotone(C, {root}, E, {root});
    hide Reach, IsOriented;
    assert m in Reach(C, {root});
    assert LinkOf(e) in AllLinks(oriented) && Leads(AllLinks(oriented), m, n);
    OrientedStep(edges, root, discovery, parent, oriented, m, n);
  }

  lemma {:induction false} FedIsVisited(
      edges: seq<Edge>, root: NodeId, discovery: map<NodeId, nat>, parent: map<NodeId, NodeId>,
      oriented: seq<Edge>, n: NodeId)
    requires IsDiscovery(edges, root, discovery, parent) && IsOriented(edges, discovery, oriented)
    requires AllFed(edges, oriented, root) && n in Reach(ClosedLinks(edges), {root}) && n in discovery
    ensures n in Down(Followed(oriented, true), {root})
    decreases discovery[n]
  {
    hide Reach, Down, IsDiscovery, IsOriented, Followed, Fed;
    DownIsLeast(Followed(oriented, true), {root});
    if n != root {
      var m := FeederIsEarlier(edges, root, discovery, parent, oriented, n);
      FedIsVisited(edges, root, discovery, parent, oriented, m);
    }
  }

  lemma UnfedIsMissed(oriented: seq<Edge>, root: NodeId, n: NodeId)
    requires n != root && !Fed(oriented, n)
    ensures n !in Down(Followed(oriented, true), {root})
  {
    var D := Followed(oriented, true);
    DownIsLeast(D, {root});
    var V := Down(D, {root}) - {n};
    hide Down;
    forall l | l in D && l.a in V ensures l.b in V {
      var e :| e in oriented && e.isClosed && LinkOf(e) == l;
    }
    assert DownClosed(D, V);
  }

  /** Following closed edges only, the walk finds every energized node exactly when each
      of them but the root has a closed edge oriented into it from another node. */
  lemma EnergizedWalkIff(
      edges: seq<Edge>, root: NodeId, discovery: map<NodeId, nat>, parent: map<NodeId, NodeId>, oriented: seq<Edge>)
    requires IsDiscovery(edges, root, discovery, parent) && IsOriented(edges, discovery, oriented)
    ensures Down(Followed(oriented, true), {root}) <= Reach(ClosedLinks(edges), {root})
    ensures Down(Followed(oriented, true), {root}) == Reach(ClosedLinks(edges), {root})
       <==> AllFed(edges, oriented, root)
  {
    hide Reach, Down, IsOriented, Fed;
    var V, R := Down(Followed(oriented, true), {root}), Reach(ClosedLinks(edges), {root});
    assert Followed(edges, true) == ClosedLinks(edges);
    DownStaysInside(edges, discovery, oriented, root, true);
    if AllFed(edges, oriented, root) {
      ReachIsLeast(AllLinks(edges), {root});
      ReachMonotone(ClosedLinks(edges), {root}, AllLinks(edges), {root});
      forall n | n in R ensures n in V { FedIsVisited(edges, root, discovery, parent, oriented, n); }
    } else {
      var n :| n in R && n != root && !Fed(oriented, n);
      UnfedIsMissed(oriented, root, n);
    }
  }

  function Plain(id: EdgeId, fromNode: NodeId, toNode: NodeId, closed: bool): Edge {
    Edge(id, fromNode, toNode, Switch, closed, closed, true, false, 0.0, 0.0, {})
  }

  function TiedFeeder(): seq<Edge> {
    [Plain(0, 0, 1, false), Plain(1, 0, 2, true), Plain(2, 2, 1, true)]
  }

  function TiedNumbers(): map<NodeId, nat> {
    map[0 := 0, 1 := 1, 2 := 2]
  }

  lemma TiedLinks()
    ensures AllLinks(TiedFeeder()) == {Link(0, 0, 1), Link(1, 0, 2), Link(2, 2, 1)}
    ensures ClosedLinks(TiedFeeder()) == {Link(1, 0, 2), Link(2, 2, 1)}
    ensures Meets(TiedFeeder(), 0, 1) && Meets(TiedFeeder(), 0, 2)
  {
    var edges := TiedFeeder();
    assert edges[0] in edges && edges[1] in edges && edges[2] in edges;
    assert Joins(LinkOf(edges[0]), 0, 1) && Joins(LinkOf(edges[1]), 0, 2);
  }

  lemma TiedReach(E: set<Link>)
    requires {Link(1, 0, 2), Link(2, 2, 1)} <= E <= {Link(0, 0, 1), Link(1, 0, 2), Link(2, 2, 1)}
    ensures Reach(E, {0}) == {0, 1, 2}
  {
  }

  lemma TiedFeederNumbered()
    ensures IsDiscovery(TiedFeeder(), 0, TiedNumbers(), map[1 := 0, 2 := 0])
  {
    hide Reach, TiedFeeder, Meets, AllLinks;
    TiedLinks();
    TiedReach(AllLinks(TiedFeeder()));
    assert FoundFrom(TiedFeeder(), TiedNumbers(), 0, 1) && FoundFrom(TiedFeeder(), TiedNumbers(), 0, 2);
  }

  lemma TiedOriented(oriented: seq<Edge>)
    requires IsOriented(TiedFeeder(), TiedNumbers(), oriented)
    ensures Followed(oriented, true) == {Link(1, 0, 2), Link(2, 1, 2)}
  {
    assert oriented == [Plain(0, 0, 1, false), Plain(1, 0, 2, true), Plain(2, 1, 2, true)];
    assert oriented[1] in oriented && oriented[2] in oriented;
  }

  /** A radial feeder 0 - 2 - 1 with an open tie 0 - 1 listed first: the search numbers 1
      through the tie, the closed edge between 2 and 1 is turned away from 1, and the
      walk over closed edges misses node 1 although it is energized. */
  lemma OpenTieHidesNode(oriented: seq<Edge>)
    requires IsOriented(TiedFeeder(), TiedNumbers(), oriented)
    ensures IsDiscovery(TiedFeeder(), 0, TiedNumbers(), map[1 := 0, 2 := 0])
    ensures 1 in Reach(ClosedLinks(TiedFeeder()), {0}) && 1 !in Down(Followed(oriented, true), {0})
  {
    TiedFeederNumbered();
    TiedLinks();
    TiedReach(ClosedLinks(TiedFeeder()));
    TiedOriented(oriented);
    hide *;
    DownIsLeast(Followed(oriented, true), {0});
    TiedWalk();
  }

  lemma TiedWalk()
    ensures Down({Link(1, 0, 2), Link(2, 1, 2)}, {0}) <= {0, 2}
  {
  }
}

/** The network model the analytics share: nodes, edges, and the worklist that finds
    what the substations energize. A switch position is a field of the edge; an absent
    `nominal_kv`, resistance or load is the zero the source replaces it by. */
module Grid {
  import opened Graph

  datatype NodeKind = Substation | TransformerNode | Meter | Load | OtherNode
  datatype EdgeKind = Line | Transformer | Switch | Tie | OtherEdge
  datatype Phase = A | B | C

  datatype Node = Node(
    id: NodeId, kind: NodeKind, nominalKv: real, baseLoadKw: real, baseLoadKvar: real, phases: set<Phase>)

  datatype Edge = Edge(
    id: EdgeId, fromNode: NodeId, toNode: NodeId, kind: EdgeKind,
    isClosed: bool, normallyClosed: bool, isSwitchable: bool, islandingBreaker: bool,
    resistanceOhm: real, reactanceOhm: real, phases: set<Phase>)

  function LinkOf(e: Edge): Link {
    Link(e.id, e.fromNode, e.toNode)
  }

  function NodeIds(nodes: seq<Node>): set<NodeId> {
    set n | n in nodes :: n.id
  }

  function Sources(nodes: seq<Node>): set<NodeId> {
    set n | n in nodes && n.kind == Substation :: n.id
  }

  ghost function ClosedLinks(edges: seq<Edge>): set<Link> {
    set e | e in edges && e.isClosed :: LinkOf(e)
  }

  ghost predicate UniqueIds(edges: seq<Edge>) {
    forall i, j :: 0 <= i < j < |edges| ==> edges[i].id != edges[j].id
  }

  /** What a network must satisfy: ids are unique and edges name known nodes. */
  ghost predicate WellFormed(nodes: seq<Node>, edges: seq<Edge>) {
    && (forall i, j :: 0 <= i < j < |nodes| ==> nodes[i].id != nodes[j].id)
    && UniqueIds(edges)
    && (forall e :: e in edges ==> e.fromNode in NodeIds(nodes) && e.toNode in NodeIds(nodes))
  }

  /** Nodes joined to some substation by closed edges. */
  ghost function EnergizedBy(nodes: seq<Node>, edges: seq<Edge>): set<NodeId> {
    Reach(ClosedLinks(edges), Sources(nodes))
  }

  lemma ReachKnown(nodes: seq<Node>, edges: seq<Edge>, S: set<NodeId>)
    requires WellFormed(nodes, edges) && S <= NodeIds(nodes)
    ensures Reach(ClosedLinks(edges), S) <= NodeIds(nodes)
  {
    ReachIsLeast(ClosedLinks(edges), S);
    assert Closed(ClosedLinks(edges), NodeIds(nodes));
  }

  // ---- adjacency and the worklist ------------------------------------------

  datatype Arc = Arc(to: NodeId, via: Edge)

  ghost predicate IsArc(edges: seq<Edge>, n: NodeId, arc: Arc) {
    arc.via in edges && arc.via.isClosed && Joins(LinkOf(arc.via), n, arc.to)
  }

  ghost predicate IsAdjacency(nodes: seq<Node>, edges: seq<Edge>, adj: map<NodeId, seq<Arc>>) {
    && adj.Keys == NodeIds(nodes)
    && forall n, arc :: n in adj ==> (arc in adj[n] <==> IsArc(edges, n, arc))
  }

  method BuildAdjacency(nodes: seq<Node>, edges: seq<Edge>) returns (adj: map<NodeId, seq<Arc>>)
    requires WellFormed(nodes, edges)
    ensures IsAdjacency(nodes, edges, adj)
  {
    adj := map n | n in NodeIds(nodes) :: [];
    for i := 0 to |edges|
      invariant IsAdjacency(nodes, edges[..i], adj)
    {
      var e := edges[i];
      assert edges[..i + 1] == edges[..i] + [e];
      if e.isClosed {
        assert e in edges;
        adj := adj[e.fromNode := adj[e.fromNode] + [Arc(e.toNode, e)]];
        adj := adj[e.toNode := adj[e.toNode] + [Arc(e.fromNode, e)]];
      }
    }
    assert edges[..|edges|] == edges;
  }

  function Targets(arcs: seq<Arc>): set<NodeId> {
    set arc | arc in arcs :: arc.to
  }

  /** One visit of the worklist: every neighbour not seen yet is marked and pushed. */
  method PushUnseen(arcs: seq<Arc>, seen0: set<NodeId>, stack0: seq<NodeId>)
    returns (seen: set<NodeId>, stack: seq<NodeId>)
    ensures seen == seen0 + Targets(arcs)
    ensures stack0 <= stack && (seen == seen0 ==> stack == stack0)
    ensures forall n :: n in stack <==> n in stack0 || n in seen - seen0
  {
    seen, stack := seen0, stack0;
    for i := 0 to |arcs|
      invariant seen == seen0 + Targets(arcs[..i])
      invariant stack0 <= stack && (seen == seen0 ==> stack == stack0)
      invariant forall n :: n in stack <==> n in stack0 || n in seen - seen0
    {
      assert arcs[..i + 1] == arcs[..i] + [arcs[i]];
      if arcs[i].to !in seen {
        seen := seen + {arcs[i].to};
        stack := stack + [arcs[i].to];
      }
    }
    assert arcs[..|arcs|] == arcs;
  }

  ghost predicate Explored(adj: map<NodeId, seq<Arc>>, seen: set<NodeId>, stack: seq<NodeId>) {
    forall n :: n in seen && n !in stack ==> n in adj && Targets(adj[n]) <= seen
  }

  lemma Popped(stack: seq<NodeId>)
    requires stack != []
    ensures stack == stack[..|stack| - 1] + [stack[|stack| - 1]]
  {
  }

  lemma VisitKeepsExplored(
      adj: map<NodeId, seq<Arc>>, seen: set<NodeId>, rest: seq<NodeId>, cur: NodeId,
      seen': set<NodeId>, stack': seq<NodeId>, known: set<NodeId>)
    requires Explored(adj, seen, rest + [cur]) && cur in seen && cur in adj
    requires seen' == seen + Targets(adj[cur]) && seen' <= known
    requires forall n :: n in stack' <==> n in rest || n in seen' - seen
    ensures Explored(adj, seen', stack')
    ensures seen' != seen ==> known - seen' < known - seen
  {
    forall n | n in seen' && n !in stack' ensures n in adj && Targets(adj[n]) <= seen' {
      if n != cur { assert n !in rest + [cur]; }
    }
    if seen' != seen {
      assert !(seen' <= seen);
      var x :| x in seen' && x !in seen;
      assert x in known - seen && x !in known - seen';
    }
  }

  lemma TargetsReached(nodes: seq<Node>, edges: seq<Edge>, adj: map<NodeId, seq<Arc>>, S: set<NodeId>, n: NodeId)
    requires IsAdjacency(nodes, edges, adj) && n in adj && n in Reach(ClosedLinks(edges), S)
    ensures Targets(adj[n]) <= Reach(ClosedLinks(edges), S)
  {
    ReachIsLeast(ClosedLinks(edges), S);
    forall arc | arc in adj[n] ensures arc.to in Reach(ClosedLinks(edges), S) {
      assert IsArc(edges, n, arc);
      assert LinkOf(arc.via) in ClosedLinks(edges);
    }
  }

  lemma ExploredIsClosed(nodes: seq<Node>, edges: seq<Edge>, adj: map<NodeId, seq<Arc>>, seen: set<NodeId>)
    requires IsAdjacency(nodes, edges, adj) && WellFormed(nodes, edges) && Explored(adj, seen, [])
    ensures Closed(ClosedLinks(edges), seen)
  {
    forall l | l in ClosedLinks(edges) ensures l.a in seen <==> l.b in seen {
      var e :| e in edges && e.isClosed && LinkOf(e) == l;
      assert IsArc(edges, l.a, Arc(l.b, e)) && IsArc(edges, l.b, Arc(l.a, e));
      assert Arc(l.b, e) in adj[l.a] && Arc(l.a, e) in adj[l.b];
      if l.a in seen { assert Arc(l.b, e).to in Targets(adj[l.a]); }
      if l.b in seen { assert Arc(l.a, e).to in Targets(adj[l.b]); }
    }
  }

  /** The closed edges `w` lead from `s` to `n`, each taken in either direction. */
  ghost predicate RunsTo(edges: seq<Edge>, s: NodeId, w: seq<Edge>, n: NodeId)
    decreases |w|
  {
    if w == [] then s == n
    else
      var e := w[|w| - 1];
      && e in edges && e.isClosed
      && ((e.toNode == n && RunsTo(edges, s, w[..|w| - 1], e.fromNode))
          || (e.fromNode == n && RunsTo(edges, s, w[..|w| - 1], e.toNode)))
  }

  ghost predicate Supplied(nodes: seq<Node>, edges: seq<Edge>, n: NodeId) {
    exists node, w :: node in nodes && node.kind == Substation && RunsTo(edges, node.id, w, n)
  }

  lemma {:induction false} RunIsWalk(edges: seq<Edge>, s: NodeId, w: seq<Edge>, n: NodeId)
    requires RunsTo(edges, s, w, n)
    ensures Walkable(ClosedLinks(edges), {s}, n)
    decreases |w|
  {
    if w == [] {
      assert IsWalk(ClosedLinks(edges), s, [], n);
    } else {
      var e := w[|w| - 1];
      var m := if e.toNode == n && RunsTo(edges, s, w[..|w| - 1], e.fromNode) then e.fromNode else e.toNode;
      RunIsWalk(edges, s, w[..|w| - 1], m);
      WalkExtends(ClosedLinks(edges), {s}, LinkOf(e), m, n);
    }
  }

  lemma {:induction false} WalkIsRun(edges: seq<Edge>, s: NodeId, w: seq<Link>, n: NodeId) returns (p: seq<Edge>)
    requires IsWalk(ClosedLinks(edges), s, w, n)
    ensures RunsTo(edges, s, p, n)
    decreases |w|
  {
    if w == [] {
      p := [];
    } else {
      var l := w[|w| - 1];
      var m :| Joins(l, m, n) && IsWalk(ClosedLinks(edges), s, w[..|w| - 1], m);
      var e :| e in edges && e.isClosed && LinkOf(e) == l;
      var before := WalkIsRun(edges, s, w[..|w| - 1], m);
      p := before + [e];
      assert p[..|p| - 1] == before;
    }
  }

  /** A node is energized exactly when closed edges lead to it from a substation. */
  lemma EnergizedIff(nodes: seq<Node>, edges: seq<Edge>, n: NodeId)
    ensures n in EnergizedBy(nodes, edges) <==> Supplied(nodes, edges, n)
  {
    hide Reach, RunsTo, IsWalk, ClosedLinks;
    ReachIffWalk(ClosedLinks(edges), Sources(nodes), n);
    if n in EnergizedBy(nodes, edges) {
      var s, w :| s in Sources(nodes) && IsWalk(ClosedLinks(edges), s, w, n);
      var p := WalkIsRun(edges, s, w, n);
      var node :| node in nodes && node.kind == Substation && node.id == s;
      assert RunsTo(edges, node.id, p, n);
    }
    if Supplied(nodes, edges, n) {
      var node, w :| node in nodes && node.kind == Substation && RunsTo(edges, node.id, w, n);
      RunIsWalk(edges, node.id, w, n);
      var s, v :| s in {node.id} && IsWalk(ClosedLinks(edges), s, v, n);
    }
  }

  /** The worklist of `_energized`, started from every substation at once. */
  method FindEnergized(nodes: seq<Node>, edges: seq<Edge>) returns (seen: set<NodeId>)
    requires WellFormed(nodes, edges)
    ensures seen == EnergizedBy(nodes, edges)
  {
    var adj := BuildAdjacency(nodes, edges);
    ghost var E, S := ClosedLinks(edges), Sources(nodes);
    ReachIsLeast(E, S);
    ReachKnown(nodes, edges, S);
    var stack := SourceList(nodes);
    seen := Sources(nodes);
    while stack != []
      invariant S <= seen <= Reach(E, S)
      invariant forall n :: n in stack ==> n in seen
      invariant Explored(adj, seen, stack)
      decreases NodeIds(nodes) - seen, |stack|
    {
      var cur, rest := stack[|stack| - 1], stack[..|stack| - 1];
      Popped(stack);
      TargetsReached(nodes, edges, adj, S, cur);
      ghost var seen0 := seen;
      seen, stack := PushUnseen(adj[cur], seen, rest);
      VisitKeepsExplored(adj, seen0, rest, cur, seen, stack, NodeIds(nodes));
    }
    ExploredIsClosed(nodes, edges, adj, seen);
  }

  function SourceList(nodes: seq<Node>): (s: seq<NodeId>)
    ensures forall n :: n in s <==> n in Sources(nodes)
    ensures |s| <= |nodes|
  {
    if nodes == [] then []
    else if nodes[0].kind == Substation then [nodes[0].id] + SourceList(nodes[1..])
    else SourceList(nodes[1..])
  }

  lemma {:induction false} SourceListCounts(nodes: seq<Node>)
    requires forall i, j :: 0 <= i < j < |nodes| ==> nodes[i].id != nodes[j].id
    ensures |SourceList(nodes)| == |Sources(nodes)|
  {
    if nodes != [] {
      var n, rest := nodes[0], nodes[1..];
      SourceListCounts(rest);
      if n.kind == Substation {
        assert Sources(nodes) == Sources(rest) + {n.id};
        assert n.id !in Sources(rest);
      } else {
        assert Sources(nodes) == Sources(rest);
      }
    }
  }

  // ---- the radiality test --------------------------------------------------

  /** Closed edges with both ends energized, counted along the edge list. */
  function CountInside(edges: seq<Edge>, energized: set<NodeId>): nat {
    if edges == [] then 0
    else
      (if Inside(edges[0], energized) then 1 else 0)
      + CountInside(edges[1..], energized)
  }

  predicate IsRadial(nodes: seq<Node>, edges: seq<Edge>, energized: set<NodeId>) {
    CountInside(edges, energized) <= |energized| - |SourceList(nodes)|
  }

  lemma {:induction false} CountInsideIsWithin(edges: seq<Edge>, R: set<NodeId>)
    requires UniqueIds(edges)
    ensures CountInside(edges, R) == |Within(ClosedLinks(edges), R)|
  {
    if edges != [] {
      CountInsideIsWithin(edges[1..], R);
      WithinCons(edges, R);
      hide Within, ClosedLinks, UniqueIds;
    }
  }

  predicate Inside(e: Edge, R: set<NodeId>) {
    e.isClosed && e.fromNode in R && e.toNode in R
  }

  lemma WithinCons(edges: seq<Edge>, R: set<NodeId>)
    requires edges != [] && UniqueIds(edges)
    ensures LinkOf(edges[0]) !in ClosedLinks(edges[1..])
    ensures Within(ClosedLinks(edges), R)
         == Within(ClosedLinks(edges[1..]), R) + if Inside(edges[0], R) then {LinkOf(edges[0])} else {}
    ensures LinkOf(edges[0]) !in Within(ClosedLinks(edges[1..]), R)
  {
    assert forall f :: f in edges <==> f == edges[0] || f in edges[1..];
  }

  lemma RadialMeansNoSlack(nodes: seq<Node>, edges: seq<Edge>)
    requires WellFormed(nodes, edges)
    ensures IsRadial(nodes, edges, EnergizedBy(nodes, edges)) <==> Slack(ClosedLinks(edges), Sources(nodes)) == 0
  {
    CountInsideIsWithin(edges, EnergizedBy(nodes, edges));
    SourceListCounts(nodes);
    SlackNonNegative(ClosedLinks(edges), Sources(nodes));
  }

  /** The edge count is exact for any number of substations, and can never fall below
      the bound it is compared with. */
  lemma RadialTestIsExact(nodes: seq<Node>, edges: seq<Edge>)
    requires WellFormed(nodes, edges)
    ensures CountInside(edges, EnergizedBy(nodes, edges)) >= |EnergizedBy(nodes, edges)| - |SourceList(nodes)|
    ensures IsRadial(nodes, edges, EnergizedBy(nodes, edges)) <==> RadialForest(ClosedLinks(edges), Sources(nodes))
  {
    RadialMeansNoSlack(nodes, edges);
    NoSlackIffForest(ClosedLinks(edges), Sources(nodes));
    CountInsideIsWithin(edges, EnergizedBy(nodes, edges));
    SourceListCounts(nodes);
    SlackNonNegative(ClosedLinks(edges), Sources(nodes));
  }
}

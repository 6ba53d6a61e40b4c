/** The topology importer's orientation of an undirected network, the voltage levels it
    carries along, and the directed walk that other modules make over the result. */
module Orientation {
  import opened Graph
  import opened Grid
  import opened Results
  import opened Worklist
  import opened Sequences

  class NodeRecord {
    const nodeId: NodeId
    var parentId: Option<NodeId>
    var nominalKv: Option<real>

    constructor (nodeId: NodeId)
      ensures this.nodeId == nodeId && parentId == None && nominalKv == None
    {
      this.nodeId := nodeId;
      parentId, nominalKv := None, None;
    }
  }

  ghost predicate DistinctIds(nodes: seq<NodeRecord>) {
    forall i, j :: 0 <= i < j < |nodes| ==> nodes[i].nodeId != nodes[j].nodeId
  }

  function Ids(nodes: seq<NodeRecord>): set<NodeId> {
    set r | r in nodes :: r.nodeId
  }

  function RecordsById(nodes: seq<NodeRecord>): (m: map<NodeId, NodeRecord>)
    requires DistinctIds(nodes)
    ensures m.Keys == Ids(nodes)
    ensures forall n :: n in m ==> m[n] in nodes && m[n].nodeId == n
  {
    map x | x in nodes :: x.nodeId := x
  }

  ghost predicate EdgesWithin(edges: seq<Edge>, ids: set<NodeId>) {
    forall e :: e in edges ==> e.fromNode in ids && e.toNode in ids
  }

  /** Every edge as a link, whatever the position of its switch. */
  ghost function AllLinks(edges: seq<Edge>): set<Link> {
    set e | e in edges :: LinkOf(e)
  }

  ghost predicate Meets(edges: seq<Edge>, m: NodeId, n: NodeId) {
    exists e :: e in edges && Joins(LinkOf(e), m, n)
  }

  ghost predicate IsNeighbours(ids: set<NodeId>, edges: seq<Edge>, adj: map<NodeId, seq<NodeId>>) {
    adj.Keys == ids && forall m, n :: m in adj ==> (n in adj[m] <==> Meets(edges, m, n))
  }

  method BuildNeighbours(ids: set<NodeId>, edges: seq<Edge>) returns (adj: map<NodeId, seq<NodeId>>)
    requires EdgesWithin(edges, ids)
    ensures IsNeighbours(ids, edges, adj)
  {
    adj := map n | n in ids :: [];
    for i := 0 to |edges|
      invariant IsNeighbours(ids, edges[..i], adj)
    {
      var e := edges[i];
      ghost var before := adj;
      adj := adj[e.fromNode := adj[e.fromNode] + [e.toNode]];
      adj := adj[e.toNode := adj[e.toNode] + [e.fromNode]];
      assert edges[..i + 1] == edges[..i] + [e];
      forall m, n | m in adj ensures n in adj[m] <==> Meets(edges[..i + 1], m, n) {
        assert n in adj[m] <==> n in before[m] || Joins(LinkOf(e), m, n);
        assert Meets(edges[..i + 1], m, n) <==> Meets(edges[..i], m, n) || Joins(LinkOf(e), m, n);
      }
    }
    assert edges[..|edges|] == edges;
  }

  // ---- discovery -----------------------------------------------------------

  /** A partial search: `order` lists what was found, `discovery` inverts it, and every
      node but the root was found from an earlier neighbour. */
  ghost predicate IsSearch(
    edges: seq<Edge>, root: NodeId, discovery: map<NodeId, nat>, order: seq<NodeId>, parent: map<NodeId, NodeId>)
  {
    && order != [] && order[0] == root
    && (forall i :: 0 <= i < |order| ==> order[i] in discovery && discovery[order[i]] == i)
    && (forall n :: n in discovery ==> discovery[n] < |order| && order[discovery[n]] == n)
    && parent.Keys == discovery.Keys - {root}
    && (forall n :: n in parent ==> FoundFrom(edges, discovery, parent[n], n))
  }

  ghost predicate FoundFrom(edges: seq<Edge>, discovery: map<NodeId, nat>, m: NodeId, n: NodeId) {
    m in discovery && n in discovery && discovery[m] < discovery[n] && Meets(edges, m, n)
  }

  /** What the finished search leaves: numbers that tell reached nodes apart and a
      parent, numbered lower, for each of them but the root. */
  ghost predicate IsDiscovery(
    edges: seq<Edge>, root: NodeId, discovery: map<NodeId, nat>, parent: map<NodeId, NodeId>)
  {
    && discovery.Keys == Reach(AllLinks(edges), {root})
    && root in discovery
    && (forall m, n :: m in discovery && n in discovery && discovery[m] == discovery[n] ==> m == n)
    && parent.Keys == discovery.Keys - {root}
    && (forall n :: n in parent ==> FoundFrom(edges, discovery, parent[n], n))
  }

  lemma FindOne(
      edges: seq<Edge>, root: NodeId, discovery: map<NodeId, nat>, order: seq<NodeId>,
      parent: map<NodeId, NodeId>, cur: NodeId, nxt: NodeId)
    requires IsSearch(edges, root, discovery, order, parent)
    requires cur in discovery && nxt !in discovery && Meets(edges, cur, nxt)
    ensures IsSearch(edges, root, discovery[nxt := |order|], order + [nxt], parent[nxt := cur])
  {
    var discovery', parent' := discovery[nxt := |order|], parent[nxt := cur];
    forall n | n in parent' ensures FoundFrom(edges, discovery', parent'[n], n) {
      if n != nxt { assert FoundFrom(edges, discovery, parent[n], n); }
    }
  }

  lemma SearchIsDiscovery(
      ids: set<NodeId>, edges: seq<Edge>, adj: map<NodeId, seq<NodeId>>, root: NodeId,
      discovery: map<NodeId, nat>, order: seq<NodeId>, parent: map<NodeId, NodeId>)
    requires EdgesWithin(edges, ids) && IsNeighbours(ids, edges, adj)
    requires IsSearch(edges, root, discovery, order, parent) && discovery.Keys <= ids
    requires Scanned(adj, discovery.Keys, Elems([]))
    ensures IsDiscovery(edges, root, discovery, parent)
  {
    var E, D := AllLinks(edges), discovery.Keys;
    ReachIsLeast(E, {root});
    forall l | l in E ensures l.a in D <==> l.b in D {
      var e :| e in edges && LinkOf(e) == l;
      assert Joins(l, l.a, l.b) && Joins(l, l.b, l.a);
      assert Meets(edges, l.a, l.b) && Meets(edges, l.b, l.a);
    }
    assert Closed(E, D);
    assert order[0] == root;
    forall i | 0 <= i < |order| ensures order[i] in Reach(E, {root}) {
      FoundIsReached(edges, root, discovery, order, parent, i);
    }
    forall n | n in D ensures n in Reach(E, {root}) { assert order[discovery[n]] == n; }
    assert D == Reach(E, {root});
  }

  lemma {:induction false} FoundIsReached(
      edges: seq<Edge>, root: NodeId, discovery: map<NodeId, nat>, order: seq<NodeId>,
      parent: map<NodeId, NodeId>, i: nat)
    requires IsSearch(edges, root, discovery, order, parent) && i < |order|
    ensures order[i] in Reach(AllLinks(edges), {root})
  {
    var E, n := AllLinks(edges), order[i];
    ReachIsLeast(E, {root});
    if n != root {
      var m := parent[n];
      assert FoundFrom(edges, discovery, m, n);
      FoundIsReached(edges, root, discovery, order, parent, discovery[m]);
      var e :| e in edges && Joins(LinkOf(e), m, n);
      assert LinkOf(e) in E;
    }
  }

  function OrientEdge(e: Edge, discovery: map<NodeId, nat>): Edge {
    if e.fromNode !in discovery || e.toNode !in discovery || discovery[e.fromNode] <= discovery[e.toNode] then e
    else e.(fromNode := e.toNode, toNode := e.fromNode)
  }

  ghost predicate IsOriented(edges: seq<Edge>, discovery: map<NodeId, nat>, oriented: seq<Edge>) {
    |oriented| == |edges| && forall i :: 0 <= i < |edges| ==> oriented[i] == OrientEdge(edges[i], discovery)
  }

  datatype Import = Import(edges: seq<Edge>, unreached: set<NodeId>)

  function ParentIds(nodes: seq<NodeRecord>): (s: seq<Option<NodeId>>)
    reads nodes
    ensures |s| == |nodes|
  {
    seq(|nodes|, i requires 0 <= i < |nodes| reads nodes => nodes[i].parentId)
  }

  ghost predicate ParentsWritten(nodes: seq<NodeRecord>, parent: map<NodeId, NodeId>, before: seq<Option<NodeId>>)
    requires |before| == |nodes|
    reads nodes
  {
    forall i :: 0 <= i < |nodes| ==>
      nodes[i].parentId == if nodes[i].nodeId in parent then Some(parent[nodes[i].nodeId]) else before[i]
  }

  method SetParent(nodes: seq<NodeRecord>, n: NodeId, cur: NodeId,
                   ghost parent: map<NodeId, NodeId>, ghost before: seq<Option<NodeId>>)
    requires DistinctIds(nodes) && n in Ids(nodes)
    requires |before| == |nodes| && ParentsWritten(nodes, parent, before)
    modifies nodes`parentId
    ensures ParentsWritten(nodes, parent[n := cur], before)
  {
    RecordsById(nodes)[n].parentId := Some(cur);
  }

  /** One visit of the search: every neighbour not found yet is numbered, given its
      parent and pushed. */
  method Visit(nodes: seq<NodeRecord>, ghost edges: seq<Edge>, ghost root: NodeId,
               adj: map<NodeId, seq<NodeId>>, cur: NodeId,
               found0: map<NodeId, nat>, order0: seq<NodeId>, stack0: seq<NodeId>,
               ghost parent0: map<NodeId, NodeId>, ghost before: seq<Option<NodeId>>)
    returns (found: map<NodeId, nat>, order: seq<NodeId>, stack: seq<NodeId>, ghost parent: map<NodeId, NodeId>)
    requires DistinctIds(nodes) && IsNeighbours(Ids(nodes), edges, adj) && EdgesWithin(edges, Ids(nodes))
    requires found0.Keys <= Ids(nodes) && cur in found0
    requires IsSearch(edges, root, found0, order0, parent0)
    requires Scanned(adj, found0.Keys, {cur} + Elems(stack0))
    requires |before| == |nodes| && ParentsWritten(nodes, parent0, before)
    modifies nodes`parentId
    ensures found0.Keys <= found.Keys <= Ids(nodes) && (found.Keys == found0.Keys ==> stack == stack0)
    ensures IsSearch(edges, root, found, order, parent)
    ensures Scanned(adj, found.Keys, Elems(stack))
    ensures ParentsWritten(nodes, parent, before)
  {
    hide IsSearch, ParentsWritten, DistinctIds, Reach, Scanned, Meets, EdgesWithin, Elems, AllLinks;
    found, order, stack, parent := found0, order0, stack0, parent0;
    var next := adj[cur];
    for i := 0 to |next|
      invariant found0.Keys <= found.Keys <= Ids(nodes) && (found.Keys == found0.Keys ==> stack == stack0)
      invariant IsSearch(edges, root, found, order, parent)
      invariant Scanned(adj, found.Keys, {cur} + Elems(stack))
      invariant forall k :: 0 <= k < i ==> next[k] in found.Keys
      invariant ParentsWritten(nodes, parent, before)
    {
      var nxt := next[i];
      if nxt !in found {
        assert nxt in adj[cur];
        FindOne(edges, root, found, order, parent, cur, nxt);
        NeighbourKnown(Ids(nodes), edges, cur, nxt);
        ScanPush(adj, found.Keys, {cur} + Elems(stack), nxt);
        PushOpen(stack, nxt);
        assert found[nxt := |order|].Keys == found.Keys + {nxt};
        assert {cur} + Elems(stack + [nxt]) == {cur} + Elems(stack) + {nxt};
        SetParent(nodes, nxt, cur, parent, before);
        found, order, parent, stack :=
          found[nxt := |order|], order + [nxt], parent[nxt := cur], stack + [nxt];
      }
    }
    ScanDone(adj, found.Keys, Elems(stack), cur);
  }

  lemma NeighbourKnown(ids: set<NodeId>, edges: seq<Edge>, m: NodeId, n: NodeId)
    requires EdgesWithin(edges, ids) && Meets(edges, m, n)
    ensures m in ids && n in ids
  {
  }

  lemma SearchStarts(nodes: seq<NodeRecord>, edges: seq<Edge>, adj: map<NodeId, seq<NodeId>>, root: NodeId)
    ensures IsSearch(edges, root, map[root := 0], [root], map[])
    ensures Scanned(adj, {root}, Elems([root])) && map[root := 0].Keys == {root}
    ensures ParentsWritten(nodes, map[], ParentIds(nodes))
  {
  }

  method Search(nodes: seq<NodeRecord>, edges: seq<Edge>, root: NodeId)
    returns (discovery: map<NodeId, nat>, ghost parent: map<NodeId, NodeId>)
    requires DistinctIds(nodes) && EdgesWithin(edges, Ids(nodes)) && root in Ids(nodes)
    modifies nodes`parentId
    ensures IsDiscovery(edges, root, discovery, parent)
    ensures ParentsWritten(nodes, parent, old(ParentIds(nodes)))
  {
    hide *;
    ghost var before := ParentIds(nodes);
    var adj := BuildNeighbours(Ids(nodes), edges);
    discovery, parent := map[root := 0], map[];
    var order, stack := [root], [root];
    SearchStarts(nodes, edges, adj, root);
    while stack != []
      invariant discovery.Keys <= Ids(nodes) && IsSearch(edges, root, discovery, order, parent)
      invariant Scanned(adj, discovery.Keys, Elems(stack))
      invariant ParentsWritten(nodes, parent, before)
      decreases Ids(nodes) - discovery.Keys, |stack|
    {
      var cur, rest := stack[|stack| - 1], stack[..|stack| - 1];
      TopOpen(stack);
      ScannedIsFound(adj, discovery.Keys, Elems(stack));
      discovery, order, stack, parent :=
        Visit(nodes, edges, root, adj, cur, discovery, order, rest, parent, before);
    }
    SearchIsDiscovery(Ids(nodes), edges, adj, root, discovery, order, parent);
  }

  method OrientRadial(nodes: seq<NodeRecord>, edges: seq<Edge>, root: NodeId)
    returns (r: Result<Import>, ghost discovery: map<NodeId, nat>, ghost parent: map<NodeId, NodeId>)
    requires DistinctIds(nodes) && EdgesWithin(edges, Ids(nodes))
    modifies nodes`parentId
    ensures r.Err? <==> root !in Ids(nodes)
    ensures r.Err? ==> parent == map[]
    ensures r.Ok? ==> IsDiscovery(edges, root, discovery, parent)
    ensures r.Ok? ==> IsOriented(edges, discovery, r.value.edges)
    ensures r.Ok? ==> r.value.unreached == Ids(nodes) - Reach(AllLinks(edges), {root})
    ensures ParentsWritten(nodes, parent, old(ParentIds(nodes)))
  {
    if root !in Ids(nodes) {
      return Err("root_id not among parsed nodes"), map[], map[];
    }
    var found;
    found, parent := Search(nodes, edges, root);
    discovery := found;
    var oriented := OrientEdges(edges, found);
    r := Ok(Import(oriented, Ids(nodes) - found.Keys));
  }

  method OrientEdges(edges: seq<Edge>, discovery: map<NodeId, nat>) returns (oriented: seq<Edge>)
    ensures IsOriented(edges, discovery, oriented)
  {
    oriented := [];
    for i := 0 to |edges|
      invariant IsOriented(edges[..i], discovery, oriented)
    {
      oriented := oriented + [OrientEdge(edges[i], discovery)];
    }
  }
}

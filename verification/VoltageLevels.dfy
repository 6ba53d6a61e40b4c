/** How the importer carries known voltage levels across edges that do not change them. */
module VoltageLevels {
  import opened Graph
  import opened Grid
  import opened Results
  import opened Orientation

  /** Lines and switches, open or closed; transformers change the voltage. */
  ghost function LevelLinks(edges: seq<Edge>): set<Link> {
    set e | e in edges && e.kind != Transformer :: LinkOf(e)
  }

  function Levels(nodes: seq<NodeRecord>): (s: seq<Option<real>>)
    reads nodes
    ensures |s| == |nodes|
  {
    seq(|nodes|, i requires 0 <= i < |nodes| reads nodes => nodes[i].nominalKv)
  }

  ghost function Known(nodes: seq<NodeRecord>, levels: seq<Option<real>>): set<NodeId>
    requires |levels| == |nodes|
  {
    set i | 0 <= i < |nodes| && levels[i].Some? :: nodes[i].nodeId
  }

  /** Levels only ever spread: known ones stay, and every level present came from a node
      that had it at first and is joined to its bearer by level links. */
  ghost predicate Spread(nodes: seq<NodeRecord>, edges: seq<Edge>, before: seq<Option<real>>, after: seq<Option<real>>)
    requires |before| == |nodes| && |after| == |nodes|
  {
    && (forall i :: 0 <= i < |nodes| && before[i].Some? ==> after[i] == before[i])
    && (forall i :: 0 <= i < |nodes| && after[i].Some? ==> Origin(nodes, edges, before, nodes[i].nodeId, after[i]))
  }

  ghost predicate Origin(
    nodes: seq<NodeRecord>, edges: seq<Edge>, before: seq<Option<real>>, n: NodeId, level: Option<real>)
    requires |before| == |nodes|
  {
    exists j :: 0 <= j < |nodes| && before[j] == level && n in Reach(LevelLinks(edges), {nodes[j].nodeId})
  }

  lemma SpreadStarts(nodes: seq<NodeRecord>, edges: seq<Edge>, before: seq<Option<real>>)
    requires |before| == |nodes|
    ensures Spread(nodes, edges, before, before)
  {
  }

  lemma OriginSpreads(
      nodes: seq<NodeRecord>, edges: seq<Edge>, before: seq<Option<real>>, e: Edge,
      m: NodeId, n: NodeId, level: Option<real>)
    requires |before| == |nodes| && e in edges && e.kind != Transformer && Joins(LinkOf(e), m, n)
    requires Origin(nodes, edges, before, m, level)
    ensures Origin(nodes, edges, before, n, level)
  {
  }

  method Carry(nodes: seq<NodeRecord>, ghost edges: seq<Edge>, ghost e: Edge, m: NodeId, n: NodeId,
               ghost before: seq<Option<real>>)
    requires DistinctIds(nodes) && m in Ids(nodes) && n in Ids(nodes)
    requires e in edges && e.kind != Transformer && Joins(LinkOf(e), m, n)
    requires |before| == |nodes| && Spread(nodes, edges, before, Levels(nodes))
    requires RecordsById(nodes)[m].nominalKv.Some? && RecordsById(nodes)[n].nominalKv == None
    modifies nodes`nominalKv
    ensures Spread(nodes, edges, before, Levels(nodes))
    ensures Known(nodes, Levels(nodes)) == old(Known(nodes, Levels(nodes))) + {n}
    ensures n !in old(Known(nodes, Levels(nodes)))
  {
    hide Reach, Origin, Spread, Known;
    ghost var levels := Levels(nodes);
    var a, b := RecordsById(nodes)[m], RecordsById(nodes)[n];
    b.nominalKv := a.nominalKv;
    ghost var k :| 0 <= k < |nodes| && nodes[k] == b;
    ghost var j :| 0 <= j < |nodes| && nodes[j] == a;
    assert Levels(nodes) == levels[k := levels[j]];
    CarriedSpreads(nodes, edges, before, levels, e, j, k);
  }

  lemma CarriedSpreads(
      nodes: seq<NodeRecord>, edges: seq<Edge>, before: seq<Option<real>>, levels: seq<Option<real>>,
      e: Edge, j: nat, k: nat)
    requires DistinctIds(nodes) && |before| == |levels| == |nodes| && j < |nodes| && k < |nodes|
    requires e in edges && e.kind != Transformer && Joins(LinkOf(e), nodes[j].nodeId, nodes[k].nodeId)
    requires Spread(nodes, edges, before, levels) && levels[j].Some? && levels[k] == None
    ensures Spread(nodes, edges, before, levels[k := levels[j]])
    ensures Known(nodes, levels[k := levels[j]]) == Known(nodes, levels) + {nodes[k].nodeId}
    ensures nodes[k].nodeId !in Known(nodes, levels)
  {
    hide Reach, Origin;
    OriginSpreads(nodes, edges, before, e, nodes[j].nodeId, nodes[k].nodeId, levels[j]);
    var more := levels[k := levels[j]];
    assert forall i :: 0 <= i < |nodes| && i != k ==> more[i] == levels[i];
  }

  ghost predicate Settled(edges: seq<Edge>, known: set<NodeId>) {
    forall e :: e in edges ==> EndsAgree(e, known)
  }

  ghost predicate EndsAgree(e: Edge, known: set<NodeId>) {
    e.kind != Transformer ==> (e.fromNode in known <==> e.toNode in known)
  }

  method CarryAcross(nodes: seq<NodeRecord>, ghost edges: seq<Edge>, e: Edge, ghost before: seq<Option<real>>)
    returns (changed: bool)
    requires DistinctIds(nodes) && EdgesWithin(edges, Ids(nodes)) && e in edges
    requires |before| == |nodes| && Spread(nodes, edges, before, Levels(nodes))
    modifies nodes`nominalKv
    ensures Spread(nodes, edges, before, Levels(nodes))
    ensures changed ==> old(Known(nodes, Levels(nodes))) < Known(nodes, Levels(nodes))
    ensures !changed ==> Known(nodes, Levels(nodes)) == old(Known(nodes, Levels(nodes)))
    ensures !changed ==> EndsAgree(e, Known(nodes, Levels(nodes)))
  {
    hide Spread, Known, Levels, DistinctIds, Reach;
    if e.kind == Transformer {
      return false;
    }
    var a, b := RecordsById(nodes)[e.fromNode], RecordsById(nodes)[e.toNode];
    KnownIff(nodes, a);
    KnownIff(nodes, b);
    changed := true;
    if a.nominalKv.Some? && b.nominalKv == None {
      Carry(nodes, edges, e, e.fromNode, e.toNode, before);
    } else if b.nominalKv.Some? && a.nominalKv == None {
      Carry(nodes, edges, e, e.toNode, e.fromNode, before);
    } else {
      changed := false;
    }
  }

  lemma SettledNone(known: set<NodeId>)
    ensures Settled([], known)
  {
  }

  lemma SettledOneMore(edges: seq<Edge>, i: nat, known: set<NodeId>)
    requires i < |edges| && Settled(edges[..i], known) && EndsAgree(edges[i], known)
    ensures Settled(edges[..i + 1], known)
  {
  }

  /** One pass over the edges. */
  method Pass(nodes: seq<NodeRecord>, edges: seq<Edge>, ghost before: seq<Option<real>>) returns (changed: bool)
    requires DistinctIds(nodes) && EdgesWithin(edges, Ids(nodes))
    requires |before| == |nodes| && Spread(nodes, edges, before, Levels(nodes))
    modifies nodes`nominalKv
    ensures Spread(nodes, edges, before, Levels(nodes))
    ensures changed ==> old(Known(nodes, Levels(nodes))) < Known(nodes, Levels(nodes))
    ensures !changed ==> Known(nodes, Levels(nodes)) == old(Known(nodes, Levels(nodes)))
    ensures !changed ==> Settled(edges, Known(nodes, Levels(nodes)))
  {
    hide *;
    changed := false;
    ghost var known0 := Known(nodes, Levels(nodes));
    SettledNone(known0);
    for i := 0 to |edges|
      invariant Spread(nodes, edges, before, Levels(nodes))
      invariant changed ==> known0 < Known(nodes, Levels(nodes))
      invariant !changed ==> known0 == Known(nodes, Levels(nodes)) && Settled(edges[..i], known0)
    {
      var now := CarryAcross(nodes, edges, edges[i], before);
      changed := changed || now;
      if !changed { SettledOneMore(edges, i, known0); }
    }
    assert edges[..|edges|] == edges;
  }

  lemma KnownIff(nodes: seq<NodeRecord>, x: NodeRecord)
    requires DistinctIds(nodes) && x in nodes
    ensures x.nodeId in Known(nodes, Levels(nodes)) <==> x.nominalKv.Some?
  {
  }

  lemma KnownInIds(nodes: seq<NodeRecord>, levels: seq<Option<real>>)
    requires |levels| == |nodes|
    ensures Known(nodes, levels) <= Ids(nodes)
  {
  }

  lemma Shrinks(ids: set<NodeId>, known: set<NodeId>, known': set<NodeId>)
    requires known < known' <= ids
    ensures ids - known' < ids - known
  {
  }

  /** At the end a node has a level exactly when level links join it to a node that had
      one at first; levels known at first are kept, and the others are copies of one
      known at first among the nodes so joined. */
  method PropagateNominalKv(nodes: seq<NodeRecord>, edges: seq<Edge>)
    requires DistinctIds(nodes) && EdgesWithin(edges, Ids(nodes))
    modifies nodes`nominalKv
    ensures Spread(nodes, edges, old(Levels(nodes)), Levels(nodes))
    ensures Known(nodes, Levels(nodes)) == Reach(LevelLinks(edges), Known(nodes, old(Levels(nodes))))
  {
    ghost var before := Levels(nodes);
    SpreadStarts(nodes, edges, before);
    hide *;
    var changed := true;
    while changed
      invariant Spread(nodes, edges, before, Levels(nodes))
      invariant !changed ==> Settled(edges, Known(nodes, Levels(nodes)))
      decreases Ids(nodes) - Known(nodes, Levels(nodes)), changed
    {
      ghost var known := Known(nodes, Levels(nodes));
      changed := Pass(nodes, edges, before);
      KnownInIds(nodes, Levels(nodes));
      if changed { Shrinks(Ids(nodes), known, Known(nodes, Levels(nodes))); }
    }
    SettledIsReach(nodes, edges, before, Levels(nodes));
  }

  lemma SettledIsReach(nodes: seq<NodeRecord>, edges: seq<Edge>, before: seq<Option<real>>, after: seq<Option<real>>)
    requires |before| == |nodes| && |after| == |nodes|
    requires Spread(nodes, edges, before, after) && Settled(edges, Known(nodes, after))
    ensures Known(nodes, after) == Reach(LevelLinks(edges), Known(nodes, before))
  {
    var E, K := LevelLinks(edges), Known(nodes, before);
    ReachIsLeast(E, K);
    hide Reach;
    forall l | l in E ensures l.a in Known(nodes, after) <==> l.b in Known(nodes, after) {
      var e :| e in edges && e.kind != Transformer && LinkOf(e) == l;
      assert EndsAgree(e, Known(nodes, after));
    }
    assert Closed(E, Known(nodes, after));
    assert K <= Known(nodes, after);
    forall i | 0 <= i < |nodes| && after[i].Some? ensures nodes[i].nodeId in Reach(E, K) {
      assert Origin(nodes, edges, before, nodes[i].nodeId, after[i]);
      var j :| 0 <= j < |nodes| && before[j] == after[i] && nodes[i].nodeId in Reach(E, {nodes[j].nodeId});
      ReachMonotone(E, {nodes[j].nodeId}, E, K);
    }
  }

  /** So, of what `PropagateNominalKv` leaves: a level known at first stays as it was, and
      both ends of an edge that is no transformer have a level or neither has. */
  lemma LevelsMean(nodes: seq<NodeRecord>, edges: seq<Edge>, before: seq<Option<real>>, after: seq<Option<real>>)
    requires |before| == |nodes| && |after| == |nodes| && Spread(nodes, edges, before, after)
    requires Known(nodes, after) == Reach(LevelLinks(edges), Known(nodes, before))
    ensures forall i :: 0 <= i < |nodes| && before[i].Some? ==> after[i] == before[i]
    ensures forall e :: e in edges && (e.kind == Line || e.kind == Switch || e.kind == Tie || e.kind == OtherEdge) ==>
      (e.fromNode in Known(nodes, after) <==> e.toNode in Known(nodes, after))
  {
    hide Reach, Origin, Known;
    ReachIsLeast(LevelLinks(edges), Known(nodes, before));
    forall e | e in edges && e.kind != Transformer
      ensures e.fromNode in Known(nodes, after) <==> e.toNode in Known(nodes, after)
    {
      assert LinkOf(e) in LevelLinks(edges);
    }
  }
}

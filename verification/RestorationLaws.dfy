/** What greedy restoration guarantees, on any network and on a radial one. */
module RestorationLaws {
  import opened Graph
  import opened Grid
  import opened Restoration
  import opened Sequences

  ghost predicate IsOpenable(edges: seq<Edge>, failed: EdgeId, id: EdgeId) {
    exists e :: e in edges && e.id == id && !e.isClosed && e.isSwitchable && id != failed
  }

  /** `now` is `was` with the listed switches closed and nothing else touched. */
  ghost predicate OnlyCloses(was: seq<Edge>, now: seq<Edge>, ties: seq<EdgeId>) {
    && |now| == |was|
    && forall i :: 0 <= i < |was| ==>
      now[i] == if was[i].id in ties then was[i].(isClosed := true) else was[i]
  }

  /** Everything a run keeps from its first tie to its last. */
  ghost predicate Kept(nodes: seq<Node>, edges: seq<Edge>, failed: EdgeId, lost: set<NodeId>, p: Plan) {
    && WellFormed(nodes, p.edges)
    && Distinct(p.ties) && (forall id :: id in p.ties ==> IsOpenable(edges, failed, id))
    && OnlyCloses(edges, p.edges, p.ties)
    && EnergizedBy(nodes, edges) <= EnergizedBy(nodes, p.edges)
    && p.lost == (if p.ties == [] then lost else lost - EnergizedBy(nodes, p.edges))
    && (IsRadial(nodes, edges, EnergizedBy(nodes, edges)) ==> IsRadial(nodes, p.edges, EnergizedBy(nodes, p.edges)))
    && |p.ties| <= |lost| - |p.lost|
  }

  lemma StillThere(edges: seq<Edge>, now: seq<Edge>, ties: seq<EdgeId>, e: Edge) returns (f: Edge)
    requires OnlyCloses(edges, now, ties) && e in edges
    ensures f in now && LinkOf(f) == LinkOf(e) && (e.id !in ties ==> f == e)
  {
    var i :| 0 <= i < |edges| && edges[i] == e;
    f := now[i];
  }

  lemma ClosingEnergizesMore(nodes: seq<Node>, edges: seq<Edge>, f: Edge)
    requires WellFormed(nodes, edges) && f in edges
    ensures EnergizedBy(nodes, edges) <= EnergizedBy(nodes, Toggle(edges, f.id, true))
  {
    hide Reach;
    ToggleLinks(edges, f);
    ReachIsLeast(ClosedLinks(Toggle(edges, f.id, true)), Sources(nodes));
    ReachMonotone(ClosedLinks(edges), Sources(nodes), ClosedLinks(Toggle(edges, f.id, true)), Sources(nodes));
  }

  lemma OnlyClosesMore(edges: seq<Edge>, now: seq<Edge>, ties: seq<EdgeId>, id: EdgeId)
    requires OnlyCloses(edges, now, ties)
    ensures OnlyCloses(edges, Toggle(now, id, true), ties + [id])
  {
  }

  lemma OpenableEdge(edges: seq<Edge>, failed: EdgeId, id: EdgeId) returns (e: Edge)
    requires IsOpenable(edges, failed, id)
    ensures e in edges && e.id == id && !e.isClosed && e.isSwitchable && id != failed
  {
    e :| e in edges && e.id == id && !e.isClosed && e.isSwitchable && id != failed;
  }

  lemma SmallerSet(a: set<NodeId>, b: set<NodeId>)
    requires a < b
    ensures |a| < |b|
  {
    assert |b - a| == |b| - |a|;
    var x :| x in b && x !in a;
    assert x in b - a;
  }

  lemma CloseTieKeeps(
      nodes: seq<Node>, edges: seq<Edge>, failed: EdgeId, lost: set<NodeId>, p: Plan, id: EdgeId)
    requires Kept(nodes, edges, failed, lost, p) && IsOpenable(edges, failed, id)
    requires id !in p.ties && Useful(nodes, p.edges, p.lost, id)
    ensures Kept(nodes, edges, failed, lost, CloseTie(nodes, p, id))
  {
    hide Reach, WellFormed, IsRadial, IsOpenable, Toggle;
    var e := OpenableEdge(edges, failed, id);
    var f := StillThere(edges, p.edges, p.ties, e);
    var q := CloseTie(nodes, p, id);
    ClosingEnergizesMore(nodes, p.edges, f);
    ToggleWellFormed(nodes, p.edges, id, true);
    OnlyClosesMore(edges, p.edges, p.ties, id);
    assert q.lost < p.lost;
    SmallerSet(q.lost, p.lost);
  }

  lemma {:induction false} PassKeeps(
      nodes: seq<Node>, edges: seq<Edge>, failed: EdgeId, lost: set<NodeId>, p: Plan, ids: seq<EdgeId>)
    requires Kept(nodes, edges, failed, lost, p) && forall id :: id in ids ==> IsOpenable(edges, failed, id)
    ensures Kept(nodes, edges, failed, lost, Pass(nodes, p, ids))
  {
    hide Kept, IsOpenable;
    if ids != [] {
      var k := |ids| - 1;
      PassKeeps(nodes, edges, failed, lost, p, ids[..k]);
      var q := Pass(nodes, p, ids[..k]);
      if ids[k] !in q.ties && Useful(nodes, q.edges, q.lost, ids[k]) {
        CloseTieKeeps(nodes, edges, failed, lost, q, ids[k]);
      }
    }
  }

  /** A pass that closes nothing found no useful switch. */
  lemma {:induction false} IdlePass(nodes: seq<Node>, p: Plan, ids: seq<EdgeId>)
    requires Pass(nodes, p, ids).ties == p.ties
    ensures Pass(nodes, p, ids) == p
    ensures forall id :: id in ids ==> id in p.ties || !Useful(nodes, p.edges, p.lost, id)
  {
    hide Useful;
    if ids != [] {
      var k := |ids| - 1;
      PassGains(nodes, p, ids[..k]);
      IdlePass(nodes, p, ids[..k]);
      assert ids == ids[..k] + [ids[k]];
    }
  }

  lemma {:induction false} PassesKeep(
      nodes: seq<Node>, edges: seq<Edge>, failed: EdgeId, lost: set<NodeId>, p: Plan, ids: seq<EdgeId>)
    requires Kept(nodes, edges, failed, lost, p) && forall id :: id in ids ==> IsOpenable(edges, failed, id)
    ensures Kept(nodes, edges, failed, lost, Passes(nodes, p, ids))
    ensures var q := Passes(nodes, p, ids);
      q.lost == {} || forall id :: id in ids ==> id in q.ties || !Useful(nodes, q.edges, q.lost, id)
    decreases Elems(ids) - Elems(p.ties)
  {
    hide Kept, IsOpenable, Pass, Useful;
    if p.lost != {} {
      var q := Pass(nodes, p, ids);
      PassesUnfolds(nodes, p, ids);
      PassKeeps(nodes, edges, failed, lost, p, ids);
      if q.ties == p.ties {
        IdlePass(nodes, p, ids);
      } else {
        PassesKeep(nodes, edges, failed, lost, q, ids);
      }
    }
  }

  lemma RunStarts(nodes: seq<Node>, edges: seq<Edge>, failed: EdgeId, lost: set<NodeId>)
    requires WellFormed(nodes, edges)
    ensures Kept(nodes, edges, failed, lost, Plan(edges, lost, []))
  {
  }

  /** On any network: the failed element stays open, only the reported ties change and
      they were open switches, no node loses supply, each tie brought somebody back, a
      radial network stays radial, and the run stops only when nothing is lost or no
      remaining switch could help on its own. */
  lemma RestoreGuarantees(nodes: seq<Node>, edges: seq<Edge>, failed: EdgeId, lost: set<NodeId>)
    requires WellFormed(nodes, edges)
    ensures var p := Restored(nodes, edges, failed, lost);
      && failed !in p.ties && Distinct(p.ties)
      && (forall id :: id in p.ties ==> IsOpenable(edges, failed, id))
      && OnlyCloses(edges, p.edges, p.ties)
      && EnergizedBy(nodes, edges) <= EnergizedBy(nodes, p.edges)
      && p.lost == (if p.ties == [] then lost else lost - EnergizedBy(nodes, p.edges))
      && (IsRadial(nodes, edges, EnergizedBy(nodes, edges)) ==> IsRadial(nodes, p.edges, EnergizedBy(nodes, p.edges)))
      && |p.ties| <= |lost| - |p.lost|
      && (p.lost == {} || forall id :: IsOpenable(edges, failed, id) ==>
            id in p.ties || !Useful(nodes, p.edges, p.lost, id))
  {
    hide Reach, WellFormed, IsRadial, Useful, OnlyCloses, Passes;
    var ids := OpenableIds(edges, failed);
    RunStarts(nodes, edges, failed, lost);
    PassesKeep(nodes, edges, failed, lost, Plan(edges, lost, []), ids);
  }

  // ---- radial and fully supplied: one tie or none --------------------------

  /** Switch `id` has one end on the live side and one on the dark side. */
  ghost predicate Bridges(edges: seq<Edge>, live: set<NodeId>, id: EdgeId) {
    exists f :: f in edges && f.id == id && (f.fromNode in live) != (f.toNode in live)
  }

  ghost predicate FirstBridge(edges: seq<Edge>, live: set<NodeId>, ids: seq<EdgeId>, j: nat)
    requires j < |ids|
  {
    Bridges(edges, live, ids[j]) && forall i :: 0 <= i < j ==> !Bridges(edges, live, ids[i])
  }

  ghost predicate FullySupplied(nodes: seq<Node>, edges: seq<Edge>) {
    && WellFormed(nodes, edges)
    && EnergizedBy(nodes, edges) == NodeIds(nodes)
    && IsRadial(nodes, edges, NodeIds(nodes))
  }

  /** One element of a radial network opens: the dark side hangs together, and neither
      side has a spare link. */
  lemma RadialOutage(nodes: seq<Node>, edges: seq<Edge>, e: Edge) returns (v: NodeId)
    requires FullySupplied(nodes, edges) && e in edges && e.isClosed
    ensures var E' := ClosedLinks(Toggle(edges, e.id, false));
      && v in NodeIds(nodes) - Reach(E', Sources(nodes))
      && NodeIds(nodes) - Reach(E', Sources(nodes)) == Reach(E', {v})
      && Slack(E', Sources(nodes)) == 0 && Slack(E', {v}) == 0
  {
    hide Reach, IsRadial, Within, Slack, Toggle, Closed, WellFormed;
    UniqueFrom(nodes, edges);
    ToggleLinks(edges, e);
    RadialMeansNoSlack(nodes, edges);
    var E, E', S, l := ClosedLinks(edges), ClosedLinks(edges) - {LinkOf(e)}, Sources(nodes), LinkOf(e);
    assert l in E && E == E' + {l};
    SlackNonNegative(E', S);
    ReachIsLeast(E', S);
    if l.a in Reach(E', S) <==> l.b in Reach(E', S) {
      AddInert(E', S, l);
      EndsKnown(nodes, edges, e);
      assert false;
    }
    var u;
    if l.a in Reach(E', S) { u, v := l.a, l.b; } else { u, v := l.b, l.a; }
    SlackNonNegative(E', {v});
    AddBridge(E', S, l, u, v);
    AddBridgeReach(E', S, l, u, v);
    ReachIsLeast(E', {v});
  }

  lemma EndsKnown(nodes: seq<Node>, edges: seq<Edge>, e: Edge)
    requires WellFormed(nodes, edges) && e in edges
    ensures e.fromNode in NodeIds(nodes) && e.toNode in NodeIds(nodes)
  {
  }

  lemma SameComponent(E: set<Link>, v: NodeId, x: NodeId)
    requires x in Reach(E, {v})
    ensures Reach(E, {x}) == Reach(E, {v}) && Slack(E, {x}) == Slack(E, {v})
  {
    hide Reach;
    ReachSymmetric(E, v, x);
    ReachMonotone(E, {x}, E, {v});
    ReachMonotone(E, {v}, E, {x});
  }

  /** After such an outage a switch helps exactly when it joins the two sides, and then
      it brings everything back. */
  lemma UsefulIffBridges(nodes: seq<Node>, edges: seq<Edge>, v: NodeId, f: Edge)
    requires WellFormed(nodes, edges) && f in edges && !f.isClosed
    requires var E := ClosedLinks(edges);
      && v in NodeIds(nodes) - Reach(E, Sources(nodes))
      && NodeIds(nodes) - Reach(E, Sources(nodes)) == Reach(E, {v})
      && Slack(E, Sources(nodes)) == 0 && Slack(E, {v}) == 0
    ensures var live := EnergizedBy(nodes, edges);
      && (Useful(nodes, edges, NodeIds(nodes) - live, f.id) <==> (f.fromNode in live) != (f.toNode in live))
      && ((f.fromNode in live) != (f.toNode in live) ==>
        EnergizedBy(nodes, Toggle(edges, f.id, true)) == NodeIds(nodes))
  {
    hide Reach, IsRadial, Within, Slack, Toggle, Closed, WellFormed, ClosedLinks;
    UniqueFrom(nodes, edges);
    ToggleLinks(edges, f);
    EndsKnown(nodes, edges, f);
    ToggleWellFormed(nodes, edges, f.id, true);
    var E, S, l, live := ClosedLinks(edges), Sources(nodes), LinkOf(f), EnergizedBy(nodes, edges);
    ReachIsLeast(E, S);
    LiveKnown(nodes, edges);
    if l.a in live <==> l.b in live {
      AddInert(E, S, l);
    } else {
      var u, x;
      if l.a in live { u, x := l.a, l.b; } else { u, x := l.b, l.a; }
      AddBridge(E, S, l, u, x);
      AddBridgeReach(E, S, l, u, x);
      SameComponent(E, v, x);
      RadialMeansNoSlack(nodes, Toggle(edges, f.id, true));
      assert v in (NodeIds(nodes) - live) * EnergizedBy(nodes, Toggle(edges, f.id, true));
      assert Useful(nodes, edges, NodeIds(nodes) - live, f.id) by {
        assert IsRadial(nodes, Toggle(edges, f.id, true), EnergizedBy(nodes, Toggle(edges, f.id, true)));
      }
    }
  }

  lemma LiveKnown(nodes: seq<Node>, edges: seq<Edge>)
    requires WellFormed(nodes, edges)
    ensures EnergizedBy(nodes, edges) <= NodeIds(nodes)
  {
  }

  /** A pass over switches that cannot help changes nothing. */
  lemma {:induction false} UselessPass(nodes: seq<Node>, p: Plan, ids: seq<EdgeId>)
    requires forall id :: id in ids ==> id in p.ties || !Useful(nodes, p.edges, p.lost, id)
    ensures Pass(nodes, p, ids) == p
  {
    hide Useful;
    if ids != [] {
      UselessPass(nodes, p, ids[..|ids| - 1]);
    }
  }

  lemma {:induction false} PassInTwo(nodes: seq<Node>, p: Plan, a: seq<EdgeId>, b: seq<EdgeId>)
    ensures Pass(nodes, p, a + b) == Pass(nodes, Pass(nodes, p, a), b)
  {
    hide TryTie;
    if b == [] {
      assert a + b == a;
    } else {
      assert (a + b)[..|a + b| - 1] == a + b[..|b| - 1];
      PassInTwo(nodes, p, a, b[..|b| - 1]);
    }
  }

  /** The run closes the first useful switch, and if that recovers everything it stops. */
  lemma FirstUsefulEndsIt(nodes: seq<Node>, edges: seq<Edge>, lost: set<NodeId>, ids: seq<EdgeId>, j: nat)
    requires lost != {} && j < |ids| && Useful(nodes, edges, lost, ids[j])
    requires forall i :: 0 <= i < j ==> !Useful(nodes, edges, lost, ids[i])
    requires lost <= EnergizedBy(nodes, Toggle(edges, ids[j], true))
    ensures Passes(nodes, Plan(edges, lost, []), ids) == Plan(Toggle(edges, ids[j], true), {}, [ids[j]])
  {
    hide Pass, Toggle, EnergizedBy;
    var p := Plan(edges, lost, []);
    var q := Plan(Toggle(edges, ids[j], true), {}, [ids[j]]);
    UselessPass(nodes, p, ids[..j]);
    OnePass(nodes, p, ids[j]);
    assert CloseTie(nodes, p, ids[j]) == q;
    PassInTwo(nodes, p, ids[..j], [ids[j]]);
    UselessPass(nodes, q, ids[j + 1..]);
    PassInTwo(nodes, p, ids[..j] + [ids[j]], ids[j + 1..]);
    assert ids == ids[..j] + [ids[j]] + ids[j + 1..];
    PassesUnfolds(nodes, p, ids);
    NothingLost(nodes, q, ids);
  }

  lemma OnePass(nodes: seq<Node>, p: Plan, id: EdgeId)
    ensures Pass(nodes, p, [id]) == TryTie(nodes, p, id)
  {
  }

  lemma NoneUsefulEndsIt(nodes: seq<Node>, edges: seq<Edge>, lost: set<NodeId>, ids: seq<EdgeId>)
    requires lost != {} && forall id :: id in ids ==> !Useful(nodes, edges, lost, id)
    ensures Passes(nodes, Plan(edges, lost, []), ids) == Plan(edges, lost, [])
  {
    hide Pass, Useful;
    UselessPass(nodes, Plan(edges, lost, []), ids);
    PassesUnfolds(nodes, Plan(edges, lost, []), ids);
  }

  /** On a radial network that supplies everyone, with any number of substations: after
      any one element opens, the first openable switch that joins the dark side to the
      live side is closed and recovers everything; without one, none is closed. */
  lemma RestoreAfterOneOutage(nodes: seq<Node>, edges: seq<Edge>, e: Edge)
    requires FullySupplied(nodes, edges) && e in edges && e.isClosed
    ensures
      var out := Toggle(edges, e.id, false);
      var live := EnergizedBy(nodes, out);
      var lost := NodeIds(nodes) - live;
      var ids := OpenableIds(out, e.id);
      var p := Restored(nodes, out, e.id, lost);
      && lost != {}
      && ((forall id :: id in ids ==> !Bridges(out, live, id)) ==> p == Plan(out, lost, []))
      && (forall j :: 0 <= j < |ids| && FirstBridge(out, live, ids, j) ==>
            && p == Plan(Toggle(out, ids[j], true), {}, [ids[j]])
            && EnergizedBy(nodes, p.edges) == NodeIds(nodes))
  {
    hide Reach, IsRadial, Within, Slack, Toggle, Closed, WellFormed, ClosedLinks, Useful, Passes;
    var out := Toggle(edges, e.id, false);
    var live := EnergizedBy(nodes, out);
    var lost := NodeIds(nodes) - live;
    var ids := OpenableIds(out, e.id);
    var v := RadialOutage(nodes, edges, e);
    ToggleWellFormed(nodes, edges, e.id, false);
    forall id | id in ids
      ensures Useful(nodes, out, lost, id) <==> Bridges(out, live, id)
      ensures Bridges(out, live, id) ==> EnergizedBy(nodes, Toggle(out, id, true)) == NodeIds(nodes)
    {
      var f: Edge :| f in out && f.id == id && !f.isClosed;
      UniqueFrom(nodes, out);
      OneEdgePerId(out, f);
      UsefulIffBridges(nodes, out, v, f);
    }
    if forall id :: id in ids ==> !Bridges(out, live, id) {
      NoneUsefulEndsIt(nodes, out, lost, ids);
    }
    forall j | 0 <= j < |ids| && FirstBridge(out, live, ids, j)
      ensures Restored(nodes, out, e.id, lost) == Plan(Toggle(out, ids[j], true), {}, [ids[j]])
      ensures EnergizedBy(nodes, Toggle(out, ids[j], true)) == NodeIds(nodes)
    {
      assert ids[j] in ids;
      forall i | 0 <= i < j ensures !Useful(nodes, out, lost, ids[i]) {
        assert ids[i] in ids;
      }
      FirstUsefulEndsIt(nodes, out, lost, ids, j);
    }
  }

  lemma OneEdgePerId(edges: seq<Edge>, f: Edge)
    requires UniqueIds(edges) && f in edges
    ensures forall g :: g in edges && g.id == f.id ==> g == f
  {
  }
}

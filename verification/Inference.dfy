/** Outage inference: dark meters clustered by feeding transformer, each cluster blamed on
    the device above its deepest common ancestor. */
module Inference {
  import opened Graph
  import opened Grid
  import opened Results
  import opened RadialTree
  import opened Sums
  import opened Ancestry
  import opened Sequences

  datatype Source = Energized | Structural

  datatype Outage = Outage(
    device: Option<Edge>, lca: NodeId, sectionNode: NodeId, section: set<NodeId>, transformer: Option<NodeId>,
    customersAffected: int, reportedCustomers: int, darkMeters: seq<NodeId>, sectionMeters: nat,
    confidence: real, source: Source, corroborated: bool)

  // ---- clusters ------------------------------------------------------------

  function FirstTransformer(byId: map<NodeId, Node>, chain: seq<NodeId>): Option<NodeId> {
    if chain == [] then None
    else if chain[0] in byId && byId[chain[0]].kind == TransformerNode then Some(chain[0])
    else FirstTransformer(byId, chain[1..])
  }

  ghost function NearestTransformer(net: Net, d: NodeId): Option<NodeId>
    requires IsTree(net.tree) && d in net.tree.pathEdges
  {
    FirstTransformer(net.byId, Guarded(net.tree, d))
  }

  method FindTransformer(net: Net, d: NodeId) returns (r: Option<NodeId>)
    requires IsTree(net.tree) && d in net.tree.pathEdges
    ensures r == NearestTransformer(net, d)
  {
    hide IsTree, Guarded;
    var chain := Ancestors(net.tree, d);
    for i := 0 to |chain|
      invariant FirstTransformer(net.byId, chain) == FirstTransformer(net.byId, chain[i..])
    {
      if chain[i] in net.byId && net.byId[chain[i]].kind == TransformerNode {
        return Some(chain[i]);
      }
      assert chain[i..][1..] == chain[i + 1..];
    }
    r := None;
  }

  datatype Cluster = Cluster(transformer: Option<NodeId>, members: seq<NodeId>)

  /** Clusters in order of first appearance, members in order of report. */
  ghost predicate AreClusters(net: Net, dark: seq<NodeId>, cs: seq<Cluster>)
    requires IsTree(net.tree) && forall d :: d in dark ==> d in net.tree.pathEdges
  {
    && (forall i, j :: 0 <= i < j < |cs| ==> cs[i].transformer != cs[j].transformer)
    && (forall i :: 0 <= i < |cs| ==> cs[i].members != [])
    && (forall i, d :: 0 <= i < |cs| && d in cs[i].members ==>
          d in dark && NearestTransformer(net, d) == cs[i].transformer)
    && (forall d :: d in dark ==> exists i :: 0 <= i < |cs| && d in cs[i].members)
    && InReportOrder(dark, cs)
  }

  ghost predicate InReportOrder(dark: seq<NodeId>, cs: seq<Cluster>) {
    && (forall i :: 0 <= i < |cs| ==> cs[i].members == Kept(dark, Elems(cs[i].members)))
    && (forall i, j :: 0 <= i < j < |cs| ==> ListedBefore(dark, cs[i].members, cs[j].members))
  }

  /** The cluster a dark meter is in holds whatever shares its transformer. */
  lemma ClusterOf(net: Net, dark: seq<NodeId>, cs: seq<Cluster>, d: NodeId) returns (j: nat)
    requires IsTree(net.tree) && forall x :: x in dark ==> x in net.tree.pathEdges
    requires AreClusters(net, dark, cs) && d in dark
    ensures j < |cs| && d in cs[j].members && cs[j].members != [] && forall m :: m in cs[j].members ==> m in dark
    ensures forall m :: m in dark ==>
      (NearestTransformer(net, m) == NearestTransformer(net, d) <==> m in cs[j].members)
  {
    hide IsTree, NearestTransformer, InReportOrder;
    j :| 0 <= j < |cs| && d in cs[j].members;
    forall m | m in dark && NearestTransformer(net, m) == NearestTransformer(net, d) ensures m in cs[j].members {
      var k :| 0 <= k < |cs| && m in cs[k].members;
    }
  }

  function AddToClusters(cs: seq<Cluster>, tx: Option<NodeId>, d: NodeId): (r: seq<Cluster>)
  {
    if cs == [] then [Cluster(tx, [d])]
    else if cs[0].transformer == tx then [Cluster(tx, cs[0].members + [d])] + cs[1..]
    else [cs[0]] + AddToClusters(cs[1..], tx, d)
  }

  /** `setdefault(tx, []).append(d)`: one list grows, or one list appears at the end. */
  lemma {:induction false} AddedWhere(cs: seq<Cluster>, tx: Option<NodeId>, d: NodeId) returns (k: nat)
    requires forall i, j :: 0 <= i < j < |cs| ==> cs[i].transformer != cs[j].transformer
    ensures var r := AddToClusters(cs, tx, d);
      && k < |r| && |r| == (if k < |cs| then |cs| else |cs| + 1) && k <= |cs|
      && r[k] == Cluster(tx, (if k < |cs| then cs[k].members else []) + [d])
      && (k < |cs| ==> cs[k].transformer == tx)
      && (k == |cs| ==> forall i :: 0 <= i < |cs| ==> cs[i].transformer != tx)
      && forall i :: 0 <= i < |cs| && i != k ==> r[i] == cs[i]
  {
    if cs == [] {
      k := 0;
    } else if cs[0].transformer == tx {
      k := 0;
    } else {
      var j := AddedWhere(cs[1..], tx, d);
      k := j + 1;
    }
  }

  lemma OrderKept(dark: seq<NodeId>, cs: seq<Cluster>, r: seq<Cluster>, k: nat, d: NodeId)
    requires InReportOrder(dark, cs) && k < |r| && k <= |cs| && |r| == (if k < |cs| then |cs| else |cs| + 1)
    requires r[k].members == (if k < |cs| then cs[k].members else []) + [d]
    requires forall i :: 0 <= i < |cs| && i != k ==> r[i] == cs[i]
    requires forall i :: 0 <= i < |cs| && i != k ==> d !in cs[i].members
    requires d in dark ==> k < |cs| && d in cs[k].members
    requires forall i :: 0 <= i < |cs| ==> cs[i].members != []
    ensures InReportOrder(dark + [d], r)
  {
    hide ListedBefore, Kept;
    forall i | 0 <= i < |r| ensures r[i].members == Kept(dark + [d], Elems(r[i].members)) {
      KeptAdds(dark, d, Elems(r[i].members));
      if i != k {
        assert r[i] == cs[i];
      } else if k < |cs| {
        KeptSame(dark, Elems(cs[k].members), Elems(r[k].members));
      } else {
        KeptNone(dark, Elems(r[k].members));
      }
    }
    forall i, j | 0 <= i < j < |r| ensures ListedBefore(dark + [d], r[i].members, r[j].members) {
      if j < |cs| {
        StillBefore(dark, cs[i].members, cs[j].members, d, r[i].members, r[j].members);
      } else {
        var x := cs[i].members[0];
        assert x in Kept(dark, Elems(cs[i].members));
        KeptFrom(dark, Elems(cs[i].members), x);
        NewIsLast(dark, cs[i].members, x, d);
        assert r[j].members == [d];
      }
    }
  }

  lemma {:induction false} KeptNone(dark: seq<NodeId>, S: set<NodeId>)
    requires forall x :: x in dark ==> x !in S
    ensures Kept(dark, S) == []
  {
    if dark != [] { KeptNone(dark[..|dark| - 1], S); }
  }

  lemma {:induction false} KeptFrom(dark: seq<NodeId>, S: set<NodeId>, x: NodeId)
    requires x in Kept(dark, S)
    ensures x in dark && x in S
  {
    KeptCounts(dark, S, x);
  }

  lemma StillBefore(
      dark: seq<NodeId>, a: seq<NodeId>, b: seq<NodeId>, d: NodeId, a': seq<NodeId>, b': seq<NodeId>)
    requires ListedBefore(dark, a, b) && a <= a' && (b' == b || b' == b + [d])
    requires d in dark && b' != b ==> d in b
    ensures ListedBefore(dark + [d], a', b')
  {
    var p :| 0 <= p < |dark| && dark[p] in a && forall q :: 0 <= q <= p ==> dark[q] !in b;
    var s := dark + [d];
    assert s[p] in a';
    forall q | 0 <= q <= p ensures s[q] !in b' {
      assert s[q] == dark[q];
    }
  }

  lemma NewIsLast(dark: seq<NodeId>, a: seq<NodeId>, x: NodeId, d: NodeId)
    requires x in dark && x in a && d !in dark
    ensures ListedBefore(dark + [d], a, [d])
  {
    var p :| 0 <= p < |dark| && dark[p] == x;
    assert (dark + [d])[p] in a;
  }

  lemma ClustersGrow(net: Net, dark: seq<NodeId>, cs: seq<Cluster>, d: NodeId)
    requires IsTree(net.tree) && (forall x :: x in dark ==> x in net.tree.pathEdges) && d in net.tree.pathEdges
    requires AreClusters(net, dark, cs)
    ensures AreClusters(net, dark + [d], AddToClusters(cs, NearestTransformer(net, d), d))
  {
    hide IsTree, NearestTransformer, AddToClusters, AreClusters, InReportOrder;
    var tx := NearestTransformer(net, d);
    var r := AddToClusters(cs, tx, d);
    ClustersDiffer(net, dark, cs);
    var k := AddedWhere(cs, tx, d);
    OrderGrows(net, dark, cs, d, r, k);
    PartsGrow(net, dark, cs, d, r, k);
  }

  lemma ClustersDiffer(net: Net, dark: seq<NodeId>, cs: seq<Cluster>)
    requires IsTree(net.tree) && (forall x :: x in dark ==> x in net.tree.pathEdges) && AreClusters(net, dark, cs)
    ensures forall i, j :: 0 <= i < j < |cs| ==> cs[i].transformer != cs[j].transformer
  {
    hide IsTree, NearestTransformer, InReportOrder;
  }

  lemma PartsGrow(net: Net, dark: seq<NodeId>, cs: seq<Cluster>, d: NodeId, r: seq<Cluster>, k: nat)
    requires IsTree(net.tree) && (forall x :: x in dark ==> x in net.tree.pathEdges) && d in net.tree.pathEdges
    requires AreClusters(net, dark, cs) && InReportOrder(dark + [d], r)
    requires k < |r| && k <= |cs| && |r| == (if k < |cs| then |cs| else |cs| + 1)
    requires r[k] == Cluster(NearestTransformer(net, d), (if k < |cs| then cs[k].members else []) + [d])
    requires k < |cs| ==> cs[k].transformer == NearestTransformer(net, d)
    requires k == |cs| ==> forall i :: 0 <= i < |cs| ==> cs[i].transformer != NearestTransformer(net, d)
    requires forall i :: 0 <= i < |cs| && i != k ==> r[i] == cs[i]
    ensures AreClusters(net, dark + [d], r)
  {
    hide IsTree, NearestTransformer, InReportOrder;
    forall x | x in dark + [d] ensures exists i :: 0 <= i < |r| && x in r[i].members {
      if x == d {
        assert d in r[k].members;
      } else {
        var i :| 0 <= i < |cs| && x in cs[i].members;
        assert x in r[i].members;
      }
    }
    forall i, x | 0 <= i < |r| && x in r[i].members
      ensures x in dark + [d] && NearestTransformer(net, x) == r[i].transformer
    {
      if i != k { assert x in cs[i].members; }
    }
  }

  lemma OrderGrows(net: Net, dark: seq<NodeId>, cs: seq<Cluster>, d: NodeId, r: seq<Cluster>, k: nat)
    requires IsTree(net.tree) && (forall x :: x in dark ==> x in net.tree.pathEdges) && d in net.tree.pathEdges
    requires AreClusters(net, dark, cs)
    requires k < |r| && k <= |cs| && |r| == (if k < |cs| then |cs| else |cs| + 1)
    requires r[k] == Cluster(NearestTransformer(net, d), (if k < |cs| then cs[k].members else []) + [d])
    requires k < |cs| ==> cs[k].transformer == NearestTransformer(net, d)
    requires k == |cs| ==> forall i :: 0 <= i < |cs| ==> cs[i].transformer != NearestTransformer(net, d)
    requires forall i :: 0 <= i < |cs| && i != k ==> r[i] == cs[i]
    ensures InReportOrder(dark + [d], r)
  {
    hide IsTree, NearestTransformer, InReportOrder;
    OrderKept(dark, cs, r, k, d);
  }

  method BuildClusters(net: Net, dark: seq<NodeId>) returns (cs: seq<Cluster>)
    requires IsTree(net.tree) && forall d :: d in dark ==> d in net.tree.pathEdges
    ensures AreClusters(net, dark, cs)
  {
    hide IsTree, NearestTransformer, AddToClusters;
    cs := [];
    for i := 0 to |dark|
      invariant AreClusters(net, dark[..i], cs)
    {
      var tx := FindTransformer(net, dark[i]);
      ClustersGrow(net, dark[..i], cs, dark[i]);
      assert dark[..i + 1] == dark[..i] + [dark[i]];
      cs := AddToClusters(cs, tx, dark[i]);
    }
    assert dark[..|dark|] == dark;
  }

  // ---- the device ----------------------------------------------------------

  /** First edge from `n` up whose id is marked open. */
  ghost function FirstOpen(t: Tree, open: set<EdgeId>, n: NodeId): Option<Edge>
    requires IsTree(t) && n in t.pathEdges
    decreases |t.pathEdges[n]|
  {
    if n == t.root then None
    else
      assert Linked(t, n);
      if t.parentEdge[n].id in open then Some(t.parentEdge[n]) else FirstOpen(t, open, t.Parent(n))
  }

  method IsolatingOpenEdge(t: Tree, open: set<EdgeId>, lca: NodeId) returns (r: Option<Edge>)
    requires IsTree(t) && lca in t.pathEdges
    ensures r == FirstOpen(t, open, lca)
  {
    var cur := lca;
    while cur != t.root
      invariant cur in t.pathEdges && FirstOpen(t, open, lca) == FirstOpen(t, open, cur)
      decreases |t.pathEdges[cur]|
    {
      assert Linked(t, cur);
      if t.parentEdge[cur].id in open {
        return Some(t.parentEdge[cur]);
      }
      cur := t.Parent(cur);
    }
    r := None;
  }

  /** The device blamed for a cluster whose common ancestor is `lca`. */
  ghost function DeviceFor(t: Tree, source: Source, open: set<EdgeId>, lca: NodeId): Option<Edge>
    requires IsTree(t) && lca in t.pathEdges
  {
    var isolating := if source == Structural then FirstOpen(t, open, lca) else None;
    if isolating.Some? then isolating
    else if lca != t.root then Some(t.parentEdge[lca]) else None
  }

  // ---- one pass ------------------------------------------------------------

  datatype Context = Context(
    meters: set<NodeId>, customers: map<NodeId, int>, seDead: set<NodeId>, source: Source, open: set<EdgeId>)

  /** The section is what hangs below the device, or everything when there is none. */
  ghost predicate SectionOk(net: Net, o: Outage) {
    match o.device
    case Some(e) => e.id in net.subtree && o.section == net.subtree[e.id] && o.sectionNode == e.toNode
    case None => o.section == net.tree.Nodes() && o.sectionNode == net.tree.root
  }

  ghost predicate IsOutage(net: Net, ctx: Context, c: Cluster, o: Outage)
    requires SubtreesOk(net) && forall m :: m in c.members ==> m in net.tree.pathEdges
  {
    && IsGuardedLca(net.tree, c.members, o.lca)
    && o.device == DeviceFor(net.tree, ctx.source, ctx.open, o.lca)
    && SectionOk(net, o)
    && o.transformer == c.transformer && o.darkMeters == c.members && o.source == ctx.source
    && o.customersAffected == Total(ctx.customers, o.section)
    && o.reportedCustomers == Total(ctx.customers, Elems(c.members))
    && o.sectionMeters == |o.section * ctx.meters|
    && o.confidence == Confidence(|Elems(c.members) * (o.section * ctx.meters)|, o.sectionMeters)
    && (o.corroborated <==> Elems(c.members) * ctx.seDead != {})
  }

  function Confidence(dark: nat, meters: nat): real {
    if meters > 0 then Round(dark as real / meters as real, 1000) else 0.5
  }

  method BlameDevice(net: Net, ctx: Context, lca: NodeId) returns (device: Option<Edge>)
    requires IsTree(net.tree) && lca in net.tree.pathEdges
    ensures device == DeviceFor(net.tree, ctx.source, ctx.open, lca)
  {
    device := None;
    if ctx.source == Structural && ctx.open != {} {
      device := IsolatingOpenEdge(net.tree, ctx.open, lca);
    } else {
      NoneOpen(net.tree, ctx.open, lca);
    }
    if device.None? && lca != net.tree.root {
      device := Some(net.tree.parentEdge[lca]);
    }
  }

  lemma {:induction false} NoneOpen(t: Tree, open: set<EdgeId>, n: NodeId)
    requires IsTree(t) && n in t.pathEdges
    ensures open == {} ==> FirstOpen(t, open, n) == None
    decreases |t.pathEdges[n]|
  {
    if n != t.root {
      assert Linked(t, n);
      NoneOpen(t, open, t.Parent(n));
    }
  }

  /** The device is the parent edge of some node on the root path of the ancestor. */
  lemma {:induction false} FirstOpenIsParentEdge(t: Tree, open: set<EdgeId>, n: NodeId) returns (k: NodeId)
    requires IsTree(t) && n in t.pathEdges && FirstOpen(t, open, n).Some?
    ensures k in t.parentEdge && k in Chain(t, n) && FirstOpen(t, open, n) == Some(t.parentEdge[k])
    ensures t.parentEdge[k].id in open
    decreases |t.pathEdges[n]|
  {
    assert Linked(t, n);
    if t.parentEdge[n].id in open {
      k := n;
    } else {
      k := FirstOpenIsParentEdge(t, open, t.Parent(n));
      assert Chain(t, n) == [n] + Chain(t, t.Parent(n));
    }
  }

  lemma DeviceHasSubtree(net: Net, source: Source, open: set<EdgeId>, lca: NodeId)
    requires SubtreesOk(net) && lca in net.tree.pathEdges && DeviceFor(net.tree, source, open, lca).Some?
    ensures DeviceFor(net.tree, source, open, lca).value.id in net.subtree
  {
    hide Below, FirstOpen;
    if source == Structural && FirstOpen(net.tree, open, lca).Some? {
      var k := FirstOpenIsParentEdge(net.tree, open, lca);
    }
  }

  method InferCluster(net: Net, ctx: Context, c: Cluster) returns (r: Result<Outage>)
    requires SubtreesOk(net) && c.members != [] && forall m :: m in c.members ==> m in net.tree.pathEdges
    ensures r.Ok? ==> IsOutage(net, ctx, c, r.value)
    ensures r.Err? ==> LacksCommon(net.tree, c.members)
  {
    hide Below, DeviceFor, IsGuardedLca, GuardedCommon, Total, Confidence, IsTree, SubtreesOk;
    TreeOf(net);
    var found := FindLca(net.tree, c.members);
    if found.Err? {
      return Err(found.message);
    }
    var lca := found.value;
    LcaKnown(net.tree, c.members, lca);
    var device := BlameDevice(net, ctx, lca);
    if device.Some? { DeviceHasSubtree(net, ctx.source, ctx.open, lca); }
    var section := if device.Some? then net.subtree[device.value.id] else net.tree.pathEdges.Keys;
    var sectionNode := if device.Some? then device.value.toNode else net.tree.root;
    var affected := TotalOver(ctx.customers, section);
    var reported := TotalOver(ctx.customers, Elems(c.members));
    var meters := section * ctx.meters;
    r := Ok(Outage(
      device, lca, sectionNode, section, c.transformer, affected, reported, c.members, |meters|,
      Confidence(|Elems(c.members) * meters|, |meters|), ctx.source, Elems(c.members) * ctx.seDead != {}));
  }

  lemma LcaKnown(t: Tree, members: seq<NodeId>, a: NodeId)
    requires IsTree(t) && (forall m :: m in members ==> m in t.pathEdges) && IsGuardedLca(t, members, a)
    ensures a in t.pathEdges
  {
  }

  ghost predicate ArePassOutages(net: Net, ctx: Context, cs: seq<Cluster>, outs: seq<Outage>)
    requires SubtreesOk(net) && forall i, m :: 0 <= i < |cs| && m in cs[i].members ==> m in net.tree.pathEdges
  {
    |outs| == |cs| && forall i :: 0 <= i < |cs| ==> IsOutage(net, ctx, cs[i], outs[i])
  }

  method InferPass(net: Net, ctx: Context, dark: seq<NodeId>) returns (r: Result<seq<Outage>>, ghost cs: seq<Cluster>)
    requires SubtreesOk(net) && forall d :: d in dark ==> d in net.tree.pathEdges
    ensures AreClusters(net, dark, cs)
    ensures r.Ok? ==> ArePassOutages(net, ctx, cs, r.value)
    ensures r.Err? ==> exists i :: 0 <= i < |cs| && LacksCommon(net.tree, cs[i].members)
  {
    hide SubtreesOk, IsTree, IsOutage, NearestTransformer, GuardedCommon;
    TreeOf(net);
    var clusters := BuildClusters(net, dark);
    cs := clusters;
    var outs: seq<Outage> := [];
    for i := 0 to |clusters|
      invariant ArePassOutages(net, ctx, clusters[..i], outs)
    {
      assert clusters[i].members != [];
      var o := InferCluster(net, ctx, clusters[i]);
      if o.Err? {
        return Err(o.message), cs;
      }
      outs := outs + [o.value];
    }
    r := Ok(outs);
  }

  lemma TreeOf(net: Net)
    requires SubtreesOk(net)
    ensures IsTree(net.tree)
  {
  }

  // ---- the two passes ------------------------------------------------------

  /** The normally-closed network forced closed; normally-open ties left out. */
  function StructuralEdges(edges: seq<Edge>): (s: seq<Edge>)
    ensures forall f :: f in s <==> exists e :: e in edges && e.normallyClosed && f == e.(isClosed := true)
  {
    if edges == [] then []
    else
      var e := edges[|edges| - 1];
      StructuralEdges(edges[..|edges| - 1]) + if e.normallyClosed then [e.(isClosed := true)] else []
  }

  function OpenIds(edges: seq<Edge>): set<EdgeId> {
    set e | e in edges && !e.isClosed && e.normallyClosed :: e.id
  }

  lemma {:induction false} StructuralWellFormed(nodes: seq<Node>, edges: seq<Edge>)
    requires WellFormed(nodes, edges)
    ensures WellFormed(nodes, StructuralEdges(edges))
  {
    if edges != [] {
      var k := |edges| - 1;
      var s := StructuralEdges(edges[..k]);
      StructuralWellFormed(nodes, edges[..k]);
      forall i | 0 <= i < |s| ensures s[i].id != edges[k].id {
        assert s[i] in s;
      }
    }
  }

  function KeepKnown(dark: seq<NodeId>, S: set<NodeId>, out: set<NodeId>): (r: seq<NodeId>)
    ensures forall d :: d in r <==> d in dark && d in S && d !in out
  {
    if dark == [] then []
    else
      var d := dark[|dark| - 1];
      KeepKnown(dark[..|dark| - 1], S, out) + if d in S && d !in out then [d] else []
  }

  function Meters(nodes: seq<Node>): set<NodeId> {
    set n | n in nodes && n.kind == Meter :: n.id
  }

  datatype Report = Report(outages: seq<Outage>, darkCount: nat, silent: set<NodeId>)

  /** What the two passes looked at and found. */
  datatype Passes = Passes(
    enet: Net, snet: Net, primary: seq<NodeId>, fallback: seq<NodeId>, ec: seq<Cluster>, sc: seq<Cluster>)

  ghost predicate GoodPasses(nodes: seq<Node>, edges: seq<Edge>, dark: seq<NodeId>, ps: Passes) {
    && IsNet(nodes, edges, ps.enet) && IsNet(nodes, StructuralEdges(edges), ps.snet)
    && ps.primary == KeepKnown(dark, ps.enet.tree.Nodes(), {})
    && ps.fallback == KeepKnown(dark, ps.snet.tree.Nodes(), ps.enet.tree.Nodes())
    && AreClusters(ps.enet, ps.primary, ps.ec) && AreClusters(ps.snet, ps.fallback, ps.sc)
  }

  ghost predicate PassesFit(ps: Passes) {
    && SubtreesOk(ps.enet) && SubtreesOk(ps.snet)
    && (forall i, m :: 0 <= i < |ps.ec| && m in ps.ec[i].members ==> m in ps.enet.tree.pathEdges)
    && (forall i, m :: 0 <= i < |ps.sc| && m in ps.sc[i].members ==> m in ps.snet.tree.pathEdges)
  }

  ghost predicate GoodReport(
    nodes: seq<Node>, edges: seq<Edge>, customers: map<NodeId, int>, seDead: set<NodeId>, ps: Passes, r: Report)
  {
    var k := |ps.ec|;
    && PassesFit(ps) && |r.outages| == k + |ps.sc|
    && ArePassOutages(ps.enet, Context(Meters(nodes), customers, seDead, Energized, {}), ps.ec, r.outages[..k])
    && ArePassOutages(
         ps.snet, Context(Meters(nodes), customers, seDead, Structural, OpenIds(edges)), ps.sc, r.outages[k..])
    && r.darkCount == |Elems(ps.primary) + Elems(ps.fallback)|
    && r.silent == seDead * Meters(nodes) - (Elems(ps.primary) + Elems(ps.fallback))
  }

  lemma MembersKnown(net: Net, dark: seq<NodeId>, cs: seq<Cluster>)
    requires IsTree(net.tree) && (forall d :: d in dark ==> d in net.tree.pathEdges) && AreClusters(net, dark, cs)
    ensures forall i, m :: 0 <= i < |cs| && m in cs[i].members ==> m in net.tree.pathEdges
  {
  }

  lemma NetParts(nodes: seq<Node>, edges: seq<Edge>, net: Net)
    requires IsNet(nodes, edges, net)
    ensures SubtreesOk(net) && IsTree(net.tree)
  {
  }

  /** The guarded walks of some cluster of these meters share no node, for some valid tree. */
  ghost predicate GuardCuts(nodes: seq<Node>, edges: seq<Edge>, dark: seq<NodeId>) {
    exists net: Net, part: seq<NodeId>, cs: seq<Cluster> :: CutPass(nodes, edges, dark, net, part, cs)
  }

  ghost predicate CutPass(
    nodes: seq<Node>, edges: seq<Edge>, dark: seq<NodeId>, net: Net, part: seq<NodeId>, cs: seq<Cluster>)
  {
    && IsNet(nodes, edges, net) && IsTree(net.tree)
    && (forall d :: d in part ==> d in dark && d in net.tree.pathEdges) && AreClusters(net, part, cs)
    && (forall i, m :: 0 <= i < |cs| && m in cs[i].members ==> m in net.tree.pathEdges)
    && exists i :: 0 <= i < |cs| && LacksCommon(net.tree, cs[i].members)
  }

  method Infer(
      nodes: seq<Node>, edges: seq<Edge>, dark: seq<NodeId>, customers: map<NodeId, int>, seDead: set<NodeId>)
    returns (r: Result<Report>, ghost ps: Option<Passes>)
    requires WellFormed(nodes, edges)
    ensures SourceList(nodes) == [] ==> r.Err?
    ensures r.Err? ==>
      SourceList(nodes) == [] || GuardCuts(nodes, edges, dark) || GuardCuts(nodes, StructuralEdges(edges), dark)
    ensures r.Ok? ==> ps.Some?
    ensures r.Ok? ==> GoodPasses(nodes, edges, dark, ps.value)
    ensures r.Ok? ==> GoodReport(nodes, edges, customers, seDead, ps.value, r.value)
  {
    hide IsNet, SubtreesOk, IsTree, AreClusters, ArePassOutages, WellFormed, StructuralEdges, OpenIds;
    ps := None;
    var e := BuildRadial(nodes, edges);
    if e.Err? {
      return Err(e.message), ps;
    }
    StructuralWellFormed(nodes, edges);
    var s := BuildRadial(nodes, StructuralEdges(edges));
    var enet, snet := e.value, s.value;
    NetParts(nodes, edges, enet);
    NetParts(nodes, StructuralEdges(edges), snet);
    var meters := Meters(nodes);
    var primary := KeepKnown(dark, enet.tree.pathEdges.Keys, {});
    var fallback := KeepKnown(dark, snet.tree.pathEdges.Keys, enet.tree.pathEdges.Keys);
    ghost var ec: seq<Cluster>, sc: seq<Cluster>;
    var first, second;
    first, ec := InferPass(enet, Context(meters, customers, seDead, Energized, {}), primary);
    MembersKnown(enet, primary, ec);
    if first.Err? {
      assert CutPass(nodes, edges, dark, enet, primary, ec);
      return Err(first.message), ps;
    }
    second, sc := InferPass(snet, Context(meters, customers, seDead, Structural, OpenIds(edges)), fallback);
    MembersKnown(snet, fallback, sc);
    if second.Err? {
      assert CutPass(nodes, StructuralEdges(edges), dark, snet, fallback, sc);
      return Err(second.message), ps;
    }
    var located := Elems(primary) + Elems(fallback);
    r := Ok(Report(first.value + second.value, |located|, seDead * meters - located));
    ps := Some(Passes(enet, snet, primary, fallback, ec, sc));
    SplitAppended(enet, Context(meters, customers, seDead, Energized, {}), ec, first.value, second.value);
    SplitAppended(snet, Context(meters, customers, seDead, Structural, OpenIds(edges)), sc, second.value, []);
  }

  lemma SplitAppended(net: Net, ctx: Context, cs: seq<Cluster>, a: seq<Outage>, b: seq<Outage>)
    requires SubtreesOk(net) && forall i, m :: 0 <= i < |cs| && m in cs[i].members ==> m in net.tree.pathEdges
    requires ArePassOutages(net, ctx, cs, a)
    ensures |a| == |cs| && (a + b)[..|cs|] == a && (a + b)[|cs|..] == b
  {
  }

  // ---- theorems ------------------------------------------------------------

  /** On trees whose paths stay under the guard no cluster is cut. */
  lemma ShallowIsNeverCut(nodes: seq<Node>, edges: seq<Edge>, dark: seq<NodeId>)
    requires forall net: Net, d :: IsNet(nodes, edges, net) && d in net.tree.pathEdges ==>
      |net.tree.pathEdges[d]| < GUARD
    ensures !GuardCuts(nodes, edges, dark)
  {
    hide IsNet, IsTree, AreClusters, GuardedCommon;
    if GuardCuts(nodes, edges, dark) {
      var net: Net, part: seq<NodeId>, cs: seq<Cluster> :| CutPass(nodes, edges, dark, net, part, cs);
      var i :| 0 <= i < |cs| && LacksCommon(net.tree, cs[i].members);
      ClusterFilled(net, part, cs, i);
      var c := LcaExists(net.tree, cs[i].members);
      LcaIsExactWhen(net.tree, cs[i].members, c);
    }
  }

  lemma {:induction false} IdCount(nodes: seq<Node>)
    ensures |NodeIds(nodes)| <= |nodes|
  {
    if nodes != [] {
      var k := |nodes| - 1;
      IdCount(nodes[..k]);
      assert NodeIds(nodes) == NodeIds(nodes[..k]) + {nodes[k].id};
    }
  }

  lemma ChainDistinct(t: Tree, n: NodeId)
    requires IsTree(t) && n in t.pathEdges
    ensures Distinct(Chain(t, n))
  {
    hide IsTree, Chain;
    forall i, j | 0 <= i < j < |Chain(t, n)| ensures Chain(t, n)[i] != Chain(t, n)[j] {
      ChainLinks(t, n, i);
      ChainLinks(t, n, j);
    }
  }

  /** A root path has fewer edges than the network has nodes. */
  lemma PathsAreShort(nodes: seq<Node>, edges: seq<Edge>, net: Net, n: NodeId)
    requires IsNet(nodes, edges, net) && n in net.tree.pathEdges
    ensures |net.tree.pathEdges[n]| < |nodes|
  {
    hide IsTree, Reach, Rooted, Below;
    var c := Chain(net.tree, n);
    ChainDistinct(net.tree, n);
    DistinctCount(c);
    SubsetSize(Elems(c), NodeIds(nodes));
    IdCount(nodes);
  }

  lemma SubsetSize(a: set<NodeId>, b: set<NodeId>)
    requires a <= b
    ensures |a| <= |b|
  {
    assert |b - a| == |b| - |a|;
  }

  /** On networks of up to 1000 nodes inference raises only for want of a substation. */
  lemma SmallIsNeverCut(nodes: seq<Node>, edges: seq<Edge>, dark: seq<NodeId>)
    requires |nodes| <= 1000
    ensures !GuardCuts(nodes, edges, dark) && !GuardCuts(nodes, StructuralEdges(edges), dark)
  {
    hide IsNet, GuardCuts;
    forall es: seq<Edge>, net: Net, d | IsNet(nodes, es, net) && d in net.tree.pathEdges
      ensures |net.tree.pathEdges[d]| < GUARD
    {
      PathsAreShort(nodes, es, net, d);
    }
    ShallowIsNeverCut(nodes, edges, dark);
    ShallowIsNeverCut(nodes, StructuralEdges(edges), dark);
  }

  lemma ClusterFilled(net: Net, dark: seq<NodeId>, cs: seq<Cluster>, i: nat)
    requires IsTree(net.tree) && (forall d :: d in dark ==> d in net.tree.pathEdges)
    requires AreClusters(net, dark, cs) && i < |cs|
    ensures cs[i].members != []
  {
  }

  /** Within the depth guard the ancestor `_lca` settles on is the deepest common one. */
  lemma WithinGuard(t: Tree, members: seq<NodeId>, a: NodeId)
    requires IsTree(t) && members != [] && forall m :: m in members ==> m in t.pathEdges && |t.pathEdges[m]| < GUARD
    requires IsGuardedLca(t, members, a)
    ensures IsLca(t, members, a)
  {
    hide IsTree, Chain, Guarded;
    var c := LcaExists(t, members);
    assert members[0] in members;
    ChainPosition(t, members[0], c);
    LcaIsExactWhen(t, members, c);
  }

  lemma {:induction false} ChainTransitive(t: Tree, a: NodeId, b: NodeId, k: NodeId)
    requires IsTree(t) && k in t.pathEdges && b in Chain(t, k) && b in t.pathEdges && a in Chain(t, b)
    ensures a in Chain(t, k)
    decreases |t.pathEdges[k]|
  {
    ChainAbove(t, b, k);
    if b != k {
      assert Linked(t, k);
      ChainTransitive(t, a, b, t.Parent(k));
      assert Chain(t, k) == [k] + Chain(t, t.Parent(k));
    }
  }

  lemma {:induction false} ChainComparable(t: Tree, a: NodeId, b: NodeId, k: NodeId)
    requires IsTree(t) && k in t.pathEdges && a in Chain(t, k) && b in Chain(t, k)
    requires a in t.pathEdges && b in t.pathEdges && |t.pathEdges[a]| <= |t.pathEdges[b]|
    ensures a in Chain(t, b)
    decreases |t.pathEdges[k]|
  {
    ChainAbove(t, a, k);
    ChainAbove(t, b, k);
    if b != k {
      assert Linked(t, k);
      ChainComparable(t, a, b, t.Parent(k));
    }
  }

  ghost predicate Covers(t: Tree, k: NodeId, members: seq<NodeId>)
    requires IsTree(t)
  {
    k in t.parentEdge && forall m :: m in members ==> m in Below(t, k)
  }

  /** A single edge covers a cluster exactly when its child is on the root path of the
      cluster's deepest common ancestor, and then its section holds the ancestor's. */
  lemma CoversIffAbove(t: Tree, members: seq<NodeId>, a: NodeId, k: NodeId)
    requires IsTree(t) && members != [] && (forall m :: m in members ==> m in t.pathEdges)
    requires IsLca(t, members, a) && k in t.parentEdge
    ensures Covers(t, k, members) <==> k in Chain(t, a)
    ensures Covers(t, k, members) ==> Below(t, a) <= Below(t, k)
  {
    hide IsTree, Chain;
    EdgeChildKnown(t, k);
    if Covers(t, k, members) {
      assert CommonAncestor(t, members, k);
      assert members[0] in members;
      ChainComparable(t, k, a, members[0]);
    }
    if k in Chain(t, a) {
      forall m | m in members ensures m in Below(t, k) {
        ChainTransitive(t, k, a, m);
      }
      forall x | x in Below(t, a) ensures x in Below(t, k) {
        ChainTransitive(t, k, a, x);
      }
    }
  }

  lemma EdgeChildKnown(t: Tree, k: NodeId)
    requires IsTree(t) && k in t.parentEdge
    ensures k in t.pathEdges && k != t.root
  {
  }

  /** An energized-pass outage within the guard: the section is the smallest single-edge
      subtree that covers the cluster, and no device is named exactly when none does. */
  lemma SectionIsSmallest(net: Net, ctx: Context, c: Cluster, o: Outage)
    requires SubtreesOk(net) && ctx.source == Energized && c.members != []
    requires forall m :: m in c.members ==> m in net.tree.pathEdges && |net.tree.pathEdges[m]| < GUARD
    requires IsOutage(net, ctx, c, o)
    ensures o.device.None? <==> !exists k :: Covers(net.tree, k, c.members)
    ensures o.device.Some? ==>
      && (exists k ::
            && Covers(net.tree, k, c.members) && o.device == Some(net.tree.parentEdge[k])
            && o.section == Below(net.tree, k))
      && forall k :: Covers(net.tree, k, c.members) ==> o.section <= Below(net.tree, k)
  {
    hide Below, IsTree, Covers, Total;
    var t := net.tree;
    TreeOf(net);
    WithinGuard(t, c.members, o.lca);
    forall k | Covers(t, k, c.members)
      ensures k in t.parentEdge && k in Chain(t, o.lca) && Below(t, o.lca) <= Below(t, k)
    {
      CoveringEdge(t, k, c.members);
      CoversIffAbove(t, c.members, o.lca, k);
    }
    if o.lca == t.root {
      RootCoversNothing(t);
    } else {
      OffRoot(t, o.lca);
      CoversIffAbove(t, c.members, o.lca, o.lca);
      SubtreeOfParentEdge(net, o.lca);
    }
  }

  lemma CoveringEdge(t: Tree, k: NodeId, members: seq<NodeId>)
    requires IsTree(t) && Covers(t, k, members)
    ensures k in t.parentEdge
  {
  }

  lemma RootCoversNothing(t: Tree)
    requires IsTree(t)
    ensures forall k :: k in t.parentEdge ==> k !in Chain(t, t.root)
  {
  }

  lemma OffRoot(t: Tree, a: NodeId)
    requires IsTree(t) && a in t.pathEdges && a != t.root
    ensures a in t.parentEdge && a in Chain(t, a)
  {
  }

  lemma SubtreeOfParentEdge(net: Net, k: NodeId)
    requires SubtreesOk(net) && k in net.tree.parentEdge
    ensures net.tree.parentEdge[k].id in net.subtree && net.subtree[net.tree.parentEdge[k].id] == Below(net.tree, k)
  {
    hide Below;
  }

  lemma InOneCluster(net: Net, dark: seq<NodeId>, cs: seq<Cluster>, d: NodeId)
    requires IsTree(net.tree) && (forall x :: x in dark ==> x in net.tree.pathEdges) && AreClusters(net, dark, cs)
    ensures d in dark <==> exists i :: 0 <= i < |cs| && d in cs[i].members
    ensures forall i, j :: 0 <= i < |cs| && 0 <= j < |cs| && d in cs[i].members && d in cs[j].members ==> i == j
  {
  }

  ghost predicate ReportedIn(r: Report, i: nat, d: NodeId) {
    i < |r.outages| && d in r.outages[i].darkMeters
  }

  /** Which cluster of the two passes the outage at position `i` stands for. */
  ghost predicate InCluster(ps: Passes, i: nat, d: NodeId) {
    if i < |ps.ec| then d in ps.ec[i].members
    else i - |ps.ec| < |ps.sc| && d in ps.sc[i - |ps.ec|].members
  }

  lemma ReportedIffClustered(
      nodes: seq<Node>, edges: seq<Edge>, customers: map<NodeId, int>, seDead: set<NodeId>, ps: Passes, r: Report,
      d: NodeId)
    requires GoodReport(nodes, edges, customers, seDead, ps, r)
    ensures forall i: nat :: ReportedIn(r, i, d) <==> InCluster(ps, i, d)
  {
    hide GoodReport;
    OutageCount(nodes, edges, customers, seDead, ps, r);
    forall i: nat ensures ReportedIn(r, i, d) <==> InCluster(ps, i, d) {
      if i < |r.outages| { DarkMetersOf(nodes, edges, customers, seDead, ps, r, i); }
    }
  }

  /** A meter is in a cluster of the first pass when the energized tree knows it, and in
      one of the second when only the structural tree does. */
  lemma ClusteredOnce(nodes: seq<Node>, edges: seq<Edge>, dark: seq<NodeId>, ps: Passes, d: NodeId)
    requires GoodPasses(nodes, edges, dark, ps)
    ensures (d in dark && (d in ps.enet.tree.Nodes() || d in ps.snet.tree.Nodes())) <==> exists i :: InCluster(ps, i, d)
    ensures forall i, j :: InCluster(ps, i, d) && InCluster(ps, j, d) ==> i == j
  {
    hide GoodPasses;
    TwoPasses(nodes, edges, dark, ps, d);
    if d in ps.primary {
      var i :| 0 <= i < |ps.ec| && d in ps.ec[i].members;
      assert InCluster(ps, i, d);
    }
    if d in ps.fallback {
      var i :| 0 <= i < |ps.sc| && d in ps.sc[i].members;
      assert InCluster(ps, |ps.ec| + i, d);
    }
  }

  ghost predicate InOneOf(cs: seq<Cluster>, d: NodeId) {
    && (exists i :: 0 <= i < |cs| && d in cs[i].members)
    && forall i, j :: 0 <= i < |cs| && 0 <= j < |cs| && d in cs[i].members && d in cs[j].members ==> i == j
  }

  ghost predicate InNone(cs: seq<Cluster>, d: NodeId) {
    forall i :: 0 <= i < |cs| ==> d !in cs[i].members
  }

  lemma TwoPasses(nodes: seq<Node>, edges: seq<Edge>, dark: seq<NodeId>, ps: Passes, d: NodeId)
    requires GoodPasses(nodes, edges, dark, ps)
    ensures d in ps.primary <==> d in dark && d in ps.enet.tree.Nodes()
    ensures d in ps.fallback <==> d in dark && d in ps.snet.tree.Nodes() && d !in ps.enet.tree.Nodes()
    ensures if d in ps.primary then InOneOf(ps.ec, d) else InNone(ps.ec, d)
    ensures if d in ps.fallback then InOneOf(ps.sc, d) else InNone(ps.sc, d)
  {
    hide IsNet, SubtreesOk, IsTree, AreClusters, KeepKnown;
    NetParts(nodes, edges, ps.enet);
    NetParts(nodes, StructuralEdges(edges), ps.snet);
    InOneCluster(ps.enet, ps.primary, ps.ec, d);
    InOneCluster(ps.snet, ps.fallback, ps.sc, d);
  }

  /** Every dark meter that either tree locates is reported in exactly one outage. */
  lemma EachLocatedMeterOnce(
      nodes: seq<Node>, edges: seq<Edge>, dark: seq<NodeId>, customers: map<NodeId, int>, seDead: set<NodeId>,
      ps: Passes, r: Report, d: NodeId)
    requires GoodPasses(nodes, edges, dark, ps) && GoodReport(nodes, edges, customers, seDead, ps, r)
    ensures
      (d in dark && (d in ps.enet.tree.Nodes() || d in ps.snet.tree.Nodes()))
      <==> exists i :: ReportedIn(r, i, d)
    ensures forall i, j :: ReportedIn(r, i, d) && ReportedIn(r, j, d) ==> i == j
  {
    hide *;
    ReportedIffClustered(nodes, edges, customers, seDead, ps, r, d);
    ClusteredOnce(nodes, edges, dark, ps, d);
  }

  lemma OutageCount(
      nodes: seq<Node>, edges: seq<Edge>, customers: map<NodeId, int>, seDead: set<NodeId>, ps: Passes, r: Report)
    requires GoodReport(nodes, edges, customers, seDead, ps, r)
    ensures |r.outages| == |ps.ec| + |ps.sc|
  {
  }

  lemma DarkMetersOf(
      nodes: seq<Node>, edges: seq<Edge>, customers: map<NodeId, int>, seDead: set<NodeId>, ps: Passes, r: Report,
      i: nat)
    requires GoodReport(nodes, edges, customers, seDead, ps, r) && i < |r.outages|
    ensures r.outages[i].darkMeters == if i < |ps.ec| then ps.ec[i].members else ps.sc[i - |ps.ec|].members
  {
    hide SubtreesOk, IsGuardedLca, DeviceFor, Total, SectionOk, Confidence, OpenIds, Meters;
    var k := |ps.ec|;
    if i < k {
      assert IsOutage(ps.enet, Context(Meters(nodes), customers, seDead, Energized, {}), ps.ec[i], r.outages[..k][i]);
    } else {
      assert IsOutage(
        ps.snet, Context(Meters(nodes), customers, seDead, Structural, OpenIds(edges)), ps.sc[i - k],
        r.outages[k..][i - k]);
    }
  }
}

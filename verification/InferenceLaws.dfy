/** What clusters and reported outages mean, said of root paths, transformers and meters. */
module InferenceLaws {
  import opened Graph
  import opened Grid
  import opened Results
  import opened RadialTree
  import opened Sums
  import opened Reals
  import opened Ancestry
  import opened Inference
  import opened Sequences

  // ---- the feeding transformer ---------------------------------------------

  predicate IsTransformer(byId: map<NodeId, Node>, n: NodeId) {
    n in byId && byId[n].kind == TransformerNode
  }

  /** `tx` is the first transformer of the path, or there is none on it. */
  ghost predicate FeedsFrom(byId: map<NodeId, Node>, path: seq<NodeId>, tx: Option<NodeId>) {
    match tx
    case None => forall j :: 0 <= j < |path| ==> !IsTransformer(byId, path[j])
    case Some(t) => exists j :: FirstOn(byId, path, t, j)
  }

  ghost predicate FirstOn(byId: map<NodeId, Node>, path: seq<NodeId>, t: NodeId, j: int) {
    && 0 <= j < |path| && path[j] == t && IsTransformer(byId, t)
    && forall i :: 0 <= i < j ==> !IsTransformer(byId, path[i])
  }

  lemma {:induction false} FirstTransformerMeans(byId: map<NodeId, Node>, path: seq<NodeId>)
    ensures FeedsFrom(byId, path, FirstTransformer(byId, path))
  {
    if path != [] {
      var tx := FirstTransformer(byId, path);
      if IsTransformer(byId, path[0]) {
        assert FirstOn(byId, path, path[0], 0);
      } else {
        FirstTransformerMeans(byId, path[1..]);
        if tx.Some? {
          var j :| FirstOn(byId, path[1..], tx.value, j);
          assert FirstOn(byId, path, tx.value, j + 1);
        }
      }
    }
  }

  lemma FeederIsUnique(byId: map<NodeId, Node>, path: seq<NodeId>, a: Option<NodeId>, b: Option<NodeId>)
    requires FeedsFrom(byId, path, a) && FeedsFrom(byId, path, b)
    ensures a == b
  {
    if a.Some? && b.Some? {
      var i :| FirstOn(byId, path, a.value, i);
      var j :| FirstOn(byId, path, b.value, j);
    }
  }

  /** The transformer of a cluster is the first one on the guarded root path of each of
      its members, and a cluster without one has members without any. */
  lemma ClusterTransformerMeans(net: Net, dark: seq<NodeId>, cs: seq<Cluster>, i: nat, d: NodeId)
    requires IsTree(net.tree) && forall m :: m in dark ==> m in net.tree.pathEdges
    requires AreClusters(net, dark, cs) && i < |cs| && d in cs[i].members
    ensures d in net.tree.pathEdges && FeedsFrom(net.byId, Guarded(net.tree, d), cs[i].transformer)
  {
    hide IsTree, Guarded, FirstTransformer, FeedsFrom;
    FirstTransformerMeans(net.byId, Guarded(net.tree, d));
    assert NearestTransformer(net, d) == cs[i].transformer;
  }

  ghost predicate InOneCluster(cs: seq<Cluster>, d: NodeId, e: NodeId) {
    exists i :: 0 <= i < |cs| && d in cs[i].members && e in cs[i].members
  }

  /** Both are fed through the same first transformer, or both through none. */
  ghost predicate FedAlike(net: Net, d: NodeId, e: NodeId)
    requires IsTree(net.tree) && d in net.tree.pathEdges && e in net.tree.pathEdges
  {
    exists tx :: FeedsFrom(net.byId, Guarded(net.tree, d), tx) && FeedsFrom(net.byId, Guarded(net.tree, e), tx)
  }

  /** Two located dark meters fall into one cluster exactly when they are fed alike. */
  lemma OneClusterIff(net: Net, dark: seq<NodeId>, cs: seq<Cluster>, d: NodeId, e: NodeId)
    requires IsTree(net.tree) && forall m :: m in dark ==> m in net.tree.pathEdges
    requires AreClusters(net, dark, cs) && d in dark && e in dark
    ensures InOneCluster(cs, d, e) <==> FedAlike(net, d, e)
  {
    hide IsTree, Guarded, FirstTransformer, FeedsFrom;
    FirstTransformerMeans(net.byId, Guarded(net.tree, d));
    FirstTransformerMeans(net.byId, Guarded(net.tree, e));
    var j := ClusterOf(net, dark, cs, d);
    if FedAlike(net, d, e) {
      var tx :| FeedsFrom(net.byId, Guarded(net.tree, d), tx) && FeedsFrom(net.byId, Guarded(net.tree, e), tx);
      FeederIsUnique(net.byId, Guarded(net.tree, d), tx, NearestTransformer(net, d));
      FeederIsUnique(net.byId, Guarded(net.tree, e), tx, NearestTransformer(net, e));
      assert e in cs[j].members;
    }
    if InOneCluster(cs, d, e) {
      var i :| 0 <= i < |cs| && d in cs[i].members && e in cs[i].members;
      assert NearestTransformer(net, d) == cs[i].transformer == NearestTransformer(net, e);
    }
  }

  ghost predicate InOneOutage(outs: seq<Outage>, d: NodeId, e: NodeId) {
    exists i :: 0 <= i < |outs| && d in outs[i].darkMeters && e in outs[i].darkMeters
  }

  lemma OutagesAreClusters(net: Net, ctx: Context, cs: seq<Cluster>, outs: seq<Outage>)
    requires SubtreesOk(net) && forall i, m :: 0 <= i < |cs| && m in cs[i].members ==> m in net.tree.pathEdges
    requires ArePassOutages(net, ctx, cs, outs)
    ensures |outs| == |cs|
    ensures forall i :: 0 <= i < |cs| ==>
      outs[i].darkMeters == cs[i].members && outs[i].transformer == cs[i].transformer
  {
    hide SubtreesOk, IsGuardedLca, DeviceFor, SectionOk, Confidence, Total;
  }

  /** So within a pass two located dark meters share a reported outage exactly when they
      are fed alike, and each outage names the transformer its meters are fed through. */
  lemma OneOutageIff(
      net: Net, ctx: Context, dark: seq<NodeId>, cs: seq<Cluster>, outs: seq<Outage>, d: NodeId, e: NodeId)
    requires SubtreesOk(net) && IsTree(net.tree) && forall m :: m in dark ==> m in net.tree.pathEdges
    requires forall i, m :: 0 <= i < |cs| && m in cs[i].members ==> m in net.tree.pathEdges
    requires AreClusters(net, dark, cs) && ArePassOutages(net, ctx, cs, outs) && d in dark && e in dark
    ensures InOneOutage(outs, d, e) <==> FedAlike(net, d, e)
    ensures forall i :: 0 <= i < |outs| && d in outs[i].darkMeters ==>
      FeedsFrom(net.byId, Guarded(net.tree, d), outs[i].transformer)
  {
    hide SubtreesOk, IsTree, AreClusters, ArePassOutages, FedAlike, FeedsFrom, Guarded;
    OutagesAreClusters(net, ctx, cs, outs);
    OneClusterIff(net, dark, cs, d, e);
    forall i | 0 <= i < |outs| && d in outs[i].darkMeters
      ensures FeedsFrom(net.byId, Guarded(net.tree, d), outs[i].transformer)
    {
      ClusterTransformerMeans(net, dark, cs, i, d);
    }
    if InOneCluster(cs, d, e) {
      var i :| 0 <= i < |cs| && d in cs[i].members && e in cs[i].members;
      assert d in outs[i].darkMeters && e in outs[i].darkMeters;
    }
    if InOneOutage(outs, d, e) {
      var i :| 0 <= i < |outs| && d in outs[i].darkMeters && e in outs[i].darkMeters;
      assert d in cs[i].members && e in cs[i].members;
    }
  }

  // ---- the report ----------------------------------------------------------

  /** What the passes looked at: the energized pass the dark meters its tree holds, the
      structural pass those that only the other tree holds. */
  lemma PassesMean(nodes: seq<Node>, edges: seq<Edge>, dark: seq<NodeId>, ps: Passes)
    requires GoodPasses(nodes, edges, dark, ps)
    ensures IsTree(ps.enet.tree) && SubtreesOk(ps.enet) && IsTree(ps.snet.tree) && SubtreesOk(ps.snet)
    ensures forall d :: d in ps.primary <==> d in dark && d in ps.enet.tree.pathEdges
    ensures forall d :: d in ps.fallback <==> d in dark && d !in ps.enet.tree.pathEdges && d in ps.snet.tree.pathEdges
    ensures AreClusters(ps.enet, ps.primary, ps.ec) && AreClusters(ps.snet, ps.fallback, ps.sc)
  {
    hide IsNet, AreClusters, SubtreesOk, IsTree;
    NetParts(nodes, edges, ps.enet);
    NetParts(nodes, StructuralEdges(edges), ps.snet);
  }

  lemma ReportParts(
      nodes: seq<Node>, edges: seq<Edge>, customers: map<NodeId, int>, seDead: set<NodeId>, ps: Passes, r: Report)
    requires GoodReport(nodes, edges, customers, seDead, ps, r)
    ensures PassesFit(ps) && |ps.ec| <= |r.outages|
    ensures ArePassOutages(
      ps.enet, Context(Meters(nodes), customers, seDead, Energized, {}), ps.ec, r.outages[..|ps.ec|])
    ensures ArePassOutages(
      ps.snet, Context(Meters(nodes), customers, seDead, Structural, OpenIds(edges)), ps.sc, r.outages[|ps.ec|..])
  {
    hide SubtreesOk, IsOutage;
  }

  lemma FitParts(ps: Passes)
    requires PassesFit(ps)
    ensures SubtreesOk(ps.enet) && SubtreesOk(ps.snet)
    ensures forall i, m :: 0 <= i < |ps.ec| && m in ps.ec[i].members ==> m in ps.enet.tree.pathEdges
    ensures forall i, m :: 0 <= i < |ps.sc| && m in ps.sc[i].members ==> m in ps.snet.tree.pathEdges
  {
    hide SubtreesOk;
  }

  lemma InOneOfParts(outs: seq<Outage>, k: nat, d: NodeId, e: NodeId)
    requires k <= |outs|
    ensures InOneOutage(outs, d, e) <==> InOneOutage(outs[..k], d, e) || InOneOutage(outs[k..], d, e)
  {
    if InOneOutage(outs, d, e) {
      var i :| 0 <= i < |outs| && d in outs[i].darkMeters && e in outs[i].darkMeters;
      if i < k { assert outs[..k][i] == outs[i]; } else { assert outs[k..][i - k] == outs[i]; }
    }
    if InOneOutage(outs[..k], d, e) {
      var i :| 0 <= i < k && d in outs[..k][i].darkMeters && e in outs[..k][i].darkMeters;
      assert outs[..k][i] == outs[i];
    }
    if InOneOutage(outs[k..], d, e) {
      var i :| 0 <= i < |outs| - k && d in outs[k..][i].darkMeters && e in outs[k..][i].darkMeters;
      assert outs[k..][i] == outs[i + k];
    }
  }

  lemma OthersAreNotIn(
      net: Net, dark: seq<NodeId>, cs: seq<Cluster>, ctx: Context, outs: seq<Outage>, d: NodeId, e: NodeId)
    requires SubtreesOk(net) && IsTree(net.tree) && forall m :: m in dark ==> m in net.tree.pathEdges
    requires forall i, m :: 0 <= i < |cs| && m in cs[i].members ==> m in net.tree.pathEdges
    requires AreClusters(net, dark, cs) && ArePassOutages(net, ctx, cs, outs)
    requires d !in dark || e !in dark
    ensures !InOneOutage(outs, d, e)
  {
    hide SubtreesOk, IsTree, NearestTransformer, ArePassOutages;
    OutagesAreClusters(net, ctx, cs, outs);
  }

  /** Over the whole report two located dark meters share an outage exactly when the same
      tree locates both and feeds them alike. */
  lemma SharedOutageIff(
      nodes: seq<Node>, edges: seq<Edge>, dark: seq<NodeId>, customers: map<NodeId, int>, seDead: set<NodeId>,
      ps: Passes, r: Report, d: NodeId, e: NodeId)
    requires GoodPasses(nodes, edges, dark, ps) && GoodReport(nodes, edges, customers, seDead, ps, r)
    ensures IsTree(ps.enet.tree) && IsTree(ps.snet.tree)
    ensures d in ps.primary && e in ps.primary ==>
      d in ps.enet.tree.pathEdges && e in ps.enet.tree.pathEdges
      && (InOneOutage(r.outages, d, e) <==> FedAlike(ps.enet, d, e))
    ensures d in ps.fallback && e in ps.fallback ==>
      d in ps.snet.tree.pathEdges && e in ps.snet.tree.pathEdges
      && (InOneOutage(r.outages, d, e) <==> FedAlike(ps.snet, d, e))
    ensures InOneOutage(r.outages, d, e) ==>
      (d in ps.primary && e in ps.primary) || (d in ps.fallback && e in ps.fallback)
  {
    hide *;
    PassesMean(nodes, edges, dark, ps);
    ReportParts(nodes, edges, customers, seDead, ps, r);
    FitParts(ps);
    var k := |ps.ec|;
    var ectx := Context(Meters(nodes), customers, seDead, Energized, {});
    var sctx := Context(Meters(nodes), customers, seDead, Structural, OpenIds(edges));
    InOneOfParts(r.outages, k, d, e);
    if d in ps.primary && e in ps.primary {
      OneOutageIff(ps.enet, ectx, ps.primary, ps.ec, r.outages[..k], d, e);
    } else {
      OthersAreNotIn(ps.enet, ps.primary, ps.ec, ectx, r.outages[..k], d, e);
    }
    if d in ps.fallback && e in ps.fallback {
      OneOutageIff(ps.snet, sctx, ps.fallback, ps.sc, r.outages[k..], d, e);
    } else {
      OthersAreNotIn(ps.snet, ps.fallback, ps.sc, sctx, r.outages[k..], d, e);
    }
  }

  // ---- what an outage lists ------------------------------------------------

  lemma {:induction false} KnownAreKept(dark: seq<NodeId>, S: set<NodeId>, out: set<NodeId>)
    ensures KeepKnown(dark, S, out) == Kept(dark, S - out)
  {
    if dark != [] { KnownAreKept(dark[..|dark| - 1], S, out); }
  }

  /** Each meter of `listed` is there as often as it was reported. */
  ghost predicate AsReported(dark: seq<NodeId>, listed: seq<NodeId>) {
    forall d :: d in listed ==> multiset(listed)[d] == multiset(dark)[d]
  }

  lemma KeptAsReported(dark: seq<NodeId>, S: set<NodeId>, listed: seq<NodeId>)
    requires listed == Kept(Kept(dark, S), Elems(listed))
    ensures AsReported(dark, listed)
  {
    hide Kept;
    forall d | d in listed ensures multiset(listed)[d] == multiset(dark)[d] {
      KeptCounts(Kept(dark, S), Elems(listed), d);
      KeptCounts(dark, S, d);
      assert multiset(listed)[d] > 0;
    }
  }

  lemma PassLists(net: Net, dark: seq<NodeId>, S: set<NodeId>, cs: seq<Cluster>, ctx: Context, outs: seq<Outage>)
    requires SubtreesOk(net) && forall i, m :: 0 <= i < |cs| && m in cs[i].members ==> m in net.tree.pathEdges
    requires IsTree(net.tree) && forall d :: d in Kept(dark, S) ==> d in net.tree.pathEdges
    requires AreClusters(net, Kept(dark, S), cs) && ArePassOutages(net, ctx, cs, outs)
    ensures |outs| == |cs|
    ensures forall o :: o in outs ==> AsReported(dark, o.darkMeters) && o.source == ctx.source
  {
    hide SubtreesOk, IsTree, ArePassOutages, Kept, ListedBefore, NearestTransformer, AsReported;
    OutagesAreClusters(net, ctx, cs, outs);
    SourcesOf(net, ctx, cs, outs);
    forall i | 0 <= i < |outs| ensures AsReported(dark, outs[i].darkMeters) {
      KeptAsReported(dark, S, cs[i].members);
    }
  }

  lemma SourcesOf(net: Net, ctx: Context, cs: seq<Cluster>, outs: seq<Outage>)
    requires SubtreesOk(net) && forall i, m :: 0 <= i < |cs| && m in cs[i].members ==> m in net.tree.pathEdges
    requires ArePassOutages(net, ctx, cs, outs)
    ensures |outs| == |cs| && forall i :: 0 <= i < |outs| ==> outs[i].source == ctx.source
  {
    hide SubtreesOk, IsGuardedLca, DeviceFor, SectionOk, Total, Confidence;
  }

  lemma PassesKept(nodes: seq<Node>, edges: seq<Edge>, dark: seq<NodeId>, ps: Passes)
    requires GoodPasses(nodes, edges, dark, ps)
    ensures ps.primary == Kept(dark, ps.enet.tree.Nodes())
    ensures ps.fallback == Kept(dark, ps.snet.tree.Nodes() - ps.enet.tree.Nodes())
  {
    hide IsNet, AreClusters, Kept, KeepKnown;
    KnownAreKept(dark, ps.enet.tree.Nodes(), {});
    KnownAreKept(dark, ps.snet.tree.Nodes(), ps.enet.tree.Nodes());
    assert ps.enet.tree.Nodes() - {} == ps.enet.tree.Nodes();
  }

  /** Every outage lists each of its dark meters as often as it was reported. */
  lemma OutagesListReports(
      nodes: seq<Node>, edges: seq<Edge>, dark: seq<NodeId>, customers: map<NodeId, int>, seDead: set<NodeId>,
      ps: Passes, r: Report)
    requires GoodPasses(nodes, edges, dark, ps) && GoodReport(nodes, edges, customers, seDead, ps, r)
    ensures forall o :: o in r.outages ==> AsReported(dark, o.darkMeters)
    ensures |ps.ec| <= |r.outages|
    ensures forall i :: 0 <= i < |r.outages| ==> (r.outages[i].source == Energized <==> i < |ps.ec|)
  {
    hide *;
    PassesMean(nodes, edges, dark, ps);
    ReportParts(nodes, edges, customers, seDead, ps, r);
    FitParts(ps);
    PassesKept(nodes, edges, dark, ps);
    var k := |ps.ec|;
    var eo, so := r.outages[..k], r.outages[k..];
    var ectx := Context(Meters(nodes), customers, seDead, Energized, {});
    var sctx := Context(Meters(nodes), customers, seDead, Structural, OpenIds(edges));
    PassLists(ps.enet, dark, ps.enet.tree.Nodes(), ps.ec, ectx, eo);
    PassLists(ps.snet, dark, ps.snet.tree.Nodes() - ps.enet.tree.Nodes(), ps.sc, sctx, so);
    assert r.outages == eo + so;
  }

  // ---- one outage ----------------------------------------------------------

  function SectionMeters(ctx: Context, o: Outage): set<NodeId> {
    set m | m in o.section && m in ctx.meters
  }

  function ReportedMeters(ctx: Context, o: Outage): set<NodeId> {
    set m | m in o.section && m in ctx.meters && m in o.darkMeters
  }

  /** The figures of an outage: all customers and meters of its section, the customers
      that reported, whether the estimator reads one of the dark meters dead; and its
      confidence, the share of the section's meters that reported, to three places, or a
      half where it has none. */
  lemma FiguresMean(net: Net, ctx: Context, c: Cluster, o: Outage)
    requires SubtreesOk(net) && forall m :: m in c.members ==> m in net.tree.pathEdges
    requires IsOutage(net, ctx, c, o)
    ensures o.customersAffected == Total(ctx.customers, o.section)
    ensures o.reportedCustomers == Total(ctx.customers, Elems(o.darkMeters))
    ensures o.corroborated <==> exists m :: m in o.darkMeters && m in ctx.seDead
    ensures o.sectionMeters == |SectionMeters(ctx, o)|
    ensures SectionMeters(ctx, o) == {} ==> o.confidence == 0.5
    ensures SectionMeters(ctx, o) != {} ==> IsShare(o.confidence, |ReportedMeters(ctx, o)|, |SectionMeters(ctx, o)|)
  {
    hide SubtreesOk, IsGuardedLca, DeviceFor, SectionOk, Total, Round, IsShare;
    var meters, reported := SectionMeters(ctx, o), ReportedMeters(ctx, o);
    assert o.section * ctx.meters == meters && Elems(c.members) * meters == reported;
    SubsetSize(reported, meters);
    if meters != {} {
      assert |meters| > 0;
      ShareRounded(|reported|, |meters|);
    }
    MeetIff(c.members, ctx.seDead);
  }

  lemma MeetIff(ms: seq<NodeId>, S: set<NodeId>)
    ensures Elems(ms) * S != {} <==> exists m :: m in ms && m in S
  {
    if Elems(ms) * S != {} {
      var m :| m in Elems(ms) * S;
    }
    if exists m :: m in ms && m in S {
      var m :| m in ms && m in S;
      assert m in Elems(ms) * S;
    }
  }

  /** `x` is a / b to within half a thousandth, and between nought and one. */
  predicate IsShare(x: real, a: nat, b: nat) {
    a <= b && b > 0 && 0.0 <= x <= 1.0 && -0.0005 <= x - a as real / b as real <= 0.0005
  }

  lemma ShareRounded(a: nat, b: nat)
    requires a <= b && b > 0
    ensures IsShare(Round(a as real / b as real, 1000), a, b)
  {
    hide Round;
    var x := a as real / b as real;
    assert x * b as real == a as real;
    ShareInUnit(x, a as real, b as real);
    var k := RoundIsOnGrid(x, 1000);
    assert -0.5 <= k as real <= 1000.5;
    assert 0 <= k <= 1000;
    assert k as real <= 1000.0;
  }

  lemma ShareInUnit(x: real, a: real, b: real)
    requires b > 0.0 && 0.0 <= a <= b && x * b == a
    ensures 0.0 <= x <= 1.0
  {
    assert Product(-x, b) == -a && Product(x - 1.0, b) == a - b;
    if x < 0.0 { ProductPositive(-x, b); }
    if x > 1.0 { ProductPositive(x - 1.0, b); }
  }

  /** The meters counted as dark are those some outage lists, and the silent ones are the
      meters that the estimator reads dead and no outage lists. */
  lemma CountsMean(
      nodes: seq<Node>, edges: seq<Edge>, dark: seq<NodeId>, customers: map<NodeId, int>, seDead: set<NodeId>,
      ps: Passes, r: Report)
    requires GoodPasses(nodes, edges, dark, ps) && GoodReport(nodes, edges, customers, seDead, ps, r)
    ensures r.darkCount == |set d | d in dark && InOneOutage(r.outages, d, d)|
    ensures forall d :: InOneOutage(r.outages, d, d) ==> d in dark
    ensures forall n :: n in r.silent <==>
      && n in seDead && !InOneOutage(r.outages, n, n)
      && exists node :: node in nodes && node.kind == Meter && node.id == n
  {
    hide GoodPasses, InOneOutage, FedAlike, PassesFit, ArePassOutages;
    PassesMean(nodes, edges, dark, ps);
    forall d ensures InOneOutage(r.outages, d, d) <==> d in ps.primary || d in ps.fallback {
      SharedOutageIff(nodes, edges, dark, customers, seDead, ps, r, d, d);
      if d in ps.primary { SelfFed(ps.enet, d); }
      if d in ps.fallback { SelfFed(ps.snet, d); }
    }
    assert (set d | d in dark && InOneOutage(r.outages, d, d)) == Elems(ps.primary) + Elems(ps.fallback);
  }

  lemma SelfFed(net: Net, d: NodeId)
    requires IsTree(net.tree) && d in net.tree.pathEdges
    ensures FedAlike(net, d, d)
  {
    hide IsTree, Guarded, FeedsFrom;
    FirstTransformerMeans(net.byId, Guarded(net.tree, d));
  }
}

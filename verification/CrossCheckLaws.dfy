/** When `cross_check` finds a mismatch: exactly, for any outage that names a device, and
    case by case for the structural pass. */
module CrossCheckLaws {
  import opened Graph
  import opened Grid
  import opened Results
  import opened RadialTree
  import opened TreeCuts
  import opened Restoration
  import opened Sums
  import opened Contingency
  import opened Ancestry
  import opened Inference
  import opened StructuralOutage
  import opened Validation

  /** The device is an edge the N-1 study opens. */
  ghost predicate Studied(edges: seq<Edge>, id: EdgeId) {
    exists e :: e in edges && e.id == id && IsCandidate(e)
  }

  /** The device is an edge the N-1 study opens, and opening it alone loses, to within
      the tolerance, the customers the outage counts. */
  ghost predicate CountsAgree(s: Study, nodes: seq<Node>, edges: seq<Edge>, o: Outage, tol: nat)
    requires o.device.Some?
  {
    exists e :: e in edges && e.id == o.device.value.id && IsCandidate(e)
      && Distance(o.customersAffected, Total(s.customers, LostBy(nodes, edges, e))) <= tol
  }

  lemma OutcomeIsStudied(
      s: Study, nodes: seq<Node>, edges: seq<Edge>, n1: Contingency.Report, o: Outcome) returns (e: Edge)
    requires IsReport(s, nodes, edges, n1) && o in n1.outcomes
    ensures e in edges && e.id == o.element && IsCandidate(e)
  {
    hide RepairOf, LostBy, DarkAfter;
    var i :| 0 <= i < |n1.outcomes| && n1.outcomes[i] == o;
    assert IsOutcome(s, nodes, edges, Candidates(edges)[i], n1.outcomes[i]);
    e := Candidates(edges)[i];
    assert e in Candidates(edges);
  }

  /** The study knows a device exactly when some edge of that id is one it opens. */
  lemma LookupIff(s: Study, nodes: seq<Node>, edges: seq<Edge>, n1: Contingency.Report, id: EdgeId)
    requires WellFormed(nodes, edges) && IsReport(s, nodes, edges, n1)
    ensures Lookup(n1.outcomes, id).Some? <==> Studied(edges, id)
  {
    hide WellFormed, IsOutcome, Lookup, IsCandidate;
    UniqueFrom(nodes, edges);
    if Lookup(n1.outcomes, id).Some? {
      var e := OutcomeIsStudied(s, nodes, edges, n1, Lookup(n1.outcomes, id).value);
    }
    if Studied(edges, id) {
      var e :| e in edges && e.id == id && IsCandidate(e);
      LookupFinds(s, nodes, edges, n1.outcomes, e);
    }
  }

  /** A check says that the device is unknown to the study exactly when no edge of its id
      is a closed one of a kind the study opens. */
  lemma NotInModelIff(s: Study, nodes: seq<Node>, edges: seq<Edge>, o: Outage, n1: Contingency.Report, tol: nat)
    requires WellFormed(nodes, edges) && IsReport(s, nodes, edges, n1) && o.device.Some?
    ensures CheckOf(o, n1.outcomes, tol).flags == [NotInN1Model] <==> !Studied(edges, o.device.value.id)
    ensures !Studied(edges, o.device.value.id) ==> CheckOf(o, n1.outcomes, tol).mismatch
  {
    hide WellFormed, IsReport, Lookup, Studied;
    LookupIff(s, nodes, edges, n1, o.device.value.id);
    var found := Lookup(n1.outcomes, o.device.value.id);
    if found.Some? { NeverAlone(o.customersAffected, found.value, tol); }
  }

  lemma NeverAlone(inferred: int, n1: Outcome, tol: int)
    ensures NotInN1Model !in FlagsAgainst(inferred, n1, tol)
    ensures FlagsAgainst(inferred, n1, tol) != [NotInN1Model]
    ensures CustomerCountMismatch in FlagsAgainst(inferred, n1, tol) <==> Distance(inferred, n1.lostCustomers) > tol
  {
    assert NotInN1Model in [NotInN1Model];
  }

  /** A mismatch is one of the two kinds. */
  lemma MismatchKinds(o: Outage, outcomes: seq<Outcome>, tol: nat)
    ensures CheckOf(o, outcomes, tol).mismatch
      <==> (|| CustomerCountMismatch in CheckOf(o, outcomes, tol).flags
            || CheckOf(o, outcomes, tol).flags == [NotInN1Model])
  {
    if o.device.Some? && Lookup(outcomes, o.device.value.id).Some? {
      NeverAlone(o.customersAffected, Lookup(outcomes, o.device.value.id).value, tol);
    }
  }

  /** A check of an outage with a device is no mismatch exactly when the study opens that
      device and the two customer counts agree to within the tolerance. */
  lemma MismatchIff(s: Study, nodes: seq<Node>, edges: seq<Edge>, o: Outage, n1: Contingency.Report, tol: nat)
    requires WellFormed(nodes, edges) && IsReport(s, nodes, edges, n1) && o.device.Some?
    ensures !CheckOf(o, n1.outcomes, tol).mismatch <==> CountsAgree(s, nodes, edges, o, tol)
  {
    hide WellFormed, Lookup, IsOutcome, LostBy, Total, IsCandidate, Distance, FlagsAgainst;
    UniqueFrom(nodes, edges);
    var id := o.device.value.id;
    LookupIff(s, nodes, edges, n1, id);
    if Studied(edges, id) {
      var e :| e in edges && e.id == id && IsCandidate(e);
      LookupFinds(s, nodes, edges, n1.outcomes, e);
      LostCustomersAre(s, nodes, edges, e, Lookup(n1.outcomes, id).value);
      NeverAlone(o.customersAffected, Lookup(n1.outcomes, id).value, tol);
      forall f | f in edges && f.id == id ensures f == e {
        SameEdge(edges, e, f);
      }
    }
  }

  // ---- the structural pass -------------------------------------------------

  /** The edge a structural tree names, as it stands in the network. */
  lemma StandingEdge(nodes: seq<Node>, edges: seq<Edge>, snet: Net, n: NodeId) returns (e: Edge)
    requires WellFormed(nodes, edges) && IsNet(nodes, StructuralEdges(edges), snet) && n in snet.tree.parentEdge
    ensures e in edges && e.normallyClosed && e.id == snet.tree.parentEdge[n].id
    ensures LinkOf(e) == LinkOf(snet.tree.parentEdge[n])
    ensures e.isClosed <==> e.id !in OpenIds(edges)
  {
    hide IsNet, WellFormed, Below;
    ParentLink(nodes, StructuralEdges(edges), snet, n);
    e :| e in edges && e.normallyClosed && snet.tree.parentEdge[n] == e.(isClosed := true);
    UniqueFrom(nodes, edges);
    forall f | f in edges && f.id == e.id ensures f == e {
      SameEdge(edges, e, f);
    }
  }

  /** A structural-pass outage whose ancestor has an opened device above it is always a
      mismatch, since the study opens closed edges only; one whose ancestor has none is
      blamed on a closed edge, or on none at the root, and then the counts decide. */
  lemma StructuralVerdict(
      s: Study, nodes: seq<Node>, edges: seq<Edge>, snet: Net, ctx: Context, c: Cluster, o: Outage,
      n1: Contingency.Report, tol: nat)
    requires WellFormed(nodes, edges) && IsNet(nodes, StructuralEdges(edges), snet) && SubtreesOk(snet)
    requires ctx.source == Structural && ctx.open == OpenIds(edges)
    requires (forall m :: m in c.members ==> m in snet.tree.pathEdges) && IsOutage(snet, ctx, c, o)
    requires IsReport(s, nodes, edges, n1)
    ensures IsTree(snet.tree) && o.lca in snet.tree.pathEdges
    ensures FirstOpen(snet.tree, OpenIds(edges), o.lca).Some? ==>
      CheckOf(o, n1.outcomes, tol).mismatch && CheckOf(o, n1.outcomes, tol).flags == [NotInN1Model]
    ensures FirstOpen(snet.tree, OpenIds(edges), o.lca).None? && o.lca == snet.tree.root ==>
      o.device.None? && !CheckOf(o, n1.outcomes, tol).mismatch
    ensures FirstOpen(snet.tree, OpenIds(edges), o.lca).None? && o.lca != snet.tree.root ==>
      && o.device.Some? && StandsClosed(edges, o.device.value.id)
      && (!CheckOf(o, n1.outcomes, tol).mismatch <==> CountsAgree(s, nodes, edges, o, tol))
  {
    hide IsNet, WellFormed, SubtreesOk, IsTree, IsGuardedLca, OpenIds, IsReport, CountsAgree, Studied, CheckOf;
    TreeOf(snet);
    LcaKnown(snet.tree, c.members, o.lca);
    var first := FirstOpen(snet.tree, OpenIds(edges), o.lca);
    if first.Some? {
      var k := FirstOpenIsParentEdge(snet.tree, OpenIds(edges), o.lca);
      var e := StandingEdge(nodes, edges, snet, k);
      OpenIsNotStudied(nodes, edges, e);
      NotInModelIff(s, nodes, edges, o, n1, tol);
    } else if o.lca == snet.tree.root {
      NoDeviceNoMismatch(o, n1.outcomes, tol);
    } else {
      OffRoot(snet.tree, o.lca);
      NoneOpenHere(snet.tree, OpenIds(edges), o.lca);
      var e := StandingEdge(nodes, edges, snet, o.lca);
      MismatchIff(s, nodes, edges, o, n1, tol);
    }
  }

  /** In particular a dark ancestor, which has an opened device above it. */
  lemma DarkAncestorIsFlagged(
      s: Study, nodes: seq<Node>, edges: seq<Edge>, snet: Net, ctx: Context, c: Cluster, o: Outage,
      n1: Contingency.Report, tol: nat)
    requires WellFormed(nodes, edges) && IsNet(nodes, StructuralEdges(edges), snet) && SubtreesOk(snet)
    requires ctx.source == Structural && ctx.open == OpenIds(edges)
    requires (forall m :: m in c.members ==> m in snet.tree.pathEdges) && IsOutage(snet, ctx, c, o)
    requires o.lca in snet.tree.pathEdges && o.lca !in Reach(ClosedLinks(edges), {snet.tree.root})
    requires IsReport(s, nodes, edges, n1)
    ensures CheckOf(o, n1.outcomes, tol).mismatch && CheckOf(o, n1.outcomes, tol).flags == [NotInN1Model]
  {
    hide *;
    StructuralVerdict(s, nodes, edges, snet, ctx, c, o, n1, tol);
    if FirstOpen(snet.tree, OpenIds(edges), o.lca).None? {
      NoneOpenMeansLive(nodes, edges, snet, o.lca);
    }
  }

  lemma NoDeviceNoMismatch(o: Outage, outcomes: seq<Outcome>, tol: int)
    requires o.device.None?
    ensures !CheckOf(o, outcomes, tol).mismatch
  {
  }

  lemma NoneOpenHere(t: Tree, open: set<EdgeId>, n: NodeId)
    requires IsTree(t) && n in t.pathEdges && n in t.parentEdge && FirstOpen(t, open, n).None?
    ensures t.parentEdge[n].id !in open
  {
  }

  lemma OpenIsNotStudied(nodes: seq<Node>, edges: seq<Edge>, e: Edge)
    requires WellFormed(nodes, edges) && e in edges && !e.isClosed
    ensures !Studied(edges, e.id)
  {
    UniqueFrom(nodes, edges);
    forall f | f in edges && f.id == e.id ensures f == e {
      SameEdge(edges, e, f);
    }
  }

  /** The radial network as it was built: one substation, no loop among the
      normally-closed edges, and none but those closed. */
  ghost predicate NormalFeeder(nodes: seq<Node>, edges: seq<Edge>) {
    && WellFormed(nodes, edges) && |SourceList(nodes)| == 1
    && IsRadial(nodes, StructuralEdges(edges), EnergizedBy(nodes, StructuralEdges(edges)))
    && forall e :: e in edges && e.isClosed ==> e.normallyClosed
  }

  /** What opening a live edge of a forest loses: the live part of what hangs below it. */
  lemma LosesLivePart(E: set<Link>, E': set<Link>, l: Link, root: NodeId, top: NodeId, below: set<NodeId>)
    requires l in E && E <= E' && top in Reach(E, {root}) && top in below && (l.a == top || l.b == top)
    requires Reach(E' - {l}, {root}) == Reach(E', {root}) - below && below <= Reach(E', {root})
    ensures Reach(E, {root}) - Reach(E - {l}, {root}) == Reach(E, {root}) * below
  {
    hide Reach;
    var R, C := Reach(E, {root}), Reach(E - {l}, {root});
    ReachIsLeast(E, {root});
    ReachIsLeast(E - {l}, {root});
    ReachIsLeast(E', {root});
    ReachIsLeast(E' - {l}, {root});
    ReachMonotone(E - {l}, {root}, E' - {l}, {root});
    assert top !in C;
    assert !Closed(E, C);
    assert Closed(E, C + below);
  }

  lemma StructuralLinks(edges: seq<Edge>)
    requires forall e :: e in edges && e.isClosed ==> e.normallyClosed
    ensures ClosedLinks(edges) <= ClosedLinks(StructuralEdges(edges))
  {
    forall l | l in ClosedLinks(edges) ensures l in ClosedLinks(StructuralEdges(edges)) {
      var e :| e in edges && e.isClosed && LinkOf(e) == l;
      assert e.(isClosed := true) in StructuralEdges(edges);
    }
  }

  /** On a normal feeder, N-1 of a live structural edge loses the energized part of its
      section. */
  lemma LostIsLiveSection(nodes: seq<Node>, edges: seq<Edge>, snet: Net, n: NodeId, e: Edge)
    requires NormalFeeder(nodes, edges) && IsNet(nodes, StructuralEdges(edges), snet)
    requires n in snet.tree.parentEdge && n in EnergizedBy(nodes, edges)
    requires e in edges && e.isClosed && LinkOf(e) == LinkOf(snet.tree.parentEdge[n])
    ensures IsTree(snet.tree)
    ensures LostBy(nodes, edges, e) == EnergizedBy(nodes, edges) * Below(snet.tree, n)
  {
    hide Reach, WellFormed, Toggle, ClosedLinks, IsRadial, IsNet, Slack, Below, SubtreesOk, IsTree;
    var se := StructuralEdges(edges);
    StructuralWellFormed(nodes, edges);
    OneSource(nodes);
    RootIsSource(nodes, se, snet);
    RadialMeansNoSlack(nodes, se);
    OutageIsSubtree(nodes, se, snet, n);
    UniqueFrom(nodes, edges);
    ToggleLinks(edges, e);
    StructuralLinks(edges);
    ParentLink(nodes, se, snet, n);
    NetParts(nodes, se, snet);
    SectionKnown(snet, n);
    assert LinkOf(e) in ClosedLinks(edges) by { ClosedLinkIn(edges, e); }
    LosesLivePart(ClosedLinks(edges), ClosedLinks(se), LinkOf(e), snet.tree.root, n, Below(snet.tree, n));
  }

  lemma ClosedLinkIn(edges: seq<Edge>, e: Edge)
    requires e in edges && e.isClosed
    ensures LinkOf(e) in ClosedLinks(edges)
  {
  }

  lemma SectionKnown(net: Net, n: NodeId)
    requires SubtreesOk(net) && n in net.tree.parentEdge
    ensures IsTree(net.tree) && n in Below(net.tree, n) && Below(net.tree, n) <= net.tree.Nodes()
    ensures net.tree.parentEdge[n].id in net.subtree
    ensures net.subtree[net.tree.parentEdge[n].id] == Below(net.tree, n)
  {
    assert Chain(net.tree, n)[0] == n;
  }

  lemma {:induction false} TotalApart(w: map<NodeId, int>, S: set<NodeId>, T: set<NodeId>)
    requires S !! T
    ensures Total(w, S + T) == Total(w, S) + Total(w, T)
    decreases |S|
  {
    if S == {} {
      assert S + T == T;
    } else {
      var x :| x in S;
      TotalApart(w, S - {x}, T);
      assert (S + T) - {x} == (S - {x}) + T;
      TotalSplit(w, S, x);
      TotalSplit(w, S + T, x);
    }
  }

  /** On a normal feeder, an outage whose ancestor is still live is a mismatch exactly
      when its device is of a kind the study leaves out, or when more customers than the
      tolerance allows sit in its section without supply: those N-1 cannot lose. */
  lemma LiveAncestorIff(
      s: Study, nodes: seq<Node>, edges: seq<Edge>, snet: Net, ctx: Context, c: Cluster, o: Outage,
      n1: Contingency.Report, tol: nat)
    requires NormalFeeder(nodes, edges) && IsNet(nodes, StructuralEdges(edges), snet) && SubtreesOk(snet)
    requires ctx.source == Structural && ctx.open == OpenIds(edges) && ctx.customers == s.customers
    requires (forall m :: m in c.members ==> m in snet.tree.pathEdges) && IsOutage(snet, ctx, c, o)
    requires IsReport(s, nodes, edges, n1) && o.lca != snet.tree.root
    requires IsTree(snet.tree) && o.lca in snet.tree.pathEdges
    requires FirstOpen(snet.tree, OpenIds(edges), o.lca).None?
    ensures o.device.Some?
    ensures !CheckOf(o, n1.outcomes, tol).mismatch
      <==> Studied(edges, o.device.value.id)
           && Distance(Total(s.customers, o.section - EnergizedBy(nodes, edges)), 0) <= tol
  {
    hide *;
    NormalIsWellFormed(nodes, edges);
    StructuralVerdict(s, nodes, edges, snet, ctx, c, o, n1, tol);
    LiveBlame(snet, ctx, c, o);
    var e := LiveLoss(nodes, edges, snet, o.lca);
    var live := EnergizedBy(nodes, edges);
    TotalParts(s.customers, o.section, live);
    OnlyEdgeDecides(s, nodes, edges, o, tol, e);
    assert live * Below(snet.tree, o.lca) == o.section * live;
    DistanceDrops(Total(s.customers, o.section * live), Total(s.customers, o.section - live));
  }

  lemma NormalIsWellFormed(nodes: seq<Node>, edges: seq<Edge>)
    requires NormalFeeder(nodes, edges)
    ensures WellFormed(nodes, edges)
  {
  }

  lemma DistanceDrops(x: int, y: int)
    ensures Distance(x + y, x) == Distance(y, 0)
  {
  }

  lemma TotalParts(w: map<NodeId, int>, S: set<NodeId>, T: set<NodeId>)
    ensures Total(w, S) == Total(w, S * T) + Total(w, S - T)
  {
    TotalApart(w, S * T, S - T);
    assert S * T + (S - T) == S;
  }

  lemma OnlyEdgeDecides(s: Study, nodes: seq<Node>, edges: seq<Edge>, o: Outage, tol: nat, e: Edge)
    requires o.device.Some? && e in edges && e.id == o.device.value.id
    requires forall f :: f in edges && f.id == e.id ==> f == e
    ensures CountsAgree(s, nodes, edges, o, tol)
      <==> Studied(edges, e.id) && Distance(o.customersAffected, Total(s.customers, LostBy(nodes, edges, e))) <= tol
  {
    hide IsCandidate, Distance, Total, LostBy;
  }

  lemma LiveLoss(nodes: seq<Node>, edges: seq<Edge>, snet: Net, n: NodeId) returns (e: Edge)
    requires NormalFeeder(nodes, edges) && IsNet(nodes, StructuralEdges(edges), snet) && IsTree(snet.tree)
    requires n in snet.tree.pathEdges && n in snet.tree.parentEdge
    requires FirstOpen(snet.tree, OpenIds(edges), n).None?
    ensures e in edges && e.id == snet.tree.parentEdge[n].id
    ensures forall f :: f in edges && f.id == e.id ==> f == e
    ensures LostBy(nodes, edges, e) == EnergizedBy(nodes, edges) * Below(snet.tree, n)
  {
    hide IsNet, WellFormed, IsTree, OpenIds, LostBy, EnergizedBy, FirstOpen, IsRadial, Below;
    OneSource(nodes);
    RootIsSource(nodes, StructuralEdges(edges), snet);
    NoneOpenMeansLive(nodes, edges, snet, n);
    LiveHere(nodes, edges, snet.tree.root, n);
    e := StandingEdge(nodes, edges, snet, n);
    NoneOpenHere(snet.tree, OpenIds(edges), n);
    LostIsLiveSection(nodes, edges, snet, n, e);
    UniqueFrom(nodes, edges);
    forall f | f in edges && f.id == e.id ensures f == e {
      SameEdge(edges, e, f);
    }
  }

  lemma LiveHere(nodes: seq<Node>, edges: seq<Edge>, root: NodeId, n: NodeId)
    requires Sources(nodes) == {root} && n in Reach(ClosedLinks(edges), {root})
    ensures n in EnergizedBy(nodes, edges)
  {
  }

  lemma LiveBlame(net: Net, ctx: Context, c: Cluster, o: Outage)
    requires SubtreesOk(net) && ctx.source == Structural && IsTree(net.tree) && o.lca in net.tree.pathEdges
    requires (forall m :: m in c.members ==> m in net.tree.pathEdges) && IsOutage(net, ctx, c, o)
    requires FirstOpen(net.tree, ctx.open, o.lca).None? && o.lca != net.tree.root
    ensures o.lca in net.tree.parentEdge && o.device == Some(net.tree.parentEdge[o.lca])
    ensures o.section == Below(net.tree, o.lca) && o.customersAffected == Total(ctx.customers, o.section)
  {
    hide SubtreesOk, IsTree, IsGuardedLca, Total, Confidence, FirstOpen;
    OffRoot(net.tree, o.lca);
    SectionKnown(net, o.lca);
  }

  // ---- the flags -----------------------------------------------------------

  /** The last contingency of that element, if there is one. */
  ghost predicate LastOf(outcomes: seq<Outcome>, id: EdgeId, o: Outcome) {
    exists i :: IsLastOf(outcomes, id, o, i)
  }

  ghost predicate IsLastOf(outcomes: seq<Outcome>, id: EdgeId, o: Outcome, i: int) {
    && 0 <= i < |outcomes| && outcomes[i] == o && o.element == id
    && forall j :: i < j < |outcomes| ==> outcomes[j].element != id
  }

  lemma {:induction false} LookupIsLast(outcomes: seq<Outcome>, id: EdgeId)
    ensures Lookup(outcomes, id).Some? ==> LastOf(outcomes, id, Lookup(outcomes, id).value)
  {
    if outcomes != [] {
      var k := |outcomes| - 1;
      if outcomes[k].element == id {
        assert IsLastOf(outcomes, id, outcomes[k], k);
      } else {
        LookupIsLast(outcomes[..k], id);
        if Lookup(outcomes, id).Some? {
          var i :| IsLastOf(outcomes[..k], id, Lookup(outcomes, id).value, i);
          assert IsLastOf(outcomes, id, Lookup(outcomes, id).value, i);
        }
      }
    }
  }

  /** What each flag of a check says: no device; a device the study lacks; or, against the
      study's last outcome for it, counts apart by more than the tolerance, ties that
      bring supply back, load that stays unserved, and violations afterwards. */
  lemma FlagsMean(o: Outage, outcomes: seq<Outcome>, tol: int)
    ensures var check := CheckOf(o, outcomes, tol);
      && check.inferredCustomers == o.customersAffected
      && (check.device.Some? <==> o.device.Some?) && (o.device.Some? ==> check.device == Some(o.device.value.id))
      && (WholeFeeder in check.flags <==> o.device.None?)
      && (NotInN1Model in check.flags <==> o.device.Some? && check.n1.None?)
      && (check.n1.Some? ==> o.device.Some? && LastOf(outcomes, o.device.value.id, check.n1.value))
      && (CustomerCountMismatch in check.flags <==>
            check.n1.Some? && Apart(o.customersAffected, check.n1.value.lostCustomers, tol))
      && (RestorableViaTie in check.flags <==> check.n1.Some? && check.n1.value.restoredBy != [])
      && (ConfirmsUnserved in check.flags <==>
            check.n1.Some? && (check.n1.value.classification == Unserved || check.n1.value.classification == Partial))
      && (PostViolation in check.flags <==> check.n1.Some? && check.n1.value.postViolations > 0)
      && (check.mismatch <==> CustomerCountMismatch in check.flags || NotInN1Model in check.flags)
  {
    hide Lookup, LastOf;
    if o.device.Some? { LookupIsLast(outcomes, o.device.value.id); }
  }

  predicate Apart(x: int, y: int, tol: int) {
    x - y > tol || y - x > tol
  }
}

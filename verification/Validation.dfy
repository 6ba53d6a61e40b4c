/** Outage inference checked against N-1 analysis, and why the two must agree. */
module Validation {
  import opened Graph
  import opened Grid
  import opened Results
  import opened RadialTree
  import opened TreeCuts
  import opened Restoration
  import opened Sums
  import opened Contingency
  import opened Ancestry
  import opened Inference
  import opened Sequences

  datatype Flag =
    | WholeFeeder | NotInN1Model | CustomerCountMismatch | RestorableViaTie | ConfirmsUnserved | PostViolation

  datatype Check = Check(
    device: Option<EdgeId>, inferredCustomers: int, n1: Option<Outcome>, flags: seq<Flag>, mismatch: bool)

  /** `by_elem`: of several contingencies for one element the last counts. */
  function Lookup(contingencies: seq<Outcome>, id: EdgeId): (r: Option<Outcome>)
    ensures r.Some? ==> r.value in contingencies && r.value.element == id
    ensures r.None? ==> forall c :: c in contingencies ==> c.element != id
  {
    if contingencies == [] then None
    else
      var last := contingencies[|contingencies| - 1];
      if last.element == id then Some(last) else Lookup(contingencies[..|contingencies| - 1], id)
  }

  function Distance(x: int, y: int): nat {
    if x >= y then x - y else y - x
  }

  function FlagsAgainst(inferred: int, n1: Outcome, tol: int): seq<Flag> {
    (if Distance(inferred, n1.lostCustomers) > tol then [CustomerCountMismatch] else [])
    + (if n1.restoredBy != [] then [RestorableViaTie] else [])
    + (if n1.classification in {Unserved, Partial} then [ConfirmsUnserved] else [])
    + (if n1.postViolations > 0 then [PostViolation] else [])
  }

  function CheckOf(o: Outage, contingencies: seq<Outcome>, tol: int): Check {
    match o.device
    case None => Check(None, o.customersAffected, None, [WholeFeeder], false)
    case Some(e) =>
      match Lookup(contingencies, e.id)
      case None => Check(Some(e.id), o.customersAffected, None, [NotInN1Model], true)
      case Some(n1) =>
        var flags := FlagsAgainst(o.customersAffected, n1, tol);
        Check(Some(e.id), o.customersAffected, Some(n1), flags, CustomerCountMismatch in flags)
  }

  /** The flags of one outage, gathered the way the source does. */
  method CheckOutage(o: Outage, contingencies: seq<Outcome>, tol: int) returns (check: Check)
    ensures check == CheckOf(o, contingencies, tol)
  {
    hide Lookup;
    var eid := if o.device.Some? then Some(o.device.value.id) else None;
    var flags: seq<Flag> := [];
    var n1: Option<Outcome> := None;
    if eid.None? {
      flags := flags + [WholeFeeder];
    } else {
      n1 := Lookup(contingencies, eid.value);
      if n1.None? {
        flags := flags + [NotInN1Model];
      } else {
        if Distance(o.customersAffected, n1.value.lostCustomers) > tol {
          flags := flags + [CustomerCountMismatch];
        }
        if n1.value.restoredBy != [] {
          flags := flags + [RestorableViaTie];
        }
        if n1.value.classification in {Unserved, Partial} {
          flags := flags + [ConfirmsUnserved];
        }
        if n1.value.postViolations > 0 {
          flags := flags + [PostViolation];
        }
      }
    }
    check := Check(eid, o.customersAffected, n1, flags, CustomerCountMismatch in flags || NotInN1Model in flags);
    CheckBuilt(o, contingencies, tol, check);
  }

  /** How many of the checks are mismatches. */
  function Mismatches(checks: seq<Check>): (k: nat)
    ensures k == 0 <==> forall i :: 0 <= i < |checks| ==> !checks[i].mismatch
    ensures k <= |checks|
  {
    if checks == [] then 0
    else Mismatches(checks[..|checks| - 1]) + if checks[|checks| - 1].mismatch then 1 else 0
  }

  lemma {:induction false} MismatchesAdd(a: seq<Check>, b: seq<Check>)
    ensures Mismatches(a + b) == Mismatches(a) + Mismatches(b)
  {
    if b == [] {
      assert a + b == a;
    } else {
      MismatchesAdd(a, b[..|b| - 1]);
      assert (a + b)[..|a + b| - 1] == a + b[..|b| - 1];
    }
  }

  /** `cross_check`, outage by outage. */
  method CrossCheck(outages: seq<Outage>, contingencies: seq<Outcome>, tol: int)
    returns (checks: seq<Check>, consistent: bool, mismatches: nat)
    ensures |checks| == |outages|
    ensures forall i :: 0 <= i < |outages| ==> checks[i] == CheckOf(outages[i], contingencies, tol)
    ensures mismatches == Mismatches(checks)
    ensures consistent <==> forall i :: 0 <= i < |checks| ==> !checks[i].mismatch
  {
    hide CheckOf;
    checks, mismatches := [], 0;
    for k := 0 to |outages|
      invariant |checks| == k
      invariant forall i :: 0 <= i < k ==> checks[i] == CheckOf(outages[i], contingencies, tol)
      invariant mismatches == Mismatches(checks)
    {
      var check := CheckOutage(outages[k], contingencies, tol);
      assert (checks + [check])[..k] == checks;
      checks := checks + [check];
      mismatches := mismatches + if check.mismatch then 1 else 0;
    }
    consistent := mismatches == 0;
  }

  lemma CheckBuilt(o: Outage, contingencies: seq<Outcome>, tol: int, c: Check)
    requires c.device == (if o.device.Some? then Some(o.device.value.id) else None)
    requires c.inferredCustomers == o.customersAffected
    requires c.n1 == if c.device.None? then None else Lookup(contingencies, c.device.value)
    requires c.flags ==
      (if c.device.None? then [WholeFeeder]
       else if c.n1.None? then [NotInN1Model]
       else FlagsAgainst(o.customersAffected, c.n1.value, tol))
    requires c.mismatch <==> CustomerCountMismatch in c.flags || NotInN1Model in c.flags
    ensures c == CheckOf(o, contingencies, tol)
  {
  }

  // ---- the two computations agree ------------------------------------------

  /** One substation, no loops, and every closed edge of a kind the N-1 study opens. */
  ghost predicate RadialFeeder(nodes: seq<Node>, edges: seq<Edge>) {
    && WellFormed(nodes, edges) && |SourceList(nodes)| == 1
    && IsRadial(nodes, edges, EnergizedBy(nodes, edges))
    && forall e :: e in edges && e.isClosed ==> IsCandidate(e)
  }

  lemma OneSource(nodes: seq<Node>)
    requires |SourceList(nodes)| == 1
    ensures Sources(nodes) == {SourceList(nodes)[0]}
  {
  }

  /** N-1 loses exactly the subtree that inference reports for a tree edge. */
  lemma LostIsSubtree(nodes: seq<Node>, edges: seq<Edge>, net: Net, k: NodeId)
    requires RadialFeeder(nodes, edges) && IsNet(nodes, edges, net) && k in net.tree.parentEdge
    ensures net.tree.parentEdge[k].id in net.subtree
    ensures LostBy(nodes, edges, net.tree.parentEdge[k]) == net.subtree[net.tree.parentEdge[k].id]
  {
    hide Reach, WellFormed, Toggle, ClosedLinks, IsRadial, IsNet, Slack, Below;
    var e := net.tree.parentEdge[k];
    OneSource(nodes);
    RootIsSource(nodes, edges, net);
    ParentLink(nodes, edges, net, k);
    RadialMeansNoSlack(nodes, edges);
    OutageIsSubtree(nodes, edges, net, k);
    UniqueFrom(nodes, edges);
    ToggleLinks(edges, e);
    SubtreeInside(nodes, edges, net, k);
  }

  lemma RootIsSource(nodes: seq<Node>, edges: seq<Edge>, net: Net)
    requires IsNet(nodes, edges, net)
    ensures SourceList(nodes) != [] && net.tree.root == SourceList(nodes)[0]
    ensures net.tree.Nodes() == Reach(ClosedLinks(edges), {net.tree.root})
  {
  }

  lemma SubtreeInside(nodes: seq<Node>, edges: seq<Edge>, net: Net, k: NodeId)
    requires IsNet(nodes, edges, net) && k in net.tree.parentEdge
    ensures net.tree.parentEdge[k].id in net.subtree && net.subtree[net.tree.parentEdge[k].id] <= net.tree.Nodes()
  {
    hide Reach, Rooted, Spans;
  }

  lemma LookupFinds(s: Study, nodes: seq<Node>, edges: seq<Edge>, outcomes: seq<Outcome>, e: Edge)
    requires UniqueIds(edges) && e in edges && IsCandidate(e) && |outcomes| == |Candidates(edges)|
    requires forall i :: 0 <= i < |outcomes| ==> IsOutcome(s, nodes, edges, Candidates(edges)[i], outcomes[i])
    ensures Lookup(outcomes, e.id).Some? && IsOutcome(s, nodes, edges, e, Lookup(outcomes, e.id).value)
  {
    hide RepairOf, LostBy, DarkAfter;
    var cs := Candidates(edges);
    var j :| 0 <= j < |cs| && cs[j] == e;
    assert IsOutcome(s, nodes, edges, cs[j], outcomes[j]);
    assert outcomes[j] in outcomes;
    var o := Lookup(outcomes, e.id).value;
    var i :| 0 <= i < |outcomes| && outcomes[i] == o;
    assert IsOutcome(s, nodes, edges, cs[i], outcomes[i]);
    assert cs[i] in cs;
  }

  /** For every energized-pass outage of a radial feeder the N-1 study of the blamed device
      counts the same customers, so no check is a mismatch. */
  lemma InferenceMatchesN1(
      s: Study, nodes: seq<Node>, edges: seq<Edge>, net: Net, ctx: Context, c: Cluster, o: Outage,
      outcomes: seq<Outcome>, tol: nat)
    requires RadialFeeder(nodes, edges) && IsNet(nodes, edges, net) && SubtreesOk(net)
    requires ctx.source == Energized && ctx.customers == s.customers
    requires (forall m :: m in c.members ==> m in net.tree.pathEdges) && IsOutage(net, ctx, c, o)
    requires |outcomes| == |Candidates(edges)|
    requires forall i :: 0 <= i < |outcomes| ==> IsOutcome(s, nodes, edges, Candidates(edges)[i], outcomes[i])
    ensures !CheckOf(o, outcomes, tol).mismatch
    ensures o.device.Some? ==>
      Lookup(outcomes, o.device.value.id).Some?
      && Lookup(outcomes, o.device.value.id).value.lostCustomers == o.customersAffected
  {
    hide IsNet, SubtreesOk, IsOutcome, LostBy, Total, IsTree, IsOutage, WellFormed, IsRadial;
    if o.device.Some? {
      BlamedSubtree(net, ctx, c, o);
      var e := net.tree.parentEdge[o.lca];
      ParentEdgeStands(nodes, edges, net, o.lca);
      UniqueFrom(nodes, edges);
      LookupFinds(s, nodes, edges, outcomes, e);
      LostIsSubtree(nodes, edges, net, o.lca);
      LostCustomersAre(s, nodes, edges, e, Lookup(outcomes, e.id).value);
    }
  }

  /** An energized-pass outage that names a device counts the customers of its subtree. */
  lemma BlamedSubtree(net: Net, ctx: Context, c: Cluster, o: Outage)
    requires SubtreesOk(net) && ctx.source == Energized && o.device.Some?
    requires (forall m :: m in c.members ==> m in net.tree.pathEdges) && IsOutage(net, ctx, c, o)
    ensures o.lca in net.tree.parentEdge && o.device == Some(net.tree.parentEdge[o.lca])
    ensures o.device.value.id in net.subtree
    ensures o.customersAffected == Total(ctx.customers, net.subtree[o.device.value.id])
  {
    hide SubtreesOk, IsTree, IsGuardedLca, Total, Confidence;
    TreeOf(net);
    LcaKnown(net.tree, c.members, o.lca);
    OffRoot(net.tree, o.lca);
  }

  /** So `cross_check` reports no mismatch for any outage of an energized pass. */
  lemma PassIsConsistent(
      s: Study, nodes: seq<Node>, edges: seq<Edge>, net: Net, ctx: Context, cs: seq<Cluster>, outs: seq<Outage>,
      outcomes: seq<Outcome>, tol: nat)
    requires RadialFeeder(nodes, edges) && IsNet(nodes, edges, net) && SubtreesOk(net)
    requires ctx.source == Energized && ctx.customers == s.customers
    requires forall i, m :: 0 <= i < |cs| && m in cs[i].members ==> m in net.tree.pathEdges
    requires ArePassOutages(net, ctx, cs, outs) && |outcomes| == |Candidates(edges)|
    requires forall i :: 0 <= i < |outcomes| ==> IsOutcome(s, nodes, edges, Candidates(edges)[i], outcomes[i])
    ensures forall i :: 0 <= i < |outs| ==> !CheckOf(outs[i], outcomes, tol).mismatch
  {
    hide IsNet, SubtreesOk, RadialFeeder, IsOutcome, IsOutage, CheckOf;
    forall i | 0 <= i < |outs| ensures !CheckOf(outs[i], outcomes, tol).mismatch {
      InferenceMatchesN1(s, nodes, edges, net, ctx, cs[i], outs[i], outcomes, tol);
    }
  }

  /** From `infer` and `analyze` to `cross_check`: on a radial feeder no outage of the
      energized pass is a mismatch. */
  lemma ReportsAgree(
      s: Study, nodes: seq<Node>, edges: seq<Edge>, dark: seq<NodeId>, seDead: set<NodeId>, ps: Passes,
      r: Inference.Report, n1: Contingency.Report, tol: nat)
    requires RadialFeeder(nodes, edges) && GoodPasses(nodes, edges, dark, ps)
    requires GoodReport(nodes, edges, s.customers, seDead, ps, r) && IsReport(s, nodes, edges, n1)
    ensures |ps.ec| <= |r.outages|
    ensures forall i :: 0 <= i < |ps.ec| ==> !CheckOf(r.outages[i], n1.outcomes, tol).mismatch
  {
    hide IsNet, SubtreesOk, RadialFeeder, IsOutcome, ArePassOutages, CheckOf, AreClusters;
    var ctx, k := Context(Meters(nodes), s.customers, seDead, Energized, {}), |ps.ec|;
    PassIsConsistent(s, nodes, edges, ps.enet, ctx, ps.ec, r.outages[..k], n1.outcomes, tol);
    forall i | 0 <= i < k ensures !CheckOf(r.outages[i], n1.outcomes, tol).mismatch {
      assert r.outages[..k][i] == r.outages[i];
    }
  }

  /** So every mismatch `cross_check` counts over the whole report is of the structural
      pass. */
  lemma MismatchesAreStructural(
      s: Study, nodes: seq<Node>, edges: seq<Edge>, dark: seq<NodeId>, seDead: set<NodeId>, ps: Passes,
      r: Inference.Report, n1: Contingency.Report, tol: nat, checks: seq<Check>)
    requires RadialFeeder(nodes, edges) && GoodPasses(nodes, edges, dark, ps)
    requires GoodReport(nodes, edges, s.customers, seDead, ps, r) && IsReport(s, nodes, edges, n1)
    requires |checks| == |r.outages|
    requires forall i :: 0 <= i < |checks| ==> checks[i] == CheckOf(r.outages[i], n1.outcomes, tol)
    ensures |ps.ec| + |ps.sc| == |checks|
    ensures Mismatches(checks) == Mismatches(checks[|ps.ec|..])
  {
    hide GoodPasses, RadialFeeder, IsReport, PassesFit, ArePassOutages, CheckOf;
    ReportsAgree(s, nodes, edges, dark, seDead, ps, r, n1, tol);
    var k := |ps.ec|;
    assert checks == checks[..k] + checks[k..];
    MismatchesAdd(checks[..k], checks[k..]);
  }

  lemma ParentEdgeStands(nodes: seq<Node>, edges: seq<Edge>, net: Net, k: NodeId)
    requires IsNet(nodes, edges, net) && k in net.tree.parentEdge
    ensures net.tree.parentEdge[k] in edges && net.tree.parentEdge[k].isClosed
  {
    hide Reach, SubtreesOk;
    assert k in Elems(net.tree.order) by { TreeNode(nodes, edges, net, k); }
    var i :| 0 <= i < |net.tree.order| && net.tree.order[i] == k;
    assert ParentOk(edges, net.tree.parentEdge[net.tree.order[i]], net.tree.order[i], net.tree.order[..i]);
  }

  lemma TreeNode(nodes: seq<Node>, edges: seq<Edge>, net: Net, k: NodeId)
    requires IsNet(nodes, edges, net) && k in net.tree.parentEdge
    ensures k in Elems(net.tree.order) && k != net.tree.root
  {
    hide Reach, Below, ParentOk;
  }

  lemma LostCustomersAre(s: Study, nodes: seq<Node>, edges: seq<Edge>, e: Edge, o: Outcome)
    requires IsOutcome(s, nodes, edges, e, o)
    ensures o.lostCustomers == Total(s.customers, LostBy(nodes, edges, e))
  {
    hide RepairOf, LostBy, DarkAfter, Total, TotalR;
  }
}

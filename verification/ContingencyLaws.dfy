/** What the classes, the ranking and the coverage of an N-1 study mean, said of what was
    lost, closed and violated. */
module ContingencyLaws {
  import opened Graph
  import opened Grid
  import opened Restoration
  import opened RestorationLaws
  import opened Sums
  import opened ComplexNumbers
  import opened Contingency

  // ---- classes -------------------------------------------------------------

  /** Unserved load decides between unserved and partial by whether a tie was closed;
      without any, violations come first and then the ties. */
  lemma ClassMeans(s: Study, nodes: seq<Node>, edges: seq<Edge>, e: Edge, o: Outcome)
    requires IsOutcome(s, nodes, edges, e, o)
    ensures o.unservedLoadKw >= 0.0 && o.lostLoadKw >= 0.0
    ensures o.classification == Unserved <==> o.unservedLoadKw > 0.0 && o.restoredBy == []
    ensures o.classification == Partial <==> o.unservedLoadKw > 0.0 && o.restoredBy != []
    ensures o.classification == Violation <==> o.unservedLoadKw == 0.0 && o.postViolations > 0
    ensures o.classification == Restorable <==>
      o.unservedLoadKw == 0.0 && o.postViolations == 0 && o.restoredBy != []
    ensures o.classification == Secure <==>
      o.unservedLoadKw == 0.0 && o.postViolations == 0 && o.restoredBy == []
  {
    hide Round, TotalR, Total, RepairOf, DarkAfter, LostBy, GenLoads, Severity;
    TotalNonNegative(ClassifLoads(s, nodes), DarkAfter(nodes, edges, e));
    RoundNonNegative(TotalR(ClassifLoads(s, nodes), DarkAfter(nodes, edges, e)));
    TotalNonNegative(ClassifLoads(s, nodes), LostBy(nodes, edges, e));
    RoundNonNegative(TotalR(ClassifLoads(s, nodes), LostBy(nodes, edges, e)));
  }

  /** The edge is a switch that stands open and has one end on the live side. */
  predicate JoinsSides(e: Edge, f: Edge, live: set<NodeId>) {
    !f.isClosed && f.isSwitchable && f.id != e.id && (f.fromNode in live) != (f.toNode in live)
  }

  /** Some open switch could join the dark side of the outage to the live one. */
  ghost predicate Joinable(nodes: seq<Node>, edges: seq<Edge>, e: Edge) {
    exists f :: f in edges && JoinsSides(e, f, EnergizedBy(nodes, Toggle(edges, e.id, false)))
  }

  lemma OtherEdgeStays(edges: seq<Edge>, id: EdgeId, f: Edge)
    requires f.id != id
    ensures f in edges <==> f in Toggle(edges, id, false)
  {
    var out := Toggle(edges, id, false);
    if f in edges {
      var i :| 0 <= i < |edges| && edges[i] == f;
      assert out[i] == f;
    }
    if f in out {
      var i :| 0 <= i < |out| && out[i] == f;
      assert edges[i] == f;
    }
  }

  lemma JoinableOpens(edges: seq<Edge>, e: Edge, live: set<NodeId>, f: Edge)
    requires f in edges && JoinsSides(e, f, live)
    ensures var out := Toggle(edges, e.id, false); f.id in OpenableIds(out, e.id) && Bridges(out, live, f.id)
  {
    hide Toggle, OpenableIds;
    OtherEdgeStays(edges, e.id, f);
  }

  lemma OpensJoinable(edges: seq<Edge>, e: Edge, live: set<NodeId>, id: EdgeId) returns (f: Edge)
    requires UniqueIds(edges)
    requires var out := Toggle(edges, e.id, false); id in OpenableIds(out, e.id) && Bridges(out, live, id)
    ensures f in edges && f.id == id && JoinsSides(e, f, live)
  {
    hide Toggle, OpenableIds;
    var out := Toggle(edges, e.id, false);
    f :| f in out && f.id == id && (f.fromNode in live) != (f.toNode in live);
    var g :| g in out && g.id == id && !g.isClosed && g.isSwitchable && id != e.id;
    OtherEdgeStays(edges, e.id, f);
    OtherEdgeStays(edges, e.id, g);
    assert f == g;
  }

  lemma JoinableIff(nodes: seq<Node>, edges: seq<Edge>, e: Edge)
    requires UniqueIds(edges)
    ensures var out := Toggle(edges, e.id, false);
      Joinable(nodes, edges, e)
      <==> exists id :: id in OpenableIds(out, e.id) && Bridges(out, EnergizedBy(nodes, out), id)
  {
    hide EnergizedBy, Toggle, OpenableIds, Bridges, JoinsSides;
    var out := Toggle(edges, e.id, false);
    var live := EnergizedBy(nodes, out);
    if Joinable(nodes, edges, e) {
      var f :| f in edges && JoinsSides(e, f, live);
      JoinableOpens(edges, e, live, f);
    }
    if exists id :: id in OpenableIds(out, e.id) && Bridges(out, live, id) {
      var id :| id in OpenableIds(out, e.id) && Bridges(out, live, id);
      var f := OpensJoinable(edges, e, live, id);
    }
  }

  lemma TiesIff(nodes: seq<Node>, edges: seq<Edge>, e: Edge)
    requires FullySupplied(nodes, edges) && e in edges && e.isClosed
    ensures RepairOf(nodes, edges, e).ties != [] <==> Joinable(nodes, edges, e)
  {
    hide Reach, EnergizedBy, Restored, Toggle, WellFormed, IsRadial, Bridges, OpenableIds, Joinable;
    var out := Toggle(edges, e.id, false);
    var live := EnergizedBy(nodes, out);
    var ids := OpenableIds(out, e.id);
    UniqueFrom(nodes, edges);
    JoinableIff(nodes, edges, e);
    RestoreAfterOneOutage(nodes, edges, e);
    assert LostBy(nodes, edges, e) == NodeIds(nodes) - live;
    if exists id :: id in ids && Bridges(out, live, id) {
      var j := FirstBridging(out, live, ids);
      assert FirstBridge(out, live, ids, j);
    }
  }

  // ---- which switch closes -------------------------------------------------

  lemma {:induction false} OpenablePrefix(edges: seq<Edge>, failed: EdgeId, k: nat)
    requires k <= |edges|
    ensures OpenableIds(edges[..k], failed) <= OpenableIds(edges, failed)
    decreases |edges|
  {
    if k < |edges| {
      var m := |edges| - 1;
      OpenablePrefix(edges[..m], failed, k);
      assert edges[..m][..k] == edges[..k];
    } else {
      assert edges[..k] == edges;
    }
  }

  lemma OpenableAt(edges: seq<Edge>, failed: EdgeId, i: nat)
    requires i < |edges| && !edges[i].isClosed && edges[i].isSwitchable && edges[i].id != failed
    ensures var ids, j := OpenableIds(edges, failed), |OpenableIds(edges[..i], failed)|;
      j < |ids| && ids[j] == edges[i].id && ids[..j] == OpenableIds(edges[..i], failed)
  {
    var some := OpenableIds(edges[..i + 1], failed);
    assert edges[..i + 1][..i] == edges[..i];
    assert some == OpenableIds(edges[..i], failed) + [edges[i].id];
    OpenablePrefix(edges, failed, i + 1);
  }

  /** It is the first edge of the list that can join the two sides. */
  ghost predicate FirstJoiner(edges: seq<Edge>, e: Edge, live: set<NodeId>, i: nat) {
    && i < |edges| && JoinsSides(e, edges[i], live)
    && forall j :: 0 <= j < i ==> !JoinsSides(e, edges[j], live)
  }

  lemma FirstJoinerBridges(edges: seq<Edge>, e: Edge, live: set<NodeId>, i: nat)
    requires UniqueIds(edges) && FirstJoiner(edges, e, live, i)
    ensures var out := Toggle(edges, e.id, false); var ids := OpenableIds(out, e.id);
      exists j: nat :: j < |ids| && ids[j] == edges[i].id && FirstBridge(out, live, ids, j)
  {
    hide Toggle, OpenableIds, Bridges, JoinsSides;
    var out := Toggle(edges, e.id, false);
    var ids := OpenableIds(out, e.id);
    JoinerStays(edges, e, live, i);
    OpenableAt(out, e.id, i);
    var j := |OpenableIds(out[..i], e.id)|;
    JoinableOpens(edges, e, live, edges[i]);
    forall m | 0 <= m < j ensures !Bridges(out, live, ids[m]) {
      assert ids[..j][m] == ids[m] && ids[m] in OpenableIds(out[..i], e.id);
      EarlierOpenable(edges, e, live, i, ids[m]);
    }
    assert FirstBridge(out, live, ids, j);
  }

  lemma JoinerStays(edges: seq<Edge>, e: Edge, live: set<NodeId>, i: nat)
    requires i < |edges| && JoinsSides(e, edges[i], live)
    ensures var out := Toggle(edges, e.id, false);
      i < |out| && out[i] == edges[i] && !out[i].isClosed && out[i].isSwitchable && out[i].id != e.id
  {
  }

  lemma EarlierOpenable(edges: seq<Edge>, e: Edge, live: set<NodeId>, i: nat, id: EdgeId)
    requires UniqueIds(edges) && FirstJoiner(edges, e, live, i)
    requires id in OpenableIds(Toggle(edges, e.id, false)[..i], e.id)
    ensures !Bridges(Toggle(edges, e.id, false), live, id)
  {
    hide OpenableIds, Toggle, JoinsSides, Bridges;
    var out := Toggle(edges, e.id, false);
    OpenablePrefix(out, e.id, i);
    assert id in OpenableIds(out, e.id);
    var g :| g in out[..i] && g.id == id && !g.isClosed && g.isSwitchable && id != e.id;
    var m :| 0 <= m < i && out[..i][m] == g;
    SameAt(edges, e.id, m);
    if Bridges(out, live, id) {
      var f := OpensJoinable(edges, e, live, id);
    }
  }

  lemma SameAt(edges: seq<Edge>, id: EdgeId, m: nat)
    requires m < |edges|
    ensures m < |Toggle(edges, id, false)| && Toggle(edges, id, false)[m].id == edges[m].id
  {
  }

  /** On a radial network that supplies everyone the tie closed is the first of the list
      that joins the two sides, and no other. */
  lemma FirstJoinerCloses(nodes: seq<Node>, edges: seq<Edge>, e: Edge, i: nat)
    requires FullySupplied(nodes, edges) && e in edges && e.isClosed && i < |edges|
    requires FirstJoiner(edges, e, EnergizedBy(nodes, Toggle(edges, e.id, false)), i)
    ensures RepairOf(nodes, edges, e).ties == [edges[i].id]
  {
    hide Reach, EnergizedBy, Restored, Toggle, IsRadial, Bridges, OpenableIds, JoinsSides, FirstBridge, FirstJoiner,
      WellFormed;
    var out := Toggle(edges, e.id, false);
    var live, ids := EnergizedBy(nodes, out), OpenableIds(out, e.id);
    UniqueFrom(nodes, edges);
    FirstJoinerBridges(edges, e, live, i);
    RestoreAfterOneOutage(nodes, edges, e);
    assert LostBy(nodes, edges, e) == NodeIds(nodes) - live;
    var j: nat :| j < |ids| && ids[j] == edges[i].id && FirstBridge(out, live, ids, j);
  }

  /** On a radial network that supplies everyone, the class of an outage is decided by
      whether an open switch joins its two sides, by the load it loses and by the
      violations of the network left. */
  lemma ClassOfOutage(s: Study, nodes: seq<Node>, edges: seq<Edge>, e: Edge, o: Outcome)
    requires FullySupplied(nodes, edges) && e in edges && IsCandidate(e) && IsOutcome(s, nodes, edges, e, o)
    ensures o.restoredBy != [] <==> Joinable(nodes, edges, e)
    ensures o.classification == Restorable <==> Joinable(nodes, edges, e) && o.postViolations == 0
    ensures o.classification == Unserved <==> !Joinable(nodes, edges, e) && o.lostLoadKw > 0.0
    ensures o.classification == Secure <==>
      !Joinable(nodes, edges, e) && o.lostLoadKw == 0.0 && o.postViolations == 0
    ensures o.classification == Violation <==>
      o.postViolations > 0 && (Joinable(nodes, edges, e) || o.lostLoadKw == 0.0)
  {
    hide FullySupplied, IsOutcome, Joinable;
    TiesIff(nodes, edges, e);
    OutcomeTies(s, nodes, edges, e, o);
    ClassMeans(s, nodes, edges, e, o);
    NeverPartial(s, nodes, edges, e, o);
  }

  lemma OutcomeTies(s: Study, nodes: seq<Node>, edges: seq<Edge>, e: Edge, o: Outcome)
    requires IsOutcome(s, nodes, edges, e, o)
    ensures o.restoredBy == RepairOf(nodes, edges, e).ties
  {
    hide Restored, LostBy, DarkAfter, Round, TotalR, Total;
  }

  // ---- ranking -------------------------------------------------------------

  function Hundredths(k: int): real { k as real / 100.0 }

  ghost predicate InHundredths(x: real) {
    exists k :: x == Hundredths(k)
  }

  lemma RoundedInHundredths(x: real)
    ensures InHundredths(Round(x, 100))
  {
    hide Round;
    var k := RoundIsOnGrid(x, 100);
    assert Round(x, 100) == Hundredths(k);
  }

  lemma RoundKeeps(x: real)
    requires InHundredths(x)
    ensures Round(x, 100) == x
  {
    hide Round;
    var k :| x == Hundredths(k);
    var j := RoundIsOnGrid(x, 100);
    HundredthsOver(x, k);
    NearestWhole(j, k, x * 100.0);
  }

  lemma HundredthsOver(x: real, k: int)
    requires x == Hundredths(k)
    ensures x * 100.0 == k as real
  {
  }

  lemma NearestWhole(j: int, k: int, y: real)
    requires y == k as real && -0.5 <= j as real - y <= 0.5
    ensures j == k
  {
    assert -0.5 <= (j - k) as real <= 0.5;
  }

  lemma HundredthsAdd(x: real, n: nat, y: real)
    requires InHundredths(x) && InHundredths(y)
    ensures InHundredths(x * 1000.0 + n as real * 100.0 + y)
  {
    var i :| x == Hundredths(i);
    var j :| y == Hundredths(j);
    var k := 1000 * i + 10000 * n + j;
    assert x * 1000.0 + n as real * 100.0 + y == Hundredths(k);
  }

  /** The severity by which outages are ranked: a thousand for every kW unserved, a
      hundred for every violation and the load that ties brought back; nothing is lost in
      its rounding, it is never negative, and it is zero exactly for a secure outage and
      for one whose ties brought back nodes without load. */
  lemma SeverityMeans(s: Study, nodes: seq<Node>, edges: seq<Edge>, e: Edge, o: Outcome)
    requires IsOutcome(s, nodes, edges, e, o)
    ensures o.severity == 1000.0 * o.unservedLoadKw + 100.0 * o.postViolations as real
      + if o.restoredBy == [] then 0.0 else o.lostLoadKw
    ensures o.severity >= 0.0
    ensures o.severity == 0.0 <==>
      o.classification == Secure || (o.classification == Restorable && o.lostLoadKw == 0.0)
  {
    hide Round, TotalR, Total, RepairOf, DarkAfter, LostBy, GenLoads;
    ClassMeans(s, nodes, edges, e, o);
    var y := if o.restoredBy != [] then o.lostLoadKw else 0.0;
    RoundedInHundredths(TotalR(ClassifLoads(s, nodes), DarkAfter(nodes, edges, e)));
    RoundedInHundredths(TotalR(ClassifLoads(s, nodes), LostBy(nodes, edges, e)));
    assert 0.0 == Hundredths(0);
    HundredthsAdd(o.unservedLoadKw, o.postViolations, y);
    RoundKeeps(o.unservedLoadKw * 1000.0 + o.postViolations as real * 100.0 + y);
  }

  // ---- demand --------------------------------------------------------------

  /** Real power over the phases of a load, consumption positive. */
  function NetKw(ld: map<Phase, Complex>): real {
    (if A in ld then ld[A].re else 0.0) + (if B in ld then ld[B].re else 0.0) + (if C in ld then ld[C].re else 0.0)
  }

  /** A node demands its net consumption, or its floor if that is more, and nothing if
      both are negative; what it generates is its net generation, if any. */
  lemma DemandMeans(s: Study, n: NodeId)
    ensures var net := if n in s.loads then NetKw(s.loads[n]) else 0.0;
      var floor := if n in s.loadFloor then s.loadFloor[n] else 0.0;
      var demand := ClassifLoad(s, n);
      && demand >= 0.0 && demand >= net && demand >= floor
      && (demand == 0.0 || demand == net || demand == floor)
      && GenKw(s.loads, n) == (if net < 0.0 then -net else 0.0)
  {
  }

  // ---- coverage ------------------------------------------------------------

  ghost predicate Reported(r: Report, id: EdgeId) {
    exists o :: o in r.outcomes && o.element == id
  }

  ghost predicate InService(edges: seq<Edge>, id: EdgeId) {
    exists e :: e in edges && e.id == id && e.isClosed
      && (e.kind == Line || e.kind == Transformer || e.kind == Switch || e.kind == Tie)
  }

  lemma {:induction false} CandidatesOnce(edges: seq<Edge>)
    requires UniqueIds(edges)
    ensures forall i, j :: 0 <= i < j < |Candidates(edges)| ==> Candidates(edges)[i].id != Candidates(edges)[j].id
  {
    if edges != [] {
      var k := |edges| - 1;
      CandidatesOnce(edges[..k]);
      assert forall e :: e in edges[..k] ==> e.id != edges[k].id;
      var cs := Candidates(edges[..k]);
      assert forall i :: 0 <= i < |cs| ==> cs[i] in cs;
    }
  }

  lemma ReportedIff(edges: seq<Edge>, r: Report, id: EdgeId)
    requires |r.outcomes| == |Candidates(edges)|
    requires forall i :: 0 <= i < |r.outcomes| ==> r.outcomes[i].element == Candidates(edges)[i].id
    ensures Reported(r, id) <==> InService(edges, id)
  {
    hide Candidates;
    var cs := Candidates(edges);
    if Reported(r, id) {
      var i :| 0 <= i < |cs| && r.outcomes[i].element == id;
      assert cs[i] in cs;
    }
    if InService(edges, id) {
      var e :| e in edges && e.id == id && IsCandidate(e);
      assert e in cs;
      var i :| 0 <= i < |cs| && cs[i] == e;
      assert r.outcomes[i] in r.outcomes;
    }
  }

  lemma OutcomeElement(s: Study, nodes: seq<Node>, edges: seq<Edge>, e: Edge, o: Outcome)
    requires IsOutcome(s, nodes, edges, e, o)
    ensures o.element == e.id
  {
    hide RepairOf, LostBy, DarkAfter, Round, TotalR, Total;
  }

  /** The study reports on exactly the closed lines, transformers, switches and ties, one
      outcome each, and calls the network secure exactly when each of these outages is
      secure or restorable. */
  lemma ReportCovers(s: Study, nodes: seq<Node>, edges: seq<Edge>, r: Report)
    requires WellFormed(nodes, edges) && IsReport(s, nodes, edges, r)
    ensures forall id :: Reported(r, id) <==> InService(edges, id)
    ensures forall i, j :: 0 <= i < j < |r.outcomes| ==> r.outcomes[i].element != r.outcomes[j].element
    ensures r.secure <==>
      forall o :: o in r.outcomes ==> o.classification == Secure || o.classification == Restorable
  {
    hide IsOutcome, Candidates, PassesN1, IsCandidate, WellFormed;
    var cs := Candidates(edges);
    forall i | 0 <= i < |cs|
      ensures r.outcomes[i].element == cs[i].id
      ensures PassesN1(r.outcomes[i])
        <==> r.outcomes[i].classification == Secure || r.outcomes[i].classification == Restorable
    {
      OutcomeElement(s, nodes, edges, cs[i], r.outcomes[i]);
      PassesIffClassified(s, nodes, edges, cs[i], r.outcomes[i]);
    }
    UniqueFrom(nodes, edges);
    CandidatesOnce(edges);
    forall id ensures Reported(r, id) <==> InService(edges, id) {
      ReportedIff(edges, r, id);
    }
  }
}

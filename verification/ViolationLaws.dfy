/** What a power flow counts as a violation, said of its voltages and currents alone. */
module ViolationLaws {
  import opened Graph
  import opened Grid
  import opened RadialTree
  import opened Sums
  import opened Reals
  import opened ComplexNumbers
  import opened PowerFlow
  import opened PowerBalance
  import opened Convergence
  import opened LoadFlow

  // ---- voltages ------------------------------------------------------------

  /** The (node, phase) pairs whose voltage is under `vMin` or over `vMax`. */
  ghost function OffLimits(s: Setup, V: Profile, S: set<NodeId>): set<(NodeId, Phase)> {
    set n, p | n in S && n in V && p in V[n] && !(s.vMin <= s.modulus(V[n][p]) <= s.vMax) :: (n, p)
  }

  function Only(bad: bool, n: NodeId, p: Phase): set<(NodeId, Phase)> {
    if bad then {(n, p)} else {}
  }

  lemma CountThree(a: bool, b: bool, d: bool, n: NodeId)
    ensures |Only(a, n, A) + Only(b, n, B) + Only(d, n, C)| == One(a) + One(b) + One(d)
  {
    assert Only(a, n, A) !! Only(b, n, B) && Only(a, n, A) + Only(b, n, B) !! Only(d, n, C);
  }

  ghost function OffAt(s: Setup, V: Profile, n: NodeId): set<(NodeId, Phase)>
    requires n in V
  {
    Only(OutOfBand(s, V[n], A), n, A) + Only(OutOfBand(s, V[n], B), n, B) + Only(OutOfBand(s, V[n], C), n, C)
  }

  lemma OffAtIff(s: Setup, V: Profile, n: NodeId, m: NodeId, p: Phase)
    requires n in V
    ensures (m, p) in OffAt(s, V, n) <==> m == n && OutOfBand(s, V[n], p)
  {
    hide OutOfBand;
    match p case A => case B => case C =>
  }

  lemma OffGrows(s: Setup, V: Profile, S: set<NodeId>, n: NodeId)
    requires n in S && n in V
    ensures OffLimits(s, V, S) == OffLimits(s, V, S - {n}) + OffAt(s, V, n)
    ensures OffLimits(s, V, S - {n}) !! OffAt(s, V, n)
  {
    hide OffAt;
    forall x: (NodeId, Phase) ensures x in OffAt(s, V, n) <==> x.0 == n && OutOfBand(s, V[n], x.1) {
      OffAtIff(s, V, n, x.0, x.1);
      assert x == (x.0, x.1);
    }
    forall x: (NodeId, Phase)
      ensures x in OffLimits(s, V, S) <==> x in OffLimits(s, V, S - {n}) || x in OffAt(s, V, n)
    {
      assert x == (x.0, x.1);
    }
  }

  lemma {:induction false} VoltagesCounted(s: Setup, V: Profile, S: set<NodeId>)
    requires S <= V.Keys
    ensures Total(VoltageCounts(s, V), S) == |OffLimits(s, V, S)|
    decreases |S|
  {
    hide Total, OutOfBand, Only, One;
    if S == {} {
      NoTotal(VoltageCounts(s, V));
      assert OffLimits(s, V, S) == {};
    } else {
      var n :| n in S;
      VoltagesCounted(s, V, S - {n});
      TotalSplit(VoltageCounts(s, V), S, n);
      CountThree(OutOfBand(s, V[n], A), OutOfBand(s, V[n], B), OutOfBand(s, V[n], C), n);
      OffGrows(s, V, S, n);
    }
  }

  // ---- loadings ------------------------------------------------------------

  /** The phases a branch carries: those of its child node and of its edge. */
  ghost predicate Carries(c: Case, n: NodeId, p: Phase)
    requires n in c.net.tree.parentEdge && n in c.net.byId
  {
    p in c.net.byId[n].phases && p in c.net.tree.parentEdge[n].phases
  }

  /** `x` is the largest line current of the branch in amperes, |J| times the current
      base 1000 kW over the root of three and the kV of its child node; 0 if it has no phase. */
  ghost predicate IsPeakAmps(c: Case, j: PhaseMap, n: NodeId, x: real)
    requires n in c.net.tree.parentEdge && n in c.net.byId && c.sqrt3 != 0.0
    requires forall p :: Carries(c, n, p) ==> p in j
  {
    && x >= 0.0
    && (forall p :: Carries(c, n, p) ==> PhaseAmps(c, j[p], n) <= x)
    && (x == 0.0 || exists p :: Carries(c, n, p) && PhaseAmps(c, j[p], n) == x)
  }

  function PhaseAmps(c: Case, current: Complex, n: NodeId): real
    requires n in c.net.byId && c.sqrt3 != 0.0
  {
    var kv := if c.net.byId[n].nominalKv == 0.0 then 0.415 else c.net.byId[n].nominalKv;
    NoZeroProduct(c.sqrt3, kv);
    1000.0 * c.modulus(current) / Product(c.sqrt3, kv)
  }

  /** |V| |J| over the phases carried, on the per-phase base of a third of 1000 kVA. */
  ghost function BranchKva(c: Case, j: PhaseMap, v: PhaseMap, n: NodeId): real
    requires n in c.net.tree.parentEdge && n in c.net.byId
    requires forall p :: Carries(c, n, p) ==> p in j && p in v
  {
    (1000.0 / 3.0)
    * (  (if Carries(c, n, A) then Product(c.modulus(v[A]), c.modulus(j[A])) else 0.0)
       + (if Carries(c, n, B) then Product(c.modulus(v[B]), c.modulus(j[B])) else 0.0)
       + (if Carries(c, n, C) then Product(c.modulus(v[C]), c.modulus(j[C])) else 0.0))
  }

  /** The branch is a transformer with a rating. */
  ghost predicate IsRated(s: Setup, e: Edge) {
    e.kind == Transformer && e.id in s.ratingKw && s.ratingKw[e.id] != 0.0
  }

  /** A rated transformer beyond its rating, or any other branch with an ampacity beyond
      that, each by the percentage rounded to one place. */
  ghost predicate Overload(s: Setup, c: Case, j: PhaseMap, v: PhaseMap, n: NodeId)
    requires n in c.net.tree.parentEdge && n in c.net.byId && c.sqrt3 != 0.0
    requires forall p :: Carries(c, n, p) ==> p in j && p in v
  {
    var e := c.net.tree.parentEdge[n];
    if IsRated(s, e) then Round(100.0 * BranchKva(c, j, v, n) / s.ratingKw[e.id], 10) > 100.0
    else
      && e.id in s.ampacity && s.ampacity[e.id] != 0.0
      && exists x :: IsPeakAmps(c, j, n, x) && Round(100.0 * x / s.ampacity[e.id], 10) > 100.0
  }

  lemma AmpsAre(c: Case, j: PhaseMap, n: NodeId, p: Phase)
    requires n in c.net.tree.parentEdge && n in c.net.byId && c.sqrt3 != 0.0
    requires forall q :: Carries(c, n, q) ==> q in j
    ensures Amps(c, j, n, p) == if Carries(c, n, p) then PhaseAmps(c, j[p], n) else 0.0
  {
    hide Product;
  }

  /** That peak is the one `MaxAmps` finds. */
  lemma PeakIs(c: Case, j: PhaseMap, n: NodeId, x: real)
    requires n in c.net.tree.parentEdge && n in c.net.byId && c.sqrt3 != 0.0
    requires forall p :: Carries(c, n, p) ==> p in j
    ensures IsPeakAmps(c, j, n, x) <==> x == MaxAmps(c, j, n)
  {
    forall p ensures Amps(c, j, n, p) == if Carries(c, n, p) then PhaseAmps(c, j[p], n) else 0.0 {
      AmpsAre(c, j, n, p);
    }
    hide Amps, PhaseAmps, Carries;
    LargestIs(
      Amps(c, j, n, A), Amps(c, j, n, B), Amps(c, j, n, C), Carries(c, n, A), Carries(c, n, B), Carries(c, n, C), x);
    assert IsPeakAmps(c, j, n, x) <==>
      PeakOf(
        Amps(c, j, n, A), Amps(c, j, n, B), Amps(c, j, n, C), Carries(c, n, A), Carries(c, n, B), Carries(c, n, C), x)
    by {
      PeakByPhase(c, j, n, x);
    }
  }

  predicate PeakOf(a: real, b: real, d: real, hasA: bool, hasB: bool, hasC: bool, x: real) {
    && x >= 0.0 && (hasA ==> a <= x) && (hasB ==> b <= x) && (hasC ==> d <= x)
    && (x == 0.0 || (hasA && a == x) || (hasB && b == x) || (hasC && d == x))
  }

  lemma LargestIs(a: real, b: real, d: real, hasA: bool, hasB: bool, hasC: bool, x: real)
    requires (!hasA ==> a == 0.0) && (!hasB ==> b == 0.0) && (!hasC ==> d == 0.0)
    ensures PeakOf(a, b, d, hasA, hasB, hasC, x) <==> x == Max(0.0, Max(a, Max(b, d)))
  {
  }

  lemma PeakByPhase(c: Case, j: PhaseMap, n: NodeId, x: real)
    requires n in c.net.tree.parentEdge && n in c.net.byId && c.sqrt3 != 0.0
    requires forall p :: Carries(c, n, p) ==> p in j
    requires forall p :: Amps(c, j, n, p) == if Carries(c, n, p) then PhaseAmps(c, j[p], n) else 0.0
    ensures IsPeakAmps(c, j, n, x) <==>
      PeakOf(
        Amps(c, j, n, A), Amps(c, j, n, B), Amps(c, j, n, C), Carries(c, n, A), Carries(c, n, B), Carries(c, n, C), x)
  {
    hide Amps, PhaseAmps, Carries;
    if IsPeakAmps(c, j, n, x) && x != 0.0 {
      var p :| Carries(c, n, p) && PhaseAmps(c, j[p], n) == x;
      match p case A => case B => case C =>
    }
    if PeakOf(Amps(c, j, n, A), Amps(c, j, n, B), Amps(c, j, n, C), Carries(c, n, A), Carries(c, n, B),
        Carries(c, n, C), x) {
      forall p | Carries(c, n, p) ensures PhaseAmps(c, j[p], n) <= x {
        match p case A => case B => case C =>
      }
    }
  }

  lemma KvaOfPhase(c: Case, j: PhaseMap, v: PhaseMap, n: NodeId, p: Phase)
    requires GoodCase(c) && n in c.net.tree.parentEdge && n in c.net.byId
    requires Carries(c, n, p) ==> p in j && p in v
    ensures p in c.slack
    ensures PhaseKva(c, j, v, n, p)
      == if Carries(c, n, p) then Product(c.modulus(v[p]), c.modulus(j[p])) * (1000.0 / 3.0) else 0.0
  {
    hide SubtreesOk, Complex.Times, Complex.Conj, Product;
    if Carries(c, n, p) {
      ModulusTimes(c, v[p], j[p].Conj());
      ModulusTimes(c, v[p], j[p]);
    }
  }

  lemma KvaIs(c: Case, j: PhaseMap, v: PhaseMap, n: NodeId)
    requires GoodCase(c) && n in c.net.tree.parentEdge && n in c.net.byId
    requires forall p :: Carries(c, n, p) ==> p in j && p in v
    ensures forall p: Phase :: p in c.slack
    ensures Kva(c, j, v, n) == BranchKva(c, j, v, n)
  {
    hide GoodCase, PhaseKva, Product, Carries;
    SlackKnown(c);
    KvaOfPhase(c, j, v, n, A);
    KvaOfPhase(c, j, v, n, B);
    KvaOfPhase(c, j, v, n, C);
  }

  lemma OverloadIs(s: Setup, c: Case, j: PhaseMap, v: PhaseMap, n: NodeId)
    requires GoodCase(c) && n in c.net.tree.parentEdge && n in c.net.byId && c.sqrt3 != 0.0
    requires forall p :: Carries(c, n, p) ==> p in j && p in v
    ensures forall p: Phase :: p in c.slack
    ensures Overload(s, c, j, v, n) <==> Overloaded(s, c, j, v, n)
  {
    hide GoodCase, Kva, BranchKva, MaxAmps, IsPeakAmps, Round, Carries;
    KvaIs(c, j, v, n);
    PeakIs(c, j, n, MaxAmps(c, j, n));
    forall x | IsPeakAmps(c, j, n, x) ensures x == MaxAmps(c, j, n) {
      PeakIs(c, j, n, x);
    }
  }

  // ---- what a solve reports ------------------------------------------------

  /** Currents and voltages are there for the phases the branch above `n` carries. */
  ghost predicate HasPhases(c: Case, J: map<EdgeId, PhaseMap>, V: Profile, n: NodeId) {
    && n in c.net.tree.parentEdge && n in c.net.byId && c.net.tree.parentEdge[n].id in J && n in V && c.sqrt3 != 0.0
    && forall p :: Carries(c, n, p) ==> p in J[c.net.tree.parentEdge[n].id] && p in V[n]
  }

  ghost predicate IsOverloaded(s: Setup, c: Case, J: map<EdgeId, PhaseMap>, V: Profile, n: NodeId) {
    HasPhases(c, J, V, n) && Overload(s, c, J[c.net.tree.parentEdge[n].id], V[n], n)
  }

  /** The branches, named by their child nodes, that are overloaded. */
  ghost function OverloadedBranches(
      s: Setup, c: Case, J: map<EdgeId, PhaseMap>, V: Profile, S: set<NodeId>): set<NodeId>
  {
    set n | n in S && IsOverloaded(s, c, J, V, n)
  }

  lemma {:induction false} OverloadsCounted(
      s: Setup, c: Case, J: map<EdgeId, PhaseMap>, V: Profile, S: set<NodeId>)
    requires GoodCase(c) && Reportable(c, J, V)
    requires forall n :: n in S ==> HasPhases(c, J, V, n)
    ensures Total(ThermalCounts(s, c, J, V), S) == |OverloadedBranches(s, c, J, V, S)|
    decreases |S|
  {
    hide GoodCase, Total, IsOverloaded, HasPhases, Reportable, ThermalCounts;
    var w := ThermalCounts(s, c, J, V);
    if S == {} {
      NoTotal(w);
      assert OverloadedBranches(s, c, J, V, S) == {};
    } else {
      var n :| n in S;
      OverloadsCounted(s, c, J, V, S - {n});
      TotalSplit(w, S, n);
      OverloadAt(s, c, J, V, n);
      var few, all := OverloadedBranches(s, c, J, V, S - {n}), OverloadedBranches(s, c, J, V, S);
      assert n !in few;
      assert all == if IsOverloaded(s, c, J, V, n) then few + {n} else few;
    }
  }

  lemma OverloadAt(s: Setup, c: Case, J: map<EdgeId, PhaseMap>, V: Profile, n: NodeId)
    requires GoodCase(c) && Reportable(c, J, V) && HasPhases(c, J, V, n)
    ensures n in ThermalCounts(s, c, J, V)
    ensures ThermalCounts(s, c, J, V)[n] == One(IsOverloaded(s, c, J, V, n))
  {
    hide GoodCase, Overload, Overloaded, Carries;
    OverloadIs(s, c, J[c.net.tree.parentEdge[n].id], V[n], n);
  }

  lemma SweepHasPhases(c: Case, V0: Profile, i: Profile, J: map<EdgeId, PhaseMap>, V: Profile, n: NodeId)
    requires IsSweep(c, V0, i, J, V) && Accounted(c, J) && n in c.net.tree.parentEdge
    ensures HasPhases(c, J, V, n)
  {
    hide IsSweep, SubtreesOk, LoadsOk, NewVoltage;
    SweepAt(c, V0, i, J, V, n);
    SweepAtRoot(c, V0, i, J, V);
  }

  /** The voltages lie in the band and no branch is overloaded. */
  ghost predicate WithinLimits(s: Setup, c: Case, J: map<EdgeId, PhaseMap>, V: Profile) {
    && (forall n, p :: n in V && p in V[n] ==> s.vMin <= s.modulus(V[n][p]) <= s.vMax)
    && (forall n :: n in c.net.tree.parentEdge ==> !IsOverloaded(s, c, J, V, n))
  }

  /** The violations a solve reports are the voltages of its last sweep outside the band,
      node by node and phase by phase, and the branches overloaded in it; there are none
      exactly when every voltage and every branch keeps its limits. */
  lemma ViolationsMean(
      nodes: seq<Node>, edges: seq<Edge>, s: Setup, f: FlowSummary, net: Net, chain: seq<Profile>, i: Profile,
      J: map<EdgeId, PhaseMap>)
    requires SolvedBy(nodes, edges, s, f, net, chain, i, J)
    ensures |chain| > 0
    ensures var V := chain[|chain| - 1];
      && f.violations == |OffLimits(s, V, V.Keys)|
           + |OverloadedBranches(s, CaseOf(s, net), J, V, net.tree.parentEdge.Keys)|
      && (f.violations == 0 <==> WithinLimits(s, CaseOf(s, net), J, V))
  {
    hide IsNet, IsRun, IsSweep, SettledAt, Reportable, ViolationTotal, BranchLosses, CaseOf, IsOverloaded, HasPhases;
    var c, k := CaseOf(s, net), |chain| - 1;
    var V := chain[k];
    CaseFields(s, net);
    SweepAtRoot(c, chain[k - 1], i, J, V);
    ReportAccounts(c, J, V);
    forall n | n in net.tree.parentEdge.Keys ensures HasPhases(c, J, V, n) {
      SweepHasPhases(c, chain[k - 1], i, J, V, n);
    }
    VoltagesCounted(s, V, V.Keys);
    OverloadsCounted(s, c, J, V, net.tree.parentEdge.Keys);
    TotalsAre(s, c, J, V);
    NoneIff(s, c, J, V);
  }

  lemma CaseFields(s: Setup, net: Net)
    ensures CaseOf(s, net).net == net
  {
  }

  lemma TotalsAre(s: Setup, c: Case, J: map<EdgeId, PhaseMap>, V: Profile)
    requires Reportable(c, J, V)
    ensures ViolationTotal(s, c, J, V)
      == Total(VoltageCounts(s, V), V.Keys) + Total(ThermalCounts(s, c, J, V), c.net.tree.parentEdge.Keys)
  {
    hide Total, VoltageCounts, ThermalCounts;
  }

  lemma NoneIff(s: Setup, c: Case, J: map<EdgeId, PhaseMap>, V: Profile)
    ensures |OffLimits(s, V, V.Keys)| + |OverloadedBranches(s, c, J, V, c.net.tree.parentEdge.Keys)| == 0
      <==> WithinLimits(s, c, J, V)
  {
    hide IsOverloaded;
    var off, over := OffLimits(s, V, V.Keys), OverloadedBranches(s, c, J, V, c.net.tree.parentEdge.Keys);
    if off == {} && over == {} {
      forall n, p | n in V && p in V[n] ensures s.vMin <= s.modulus(V[n][p]) <= s.vMax {
        assert (n, p) !in off;
      }
      forall n | n in c.net.tree.parentEdge ensures !IsOverloaded(s, c, J, V, n) {
        assert n !in over;
      }
    }
    if off != {} {
      var x :| x in off;
      assert x == (x.0, x.1) && x.0 in V && x.1 in V[x.0];
    }
    if over != {} { var n :| n in over; }
  }
}

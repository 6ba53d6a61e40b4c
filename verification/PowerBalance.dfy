/** Conservation after any sweep, settled or not: currents balance at every node, and the
    power fed in at the root is what the loads take plus what the branches lose. */
module PowerBalance {
  import opened Graph
  import opened Grid
  import opened RadialTree
  import opened Sums
  import opened Reals
  import opened ComplexNumbers
  import opened ComplexSums
  import opened TreeSums
  import opened PowerFlow

  /** Phases nest downstream: a node has a phase only if its parent and the edge between
      them have it. */
  ghost predicate PhaseNests(c: Case, p: Phase) {
    forall n :: n in c.net.tree.parentEdge && p in c.Phases(n) ==>
      p in c.net.tree.parentEdge[n].phases && p in c.Phases(c.net.tree.Parent(n))
  }

  /** The current of one phase in every branch, by child node. */
  ghost function BranchSlice(c: Case, J: map<EdgeId, PhaseMap>, p: Phase): map<NodeId, Complex>
    requires forall n :: n in c.net.tree.parentEdge ==> c.net.tree.parentEdge[n].id in J
  {
    map n | n in c.net.tree.parentEdge && p in J[c.net.tree.parentEdge[n].id] :: J[c.net.tree.parentEdge[n].id][p]
  }

  ghost predicate HasBranches(c: Case, J: map<EdgeId, PhaseMap>) {
    SubtreesOk(c.net) && forall n :: n in c.net.tree.parentEdge ==>
      c.net.tree.parentEdge[n].id in J && c.net.tree.parentEdge[n].id in c.net.pu
  }

  lemma SweepHasBranches(c: Case, V0: Profile, i: Profile, J: map<EdgeId, PhaseMap>, V: Profile)
    requires IsSweep(c, V0, i, J, V)
    ensures HasBranches(c, J)
  {
    hide Below, LoadsOk, TotalC;
  }

  lemma SweepAt(c: Case, V0: Profile, i: Profile, J: map<EdgeId, PhaseMap>, V: Profile, n: NodeId)
    requires IsSweep(c, V0, i, J, V) && n in c.net.tree.parentEdge
    ensures BranchOk(c, i, J, n) && VoltageOk(c, J, V, n) && SubtreesOk(c.net)
  {
    hide SubtreesOk, BranchOk, VoltageOk, LoadsOk;
  }

  lemma SweepAtRoot(c: Case, V0: Profile, i: Profile, J: map<EdgeId, PhaseMap>, V: Profile)
    requires IsSweep(c, V0, i, J, V)
    ensures c.net.tree.root in V && V[c.net.tree.root].Keys == c.Phases(c.net.tree.root)
    ensures V.Keys == c.net.tree.Nodes() && LoadsOk(c, V0, i) && GoodCase(c) && SubtreesOk(c.net)
  {
    hide Below, BranchOk, VoltageOk, LoadsOk;
  }

  lemma LoadPhases(c: Case, V0: Profile, i: Profile, k: NodeId, p: Phase)
    requires GoodCase(c) && LoadsOk(c, V0, i)
    ensures k in Slice(i, p) ==> p in c.Phases(k) && k in c.net.tree.Nodes()
  {
    hide LoadCurrent, GoodCase;
  }

  lemma BranchEntry(c: Case, i: Profile, J: map<EdgeId, PhaseMap>, p: Phase, n: NodeId)
    requires GoodCase(c) && HasBranches(c, J) && n in c.net.tree.parentEdge && BranchOk(c, i, J, n)
    ensures p in J[c.net.tree.parentEdge[n].id] <==> p in c.BranchPhases(n)
    ensures p in c.BranchPhases(n) ==>
      n in BranchSlice(c, J, p) && BranchSlice(c, J, p)[n] == TotalC(Slice(i, p), Below(c.net.tree, n))
    ensures p !in c.BranchPhases(n) ==> n !in BranchSlice(c, J, p)
  {
    hide Below, TotalC, Slice, GoodCase;
  }

  /** A branch that lacks the phase feeds no node that has it. */
  lemma BranchIsSubtreeTotal(
      c: Case, V0: Profile, i: Profile, J: map<EdgeId, PhaseMap>, V: Profile, p: Phase, n: NodeId)
    requires IsSweep(c, V0, i, J, V) && HasBranches(c, J) && PhaseNests(c, p) && n in c.net.tree.parentEdge
    ensures At(BranchSlice(c, J, p), n, ZERO) == TotalC(Slice(i, p), Below(c.net.tree, n))
    ensures p in c.Phases(n) <==> p in J[c.net.tree.parentEdge[n].id]
  {
    hide IsSweep, Below, TotalC, Slice, BranchSlice, BranchOk, LoadsOk, VoltageOk, HasBranches, GoodCase;
    SweepAt(c, V0, i, J, V, n);
    SweepAtRoot(c, V0, i, J, V);
    BranchEntry(c, i, J, p, n);
    if p !in c.Phases(n) {
      forall k | k in Below(c.net.tree, n) ensures At(Slice(i, p), k, ZERO) == ZERO {
        LoadPhases(c, V0, i, k, p);
        if k in Slice(i, p) { PhaseReachesUp(c, p, n, k); }
      }
      TotalCZero(Slice(i, p), Below(c.net.tree, n));
    }
  }

  lemma {:induction false} PhaseReachesUp(c: Case, p: Phase, n: NodeId, k: NodeId)
    requires SubtreesOk(c.net) && PhaseNests(c, p) && k in Below(c.net.tree, n) && p in c.Phases(k)
    ensures p in c.Phases(n)
    decreases |c.net.tree.pathEdges[k]|
  {
    ChainAbove(c.net.tree, n, k);
    if k != n {
      assert Linked(c.net.tree, k);
      PhaseReachesUp(c, p, n, c.net.tree.Parent(k));
    }
  }

  /** Current law at every node: what comes in is the node's load plus what goes on. */
  lemma CurrentLaw(c: Case, V0: Profile, i: Profile, J: map<EdgeId, PhaseMap>, V: Profile, p: Phase, n: NodeId)
    requires IsSweep(c, V0, i, J, V) && HasBranches(c, J) && PhaseNests(c, p) && n in c.net.tree.parentEdge
    ensures At(BranchSlice(c, J, p), n, ZERO)
         == At(Slice(i, p), n, ZERO).Plus(TotalC(BranchSlice(c, J, p), ChildSet(c.net.tree, n)))
  {
    hide TotalC, LoadsOk, BranchOk, VoltageOk, Slice;
    var t := c.net.tree;
    assert Linked(t, n);
    BranchIsSubtreeTotal(c, V0, i, J, V, p, n);
    assert n in Below(t, n);
    TotalCSplit(Slice(i, p), Below(t, n), n);
    forall d | d in ChildSet(t, n) ensures At(BranchSlice(c, J, p), d, ZERO) == TotalC(Slice(i, p), Below(t, d)) {
      BranchIsSubtreeTotal(c, V0, i, J, V, p, d);
    }
    TotalByChildren(t, n, Slice(i, p), BranchSlice(c, J, p));
  }

  // ---- voltages along a path -----------------------------------------------

  /** z J of every branch, by child node. */
  ghost function Drops(c: Case, J: map<EdgeId, PhaseMap>, p: Phase): map<NodeId, Complex>
    requires HasBranches(c, J)
  {
    map n | n in c.net.tree.parentEdge && p in J[c.net.tree.parentEdge[n].id] ::
      c.Z(n).Times(J[c.net.tree.parentEdge[n].id][p])
  }

  /** A node's voltage is the root's less the drops of the branches above it. */
  lemma {:induction false} VoltageAlongPath(
      c: Case, V0: Profile, i: Profile, J: map<EdgeId, PhaseMap>, V: Profile, p: Phase, n: NodeId)
    requires IsSweep(c, V0, i, J, V) && HasBranches(c, J) && PhaseNests(c, p)
    requires n in c.net.tree.pathEdges && p in c.Phases(n)
    ensures n in V && p in V[n] && p in V[c.net.tree.root]
    ensures V[n][p].Plus(TotalC(Drops(c, J, p), Above(c.net.tree, n))) == V[c.net.tree.root][p]
    decreases |c.net.tree.pathEdges[n]|
  {
    hide IsSweep, TotalC, Drops, Above, HasBranches, Complex.Plus, Complex.Minus, Complex.Times;
    var t := c.net.tree;
    var D := Drops(c, J, p);
    SweepAtRoot(c, V0, i, J, V);
    if n == t.root {
      AboveRoot(t);
      TotalCEmpty(D);
      PlusLaws(V[n][p], ZERO, ZERO);
    } else {
      AboveStep(t, n);
      VoltageStep(c, V0, i, J, V, p, n);
      VoltageAlongPath(c, V0, i, J, V, p, t.Parent(n));
      DropsAbove(D, Above(t, t.Parent(n)), Above(t, n), n);
      PlusLaws(V[n][p], D[n], TotalC(D, Above(t, t.Parent(n))));
    }
  }

  lemma DropsAbove(D: map<NodeId, Complex>, a: set<NodeId>, b: set<NodeId>, n: NodeId)
    requires n in D && n !in a && b == a + {n}
    ensures TotalC(D, b) == D[n].Plus(TotalC(D, a))
  {
    hide TotalC, Complex.Plus;
    TotalCSplit(D, b, n);
    assert b - {n} == a;
  }

  lemma VoltageStep(c: Case, V0: Profile, i: Profile, J: map<EdgeId, PhaseMap>, V: Profile, p: Phase, n: NodeId)
    requires IsSweep(c, V0, i, J, V) && HasBranches(c, J) && PhaseNests(c, p)
    requires n in c.net.tree.parentEdge && p in c.Phases(n)
    ensures c.net.tree.Parent(n) in V && p in V[c.net.tree.Parent(n)] && n in V && p in V[n] && n in Drops(c, J, p)
    ensures p in c.Phases(c.net.tree.Parent(n))
    ensures V[n][p].Plus(Drops(c, J, p)[n]) == V[c.net.tree.Parent(n)][p]
  {
    hide IsSweep, TotalC, LoadsOk, Below, HasBranches, GoodCase, Complex.Plus, Complex.Minus, Complex.Times;
    var q := c.net.tree.Parent(n);
    SweepAt(c, V0, i, J, V, n);
    SweepAtRoot(c, V0, i, J, V);
    assert Linked(c.net.tree, n);
    ParentPhases(c, V0, i, J, V, q);
    BranchEntry(c, i, J, p, n);
    DropsEntry(c, J, p, n);
    PlusLaws(V[q][p], Drops(c, J, p)[n], ZERO);
  }

  lemma DropsEntry(c: Case, J: map<EdgeId, PhaseMap>, p: Phase, n: NodeId)
    requires HasBranches(c, J) && n in c.net.tree.parentEdge && p in J[c.net.tree.parentEdge[n].id]
    ensures n in Drops(c, J, p) && Drops(c, J, p)[n] == c.Z(n).Times(J[c.net.tree.parentEdge[n].id][p])
  {
    hide Below;
  }

  lemma ParentPhases(c: Case, V0: Profile, i: Profile, J: map<EdgeId, PhaseMap>, V: Profile, q: NodeId)
    requires IsSweep(c, V0, i, J, V) && q in c.net.tree.pathEdges
    ensures q in V && V[q].Keys == c.Phases(q)
  {
    hide IsSweep, Below, LoadsOk, BranchOk, GoodCase;
    SweepAtRoot(c, V0, i, J, V);
    if q != c.net.tree.root { SweepAt(c, V0, i, J, V, q); }
  }

  // ---- power ---------------------------------------------------------------

  /** Every node but the substation. */
  ghost function Fed(c: Case): set<NodeId> {
    c.net.tree.Nodes() - {c.net.tree.root}
  }

  ghost function Conjugates(I: map<NodeId, Complex>): map<NodeId, Complex> {
    map n | n in I :: I[n].Conj()
  }

  /** V conj(I) of every fed node that has the phase. */
  ghost function LoadPowers(c: Case, i: Profile, V: Profile, p: Phase): map<NodeId, Complex> {
    map n | n in Fed(c) && n in V && p in V[n] :: V[n][p].Times(At(Slice(i, p), n, ZERO).Conj())
  }

  /** z |J|^2 of every branch that carries the phase, by child node. */
  ghost function LossPowers(c: Case, J: map<EdgeId, PhaseMap>, p: Phase): map<NodeId, Complex>
    requires HasBranches(c, J)
  {
    map n | n in c.net.tree.parentEdge && p in J[c.net.tree.parentEdge[n].id] ::
      c.Z(n).Times(Complex(J[c.net.tree.parentEdge[n].id][p].Norm2(), 0.0))
  }

  ghost function AboveMap(c: Case): map<NodeId, set<NodeId>>
    requires IsTree(c.net.tree)
  {
    map n | n in c.net.tree.pathEdges :: Above(c.net.tree, n)
  }

  lemma NodePower(c: Case, V0: Profile, i: Profile, J: map<EdgeId, PhaseMap>, V: Profile, p: Phase, n: NodeId)
    requires IsSweep(c, V0, i, J, V) && HasBranches(c, J) && PhaseNests(c, p)
    requires p in c.Phases(c.net.tree.root) && n in Fed(c)
    ensures c.net.tree.root in V && p in V[c.net.tree.root]
    ensures
      var g := Conjugates(Slice(i, p));
      At(LoadPowers(c, i, V, p), n, ZERO).Plus(At(g, n, ZERO).Times(TotalC(Drops(c, J, p), Above(c.net.tree, n))))
      == V[c.net.tree.root][p].Times(At(g, n, ZERO))
  {
    hide IsSweep, TotalC, Drops, Above, HasBranches, Slice, GoodCase, LoadsOk, Complex.Plus, Complex.Times,
      Complex.Conj;
    SweepAtRoot(c, V0, i, J, V);
    ParentPhases(c, V0, i, J, V, n);
    var I, vs, d := Slice(i, p), V[c.net.tree.root][p], TotalC(Drops(c, J, p), Above(c.net.tree, n));
    var g := At(Conjugates(I), n, ZERO);
    LoadPhases(c, V0, i, n, p);
    ConjLaws(ZERO, ZERO);
    if p in c.Phases(n) {
      VoltageAlongPath(c, V0, i, J, V, p, n);
      assert g == At(I, n, ZERO).Conj();
      Distributes(g, V[n][p], d);
      TimesLaws(V[n][p], g, ZERO);
      TimesLaws(vs, g, ZERO);
      TimesLaws(d, g, ZERO);
    } else {
      Distributes(d, ZERO, ZERO);
      Distributes(vs, ZERO, ZERO);
      PlusLaws(ZERO, ZERO, ZERO);
    }
  }

  lemma BelowIsAbove(c: Case, m: NodeId)
    requires SubtreesOk(c.net) && m in c.net.tree.parentEdge
    ensures (set n | n in Fed(c) && m in At(AboveMap(c), n, {})) == Below(c.net.tree, m)
  {
    var t := c.net.tree;
    assert m != t.root;
    assert t.root !in Below(t, m) by { assert Chain(t, t.root) == [t.root]; }
  }

  lemma BranchPower(c: Case, V0: Profile, i: Profile, J: map<EdgeId, PhaseMap>, V: Profile, p: Phase, m: NodeId)
    requires IsSweep(c, V0, i, J, V) && HasBranches(c, J) && PhaseNests(c, p) && m in c.net.tree.parentEdge
    ensures
      var g := Conjugates(Slice(i, p));
      At(Drops(c, J, p), m, ZERO).Times(TotalC(g, Below(c.net.tree, m))) == At(LossPowers(c, J, p), m, ZERO)
  {
    hide IsSweep, TotalC, Below, Slice, GoodCase, Complex.Plus, Complex.Times, Complex.Conj, Complex.Norm2;
    var I, B := Slice(i, p), Below(c.net.tree, m);
    BranchIsSubtreeTotal(c, V0, i, J, V, p, m);
    ConjLaws(ZERO, ZERO);
    TotalCConj(I, Conjugates(I), B);
    if p in J[c.net.tree.parentEdge[m].id] {
      var j, z := J[c.net.tree.parentEdge[m].id][p], c.Z(m);
      TimesLaws(z, j, j.Conj());
      TimesConj(j);
    } else {
      Distributes(TotalC(Conjugates(I), B), ZERO, ZERO);
    }
  }

  lemma FedAbove(c: Case, n: NodeId)
    requires SubtreesOk(c.net) && n in c.net.tree.pathEdges
    ensures Fed(c) * At(AboveMap(c), n, {}) == Above(c.net.tree, n)
  {
  }

  lemma DropsMeetLoads(c: Case, V0: Profile, i: Profile, J: map<EdgeId, PhaseMap>, V: Profile, p: Phase)
    requires IsSweep(c, V0, i, J, V) && HasBranches(c, J) && PhaseNests(c, p)
    ensures
      var g := Conjugates(Slice(i, p));
      TotalC(ByNode(Drops(c, J, p), g, Fed(c), Fed(c), AboveMap(c)), Fed(c)) == TotalC(LossPowers(c, J, p), Fed(c))
  {
    hide IsSweep, TotalC, Below, Slice, GoodCase, Drops, LossPowers, Conjugates, AboveMap, Complex.Times;
    var g, D, N := Conjugates(Slice(i, p)), Drops(c, J, p), Fed(c);
    ExchangeSums(D, g, N, N, AboveMap(c));
    forall m | m in N ensures At(ByBranch(D, g, N, N, AboveMap(c)), m, ZERO) == At(LossPowers(c, J, p), m, ZERO) {
      BelowIsAbove(c, m);
      BranchPower(c, V0, i, J, V, p, m);
    }
    TotalCSame(ByBranch(D, g, N, N, AboveMap(c)), LossPowers(c, J, p), N);
  }

  /** The current leaving the substation is all the fed nodes draw. */
  lemma RootCurrent(c: Case, V0: Profile, i: Profile, J: map<EdgeId, PhaseMap>, V: Profile, p: Phase)
    requires IsSweep(c, V0, i, J, V) && HasBranches(c, J) && PhaseNests(c, p)
    ensures TotalC(Slice(i, p), Fed(c)) == TotalC(BranchSlice(c, J, p), ChildSet(c.net.tree, c.net.tree.root))
  {
    hide IsSweep, TotalC, Slice, BranchSlice, GoodCase;
    var t := c.net.tree;
    assert Below(t, t.root) == t.Nodes();
    forall d | d in ChildSet(t, t.root)
      ensures At(BranchSlice(c, J, p), d, ZERO) == TotalC(Slice(i, p), Below(t, d))
    {
      BranchIsSubtreeTotal(c, V0, i, J, V, p, d);
    }
    TotalByChildren(t, t.root, Slice(i, p), BranchSlice(c, J, p));
  }

  /** Power into the feeder on one phase. */
  ghost function SlackPower(c: Case, J: map<EdgeId, PhaseMap>, V: Profile, p: Phase): Complex
    requires HasBranches(c, J)
  {
    PhaseOr(At(V, c.net.tree.root, map[]), p, ZERO)
      .Times(TotalC(BranchSlice(c, J, p), ChildSet(c.net.tree, c.net.tree.root)).Conj())
  }

  /** After every sweep, converged or not: slack power is the loads' power plus the
      branches' losses, phase by phase. */
  lemma PowerBalances(c: Case, V0: Profile, i: Profile, J: map<EdgeId, PhaseMap>, V: Profile, p: Phase)
    requires IsSweep(c, V0, i, J, V) && PhaseNests(c, p)
    ensures HasBranches(c, J)
    ensures SlackPower(c, J, V, p)
         == TotalC(LoadPowers(c, i, V, p), Fed(c)).Plus(TotalC(LossPowers(c, J, p), Fed(c)))
  {
    SweepHasBranches(c, V0, i, J, V);
    if p in c.Phases(c.net.tree.root) {
      BalanceOnPhase(c, V0, i, J, V, p);
    } else {
      NoPhaseNoPower(c, V0, i, J, V, p);
    }
  }

  lemma LoadsAndDrops(c: Case, V0: Profile, i: Profile, J: map<EdgeId, PhaseMap>, V: Profile, p: Phase)
    requires IsSweep(c, V0, i, J, V) && HasBranches(c, J) && PhaseNests(c, p) && p in c.Phases(c.net.tree.root)
    ensures c.net.tree.root in V && p in V[c.net.tree.root]
    ensures
      var g := Conjugates(Slice(i, p));
      TotalC(LoadPowers(c, i, V, p), Fed(c)).Plus(
        TotalC(ByNode(Drops(c, J, p), g, Fed(c), Fed(c), AboveMap(c)), Fed(c)))
      == V[c.net.tree.root][p].Times(TotalC(g, Fed(c)))
  {
    hide IsSweep, TotalC, Slice, GoodCase, Drops, LoadPowers, AboveMap, Conjugates, HasBranches, Above,
      Complex.Plus, Complex.Times, Complex.Conj;
    SweepAtRoot(c, V0, i, J, V);
    var g, N, vs := Conjugates(Slice(i, p)), Fed(c), V[c.net.tree.root][p];
    var fromRoot := map n | n in N :: vs.Times(At(g, n, ZERO));
    var lost := ByNode(Drops(c, J, p), g, N, N, AboveMap(c));
    forall n | n in N
      ensures At(fromRoot, n, ZERO) == At(LoadPowers(c, i, V, p), n, ZERO).Plus(At(lost, n, ZERO))
    {
      NodePower(c, V0, i, J, V, p, n);
      FedAbove(c, n);
    }
    TotalCAdds(LoadPowers(c, i, V, p), lost, fromRoot, N);
    TotalCScales(vs, g, fromRoot, N);
  }

  lemma BalanceOnPhase(c: Case, V0: Profile, i: Profile, J: map<EdgeId, PhaseMap>, V: Profile, p: Phase)
    requires IsSweep(c, V0, i, J, V) && HasBranches(c, J) && PhaseNests(c, p) && p in c.Phases(c.net.tree.root)
    ensures SlackPower(c, J, V, p)
         == TotalC(LoadPowers(c, i, V, p), Fed(c)).Plus(TotalC(LossPowers(c, J, p), Fed(c)))
  {
    hide IsSweep, TotalC, Slice, GoodCase, Drops, LossPowers, LoadPowers, AboveMap, HasBranches, BranchSlice,
      Complex.Plus, Complex.Times, Complex.Conj;
    LoadsAndDrops(c, V0, i, J, V, p);
    ConjLaws(ZERO, ZERO);
    TotalCConj(Slice(i, p), Conjugates(Slice(i, p)), Fed(c));
    RootCurrent(c, V0, i, J, V, p);
    DropsMeetLoads(c, V0, i, J, V, p);
  }

  lemma NoPhaseNoPower(c: Case, V0: Profile, i: Profile, J: map<EdgeId, PhaseMap>, V: Profile, p: Phase)
    requires IsSweep(c, V0, i, J, V) && HasBranches(c, J) && PhaseNests(c, p) && p !in c.Phases(c.net.tree.root)
    ensures SlackPower(c, J, V, p)
         == TotalC(LoadPowers(c, i, V, p), Fed(c)).Plus(TotalC(LossPowers(c, J, p), Fed(c)))
  {
    hide IsSweep, TotalC, Slice, GoodCase, BranchSlice, Below, Complex.Plus, Complex.Times, Complex.Conj;
    SweepAtRoot(c, V0, i, J, V);
    var t := c.net.tree;
    forall n | n in Fed(c)
      ensures At(LoadPowers(c, i, V, p), n, ZERO) == ZERO && At(LossPowers(c, J, p), n, ZERO) == ZERO
    {
      ParentPhases(c, V0, i, J, V, n);
      RootIsAbove(t, n);
      if p in c.Phases(n) { PhaseReachesUp(c, p, t.root, n); }
      BranchIsSubtreeTotal(c, V0, i, J, V, p, n);
    }
    TotalCZero(LoadPowers(c, i, V, p), Fed(c));
    TotalCZero(LossPowers(c, J, p), Fed(c));
    PlusLaws(ZERO, ZERO, ZERO);
    Distributes(TotalC(BranchSlice(c, J, p), ChildSet(t, t.root)).Conj(), ZERO, ZERO);
  }

  lemma RootIsAbove(t: Tree, n: NodeId)
    requires IsTree(t) && n in t.pathEdges
    ensures n in Below(t, t.root)
  {
  }

  // ---- losses --------------------------------------------------------------

  lemma {:induction false} LossesAddUp(
      loss: map<NodeId, real>, k: real,
      a: map<NodeId, Complex>, b: map<NodeId, Complex>, d: map<NodeId, Complex>, S: set<NodeId>)
    requires forall n :: n in S ==>
      At(loss, n, 0.0) == Product(k, At(a, n, ZERO).re + At(b, n, ZERO).re + At(d, n, ZERO).re)
    ensures TotalR(loss, S) == Product(k, TotalC(a, S).re + TotalC(b, S).re + TotalC(d, S).re)
    decreases |S|
  {
    hide Product, TotalC, TotalR;
    if S == {} {
      EmptyTotal(loss);
      TotalCEmpty(a);
      TotalCEmpty(b);
      TotalCEmpty(d);
      ProductAdds(k, 0.0, 0.0);
    } else {
      var n :| n in S;
      TotalRSplit(loss, S, n);
      TotalCSplit(a, S, n);
      TotalCSplit(b, S, n);
      TotalCSplit(d, S, n);
      LossesAddUp(loss, k, a, b, d, S - {n});
      ProductAdds(k, At(a, n, ZERO).re + At(b, n, ZERO).re + At(d, n, ZERO).re,
        TotalC(a, S - {n}).re + TotalC(b, S - {n}).re + TotalC(d, S - {n}).re);
    }
  }

  lemma PhaseLossIsRealPart(c: Case, V0: Profile, i: Profile, J: map<EdgeId, PhaseMap>, V: Profile, n: NodeId, p: Phase)
    requires IsSweep(c, V0, i, J, V) && HasBranches(c, J) && n in c.net.tree.parentEdge
    ensures n in c.net.byId && c.sqrt3 != 0.0
    ensures PhaseLoss(c, J[c.net.tree.parentEdge[n].id], n, p)
         == Product(SBASE_1PH_KW, At(LossPowers(c, J, p), n, ZERO).re)
  {
    hide IsSweep, TotalC, Below, Slice, GoodCase, BranchOk, VoltageOk, SubtreesOk, OhmicLoss, Product, Sq,
      Complex.Norm2, Complex.Times;
    SweepAt(c, V0, i, J, V, n);
    SweepAtRoot(c, V0, i, J, V);
    var e, m := c.net.tree.parentEdge[n], J[c.net.tree.parentEdge[n].id];
    ImpedanceOf(c, n);
    BranchEntry(c, i, J, p, n);
    if p in c.BranchPhases(n) {
      var j := m[p];
      Roots(c, j);
      OhmicLossPerUnit(c.modulus(j), c.sqrt3, BaseKv(c.net.byId[n]), e.resistanceOhm);
      RealOfLoss(c.Z(n), j);
    } else {
      ProductAdds(SBASE_1PH_KW, 0.0, 0.0);
    }
  }

  lemma Roots(c: Case, j: Complex)
    requires GoodCase(c)
    ensures Sq(c.modulus(j)) == j.Norm2() && Sq(c.sqrt3) == 3.0
  {
    hide Below;
  }

  lemma RealOfLoss(z: Complex, j: Complex)
    ensures z.Times(Complex(j.Norm2(), 0.0)).re == Product(z.re, j.Norm2())
  {
  }

  lemma ImpedanceOf(c: Case, n: NodeId)
    requires GoodCase(c) && n in c.net.tree.parentEdge && c.net.tree.parentEdge[n].id in c.net.pu
    ensures n in c.net.byId && c.sqrt3 != 0.0
    ensures var kv := BaseKv(c.net.byId[n]);
      Product(kv, kv) != 0.0 && c.Z(n).re == c.net.tree.parentEdge[n].resistanceOhm / Product(kv, kv)
  {
    hide Below;
    var kv := BaseKv(c.net.byId[n]);
    NoZeroProduct(kv, kv);
    assert PerUnit(c.net.tree.parentEdge[n], c.net.byId[n]) == c.net.pu[c.net.tree.parentEdge[n].id];
  }

  lemma BranchLossIsRealPart(c: Case, V0: Profile, i: Profile, J: map<EdgeId, PhaseMap>, V: Profile, n: NodeId)
    requires IsSweep(c, V0, i, J, V) && HasBranches(c, J) && n in c.net.tree.parentEdge
    ensures n in c.net.byId && c.sqrt3 != 0.0
    ensures BranchLoss(c, J[c.net.tree.parentEdge[n].id], n)
         == Product(SBASE_1PH_KW, At(LossPowers(c, J, A), n, ZERO).re + At(LossPowers(c, J, B), n, ZERO).re
              + At(LossPowers(c, J, C), n, ZERO).re)
  {
    hide IsSweep, SubtreesOk, LossPowers, PhaseLoss, Product;
    PhaseLossIsRealPart(c, V0, i, J, V, n, A);
    PhaseLossIsRealPart(c, V0, i, J, V, n, B);
    PhaseLossIsRealPart(c, V0, i, J, V, n, C);
    var x, y := At(LossPowers(c, J, A), n, ZERO).re, At(LossPowers(c, J, B), n, ZERO).re;
    var z := At(LossPowers(c, J, C), n, ZERO).re;
    ProductAdds(SBASE_1PH_KW, x, y);
    ProductAdds(SBASE_1PH_KW, x + y, z);
  }

  /** The I^2 R total, summed from line amps, is the real part of the branch term on the
      per-phase base. */
  lemma LossIsRealPart(c: Case, V0: Profile, i: Profile, J: map<EdgeId, PhaseMap>, V: Profile)
    requires IsSweep(c, V0, i, J, V)
    ensures HasBranches(c, J) && Accounted(c, J)
    ensures TotalR(BranchLosses(c, J), c.net.tree.parentEdge.Keys)
         == Product(SBASE_1PH_KW,
              TotalC(LossPowers(c, J, A), Fed(c)).re + TotalC(LossPowers(c, J, B), Fed(c)).re
              + TotalC(LossPowers(c, J, C), Fed(c)).re)
  {
    hide IsSweep, TotalC, TotalR, GoodCase, LossPowers, BranchLoss, Product, SubtreesOk;
    SweepHasBranches(c, V0, i, J, V);
    SweepAccounts(c, V0, i, J, V);
    SweepAtRoot(c, V0, i, J, V);
    TreeKeys(c);
    assert c.net.tree.parentEdge.Keys == Fed(c);
    forall n | n in Fed(c)
      ensures At(BranchLosses(c, J), n, 0.0)
        == Product(SBASE_1PH_KW, At(LossPowers(c, J, A), n, ZERO).re + At(LossPowers(c, J, B), n, ZERO).re
             + At(LossPowers(c, J, C), n, ZERO).re)
    {
      BranchLossIsRealPart(c, V0, i, J, V, n);
    }
    LossesAddUp(
      BranchLosses(c, J), SBASE_1PH_KW, LossPowers(c, J, A), LossPowers(c, J, B), LossPowers(c, J, C), Fed(c));
  }
}

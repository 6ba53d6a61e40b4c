/** What settling means: a load misses its demanded power by the distance its voltage
    moved in the last sweep times its current. */
module Convergence {
  import opened Graph
  import opened Grid
  import opened RadialTree
  import opened Sums
  import opened Reals
  import opened ComplexNumbers
  import opened PowerFlow
  import opened PowerBalance

  // ---- the modulus ---------------------------------------------------------

  lemma SqInjective(x: real, y: real)
    requires x >= 0.0 && y >= 0.0 && Sq(x) == Sq(y)
    ensures x == y
  {
    assert Product(x - y, x + y) == Sq(x) - Sq(y);
    if x != y { NoZeroProduct(x - y, x + y); }
  }

  lemma SqProduct(x: real, y: real)
    ensures Sq(x * y) == Product(Sq(x), Sq(y))
  {
  }

  lemma CrossTermsCancel(x: real, y: real, u: real, w: real)
    requires Product(x, y) == Product(u, w)
    ensures Sq(x - y) + Sq(u + w) == Sq(x) + Sq(y) + Sq(u) + Sq(w)
  {
  }

  lemma SumsMultiply(a: real, b: real, d: real, e: real)
    ensures Product(a + b, d + e) == Product(a, d) + Product(a, e) + Product(b, d) + Product(b, e)
  {
  }

  lemma NormTimes(u: Complex, v: Complex)
    ensures u.Times(v).Norm2() == Product(u.Norm2(), v.Norm2())
  {
    var a, b, d, e := u.re, u.im, v.re, v.im;
    assert Product(a * d, b * e) == Product(a * e, b * d);
    hide Sq, Product;
    CrossTermsCancel(a * d, b * e, a * e, b * d);
    SqProduct(a, d);
    SqProduct(a, e);
    SqProduct(b, d);
    SqProduct(b, e);
    SumsMultiply(Sq(a), Sq(b), Sq(d), Sq(e));
  }

  lemma ModulusTimes(c: Case, u: Complex, v: Complex)
    requires GoodCase(c)
    ensures c.modulus(u.Times(v)) == Product(c.modulus(u), c.modulus(v))
    ensures c.modulus(v.Conj()) == c.modulus(v) && c.modulus(v) >= 0.0
  {
    hide SubtreesOk, Complex.Times;
    NormTimes(u, v);
    var m, n := c.modulus(u), c.modulus(v);
    assert Sq(Product(m, n)) == Product(Sq(m), Sq(n));
    ProductNonNegative(m, n);
    SqInjective(c.modulus(u.Times(v)), Product(m, n));
    assert v.Conj().Norm2() == v.Norm2();
    SqInjective(c.modulus(v.Conj()), n);
  }

  lemma ScaleApart(v: Complex, w: Complex, k: real)
    ensures v.Times(w.Scale(k)) == v.Times(w).Scale(k)
  {
  }

  lemma RealTimes(w: Complex, n: real)
    ensures w.Times(Complex(n, 0.0)) == w.Scale(n)
  {
  }

  lemma ScaleBack(w: Complex, n: real)
    requires n != 0.0
    ensures w.Scale(n).Scale(1.0 / n) == w
  {
    DivisionUndone(1.0, n);
  }

  lemma OverUndone(w: Complex, v: Complex)
    requires v != ZERO
    ensures v.Times(w.Over(v)) == w
  {
    hide Complex.Times, Complex.Scale, Complex.Conj, Complex.Norm2;
    NonZeroNorm(v);
    var u, n := v.Conj(), v.Norm2();
    ScaleApart(v, w.Times(u), 1.0 / n);
    TimesLaws(w, u, v);
    TimesLaws(v, w.Times(u), ZERO);
    TimesLaws(u, v, ZERO);
    TimesConj(v);
    RealTimes(w, n);
    ScaleBack(w, n);
  }

  lemma ConjTwice(w: Complex)
    ensures w.Conj().Conj() == w
  {
  }

  // ---- loads ---------------------------------------------------------------

  ghost predicate HasLoad(c: Case, n: NodeId, p: Phase) {
    n in c.net.tree.Nodes() && p in c.Phases(n) && p in At(c.loads, n, map[])
  }

  /** The power a load demands, per unit of the per-phase base. */
  ghost function Demand(c: Case, n: NodeId, p: Phase): Complex
    requires HasLoad(c, n, p)
  {
    Scaled(At(c.loads, n, map[])[p], SBASE_1PH_KW)
  }

  lemma RootKept(c: Case, V0: Profile, i: Profile, J: map<EdgeId, PhaseMap>, V: Profile)
    requires IsSweep(c, V0, i, J, V)
    ensures c.net.tree.root in V0 && c.net.tree.root in V && V[c.net.tree.root] == V0[c.net.tree.root]
    ensures IsTree(c.net.tree)
  {
    hide Below, BranchOk, VoltageOk, LoadsOk;
  }

  lemma OnlyRootHasNoEdge(c: Case, n: NodeId)
    requires GoodCase(c) && n in c.net.tree.Nodes() && n !in c.net.tree.parentEdge
    ensures n == c.net.tree.root
  {
    hide Below;
  }

  lemma LoadEntry(c: Case, V0: Profile, i: Profile, J: map<EdgeId, PhaseMap>, V: Profile, n: NodeId, p: Phase)
    requires IsSweep(c, V0, i, J, V) && FullProfile(c, V0) && HasLoad(c, n, p)
    ensures GoodCase(c)
    ensures n in i && p in i[n] && n in V0 && p in V0[n] && n in V && p in V[n]
    ensures i[n][p] == LoadCurrent(c, V0, n, p)
    ensures n !in c.net.tree.parentEdge ==> V[n] == V0[n]
  {
    hide IsSweep, SubtreesOk, IsTree, BranchOk, LoadCurrent, NewVoltage;
    SweepAtRoot(c, V0, i, J, V);
    RootKept(c, V0, i, J, V);
    if n in c.net.tree.parentEdge { SweepAt(c, V0, i, J, V, n); } else { OnlyRootHasNoEdge(c, n); }
  }

  lemma CurrentFromDemand(c: Case, V0: Profile, n: NodeId, p: Phase)
    requires GoodCase(c) && HasLoad(c, n, p) && n in V0 && p in V0[n]
    ensures p in c.slack && c.slack[p] != ZERO
    ensures LoadCurrent(c, V0, n, p) == Demand(c, n, p).Over(if V0[n][p] == ZERO then c.slack[p] else V0[n][p]).Conj()
  {
    hide SubtreesOk, Complex.Times, Complex.Over, Scaled;
  }

  /** The current drawn at a voltage takes the demanded power there, except at zero
      volts, where the code draws what the slack voltage would need. */
  lemma CurrentTakesDemand(c: Case, V0: Profile, n: NodeId, p: Phase)
    requires GoodCase(c) && HasLoad(c, n, p) && n in V0 && p in V0[n]
    ensures p in c.slack && c.slack[p] != ZERO
    ensures V0[n][p].Times(LoadCurrent(c, V0, n, p).Conj()) == Demand(c, n, p)
      <==> V0[n][p] != ZERO || Demand(c, n, p) == ZERO
  {
    hide *;
    CurrentFromDemand(c, V0, n, p);
    var v, s := V0[n][p], Demand(c, n, p);
    ConjTwice(s.Over(if v == ZERO then c.slack[p] else v));
    if v == ZERO {
      Distributes(s.Over(c.slack[p]), ZERO, ZERO);
    } else {
      OverUndone(s, v);
    }
  }

  /** After any sweep a load misses its demanded power by exactly the distance its
      voltage moved times its current. */
  lemma DemandMissedBy(c: Case, V0: Profile, i: Profile, J: map<EdgeId, PhaseMap>, V: Profile, n: NodeId, p: Phase)
    requires IsSweep(c, V0, i, J, V) && FullProfile(c, V0) && HasLoad(c, n, p)
    ensures n in V0 && p in V0[n] && n in V && p in V[n] && n in i && p in i[n]
    ensures V0[n][p] != ZERO || Demand(c, n, p) == ZERO ==>
      c.modulus(V[n][p].Times(i[n][p].Conj()).Minus(Demand(c, n, p)))
      == Product(Moved(c, V0, V, n, p), c.modulus(i[n][p]))
  {
    hide IsSweep, LoadCurrent, Demand, GoodCase, FullProfile, Product, Complex.Times, Complex.Conj, Complex.Minus;
    LoadEntry(c, V0, i, J, V, n, p);
    CurrentTakesDemand(c, V0, n, p);
    Distributes(i[n][p].Conj(), V[n][p], V0[n][p]);
    ModulusTimes(c, V[n][p].Minus(V0[n][p]), i[n][p].Conj());
    ModulusTimes(c, ZERO, i[n][p]);
  }

  /** Once a sweep settles, every load takes its demanded power up to the tolerance
      times its current. */
  lemma SettledServes(
      c: Case, V0: Profile, i: Profile, J: map<EdgeId, PhaseMap>, V: Profile, tol: real, n: NodeId, p: Phase)
    requires IsSweep(c, V0, i, J, V) && FullProfile(c, V0) && HasLoad(c, n, p) && Settled(c, V0, V, tol)
    ensures n in V0 && p in V0[n] && n in V && p in V[n] && n in i && p in i[n]
    ensures V0[n][p] != ZERO || Demand(c, n, p) == ZERO ==>
      c.modulus(V[n][p].Times(i[n][p].Conj()).Minus(Demand(c, n, p))) <= Product(tol, c.modulus(i[n][p]))
  {
    hide IsSweep, LoadCurrent, Demand, GoodCase, FullProfile, Product, Moved, Complex.Times, Complex.Conj,
      Complex.Minus;
    LoadEntry(c, V0, i, J, V, n, p);
    DemandMissedBy(c, V0, i, J, V, n, p);
    ModulusTimes(c, ZERO, i[n][p]);
    if n !in c.net.tree.parentEdge { StayedPut(c, V0, V, n, p); }
    ProductGrows(Moved(c, V0, V, n, p), tol, c.modulus(i[n][p]));
  }

  lemma ModulusOfZero(c: Case)
    requires GoodCase(c)
    ensures c.modulus(ZERO) == 0.0
  {
    hide SubtreesOk;
    assert ZERO.Norm2() == 0.0;
    SqSign(c.modulus(ZERO));
  }

  lemma StayedPut(c: Case, V0: Profile, V: Profile, n: NodeId, p: Phase)
    requires GoodCase(c) && n in V0 && n in V && V[n] == V0[n]
    ensures Moved(c, V0, V, n, p) == 0.0
  {
    hide GoodCase;
    ModulusOfZero(c);
    if p in V[n] { assert V[n][p].Minus(V0[n][p]) == ZERO; }
  }

  lemma ProductGrows(x: real, y: real, k: real)
    requires x <= y && k >= 0.0
    ensures Product(x, k) <= Product(y, k)
  {
    ProductNonNegative(y - x, k);
    assert Product(y - x, k) == Product(y, k) - Product(x, k);
  }

  lemma SweptIsFull(c: Case, V0: Profile, V: Profile)
    requires Swept(c, V0, V)
    ensures FullProfile(c, V) && GoodCase(c)
  {
    hide IsSweep, BranchOk, LoadsOk, NewVoltage, SubtreesOk;
    var i, J :| IsSweep(c, V0, i, J, V);
    SweepAtRoot(c, V0, i, J, V);
    RootKept(c, V0, i, J, V);
    forall n | n in V ensures V[n].Keys == c.Phases(n) {
      if n in c.net.tree.parentEdge { SweepAt(c, V0, i, J, V, n); } else { OnlyRootHasNoEdge(c, n); }
    }
  }

  /** Every profile of a run holds a voltage for each phase of each node. */
  lemma RunIsFull(c: Case, chain: seq<Profile>, tol: real, k: nat)
    requires IsRun(c, chain, tol) && k < |chain|
    ensures FullProfile(c, chain[k])
  {
    hide Swept;
    if k > 0 {
      assert SweptAt(c, chain, k);
      SweptIsFull(c, chain[k - 1], chain[k]);
    }
  }

  /** The k-th sweep of a run serves every load up to the tolerance times its current,
      once it settles. */
  lemma RunServes(
      c: Case, chain: seq<Profile>, tol: real, k: nat, i: Profile, J: map<EdgeId, PhaseMap>, n: NodeId, p: Phase)
    requires IsRun(c, chain, tol) && 0 < k < |chain| && SettledAt(c, chain, k, tol)
    requires IsSweep(c, chain[k - 1], i, J, chain[k]) && HasLoad(c, n, p)
    ensures n in chain[k - 1] && p in chain[k - 1][n] && n in chain[k] && p in chain[k][n] && n in i && p in i[n]
    ensures chain[k - 1][n][p] != ZERO || Demand(c, n, p) == ZERO ==>
      c.modulus(chain[k][n][p].Times(i[n][p].Conj()).Minus(Demand(c, n, p))) <= Product(tol, c.modulus(i[n][p]))
  {
    hide *;
    RunIsFull(c, chain, tol, k - 1);
    SettledMeans(c, chain, k, tol);
    SettledServes(c, chain[k - 1], i, J, chain[k], tol, n, p);
  }

  lemma SettledMeans(c: Case, chain: seq<Profile>, k: nat, tol: real)
    requires 0 < k < |chain|
    ensures SettledAt(c, chain, k, tol) == Settled(c, chain[k - 1], chain[k], tol)
  {
  }

  // ---- one sweep is a function of the voltages before it -------------------

  ghost predicate SameBranches(c: Case, J: map<EdgeId, PhaseMap>, J': map<EdgeId, PhaseMap>) {
    forall n :: n in c.net.tree.parentEdge ==>
      var id := c.net.tree.parentEdge[n].id;
      id in J && id in J' && J[id] == J'[id]
  }

  lemma SameLoads(c: Case, V0: Profile, i: Profile, i': Profile)
    requires GoodCase(c) && LoadsOk(c, V0, i) && LoadsOk(c, V0, i')
    ensures i == i'
  {
    hide GoodCase, LoadCurrent;
    forall n | n in i ensures i[n] == i'[n] {
      assert i[n].Keys == i'[n].Keys;
    }
  }

  lemma BranchDetermined(c: Case, i: Profile, J: map<EdgeId, PhaseMap>, J': map<EdgeId, PhaseMap>, n: NodeId)
    requires GoodCase(c) && n in c.net.tree.parentEdge && BranchOk(c, i, J, n) && BranchOk(c, i, J', n)
    ensures c.net.tree.parentEdge[n].id in J && c.net.tree.parentEdge[n].id in J'
    ensures J[c.net.tree.parentEdge[n].id] == J'[c.net.tree.parentEdge[n].id]
  {
    hide GoodCase;
    var id := c.net.tree.parentEdge[n].id;
    assert J[id].Keys == J'[id].Keys;
  }

  lemma VoltageDetermined(
      c: Case, J: map<EdgeId, PhaseMap>, J': map<EdgeId, PhaseMap>, V: Profile, V': Profile, n: NodeId)
    requires GoodCase(c) && n in c.net.tree.parentEdge && SameBranches(c, J, J')
    requires c.net.tree.parentEdge[n].id in J && c.net.tree.parentEdge[n].id in J'
    requires VoltageOk(c, J, V, n) && VoltageOk(c, J', V', n)
    requires At(V, c.net.tree.Parent(n), map[]) == At(V', c.net.tree.Parent(n), map[])
    ensures V[n] == V'[n]
  {
    hide SubtreesOk;
    forall p | p in V[n] ensures V[n][p] == V'[n][p] {
    }
    assert V[n].Keys == V'[n].Keys;
  }

  lemma {:induction false} SameVoltages(
      c: Case, J: map<EdgeId, PhaseMap>, J': map<EdgeId, PhaseMap>, V: Profile, V': Profile, n: NodeId)
    requires GoodCase(c) && IsTree(c.net.tree) && SameBranches(c, J, J') && n in c.net.tree.pathEdges
    requires V.Keys == c.net.tree.Nodes() == V'.Keys && V[c.net.tree.root] == V'[c.net.tree.root]
    requires forall k :: k in c.net.tree.parentEdge ==> VoltageOk(c, J, V, k) && VoltageOk(c, J', V', k)
    ensures V[n] == V'[n]
    decreases |c.net.tree.pathEdges[n]|
  {
    hide GoodCase, VoltageOk;
    if n != c.net.tree.root {
      SameVoltages(c, J, J', V, V', c.net.tree.Parent(n));
      VoltageDetermined(c, J, J', V, V', n);
    }
  }

  /** From the same voltages every sweep finds the same currents and the same new
      voltages, in whatever order it visits the nodes. */
  lemma SweepIsUnique(
      c: Case, V0: Profile, i: Profile, J: map<EdgeId, PhaseMap>, V: Profile,
      i': Profile, J': map<EdgeId, PhaseMap>, V': Profile)
    requires IsSweep(c, V0, i, J, V) && IsSweep(c, V0, i', J', V')
    ensures i == i' && SameBranches(c, J, J') && V == V'
  {
    hide IsSweep, LoadsOk, BranchOk, VoltageOk, IsTree, GoodCase;
    SweepAtRoot(c, V0, i, J, V);
    SweepAtRoot(c, V0, i', J', V');
    RootKept(c, V0, i, J, V);
    RootKept(c, V0, i', J', V');
    SameLoads(c, V0, i, i');
    forall n | n in c.net.tree.parentEdge
      ensures var id := c.net.tree.parentEdge[n].id; id in J && id in J' && J[id] == J'[id]
      ensures VoltageOk(c, J, V, n) && VoltageOk(c, J', V', n)
    {
      SweepAt(c, V0, i, J, V, n);
      SweepAt(c, V0, i', J', V', n);
      BranchDetermined(c, i, J, J', n);
    }
    forall n | n in c.net.tree.pathEdges ensures V[n] == V'[n] {
      SameVoltages(c, J, J', V, V', n);
    }
  }

  /** Two runs of the same case agree as far as both go, so the number of sweeps and the
      answer depend on the case, the tolerance and the budget alone. */
  lemma {:induction false} RunsAgree(c: Case, chain: seq<Profile>, chain': seq<Profile>, tol: real, k: nat)
    requires IsRun(c, chain, tol) && IsRun(c, chain', tol) && k < |chain| && k < |chain'|
    ensures chain[k] == chain'[k]
  {
    hide IsSweep, FlatProfile, Settled;
    if k > 0 {
      RunsAgree(c, chain, chain', tol, k - 1);
      assert SweptAt(c, chain, k) && SweptAt(c, chain', k);
      var i, J :| IsSweep(c, chain[k - 1], i, J, chain[k]);
      var i', J' :| IsSweep(c, chain'[k - 1], i', J', chain'[k]);
      SweepIsUnique(c, chain[k - 1], i, J, chain[k], i', J', chain'[k]);
    }
  }
}

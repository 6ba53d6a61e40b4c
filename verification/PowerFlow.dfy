/** The three-phase backward/forward sweep over the radial tree. */
module PowerFlow {
  import opened Graph
  import opened Grid
  import opened RadialTree
  import opened Sums
  import opened Reals
  import opened ComplexNumbers
  import opened ComplexSums
  import opened Sequences

  type PhaseMap = map<Phase, Complex>
  type Profile = map<NodeId, PhaseMap>

  /** What one solve works on. `modulus` and `sqrt3` stand for the square roots the
      source takes. */
  datatype Case = Case(
    net: Net, loads: map<NodeId, PhaseMap>, slack: PhaseMap, modulus: Complex -> real, sqrt3: real)
  {
    function Phases(n: NodeId): set<Phase> {
      if n in net.byId then net.byId[n].phases else {}
    }

    /** The phases a parent edge actually carries. */
    function BranchPhases(n: NodeId): set<Phase>
      requires n in net.tree.parentEdge
    {
      Phases(n) * net.tree.parentEdge[n].phases
    }

    function Z(n: NodeId): Complex
      requires n in net.tree.parentEdge && net.tree.parentEdge[n].id in net.pu
    {
      var pu := net.pu[net.tree.parentEdge[n].id];
      Complex(pu.r, pu.x)
    }
  }

  const SBASE_1PH_KW := SBASE_KW / 3.0

  ghost predicate GoodCase(c: Case) {
    && SubtreesOk(c.net)
    && (forall p: Phase :: p in c.slack && c.slack[p] != ZERO)
    && (forall z: Complex :: c.modulus(z) >= 0.0 && Sq(c.modulus(z)) == z.Norm2())
    && c.sqrt3 > 0.0 && Sq(c.sqrt3) == 3.0
  }

  function PhaseOr(m: PhaseMap, p: Phase, default: Complex): Complex {
    if p in m then m[p] else default
  }

  function Scaled(s: Complex, k: real): Complex
    requires k != 0.0
  {
    Complex(s.re / k, s.im / k)
  }

  /** conj(S / V) per unit, with the slack voltage where the node has none. */
  function LoadCurrent(c: Case, V: Profile, n: NodeId, p: Phase): Complex
    requires p in c.slack && c.slack[p] != ZERO
  {
    var ld := At(c.loads, n, map[]);
    if p !in ld then ZERO
    else
      var v := PhaseOr(At(V, n, map[]), p, ZERO);
      Scaled(ld[p], SBASE_1PH_KW).Over(if v == ZERO then c.slack[p] else v).Conj()
  }

  /** One phase of a profile, by node. */
  function Slice(m: Profile, p: Phase): map<NodeId, Complex> {
    map n | n in m && p in m[n] :: m[n][p]
  }

  ghost predicate LoadsOk(c: Case, V: Profile, i: Profile)
    requires GoodCase(c)
  {
    && i.Keys == c.net.tree.Nodes()
    && forall n :: n in i ==> i[n].Keys == c.Phases(n) && forall p :: p in i[n] ==> i[n][p] == LoadCurrent(c, V, n, p)
  }

  ghost predicate BranchOk(c: Case, i: Profile, J: map<EdgeId, PhaseMap>, n: NodeId)
    requires GoodCase(c) && n in c.net.tree.parentEdge
  {
    var id := c.net.tree.parentEdge[n].id;
    && id in J && id in c.net.subtree
    && J[id].Keys == c.BranchPhases(n)
    && forall p :: p in J[id] ==> J[id][p] == TotalC(Slice(i, p), c.net.subtree[id])
  }

  /** The current a branch adds to its child's equation: none on a phase it lacks. */
  function BranchCurrent(c: Case, J: map<EdgeId, PhaseMap>, n: NodeId, p: Phase): Complex
    requires n in c.net.tree.parentEdge && c.net.tree.parentEdge[n].id in J
  {
    if p in c.BranchPhases(n) then PhaseOr(J[c.net.tree.parentEdge[n].id], p, ZERO) else ZERO
  }

  function NewVoltage(c: Case, V: Profile, J: map<EdgeId, PhaseMap>, n: NodeId, p: Phase): Complex
    requires n in c.net.tree.parentEdge && c.net.tree.parentEdge[n].id in J && c.net.tree.parentEdge[n].id in c.net.pu
    requires p in c.slack
  {
    PhaseOr(At(V, c.net.tree.Parent(n), map[]), p, c.slack[p]).Minus(c.Z(n).Times(BranchCurrent(c, J, n, p)))
  }

  ghost predicate VoltageOk(c: Case, J: map<EdgeId, PhaseMap>, V: Profile, n: NodeId)
    requires GoodCase(c) && n in c.net.tree.parentEdge && c.net.tree.parentEdge[n].id in J
  {
    && n in V && V[n].Keys == c.Phases(n)
    && c.net.tree.parentEdge[n].id in c.net.pu
    && forall p :: p in V[n] ==> V[n][p] == NewVoltage(c, V, J, n, p)
  }

  /** One whole sweep: load currents from the old voltages, branch currents from them,
      new voltages from the root down. */
  ghost predicate IsSweep(c: Case, V0: Profile, i: Profile, J: map<EdgeId, PhaseMap>, V: Profile) {
    && GoodCase(c) && LoadsOk(c, V0, i)
    && (forall n :: n in c.net.tree.parentEdge ==> BranchOk(c, i, J, n))
    && V.Keys == c.net.tree.Nodes()
    && c.net.tree.root in V0 && V[c.net.tree.root] == V0[c.net.tree.root]
    && V[c.net.tree.root].Keys == c.Phases(c.net.tree.root)
    && forall n :: n in c.net.tree.parentEdge ==> VoltageOk(c, J, V, n)
  }

  // ---- the sweep -----------------------------------------------------------

  method FindLoadCurrents(c: Case, V: Profile) returns (i: Profile)
    requires GoodCase(c)
    ensures LoadsOk(c, V, i)
  {
    hide SubtreesOk, LoadCurrent;
    i := map[];
    var todo := c.net.tree.pathEdges.Keys;
    while todo != {}
      invariant todo <= c.net.tree.Nodes() && i.Keys == c.net.tree.Nodes() - todo
      invariant forall n :: n in i ==>
        i[n].Keys == c.Phases(n) && forall p :: p in i[n] ==> i[n][p] == LoadCurrent(c, V, n, p)
      decreases todo
    {
      var n :| n in todo;
      i := i[n := map p: Phase | p in c.Phases(n) :: LoadCurrent(c, V, n, p)];
      todo := todo - {n};
    }
  }

  /** The total current of one phase over a subtree. */
  method PhaseTotal(i: Profile, p: Phase, S: set<NodeId>) returns (t: Complex)
    ensures t == TotalC(Slice(i, p), S)
  {
    t := TotalCOver(Slice(i, p), S);
  }

  lemma OtherBranchKept(c: Case, i: Profile, J: map<EdgeId, PhaseMap>, n: NodeId, m: PhaseMap, k: NodeId)
    requires GoodCase(c) && n in c.net.tree.parentEdge && k in c.net.tree.parentEdge && k != n
    requires BranchOk(c, i, J, k)
    ensures BranchOk(c, i, J[c.net.tree.parentEdge[n].id := m], k)
  {
    hide Below, Slice, TotalC;
  }

  method BranchMap(c: Case, i: Profile, n: NodeId) returns (m: PhaseMap)
    requires GoodCase(c) && n in c.net.tree.parentEdge && c.net.tree.parentEdge[n].id in c.net.subtree
    ensures m.Keys == c.BranchPhases(n)
    ensures forall p :: p in m ==> m[p] == TotalC(Slice(i, p), c.net.subtree[c.net.tree.parentEdge[n].id])
  {
    hide GoodCase, Slice, TotalC;
    var below := c.net.subtree[c.net.tree.parentEdge[n].id];
    var a := PhaseTotal(i, A, below);
    var b := PhaseTotal(i, B, below);
    var d := PhaseTotal(i, C, below);
    m := map p | p in c.BranchPhases(n) :: match p case A => a case B => b case C => d;
  }

  lemma EdgeHasSubtree(c: Case, n: NodeId)
    requires GoodCase(c) && n in c.net.tree.parentEdge
    ensures c.net.tree.parentEdge[n].id in c.net.subtree && c.net.tree.parentEdge[n].id in c.net.pu
  {
    hide Below;
  }

  method FindBranchCurrents(c: Case, i: Profile) returns (J: map<EdgeId, PhaseMap>)
    requires GoodCase(c)
    ensures forall n :: n in c.net.tree.parentEdge ==> BranchOk(c, i, J, n)
  {
    hide GoodCase, Slice, TotalC;
    J := map[];
    var todo := c.net.tree.parentEdge.Keys;
    while todo != {}
      invariant todo <= c.net.tree.parentEdge.Keys
      invariant forall n :: n in c.net.tree.parentEdge && n !in todo ==> BranchOk(c, i, J, n)
      decreases todo
    {
      var n :| n in todo;
      EdgeHasSubtree(c, n);
      var m := BranchMap(c, i, n);
      forall k | k in c.net.tree.parentEdge && k !in todo
        ensures BranchOk(c, i, J[c.net.tree.parentEdge[n].id := m], k)
      {
        OtherBranchKept(c, i, J, n, m, k);
      }
      J := J[c.net.tree.parentEdge[n].id := m];
      todo := todo - {n};
    }
  }

  /** How far a node's voltages moved. */
  function NodeMismatch(c: Case, was: PhaseMap, now: PhaseMap): real {
    Max(PhaseMismatch(c, was, now, A), Max(PhaseMismatch(c, was, now, B), PhaseMismatch(c, was, now, C)))
  }

  function PhaseMismatch(c: Case, was: PhaseMap, now: PhaseMap, p: Phase): real {
    if p in now && p in was then c.modulus(now[p].Minus(was[p])) else 0.0
  }

  /** |V - V0| of one phase of one node; none where a profile lacks it. */
  function Moved(c: Case, V0: Profile, V: Profile, n: NodeId, p: Phase): real {
    if n in V0 && n in V then PhaseMismatch(c, V0[n], V[n], p) else 0.0
  }

  /** `m` is the farthest that any phase of the nodes `S` moved. */
  ghost predicate LargestMove(c: Case, V0: Profile, V: Profile, S: set<NodeId>, m: real) {
    && m >= 0.0
    && (forall n, p :: n in S ==> Moved(c, V0, V, n, p) <= m)
    && (m == 0.0 || exists n, p :: n in S && Moved(c, V0, V, n, p) == m)
  }

  ghost predicate Untouched(V0: Profile, V: Profile, listed: seq<NodeId>) {
    V.Keys == V0.Keys && forall n :: n in V && n !in listed ==> V[n] == V0[n]
  }

  lemma LargestOfThree(c: Case, was: PhaseMap, now: PhaseMap)
    ensures forall p :: PhaseMismatch(c, was, now, p) <= NodeMismatch(c, was, now)
    ensures exists p :: PhaseMismatch(c, was, now, p) == NodeMismatch(c, was, now)
  {
    hide PhaseMismatch;
    forall p ensures PhaseMismatch(c, was, now, p) <= NodeMismatch(c, was, now) {
      if { case p == A => case p == B => case p == C => }
    }
    assert NodeMismatch(c, was, now)
      in {PhaseMismatch(c, was, now, A), PhaseMismatch(c, was, now, B), PhaseMismatch(c, was, now, C)};
  }

  lemma NothingMoved(c: Case, V0: Profile)
    ensures LargestMove(c, V0, V0, Elems([]), 0.0)
  {
  }

  lemma MoveStep(c: Case, V0: Profile, V: Profile, S: set<NodeId>, n: NodeId, now: PhaseMap, m: real)
    requires GoodCase(c) && LargestMove(c, V0, V, S, m)
    requires n !in S && n in V && n in V0 && V[n] == V0[n]
    ensures LargestMove(c, V0, V[n := now], S + {n}, Max(m, NodeMismatch(c, V[n], now)))
  {
    hide GoodCase, PhaseMismatch, NodeMismatch;
    var V', far := V[n := now], NodeMismatch(c, V0[n], now);
    LargestOfThree(c, V0[n], now);
    assert forall x, p :: x in S ==> Moved(c, V0, V', x, p) == Moved(c, V0, V, x, p);
    assert forall p :: Moved(c, V0, V', n, p) == PhaseMismatch(c, V0[n], now, p);
    if far > m {
      var p :| PhaseMismatch(c, V0[n], now, p) == far;
      assert Moved(c, V0, V', n, p) == far;
    } else if m > 0.0 {
      var x, p :| x in S && Moved(c, V0, V, x, p) == m;
      assert Moved(c, V0, V', x, p) == m;
    }
  }

  ghost predicate ForwardSoFar(c: Case, J: map<EdgeId, PhaseMap>, V0: Profile, V: Profile, listed: seq<NodeId>)
    requires GoodCase(c) && forall n :: n in c.net.tree.parentEdge ==> c.net.tree.parentEdge[n].id in J
  {
    && V.Keys == c.net.tree.Nodes() && c.net.tree.root in V0
    && V[c.net.tree.root] == V0[c.net.tree.root]
    && (forall n :: n in V ==> V[n].Keys == c.Phases(n))
    && forall n :: n in listed && n in c.net.tree.parentEdge ==> VoltageOk(c, J, V, n)
  }

  /** Setting the next node in order leaves the nodes already set alone: their parents
      come before them. */
  lemma ForwardStep(
      c: Case, edges: seq<Edge>, J: map<EdgeId, PhaseMap>, V0: Profile, V: Profile, k: nat, m: PhaseMap)
    requires GoodCase(c) && forall n :: n in c.net.tree.parentEdge ==> c.net.tree.parentEdge[n].id in J
    requires Rooted(edges, c.net.tree.root, c.net.tree.order, c.net.tree.parentEdge) && 0 < k < |c.net.tree.order|
    requires Elems(c.net.tree.order) == c.net.tree.Nodes()
    requires ForwardSoFar(c, J, V0, V, c.net.tree.order[..k])
    requires var n := c.net.tree.order[k];
      && n in c.net.tree.parentEdge && c.net.tree.parentEdge[n].id in c.net.pu
      && m.Keys == c.Phases(n) && forall p :: p in m ==> m[p] == NewVoltage(c, V, J, n, p)
    ensures ForwardSoFar(c, J, V0, V[c.net.tree.order[k] := m], c.net.tree.order[..k + 1])
  {
    hide GoodCase, NewVoltage, VoltageOk, Rooted;
    var order, n := c.net.tree.order, c.net.tree.order[k];
    var V' := V[n := m];
    RootFirst(edges, c.net.tree.root, order, c.net.tree.parentEdge, k);
    forall x | x in order[..k + 1] && x in c.net.tree.parentEdge ensures VoltageOk(c, J, V', x) {
      var i :| 0 <= i < k + 1 && order[i] == x;
      RootFirst(edges, c.net.tree.root, order, c.net.tree.parentEdge, i);
      ParentBefore(edges, c.net.tree.root, order, c.net.tree.parentEdge, i, k);
      if i < k {
        assert order[..k][i] == x;
        OtherVoltageKept(c, J, V, x, n, m);
      } else {
        NewVoltageSet(c, J, V, n, m);
      }
    }
  }

  lemma RootFirst(edges: seq<Edge>, root: NodeId, order: seq<NodeId>, pe: map<NodeId, Edge>, k: nat)
    requires Rooted(edges, root, order, pe) && k < |order|
    ensures (order[k] in pe ==> k > 0) && (k > 0 ==> order[k] != root)
    ensures forall j :: 0 <= j < k ==> order[j] != order[k]
  {
  }

  lemma OtherVoltageKept(c: Case, J: map<EdgeId, PhaseMap>, V: Profile, x: NodeId, n: NodeId, m: PhaseMap)
    requires GoodCase(c) && x in c.net.tree.parentEdge && c.net.tree.parentEdge[x].id in J
    requires VoltageOk(c, J, V, x) && x != n && c.net.tree.Parent(x) != n
    ensures VoltageOk(c, J, V[n := m], x)
  {
    hide NewVoltage, GoodCase;
    SlackKnown(c);
    SameNewVoltage(c, V, V[n := m], J, x);
  }

  lemma NewVoltageSet(c: Case, J: map<EdgeId, PhaseMap>, V: Profile, n: NodeId, m: PhaseMap)
    requires GoodCase(c) && n in c.net.tree.parentEdge && c.net.tree.Parent(n) != n
    requires c.net.tree.parentEdge[n].id in c.net.pu && c.net.tree.parentEdge[n].id in J
    requires m.Keys == c.Phases(n) && forall p :: p in m ==> m[p] == NewVoltage(c, V, J, n, p)
    ensures VoltageOk(c, J, V[n := m], n)
  {
    hide NewVoltage, SubtreesOk;
    SameNewVoltage(c, V, V[n := m], J, n);
  }

  lemma ParentBefore(edges: seq<Edge>, root: NodeId, order: seq<NodeId>, pe: map<NodeId, Edge>, i: nat, k: nat)
    requires Rooted(edges, root, order, pe) && 0 < i <= k < |order|
    ensures order[i] in pe && OtherEnd(pe[order[i]], order[i]) != order[k]
  {
  }

  lemma SameNewVoltage(c: Case, V: Profile, V': Profile, J: map<EdgeId, PhaseMap>, n: NodeId)
    requires n in c.net.tree.parentEdge && c.net.tree.parentEdge[n].id in J && c.net.tree.parentEdge[n].id in c.net.pu
    requires forall p: Phase :: p in c.slack
    requires At(V', c.net.tree.Parent(n), map[]) == At(V, c.net.tree.Parent(n), map[])
    ensures forall p :: NewVoltage(c, V', J, n, p) == NewVoltage(c, V, J, n, p)
  {
  }

  ghost predicate FullProfile(c: Case, V: Profile) {
    V.Keys == c.net.tree.Nodes() && forall n :: n in V ==> V[n].Keys == c.Phases(n)
  }

  /** Voltages from the root down, in place: a child reads its parent's new voltage. */
  method ForwardSweep(c: Case, ghost edges: seq<Edge>, J: map<EdgeId, PhaseMap>, V0: Profile)
    returns (V: Profile, mismatch: real)
    requires GoodCase(c) && FullProfile(c, V0)
    requires Rooted(edges, c.net.tree.root, c.net.tree.order, c.net.tree.parentEdge)
    requires Elems(c.net.tree.order) == c.net.tree.Nodes()
    requires forall n :: n in c.net.tree.parentEdge ==> c.net.tree.parentEdge[n].id in J
    ensures ForwardSoFar(c, J, V0, V, c.net.tree.order)
    ensures FullProfile(c, V) && LargestMove(c, V0, V, c.net.tree.parentEdge.Keys, mismatch)
  {
    hide GoodCase, NewVoltage, VoltageOk, Rooted, NodeMismatch, LargestMove, Elems;
    var order := c.net.tree.order;
    V, mismatch := V0, 0.0;
    ForwardStarts(c, edges, J, V0);
    RootedTail(edges, c.net.tree.root, order, c.net.tree.parentEdge);
    NothingMoved(c, V0);
    for k := 1 to |order|
      invariant ForwardSoFar(c, J, V0, V, order[..k])
      invariant Untouched(V0, V, order[..k])
      invariant LargestMove(c, V0, V, Elems(order[1..k]), mismatch)
    {
      var n := order[k];
      NextChild(c, edges, k);
      TailGrows(order, k);
      EdgeHasSubtree(c, n);
      SlackKnown(c);
      var m := map p | p in c.Phases(n) :: NewVoltage(c, V, J, n, p);
      ForwardStep(c, edges, J, V0, V, k, m);
      MoveStep(c, V0, V, Elems(order[1..k]), n, m, mismatch);
      mismatch := Max(mismatch, NodeMismatch(c, V[n], m));
      V := V[n := m];
    }
    assert order[..|order|] == order;
  }

  /** The nodes after the first, one more at a time. */
  lemma TailGrows(order: seq<NodeId>, k: nat)
    requires Distinct(order) && 0 < k < |order|
    ensures order[k] !in order[..k] && order[k] !in Elems(order[1..k])
    ensures Elems(order[1..k + 1]) == Elems(order[1..k]) + {order[k]}
    ensures forall n :: n in order[..k + 1] <==> n in order[..k] || n == order[k]
    ensures order[k] in Elems(order)
  {
    assert order[..k + 1] == order[..k] + [order[k]];
    assert order[1..k + 1] == order[1..k] + [order[k]];
  }

  lemma TailIsChildren(order: seq<NodeId>)
    requires Distinct(order) && order != []
    ensures Elems(order[1..]) == Elems(order) - {order[0]} && order[1..|order|] == order[1..] && order[1..1] == []
  {
    var tail := order[1..];
    forall n ensures n in Elems(tail) <==> n in Elems(order) - {order[0]} {
      if n in Elems(order) && n != order[0] {
        var i :| 0 <= i < |order| && order[i] == n;
        assert tail[i - 1] == n;
      }
      if n in Elems(tail) {
        var i :| 0 <= i < |tail| && tail[i] == n;
        assert order[i + 1] == n;
      }
    }
  }

  lemma RootedTail(edges: seq<Edge>, root: NodeId, order: seq<NodeId>, pe: map<NodeId, Edge>)
    requires Rooted(edges, root, order, pe)
    ensures Distinct(order) && order != []
    ensures Elems(order[1..]) == pe.Keys && order[1..|order|] == order[1..] && order[1..1] == []
  {
    hide ParentOk, Elems;
    TailIsChildren(order);
  }

  lemma SlackKnown(c: Case)
    requires GoodCase(c)
    ensures forall p: Phase :: p in c.slack
  {
  }

  lemma NextChild(c: Case, edges: seq<Edge>, k: nat)
    requires Rooted(edges, c.net.tree.root, c.net.tree.order, c.net.tree.parentEdge) && 0 < k < |c.net.tree.order|
    ensures c.net.tree.order[k] in c.net.tree.parentEdge
  {
  }

  lemma ForwardStarts(c: Case, edges: seq<Edge>, J: map<EdgeId, PhaseMap>, V0: Profile)
    requires GoodCase(c) && FullProfile(c, V0)
    requires Rooted(edges, c.net.tree.root, c.net.tree.order, c.net.tree.parentEdge)
    requires forall n :: n in c.net.tree.parentEdge ==> c.net.tree.parentEdge[n].id in J
    ensures |c.net.tree.order| >= 1 && ForwardSoFar(c, J, V0, V0, c.net.tree.order[..1])
  {
  }

  method Sweep(c: Case, ghost edges: seq<Edge>, V0: Profile)
    returns (i: Profile, J: map<EdgeId, PhaseMap>, V: Profile, mismatch: real)
    requires GoodCase(c) && FullProfile(c, V0)
    requires Rooted(edges, c.net.tree.root, c.net.tree.order, c.net.tree.parentEdge)
    requires Elems(c.net.tree.order) == c.net.tree.Nodes()
    ensures IsSweep(c, V0, i, J, V) && FullProfile(c, V)
    ensures LargestMove(c, V0, V, c.net.tree.parentEdge.Keys, mismatch)
  {
    hide LoadsOk, BranchOk, IsSweep, ForwardSoFar, Below, GoodCase, Rooted, LargestMove;
    i := FindLoadCurrents(c, V0);
    J := FindBranchCurrents(c, i);
    forall n | n in c.net.tree.parentEdge ensures c.net.tree.parentEdge[n].id in J {
      BranchListed(c, i, J, n);
    }
    V, mismatch := ForwardSweep(c, edges, J, V0);
    SweepDone(c, V0, i, J, V);
  }

  lemma SweepDone(c: Case, V0: Profile, i: Profile, J: map<EdgeId, PhaseMap>, V: Profile)
    requires GoodCase(c) && FullProfile(c, V0) && FullProfile(c, V) && LoadsOk(c, V0, i)
    requires forall n :: n in c.net.tree.parentEdge ==> c.net.tree.parentEdge[n].id in J && BranchOk(c, i, J, n)
    requires Elems(c.net.tree.order) == c.net.tree.Nodes() && ForwardSoFar(c, J, V0, V, c.net.tree.order)
    ensures IsSweep(c, V0, i, J, V)
  {
    hide LoadsOk, BranchOk, VoltageOk, Below;
    forall n | n in c.net.tree.parentEdge ensures n in c.net.tree.order {
      assert n in Elems(c.net.tree.order);
    }
  }

  lemma BranchListed(c: Case, i: Profile, J: map<EdgeId, PhaseMap>, n: NodeId)
    requires GoodCase(c) && n in c.net.tree.parentEdge && BranchOk(c, i, J, n)
    ensures c.net.tree.parentEdge[n].id in J
  {
  }

  // ---- losses --------------------------------------------------------------

  /** I^2 R in kW from a per-unit current of size `size`: line amps are the size times
      the current base. */
  function OhmicLoss(size: real, sqrt3: real, kv: real, r: real): real
    requires sqrt3 != 0.0 && kv != 0.0
  {
    NoZeroProduct(sqrt3, kv);
    var amps := size * SBASE_KW / Product(sqrt3, kv);
    Sq(amps) * r / 1000.0
  }

  function PhaseLoss(c: Case, J: PhaseMap, n: NodeId, p: Phase): real
    requires n in c.net.tree.parentEdge && n in c.net.byId && c.sqrt3 != 0.0
  {
    if p in c.BranchPhases(n) then
      OhmicLoss(c.modulus(PhaseOr(J, p, ZERO)), c.sqrt3, BaseKv(c.net.byId[n]), c.net.tree.parentEdge[n].resistanceOhm)
    else 0.0
  }

  function BranchLoss(c: Case, J: PhaseMap, n: NodeId): real
    requires n in c.net.tree.parentEdge && n in c.net.byId && c.sqrt3 != 0.0
  {
    PhaseLoss(c, J, n, A) + PhaseLoss(c, J, n, B) + PhaseLoss(c, J, n, C)
  }

  /** The ohmic loss is the per-unit resistance times |J|^2, on the per-phase base. */
  lemma OhmicLossPerUnit(size: real, s: real, kv: real, r: real)
    requires s != 0.0 && kv != 0.0 && Sq(s) == 3.0
    ensures Product(kv, kv) != 0.0
    ensures OhmicLoss(size, s, kv, r) == Product(SBASE_1PH_KW, Product(r / Product(kv, kv), Sq(size)))
  {
    NoZeroProduct(s, kv);
    NoZeroProduct(kv, kv);
    var d, v2 := Product(s, kv), Product(kv, kv);
    var q, t := size * SBASE_KW / d, r / v2;
    assert q * d == size * SBASE_KW && t * v2 == r;
    assert Sq(q * d) == Sq(q) * Sq(d);
    assert Sq(d) == Sq(s) * v2;
    assert Sq(q) * (3.0 * v2) == 1000000.0 * Sq(size);
    assert (Sq(q) * (3.0 * v2)) * t == Sq(q) * (3.0 * r);
  }

  datatype FlowResult = FlowResult(
    V: Profile, iLoad: Profile, J: map<EdgeId, PhaseMap>,
    converged: bool, iterations: nat, maxMismatch: real, lossKw: real, totalLossKw: real)

  ghost predicate Accounted(c: Case, J: map<EdgeId, PhaseMap>) {
    && c.sqrt3 != 0.0
    && forall n :: n in c.net.tree.parentEdge ==> n in c.net.byId && c.net.tree.parentEdge[n].id in J
  }

  ghost function BranchLosses(c: Case, J: map<EdgeId, PhaseMap>): map<NodeId, real>
    requires Accounted(c, J)
  {
    map n | n in c.net.tree.parentEdge :: BranchLoss(c, J[c.net.tree.parentEdge[n].id], n)
  }

  method SumLosses(c: Case, J: map<EdgeId, PhaseMap>) returns (total: real)
    requires Accounted(c, J) && Distinct(c.net.tree.order)
    requires Elems(c.net.tree.order) == c.net.tree.Nodes()
    requires c.net.tree.parentEdge.Keys == c.net.tree.Nodes() - {c.net.tree.root}
    ensures total == TotalR(BranchLosses(c, J), c.net.tree.parentEdge.Keys)
  {
    hide BranchLoss, TotalR;
    var order := c.net.tree.order;
    total := 0.0;
    assert Elems(order[..0]) - {c.net.tree.root} == {};
    EmptyTotal(BranchLosses(c, J));
    for k := 0 to |order|
      invariant total == TotalR(BranchLosses(c, J), Elems(order[..k]) - {c.net.tree.root})
    {
      var n := order[k];
      PrefixGrows(order, k);
      assert n in Elems(order);
      ghost var S, S' := Elems(order[..k]) - {c.net.tree.root}, Elems(order[..k + 1]) - {c.net.tree.root};
      if n != c.net.tree.root {
        total := total + BranchLoss(c, J[c.net.tree.parentEdge[n].id], n);
        assert n !in Elems(order[..k]);
        assert S' - {n} == S;
        TotalRSplit(BranchLosses(c, J), S', n);
      } else {
        assert S' == S;
      }
    }
    assert order[..|order|] == order;
  }

  lemma EmptyTotal(w: map<NodeId, real>)
    ensures TotalR(w, {}) == 0.0
  {
  }

  ghost predicate SlackAtRoot(c: Case, V: Profile) {
    && c.net.tree.root in V
    && forall p :: p in V[c.net.tree.root] ==> p in c.slack && V[c.net.tree.root][p] == c.slack[p]
  }

  /** Every node at the slack voltage. */
  function FlatProfile(c: Case): Profile
    requires forall p: Phase :: p in c.slack
  {
    map n | n in c.net.tree.pathEdges :: (map p | p in c.Phases(n) :: c.slack[p])
  }

  /** No voltage below the root moved by `tol` or more. */
  ghost predicate Settled(c: Case, V0: Profile, V: Profile, tol: real) {
    tol > 0.0 && forall n, p :: n in c.net.tree.parentEdge ==> Moved(c, V0, V, n, p) < tol
  }

  lemma SettledIff(c: Case, V0: Profile, V: Profile, m: real, tol: real)
    requires LargestMove(c, V0, V, c.net.tree.parentEdge.Keys, m)
    ensures m < tol <==> Settled(c, V0, V, tol)
  {
    hide Moved;
  }

  ghost predicate Swept(c: Case, V0: Profile, V: Profile) {
    exists i, J :: IsSweep(c, V0, i, J, V)
  }

  ghost predicate SweptAt(c: Case, chain: seq<Profile>, k: nat)
    requires 0 < k < |chain|
  {
    Swept(c, chain[k - 1], chain[k])
  }

  ghost predicate SettledAt(c: Case, chain: seq<Profile>, k: nat, tol: real)
    requires 0 < k < |chain|
  {
    Settled(c, chain[k - 1], chain[k], tol)
  }

  /** The profiles of a run: the flat start, then one sweep after another, none but
      perhaps the last of them settled. */
  ghost predicate IsRun(c: Case, chain: seq<Profile>, tol: real) {
    && (forall p: Phase :: p in c.slack)
    && chain != [] && chain[0] == FlatProfile(c)
    && (forall k :: 0 < k < |chain| ==> SweptAt(c, chain, k))
    && (forall k :: 0 < k < |chain| - 1 ==> !SettledAt(c, chain, k, tol))
  }

  lemma RunStarts(c: Case, tol: real)
    requires GoodCase(c)
    ensures IsRun(c, [FlatProfile(c)], tol)
    ensures FullProfile(c, FlatProfile(c)) && SlackAtRoot(c, FlatProfile(c))
  {
    hide Below;
  }

  lemma RunGrows(c: Case, chain: seq<Profile>, tol: real, i: Profile, J: map<EdgeId, PhaseMap>, V: Profile)
    requires IsRun(c, chain, tol) && IsSweep(c, chain[|chain| - 1], i, J, V)
    requires |chain| > 1 ==> !SettledAt(c, chain, |chain| - 1, tol)
    ensures IsRun(c, chain + [V], tol)
  {
    hide IsSweep, Settled, FlatProfile;
    var next := chain + [V];
    forall k | 0 < k < |next| ensures SweptAt(c, next, k) {
      if k < |chain| {
        assert SweptAt(c, chain, k) && next[k] == chain[k] && next[k - 1] == chain[k - 1];
      }
    }
    forall k | 0 < k < |next| - 1 ensures !SettledAt(c, next, k, tol) {
      assert !SettledAt(c, chain, k, tol) && next[k] == chain[k] && next[k - 1] == chain[k - 1];
    }
  }

  /** `solve`: flat start, then sweeps until the voltages settle or the budget is spent. */
  method SolveFlow(c: Case, ghost edges: seq<Edge>, tol: real, maxIter: nat)
    returns (r: FlowResult, ghost chain: seq<Profile>)
    requires GoodCase(c) && maxIter >= 1
    requires Rooted(edges, c.net.tree.root, c.net.tree.order, c.net.tree.parentEdge)
    requires Elems(c.net.tree.order) == c.net.tree.Nodes()
    ensures 1 <= r.iterations <= maxIter && |chain| == r.iterations + 1
    ensures IsRun(c, chain, tol) && chain[r.iterations] == r.V
    ensures IsSweep(c, chain[r.iterations - 1], r.iLoad, r.J, r.V) && SlackAtRoot(c, r.V)
    ensures LargestMove(c, chain[r.iterations - 1], r.V, c.net.tree.parentEdge.Keys, r.maxMismatch)
    ensures r.converged <==> SettledAt(c, chain, r.iterations, tol)
    ensures !r.converged ==> r.iterations == maxIter
    ensures Accounted(c, r.J) && r.lossKw == TotalR(BranchLosses(c, r.J), c.net.tree.parentEdge.Keys)
    ensures r.totalLossKw == Round(r.lossKw, 1000)
  {
    hide GoodCase, IsSweep, Rooted, BranchLosses, Accounted, Elems, FlatProfile, IsRun, Settled, LargestMove,
      FullProfile;
    SlackKnown(c);
    var V := FlatProfile(c);
    RunStarts(c, tol);
    chain := [V];
    var i: Profile, J: map<EdgeId, PhaseMap>, mismatch: real;
    i, J, V, mismatch := Sweep(c, edges, V);
    SlackKept(c, chain[0], i, J, V);
    RunGrows(c, chain, tol, i, J, V);
    chain := chain + [V];
    SettledIff(c, chain[0], V, mismatch, tol);
    var it := 1;
    while it < maxIter && mismatch >= tol
      invariant 1 <= it <= maxIter && |chain| == it + 1 && chain[it] == V
      invariant IsRun(c, chain, tol) && FullProfile(c, V) && SlackAtRoot(c, V)
      invariant IsSweep(c, chain[it - 1], i, J, V)
      invariant LargestMove(c, chain[it - 1], V, c.net.tree.parentEdge.Keys, mismatch)
      invariant mismatch < tol <==> SettledAt(c, chain, it, tol)
    {
      i, J, V, mismatch := Sweep(c, edges, V);
      SlackKept(c, chain[it], i, J, V);
      RunGrows(c, chain, tol, i, J, V);
      SettledIff(c, chain[it], V, mismatch, tol);
      chain := chain + [V];
      it := it + 1;
    }
    SweepAccounts(c, chain[it - 1], i, J, V);
    RootedDistinct(edges, c.net.tree.root, c.net.tree.order, c.net.tree.parentEdge);
    TreeKeys(c);
    var loss := SumLosses(c, J);
    r := FlowResult(V, i, J, mismatch < tol, it, mismatch, loss, Round(loss, 1000));
  }

  lemma TreeKeys(c: Case)
    requires GoodCase(c)
    ensures c.net.tree.parentEdge.Keys == c.net.tree.Nodes() - {c.net.tree.root}
  {
  }

  lemma SlackKept(c: Case, V0: Profile, i: Profile, J: map<EdgeId, PhaseMap>, V: Profile)
    requires IsSweep(c, V0, i, J, V) && SlackAtRoot(c, V0)
    ensures SlackAtRoot(c, V)
  {
  }

  lemma SweepAccounts(c: Case, V0: Profile, i: Profile, J: map<EdgeId, PhaseMap>, V: Profile)
    requires IsSweep(c, V0, i, J, V)
    ensures Accounted(c, J)
  {
    hide Below, LoadsOk, VoltageOk;
  }
}

/** How node voltages depend on node injections along the tree: the rows the estimator
    accumulates, their symmetry, and the voltage they stand for. */
module Sensitivity {
  import opened Graph
  import opened Grid
  import opened RadialTree
  import opened Sums
  import opened Reals
  import opened Vectors
  import opened Sequences

  /** The total cost of the edges of `path` whose subtree holds `k`. */
  function SharedCost(cost: map<EdgeId, real>, subtree: map<EdgeId, set<NodeId>>, path: seq<Edge>, k: NodeId): real
    requires forall e :: e in path ==> e.id in subtree && e.id in cost
  {
    if path == [] then 0.0
    else
      var e := path[|path| - 1];
      SharedCost(cost, subtree, path[..|path| - 1], k) + if k in subtree[e.id] then cost[e.id] else 0.0
  }

  ghost predicate CostsTree(net: Net, cost: map<EdgeId, real>) {
    && SubtreesOk(net) && cost.Keys == net.subtree.Keys
  }

  lemma PathEdgesKnown(net: Net, n: NodeId)
    requires SubtreesOk(net) && n in net.tree.pathEdges
    ensures forall e :: e in net.tree.pathEdges[n] ==> e.id in net.subtree
  {
    hide Below;
    PathIsParentEdges(net.tree, n);
  }

  ghost predicate PathsKnown(net: Net) {
    && net.pu.Keys == net.subtree.Keys
    && forall n, e :: n in net.tree.pathEdges && e in net.tree.pathEdges[n] ==> e.id in net.subtree
  }

  lemma AllPathsKnown(net: Net)
    requires SubtreesOk(net)
    ensures PathsKnown(net)
  {
    hide Below;
    forall n | n in net.tree.pathEdges ensures forall e :: e in net.tree.pathEdges[n] ==> e.id in net.subtree {
      PathEdgesKnown(net, n);
    }
  }

  lemma {:induction false} RootSharesNothing(net: Net, cost: map<EdgeId, real>, n: NodeId)
    requires CostsTree(net, cost) && n in net.tree.pathEdges
    requires forall e :: e in net.tree.pathEdges[n] ==> e.id in net.subtree && e.id in cost
    ensures SharedCost(cost, net.subtree, net.tree.pathEdges[n], net.tree.root) == 0.0
    decreases |net.tree.pathEdges[n]|
  {
    var t := net.tree;
    if n != t.root {
      assert Linked(t, n);
      PathEdgesKnown(net, t.Parent(n));
      RootSharesNothing(net, cost, t.Parent(n));
      assert t.root !in Below(t, n) by { assert Chain(t, t.root) == [t.root]; }
    }
  }

  lemma SharedStep(net: Net, cost: map<EdgeId, real>, n: NodeId, k: NodeId)
    requires CostsTree(net, cost) && n in net.tree.parentEdge && k in net.tree.pathEdges
    requires forall m, e :: m in net.tree.pathEdges && e in net.tree.pathEdges[m] ==>
      e.id in net.subtree && e.id in cost
    ensures Linked(net.tree, n)
    ensures SharedCost(cost, net.subtree, net.tree.pathEdges[n], k)
         == SharedCost(cost, net.subtree, net.tree.pathEdges[net.tree.Parent(n)], k)
            + if k in Below(net.tree, n) then cost[net.tree.parentEdge[n].id] else 0.0
  {
    hide Below;
    assert Linked(net.tree, n);
    var p := net.tree.pathEdges[n];
    assert p[..|p| - 1] == net.tree.pathEdges[net.tree.Parent(n)];
  }

  /** The cost shared with `k` by the path to `n` is the cost shared with `n` by the path
      to `k`: both are the edges the two root paths have in common. */
  lemma {:induction false} SharedCostSymmetric(net: Net, cost: map<EdgeId, real>, n: NodeId, k: NodeId)
    requires CostsTree(net, cost) && n in net.tree.pathEdges && k in net.tree.pathEdges
    ensures forall m, e :: m in net.tree.pathEdges && e in net.tree.pathEdges[m] ==> e.id in net.subtree && e.id in cost
    ensures SharedCost(cost, net.subtree, net.tree.pathEdges[n], k)
         == SharedCost(cost, net.subtree, net.tree.pathEdges[k], n)
    decreases |net.tree.pathEdges[n]| + |net.tree.pathEdges[k]|
  {
    hide Below, SharedCost, IsTree, SubtreesOk;
    var t := net.tree;
    AllPathsKnown(net);
    TreeKnown(net, n);
    TreeKnown(net, k);
    if n == t.root {
      RootCost(net, cost, k);
    } else if k == t.root {
      RootCost(net, cost, n);
    } else {
      SharedStep(net, cost, n, k);
      SharedStep(net, cost, k, n);
      var p, q := t.Parent(n), t.Parent(k);
      SharedStep(net, cost, k, p);
      SharedStep(net, cost, n, q);
      SharedCostSymmetric(net, cost, p, k);
      SharedCostSymmetric(net, cost, n, q);
      SharedCostSymmetric(net, cost, p, q);
      SideOfParent(t, n, k);
      SideOfParent(t, k, n);
    }
  }

  lemma TreeKnown(net: Net, n: NodeId)
    requires SubtreesOk(net) && n in net.tree.pathEdges
    ensures IsTree(net.tree) && net.tree.root in net.tree.pathEdges
    ensures n != net.tree.root ==> n in net.tree.parentEdge && Linked(net.tree, n)
  {
  }

  lemma RootCost(net: Net, cost: map<EdgeId, real>, k: NodeId)
    requires CostsTree(net, cost) && k in net.tree.pathEdges
    requires forall m, e :: m in net.tree.pathEdges && e in net.tree.pathEdges[m] ==>
      e.id in net.subtree && e.id in cost
    ensures SharedCost(cost, net.subtree, net.tree.pathEdges[net.tree.root], k) == 0.0
    ensures SharedCost(cost, net.subtree, net.tree.pathEdges[k], net.tree.root) == 0.0
  {
    RootSharesNothing(net, cost, k);
  }

  /** `k` and its parent lie on the same side of the subtree of `n`, unless `k` is `n`. */
  lemma SideOfParent(t: Tree, n: NodeId, k: NodeId)
    requires IsTree(t) && n in t.parentEdge && k in t.parentEdge
    ensures Linked(t, k)
    ensures k != n ==> (k in Below(t, n) <==> t.Parent(k) in Below(t, n))
    ensures k == n ==> k in Below(t, n) && t.Parent(k) !in Below(t, n)
  {
    assert Linked(t, k);
    if k == n && t.Parent(k) in Below(t, n) {
      ChainAbove(t, n, t.Parent(k));
    }
  }

  // ---- rows over the state vector ------------------------------------------

  /** The row with `a` at the P position and `b` at the Q position of every state node
      in `S`; node `i` of the state holds positions 2i and 2i+1. */
  function Spread(state: seq<NodeId>, S: set<NodeId>, a: real, b: real): (r: Vector)
    ensures |r| == 2 * |state|
    ensures forall i :: 0 <= i < |state| ==>
      && r[2 * i] == (if state[i] in S then a else 0.0)
      && r[2 * i + 1] == (if state[i] in S then b else 0.0)
  {
    if state == [] then []
    else
      var k := |state| - 1;
      Spread(state[..k], S, a, b) + if state[k] in S then [a, b] else [0.0, 0.0]
  }

  function CostR(net: Net): (c: map<EdgeId, real>)
    ensures c.Keys == net.pu.Keys
  {
    map id | id in net.pu :: net.pu[id].r / SBASE_KW
  }

  function CostX(net: Net): (c: map<EdgeId, real>)
    ensures c.Keys == net.pu.Keys
  {
    map id | id in net.pu :: net.pu[id].x / SBASE_KW
  }

  /** The row `v_sensitivity_row` accumulates over the edges of a root path. */
  function SensRow(net: Net, state: seq<NodeId>, path: seq<Edge>): (r: Vector)
    requires forall e :: e in path ==> e.id in net.subtree && e.id in net.pu
    ensures |r| == 2 * |state|
  {
    if path == [] then Zeros(2 * |state|)
    else
      var e := path[|path| - 1];
      Add(SensRow(net, state, path[..|path| - 1]),
          Spread(state, net.subtree[e.id], CostR(net)[e.id], CostX(net)[e.id]))
  }

  lemma {:induction false} SensEntries(net: Net, state: seq<NodeId>, path: seq<Edge>, i: nat)
    requires i < |state| && forall e :: e in path ==> e.id in net.subtree && e.id in net.pu
    ensures SensRow(net, state, path)[2 * i] == SharedCost(CostR(net), net.subtree, path, state[i])
    ensures SensRow(net, state, path)[2 * i + 1] == SharedCost(CostX(net), net.subtree, path, state[i])
  {
    if path != [] {
      var e := path[|path| - 1];
      SensEntries(net, state, path[..|path| - 1], i);
      SpreadEntries(state, net.subtree[e.id], CostR(net)[e.id], CostX(net)[e.id], i);
      SensUnfolds(net, state, path);
    }
  }

  lemma SensUnfolds(net: Net, state: seq<NodeId>, path: seq<Edge>)
    requires path != [] && forall e :: e in path ==> e.id in net.subtree && e.id in net.pu
    ensures var e := path[|path| - 1];
      SensRow(net, state, path)
      == Add(
           SensRow(net, state, path[..|path| - 1]),
           Spread(state, net.subtree[e.id], CostR(net)[e.id], CostX(net)[e.id]))
  {
  }

  lemma SpreadEntries(state: seq<NodeId>, S: set<NodeId>, a: real, b: real, i: nat)
    requires i < |state|
    ensures Spread(state, S, a, b)[2 * i] == if state[i] in S then a else 0.0
    ensures Spread(state, S, a, b)[2 * i + 1] == if state[i] in S then b else 0.0
  {
  }

  /** The voltage at node i answers to the injection at node j as the voltage at j does
      to the injection at i, for P and for Q. */
  lemma SensitivitySymmetric(net: Net, state: seq<NodeId>, i: nat, j: nat)
    requires SubtreesOk(net) && i < |state| && j < |state|
    requires forall n :: n in state ==> n in net.tree.pathEdges
    ensures forall m, e :: m in net.tree.pathEdges && e in net.tree.pathEdges[m] ==> e.id in net.subtree
    ensures var p, q := net.tree.pathEdges[state[i]], net.tree.pathEdges[state[j]];
      && SensRow(net, state, p)[2 * j] == SensRow(net, state, q)[2 * i]
      && SensRow(net, state, p)[2 * j + 1] == SensRow(net, state, q)[2 * i + 1]
  {
    hide Below, SharedCost, SensRow;
    AllPathsKnown(net);
    SensEntries(net, state, net.tree.pathEdges[state[i]], j);
    SensEntries(net, state, net.tree.pathEdges[state[j]], i);
    SharedCostSymmetric(net, CostR(net), state[i], state[j]);
    SharedCostSymmetric(net, CostX(net), state[i], state[j]);
  }

  // ---- the rows against the direct computation -----------------------------

  /** The P (offset 0) or Q (offset 1) part of a state vector, by node. */
  function Injections(state: seq<NodeId>, x: Vector, offset: nat): (m: map<NodeId, real>)
    requires |x| == 2 * |state| && offset < 2
    ensures m.Keys == Elems(state)
  {
    if state == [] then map[]
    else
      var k := |state| - 1;
      PrefixGrows(state, k);
      Injections(state[..k], x[..2 * k], offset)[state[k] := x[2 * k + offset]]
  }

  /** The voltage drop over one edge that carries `P` and `Q`. */
  function EdgeDrop(pu: Impedance, P: real, Q: real): real {
    (pu.r * P + pu.x * Q) / SBASE_KW
  }

  /** What the path's edges take off the voltage: r P + x Q per edge, P and Q summed over
      the subtree below it. */
  ghost function Drop(net: Net, state: seq<NodeId>, path: seq<Edge>, x: Vector): real
    requires |x| == 2 * |state| && forall e :: e in path ==> e.id in net.subtree && e.id in net.pu
  {
    if path == [] then 0.0
    else
      var e := path[|path| - 1];
      var P := TotalR(Injections(state, x, 0), net.subtree[e.id]);
      var Q := TotalR(Injections(state, x, 1), net.subtree[e.id]);
      Drop(net, state, path[..|path| - 1], x) + EdgeDrop(net.pu[e.id], P, Q)
  }

  lemma {:induction false} TotalRSame(v: map<NodeId, real>, w: map<NodeId, real>, S: set<NodeId>)
    requires forall n :: n in S ==> At(v, n, 0.0) == At(w, n, 0.0)
    ensures TotalR(v, S) == TotalR(w, S)
    decreases |S|
  {
    if S != {} {
      var n :| n in S;
      TotalRSplit(v, S, n);
      TotalRSplit(w, S, n);
      TotalRSame(v, w, S - {n});
    }
  }

  lemma TotalRAdds(w: map<NodeId, real>, n: NodeId, y: real, S: set<NodeId>)
    requires n !in w
    ensures TotalR(w[n := y], S) == TotalR(w, S) + if n in S then y else 0.0
  {
    if n in S {
      TotalRSplit(w[n := y], S, n);
      TotalRSplit(w, S, n);
      TotalRSame(w[n := y], w, S - {n});
    } else {
      TotalRSame(w[n := y], w, S);
    }
  }

  lemma {:induction false} TotalREmpty(S: set<NodeId>)
    ensures TotalR(map[], S) == 0.0
    decreases |S|
  {
    if S != {} {
      var n :| n in S;
      TotalRSplit(map[], S, n);
      TotalREmpty(S - {n});
    }
  }

  lemma DotPair(a: real, b: real, x: real, y: real)
    ensures Dot([a, b], [x, y]) == Product(a, x) + Product(b, y)
  {
    assert [a, b][1..] == [b] && [x, y][1..] == [y];
    assert Dot([b], [y]) == b * y + Dot([], []);
  }

  lemma DotLastPair(row: Vector, a: real, b: real, x: Vector)
    requires |x| == |row| + 2
    ensures Dot(row + [a, b], x) == Dot(row, x[..|row|]) + Product(a, x[|row|]) + Product(b, x[|row| + 1])
  {
    hide Dot, Product;
    var k := |row|;
    DotSplits(row + [a, b], x, k);
    assert (row + [a, b])[..k] == row && (row + [a, b])[k..] == [a, b] && x[k..] == [x[k], x[k + 1]];
    DotPair(a, b, x[k], x[k + 1]);
  }

  lemma {:induction false} SpreadAgainst(state: seq<NodeId>, S: set<NodeId>, a: real, b: real, x: Vector)
    requires |x| == 2 * |state| && Distinct(state)
    ensures Dot(Spread(state, S, a, b), x)
         == Product(a, TotalR(Injections(state, x, 0), S)) + Product(b, TotalR(Injections(state, x, 1), S))
  {
    hide Dot, Product, TotalR, Spread, Injections;
    Unfolds(state, S, a, b, x);
    if state == [] {
      TotalREmpty(S);
      ProductAdds(a, 0.0, 0.0);
      ProductAdds(b, 0.0, 0.0);
      DotEmpty();
    } else {
      var k := |state| - 1;
      PrefixGrows(state, k);
      SpreadAgainst(state[..k], S, a, b, x[..2 * k]);
      var p, q := if state[k] in S then a else 0.0, if state[k] in S then b else 0.0;
      DotLastPair(Spread(state[..k], S, a, b), p, q, x);
      var P, Q := Injections(state[..k], x[..2 * k], 0), Injections(state[..k], x[..2 * k], 1);
      ScaledTotalAdds(a, P, state[k], x[2 * k], S);
      ScaledTotalAdds(b, Q, state[k], x[2 * k + 1], S);
    }
  }

  lemma ScaledTotalAdds(a: real, w: map<NodeId, real>, n: NodeId, y: real, S: set<NodeId>)
    requires n !in w
    ensures Product(a, TotalR(w[n := y], S)) == Product(a, TotalR(w, S)) + Product(if n in S then a else 0.0, y)
  {
    hide Product, TotalR;
    TotalRAdds(w, n, y, S);
    ProductAdds(a, TotalR(w, S), y);
    ProductAdds(0.0, y, 0.0);
  }

  lemma Unfolds(state: seq<NodeId>, S: set<NodeId>, a: real, b: real, x: Vector)
    requires |x| == 2 * |state| && Distinct(state)
    ensures state == [] ==> Spread(state, S, a, b) == [] && Injections(state, x, 0) == Injections(state, x, 1) == map[]
    ensures state != [] ==>
      var k := |state| - 1;
      var p, q := if state[k] in S then a else 0.0, if state[k] in S then b else 0.0;
      && Spread(state, S, a, b) == Spread(state[..k], S, a, b) + [p, q]
      && state[k] !in Injections(state[..k], x[..2 * k], 0) && state[k] !in Injections(state[..k], x[..2 * k], 1)
      && Injections(state, x, 0) == Injections(state[..k], x[..2 * k], 0)[state[k] := x[2 * k]]
      && Injections(state, x, 1) == Injections(state[..k], x[..2 * k], 1)[state[k] := x[2 * k + 1]]
  {
  }

  lemma DotEmpty()
    ensures Dot([], []) == 0.0
  {
  }

  lemma DropTerm(pu: Impedance, P: real, Q: real)
    ensures Product(pu.r / SBASE_KW, P) + Product(pu.x / SBASE_KW, Q) == EdgeDrop(pu, P, Q)
  {
  }

  /** An accumulated row dotted with the state is the drop computed edge by edge. */
  lemma {:induction false} RowIsDrop(net: Net, state: seq<NodeId>, path: seq<Edge>, x: Vector)
    requires |x| == 2 * |state| && Distinct(state)
    requires forall e :: e in path ==> e.id in net.subtree && e.id in net.pu
    ensures Dot(SensRow(net, state, path), x) == Drop(net, state, path, x)
  {
    hide Injections, Spread, TotalR, Dot, Product, EdgeDrop;
    if path == [] {
      DotZeros(Zeros(2 * |state|), x);
    } else {
      var e := path[|path| - 1];
      RowIsDrop(net, state, path[..|path| - 1], x);
      var c := Spread(state, net.subtree[e.id], CostR(net)[e.id], CostX(net)[e.id]);
      SensUnfolds(net, state, path);
      DotAdds(SensRow(net, state, path[..|path| - 1]), c, x);
      DropTerm(net.pu[e.id],
        TotalR(Injections(state, x, 0), net.subtree[e.id]), TotalR(Injections(state, x, 1), net.subtree[e.id]));
      SpreadAgainst(state, net.subtree[e.id], CostR(net)[e.id], CostX(net)[e.id], x);
    }
  }
}

/** What an estimate is, said without its rows: the state that comes closest to the base
    loads and the readings, each compared with the quantity it measures. */
module EstimateLaws {
  import opened Graph
  import opened Grid
  import opened Results
  import opened RadialTree
  import opened Sums
  import opened Reals
  import opened Vectors
  import opened Inverse
  import opened LeastSquares
  import opened Sensitivity
  import opened Estimation
  import opened Sequences

  // ---- the voltage a state stands for --------------------------------------

  /** What the state nodes in `S` inject together: kW at offset 0, kvar at offset 1. */
  function Carried(state: seq<NodeId>, y: Vector, S: set<NodeId>, offset: nat): real
    requires |y| == 2 * |state| && offset < 2
  {
    if state == [] then 0.0
    else
      var k := |state| - 1;
      Carried(state[..k], y[..2 * k], S, offset) + if state[k] in S then y[2 * k + offset] else 0.0
  }

  /** (R P + X Q) / (1000 kV^2): what ohms, kW and kvar take off the voltage. */
  function OhmDrop(e: Edge, child: Node, P: real, Q: real): real {
    var kv := if child.nominalKv == 0.0 then 0.415 else child.nominalKv;
    NoZeroProduct(kv, kv);
    NoZeroProduct(1000.0, Product(kv, kv));
    (e.resistanceOhm * P + e.reactanceOhm * Q) / Product(1000.0, Product(kv, kv))
  }

  /** From the source down, each edge takes off the drop of all that hangs below it. */
  ghost function VoltageAt(net: Net, state: seq<NodeId>, y: Vector, n: NodeId): real
    requires SubtreesOk(net) && n in net.tree.pathEdges && |y| == 2 * |state|
    decreases |net.tree.pathEdges[n]|
  {
    if n == net.tree.root then 1.0
    else
      assert Linked(net.tree, n);
      var P, Q := Carried(state, y, Below(net.tree, n), 0), Carried(state, y, Below(net.tree, n), 1);
      VoltageAt(net, state, y, net.tree.Parent(n)) - OhmDrop(net.tree.parentEdge[n], net.byId[n], P, Q)
  }

  lemma CarriedIsTotal(state: seq<NodeId>, y: Vector, S: set<NodeId>, offset: nat)
    requires |y| == 2 * |state| && offset < 2 && Distinct(state)
    ensures Carried(state, y, S, offset) == TotalR(Injections(state, y, offset), S)
  {
    if state == [] {
      TotalREmpty(S);
    } else {
      var k := |state| - 1;
      PrefixGrows(state, k);
      CarriedIsTotal(state[..k], y[..2 * k], S, offset);
      hide TotalR;
      TotalRAdds(Injections(state[..k], y[..2 * k], offset), state[k], y[2 * k + offset], S);
    }
  }

  /** Per unit and in ohms the drop over one edge is the same. */
  lemma DropInOhms(e: Edge, child: Node, P: real, Q: real)
    ensures EdgeDrop(PerUnit(e, child), P, Q) == OhmDrop(e, child, P, Q)
  {
    var kv := BaseKv(child);
    NoZeroProduct(kv, kv);
    NoZeroProduct(1000.0, Product(kv, kv));
    var z := Product(kv, kv);
    assert kv * kv / (SBASE_KW / 1000.0) == z;
    OverBoth(e.resistanceOhm, e.reactanceOhm, P, Q, z);
  }

  lemma OverBoth(r: real, x: real, P: real, Q: real, z: real)
    requires z != 0.0
    ensures (r / z * P + x / z * Q) / 1000.0 == (r * P + x * Q) / Product(1000.0, z)
  {
    var u, v := r / z, x / z;
    assert u * z == r && v * z == x;
    assert (u * P + v * Q) * z == r * P + x * Q;
    var t := (r * P + x * Q) / Product(1000.0, z);
    assert t * (1000.0 * z) == r * P + x * Q;
    Cancels(z, t * 1000.0, u * P + v * Q);
  }

  lemma SectionFacts(net: Net, n: NodeId)
    requires SubtreesOk(net) && n in net.tree.parentEdge
    ensures Linked(net.tree, n) && n in net.byId && net.tree.parentEdge[n].id in net.subtree
    ensures net.subtree[net.tree.parentEdge[n].id] == Below(net.tree, n)
    ensures net.tree.parentEdge[n].id in net.pu
    ensures net.pu[net.tree.parentEdge[n].id] == PerUnit(net.tree.parentEdge[n], net.byId[n])
  {
    hide Below, PerUnit;
  }

  lemma DropGrows(net: Net, state: seq<NodeId>, path: seq<Edge>, e: Edge, x: Vector)
    requires |x| == 2 * |state| && forall f :: f in path + [e] ==> f.id in net.subtree && f.id in net.pu
    ensures e.id in net.subtree && e.id in net.pu
    ensures Drop(net, state, path + [e], x) == Drop(net, state, path, x)
      + EdgeDrop(net.pu[e.id], TotalR(Injections(state, x, 0), net.subtree[e.id]),
          TotalR(Injections(state, x, 1), net.subtree[e.id]))
  {
    hide EdgeDrop, Injections, TotalR;
    assert (path + [e])[|path|] == e && (path + [e])[..|path|] == path;
  }

  lemma RootHasNoEdge(net: Net, n: NodeId)
    requires SubtreesOk(net) && n in net.tree.parentEdge
    ensures n != net.tree.root && IsTree(net.tree)
  {
    hide Below, PerUnit;
  }

  lemma VoltageStep(net: Net, state: seq<NodeId>, y: Vector, n: NodeId)
    requires SubtreesOk(net) && n in net.tree.parentEdge && |y| == 2 * |state|
    ensures var t := net.tree; var e := t.parentEdge[n];
      && n in t.pathEdges && t.Parent(n) in t.pathEdges && n in net.byId
      && VoltageAt(net, state, y, n) == VoltageAt(net, state, y, t.Parent(n))
         - EdgeDrop(PerUnit(e, net.byId[n]),
             Carried(state, y, Below(t, n), 0), Carried(state, y, Below(t, n), 1))
  {
    hide Below, EdgeDrop, OhmDrop, Carried, PerUnit, SubtreesOk, IsTree;
    SectionFacts(net, n);
    RootHasNoEdge(net, n);
    DropInOhms(net.tree.parentEdge[n], net.byId[n],
      Carried(state, y, Below(net.tree, n), 0), Carried(state, y, Below(net.tree, n), 1));
  }

  /** That voltage is one minus the drops along the root path. */
  lemma {:induction false} VoltageIsDrop(net: Net, state: seq<NodeId>, y: Vector, n: NodeId)
    requires SubtreesOk(net) && StateOf(net, state) && n in net.tree.pathEdges && |y| == 2 * |state|
    ensures VoltageAt(net, state, y, n) == 1.0 - Drop(net, state, net.tree.pathEdges[n], y)
    decreases |net.tree.pathEdges[n]|
  {
    hide Drop, Below, EdgeDrop, OhmDrop, Carried, Injections, TotalR, PerUnit, SubtreesOk;
    TreeKnown(net, n);
    if n == net.tree.root {
      DropOfNothing(net, state, y);
    } else {
      var p, e := net.tree.Parent(n), net.tree.parentEdge[n];
      SectionFacts(net, n);
      VoltageIsDrop(net, state, y, p);
      AllPathsKnown(net);
      DropGrows(net, state, net.tree.pathEdges[p], e, y);
      CarriedIsTotal(state, y, Below(net.tree, n), 0);
      CarriedIsTotal(state, y, Below(net.tree, n), 1);
      VoltageStep(net, state, y, n);
    }
  }

  lemma DropOfNothing(net: Net, state: seq<NodeId>, y: Vector)
    requires |y| == 2 * |state|
    ensures Drop(net, state, [], y) == 0.0
  {
  }

  // ---- what is minimised ---------------------------------------------------

  /** The squared deviations of one state node from its base load and its readings, each
      over the square of its sigma: P at 2 i, Q at 2 i + 1, and the voltage. */
  ghost function NodeCost(
      net: Net, state: seq<NodeId>, meas: map<NodeId, Measurement>, opt: Options, y: Vector, i: nat): real
    requires NonZeroSigmas(opt) && StateOf(net, state) && SubtreesOk(net) && |y| == 2 * |state| && i < |state|
  {
    var n := state[i];
    var m, P, Q, V := At(meas, n, NO_MEASUREMENT), y[2 * i], y[2 * i + 1], VoltageAt(net, state, y, n);
    Over2(net.byId[n].baseLoadKw - P, opt.sigmaPPseudo) + Over2(net.byId[n].baseLoadKvar - Q, opt.sigmaQPseudo)
    + (if m.pKw.Some? then Over2(m.pKw.value - P, opt.sigmaPMeter) else 0.0)
    + (if m.qKvar.Some? then Over2(m.qKvar.value - Q, opt.sigmaQMeter) else 0.0)
    + (if m.voltagePu.Some? then Over2(V - m.voltagePu.value, opt.sigmaVMeter) else 0.0)
  }

  /** A deviation squared over a sigma squared. */
  function Over2(deviation: real, sigma: real): real
    requires sigma != 0.0
  {
    SqSign(sigma);
    Sq(deviation) / Sq(sigma)
  }

  ghost function Cost(
      net: Net, state: seq<NodeId>, meas: map<NodeId, Measurement>, opt: Options, y: Vector, k: nat): real
    requires NonZeroSigmas(opt) && StateOf(net, state) && SubtreesOk(net) && |y| == 2 * |state| && k <= |state|
  {
    if k == 0 then 0.0
    else Cost(net, state, meas, opt, y, k - 1) + NodeCost(net, state, meas, opt, y, k - 1)
  }

  function RowCost(row: MeasRow, y: Vector): real
    requires |row.h| == |y|
  {
    Product(row.w, Sq(row.z - Dot(row.h, y)))
  }

  ghost predicate RowsFit(rows: seq<MeasRow>, cols: nat) {
    forall i :: 0 <= i < |rows| ==> |rows[i].h| == cols
  }

  function RowsCost(rows: seq<MeasRow>, y: Vector): real
    requires forall i :: 0 <= i < |rows| ==> |rows[i].h| == |y|
  {
    if rows == [] then 0.0 else RowCost(rows[0], y) + RowsCost(rows[1..], y)
  }

  lemma {:induction false} RowsCostIsObjective(rows: seq<MeasRow>, y: Vector)
    requires RowsFit(rows, |y|)
    ensures IsMatrix(HOf(rows), |HOf(rows)|, |y|)
    ensures Objective(HOf(rows), WOf(rows), ZOf(rows), y) == RowsCost(rows, y)
  {
    hide Dot, Sq, Product;
    if rows != [] {
      RowsCostIsObjective(rows[1..], y);
    }
  }

  lemma {:induction false} RowsCostAdds(a: seq<MeasRow>, b: seq<MeasRow>, y: Vector)
    requires RowsFit(a, |y|) && RowsFit(b, |y|)
    ensures RowsFit(a + b, |y|) && RowsCost(a + b, y) == RowsCost(a, y) + RowsCost(b, y)
  {
    hide RowCost;
    if a == [] {
      assert a + b == b;
    } else {
      RowsCostAdds(a[1..], b, y);
      assert (a + b)[1..] == a[1..] + b;
    }
  }

  lemma OneRowCost(row: MeasRow, y: Vector)
    requires |row.h| == |y|
    ensures RowsCost([row], y) == RowCost(row, y)
  {
    hide RowCost;
    assert [row][1..] == [];
  }

  lemma WeightedIsOver2(sigma: real, d: real)
    requires sigma != 0.0
    ensures Product(Weight(sigma), Sq(d)) == Over2(d, sigma)
  {
    SqSign(sigma);
    var q, a := Sq(sigma), Sq(d);
    DivisionUndone(1.0, q);
    DivisionUndone(a, q);
    assert (1.0 / q * a) * q == a;
    Cancels(q, 1.0 / q * a, a / q);
  }

  lemma UnitRowCost(kind: Kind, n: NodeId, c: nat, z: real, sigma: real, y: Vector)
    requires sigma != 0.0 && c < |y|
    ensures RowsFit([MeasRow(kind, n, Unit(|y|, c), z, Weight(sigma))], |y|)
    ensures RowsCost([MeasRow(kind, n, Unit(|y|, c), z, Weight(sigma))], y) == Over2(z - y[c], sigma)
  {
    hide Unit, Weight, Over2, Dot, Sq, Product;
    var row := MeasRow(kind, n, Unit(|y|, c), z, Weight(sigma));
    OneRowCost(row, y);
    DotUnit(|y|, c, y);
    WeightedIsOver2(sigma, z - y[c]);
  }

  lemma VoltageRowCost(net: Net, state: seq<NodeId>, n: NodeId, v: real, sigma: real, y: Vector)
    requires StateOf(net, state) && SubtreesOk(net) && |y| == 2 * |state| && n in state && sigma != 0.0
    ensures n in net.tree.pathEdges
    ensures var row := MeasRow(MeterV, n, SensRow(net, state, net.tree.pathEdges[n]), 1.0 - v, Weight(sigma));
      RowsFit([row], |y|) && RowsCost([row], y) == Over2(VoltageAt(net, state, y, n) - v, sigma)
  {
    hide SensRow, Weight, Over2, Dot, Sq, Product, SubtreesOk, VoltageAt, Drop;
    var row := MeasRow(MeterV, n, SensRow(net, state, net.tree.pathEdges[n]), 1.0 - v, Weight(sigma));
    OneRowCost(row, y);
    RowIsDrop(net, state, net.tree.pathEdges[n], y);
    VoltageIsDrop(net, state, y, n);
    WeightedIsOver2(sigma, VoltageAt(net, state, y, n) - v);
  }

  lemma FiveParts(a: seq<MeasRow>, b: seq<MeasRow>, c: seq<MeasRow>, d: seq<MeasRow>, e: seq<MeasRow>, y: Vector)
    requires RowsFit(a, |y|) && RowsFit(b, |y|) && RowsFit(c, |y|) && RowsFit(d, |y|) && RowsFit(e, |y|)
    ensures RowsFit(a + b + c + d + e, |y|)
    ensures RowsCost(a + b + c + d + e, y)
      == RowsCost(a, y) + RowsCost(b, y) + RowsCost(c, y) + RowsCost(d, y) + RowsCost(e, y)
  {
    hide RowsCost, RowsFit;
    RowsCostAdds(a, b, y);
    RowsCostAdds(a + b, c, y);
    RowsCostAdds(a + b + c, d, y);
    RowsCostAdds(a + b + c + d, e, y);
  }

  /** The rows of one node, kind by kind. */
  lemma NodeRowsParts(
      net: Net, state: seq<NodeId>, meas: map<NodeId, Measurement>, opt: Options, i: nat)
    returns (p: seq<MeasRow>, q: seq<MeasRow>, mp: seq<MeasRow>, mq: seq<MeasRow>, mv: seq<MeasRow>)
    requires NonZeroSigmas(opt) && StateOf(net, state) && i < |state|
    ensures NodeRows(net, state, meas, opt, i) == p + q + mp + mq + mv
    ensures var n, cols, m := state[i], 2 * |state|, At(meas, state[i], NO_MEASUREMENT);
      && p == [MeasRow(PseudoP, n, Unit(cols, 2 * i), net.byId[n].baseLoadKw, Weight(opt.sigmaPPseudo))]
      && q == [MeasRow(PseudoQ, n, Unit(cols, 2 * i + 1), net.byId[n].baseLoadKvar, Weight(opt.sigmaQPseudo))]
      && mp == (if m.pKw.None? then [] else
                  [MeasRow(MeterP, n, Unit(cols, 2 * i), m.pKw.value, Weight(opt.sigmaPMeter))])
      && mq == (if m.qKvar.None? then [] else
                  [MeasRow(MeterQ, n, Unit(cols, 2 * i + 1), m.qKvar.value, Weight(opt.sigmaQMeter))])
      && mv == (if m.voltagePu.None? then [] else
                  [MeasRow(MeterV, n, SensRow(net, state, net.tree.pathEdges[n]), 1.0 - m.voltagePu.value,
                     Weight(opt.sigmaVMeter))])
  {
    hide SensRow, Unit, Weight;
    var n, cols, m := state[i], 2 * |state|, At(meas, state[i], NO_MEASUREMENT);
    p := [MeasRow(PseudoP, n, Unit(cols, 2 * i), net.byId[n].baseLoadKw, Weight(opt.sigmaPPseudo))];
    q := [MeasRow(PseudoQ, n, Unit(cols, 2 * i + 1), net.byId[n].baseLoadKvar, Weight(opt.sigmaQPseudo))];
    mp := if m.pKw.None? then [] else
      [MeasRow(MeterP, n, Unit(cols, 2 * i), m.pKw.value, Weight(opt.sigmaPMeter))];
    mq := if m.qKvar.None? then [] else
      [MeasRow(MeterQ, n, Unit(cols, 2 * i + 1), m.qKvar.value, Weight(opt.sigmaQMeter))];
    mv := if m.voltagePu.None? then [] else
      [MeasRow(
         MeterV, n, SensRow(net, state, net.tree.pathEdges[n]), 1.0 - m.voltagePu.value, Weight(opt.sigmaVMeter))];
    assert p + q == [p[0], q[0]];
  }

  lemma NodeRowsCost(
      net: Net, state: seq<NodeId>, meas: map<NodeId, Measurement>, opt: Options, y: Vector, i: nat)
    requires NonZeroSigmas(opt) && StateOf(net, state) && SubtreesOk(net) && |y| == 2 * |state| && i < |state|
    ensures RowsFit(NodeRows(net, state, meas, opt, i), |y|)
    ensures RowsCost(NodeRows(net, state, meas, opt, i), y) == NodeCost(net, state, meas, opt, y, i)
  {
    hide SensRow, Unit, Weight, SubtreesOk, VoltageAt, Over2, NodeRows, RowCost;
    var n, m := state[i], At(meas, state[i], NO_MEASUREMENT);
    var p, q, mp, mq, mv := NodeRowsParts(net, state, meas, opt, i);
    UnitRowCost(PseudoP, n, 2 * i, net.byId[n].baseLoadKw, opt.sigmaPPseudo, y);
    UnitRowCost(PseudoQ, n, 2 * i + 1, net.byId[n].baseLoadKvar, opt.sigmaQPseudo, y);
    if m.pKw.Some? { UnitRowCost(MeterP, n, 2 * i, m.pKw.value, opt.sigmaPMeter, y); }
    if m.qKvar.Some? { UnitRowCost(MeterQ, n, 2 * i + 1, m.qKvar.value, opt.sigmaQMeter, y); }
    if m.voltagePu.Some? { VoltageRowCost(net, state, n, m.voltagePu.value, opt.sigmaVMeter, y); }
    FiveParts(p, q, mp, mq, mv, y);
  }

  lemma {:induction false} RowsCostIsCost(
      net: Net, state: seq<NodeId>, meas: map<NodeId, Measurement>, opt: Options, y: Vector, k: nat)
    requires NonZeroSigmas(opt) && StateOf(net, state) && SubtreesOk(net) && |y| == 2 * |state| && k <= |state|
    ensures RowsFit(Rows(net, state, meas, opt, k), |y|)
    ensures RowsCost(Rows(net, state, meas, opt, k), y) == Cost(net, state, meas, opt, y, k)
  {
    hide StateOf, SubtreesOk, NodeRows, NodeCost, RowCost;
    if k > 0 {
      RowsCostIsCost(net, state, meas, opt, y, k - 1);
      NodeRowsCost(net, state, meas, opt, y, k - 1);
      RowsCostAdds(Rows(net, state, meas, opt, k - 1), NodeRows(net, state, meas, opt, k - 1), y);
    }
  }

  lemma ObjectiveIsCost(
      net: Net, state: seq<NodeId>, meas: map<NodeId, Measurement>, opt: Options, y: Vector)
    requires NonZeroSigmas(opt) && StateOf(net, state) && SubtreesOk(net) && |y| == 2 * |state|
    ensures var rows := Rows(net, state, meas, opt, |state|);
      && IsMatrix(HOf(rows), |HOf(rows)|, |y|)
      && Objective(HOf(rows), WOf(rows), ZOf(rows), y) == Cost(net, state, meas, opt, y, |state|)
  {
    hide StateOf, SubtreesOk, Rows, Cost, Objective, RowsCost;
    RowsCostIsCost(net, state, meas, opt, y, |state|);
    RowsCostIsObjective(Rows(net, state, meas, opt, |state|), y);
  }

  // ---- the estimate --------------------------------------------------------

  /** The estimate is over every energized node but the source, each once; among all
      states its own comes closest, by this cost, and alone; and each voltage it gives is
      the one that state stands for. */
  lemma EstimateComesClosest(
      nodes: seq<Node>, edges: seq<Edge>, meas: map<NodeId, Measurement>, opt: Options, est: Estimate)
    requires NonZeroSigmas(opt) && IsEstimate(nodes, edges, meas, opt, est)
    ensures SubtreesOk(est.net) && StateOf(est.net, est.state) && |est.x| == 2 * |est.state|
    ensures Distinct(est.state) && Elems(est.state) == est.net.tree.Nodes() - {est.net.tree.root}
    ensures est.objective == Cost(est.net, est.state, meas, opt, est.x, |est.state|)
    ensures forall y: Vector :: |y| == |est.x| && y != est.x ==>
      est.objective < Cost(est.net, est.state, meas, opt, y, |est.state|)
    ensures forall n :: n in est.net.tree.pathEdges ==>
      n in est.voltages && est.voltages[n] == VoltageAt(est.net, est.state, est.x, n)
  {
    hide IsNet, SubtreesOk, Rows, Cost, Objective, Drop, VoltageAt, SensRow, Dot, AreResiduals, AreResidualVariances,
      InvertsGain;
    EstimateNet(nodes, edges, est.net, est.state);
    ObjectiveIsCost(est.net, est.state, meas, opt, est.x);
    forall y: Vector | |y| == |est.x| && y != est.x
      ensures est.objective < Cost(est.net, est.state, meas, opt, y, |est.state|)
    {
      ObjectiveIsCost(est.net, est.state, meas, opt, y);
    }
    forall n | n in est.net.tree.pathEdges
      ensures n in est.voltages && est.voltages[n] == VoltageAt(est.net, est.state, est.x, n)
    {
      assert n in est.net.tree.Nodes();
      VoltageIsDrop(est.net, est.state, est.x, n);
    }
  }

  lemma EstimateNet(nodes: seq<Node>, edges: seq<Edge>, net: Net, state: seq<NodeId>)
    requires IsNet(nodes, edges, net) && StateIs(net, state)
    ensures SubtreesOk(net) && Elems(state) == net.tree.Nodes() - {net.tree.root}
  {
    hide Reach, Below, ParentOk, SubtreesOk;
    var order := net.tree.order;
    forall n ensures n in Elems(state) <==> n in Elems(order) - {net.tree.root} {
      if n in Elems(order) && n != net.tree.root {
        var i :| 0 <= i < |order| && order[i] == n;
        assert state[i - 1] == n;
      }
      if n in Elems(state) {
        var i :| 0 <= i < |state| && state[i] == n;
        assert order[i + 1] == n;
      }
    }
  }

  // ---- readings that agree -------------------------------------------------

  /** Base load and readings of a state node are the quantities of the state `y`. */
  ghost predicate AgreesAt(net: Net, state: seq<NodeId>, meas: map<NodeId, Measurement>, y: Vector, i: nat)
    requires StateOf(net, state) && SubtreesOk(net) && |y| == 2 * |state| && i < |state|
  {
    var n := state[i];
    var m := At(meas, n, NO_MEASUREMENT);
    && net.byId[n].baseLoadKw == y[2 * i] && net.byId[n].baseLoadKvar == y[2 * i + 1]
    && (m.pKw.Some? ==> m.pKw.value == y[2 * i]) && (m.qKvar.Some? ==> m.qKvar.value == y[2 * i + 1])
    && (m.voltagePu.Some? ==> m.voltagePu.value == VoltageAt(net, state, y, n))
  }

  lemma Over2Sign(d: real, sigma: real)
    requires sigma != 0.0
    ensures Over2(d, sigma) >= 0.0 && (Over2(d, sigma) == 0.0 <==> d == 0.0)
  {
    SqSign(d);
    SqSign(sigma);
    var q := Sq(d) / Sq(sigma);
    assert q * Sq(sigma) == Sq(d) && Product(-q, Sq(sigma)) == -Sq(d);
    if q < 0.0 { ProductPositive(-q, Sq(sigma)); }
  }

  lemma NodeCostSign(
      net: Net, state: seq<NodeId>, meas: map<NodeId, Measurement>, opt: Options, y: Vector, i: nat)
    requires NonZeroSigmas(opt) && StateOf(net, state) && SubtreesOk(net) && |y| == 2 * |state| && i < |state|
    ensures NodeCost(net, state, meas, opt, y, i) >= 0.0
    ensures NodeCost(net, state, meas, opt, y, i) == 0.0 <==> AgreesAt(net, state, meas, y, i)
  {
    hide SubtreesOk, VoltageAt, Over2;
    var n := state[i];
    var m := At(meas, n, NO_MEASUREMENT);
    Over2Sign(net.byId[n].baseLoadKw - y[2 * i], opt.sigmaPPseudo);
    Over2Sign(net.byId[n].baseLoadKvar - y[2 * i + 1], opt.sigmaQPseudo);
    if m.pKw.Some? { Over2Sign(m.pKw.value - y[2 * i], opt.sigmaPMeter); }
    if m.qKvar.Some? { Over2Sign(m.qKvar.value - y[2 * i + 1], opt.sigmaQMeter); }
    if m.voltagePu.Some? { Over2Sign(VoltageAt(net, state, y, n) - m.voltagePu.value, opt.sigmaVMeter); }
  }

  lemma {:induction false} CostSign(
      net: Net, state: seq<NodeId>, meas: map<NodeId, Measurement>, opt: Options, y: Vector, k: nat)
    requires NonZeroSigmas(opt) && StateOf(net, state) && SubtreesOk(net) && |y| == 2 * |state| && k <= |state|
    ensures Cost(net, state, meas, opt, y, k) >= 0.0
    ensures Cost(net, state, meas, opt, y, k) == 0.0 <==>
      forall i: nat :: i < k ==> AgreesAt(net, state, meas, y, i)
  {
    hide SubtreesOk, StateOf, NodeCost, AgreesAt;
    if k > 0 {
      CostSign(net, state, meas, opt, y, k - 1);
      NodeCostSign(net, state, meas, opt, y, k - 1);
    }
  }

  /** Base loads and readings that all come from one state give back exactly that state,
      and an estimate without cost is one that all of them agree with. */
  lemma ConsistentIsExact(
      nodes: seq<Node>, edges: seq<Edge>, meas: map<NodeId, Measurement>, opt: Options, est: Estimate, y: Vector)
    requires NonZeroSigmas(opt) && IsEstimate(nodes, edges, meas, opt, est) && |y| == 2 * |est.state|
    ensures SubtreesOk(est.net) && StateOf(est.net, est.state)
    ensures (forall i: nat :: i < |est.state| ==> AgreesAt(est.net, est.state, meas, y, i))
      <==> est.x == y && est.objective == 0.0
  {
    hide IsEstimate, SubtreesOk, StateOf, Cost, AgreesAt, VoltageAt;
    EstimateComesClosest(nodes, edges, meas, opt, est);
    CostSign(est.net, est.state, meas, opt, y, |est.state|);
    CostSign(est.net, est.state, meas, opt, est.x, |est.state|);
  }

  // ---- residuals -----------------------------------------------------------

  /** What the state `y` leaves of the measurement of that kind at state node `i`: base
      load or reading less the estimate, and for a voltage the estimate less the reading. */
  ghost predicate IsDeviation(
    net: Net, state: seq<NodeId>, meas: map<NodeId, Measurement>, y: Vector, kind: Kind, i: nat, r: real)
    requires StateOf(net, state) && SubtreesOk(net) && |y| == 2 * |state| && i < |state|
  {
    var n := state[i];
    var m := At(meas, n, NO_MEASUREMENT);
    match kind
    case PseudoP => r == net.byId[n].baseLoadKw - y[2 * i]
    case PseudoQ => r == net.byId[n].baseLoadKvar - y[2 * i + 1]
    case MeterP => m.pKw.Some? && r == m.pKw.value - y[2 * i]
    case MeterQ => m.qKvar.Some? && r == m.qKvar.value - y[2 * i + 1]
    case MeterV => m.voltagePu.Some? && r == VoltageAt(net, state, y, n) - m.voltagePu.value
  }

  /** There is a measurement of that kind: two from the base loads, the others when read. */
  predicate Measured(meas: map<NodeId, Measurement>, n: NodeId, kind: Kind) {
    var m := At(meas, n, NO_MEASUREMENT);
    match kind
    case PseudoP => true
    case PseudoQ => true
    case MeterP => m.pKw.Some?
    case MeterQ => m.qKvar.Some?
    case MeterV => m.voltagePu.Some?
  }

  ghost predicate RowMeans(
    net: Net, state: seq<NodeId>, meas: map<NodeId, Measurement>, y: Vector, row: MeasRow, i: nat)
    requires StateOf(net, state) && SubtreesOk(net) && |y| == 2 * |state| && i < |state|
  {
    && |row.h| == |y| && row.node == state[i]
    && IsDeviation(net, state, meas, y, row.kind, i, row.z - Dot(row.h, y))
  }

  lemma UnitRowMeans(
      net: Net, state: seq<NodeId>, meas: map<NodeId, Measurement>, y: Vector, kind: Kind, c: nat, z: real, w: real,
      i: nat)
    requires StateOf(net, state) && SubtreesOk(net) && |y| == 2 * |state| && i < |state| && c < |y|
    requires IsDeviation(net, state, meas, y, kind, i, z - y[c])
    ensures RowMeans(net, state, meas, y, MeasRow(kind, state[i], Unit(|y|, c), z, w), i)
  {
    hide Unit, Dot, IsDeviation, SubtreesOk;
    DotUnit(|y|, c, y);
  }

  lemma VoltageRowMeans(
      net: Net, state: seq<NodeId>, meas: map<NodeId, Measurement>, y: Vector, v: real, w: real, i: nat)
    requires StateOf(net, state) && SubtreesOk(net) && |y| == 2 * |state| && i < |state|
    requires At(meas, state[i], NO_MEASUREMENT).voltagePu == Some(v)
    ensures state[i] in net.tree.pathEdges
    ensures RowMeans(net, state, meas, y,
      MeasRow(MeterV, state[i], SensRow(net, state, net.tree.pathEdges[state[i]]), 1.0 - v, w), i)
  {
    hide SensRow, Dot, SubtreesOk, VoltageAt, Drop;
    RowIsDrop(net, state, net.tree.pathEdges[state[i]], y);
    VoltageIsDrop(net, state, y, state[i]);
  }

  lemma NodeRowsMean(
      net: Net, state: seq<NodeId>, meas: map<NodeId, Measurement>, opt: Options, y: Vector, i: nat)
    requires NonZeroSigmas(opt) && StateOf(net, state) && SubtreesOk(net) && |y| == 2 * |state| && i < |state|
    ensures forall j :: 0 <= j < |NodeRows(net, state, meas, opt, i)| ==>
      RowMeans(net, state, meas, y, NodeRows(net, state, meas, opt, i)[j], i)
    ensures forall kind :: Measured(meas, state[i], kind) ==>
      HasKind(NodeRows(net, state, meas, opt, i), state[i], kind)
  {
    hide SensRow, Unit, Weight, SubtreesOk, VoltageAt, NodeRows, RowMeans, HasKind, StateOf;
    var n, m := state[i], At(meas, state[i], NO_MEASUREMENT);
    KnownNode(net, state, i);
    var p, q, mp, mq, mv := NodeRowsParts(net, state, meas, opt, i);
    UnitRowMeans(net, state, meas, y, PseudoP, 2 * i, net.byId[n].baseLoadKw, Weight(opt.sigmaPPseudo), i);
    UnitRowMeans(net, state, meas, y, PseudoQ, 2 * i + 1, net.byId[n].baseLoadKvar, Weight(opt.sigmaQPseudo), i);
    if m.pKw.Some? { UnitRowMeans(net, state, meas, y, MeterP, 2 * i, m.pKw.value, Weight(opt.sigmaPMeter), i); }
    if m.qKvar.Some? {
      UnitRowMeans(net, state, meas, y, MeterQ, 2 * i + 1, m.qKvar.value, Weight(opt.sigmaQMeter), i);
    }
    if m.voltagePu.Some? { VoltageRowMeans(net, state, meas, y, m.voltagePu.value, Weight(opt.sigmaVMeter), i); }
    KindsListed(p, q, mp, mq, mv, n);
    forall kind | Measured(meas, n, kind) ensures HasKind(NodeRows(net, state, meas, opt, i), n, kind) {
      match kind
      case PseudoP =>
      case PseudoQ =>
      case MeterP =>
      case MeterQ =>
      case MeterV =>
    }
  }

  lemma KnownNode(net: Net, state: seq<NodeId>, i: nat)
    requires StateOf(net, state) && i < |state|
    ensures state[i] in net.byId && state[i] in net.tree.pathEdges
  {
  }

  ghost predicate HasKind(rows: seq<MeasRow>, n: NodeId, kind: Kind) {
    exists j :: 0 <= j < |rows| && rows[j].node == n && rows[j].kind == kind
  }

  lemma KindsListed(
      p: seq<MeasRow>, q: seq<MeasRow>, mp: seq<MeasRow>, mq: seq<MeasRow>, mv: seq<MeasRow>, n: NodeId)
    requires |p| == 1 && p[0].node == n && p[0].kind == PseudoP && |q| == 1 && q[0].node == n && q[0].kind == PseudoQ
    requires |mp| > 0 ==> mp[0].node == n && mp[0].kind == MeterP
    requires |mq| > 0 ==> mq[0].node == n && mq[0].kind == MeterQ
    requires |mv| > 0 ==> mv[0].node == n && mv[0].kind == MeterV
    ensures var rows := p + q + mp + mq + mv;
      && HasKind(rows, n, PseudoP) && HasKind(rows, n, PseudoQ)
      && (|mp| > 0 ==> HasKind(rows, n, MeterP)) && (|mq| > 0 ==> HasKind(rows, n, MeterQ))
      && (|mv| > 0 ==> HasKind(rows, n, MeterV))
  {
    var rows := p + q + mp + mq + mv;
    assert rows[0] == p[0] && rows[1] == q[0];
    if |mp| > 0 { assert rows[2] == mp[0]; }
    if |mq| > 0 { assert rows[2 + |mp|] == mq[0]; }
    if |mv| > 0 { assert rows[2 + |mp| + |mq|] == mv[0]; }
  }

  ghost predicate RowCovered(
    net: Net, state: seq<NodeId>, meas: map<NodeId, Measurement>, y: Vector, row: MeasRow, k: nat)
    requires StateOf(net, state) && SubtreesOk(net) && |y| == 2 * |state| && k <= |state|
  {
    exists i: nat :: i < k && RowMeans(net, state, meas, y, row, i)
  }

  lemma {:induction false} RowsMean(
      net: Net, state: seq<NodeId>, meas: map<NodeId, Measurement>, opt: Options, y: Vector, k: nat)
    requires NonZeroSigmas(opt) && StateOf(net, state) && SubtreesOk(net) && |y| == 2 * |state| && k <= |state|
    ensures forall j :: 0 <= j < |Rows(net, state, meas, opt, k)| ==>
      RowCovered(net, state, meas, y, Rows(net, state, meas, opt, k)[j], k)
    ensures forall i: nat, kind :: i < k && Measured(meas, state[i], kind) ==>
      HasKind(Rows(net, state, meas, opt, k), state[i], kind)
  {
    hide SubtreesOk, StateOf, NodeRows, RowMeans, HasKind, Measured;
    if k > 0 {
      var a, b := Rows(net, state, meas, opt, k - 1), NodeRows(net, state, meas, opt, k - 1);
      RowsMean(net, state, meas, opt, y, k - 1);
      NodeRowsMean(net, state, meas, opt, y, k - 1);
      forall j | 0 <= j < |a + b| ensures RowCovered(net, state, meas, y, (a + b)[j], k) {
        if j >= |a| {
          assert RowMeans(net, state, meas, y, b[j - |a|], k - 1);
        } else {
          assert RowCovered(net, state, meas, y, a[j], k - 1);
        }
      }
      forall i: nat, kind | i < k && Measured(meas, state[i], kind) ensures HasKind(a + b, state[i], kind) {
        KindKept(a, b, state[i], kind);
      }
    }
  }

  lemma KindKept(a: seq<MeasRow>, b: seq<MeasRow>, n: NodeId, kind: Kind)
    ensures HasKind(a, n, kind) || HasKind(b, n, kind) ==> HasKind(a + b, n, kind)
  {
    if HasKind(a, n, kind) {
      var j :| 0 <= j < |a| && a[j].node == n && a[j].kind == kind;
      assert (a + b)[j] == a[j];
    } else if HasKind(b, n, kind) {
      var j :| 0 <= j < |b| && b[j].node == n && b[j].kind == kind;
      assert (a + b)[|a| + j] == b[j];
    }
  }

  /** The j-th residual is the deviation of one measurement of a state node. */
  ghost predicate ResidualMeans(meas: map<NodeId, Measurement>, est: Estimate, j: nat)
    requires StateOf(est.net, est.state) && SubtreesOk(est.net) && |est.x| == 2 * |est.state|
    requires j < |est.residuals| == |est.rows|
  {
    exists i: nat :: i < |est.state| && est.rows[j].node == est.state[i]
      && IsDeviation(est.net, est.state, meas, est.x, est.rows[j].kind, i, est.residuals[j])
  }

  lemma ResidualAt(
      nodes: seq<Node>, edges: seq<Edge>, meas: map<NodeId, Measurement>, opt: Options, est: Estimate, j: nat)
    requires NonZeroSigmas(opt) && IsEstimate(nodes, edges, meas, opt, est) && j < |est.rows|
    requires SubtreesOk(est.net) && StateOf(est.net, est.state) && |est.x| == 2 * |est.state|
    requires RowCovered(est.net, est.state, meas, est.x, est.rows[j], |est.state|)
    ensures |est.residuals| == |est.rows| && ResidualMeans(meas, est, j)
  {
    hide IsNet, SubtreesOk, StateOf, Rows, IsDeviation, Dot, AreResidualVariances, InvertsGain, IsMinimum;
    var i: nat :| i < |est.state| && RowMeans(est.net, est.state, meas, est.x, est.rows[j], i);
    assert est.residuals[j] == est.rows[j].z - Dot(est.rows[j].h, est.x);
  }

  lemma EstimateParts(
      nodes: seq<Node>, edges: seq<Edge>, meas: map<NodeId, Measurement>, opt: Options, est: Estimate)
    requires NonZeroSigmas(opt) && IsEstimate(nodes, edges, meas, opt, est)
    ensures SubtreesOk(est.net) && StateOf(est.net, est.state) && |est.x| == 2 * |est.state|
    ensures |est.residuals| == |est.rows| && est.rows == Rows(est.net, est.state, meas, opt, |est.state|)
  {
    hide IsNet, SubtreesOk, StateOf, Rows, AreResidualVariances, InvertsGain;
    EstimateNet(nodes, edges, est.net, est.state);
  }

  /** Every residual is the deviation of one measurement of a state node, and every base
      load and every reading of a state node has one. */
  lemma ResidualsMean(
      nodes: seq<Node>, edges: seq<Edge>, meas: map<NodeId, Measurement>, opt: Options, est: Estimate)
    requires NonZeroSigmas(opt) && IsEstimate(nodes, edges, meas, opt, est)
    ensures SubtreesOk(est.net) && StateOf(est.net, est.state) && |est.x| == 2 * |est.state|
    ensures |est.residuals| == |est.rows|
    ensures forall j: nat :: j < |est.residuals| ==> ResidualMeans(meas, est, j)
    ensures forall i: nat, kind :: i < |est.state| && Measured(meas, est.state[i], kind) ==>
      HasKind(est.rows, est.state[i], kind)
  {
    hide *;
    EstimateParts(nodes, edges, meas, opt, est);
    RowsMean(est.net, est.state, meas, opt, est.x, |est.state|);
    forall j: nat | j < |est.residuals| ensures ResidualMeans(meas, est, j) {
      ResidualAt(nodes, edges, meas, opt, est, j);
    }
  }
}

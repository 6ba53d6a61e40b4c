/** Weighted least-squares state estimation over the radial tree: the measurement rows,
    the solve, the residual and voltage variances, and the voltages read back. */
module Estimation {
  import opened Graph
  import opened Grid
  import opened Results
  import opened RadialTree
  import opened Sums
  import opened Reals
  import opened Vectors
  import opened GaussJordan
  import opened Inverse
  import opened LinearSystems
  import opened Elimination
  import opened LeastSquares
  import opened Sensitivity
  import opened Solvability
  import opened Sequences

  datatype Options = Options(
    sigmaPMeter: real, sigmaQMeter: real, sigmaVMeter: real, sigmaPPseudo: real, sigmaQPseudo: real)

  datatype Measurement = Measurement(pKw: Option<real>, qKvar: Option<real>, voltagePu: Option<real>)

  datatype Kind = PseudoP | PseudoQ | MeterP | MeterQ | MeterV

  datatype MeasRow = MeasRow(kind: Kind, node: NodeId, h: Vector, z: real, w: real)

  predicate NonZeroSigmas(opt: Options) {
    && opt.sigmaPMeter != 0.0 && opt.sigmaQMeter != 0.0 && opt.sigmaVMeter != 0.0
    && opt.sigmaPPseudo != 0.0 && opt.sigmaQPseudo != 0.0
  }

  function Weight(sigma: real): (w: real)
    requires sigma != 0.0
    ensures w > 0.0
  {
    SqSign(sigma);
    ReciprocalPositive(Sq(sigma));
    1.0 / Sq(sigma)
  }

  lemma ReciprocalPositive(s: real)
    requires s > 0.0
    ensures 1.0 / s > 0.0
  {
    QuotientPositive(s, 1.0 / s);
  }

  const NO_MEASUREMENT := Measurement(None, None, None)

  ghost predicate StateOf(net: Net, state: seq<NodeId>) {
    && Distinct(state) && (forall n :: n in state ==> n in net.tree.pathEdges && n in net.byId)
    && PathsKnown(net)
  }

  /** The rows of one state node: two pseudo-measurements always, telemetry where present. */
  ghost function NodeRows(
      net: Net, state: seq<NodeId>, meas: map<NodeId, Measurement>, opt: Options, i: nat): seq<MeasRow>
    requires NonZeroSigmas(opt) && StateOf(net, state) && i < |state|
  {
    var n, cols := state[i], 2 * |state|;
    var m, base := At(meas, n, NO_MEASUREMENT), net.byId[n];
    [MeasRow(PseudoP, n, Unit(cols, 2 * i), base.baseLoadKw, Weight(opt.sigmaPPseudo)),
     MeasRow(PseudoQ, n, Unit(cols, 2 * i + 1), base.baseLoadKvar, Weight(opt.sigmaQPseudo))]
    + (if m.pKw.Some? then [MeasRow(MeterP, n, Unit(cols, 2 * i), m.pKw.value, Weight(opt.sigmaPMeter))] else [])
    + (if m.qKvar.Some? then
         [MeasRow(MeterQ, n, Unit(cols, 2 * i + 1), m.qKvar.value, Weight(opt.sigmaQMeter))] else [])
    + (if m.voltagePu.Some? then
        [MeasRow(
           MeterV, n, SensRow(net, state, net.tree.pathEdges[n]), 1.0 - m.voltagePu.value, Weight(opt.sigmaVMeter))]
       else [])
  }

  ghost function Rows(net: Net, state: seq<NodeId>, meas: map<NodeId, Measurement>, opt: Options, k: nat): seq<MeasRow>
    requires NonZeroSigmas(opt) && StateOf(net, state) && k <= |state|
  {
    if k == 0 then [] else Rows(net, state, meas, opt, k - 1) + NodeRows(net, state, meas, opt, k - 1)
  }

  function HOf(rows: seq<MeasRow>): (h: Matrix)
    ensures |h| == |rows| && forall i :: 0 <= i < |rows| ==> h[i] == rows[i].h
  {
    if rows == [] then [] else [rows[0].h] + HOf(rows[1..])
  }

  function ZOf(rows: seq<MeasRow>): (z: Vector)
    ensures |z| == |rows| && forall i :: 0 <= i < |rows| ==> z[i] == rows[i].z
  {
    if rows == [] then [] else [rows[0].z] + ZOf(rows[1..])
  }

  function WOf(rows: seq<MeasRow>): (w: Vector)
    ensures |w| == |rows| && forall i :: 0 <= i < |rows| ==> w[i] == rows[i].w
  {
    if rows == [] then [] else [rows[0].w] + WOf(rows[1..])
  }

  /** Rows that fit `cols` state variables, carry positive weights and measure each of
      the first `upTo` variables on its own. */
  ghost predicate GoodRows(rows: seq<MeasRow>, cols: nat, upTo: nat) {
    && (forall i :: 0 <= i < |rows| ==> |rows[i].h| == cols && rows[i].w > 0.0)
    && upTo <= cols
    && forall c :: 0 <= c < upTo ==> exists i :: 0 <= i < |rows| && rows[i].h == Unit(cols, c)
  }

  lemma {:induction false} RowsAreGood(
      net: Net, state: seq<NodeId>, meas: map<NodeId, Measurement>, opt: Options, k: nat)
    requires NonZeroSigmas(opt) && StateOf(net, state) && k <= |state|
    ensures GoodRows(Rows(net, state, meas, opt, k), 2 * |state|, 2 * k)
  {
    hide SensRow, Unit, NodeRows, StateOf, GoodRows;
    if k == 0 {
      NoRowsAreGood(2 * |state|);
    } else {
      RowsAreGood(net, state, meas, opt, k - 1);
      var cols, old', more := 2 * |state|, Rows(net, state, meas, opt, k - 1), NodeRows(net, state, meas, opt, k - 1);
      NodeRowsFit(net, state, meas, opt, k - 1);
      GoodRowsGrow(old', more, cols, 2 * (k - 1));
    }
  }

  lemma NoRowsAreGood(cols: nat)
    ensures GoodRows([], cols, 0)
  {
  }

  lemma NodeRowsFit(net: Net, state: seq<NodeId>, meas: map<NodeId, Measurement>, opt: Options, i: nat)
    requires NonZeroSigmas(opt) && StateOf(net, state) && i < |state|
    ensures var more := NodeRows(net, state, meas, opt, i);
      && |more| >= 2 && more[0].h == Unit(2 * |state|, 2 * i) && more[1].h == Unit(2 * |state|, 2 * i + 1)
      && forall j :: 0 <= j < |more| ==> |more[j].h| == 2 * |state| && more[j].w > 0.0
  {
    hide SensRow, Unit, Weight;
  }

  lemma GoodRowsGrow(rows: seq<MeasRow>, more: seq<MeasRow>, cols: nat, c: nat)
    requires GoodRows(rows, cols, c) && c + 2 <= cols && |more| >= 2
    requires forall i :: 0 <= i < |more| ==> |more[i].h| == cols && more[i].w > 0.0
    requires more[0].h == Unit(cols, c) && more[1].h == Unit(cols, c + 1)
    ensures GoodRows(rows + more, cols, c + 2)
  {
    hide Unit;
    var all := rows + more;
    forall d | 0 <= d < c + 2 ensures exists i :: 0 <= i < |all| && all[i].h == Unit(cols, d) {
      if d < c {
        var i :| 0 <= i < |rows| && rows[i].h == Unit(cols, d);
        assert all[i] == rows[i];
      } else {
        assert all[|rows| + (d - c)] == more[d - c];
      }
    }
  }

  lemma GoodRowsMeans(rows: seq<MeasRow>, cols: nat)
    requires GoodRows(rows, cols, cols)
    ensures IsMatrix(HOf(rows), |rows|, cols) && Positive(WOf(rows)) && Anchored(HOf(rows), cols)
  {
    hide Unit;
    forall c | 0 <= c < cols ensures exists i :: 0 <= i < |HOf(rows)| && HOf(rows)[i] == Unit(cols, c) {
      var i :| 0 <= i < |rows| && rows[i].h == Unit(cols, c);
      assert HOf(rows)[i] == Unit(cols, c);
    }
  }

  // ---- how heavy the pseudo-measurements are -------------------------------

  /** Each of the first `upTo` variables is measured alone by a row of weight `least` or more. */
  ghost predicate HeavyRows(rows: seq<MeasRow>, cols: nat, upTo: nat, least: real) {
    && upTo <= cols
    && forall c :: 0 <= c < upTo ==> exists i :: 0 <= i < |rows| && rows[i].h == Unit(cols, c) && rows[i].w >= least
  }

  lemma {:induction false} PseudoRowsAreHeavy(
      net: Net, state: seq<NodeId>, meas: map<NodeId, Measurement>, opt: Options, k: nat, least: real)
    requires NonZeroSigmas(opt) && StateOf(net, state) && k <= |state|
    requires Weight(opt.sigmaPPseudo) >= least && Weight(opt.sigmaQPseudo) >= least
    ensures HeavyRows(Rows(net, state, meas, opt, k), 2 * |state|, 2 * k, least)
  {
    hide SensRow, Unit, NodeRows, StateOf, HeavyRows, Weight;
    if k == 0 {
      NoRowsAreHeavy(2 * |state|, least);
    } else {
      PseudoRowsAreHeavy(net, state, meas, opt, k - 1, least);
      PseudoPair(net, state, meas, opt, k - 1);
      HeavyRowsGrow(
        Rows(net, state, meas, opt, k - 1), NodeRows(net, state, meas, opt, k - 1), 2 * |state|, 2 * (k - 1), least);
    }
  }

  lemma NoRowsAreHeavy(cols: nat, least: real)
    ensures HeavyRows([], cols, 0, least)
  {
  }

  lemma PseudoPair(net: Net, state: seq<NodeId>, meas: map<NodeId, Measurement>, opt: Options, i: nat)
    requires NonZeroSigmas(opt) && StateOf(net, state) && i < |state|
    ensures var more := NodeRows(net, state, meas, opt, i);
      && |more| >= 2 && more[0].h == Unit(2 * |state|, 2 * i) && more[1].h == Unit(2 * |state|, 2 * i + 1)
      && more[0].w == Weight(opt.sigmaPPseudo) && more[1].w == Weight(opt.sigmaQPseudo)
      && (At(meas, state[i], NO_MEASUREMENT) == NO_MEASUREMENT ==> |more| == 2)
  {
    hide SensRow, Unit, Weight;
  }

  lemma HeavyRowsGrow(rows: seq<MeasRow>, more: seq<MeasRow>, cols: nat, c: nat, least: real)
    requires HeavyRows(rows, cols, c, least) && c + 2 <= cols && |more| >= 2
    requires more[0].h == Unit(cols, c) && more[1].h == Unit(cols, c + 1)
    requires more[0].w >= least && more[1].w >= least
    ensures HeavyRows(rows + more, cols, c + 2, least)
  {
    hide Unit;
    var all := rows + more;
    forall d | 0 <= d < c + 2
      ensures exists i :: 0 <= i < |all| && all[i].h == Unit(cols, d) && all[i].w >= least
    {
      if d < c {
        var i :| 0 <= i < |rows| && rows[i].h == Unit(cols, d) && rows[i].w >= least;
        assert all[i] == rows[i];
      } else {
        assert all[|rows| + (d - c)] == more[d - c];
      }
    }
  }

  lemma HeavyRowsAccepted(rows: seq<MeasRow>, cols: nat, b: Vector)
    requires cols > 0 && rows != [] && GoodRows(rows, cols, cols) && |b| == cols
    requires HeavyRows(rows, cols, cols, Product(PIVOT_TOL, cols as real))
    ensures IsMatrix(HOf(rows), |rows|, cols)
    ensures Solution(Gain(HOf(rows), WOf(rows), cols), b).Ok?
  {
    hide Unit, Product, Gain, Solution, GoodRows, HeavyRows, AnchoredBy, Anchored, Positive;
    GoodRowsMeans(rows, cols);
    HeavyIsAnchored(rows, cols, Product(PIVOT_TOL, cols as real));
    HeavyAnchorsAccepted(HOf(rows), WOf(rows), cols, b);
  }

  lemma HeavyIsAnchored(rows: seq<MeasRow>, cols: nat, least: real)
    requires HeavyRows(rows, cols, cols, least)
    ensures AnchoredBy(HOf(rows), WOf(rows), cols, least)
  {
    hide Unit, HOf, WOf;
    var h, w := HOf(rows), WOf(rows);
    forall c | 0 <= c < cols ensures HasAnchor(h, w, cols, c, least) {
      var i :| 0 <= i < |rows| && rows[i].h == Unit(cols, c) && rows[i].w >= least;
      assert h[i] == Unit(cols, c) && w[i] >= least;
    }
  }

  ghost predicate NoTelemetry(meas: map<NodeId, Measurement>) {
    forall n :: n in meas ==> meas[n] == NO_MEASUREMENT
  }

  /** Without telemetry the rows are those of the identity, weighted by kind. */
  ghost predicate PseudoOnly(rows: seq<MeasRow>, cols: nat, opt: Options)
    requires NonZeroSigmas(opt)
  {
    && |rows| <= cols
    && forall j :: 0 <= j < |rows| ==>
      && rows[j].h == Unit(cols, j)
      && rows[j].w == if j % 2 == 0 then Weight(opt.sigmaPPseudo) else Weight(opt.sigmaQPseudo)
  }

  lemma {:induction false} UntelemeteredRows(
      net: Net, state: seq<NodeId>, meas: map<NodeId, Measurement>, opt: Options, k: nat)
    requires NonZeroSigmas(opt) && StateOf(net, state) && k <= |state| && NoTelemetry(meas)
    ensures |Rows(net, state, meas, opt, k)| == 2 * k
    ensures PseudoOnly(Rows(net, state, meas, opt, k), 2 * |state|, opt)
  {
    hide SensRow, Unit, NodeRows, StateOf, Weight;
    if k > 0 {
      UntelemeteredRows(net, state, meas, opt, k - 1);
      PseudoPair(net, state, meas, opt, k - 1);
    }
  }

  predicate PseudoTooLight(opt: Options)
    requires NonZeroSigmas(opt)
  {
    Weight(opt.sigmaPPseudo) < PIVOT_TOL || Weight(opt.sigmaQPseudo) < PIVOT_TOL
  }

  /** Without telemetry a pseudo weight under the tolerance is what makes the solver refuse. */
  lemma UntelemeteredRefusal(rows: seq<MeasRow>, cols: nat, opt: Options, b: Vector)
    requires NonZeroSigmas(opt) && cols >= 2 && |rows| == cols == |b| && PseudoOnly(rows, cols, opt)
    ensures IsMatrix(HOf(rows), |rows|, cols)
    ensures Solution(Gain(HOf(rows), WOf(rows), cols), b).Err? <==> PseudoTooLight(opt)
  {
    hide Unit, Gain, Solution, Weight, HOf, WOf;
    var h, w := HOf(rows), WOf(rows);
    assert h == Identity(cols);
    hide Identity;
    UnitRowsGain(h, w, cols);
    var g := Gain(h, w, cols);
    DiagonalRefused(g, b);
    assert forall c :: 0 <= c < cols ==> Abs(g[c][c]) == w[c];
    assert w[0] == Weight(opt.sigmaPPseudo) && w[1] == Weight(opt.sigmaQPseudo);
  }

  // ---- accumulating a sensitivity row --------------------------------------

  function Index(state: seq<NodeId>): (ip: map<NodeId, nat>)
    ensures ip.Keys == Elems(state)
    ensures forall n :: n in ip ==> ip[n] < |state| && state[ip[n]] == n
  {
    if state == [] then map[] else Index(state[..|state| - 1])[state[|state| - 1] := |state| - 1]
  }

  lemma SpreadNone(state: seq<NodeId>, a: real, b: real, row: Vector)
    requires |row| == 2 * |state|
    ensures Add(row, Spread(state, {}, a, b)) == row
  {
    forall j | 0 <= j < |row| ensures Spread(state, {}, a, b)[j] == 0.0 {
      SpreadEntries(state, {}, a, b, j / 2);
      assert j == 2 * (j / 2) || j == 2 * (j / 2) + 1;
    }
    Same(Add(row, Spread(state, {}, a, b)), row);
  }

  function BumpAt(row: Vector, i: nat, a: real, b: real): Vector
    requires 2 * i + 1 < |row|
  {
    row[2 * i := row[2 * i] + a][2 * i + 1 := row[2 * i + 1] + b]
  }

  lemma SpreadOne(state: seq<NodeId>, S: set<NodeId>, a: real, b: real, row: Vector, i: nat)
    requires Distinct(state) && i < |state| && state[i] !in S && |row| == 2 * |state|
    ensures Add(row, Spread(state, S + {state[i]}, a, b)) == BumpAt(Add(row, Spread(state, S, a, b)), i, a, b)
  {
    hide Spread, Add, BumpAt;
    var s, t := Spread(state, S, a, b), Spread(state, S + {state[i]}, a, b);
    forall j | 0 <= j < 2 * |state|
      ensures t[j] == s[j] + if j == 2 * i then a else if j == 2 * i + 1 then b else 0.0
    {
      SpreadEntries(state, S, a, b, j / 2);
      SpreadEntries(state, S + {state[i]}, a, b, j / 2);
      assert j == 2 * (j / 2) || j == 2 * (j / 2) + 1;
    }
    BumpedEntries(row, s, t, i, a, b);
  }

  lemma BumpedEntries(row: Vector, s: Vector, t: Vector, i: nat, a: real, b: real)
    requires |row| == |s| == |t| && 2 * i + 1 < |row|
    requires forall j :: 0 <= j < |row| ==> t[j] == s[j] + if j == 2 * i then a else if j == 2 * i + 1 then b else 0.0
    ensures Add(row, t) == BumpAt(Add(row, s), i, a, b)
  {
    hide Add, BumpAt;
    var l, v := Add(row, t), Add(row, s);
    BumpEntries(v, i, a, b);
    forall j | 0 <= j < |row| ensures l[j] == BumpAt(v, i, a, b)[j] {}
    Same(l, BumpAt(v, i, a, b));
  }

  lemma BumpEntries(v: Vector, i: nat, a: real, b: real)
    requires 2 * i + 1 < |v|
    ensures |BumpAt(v, i, a, b)| == |v|
    ensures forall j :: 0 <= j < |v| ==>
      BumpAt(v, i, a, b)[j] == v[j] + if j == 2 * i then a else if j == 2 * i + 1 then b else 0.0
  {
  }

  lemma SpreadElsewhere(state: seq<NodeId>, S: set<NodeId>, a: real, b: real, n: NodeId)
    requires n !in state
    ensures Spread(state, S + {n}, a, b) == Spread(state, S, a, b)
  {
    forall j | 0 <= j < 2 * |state| ensures Spread(state, S + {n}, a, b)[j] == Spread(state, S, a, b)[j] {
      SpreadEntries(state, S, a, b, j / 2);
      SpreadEntries(state, S + {n}, a, b, j / 2);
      assert j == 2 * (j / 2) || j == 2 * (j / 2) + 1;
      assert state[j / 2] in state;
    }
    Same(Spread(state, S + {n}, a, b), Spread(state, S, a, b));
  }

  ghost function Accumulated(row0: Vector, state: seq<NodeId>, S: set<NodeId>, a: real, b: real): Vector
    requires |row0| == 2 * |state|
  {
    Add(row0, Spread(state, S, a, b))
  }

  /** `row[ip[k]] += a; row[iq[k]] += b` for a state node, nothing for any other. */
  function Bumped(row: Vector, ip: map<NodeId, nat>, k: NodeId, a: real, b: real): Vector
    requires k in ip ==> 2 * ip[k] + 1 < |row|
  {
    if k in ip then BumpAt(row, ip[k], a, b) else row
  }

  lemma AccumulatedSize(row0: Vector, state: seq<NodeId>, S: set<NodeId>, a: real, b: real)
    requires |row0| == 2 * |state|
    ensures |Accumulated(row0, state, S, a, b)| == 2 * |state|
  {
  }

  lemma AccumulatedGrows(row0: Vector, state: seq<NodeId>, S: set<NodeId>, a: real, b: real, k: NodeId)
    requires Distinct(state) && |row0| == 2 * |state| && k !in S
    requires |Accumulated(row0, state, S, a, b)| == 2 * |state|
    ensures Accumulated(row0, state, S + {k}, a, b) == Bumped(Accumulated(row0, state, S, a, b), Index(state), k, a, b)
  {
    hide Spread, Add, BumpAt;
    if k in Index(state) {
      SpreadOne(state, S, a, b, row0, Index(state)[k]);
    } else {
      SpreadElsewhere(state, S, a, b, k);
    }
  }

  /** One edge of the path: its impedance goes to every state node below it. */
  method AddEdgeToRow(row0: Vector, state: seq<NodeId>, ip: map<NodeId, nat>, below: set<NodeId>, a: real, b: real)
    returns (row: Vector)
    requires Distinct(state) && ip == Index(state) && |row0| == 2 * |state|
    ensures row == Add(row0, Spread(state, below, a, b))
  {
    hide Accumulated, Bumped, Spread, Add;
    row := row0;
    var todo := below;
    ghost var done: set<NodeId> := {};
    SpreadNone(state, a, b, row0);
    assert row == Accumulated(row0, state, {}, a, b) by { AccumulatedMeans(row0, state, {}, a, b); }
    while todo != {}
      invariant done + todo == below && done !! todo
      invariant row == Accumulated(row0, state, done, a, b)
      decreases todo
    {
      var k :| k in todo;
      AccumulatedSize(row0, state, done, a, b);
      AccumulatedGrows(row0, state, done, a, b, k);
      row := Bumped(row, ip, k, a, b);
      todo := todo - {k};
      done := done + {k};
    }
    AccumulatedMeans(row0, state, below, a, b);
  }

  lemma AccumulatedMeans(row0: Vector, state: seq<NodeId>, S: set<NodeId>, a: real, b: real)
    requires |row0| == 2 * |state|
    ensures Accumulated(row0, state, S, a, b) == Add(row0, Spread(state, S, a, b))
  {
  }

  method VSensitivityRow(net: Net, state: seq<NodeId>, ip: map<NodeId, nat>, node: NodeId) returns (row: Vector)
    requires StateOf(net, state) && ip == Index(state) && node in net.tree.pathEdges
    ensures row == SensRow(net, state, net.tree.pathEdges[node])
  {
    hide SensRow, Spread;
    var path := net.tree.pathEdges[node];
    row := Zeros(2 * |state|);
    SensOfNothing(net, state);
    for j := 0 to |path|
      invariant row == SensRow(net, state, path[..j])
    {
      var e := path[j];
      SensStep(net, state, path, j);
      row := AddEdgeToRow(row, state, ip, net.subtree[e.id], net.pu[e.id].r / SBASE_KW, net.pu[e.id].x / SBASE_KW);
    }
    assert path[..|path|] == path;
  }

  lemma SensStep(net: Net, state: seq<NodeId>, path: seq<Edge>, j: nat)
    requires j < |path| && forall e :: e in path ==> e.id in net.subtree && e.id in net.pu
    ensures path[j].id in net.subtree && path[j].id in net.pu
    ensures SensRow(net, state, path[..j + 1])
         == Add(SensRow(net, state, path[..j]),
                Spread(
                  state, net.subtree[path[j].id], net.pu[path[j].id].r / SBASE_KW, net.pu[path[j].id].x / SBASE_KW))
  {
    hide Spread;
    assert path[j] in path;
    assert path[..j + 1][..j] == path[..j];
    SensUnfolds(net, state, path[..j + 1]);
  }

  lemma SensOfNothing(net: Net, state: seq<NodeId>)
    ensures SensRow(net, state, []) == Zeros(2 * |state|)
  {
  }

  // ---- the estimator -------------------------------------------------------

  datatype Estimate = Estimate(
    net: Net, state: seq<NodeId>, rows: seq<MeasRow>, x: Vector, objective: real,
    residuals: Vector, ginv: Matrix, residualVariances: Vector,
    voltages: map<NodeId, real>, voltageVariances: map<NodeId, real>)

  method RowsOfNode(
      net: Net, state: seq<NodeId>, ip: map<NodeId, nat>, meas: map<NodeId, Measurement>, opt: Options, i: nat)
    returns (rows: seq<MeasRow>)
    requires NonZeroSigmas(opt) && StateOf(net, state) && ip == Index(state) && i < |state|
    ensures rows == NodeRows(net, state, meas, opt, i)
  {
    hide SensRow;
    var n, cols := state[i], 2 * |state|;
    var m, base := At(meas, n, NO_MEASUREMENT), net.byId[n];
    rows := [
      MeasRow(PseudoP, n, Unit(cols, 2 * i), base.baseLoadKw, Weight(opt.sigmaPPseudo)),
      MeasRow(PseudoQ, n, Unit(cols, 2 * i + 1), base.baseLoadKvar, Weight(opt.sigmaQPseudo))];
    if m.pKw.Some? {
      rows := rows + [MeasRow(MeterP, n, Unit(cols, 2 * i), m.pKw.value, Weight(opt.sigmaPMeter))];
    }
    if m.qKvar.Some? {
      rows := rows + [MeasRow(MeterQ, n, Unit(cols, 2 * i + 1), m.qKvar.value, Weight(opt.sigmaQMeter))];
    }
    if m.voltagePu.Some? {
      var row := VSensitivityRow(net, state, ip, n);
      rows := rows + [MeasRow(MeterV, n, row, 1.0 - m.voltagePu.value, Weight(opt.sigmaVMeter))];
    }
  }

  method BuildRows(net: Net, state: seq<NodeId>, ip: map<NodeId, nat>, meas: map<NodeId, Measurement>, opt: Options)
    returns (rows: seq<MeasRow>)
    requires NonZeroSigmas(opt) && StateOf(net, state) && ip == Index(state)
    ensures rows == Rows(net, state, meas, opt, |state|)
  {
    hide StateOf, NodeRows;
    rows := [];
    for i := 0 to |state|
      invariant rows == Rows(net, state, meas, opt, i)
    {
      var more := RowsOfNode(net, state, ip, meas, opt, i);
      rows := rows + more;
    }
  }

  /** `voltage_pu`: one minus the drops along the root path, each from the flows below. */
  method VoltagePu(net: Net, state: seq<NodeId>, x: Vector, node: NodeId) returns (v: real)
    requires StateOf(net, state) && |x| == 2 * |state| && node in net.tree.pathEdges
    ensures v == 1.0 - Drop(net, state, net.tree.pathEdges[node], x)
  {
    hide EdgeDrop, Injections, TotalR;
    var path := net.tree.pathEdges[node];
    var injP, injQ := Injections(state, x, 0), Injections(state, x, 1);
    v := 1.0;
    for j := 0 to |path|
      invariant v == 1.0 - Drop(net, state, path[..j], x)
    {
      var e := path[j];
      assert e in path;
      assert path[..j + 1][..j] == path[..j];
      var P := TotalROver(injP, net.subtree[e.id]);
      var Q := TotalROver(injQ, net.subtree[e.id]);
      v := v - EdgeDrop(net.pu[e.id], P, Q);
    }
    assert path[..|path|] == path;
  }

  /** The variance sum over a and b of h_a Ginv_ab h_b. */
  method QuadraticForm(ginv: Matrix, row: Vector) returns (q: real)
    requires IsMatrix(ginv, |row|, |row|)
    ensures q == Leverage(ginv, row)
  {
    hide Dot, Product;
    var n := |row|;
    ghost var u := MatVec(ginv, row);
    q := 0.0;
    assert Dot(row[..0], u[..0]) == 0.0 by { DotNothing(row[..0], u[..0]); }
    for a := 0 to n
      invariant q == Dot(row[..a], u[..a])
    {
      q := AddRowTerms(q, row[a], ginv[a], row);
      DotExtends(row, u, a);
    }
    assert row[..n] == row && u[..n] == u;
  }

  lemma DotNothing(a: Vector, b: Vector)
    requires a == b == []
    ensures Dot(a, b) == 0.0
  {
  }

  /** The terms k g_b r_b of one row. */
  method AddRowTerms(q0: real, k: real, g: Vector, row: Vector) returns (q: real)
    requires |g| == |row|
    ensures q == q0 + Product(k, Dot(g, row))
  {
    hide Dot, Product;
    q := q0;
    DotNothing(g[..0], row[..0]);
    ProductAdds(k, 0.0, 0.0);
    for b := 0 to |row|
      invariant q == q0 + Product(k, Dot(g[..b], row[..b]))
    {
      DotExtends(g, row, b);
      ProductAdds(k, Dot(g[..b], row[..b]), Product(g[b], row[b]));
      TripleProduct(k, g[b], row[b]);
      q := q + k * g[b] * row[b];
    }
    assert g[..|row|] == g && row[..|row|] == row;
  }

  lemma TripleProduct(a: real, b: real, c: real)
    ensures Product(a, Product(b, c)) == a * b * c
  {
  }

  lemma DotExtends(a: Vector, b: Vector, k: nat)
    requires k < |a| == |b|
    ensures Dot(a[..k + 1], b[..k + 1]) == Dot(a[..k], b[..k]) + Product(a[k], b[k])
  {
    OneDot(a[k], b[k]);
    hide Dot, Product;
    var p, q := a[..k + 1], b[..k + 1];
    DotSplits(p, q, k);
    assert p[..k] == a[..k] && q[..k] == b[..k] && p[k..] == [a[k]] && q[k..] == [b[k]];
  }

  lemma OneDot(x: real, y: real)
    ensures Dot([x], [y]) == Product(x, y)
  {
    assert Dot([], []) == 0.0;
  }

  lemma TransposeShape(h: Matrix, n: nat)
    requires n > 0 && h != [] && IsMatrix(h, |h|, n)
    ensures Transpose(h) != [] && IsMatrix(Transpose(h), n, |h|)
    ensures forall i :: 0 <= i < |h| ==> Column(Transpose(h), i) == h[i]
  {
    var t := Transpose(h);
    forall i | 0 <= i < |h| ensures Column(t, i) == h[i] {
      Same(Column(t, i), h[i]);
    }
  }

  lemma DiagonalIsLeverage(m: Matrix, h: Matrix, t: Matrix, n: nat, i: nat)
    requires n > 0 && IsMatrix(m, n, n) && IsMatrix(h, |h|, n) && IsMatrix(t, n, |h|) && i < |h|
    requires Column(t, i) == h[i]
    ensures Dot(h[i], Column(MatMul(m, t), i)) == Leverage(m, h[i])
  {
    hide Dot, MatMul, Column;
    forall c | 0 <= c < n ensures Column(MatMul(m, t), i)[c] == MatVec(m, h[i])[c] {
      assert MatMul(m, t)[c][i] == Dot(m[c], Column(t, i));
    }
    Same(Column(MatMul(m, t), i), MatVec(m, h[i]));
  }

  /** Omega_ii = 1/w_i - h_i Ginv h_i for every measurement, as the source computes it. */
  method ResidualVariances(h: Matrix, w: Vector, ginv: Matrix, n: nat) returns (omega: Vector)
    requires n > 0 && IsMatrix(ginv, n, n) && IsMatrix(h, |h|, n) && h != [] && |w| == |h| && Positive(w)
    ensures |omega| == |h| && forall i :: 0 <= i < |h| ==> omega[i] == 1.0 / w[i] - Leverage(ginv, h[i])
  {
    hide Dot, MatMul, Leverage, Transpose, Column;
    TransposeShape(h, n);
    var ht := Transpose(h);
    var ginvHt := MatMul(ginv, ht);
    omega := [];
    for i := 0 to |h|
      invariant |omega| == i
      invariant forall j :: 0 <= j < i ==> omega[j] == 1.0 / w[j] - Leverage(ginv, h[j])
    {
      DiagonalIsLeverage(ginv, h, ht, n, i);
      omega := omega + [1.0 / w[i] - Dot(h[i], Column(ginvHt, i))];
    }
  }

  ghost predicate StateIs(net: Net, state: seq<NodeId>) {
    net.tree.order != [] && state == net.tree.order[1..]
  }

  /** What a finished estimate promises. */
  ghost predicate IsEstimate(
    nodes: seq<Node>, edges: seq<Edge>, meas: map<NodeId, Measurement>, opt: Options, est: Estimate)
    requires NonZeroSigmas(opt)
  {
    && IsNet(nodes, edges, est.net) && StateIs(est.net, est.state) && StateOf(est.net, est.state)
    && est.rows == Rows(est.net, est.state, meas, opt, |est.state|)
    && IsMinimum(est.rows, est.x, 2 * |est.state|, est.objective)
    && AreResiduals(est.rows, est.x, est.residuals)
    && InvertsGain(est.rows, est.ginv, 2 * |est.state|)
    && AreResidualVariances(est.rows, est.ginv, 2 * |est.state|, est.residualVariances)
    && est.voltages.Keys == est.voltageVariances.Keys == est.net.tree.Nodes()
    && forall n :: n in est.voltages ==>
      IsVoltage(est.net, est.state, est.x, est.ginv, n, est.voltages[n], est.voltageVariances[n])
  }

  /** z - H x. */
  ghost predicate AreResiduals(rows: seq<MeasRow>, x: Vector, residuals: Vector) {
    && (forall i :: 0 <= i < |rows| ==> |rows[i].h| == |x|)
    && residuals == Sub(ZOf(rows), MatVec(HOf(rows), x))
  }

  /** The covariance is the inverse of the gain matrix, on both sides; without states
      there is none. */
  ghost predicate InvertsGain(rows: seq<MeasRow>, ginv: Matrix, cols: nat) {
    if cols == 0 || rows == [] then ginv == []
    else
      && (forall i :: 0 <= i < |rows| ==> |rows[i].h| == cols) && IsMatrix(ginv, cols, cols)
      && var g := Gain(HOf(rows), WOf(rows), cols);
         MatMul(g, ginv) == Identity(cols) && MatMul(ginv, g) == Identity(cols)
  }

  /** Omega_i = 1/w_i - h_i Ginv h_i, and it is never negative. */
  ghost predicate AreResidualVariances(rows: seq<MeasRow>, ginv: Matrix, cols: nat, omega: Vector) {
    && |omega| == |rows|
    && forall i :: 0 <= i < |rows| ==> IsResidualVariance(rows[i], ginv, cols, omega[i])
  }

  ghost predicate IsResidualVariance(row: MeasRow, ginv: Matrix, cols: nat, omega: real) {
    && |row.h| == cols && row.w > 0.0 && IsMatrix(ginv, cols, cols)
    && omega == 1.0 / row.w - Leverage(ginv, row.h) && omega >= 0.0
  }

  /** The voltage of a node from the flows below its path, which is also what its
      sensitivity row says, and the variance of that row, which is never negative. */
  ghost predicate IsVoltage(
    net: Net, state: seq<NodeId>, x: Vector, ginv: Matrix, n: NodeId, v: real, variance: real)
  {
    && n in net.tree.pathEdges && |x| == 2 * |state| && IsMatrix(ginv, |x|, |x|)
    && (forall e :: e in net.tree.pathEdges[n] ==> e.id in net.subtree && e.id in net.pu)
    && v == 1.0 - Drop(net, state, net.tree.pathEdges[n], x)
    && v == 1.0 - Dot(SensRow(net, state, net.tree.pathEdges[n]), x)
    && variance == Leverage(ginv, SensRow(net, state, net.tree.pathEdges[n])) && variance >= 0.0
  }

  /** `x` beats every other state vector on the weighted residual sum. */
  ghost predicate IsMinimum(rows: seq<MeasRow>, x: Vector, cols: nat, objective: real) {
    && |x| == cols && (forall i :: 0 <= i < |rows| ==> |rows[i].h| == cols)
    && objective == Objective(HOf(rows), WOf(rows), ZOf(rows), x)
    && forall y: Vector :: |y| == cols && y != x ==> objective < Objective(HOf(rows), WOf(rows), ZOf(rows), y)
  }

  lemma SolvedIsMinimum(rows: seq<MeasRow>, x: Vector, cols: nat)
    requires GoodRows(rows, cols, cols) && rows != [] && |x| == cols
    requires IsMatrix(HOf(rows), |rows|, cols)
    requires Solution(Gain(HOf(rows), WOf(rows), cols), RightSide(HOf(rows), WOf(rows), ZOf(rows), cols)) == Ok(x)
    ensures IsMinimum(rows, x, cols, Objective(HOf(rows), WOf(rows), ZOf(rows), x))
  {
    hide Solution, Gain, RightSide, Unit, GoodRows, Objective, Anchored, Positive;
    GoodRowsMeans(rows, cols);
    forall y: Vector | |y| == cols && y != x
      ensures Objective(HOf(rows), WOf(rows), ZOf(rows), x) < Objective(HOf(rows), WOf(rows), ZOf(rows), y)
    {
      EstimateMinimises(HOf(rows), WOf(rows), ZOf(rows), cols, x, y);
    }
  }

  lemma InverseInvertsGain(rows: seq<MeasRow>, cols: nat)
    requires rows != [] && cols > 0 && forall i :: 0 <= i < |rows| ==> |rows[i].h| == cols
    ensures IsMatrix(HOf(rows), |rows|, cols)
    ensures InverseOf(Gain(HOf(rows), WOf(rows), cols)).Ok? ==>
      InvertsGain(rows, InverseOf(Gain(HOf(rows), WOf(rows), cols)).value, cols)
  {
    hide InverseOf, Gain, MatMul;
    assert IsMatrix(HOf(rows), |rows|, cols);
    var g := Gain(HOf(rows), WOf(rows), cols);
    if InverseOf(g).Ok? { InverseIsTwoSided(g); }
  }

  /** `solve` takes the normal equations of these rows. */
  ghost predicate SolverAccepts(rows: seq<MeasRow>, cols: nat) {
    && rows != [] && IsMatrix(HOf(rows), |rows|, cols)
    && Solution(Gain(HOf(rows), WOf(rows), cols), RightSide(HOf(rows), WOf(rows), ZOf(rows), cols)).Ok?
  }

  /** The gain matrix of these rows is regular, yet `solve` gives up on it. */
  ghost predicate ToleranceRefuses(rows: seq<MeasRow>, cols: nat) {
    && rows != [] && IsMatrix(HOf(rows), |rows|, cols)
    && !Singular(Gain(HOf(rows), WOf(rows), cols)) && !SolverAccepts(rows, cols)
  }

  datatype Solved = Solved(x: Vector, objective: real, residuals: Vector, ginv: Matrix, omega: Vector)

  /** The solve itself: normal equations, solution, inverse and variances. */
  method SolveRows(rows: seq<MeasRow>, cols: nat) returns (r: Result<Solved>)
    requires GoodRows(rows, cols, cols) && rows != [] && cols > 0
    ensures r.Ok? ==>
      && IsMinimum(rows, r.value.x, cols, r.value.objective)
      && AreResiduals(rows, r.value.x, r.value.residuals)
      && IsMatrix(r.value.ginv, cols, cols) && InvertsGain(rows, r.value.ginv, cols)
      && AreResidualVariances(rows, r.value.ginv, cols, r.value.omega)
      && (forall row: Vector :: |row| == cols ==> Leverage(r.value.ginv, row) >= 0.0)
    ensures r.Err? ==> ToleranceRefuses(rows, cols)
    ensures r.Ok? <==> SolverAccepts(rows, cols)
  {
    hide Solution, InverseOf, Gain, RightSide, Leverage, Singular, Unit, IsMinimum, Weighted, Dot, MatMul, InvertsGain;
    GoodRowsMeans(rows, cols);
    var h, w, z := HOf(rows), WOf(rows), ZOf(rows);
    var g, rhs := Gain(h, w, cols), RightSide(h, w, z, cols);
    var solved := Solve(g, rhs);
    GainIsRegular(h, w, cols);
    if solved.Err? {
      return Err(solved.message);
    }
    var inverted := Invert(g);
    SolveAndInverseAgree(g, rhs);
    var x, ginv := solved.value, inverted.value;
    var residuals := Sub(z, MatVec(h, x));
    var omega := ResidualVariances(h, w, ginv, cols);
    InverseInvertsGain(rows, cols);
    forall i | 0 <= i < |rows| ensures IsResidualVariance(rows[i], ginv, cols, omega[i]) {
      VariancesNonNegative(h, w, cols, h[i]);
    }
    forall row: Vector | |row| == cols ensures Leverage(ginv, row) >= 0.0 {
      VariancesNonNegative(h, w, cols, row);
    }
    SolvedIsMinimum(rows, x, cols);
    r := Ok(Solved(x, Weighted(w, residuals), residuals, ginv, omega));
  }

  /** Voltages and their variances for every energized node. */
  method ReadVoltages(net: Net, state: seq<NodeId>, ip: map<NodeId, nat>, x: Vector, ginv: Matrix)
    returns (voltages: map<NodeId, real>, variances: map<NodeId, real>)
    requires StateOf(net, state) && ip == Index(state) && |x| == 2 * |state| && IsMatrix(ginv, |x|, |x|)
    requires forall row: Vector :: |row| == |x| ==> Leverage(ginv, row) >= 0.0
    ensures voltages.Keys == variances.Keys == net.tree.Nodes()
    ensures forall n :: n in voltages ==> IsVoltage(net, state, x, ginv, n, voltages[n], variances[n])
  {
    hide Leverage, Dot, SensRow, Drop, Index;
    voltages, variances := map[], map[];
    var todo := net.tree.pathEdges.Keys;
    while todo != {}
      invariant voltages.Keys == variances.Keys == net.tree.Nodes() - todo && todo <= net.tree.Nodes()
      invariant forall n :: n in voltages ==> IsVoltage(net, state, x, ginv, n, voltages[n], variances[n])
      decreases todo
    {
      var n :| n in todo;
      var v := VoltagePu(net, state, x, n);
      RowIsDrop(net, state, net.tree.pathEdges[n], x);
      var row := VSensitivityRow(net, state, ip, n);
      var q := QuadraticForm(ginv, row);
      voltages, variances := voltages[n := v], variances[n := q];
      todo := todo - {n};
    }
  }

  lemma TailIsState(net: Net, order: seq<NodeId>)
    requires SubtreesOk(net) && order != [] && Distinct(order) && Elems(order) == net.tree.Nodes()
    ensures StateOf(net, order[1..])
  {
    hide Below;
    AllPathsKnown(net);
    var state := order[1..];
    forall i, j | 0 <= i < j < |state| ensures state[i] != state[j] {
      assert order[i + 1] != order[j + 1];
    }
    forall n | n in state ensures n in net.tree.pathEdges && n in net.byId {
      assert n in Elems(order);
    }
  }

  lemma TailOfOrder(nodes: seq<Node>, edges: seq<Edge>, net: Net)
    requires IsNet(nodes, edges, net)
    ensures StateIs(net, net.tree.order[1..]) && StateOf(net, net.tree.order[1..])
    ensures net.tree.order[1..] == [] ==> net.tree.Nodes() == {net.tree.root}
  {
    hide Reach, Below, ParentOk, SubtreesOk;
    TailIsState(net, net.tree.order);
    assert net.tree.order == [net.tree.order[0]] + net.tree.order[1..];
  }

  /** Some spanning tree's gain matrix is regular but refused for a small pivot. */
  ghost predicate RefusedByTolerance(nodes: seq<Node>, edges: seq<Edge>, meas: map<NodeId, Measurement>, opt: Options)
    requires NonZeroSigmas(opt)
  {
    exists net: Net, state: seq<NodeId> ::
      && IsNet(nodes, edges, net) && StateIs(net, state) && StateOf(net, state)
      && ToleranceRefuses(Rows(net, state, meas, opt, |state|), 2 * |state|)
  }

  /** Energized nodes besides the source: two state variables for each. */
  ghost function StateSize(nodes: seq<Node>, edges: seq<Edge>): int
    requires SourceList(nodes) != []
  {
    |Reach(ClosedLinks(edges), {SourceList(nodes)[0]})| - 1
  }

  /** Both pseudo weights reach the tolerance as often as there are state variables. */
  ghost predicate PseudoHeavy(nodes: seq<Node>, edges: seq<Edge>, opt: Options)
    requires NonZeroSigmas(opt) && SourceList(nodes) != []
  {
    var least := Product(PIVOT_TOL, (2 * StateSize(nodes, edges)) as real);
    Weight(opt.sigmaPPseudo) >= least && Weight(opt.sigmaQPseudo) >= least
  }

  lemma StateSizeIs(nodes: seq<Node>, edges: seq<Edge>, net: Net)
    requires IsNet(nodes, edges, net)
    ensures SourceList(nodes) != [] && net.tree.order != [] && StateSize(nodes, edges) == |net.tree.order[1..]|
  {
    hide Reach, Below, ParentOk, SubtreesOk;
    DistinctCount(net.tree.order);
  }

  lemma HeavyStateAccepted(
      nodes: seq<Node>, edges: seq<Edge>, net: Net, state: seq<NodeId>, meas: map<NodeId, Measurement>, opt: Options)
    requires NonZeroSigmas(opt) && IsNet(nodes, edges, net) && StateIs(net, state) && StateOf(net, state) && state != []
    requires SourceList(nodes) != [] && PseudoHeavy(nodes, edges, opt)
    ensures SolverAccepts(Rows(net, state, meas, opt, |state|), 2 * |state|)
  {
    hide IsNet, StateOf, Rows, Weight, Product, GoodRows, HeavyRows, Gain, Solution, RightSide;
    StateSizeIs(nodes, edges, net);
    SomeRow(net, state, meas, opt);
    RowsAreGood(net, state, meas, opt, |state|);
    PseudoRowsAreHeavy(net, state, meas, opt, |state|, Product(PIVOT_TOL, (2 * |state|) as real));
    var rows := Rows(net, state, meas, opt, |state|);
    GoodRowsMeans(rows, 2 * |state|);
    HeavyRowsAccepted(rows, 2 * |state|, RightSide(HOf(rows), WOf(rows), ZOf(rows), 2 * |state|));
  }

  lemma UntelemeteredState(net: Net, state: seq<NodeId>, meas: map<NodeId, Measurement>, opt: Options)
    requires NonZeroSigmas(opt) && StateOf(net, state) && state != [] && NoTelemetry(meas)
    ensures SolverAccepts(Rows(net, state, meas, opt, |state|), 2 * |state|) <==> !PseudoTooLight(opt)
  {
    hide StateOf, Rows, Weight, Gain, Solution, PseudoOnly, PseudoTooLight, RightSide, GoodRows;
    UntelemeteredRows(net, state, meas, opt, |state|);
    RowsAreGood(net, state, meas, opt, |state|);
    var rows := Rows(net, state, meas, opt, |state|);
    GoodRowsMeans(rows, 2 * |state|);
    UntelemeteredRefusal(rows, 2 * |state|, opt, RightSide(HOf(rows), WOf(rows), ZOf(rows), 2 * |state|));
  }

  /** `estimate`. The only ways it can fail are a network without a substation and a gain
      matrix that is regular but meets a pivot under the tolerance. */
  method RunEstimate(nodes: seq<Node>, edges: seq<Edge>, meas: map<NodeId, Measurement>, opt: Options)
    returns (r: Result<Estimate>)
    requires WellFormed(nodes, edges) && NonZeroSigmas(opt)
    ensures r.Ok? ==> IsEstimate(nodes, edges, meas, opt, r.value)
    ensures SourceList(nodes) == [] ==> r.Err?
    ensures r.Err? && SourceList(nodes) != [] ==> RefusedByTolerance(nodes, edges, meas, opt)
    ensures SourceList(nodes) != [] && PseudoHeavy(nodes, edges, opt) ==> r.Ok?
    ensures SourceList(nodes) != [] && NoTelemetry(meas) ==>
      (r.Err? <==> StateSize(nodes, edges) > 0 && PseudoTooLight(opt))
  {
    hide *;
    var built := BuildRadial(nodes, edges);
    if built.Err? {
      return Err(built.message);
    }
    var net := built.value;
    TailOfOrder(nodes, edges, net);
    StateSizeIs(nodes, edges, net);
    var state := net.tree.order[1..];
    var ip := Index(state);
    var rows := BuildRows(net, state, ip, meas, opt);
    if state == [] {
      r := Ok(TrivialEstimate(net));
      TrivialIsEstimate(nodes, edges, meas, opt, net);
      return;
    }
    RowsAreGood(net, state, meas, opt, |state|);
    SomeRow(net, state, meas, opt);
    var solved := SolveRows(rows, 2 * |state|);
    if PseudoHeavy(nodes, edges, opt) { HeavyStateAccepted(nodes, edges, net, state, meas, opt); }
    if NoTelemetry(meas) { UntelemeteredState(net, state, meas, opt); }
    if solved.Err? {
      RefusedIsWitness(nodes, edges, meas, opt, net, state);
      return Err(solved.message);
    }
    var s := solved.value;
    MinimumSize(rows, s.x, 2 * |state|, s.objective);
    var voltages, variances := ReadVoltages(net, state, ip, s.x, s.ginv);
    r := Ok(Estimate(net, state, rows, s.x, s.objective, s.residuals, s.ginv, s.omega, voltages, variances));
    EstimateAssembled(nodes, edges, meas, opt, r.value);
  }

  lemma RefusedIsWitness(
      nodes: seq<Node>, edges: seq<Edge>, meas: map<NodeId, Measurement>, opt: Options, net: Net, state: seq<NodeId>)
    requires NonZeroSigmas(opt) && IsNet(nodes, edges, net) && StateIs(net, state) && StateOf(net, state)
    requires ToleranceRefuses(Rows(net, state, meas, opt, |state|), 2 * |state|)
    ensures RefusedByTolerance(nodes, edges, meas, opt)
  {
    hide IsNet, StateIs, StateOf, ToleranceRefuses, Rows;
  }

  lemma EstimateAssembled(
      nodes: seq<Node>, edges: seq<Edge>, meas: map<NodeId, Measurement>, opt: Options, est: Estimate)
    requires NonZeroSigmas(opt)
    requires IsNet(nodes, edges, est.net) && StateIs(est.net, est.state) && StateOf(est.net, est.state)
    requires est.rows == Rows(est.net, est.state, meas, opt, |est.state|)
    requires IsMinimum(est.rows, est.x, 2 * |est.state|, est.objective)
    requires AreResiduals(est.rows, est.x, est.residuals)
    requires InvertsGain(est.rows, est.ginv, 2 * |est.state|)
    requires AreResidualVariances(est.rows, est.ginv, 2 * |est.state|, est.residualVariances)
    requires est.voltages.Keys == est.voltageVariances.Keys == est.net.tree.Nodes()
    requires forall n :: n in est.voltages ==>
      IsVoltage(est.net, est.state, est.x, est.ginv, n, est.voltages[n], est.voltageVariances[n])
    ensures IsEstimate(nodes, edges, meas, opt, est)
  {
    hide IsNet, StateIs, StateOf, Rows, IsMinimum, InvertsGain, AreResiduals, AreResidualVariances, IsVoltage;
  }

  lemma MinimumSize(rows: seq<MeasRow>, x: Vector, cols: nat, objective: real)
    requires IsMinimum(rows, x, cols, objective)
    ensures |x| == cols && forall i :: 0 <= i < |rows| ==> |rows[i].h| == cols
  {
  }

  lemma SomeRow(net: Net, state: seq<NodeId>, meas: map<NodeId, Measurement>, opt: Options)
    requires NonZeroSigmas(opt) && StateOf(net, state) && state != []
    ensures Rows(net, state, meas, opt, |state|) != []
  {
  }

  /** Nothing energized beyond the source. */
  function TrivialEstimate(net: Net): Estimate {
    Estimate(net, [], [], [], 0.0, [], [], [], map[net.tree.root := 1.0], map[net.tree.root := 0.0])
  }

  lemma TrivialIsEstimate(
      nodes: seq<Node>, edges: seq<Edge>, meas: map<NodeId, Measurement>, opt: Options, net: Net)
    requires NonZeroSigmas(opt) && IsNet(nodes, edges, net)
    requires net.tree.order != [] && net.tree.order[1..] == []
    requires StateOf(net, []) && net.tree.Nodes() == {net.tree.root}
    ensures IsEstimate(nodes, edges, meas, opt, TrivialEstimate(net))
  {
    hide Reach, Below, ParentOk, Rooted;
    var est := TrivialEstimate(net);
    assert est.net.tree.pathEdges[net.tree.root] == [];
    assert HOf([]) == [] && ZOf([]) == [] && WOf([]) == [];
    assert Sub([], []) == [];
  }

  // ---- which pseudo weights the solver takes -------------------------------

  /** With the default pseudo sigmas, 30 kW and 20 kvar, no feeder of up to half a billion
      nodes is refused. */
  lemma DefaultsAreHeavy(nodes: seq<Node>, edges: seq<Edge>, opt: Options)
    requires NonZeroSigmas(opt) && opt.sigmaPPseudo == 30.0 && opt.sigmaQPseudo == 20.0
    requires SourceList(nodes) != [] && StateSize(nodes, edges) <= 500_000_000
    ensures PseudoHeavy(nodes, edges, opt)
  {
    hide StateSize;
    var size := (2 * StateSize(nodes, edges)) as real;
    ProductNonNegative(PIVOT_TOL, 1_000_000_000.0 - size);
    assert Product(PIVOT_TOL, 1_000_000_000.0 - size) == 0.001 - Product(PIVOT_TOL, size);
  }

  function LightFeederNodes(): seq<Node> {
    [Node(0, Substation, 0.4, 0.0, 0.0, {A}), Node(1, Load, 0.4, 5.0, 1.0, {A})]
  }

  function LightFeederEdges(): seq<Edge> {
    [Edge(0, 0, 1, Line, true, true, false, false, 0.1, 0.1, {A})]
  }

  lemma LightFeederReach()
    ensures Reach(ClosedLinks(LightFeederEdges()), {0}) == {0, 1}
  {
    var e := LightFeederEdges()[0];
    assert e in LightFeederEdges();
    assert ClosedLinks(LightFeederEdges()) == {Link(0, 0, 1)};
    ReachIsLeast({Link(0, 0, 1)}, {0});
    hide Reach;
    assert Link(0, 0, 1) in {Link(0, 0, 1)};
    assert Closed({Link(0, 0, 1)}, {0, 1});
  }

  /** A substation and one load, a pseudo sigma of two million kW and no telemetry meet
      the condition under which `RunEstimate` must fail. */
  lemma LightFeederIsRefused(opt: Options)
    requires NonZeroSigmas(opt) && opt.sigmaPPseudo == 2_000_000.0
    ensures WellFormed(LightFeederNodes(), LightFeederEdges()) && NoTelemetry(map[])
    ensures SourceList(LightFeederNodes()) == [0]
    ensures StateSize(LightFeederNodes(), LightFeederEdges()) == 1 && PseudoTooLight(opt)
  {
    hide Reach;
    LightFeederReach();
    var nodes := LightFeederNodes();
    assert nodes[0] in nodes && nodes[1] in nodes;
    assert SourceList(nodes) == [0] + SourceList(nodes[1..]);
    assert SourceList(nodes[1..]) == SourceList(nodes[1..][1..]);
  }
}

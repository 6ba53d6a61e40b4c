/** Exhaustive switching: every state of the reconfigurable switches is evaluated and the
    least (loss, switches changed) wins. */
module Reconfiguration {
  import opened Graph
  import opened Grid
  import opened Results
  import opened Restoration
  import opened Sums
  import opened LoadFlow
  import opened Sequences

  /** Switches eligible for reconfiguration: switchable sectionalizers and ties, the
      breakers that island a device left out. */
  predicate IsReconfigurable(e: Edge) {
    e.isSwitchable && e.kind in {Switch, Tie} && !e.islandingBreaker
  }

  function SwitchIds(edges: seq<Edge>): (ids: seq<EdgeId>)
    ensures forall id :: id in ids <==> exists e :: e in edges && IsReconfigurable(e) && e.id == id
  {
    if edges == [] then []
    else
      var e := edges[|edges| - 1];
      SwitchIds(edges[..|edges| - 1]) + if IsReconfigurable(e) then [e.id] else []
  }

  ghost predicate Feasible(nodes: seq<Node>, edges: seq<Edge>) {
    && SourceList(nodes) != []
    && IsRadial(nodes, edges, EnergizedBy(nodes, edges))
    && forall n :: n in nodes && n.kind in {Load, Meter} ==> n.id in EnergizedBy(nodes, edges)
  }

  method RadialFeasible(nodes: seq<Node>, edges: seq<Edge>) returns (ok: bool, energized: set<NodeId>)
    requires WellFormed(nodes, edges)
    ensures ok <==> Feasible(nodes, edges)
    ensures SourceList(nodes) != [] ==> energized == EnergizedBy(nodes, edges)
  {
    hide Reach, WellFormed;
    if SourceList(nodes) == [] {
      return false, {};
    }
    energized := FindEnergized(nodes, edges);
    if !IsRadial(nodes, edges, energized) {
      return false, energized;
    }
    for i := 0 to |nodes|
      invariant forall j :: 0 <= j < i && nodes[j].kind in {Load, Meter} ==> nodes[j].id in energized
    {
      if nodes[i].kind in {Load, Meter} && nodes[i].id !in energized {
        assert nodes[i] in nodes;
        return false, energized;
      }
    }
    ok := true;
  }

  /** A configuration is feasible exactly when the energized network is a forest with one
      substation in every tree and every load and meter is in it. */
  lemma FeasibleMeansForest(nodes: seq<Node>, edges: seq<Edge>)
    requires WellFormed(nodes, edges)
    ensures Feasible(nodes, edges) <==>
      && Sources(nodes) != {}
      && RadialForest(ClosedLinks(edges), Sources(nodes))
      && forall n :: n in nodes && n.kind in {Load, Meter} ==> n.id in Reach(ClosedLinks(edges), Sources(nodes))
  {
    hide Reach, RadialForest;
    RadialTestIsExact(nodes, edges);
    if SourceList(nodes) != [] { assert SourceList(nodes)[0] in Sources(nodes); }
    if Sources(nodes) != {} {
      var s :| s in Sources(nodes);
      assert s in SourceList(nodes);
    }
  }

  datatype Metrics = Metrics(lossKw: real, violations: nat)

  /** What a power flow reports of the network; it is solved for feasible ones only. */
  ghost function FlowAt(nodes: seq<Node>, setup: Setup, edges: seq<Edge>): FlowSummary {
    if exists f :: Solved(nodes, edges, setup, f) then var f :| Solved(nodes, edges, setup, f); f
    else FlowSummary(false, 0, 0.0)
  }

  ghost function Evaluation(nodes: seq<Node>, setup: Setup, edges: seq<Edge>): Option<Metrics> {
    var f := FlowAt(nodes, setup, edges);
    if Feasible(nodes, edges) && f.converged then Some(Metrics(f.lossKw, f.violations)) else None
  }

  /** Any solve of a feasible configuration reports the same. */
  lemma FlowIsSolved(nodes: seq<Node>, setup: Setup, edges: seq<Edge>, f: FlowSummary)
    requires WellFormed(nodes, edges) && Feasible(nodes, edges) && Solved(nodes, edges, setup, f)
    ensures FlowAt(nodes, setup, edges) == f
  {
    hide Solved, WellFormed, IsRadial, EnergizedBy;
    RadialSolvedOnce(nodes, edges, setup, FlowAt(nodes, setup, edges), f);
  }

  lemma EvaluationIs(nodes: seq<Node>, setup: Setup, edges: seq<Edge>, f: FlowSummary)
    requires WellFormed(nodes, edges) && Feasible(nodes, edges) && Solved(nodes, edges, setup, f)
    ensures Evaluation(nodes, setup, edges) == if f.converged then Some(Metrics(f.lossKw, f.violations)) else None
  {
    hide Feasible, Solved, WellFormed;
    FlowIsSolved(nodes, setup, edges, f);
  }

  lemma NotEvaluated(nodes: seq<Node>, setup: Setup, edges: seq<Edge>)
    requires !Feasible(nodes, edges)
    ensures Evaluation(nodes, setup, edges) == None
  {
    hide Feasible, FlowAt;
  }

  method Evaluate(nodes: seq<Node>, setup: Setup, edges: seq<Edge>) returns (r: Option<Metrics>)
    requires WellFormed(nodes, edges) && GoodSetup(setup)
    ensures r == Evaluation(nodes, setup, edges)
  {
    hide Evaluation, WellFormed, GoodSetup, Solved, IsRadial, EnergizedBy;
    var ok, energized := RadialFeasible(nodes, edges);
    if !ok {
      NotEvaluated(nodes, setup, edges);
      return None;
    }
    var solved := Solve(nodes, edges, setup);
    var res := solved.value;
    EvaluationIs(nodes, setup, edges, res);
    if !res.converged {
      return None;
    }
    r := Some(Metrics(res.lossKw, res.violations));
  }

  // ---- switch states -------------------------------------------------------

  type State = seq<bool>

  /** The edges with each listed switch set as `state` says. */
  function Configured(edges: seq<Edge>, ids: seq<EdgeId>, state: State): seq<Edge>
    requires |state| == |ids|
  {
    if ids == [] then edges
    else
      var k := |ids| - 1;
      Toggle(Configured(edges, ids[..k], state[..k]), ids[k], state[k])
  }

  /** `itertools.product([False, True], repeat=k)`. */
  function States(k: nat): (s: seq<State>)
    ensures forall c :: c in s ==> |c| == k
  {
    if k == 0 then [[]] else Prefixed(false, States(k - 1)) + Prefixed(true, States(k - 1))
  }

  function Prefixed(b: bool, s: seq<State>): (r: seq<State>)
    ensures |r| == |s| && forall i :: 0 <= i < |s| ==> r[i] == [b] + s[i]
  {
    if s == [] then [] else [[b] + s[0]] + Prefixed(b, s[1..])
  }

  function Pow2(k: nat): nat {
    if k == 0 then 1 else 2 * Pow2(k - 1)
  }

  lemma {:induction false} StateIsListed(k: nat, c: State)
    requires |c| == k
    ensures c in States(k)
  {
    hide Prefixed;
    if k == 0 {
      assert c == [];
    } else {
      StateIsListed(k - 1, c[1..]);
      PrefixedHas(c[0], States(k - 1), c);
      InEither(c, Prefixed(false, States(k - 1)), Prefixed(true, States(k - 1)));
    }
  }

  lemma InEither(c: State, a: seq<State>, b: seq<State>)
    ensures c in a || c in b <==> c in a + b
  {
  }

  lemma PrefixedHas(b: bool, s: seq<State>, c: State)
    requires c != [] && c[0] == b && c[1..] in s
    ensures c in Prefixed(b, s)
  {
    var j :| 0 <= j < |s| && s[j] == c[1..];
    assert c == [b] + s[j];
    assert Prefixed(b, s)[j] == c;
  }

  lemma PrefixedDistinct(b: bool, s: seq<State>)
    requires Distinct(s)
    ensures Distinct(Prefixed(b, s))
  {
    var p := Prefixed(b, s);
    forall i, j | 0 <= i < j < |p| ensures p[i] != p[j] {
      assert p[i][1..] == s[i] && p[j][1..] == s[j];
    }
  }

  lemma HalvesDistinct(s: seq<State>)
    requires Distinct(s)
    ensures Distinct(Prefixed(false, s) + Prefixed(true, s))
  {
    var a, b := Prefixed(false, s), Prefixed(true, s);
    PrefixedDistinct(false, s);
    PrefixedDistinct(true, s);
    assert forall i, j :: 0 <= i < |a| && 0 <= j < |b| ==> a[i][0] != b[j][0];
    hide Prefixed;
    JoinDistinct(a, b);
  }

  lemma JoinDistinct(a: seq<State>, b: seq<State>)
    requires Distinct(a) && Distinct(b) && forall i, j :: 0 <= i < |a| && 0 <= j < |b| ==> a[i] != b[j]
    ensures Distinct(a + b)
  {
  }

  lemma {:induction false} StatesDistinct(k: nat)
    ensures |States(k)| == Pow2(k) && Distinct(States(k))
  {
    hide Prefixed, Distinct, States;
    StatesUnfold(k);
    if k == 0 {
      OneStateDistinct();
    } else {
      StatesDistinct(k - 1);
      HalvesDistinct(States(k - 1));
    }
  }

  lemma StatesUnfold(k: nat)
    ensures k == 0 ==> States(k) == [[]]
    ensures k > 0 ==> States(k) == Prefixed(false, States(k - 1)) + Prefixed(true, States(k - 1))
  {
  }

  lemma OneStateDistinct()
    ensures Distinct<State>([[]])
  {
  }

  /** Every one of the 2^k switch states is listed, and none twice. */
  lemma StatesAreAll(k: nat, c: State)
    requires |c| == k
    ensures c in States(k) && |States(k)| == Pow2(k) && Distinct(States(k))
  {
    StateIsListed(k, c);
    StatesDistinct(k);
  }

  function ClosedIn(edges: seq<Edge>, id: EdgeId): bool {
    exists e :: e in edges && e.id == id && e.isClosed
  }

  function PresentState(edges: seq<Edge>, ids: seq<EdgeId>): (s: State)
    ensures |s| == |ids| && forall i :: 0 <= i < |ids| ==> s[i] == ClosedIn(edges, ids[i])
  {
    if ids == [] then [] else PresentState(edges, ids[..|ids| - 1]) + [ClosedIn(edges, ids[|ids| - 1])]
  }

  lemma ToggleToSame(edges: seq<Edge>, id: EdgeId)
    requires UniqueIds(edges)
    ensures Toggle(edges, id, ClosedIn(edges, id)) == edges
  {
  }

  /** The present switch positions configure the network as it stands. */
  lemma {:induction false} PresentIsConfigured(edges: seq<Edge>, ids: seq<EdgeId>)
    requires UniqueIds(edges)
    ensures Configured(edges, ids, PresentState(edges, ids)) == edges
  {
    if ids != [] {
      var k := |ids| - 1;
      PresentIsConfigured(edges, ids[..k]);
      assert PresentState(edges, ids)[..k] == PresentState(edges, ids[..k]);
      ToggleToSame(edges, ids[k]);
    }
  }

  lemma {:induction false} ConfiguredWellFormed(nodes: seq<Node>, edges: seq<Edge>, ids: seq<EdgeId>, state: State)
    requires WellFormed(nodes, edges) && |state| == |ids|
    ensures WellFormed(nodes, Configured(edges, ids, state))
  {
    if ids != [] {
      var k := |ids| - 1;
      ConfiguredWellFormed(nodes, edges, ids[..k], state[..k]);
      ToggleWellFormed(nodes, Configured(edges, ids[..k], state[..k]), ids[k], state[k]);
    }
  }

  function Changes(a: State, b: State): nat
    requires |a| == |b|
  {
    if a == [] then 0
    else Changes(a[..|a| - 1], b[..|b| - 1]) + if a[|a| - 1] != b[|b| - 1] then 1 else 0
  }

  lemma {:induction false} NoChanges(a: State, b: State)
    requires |a| == |b|
    ensures Changes(a, b) == 0 <==> a == b
  {
    if a != [] {
      var k := |a| - 1;
      NoChanges(a[..k], b[..k]);
      assert a == a[..k] + [a[k]] && b == b[..k] + [b[k]];
    }
  }

  // ---- the search ----------------------------------------------------------

  const EPS: real := 0.000001

  datatype Best = Best(metrics: Metrics, state: State, changes: nat)

  ghost function EvalAt(nodes: seq<Node>, setup: Setup, edges: seq<Edge>, ids: seq<EdgeId>, c: State): Option<Metrics>
    requires |c| == |ids|
  {
    Evaluation(nodes, setup, Configured(edges, ids, c))
  }

  /** `best` is the evaluation of a state that was looked at. */
  ghost predicate IsCandidateBest(
    nodes: seq<Node>, setup: Setup, edges: seq<Edge>, ids: seq<EdgeId>, b: Best)
  {
    && |b.state| == |ids| && EvalAt(nodes, setup, edges, ids, b.state) == Some(b.metrics)
    && b.changes == Changes(b.state, PresentState(edges, ids))
  }

  predicate LexLess(loss: real, changes: nat, loss': real, changes': nat) {
    loss < loss' || (loss == loss' && changes < changes')
  }

  function GridPoint(n: int): real {
    n as real / 1000.0
  }

  /** The losses a power flow reports are rounded to three places. */
  ghost predicate OnGrid(x: real) {
    exists n :: x == GridPoint(n)
  }

  /** Two losses on the grid are equal when they are within the tolerance. */
  lemma GridSeparates(x: real, y: real)
    requires OnGrid(x) && OnGrid(y)
    ensures x < y - EPS <==> x < y
    ensures -EPS <= x - y <= EPS <==> x == y
  {
    var m :| x == GridPoint(m);
    var n :| y == GridPoint(n);
    if m < n { assert (m + 1) as real <= n as real; }
    if n < m { assert (n + 1) as real <= m as real; }
  }

  /** Against the state at `q`, the best one at `p` loses less or changes fewer switches;
      an even state stays behind only when it was seen later. */
  ghost predicate NotBefore(
    nodes: seq<Node>, setup: Setup, edges: seq<Edge>, ids: seq<EdgeId>, seen: seq<State>, b: Best,
    p: nat, q: nat)
    requires q < |seen| && |seen[q]| == |ids|
  {
    var m, changes := EvalAt(nodes, setup, edges, ids, seen[q]), Changes(seen[q], PresentState(edges, ids));
    && (m.Some? && q < p ==> LexLess(b.metrics.lossKw, b.changes, m.value.lossKw, changes))
    && (m.Some? && q >= p ==> !LexLess(m.value.lossKw, changes, b.metrics.lossKw, b.changes))
  }

  ghost predicate FirstAt(
    nodes: seq<Node>, setup: Setup, edges: seq<Edge>, ids: seq<EdgeId>, seen: seq<State>, b: Best, p: nat)
    requires forall c :: c in seen ==> |c| == |ids|
  {
    && p < |seen| && seen[p] == b.state
    && forall q: nat :: q < |seen| ==> NotBefore(nodes, setup, edges, ids, seen, b, p, q)
  }

  /** The best state is the first of the least (loss, changes) among those seen. */
  ghost predicate LexBest(
    nodes: seq<Node>, setup: Setup, edges: seq<Edge>, ids: seq<EdgeId>, seen: seq<State>, best: Option<Best>)
    requires forall c :: c in seen ==> |c| == |ids|
  {
    match best
    case None => forall c :: c in seen ==> EvalAt(nodes, setup, edges, ids, c) == None
    case Some(b) =>
      && IsCandidateBest(nodes, setup, edges, ids, b)
      && exists p: nat :: FirstAt(nodes, setup, edges, ids, seen, b, p)
  }

  /** How many of the states are feasible. */
  ghost function FeasibleCount(
    nodes: seq<Node>, setup: Setup, edges: seq<Edge>, ids: seq<EdgeId>, seen: seq<State>): (k: nat)
    requires forall c :: c in seen ==> |c| == |ids|
    ensures k <= |seen|
  {
    if seen == [] then 0
    else
      var last := |seen| - 1;
      assert seen[last] in seen;
      FeasibleCount(nodes, setup, edges, ids, seen[..last])
      + if EvalAt(nodes, setup, edges, ids, seen[last]).Some? then 1 else 0
  }

  lemma CountStep(
      nodes: seq<Node>, setup: Setup, edges: seq<Edge>, ids: seq<EdgeId>, seen: seq<State>, c: State)
    requires (forall x :: x in seen ==> |x| == |ids|) && |c| == |ids|
    ensures forall x :: x in seen + [c] ==> |x| == |ids|
    ensures FeasibleCount(nodes, setup, edges, ids, seen + [c])
      == FeasibleCount(nodes, setup, edges, ids, seen) + if EvalAt(nodes, setup, edges, ids, c).Some? then 1 else 0
  {
    hide EvalAt;
    assert (seen + [c])[..|seen|] == seen && (seen + [c])[|seen|] == c;
  }

  /** The replacement rule of the search loop. */
  function Improve(best: Option<Best>, m: Metrics, c: State, changes: nat): Option<Best> {
    match best
    case None => Some(Best(m, c, changes))
    case Some(b) =>
      if m.lossKw < b.metrics.lossKw - EPS
        || (-EPS <= m.lossKw - b.metrics.lossKw <= EPS && changes < b.changes)
      then Some(Best(m, c, changes)) else best
  }

  lemma KeptFirst(
      nodes: seq<Node>, setup: Setup, edges: seq<Edge>, ids: seq<EdgeId>, seen: seq<State>,
      b: Best, c: State)
    requires (forall x :: x in seen ==> |x| == |ids|) && |c| == |ids|
    requires LexBest(nodes, setup, edges, ids, seen, Some(b))
    requires EvalAt(nodes, setup, edges, ids, c).Some? ==>
      !LexLess(
        EvalAt(nodes, setup, edges, ids, c).value.lossKw, Changes(c, PresentState(edges, ids)),
        b.metrics.lossKw, b.changes)
    ensures forall x :: x in seen + [c] ==> |x| == |ids|
    ensures LexBest(nodes, setup, edges, ids, seen + [c], Some(b))
  {
    hide EvalAt, Changes, PresentState, LexLess, IsCandidateBest;
    var p: nat :| FirstAt(nodes, setup, edges, ids, seen, b, p);
    forall q: nat | q < |seen + [c]| ensures NotBefore(nodes, setup, edges, ids, seen + [c], b, p, q) {
      if q < |seen| { assert NotBefore(nodes, setup, edges, ids, seen, b, p, q); }
    }
    assert FirstAt(nodes, setup, edges, ids, seen + [c], b, p);
  }

  lemma BecomesFirst(
      nodes: seq<Node>, setup: Setup, edges: seq<Edge>, ids: seq<EdgeId>, seen: seq<State>,
      best: Option<Best>, b: Best)
    requires (forall x :: x in seen ==> |x| == |ids|) && LexBest(nodes, setup, edges, ids, seen, best)
    requires IsCandidateBest(nodes, setup, edges, ids, b)
    requires best.Some? ==> LexLess(b.metrics.lossKw, b.changes, best.value.metrics.lossKw, best.value.changes)
    ensures forall x :: x in seen + [b.state] ==> |x| == |ids|
    ensures LexBest(nodes, setup, edges, ids, seen + [b.state], Some(b))
  {
    hide EvalAt, Changes, PresentState;
    var all, p := seen + [b.state], |seen|;
    forall q: nat | q < |all| ensures NotBefore(nodes, setup, edges, ids, all, b, p, q) {
      if q < p {
        assert all[q] == seen[q] && seen[q] in seen;
        if best.Some? {
          var was: nat :| FirstAt(nodes, setup, edges, ids, seen, best.value, was);
          assert NotBefore(nodes, setup, edges, ids, seen, best.value, was, q);
        }
      }
    }
    assert FirstAt(nodes, setup, edges, ids, all, b, p);
  }

  lemma ImproveIsLex(best: Best, m: Metrics, c: State, changes: nat)
    requires OnGrid(m.lossKw) && OnGrid(best.metrics.lossKw)
    ensures Improve(Some(best), m, c, changes)
      == Some(if LexLess(m.lossKw, changes, best.metrics.lossKw, best.changes) then Best(m, c, changes) else best)
  {
    GridSeparates(m.lossKw, best.metrics.lossKw);
  }

  lemma EvaluatedOnGrid(nodes: seq<Node>, setup: Setup, edges: seq<Edge>, ids: seq<EdgeId>, c: State)
    requires |c| == |ids| && EvalAt(nodes, setup, edges, ids, c).Some?
    ensures OnGrid(EvalAt(nodes, setup, edges, ids, c).value.lossKw)
  {
    hide Feasible, OnGrid, Solved;
    SolvedOnGrid(nodes, setup, Configured(edges, ids, c), FlowAt(nodes, setup, Configured(edges, ids, c)));
  }

  lemma SolvedOnGrid(nodes: seq<Node>, setup: Setup, edges: seq<Edge>, f: FlowSummary)
    requires Solved(nodes, edges, setup, f)
    ensures OnGrid(f.lossKw)
  {
    hide Solved, OnGrid;
    var loss := LossIsRounded(nodes, edges, setup, f);
    ReportedLossOnGrid(loss);
  }

  lemma LexStep(
      nodes: seq<Node>, setup: Setup, edges: seq<Edge>, ids: seq<EdgeId>, seen: seq<State>,
      best: Option<Best>, c: State)
    requires (forall x :: x in seen ==> |x| == |ids|) && |c| == |ids|
    requires LexBest(nodes, setup, edges, ids, seen, best)
    ensures forall x :: x in seen + [c] ==> |x| == |ids|
    ensures EvalAt(nodes, setup, edges, ids, c) == None ==> LexBest(nodes, setup, edges, ids, seen + [c], best)
    ensures EvalAt(nodes, setup, edges, ids, c).Some? ==>
      LexBest(nodes, setup, edges, ids, seen + [c],
        Improve(best, EvalAt(nodes, setup, edges, ids, c).value, c, Changes(c, PresentState(edges, ids))))
  {
    hide EvalAt, Changes, PresentState, FirstAt, OnGrid;
    assert forall x :: x in seen + [c] <==> x in seen || x == c;
    var m, changes := EvalAt(nodes, setup, edges, ids, c), Changes(c, PresentState(edges, ids));
    if m.Some? && best.Some? {
      EvaluatedOnGrid(nodes, setup, edges, ids, c);
      EvaluatedOnGrid(nodes, setup, edges, ids, best.value.state);
      ImproveIsLex(best.value, m.value, c, changes);
    }
    if m.Some? && (best.None? || LexLess(m.value.lossKw, changes, best.value.metrics.lossKw, best.value.changes)) {
      BecomesFirst(nodes, setup, edges, ids, seen, best, Best(m.value, c, changes));
    } else if best.Some? {
      KeptFirst(nodes, setup, edges, ids, seen, best.value, c);
    }
  }

  datatype Recommendation = Recommendation(
    current: Option<Metrics>, best: Option<Best>, evaluated: nat, feasibleCount: nat, plan: seq<(EdgeId, bool)>)

  function PlanFor(ids: seq<EdgeId>, want: State, have: State): (p: seq<(EdgeId, bool)>)
    requires |ids| == |want| == |have|
  {
    if ids == [] then []
    else
      var k := |ids| - 1;
      PlanFor(ids[..k], want[..k], have[..k]) + if want[k] != have[k] then [(ids[k], want[k])] else []
  }

  lemma NothingSeen(nodes: seq<Node>, setup: Setup, edges: seq<Edge>, ids: seq<EdgeId>)
    ensures LexBest(nodes, setup, edges, ids, [], None)
    ensures FeasibleCount(nodes, setup, edges, ids, []) == 0
  {
  }

  lemma EvalAtMeans(nodes: seq<Node>, setup: Setup, edges: seq<Edge>, ids: seq<EdgeId>, c: State)
    requires |c| == |ids|
    ensures EvalAt(nodes, setup, edges, ids, c) == Evaluation(nodes, setup, Configured(edges, ids, c))
  {
  }

  method Recommend(nodes: seq<Node>, setup: Setup, edges: seq<Edge>) returns (r: Recommendation)
    requires WellFormed(nodes, edges) && GoodSetup(setup)
    ensures r.current == Evaluation(nodes, setup, edges)
    ensures r.evaluated == Pow2(|SwitchIds(edges)|)
    ensures r.feasibleCount == FeasibleCount(nodes, setup, edges, SwitchIds(edges), States(|SwitchIds(edges)|))
    ensures LexBest(nodes, setup, edges, SwitchIds(edges), States(|SwitchIds(edges)|), r.best)
    ensures r.best.Some? ==> |r.best.value.state| == |SwitchIds(edges)|
    ensures r.plan == if r.best.None? then []
      else PlanFor(SwitchIds(edges), r.best.value.state, PresentState(edges, SwitchIds(edges)))
  {
    hide *;
    var ids := SwitchIds(edges);
    var present := PresentState(edges, ids);
    var current := Evaluate(nodes, setup, edges);
    var states := States(|ids|);
    StatesDistinct(|ids|);
    var best: Option<Best> := None;
    var evaluated, feasible := 0, 0;
    NothingSeen(nodes, setup, edges, ids);
    for i := 0 to |states|
      invariant evaluated == i
      invariant forall c :: c in states[..i] ==> |c| == |ids|
      invariant feasible == FeasibleCount(nodes, setup, edges, ids, states[..i])
      invariant LexBest(nodes, setup, edges, ids, states[..i], best)
    {
      var c := states[i];
      assert c in states;
      evaluated := evaluated + 1;
      assert states[..i + 1] == states[..i] + [c];
      ConfiguredWellFormed(nodes, edges, ids, c);
      var m := Evaluate(nodes, setup, Configured(edges, ids, c));
      EvalAtMeans(nodes, setup, edges, ids, c);
      CountStep(nodes, setup, edges, ids, states[..i], c);
      LexStep(nodes, setup, edges, ids, states[..i], best, c);
      if m.Some? {
        feasible := feasible + 1;
        best := Improve(best, m.value, c, Changes(c, present));
      }
    }
    assert states[..|states|] == states;
    if best.Some? { LexBestEvaluates(nodes, setup, edges, ids, states, best.value); }
    var plan := if best.None? then [] else PlanFor(ids, best.value.state, present);
    r := Recommendation(current, best, evaluated, feasible, plan);
  }

  // ---- what the recommendation means ---------------------------------------

  lemma SameExceptLast(a: State, b: State, k: nat)
    requires |a| == |b| == k + 1
    ensures a == b <==> a[..k] == b[..k] && a[k] == b[k]
  {
    assert a == a[..k] + [a[k]] && b == b[..k] + [b[k]];
  }

  lemma {:induction false} EmptyPlan(ids: seq<EdgeId>, want: State, have: State)
    requires |ids| == |want| == |have|
    ensures PlanFor(ids, want, have) == [] <==> want == have
  {
    if ids != [] {
      var k := |ids| - 1;
      EmptyPlan(ids[..k], want[..k], have[..k]);
      SameExceptLast(want, have, k);
    }
  }

  ghost predicate NoneLosesLess(nodes: seq<Node>, setup: Setup, edges: seq<Edge>, loss: real) {
    forall c: State :: |c| == |SwitchIds(edges)| && EvalAt(nodes, setup, edges, SwitchIds(edges), c).Some? ==>
      loss <= EvalAt(nodes, setup, edges, SwitchIds(edges), c).value.lossKw
  }

  /** The best state exists beside any feasible one, and that one is not less. */
  lemma LexBestCovers(
      nodes: seq<Node>, setup: Setup, edges: seq<Edge>, ids: seq<EdgeId>, seen: seq<State>,
      best: Option<Best>, c: State)
    requires forall x :: x in seen ==> |x| == |ids|
    requires LexBest(nodes, setup, edges, ids, seen, best) && c in seen && EvalAt(nodes, setup, edges, ids, c).Some?
    ensures best.Some?
    ensures !LexLess(EvalAt(nodes, setup, edges, ids, c).value.lossKw, Changes(c, PresentState(edges, ids)),
      best.value.metrics.lossKw, best.value.changes)
  {
    hide EvalAt, Changes, PresentState, LexLess;
    if best.Some? {
      var p: nat :| FirstAt(nodes, setup, edges, ids, seen, best.value, p);
      var q: nat :| q < |seen| && seen[q] == c;
      assert NotBefore(nodes, setup, edges, ids, seen, best.value, p, q);
      if q < p {
        LexLessOneWay(best.value, EvalAt(nodes, setup, edges, ids, c).value, Changes(c, PresentState(edges, ids)));
      }
    }
  }

  lemma LexLessOneWay(b: Best, m: Metrics, changes: nat)
    requires LexLess(b.metrics.lossKw, b.changes, m.lossKw, changes)
    ensures !LexLess(m.lossKw, changes, b.metrics.lossKw, b.changes)
  {
  }

  lemma LexBestEvaluates(
      nodes: seq<Node>, setup: Setup, edges: seq<Edge>, ids: seq<EdgeId>, seen: seq<State>, b: Best)
    requires forall x :: x in seen ==> |x| == |ids|
    requires LexBest(nodes, setup, edges, ids, seen, Some(b))
    ensures |b.state| == |ids| && EvalAt(nodes, setup, edges, ids, b.state) == Some(b.metrics)
    ensures b.changes == Changes(b.state, PresentState(edges, ids))
  {
    hide EvalAt, Changes, PresentState, FirstAt;
  }

  /** The present state is among the candidates, evaluates as the network does and
      changes nothing. */
  lemma PresentIsCandidate(nodes: seq<Node>, setup: Setup, edges: seq<Edge>, ids: seq<EdgeId>)
    requires WellFormed(nodes, edges)
    ensures PresentState(edges, ids) in States(|ids|)
    ensures EvalAt(nodes, setup, edges, ids, PresentState(edges, ids)) == Evaluation(nodes, setup, edges)
    ensures Changes(PresentState(edges, ids), PresentState(edges, ids)) == 0
  {
    hide WellFormed, Evaluation, Configured;
    UniqueFrom(nodes, edges);
    PresentIsConfigured(edges, ids);
    StateIsListed(|ids|, PresentState(edges, ids));
    NoChanges(PresentState(edges, ids), PresentState(edges, ids));
  }

  /** The recommendation never worsens a feasible present state,
      and proposes no switching exactly when the present state is feasible and no state
      loses less. */
  lemma RecommendationIsSound(nodes: seq<Node>, setup: Setup, edges: seq<Edge>, best: Option<Best>)
    requires WellFormed(nodes, edges)
    requires LexBest(nodes, setup, edges, SwitchIds(edges), States(|SwitchIds(edges)|), best)
    ensures Evaluation(nodes, setup, edges).Some? ==>
      best.Some? && best.value.metrics.lossKw <= Evaluation(nodes, setup, edges).value.lossKw
    ensures best.Some? ==> |best.value.state| == |SwitchIds(edges)|
    ensures best.Some? ==>
      (PlanFor(SwitchIds(edges), best.value.state, PresentState(edges, SwitchIds(edges))) == []
       <==> (&& Evaluation(nodes, setup, edges).Some?
             && NoneLosesLess(nodes, setup, edges, Evaluation(nodes, setup, edges).value.lossKw)))
  {
    hide WellFormed, Evaluation, EvalAt, Configured, Changes, PresentState, States, LexBest, PlanFor;
    var ids, present := SwitchIds(edges), PresentState(edges, SwitchIds(edges));
    PresentIsCandidate(nodes, setup, edges, ids);
    if Evaluation(nodes, setup, edges).Some? {
      LexBestCovers(nodes, setup, edges, ids, States(|ids|), best, present);
    }
    if best.Some? {
      var b := best.value;
      LexBestEvaluates(nodes, setup, edges, ids, States(|ids|), b);
      NoChanges(b.state, present);
      EmptyPlan(ids, b.state, present);
      forall c: State | |c| == |ids| && EvalAt(nodes, setup, edges, ids, c).Some?
        ensures b.metrics.lossKw <= EvalAt(nodes, setup, edges, ids, c).value.lossKw
      {
        StateIsListed(|ids|, c);
        LexBestCovers(nodes, setup, edges, ids, States(|ids|), best, c);
      }
    }
  }

  // ---- violations ----------------------------------------------------------

  /** The state at `p` comes before the one at `q`: by loss, then by switches changed,
      then by its place in the enumeration. */
  ghost predicate Precedes(
    nodes: seq<Node>, setup: Setup, edges: seq<Edge>, ids: seq<EdgeId>, seen: seq<State>, p: nat, q: nat)
    requires forall c :: c in seen ==> |c| == |ids|
  {
    && p < |seen| && q < |seen|
    && var x, y := EvalAt(nodes, setup, edges, ids, seen[p]), EvalAt(nodes, setup, edges, ids, seen[q]);
      var i, j := Changes(seen[p], PresentState(edges, ids)), Changes(seen[q], PresentState(edges, ids));
      && x.Some? && y.Some?
      && (|| LexLess(x.value.lossKw, i, y.value.lossKw, j)
          || (x.value.lossKw == y.value.lossKw && i == j && p < q))
  }

  ghost predicate CleanAt(
    nodes: seq<Node>, setup: Setup, edges: seq<Edge>, ids: seq<EdgeId>, seen: seq<State>, p: nat)
    requires forall c :: c in seen ==> |c| == |ids|
  {
    p < |seen| && EvalAt(nodes, setup, edges, ids, seen[p]).Some?
    && EvalAt(nodes, setup, edges, ids, seen[p]).value.violations == 0
  }

  ghost predicate ViolatingAt(
    nodes: seq<Node>, setup: Setup, edges: seq<Edge>, ids: seq<EdgeId>, seen: seq<State>, p: nat)
    requires forall c :: c in seen ==> |c| == |ids|
  {
    p < |seen| && EvalAt(nodes, setup, edges, ids, seen[p]).Some?
    && EvalAt(nodes, setup, edges, ids, seen[p]).value.violations > 0
  }

  /** Some feasible state without violations comes before every one that has them. */
  ghost predicate CleanComesFirst(
    nodes: seq<Node>, setup: Setup, edges: seq<Edge>, ids: seq<EdgeId>, seen: seq<State>)
    requires forall c :: c in seen ==> |c| == |ids|
  {
    exists p: nat :: CleanAt(nodes, setup, edges, ids, seen, p)
      && forall q: nat :: ViolatingAt(nodes, setup, edges, ids, seen, q) ==>
           Precedes(nodes, setup, edges, ids, seen, p, q)
  }

  lemma BestPrecedes(
      nodes: seq<Node>, setup: Setup, edges: seq<Edge>, ids: seq<EdgeId>, seen: seq<State>, b: Best,
      p: nat, q: nat)
    requires forall c :: c in seen ==> |c| == |ids|
    requires IsCandidateBest(nodes, setup, edges, ids, b) && FirstAt(nodes, setup, edges, ids, seen, b, p)
    requires q < |seen| && q != p && EvalAt(nodes, setup, edges, ids, seen[q]).Some?
    ensures Precedes(nodes, setup, edges, ids, seen, p, q) && !Precedes(nodes, setup, edges, ids, seen, q, p)
  {
    hide EvalAt, Changes, PresentState;
    assert seen[p] in seen && seen[q] in seen;
    assert NotBefore(nodes, setup, edges, ids, seen, b, p, q);
  }

  /** The recommendation is free of violations exactly when a
      clean feasible state comes before every violating one: violations themselves never
      decide. */
  lemma RecommendedIsCleanIff(
      nodes: seq<Node>, setup: Setup, edges: seq<Edge>, ids: seq<EdgeId>, seen: seq<State>,
      best: Option<Best>)
    requires (forall c :: c in seen ==> |c| == |ids|) && LexBest(nodes, setup, edges, ids, seen, best)
    ensures best.Some? && best.value.metrics.violations == 0 <==> CleanComesFirst(nodes, setup, edges, ids, seen)
  {
    hide EvalAt, Changes, PresentState, NotBefore, Precedes;
    if best.Some? {
      var b := best.value;
      var p: nat :| FirstAt(nodes, setup, edges, ids, seen, b, p);
      forall q: nat | q < |seen| && q != p && EvalAt(nodes, setup, edges, ids, seen[q]).Some?
        ensures Precedes(nodes, setup, edges, ids, seen, p, q) && !Precedes(nodes, setup, edges, ids, seen, q, p)
      {
        BestPrecedes(nodes, setup, edges, ids, seen, b, p, q);
      }
      if b.metrics.violations == 0 {
        assert CleanAt(nodes, setup, edges, ids, seen, p);
      } else {
        assert ViolatingAt(nodes, setup, edges, ids, seen, p);
      }
    }
  }

  /** A loss reported by the power setup, `round(total, 3)`, is on the grid. */
  lemma ReportedLossOnGrid(loss: real)
    ensures OnGrid(Round(loss, 1000))
  {
    var k := RoundIsOnGrid(loss, 1000);
    assert Round(loss, 1000) == GridPoint(k);
  }
}

/** What a recommendation ranges over and what it proposes, said of edge lists alone:
    switchable switches and ties that are no islanding breakers may change position, and
    nothing else. */
module SwitchingLaws {
  import opened Graph
  import opened Grid
  import opened Results
  import opened Restoration
  import opened LoadFlow
  import opened Reconfiguration
  import opened Sequences

  /** The edge may be opened and closed. */
  predicate Movable(e: Edge) {
    e.isSwitchable && (e.kind == Switch || e.kind == Tie) && !e.islandingBreaker
  }

  /** `es` is `edges` with some movable edges in another position. */
  ghost predicate Repositioned(edges: seq<Edge>, es: seq<Edge>) {
    && |es| == |edges|
    && forall i :: 0 <= i < |edges| ==>
      es[i] == edges[i] || (Movable(edges[i]) && es[i] == edges[i].(isClosed := !edges[i].isClosed))
  }

  /** How many edges changed position. */
  function Moves(edges: seq<Edge>, es: seq<Edge>): nat
    requires |es| == |edges|
  {
    if edges == [] then 0
    else
      var k := |edges| - 1;
      Moves(edges[..k], es[..k]) + if es[k].isClosed != edges[k].isClosed then 1 else 0
  }

  // ---- edge lists and switch states ----------------------------------------

  lemma UniqueInit(edges: seq<Edge>, k: nat)
    requires UniqueIds(edges) && k <= |edges|
    ensures UniqueIds(edges[..k])
  {
  }

  lemma ClosedIs(es: seq<Edge>, i: nat)
    requires UniqueIds(es) && i < |es|
    ensures ClosedIn(es, es[i].id) == es[i].isClosed
  {
  }

  lemma RepositionedUnique(edges: seq<Edge>, es: seq<Edge>)
    requires UniqueIds(edges) && Repositioned(edges, es)
    ensures UniqueIds(es) && forall i :: 0 <= i < |edges| ==> es[i].id == edges[i].id
  {
  }

  lemma ConfiguredStep(edges: seq<Edge>, ids: seq<EdgeId>, c: State)
    requires |c| == |ids|
    ensures ids == [] ==> Configured(edges, ids, c) == edges
    ensures ids != [] ==> var k := |ids| - 1;
      Configured(edges, ids, c) == Toggle(Configured(edges, ids[..k], c[..k]), ids[k], c[k])
  {
    hide Toggle;
  }

  lemma InitOrLast(ids: seq<EdgeId>, id: EdgeId)
    requires ids != []
    ensures id in ids <==> id in ids[..|ids| - 1] || id == ids[|ids| - 1]
  {
    assert ids == ids[..|ids| - 1] + [ids[|ids| - 1]];
  }

  lemma {:induction false} ConfiguredAs(edges: seq<Edge>, ids: seq<EdgeId>, es: seq<Edge>)
    ensures |Configured(edges, ids, PresentState(es, ids))| == |edges|
    ensures forall i :: 0 <= i < |edges| ==>
      Configured(edges, ids, PresentState(es, ids))[i]
      == if edges[i].id in ids then edges[i].(isClosed := ClosedIn(es, edges[i].id)) else edges[i]
  {
    hide ClosedIn, Configured, Toggle;
    ConfiguredStep(edges, ids, PresentState(es, ids));
    if ids != [] {
      var k := |ids| - 1;
      ConfiguredAs(edges, ids[..k], es);
      assert PresentState(es, ids)[..k] == PresentState(es, ids[..k]);
      forall i | 0 <= i < |edges| ensures edges[i].id in ids <==> edges[i].id in ids[..k] || edges[i].id == ids[k] {
        InitOrLast(ids, edges[i].id);
      }
    }
  }

  lemma MovableListed(edges: seq<Edge>, i: nat)
    requires UniqueIds(edges) && i < |edges|
    ensures edges[i].id in SwitchIds(edges) <==> Movable(edges[i])
  {
    if edges[i].id in SwitchIds(edges) {
      var e :| e in edges && IsReconfigurable(e) && e.id == edges[i].id;
      assert e == edges[i];
    }
    if Movable(edges[i]) { assert edges[i] in edges && IsReconfigurable(edges[i]); }
  }

  /** Every repositioned list is one the search configures. */
  lemma RepositionedIsConfigured(edges: seq<Edge>, es: seq<Edge>)
    requires UniqueIds(edges) && Repositioned(edges, es)
    ensures Configured(edges, SwitchIds(edges), PresentState(es, SwitchIds(edges))) == es
  {
    hide ClosedIn, SwitchIds, PresentState, Configured, Movable;
    ConfiguredAs(edges, SwitchIds(edges), es);
    RepositionedUnique(edges, es);
    forall i | 0 <= i < |edges|
      ensures Configured(edges, SwitchIds(edges), PresentState(es, SwitchIds(edges)))[i] == es[i]
    {
      MovableListed(edges, i);
      ClosedIs(es, i);
    }
  }

  lemma {:induction false} ConfiguredElsewhere(edges: seq<Edge>, ids: seq<EdgeId>, c: State)
    requires |c| == |ids|
    ensures |Configured(edges, ids, c)| == |edges|
    ensures forall i :: 0 <= i < |edges| ==> var e := Configured(edges, ids, c)[i];
      e == edges[i] || (edges[i].id in ids && e == edges[i].(isClosed := !edges[i].isClosed))
  {
    hide Configured, Toggle;
    ConfiguredStep(edges, ids, c);
    if ids != [] {
      var k := |ids| - 1;
      ConfiguredElsewhere(edges, ids[..k], c[..k]);
      forall i | 0 <= i < |edges| ensures edges[i].id in ids <==> edges[i].id in ids[..k] || edges[i].id == ids[k] {
        InitOrLast(ids, edges[i].id);
      }
    }
  }

  /** And every configured one is repositioned. */
  lemma ConfiguredIsRepositioned(edges: seq<Edge>, c: State)
    requires UniqueIds(edges) && |c| == |SwitchIds(edges)|
    ensures Repositioned(edges, Configured(edges, SwitchIds(edges), c))
  {
    hide SwitchIds, Configured, Movable;
    ConfiguredElsewhere(edges, SwitchIds(edges), c);
    forall i | 0 <= i < |edges| ensures edges[i].id in SwitchIds(edges) <==> Movable(edges[i]) {
      MovableListed(edges, i);
    }
  }

  lemma {:induction false} PresentWithin(es: seq<Edge>, more: Edge, ids: seq<EdgeId>)
    requires more.id !in ids
    ensures PresentState(es + [more], ids) == PresentState(es, ids)
  {
    if ids != [] {
      var k := |ids| - 1;
      PresentWithin(es, more, ids[..k]);
      assert forall e :: e in es + [more] <==> e in es || e == more;
    }
  }

  lemma LastIdApart(edges: seq<Edge>)
    requires UniqueIds(edges) && edges != []
    ensures edges[|edges| - 1].id !in SwitchIds(edges[..|edges| - 1])
  {
    var k := |edges| - 1;
    assert forall e :: e in edges[..k] ==> e.id != edges[k].id;
  }

  lemma ChangesSnoc(a: State, b: State, x: bool, y: bool)
    requires |a| == |b|
    ensures Changes(a + [x], b + [y]) == Changes(a, b) + if x != y then 1 else 0
  {
    assert (a + [x])[..|a|] == a && (b + [y])[..|b|] == b;
  }

  /** The switches a state changes are the edges that move. */
  lemma {:induction false} ChangesAreMoves(edges: seq<Edge>, es: seq<Edge>)
    requires UniqueIds(edges) && Repositioned(edges, es)
    ensures Changes(PresentState(es, SwitchIds(edges)), PresentState(edges, SwitchIds(edges))) == Moves(edges, es)
  {
    hide IsReconfigurable, Changes, ClosedIn;
    if edges == [] {
      ChangesOfNone();
    } else {
      var k := |edges| - 1;
      var E, F, ids := edges[..k], es[..k], SwitchIds(edges[..k]);
      UniqueInit(edges, k);
      ChangesAreMoves(E, F);
      LastIdApart(edges);
      RepositionedUnique(edges, es);
      assert edges == E + [edges[k]] && es == F + [es[k]];
      PresentWithin(E, edges[k], ids);
      PresentWithin(F, es[k], ids);
      if IsReconfigurable(edges[k]) {
        ClosedIs(edges, k);
        ClosedIs(es, k);
        PresentSnoc(edges, ids, edges[k].id);
        PresentSnoc(es, ids, edges[k].id);
        ChangesSnoc(PresentState(F, ids), PresentState(E, ids), es[k].isClosed, edges[k].isClosed);
      } else {
        StaysPut(edges, es, k);
        assert SwitchIds(edges) == ids;
      }
    }
  }

  lemma ChangesOfNone()
    ensures Changes([], []) == 0
  {
  }

  lemma StaysPut(edges: seq<Edge>, es: seq<Edge>, i: nat)
    requires Repositioned(edges, es) && i < |edges| && !IsReconfigurable(edges[i])
    ensures es[i] == edges[i] && SwitchIds([edges[i]]) == []
  {
    assert [edges[i]][..0] == [];
  }

  lemma PresentSnoc(es: seq<Edge>, ids: seq<EdgeId>, id: EdgeId)
    ensures PresentState(es, ids + [id]) == PresentState(es, ids) + [ClosedIn(es, id)]
  {
    hide ClosedIn;
    assert (ids + [id])[..|ids|] == ids;
  }

  // ---- what is recommended -------------------------------------------------

  lemma SwitchesOnce(edges: seq<Edge>)
    requires UniqueIds(edges)
    ensures Distinct(SwitchIds(edges))
  {
    if edges != [] {
      var k := |edges| - 1;
      UniqueInit(edges, k);
      SwitchesOnce(edges[..k]);
      LastIdApart(edges);
      hide IsReconfigurable;
    }
  }

  lemma DistinctInit<T>(s: seq<T>)
    requires Distinct(s) && s != []
    ensures Distinct(s[..|s| - 1]) && s[|s| - 1] !in s[..|s| - 1]
  {
  }

  ghost predicate HasId(edges: seq<Edge>, id: EdgeId) {
    exists e :: e in edges && e.id == id
  }

  lemma ToggleElsewhere(edges: seq<Edge>, id: EdgeId, b: bool, other: EdgeId)
    ensures other != id ==> ClosedIn(Toggle(edges, id, b), other) == ClosedIn(edges, other)
    ensures HasId(edges, id) ==> ClosedIn(Toggle(edges, id, b), id) == b
  {
    var t := Toggle(edges, id, b);
    if other != id {
      forall e | e in edges && e.id == other ensures e in t {
        var i :| 0 <= i < |edges| && edges[i] == e;
        assert t[i] == e;
      }
      forall e | e in t && e.id == other ensures e in edges {
        var i :| 0 <= i < |t| && t[i] == e;
        assert edges[i] == e;
      }
    }
    if HasId(edges, id) {
      var e :| e in edges && e.id == id;
      var i :| 0 <= i < |edges| && edges[i] == e;
      assert t[i] in t && t[i].id == id && t[i].isClosed == b;
      forall f | f in t && f.id == id ensures f.isClosed == b {
        var j :| 0 <= j < |t| && t[j] == f;
      }
    }
  }

  lemma {:induction false} ConfiguredHas(edges: seq<Edge>, ids: seq<EdgeId>, c: State, id: EdgeId)
    requires |c| == |ids|
    ensures HasId(Configured(edges, ids, c), id) <==> HasId(edges, id)
  {
    ConfiguredElsewhere(edges, ids, c);
    var es := Configured(edges, ids, c);
    hide Configured;
    if HasId(edges, id) {
      var i :| 0 <= i < |edges| && edges[i].id == id;
      assert es[i] in es && es[i].id == id;
    }
    if HasId(es, id) {
      var i :| 0 <= i < |es| && es[i].id == id;
      assert edges[i] in edges && edges[i].id == id;
    }
  }

  /** Reading the positions back gives the state they were set to. */
  lemma {:induction false} PresentOfConfigured(edges: seq<Edge>, ids: seq<EdgeId>, c: State)
    requires |c| == |ids| && Distinct(ids) && forall id :: id in ids ==> HasId(edges, id)
    ensures PresentState(Configured(edges, ids, c), ids) == c
  {
    hide ClosedIn, HasId, Configured, Toggle;
    ConfiguredStep(edges, ids, c);
    if ids != [] {
      var k := |ids| - 1;
      var before := Configured(edges, ids[..k], c[..k]);
      DistinctInit(ids);
      PresentOfConfigured(edges, ids[..k], c[..k]);
      var es := Configured(edges, ids, c);
      ConfiguredHas(edges, ids[..k], c[..k], ids[k]);
      forall i | 0 <= i < |ids| ensures ClosedIn(es, ids[i]) == c[i] {
        ToggleElsewhere(before, ids[k], c[k], ids[i]);
        if i < k {
          assert ids[..k][i] == ids[i];
          assert PresentState(before, ids[..k])[i] == c[..k][i];
        }
      }
    }
  }

  lemma SwitchesExist(edges: seq<Edge>)
    ensures forall id :: id in SwitchIds(edges) ==> HasId(edges, id)
  {
    hide IsReconfigurable;
  }

  /** The recommended edge list, when there is a recommendation. */
  ghost function Recommended(edges: seq<Edge>, best: Best): seq<Edge>
    requires |best.state| == |SwitchIds(edges)|
  {
    Configured(edges, SwitchIds(edges), best.state)
  }

  /** The recommendation repositions movable edges only, evaluates as it says and counts
      its moves; and no repositioning of movable edges whatever loses less, or as much
      with fewer moves. */
  lemma RecommendationIsLeast(
      nodes: seq<Node>, setup: Setup, edges: seq<Edge>, best: Option<Best>, es: seq<Edge>)
    requires WellFormed(nodes, edges) && Repositioned(edges, es)
    requires LexBest(nodes, setup, edges, SwitchIds(edges), States(|SwitchIds(edges)|), best)
    ensures best.Some? ==>
      && |best.value.state| == |SwitchIds(edges)| && Repositioned(edges, Recommended(edges, best.value))
      && Evaluation(nodes, setup, Recommended(edges, best.value)) == Some(best.value.metrics)
      && best.value.changes == Moves(edges, Recommended(edges, best.value))
    ensures Evaluation(nodes, setup, es).Some? ==>
      && best.Some?
      && var loss, least := Evaluation(nodes, setup, es).value.lossKw, best.value.metrics.lossKw;
         least < loss || (least == loss && best.value.changes <= Moves(edges, es))
  {
    hide WellFormed, Evaluation, EvalAt, SwitchIds, States, LexBest, Configured, PresentState, Changes, Moves,
      Repositioned;
    var ids := SwitchIds(edges);
    UniqueFrom(nodes, edges);
    if best.Some? {
      LexBestEvaluates(nodes, setup, edges, ids, States(|ids|), best.value);
      EvalAtMeans(nodes, setup, edges, ids, best.value.state);
      ConfiguredIsRepositioned(edges, best.value.state);
      SwitchesOnce(edges);
      SwitchesExist(edges);
      PresentOfConfigured(edges, ids, best.value.state);
      ChangesAreMoves(edges, Recommended(edges, best.value));
    }
    if Evaluation(nodes, setup, es).Some? {
      var c := PresentState(es, ids);
      RepositionedIsConfigured(edges, es);
      StateIsListed(|ids|, c);
      EvalAtMeans(nodes, setup, edges, ids, c);
      LexBestCovers(nodes, setup, edges, ids, States(|ids|), best, c);
      ChangesAreMoves(edges, es);
    }
  }

  // ---- the plan ------------------------------------------------------------

  predicate MovesAt(ids: seq<EdgeId>, want: State, have: State, id: EdgeId, b: bool, k: nat)
    requires |ids| == |want| == |have| && k < |ids|
  {
    ids[k] == id && want[k] == b && have[k] != b
  }

  ghost predicate MovesSome(ids: seq<EdgeId>, want: State, have: State, id: EdgeId, b: bool)
    requires |ids| == |want| == |have|
  {
    exists k: nat :: k < |ids| && MovesAt(ids, want, have, id, b, k)
  }

  lemma MovesSomeStep(ids: seq<EdgeId>, want: State, have: State, id: EdgeId, b: bool)
    requires |ids| == |want| == |have| && ids != []
    ensures var k := |ids| - 1;
      MovesSome(ids, want, have, id, b)
      <==> MovesSome(ids[..k], want[..k], have[..k], id, b) || MovesAt(ids, want, have, id, b, k)
  {
    var k := |ids| - 1;
    forall j: nat | j < k
      ensures MovesAt(ids, want, have, id, b, j) == MovesAt(ids[..k], want[..k], have[..k], id, b, j) {}
  }

  lemma PlanStep(ids: seq<EdgeId>, want: State, have: State)
    requires |ids| == |want| == |have| && ids != []
    ensures var k := |ids| - 1;
      PlanFor(ids, want, have)
      == PlanFor(ids[..k], want[..k], have[..k]) + if want[k] != have[k] then [(ids[k], want[k])] else []
  {
  }

  lemma {:induction false} PlanIff(ids: seq<EdgeId>, want: State, have: State, id: EdgeId, b: bool)
    requires |ids| == |want| == |have|
    ensures (id, b) in PlanFor(ids, want, have) <==> MovesSome(ids, want, have, id, b)
  {
    if ids != [] {
      var k := |ids| - 1;
      PlanIff(ids[..k], want[..k], have[..k], id, b);
      PlanStep(ids, want, have);
      MovesSomeStep(ids, want, have, id, b);
      hide PlanFor, MovesSome;
    }
  }

  /** The plan closes exactly the edges that the recommendation closes and that stand
      open, and opens exactly those it opens and that stand closed. */
  lemma PlanListsMoves(edges: seq<Edge>, want: State, i: nat, b: bool)
    requires UniqueIds(edges) && |want| == |SwitchIds(edges)| && i < |edges|
    ensures |Configured(edges, SwitchIds(edges), want)| == |edges|
    ensures (edges[i].id, b) in PlanFor(SwitchIds(edges), want, PresentState(edges, SwitchIds(edges)))
      <==> Configured(edges, SwitchIds(edges), want)[i].isClosed == b && edges[i].isClosed != b
  {
    hide SwitchIds, Configured, PlanFor, ClosedIn, Movable, MovesSome, Repositioned;
    var ids, es := SwitchIds(edges), Configured(edges, SwitchIds(edges), want);
    var have, id := PresentState(edges, ids), edges[i].id;
    PlanIff(ids, want, have, id, b);
    SwitchesOnce(edges);
    SwitchesExist(edges);
    PresentOfConfigured(edges, ids, want);
    ConfiguredElsewhere(edges, ids, want);
    ConfiguredIsRepositioned(edges, want);
    RepositionedUnique(edges, es);
    ClosedIs(edges, i);
    ClosedIs(es, i);
    MovesIff(ids, want, have, id, b, es[i].isClosed, edges[i].isClosed);
  }

  lemma MovesIff(ids: seq<EdgeId>, want: State, have: State, id: EdgeId, b: bool, x: bool, y: bool)
    requires |ids| == |want| == |have| && (x != y ==> id in ids)
    requires forall k :: 0 <= k < |ids| && ids[k] == id ==> want[k] == x && have[k] == y
    ensures MovesSome(ids, want, have, id, b) <==> x == b && y != b
  {
    if x == b && y != b {
      var k :| 0 <= k < |ids| && ids[k] == id;
      assert MovesAt(ids, want, have, id, b, k);
    }
  }

  // ---- between equals ------------------------------------------------------

  /** The first position in which the two differ is open in `a` and closed in `b`. */
  ghost predicate OpensFirst(a: State, b: State) {
    |a| == |b| && exists i :: 0 <= i < |a| && !a[i] && b[i] && a[..i] == b[..i]
  }

  lemma OpensFirstBehind(x: bool, a: State, b: State)
    requires OpensFirst(a, b)
    ensures OpensFirst([x] + a, [x] + b)
  {
    var i :| 0 <= i < |a| && !a[i] && b[i] && a[..i] == b[..i];
    assert ([x] + a)[..i + 1] == [x] + a[..i] && ([x] + b)[..i + 1] == [x] + b[..i];
    assert !([x] + a)[i + 1] && ([x] + b)[i + 1];
  }

  ghost predicate Ordered(s: seq<State>) {
    forall p, q :: 0 <= p < q < |s| ==> OpensFirst(s[p], s[q])
  }

  lemma HalfAt(s: seq<State>, i: nat)
    requires i < |Prefixed(false, s) + Prefixed(true, s)|
    ensures |Prefixed(false, s) + Prefixed(true, s)| == 2 * |s|
    ensures (Prefixed(false, s) + Prefixed(true, s))[i] == if i < |s| then [false] + s[i] else [true] + s[i - |s|]
  {
    hide Prefixed;
  }

  lemma HalvesOrdered(s: seq<State>, k: nat)
    requires Ordered(s) && forall i :: 0 <= i < |s| ==> |s[i]| == k
    ensures Ordered(Prefixed(false, s) + Prefixed(true, s))
  {
    hide OpensFirst, Prefixed;
    var t, m := Prefixed(false, s) + Prefixed(true, s), |s|;
    forall p, q | 0 <= p < q < |t| ensures OpensFirst(t[p], t[q]) {
      HalfAt(s, p);
      HalfAt(s, q);
      if q < m {
        OpensFirstBehind(false, s[p], s[q]);
      } else if p >= m {
        OpensFirstBehind(true, s[p - m], s[q - m]);
      } else {
        HalvesInOrder(s[p], s[q - m]);
      }
    }
  }

  /** The states come in the order of counting, the first switch the slowest. */
  lemma {:induction false} StatesInOrder(k: nat)
    ensures Ordered(States(k))
  {
    hide OpensFirst, Prefixed, States, Ordered;
    StatesUnfold(k);
    if k == 0 {
      OneOrdered();
    } else {
      StatesInOrder(k - 1);
      var s := States(k - 1);
      forall i | 0 <= i < |s| ensures |s[i]| == k - 1 {
        assert s[i] in States(k - 1);
      }
      HalvesOrdered(s, k - 1);
    }
  }

  lemma OneOrdered()
    ensures Ordered([[]])
  {
  }

  lemma HalvesInOrder(a: State, b: State)
    requires |a| == |b|
    ensures OpensFirst([false] + a, [true] + b)
  {
    assert ([false] + a)[..0] == ([true] + b)[..0] && !([false] + a)[0] && ([true] + b)[0];
  }

  /** Of states with the same loss and as many moves the recommended one opens first. */
  lemma EqualStatesOpenFirst(
      nodes: seq<Node>, setup: Setup, edges: seq<Edge>, ids: seq<EdgeId>, b: Best, c: State)
    requires LexBest(nodes, setup, edges, ids, States(|ids|), Some(b)) && |c| == |ids| && c != b.state
    requires EvalAt(nodes, setup, edges, ids, c).Some?
    requires EvalAt(nodes, setup, edges, ids, c).value.lossKw == b.metrics.lossKw
    requires Changes(c, PresentState(edges, ids)) == b.changes
    ensures OpensFirst(b.state, c)
  {
    hide EvalAt, Changes, PresentState, States, OpensFirst, IsCandidateBest;
    var p: nat :| FirstAt(nodes, setup, edges, ids, States(|ids|), b, p);
    StateIsListed(|ids|, c);
    var q: nat :| q < |States(|ids|)| && States(|ids|)[q] == c;
    assert NotBefore(nodes, setup, edges, ids, States(|ids|), b, p, q);
    StatesInOrder(|ids|);
  }

  /** The first edge that stands otherwise in the two lists is open in the first. */
  ghost predicate OpensFirstEdge(es: seq<Edge>, fs: seq<Edge>) {
    |es| == |fs| && exists i :: 0 <= i < |es| && !es[i].isClosed && fs[i].isClosed && es[..i] == fs[..i]
  }

  lemma SwitchPrefix(edges: seq<Edge>, k: nat)
    requires k <= |edges|
    ensures SwitchIds(edges[..k]) <= SwitchIds(edges)
    decreases |edges|
  {
    hide IsReconfigurable, SwitchIds;
    if edges != [] { SwitchStep(edges); }
    if k < |edges| {
      var m := |edges| - 1;
      SwitchPrefix(edges[..m], k);
      assert edges[..m][..k] == edges[..k];
      PrefixThrough(SwitchIds(edges[..k]), SwitchIds(edges[..m]), SwitchIds(edges));
    } else {
      assert edges[..k] == edges;
    }
  }

  lemma SwitchStep(edges: seq<Edge>)
    requires edges != []
    ensures SwitchIds(edges[..|edges| - 1]) <= SwitchIds(edges)
  {
    hide IsReconfigurable;
  }

  lemma PrefixThrough<T>(a: seq<T>, b: seq<T>, c: seq<T>)
    requires a <= b <= c
    ensures a <= c
  {
  }

  lemma SwitchAt(edges: seq<Edge>, j: nat) returns (i: nat)
    requires UniqueIds(edges) && j < |SwitchIds(edges)|
    ensures i < |edges| && edges[i].id == SwitchIds(edges)[j] && Movable(edges[i])
    ensures SwitchIds(edges[..i]) == SwitchIds(edges)[..j]
    decreases |edges|
  {
    var m := |edges| - 1;
    var ids := SwitchIds(edges[..m]);
    UniqueInit(edges, m);
    if j < |ids| {
      i := SwitchAt(edges[..m], j);
      assert edges[..m][..i] == edges[..i];
    } else {
      i := m;
      assert SwitchIds(edges)[..j] == ids;
    }
  }

  lemma DifferAt(es: seq<Edge>, fs: seq<Edge>, edges: seq<Edge>, j: nat)
    requires UniqueIds(edges) && Repositioned(edges, es) && Repositioned(edges, fs)
    requires var ids := SwitchIds(edges);
      && j < |ids| && !PresentState(es, ids)[j] && PresentState(fs, ids)[j]
      && PresentState(es, ids)[..j] == PresentState(fs, ids)[..j]
    ensures OpensFirstEdge(es, fs)
  {
    hide ClosedIn, Movable, SwitchIds;
    var ids := SwitchIds(edges);
    var i := SwitchAt(edges, j);
    RepositionedUnique(edges, es);
    RepositionedUnique(edges, fs);
    ClosedIs(es, i);
    ClosedIs(fs, i);
    forall m | 0 <= m < i ensures es[m] == fs[m] {
      ClosedIs(es, m);
      ClosedIs(fs, m);
      if Movable(edges[m]) {
        MovableBefore(edges, i, m);
        var n :| 0 <= n < j && ids[..j][n] == edges[m].id;
        assert PresentState(es, ids)[..j][n] == PresentState(fs, ids)[..j][n];
      }
    }
    assert es[..i] == fs[..i];
  }

  lemma MovableBefore(edges: seq<Edge>, i: nat, m: nat)
    requires m < i < |edges| && Movable(edges[m])
    ensures edges[m].id in SwitchIds(edges[..i])
  {
    assert edges[..i][m] == edges[m] && edges[m] in edges[..i] && IsReconfigurable(edges[m]);
  }

  /** Of repositionings with the same loss and as many moves, the recommended one leaves
      open the first edge of the list in which they differ. */
  lemma EqualsOpenFirst(nodes: seq<Node>, setup: Setup, edges: seq<Edge>, b: Best, es: seq<Edge>)
    requires WellFormed(nodes, edges) && Repositioned(edges, es)
    requires LexBest(nodes, setup, edges, SwitchIds(edges), States(|SwitchIds(edges)|), Some(b))
    requires Evaluation(nodes, setup, es).Some? && Evaluation(nodes, setup, es).value.lossKw == b.metrics.lossKw
    requires Moves(edges, es) == b.changes
    ensures |b.state| == |SwitchIds(edges)|
    ensures es == Recommended(edges, b) || OpensFirstEdge(Recommended(edges, b), es)
  {
    hide WellFormed, Evaluation, EvalAt, SwitchIds, States, LexBest, Configured, PresentState, Changes, Moves,
      Repositioned, OpensFirstEdge, UniqueIds;
    var ids := SwitchIds(edges);
    var c := PresentState(es, ids);
    UniqueFrom(nodes, edges);
    LexBestEvaluates(nodes, setup, edges, ids, States(|ids|), b);
    ConfiguredIsRepositioned(edges, b.state);
    SwitchesOnce(edges);
    SwitchesExist(edges);
    PresentOfConfigured(edges, ids, b.state);
    RepositionedIsConfigured(edges, es);
    EvalAtMeans(nodes, setup, edges, ids, c);
    ChangesAreMoves(edges, es);
    if c != b.state {
      EqualStatesOpenFirst(nodes, setup, edges, ids, b, c);
      var j :| 0 <= j < |b.state| && !b.state[j] && c[j] && b.state[..j] == c[..j];
      DifferAt(Recommended(edges, b), es, edges, j);
    }
  }
}

/** Greedy tie restoration: the loop of `_restore` over mutable edges, the pure form it
    refines, and what that form guarantees. */
module Restoration {
  import opened Graph
  import opened Grid
  import opened Sequences

  /** An edge record of the network under study: only its switch position changes. */
  class EdgeCell {
    const spec: Edge
    var isClosed: bool

    constructor (e: Edge)
      ensures spec == e && isClosed == e.isClosed
    {
      spec := e;
      isClosed := e.isClosed;
    }

    function Now(): Edge
      reads this
    {
      spec.(isClosed := isClosed)
    }
  }

  function Snapshot(cells: seq<EdgeCell>): (s: seq<Edge>)
    reads cells
    ensures |s| == |cells| && forall i :: 0 <= i < |s| ==> s[i] == cells[i].Now()
  {
    if cells == [] then [] else Snapshot(cells[..|cells| - 1]) + [cells[|cells| - 1].Now()]
  }

  ghost predicate DistinctCells(cells: seq<EdgeCell>) {
    forall i, j :: 0 <= i < j < |cells| ==> cells[i] != cells[j]
  }

  // ---- switch positions as values ------------------------------------------

  function SetClosed(e: Edge, id: EdgeId, closed: bool): Edge {
    if e.id == id then e.(isClosed := closed) else e
  }

  function Toggle(edges: seq<Edge>, id: EdgeId, closed: bool): (r: seq<Edge>)
    ensures |r| == |edges|
    ensures forall i :: 0 <= i < |edges| ==> r[i] == SetClosed(edges[i], id, closed)
  {
    if edges == [] then [] else Toggle(edges[..|edges| - 1], id, closed) + [SetClosed(edges[|edges| - 1], id, closed)]
  }

  lemma ToggleWellFormed(nodes: seq<Node>, edges: seq<Edge>, id: EdgeId, closed: bool)
    requires WellFormed(nodes, edges)
    ensures WellFormed(nodes, Toggle(edges, id, closed))
  {
  }

  lemma ClosedAt(edges: seq<Edge>, l: Link)
    ensures l in ClosedLinks(edges) <==> exists i :: 0 <= i < |edges| && edges[i].isClosed && LinkOf(edges[i]) == l
  {
  }

  lemma ToggledLink(edges: seq<Edge>, e: Edge, closed: bool, l: Link)
    requires UniqueIds(edges) && e in edges
    ensures l in ClosedLinks(Toggle(edges, e.id, closed))
      <==> if l == LinkOf(e) then closed else l in ClosedLinks(edges)
  {
    hide ClosedLinks;
    var k :| 0 <= k < |edges| && edges[k] == e;
    var t := Toggle(edges, e.id, closed);
    ClosedAt(edges, l);
    ClosedAt(t, l);
    if l == LinkOf(e) {
      assert t[k] == SetClosed(e, e.id, closed);
      if i :| 0 <= i < |t| && t[i].isClosed && LinkOf(t[i]) == l {
        assert edges[i].id == e.id;
        assert i == k;
      }
    } else {
      forall i | 0 <= i < |t| && LinkOf(t[i]) == l ensures t[i] == edges[i] {
      }
      forall i | 0 <= i < |t| && LinkOf(edges[i]) == l ensures t[i] == edges[i] {
      }
    }
  }

  lemma ToggleLinks(edges: seq<Edge>, e: Edge)
    requires UniqueIds(edges) && e in edges
    ensures ClosedLinks(Toggle(edges, e.id, true)) == ClosedLinks(edges) + {LinkOf(e)}
    ensures ClosedLinks(Toggle(edges, e.id, false)) == ClosedLinks(edges) - {LinkOf(e)}
    ensures !e.isClosed ==> LinkOf(e) !in ClosedLinks(edges)
  {
    hide ClosedLinks, Toggle;
    forall l ensures l in ClosedLinks(Toggle(edges, e.id, true)) <==> l in ClosedLinks(edges) + {LinkOf(e)} {
      ToggledLink(edges, e, true, l);
    }
    forall l ensures l in ClosedLinks(Toggle(edges, e.id, false)) <==> l in ClosedLinks(edges) - {LinkOf(e)} {
      ToggledLink(edges, e, false, l);
    }
    ClosedAt(edges, LinkOf(e));
  }

  // ---- the greedy search as a function -------------------------------------

  datatype Plan = Plan(edges: seq<Edge>, lost: set<NodeId>, ties: seq<EdgeId>)

  /** Closing `id` brings a lost node back and the network passes the radiality test. */
  ghost predicate Useful(nodes: seq<Node>, edges: seq<Edge>, lost: set<NodeId>, id: EdgeId) {
    var tried := Toggle(edges, id, true);
    && lost * EnergizedBy(nodes, tried) != {}
    && IsRadial(nodes, tried, EnergizedBy(nodes, tried))
  }

  ghost function CloseTie(nodes: seq<Node>, p: Plan, id: EdgeId): Plan {
    var tried := Toggle(p.edges, id, true);
    Plan(tried, p.lost - EnergizedBy(nodes, tried), p.ties + [id])
  }

  ghost function TryTie(nodes: seq<Node>, p: Plan, id: EdgeId): Plan {
    if id !in p.ties && Useful(nodes, p.edges, p.lost, id) then CloseTie(nodes, p, id) else p
  }

  ghost function Pass(nodes: seq<Node>, p: Plan, openable: seq<EdgeId>): Plan {
    if openable == [] then p
    else TryTie(nodes, Pass(nodes, p, openable[..|openable| - 1]), openable[|openable| - 1])
  }

  /** Passes repeat while something is lost and the last pass closed a tie. */
  ghost function Passes(nodes: seq<Node>, p: Plan, openable: seq<EdgeId>): Plan
    decreases Elems(openable) - Elems(p.ties)
  {
    if p.lost == {} then p
    else
      PassGains(nodes, p, openable);
      var p' := Pass(nodes, p, openable);
      if p'.ties == p.ties then p' else Passes(nodes, p', openable)
  }

  lemma {:induction false} PassGains(nodes: seq<Node>, p: Plan, openable: seq<EdgeId>)
    ensures p.ties <= Pass(nodes, p, openable).ties
    ensures Elems(Pass(nodes, p, openable).ties) <= Elems(p.ties) + Elems(openable)
    ensures Pass(nodes, p, openable).ties == p.ties
      || Elems(openable) - Elems(Pass(nodes, p, openable).ties) < Elems(openable) - Elems(p.ties)
  {
    if openable != [] {
      var k := |openable| - 1;
      var id, q := openable[k], Pass(nodes, p, openable[..k]);
      PassGains(nodes, p, openable[..k]);
      assert Elems(openable) == Elems(openable[..k]) + {id} by { assert openable == openable[..k] + [id]; }
      if TryTie(nodes, q, id) != q {
        assert Elems(q.ties + [id]) == Elems(q.ties) + {id};
        assert id in Elems(openable) - Elems(p.ties);
      }
    }
  }

  // ---- the loop ------------------------------------------------------------

  function OpenableIds(edges: seq<Edge>, failed: EdgeId): (ids: seq<EdgeId>)
    ensures forall id ::
      id in ids <==> exists e :: e in edges && e.id == id && !e.isClosed && e.isSwitchable && id != failed
  {
    if edges == [] then []
    else
      var e := edges[|edges| - 1];
      OpenableIds(edges[..|edges| - 1], failed)
      + if !e.isClosed && e.isSwitchable && e.id != failed then [e.id] else []
  }

  ghost function Restored(nodes: seq<Node>, edges: seq<Edge>, failed: EdgeId, lost: set<NodeId>): Plan {
    Passes(nodes, Plan(edges, lost, []), OpenableIds(edges, failed))
  }

  lemma SwitchedOne(was: seq<Edge>, now: seq<Edge>, k: nat, closed: bool)
    requires UniqueIds(was) && k < |was| == |now|
    requires now[k] == was[k].(isClosed := closed)
    requires forall i :: 0 <= i < |was| && i != k ==> now[i] == was[i]
    ensures now == Toggle(was, was[k].id, closed)
  {
  }

  lemma UniqueFrom(nodes: seq<Node>, edges: seq<Edge>)
    requires WellFormed(nodes, edges)
    ensures UniqueIds(edges)
  {
  }

  /** Try one tie: close it, look at what is energized, and open it again unless it helps. */
  method TryClosing(nodes: seq<Node>, cells: seq<EdgeCell>, c: EdgeCell, lost0: set<NodeId>, ties0: seq<EdgeId>)
    returns (lost: set<NodeId>, ties: seq<EdgeId>)
    requires DistinctCells(cells) && c in cells && WellFormed(nodes, Snapshot(cells))
    requires c.spec.id !in ties0 ==> !c.isClosed
    modifies c
    ensures TryTie(nodes, Plan(old(Snapshot(cells)), lost0, ties0), c.spec.id) == Plan(Snapshot(cells), lost, ties)
    ensures c.isClosed != old(c.isClosed) ==> c.spec.id in ties
    ensures WellFormed(nodes, Snapshot(cells))
  {
    hide Reach, WellFormed, EnergizedBy, IsRadial, Toggle, ClosedLinks;
    ghost var was := Snapshot(cells);
    ghost var p := Plan(was, lost0, ties0);
    ghost var id := c.spec.id;
    lost, ties := lost0, ties0;
    if c.spec.id in ties {
      assert TryTie(nodes, p, id) == p;
      return;
    }
    ghost var k :| 0 <= k < |cells| && cells[k] == c;
    c.isClosed := true;
    UniqueFrom(nodes, was);
    SwitchedOne(was, Snapshot(cells), k, true);
    ToggleWellFormed(nodes, was, id, true);
    ghost var tried := Toggle(was, id, true);
    assert Snapshot(cells) == tried;
    var energized := FindEnergized(nodes, Snapshot(cells));
    assert energized == EnergizedBy(nodes, tried);
    if lost * energized != {} && IsRadial(nodes, Snapshot(cells), energized) {
      ties := ties + [c.spec.id];
      lost := lost - energized;
      assert Useful(nodes, was, lost0, id);
      assert TryTie(nodes, p, id) == Plan(tried, lost, ties);
    } else {
      c.isClosed := false;
      SameSeq(Snapshot(cells), was);
      assert !Useful(nodes, was, lost0, id);
      assert TryTie(nodes, p, id) == p;
    }
  }

  lemma SameSeq(a: seq<Edge>, b: seq<Edge>)
    requires |a| == |b| && forall i :: 0 <= i < |a| ==> a[i] == b[i]
    ensures a == b
  {
  }

  function CellIds(cells: seq<EdgeCell>): (ids: seq<EdgeId>)
    ensures |ids| == |cells| && forall i :: 0 <= i < |ids| ==> ids[i] == cells[i].spec.id
  {
    if cells == [] then [] else CellIds(cells[..|cells| - 1]) + [cells[|cells| - 1].spec.id]
  }

  lemma LastId(cells: seq<EdgeCell>, k: nat)
    requires k < |cells|
    ensures CellIds(cells)[..k + 1][..k] == CellIds(cells)[..k]
    ensures CellIds(cells)[..k + 1][k] == cells[k].spec.id && |CellIds(cells)[..k + 1]| == k + 1
  {
  }

  method Openable(cells: seq<EdgeCell>, failed: EdgeId) returns (openable: seq<EdgeCell>)
    ensures CellIds(openable) == OpenableIds(Snapshot(cells), failed)
    ensures forall c :: c in openable ==> c in cells && !c.isClosed
  {
    openable := [];
    ghost var s := Snapshot(cells);
    for i := 0 to |cells|
      invariant CellIds(openable) == OpenableIds(s[..i], failed)
      invariant forall c :: c in openable ==> c in cells && !c.isClosed
    {
      assert s[..i + 1][..i] == s[..i];
      if !cells[i].isClosed && cells[i].spec.isSwitchable && cells[i].spec.id != failed {
        openable := openable + [cells[i]];
        assert openable[..|openable| - 1] + [cells[i]] == openable;
      }
    }
    assert s[..|cells|] == s;
  }

  /** One sweep over the openable switches. */
  method RestorePass(
      nodes: seq<Node>, cells: seq<EdgeCell>, openable: seq<EdgeCell>, lost0: set<NodeId>, ties0: seq<EdgeId>)
    returns (lost: set<NodeId>, ties: seq<EdgeId>)
    requires DistinctCells(cells) && WellFormed(nodes, Snapshot(cells))
    requires forall c :: c in openable ==> c in cells && (c.spec.id !in ties0 ==> !c.isClosed)
    modifies openable
    ensures Pass(nodes, Plan(old(Snapshot(cells)), lost0, ties0), CellIds(openable))
         == Plan(Snapshot(cells), lost, ties)
    ensures WellFormed(nodes, Snapshot(cells))
    ensures forall c :: c in openable ==> (c.spec.id !in ties ==> !c.isClosed)
  {
    hide WellFormed, TryTie;
    lost, ties := lost0, ties0;
    ghost var p := Plan(Snapshot(cells), lost0, ties0);
    ghost var ids := CellIds(openable);
    for k := 0 to |openable|
      invariant WellFormed(nodes, Snapshot(cells))
      invariant Pass(nodes, p, ids[..k]) == Plan(Snapshot(cells), lost, ties)
      invariant forall c :: c in openable ==> (c.spec.id !in ties ==> !c.isClosed)
    {
      LastId(openable, k);
      PassGains(nodes, p, ids[..k]);
      ghost var ties1 := ties;
      ghost var q := Plan(Snapshot(cells), lost, ties);
      lost, ties := TryClosing(nodes, cells, openable[k], lost, ties);
      TryTieGains(nodes, q, openable[k].spec.id);
    }
    assert ids[..|openable|] == ids;
  }

  lemma TryTieGains(nodes: seq<Node>, p: Plan, id: EdgeId)
    ensures p.ties <= TryTie(nodes, p, id).ties
  {
  }

  /** The repair loop, over the edges in place. */
  method Restore(nodes: seq<Node>, cells: seq<EdgeCell>, failed: EdgeId, lost0: set<NodeId>)
    returns (ties: seq<EdgeId>)
    requires DistinctCells(cells) && WellFormed(nodes, Snapshot(cells))
    modifies cells
    ensures ties == Restored(nodes, old(Snapshot(cells)), failed, lost0).ties
    ensures Snapshot(cells) == Restored(nodes, old(Snapshot(cells)), failed, lost0).edges
    ensures WellFormed(nodes, Snapshot(cells))
  {
    hide WellFormed, Pass, Passes;
    var openable := Openable(cells, failed);
    ghost var ids := CellIds(openable);
    ghost var start := Plan(Snapshot(cells), lost0, []);
    ties := [];
    var lost, progress := lost0, true;
    while progress && lost != {}
      invariant WellFormed(nodes, Snapshot(cells))
      invariant forall c :: c in openable ==> c in cells && (c.spec.id !in ties ==> !c.isClosed)
      invariant Passes(nodes, start, ids)
        == if progress then Passes(nodes, Plan(Snapshot(cells), lost, ties), ids) else Plan(Snapshot(cells), lost, ties)
      decreases progress, Elems(ids) - Elems(ties)
    {
      ghost var p := Plan(Snapshot(cells), lost, ties);
      var before := ties;
      lost, ties := RestorePass(nodes, cells, openable, lost, ties);
      progress := ties != before;
      PassesUnfolds(nodes, p, ids);
    }
    if lost == {} { NothingLost(nodes, Plan(Snapshot(cells), lost, ties), ids); }
  }

  lemma PassesUnfolds(nodes: seq<Node>, p: Plan, ids: seq<EdgeId>)
    requires p.lost != {}
    ensures var p' := Pass(nodes, p, ids);
      Passes(nodes, p, ids) == if p'.ties == p.ties then p' else Passes(nodes, p', ids)
    ensures var p' := Pass(nodes, p, ids);
      p'.ties != p.ties ==> Elems(ids) - Elems(p'.ties) < Elems(ids) - Elems(p.ties)
  {
    hide Pass;
    PassGains(nodes, p, ids);
  }

  lemma NothingLost(nodes: seq<Node>, p: Plan, ids: seq<EdgeId>)
    requires p.lost == {}
    ensures Passes(nodes, p, ids) == p
  {
  }
}

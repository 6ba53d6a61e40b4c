/** The energized radial tree of `build_radial`: parent edges, root paths, the subtree
    below each edge and per-unit impedances. */
module RadialTree {
  import opened Graph
  import opened Grid
  import opened Results
  import opened Sequences

  datatype Impedance = Impedance(r: real, x: real)

  datatype Tree = Tree(
    root: NodeId, order: seq<NodeId>, parentEdge: map<NodeId, Edge>, pathEdges: map<NodeId, seq<Edge>>)
  {
    function Nodes(): set<NodeId> {
      pathEdges.Keys
    }

    function Parent(n: NodeId): NodeId
      requires n in parentEdge
    {
      OtherEnd(parentEdge[n], n)
    }
  }

  datatype Net = Net(
    tree: Tree, byId: map<NodeId, Node>, subtree: map<EdgeId, set<NodeId>>, pu: map<EdgeId, Impedance>)

  /** The end of `e` that is not `n`, the way the analytics recover a parent. */
  function OtherEnd(e: Edge, n: NodeId): NodeId {
    if e.toNode == n then e.fromNode else e.toNode
  }

  // ---- growing the tree ----------------------------------------------------

  ghost predicate ParentOk(edges: seq<Edge>, e: Edge, n: NodeId, before: seq<NodeId>) {
    && e in edges && e.isClosed
    && Joins(LinkOf(e), OtherEnd(e, n), n)
    && OtherEnd(e, n) in before
  }

  /** `order` lists the nodes so that every parent comes before its children. */
  ghost predicate Rooted(edges: seq<Edge>, root: NodeId, order: seq<NodeId>, pe: map<NodeId, Edge>) {
    && order != [] && order[0] == root && Distinct(order)
    && pe.Keys == Elems(order) - {root}
    && forall i :: 0 < i < |order| ==> order[i] in pe && ParentOk(edges, pe[order[i]], order[i], order[..i])
  }

  /** The same while nodes wait on the stack: their parents are already listed. */
  ghost predicate Growing(
    edges: seq<Edge>, root: NodeId, order: seq<NodeId>, stack: seq<NodeId>, seen: set<NodeId>, pe: map<NodeId, Edge>)
  {
    && Distinct(order) && Distinct(stack) && (forall n :: n in stack ==> n !in order)
    && seen == Elems(order) + Elems(stack)
    && (if order == [] then stack == [root] else order[0] == root)
    && pe.Keys == seen - {root}
    && (forall i :: 0 < i < |order| ==> order[i] in pe && ParentOk(edges, pe[order[i]], order[i], order[..i]))
    && (forall n :: n in stack && n != root ==> n in pe && ParentOk(edges, pe[n], n, order))
  }

  lemma GrowingStarts(edges: seq<Edge>, root: NodeId)
    ensures Growing(edges, root, [], [root], {root}, map[])
  {
  }

  lemma GrowingEnds(edges: seq<Edge>, root: NodeId, order: seq<NodeId>, seen: set<NodeId>, pe: map<NodeId, Edge>)
    requires Growing(edges, root, order, [], seen, pe)
    ensures Rooted(edges, root, order, pe) && seen == Elems(order)
  {
  }

  lemma PopParents(edges: seq<Edge>, root: NodeId, order: seq<NodeId>, cur: NodeId, pe: map<NodeId, Edge>)
    requires forall i :: 0 < i < |order| ==> order[i] in pe && ParentOk(edges, pe[order[i]], order[i], order[..i])
    requires order != [] ==> cur in pe && ParentOk(edges, pe[cur], cur, order)
    ensures var order' := order + [cur];
      forall i :: 0 < i < |order'| ==> order'[i] in pe && ParentOk(edges, pe[order'[i]], order'[i], order'[..i])
  {
    var order' := order + [cur];
    forall i | 0 < i < |order'|
      ensures order'[i] in pe && ParentOk(edges, pe[order'[i]], order'[i], order'[..i])
    {
      assert order'[..i] == order[..i];
      if i == |order| { assert order[..i] == order; }
    }
  }

  lemma DistinctInit(rest: seq<NodeId>, cur: NodeId)
    requires Distinct(rest + [cur])
    ensures Distinct(rest) && cur !in rest
  {
    var s := rest + [cur];
    forall i | 0 <= i < |rest| ensures rest[i] != cur {
      assert s[i] != s[|rest|];
    }
    forall i, j | 0 <= i < j < |rest| ensures rest[i] != rest[j] {
      assert s[i] != s[j];
    }
  }

  lemma DistinctSnoc(order: seq<NodeId>, cur: NodeId)
    requires Distinct(order) && cur !in order
    ensures Distinct(order + [cur])
  {
  }

  lemma PopGrowing(
      edges: seq<Edge>, root: NodeId, order: seq<NodeId>, rest: seq<NodeId>, cur: NodeId,
      seen: set<NodeId>, pe: map<NodeId, Edge>)
    requires Growing(edges, root, order, rest + [cur], seen, pe)
    ensures Growing(edges, root, order + [cur], rest, seen, pe)
    ensures cur in seen
  {
    hide ParentOk, Distinct;
    assert (rest + [cur])[|rest|] == cur;
    assert cur in rest + [cur] && cur in seen;
    if order == [] { assert |rest + [cur]| == 1; }
    assert (order + [cur])[0] == root;
    assert order != [] ==> order[0] in order && cur != root;
    PopParents(edges, root, order, cur, pe);
    assert Elems(order + [cur]) == Elems(order) + {cur};
    assert Elems(rest + [cur]) == Elems(rest) + {cur};
    DistinctInit(rest, cur);
    DistinctSnoc(order, cur);
    forall n | n in rest ensures n !in order + [cur] {
      assert n in rest + [cur];
    }
    forall n | n in rest && n != root ensures n in pe && ParentOk(edges, pe[n], n, order + [cur]) {
      assert n in rest + [cur];
      ParentOkLater(edges, pe[n], n, order, cur);
    }
  }

  lemma ParentOkLater(edges: seq<Edge>, e: Edge, n: NodeId, before: seq<NodeId>, cur: NodeId)
    requires ParentOk(edges, e, n, before)
    ensures ParentOk(edges, e, n, before + [cur])
  {
  }

  method Discover(
      arcs: seq<Arc>, ghost edges: seq<Edge>, root: NodeId, ghost order: seq<NodeId>, cur: NodeId,
      seen0: set<NodeId>, stack0: seq<NodeId>, pe0: map<NodeId, Edge>)
    returns (seen: set<NodeId>, stack: seq<NodeId>, pe: map<NodeId, Edge>)
    requires order != [] && cur in order && Growing(edges, root, order, stack0, seen0, pe0)
    requires forall arc :: arc in arcs ==> IsArc(edges, cur, arc)
    ensures Growing(edges, root, order, stack, seen, pe)
    ensures seen == seen0 + Targets(arcs)
    ensures stack0 <= stack && (seen == seen0 ==> stack == stack0)
    ensures forall n :: n in stack <==> n in stack0 || n in seen - seen0
  {
    seen, stack, pe := seen0, stack0, pe0;
    for i := 0 to |arcs|
      invariant Growing(edges, root, order, stack, seen, pe)
      invariant seen == seen0 + Targets(arcs[..i])
      invariant stack0 <= stack && (seen == seen0 ==> stack == stack0)
      invariant forall n :: n in stack <==> n in stack0 || n in seen - seen0
    {
      assert arcs[..i + 1] == arcs[..i] + [arcs[i]];
      if arcs[i].to !in seen {
        PushGrowing(edges, root, order, stack, seen, pe, cur, arcs[i]);
        seen := seen + {arcs[i].to};
        pe := pe[arcs[i].to := arcs[i].via];
        stack := stack + [arcs[i].to];
      }
    }
    assert arcs[..|arcs|] == arcs;
  }

  lemma PushGrowing(
      edges: seq<Edge>, root: NodeId, order: seq<NodeId>, stack: seq<NodeId>, seen: set<NodeId>, pe: map<NodeId, Edge>,
      cur: NodeId, arc: Arc)
    requires Growing(edges, root, order, stack, seen, pe) && order != [] && cur in order
    requires IsArc(edges, cur, arc) && arc.to !in seen
    ensures Growing(edges, root, order, stack + [arc.to], seen + {arc.to}, pe[arc.to := arc.via])
  {
  }

  method GrowTree(nodes: seq<Node>, edges: seq<Edge>, root: NodeId)
    returns (seen: set<NodeId>, order: seq<NodeId>, pe: map<NodeId, Edge>)
    requires WellFormed(nodes, edges) && root in NodeIds(nodes)
    ensures seen == Reach(ClosedLinks(edges), {root}) == Elems(order)
    ensures Rooted(edges, root, order, pe)
  {
    hide Growing, Reach;
    var adj := BuildAdjacency(nodes, edges);
    ghost var E := ClosedLinks(edges);
    ReachIsLeast(E, {root});
    ReachKnown(nodes, edges, {root});
    var stack := [root];
    GrowingStarts(edges, root);
    seen, order, pe := {root}, [], map[];
    while stack != []
      invariant {root} <= seen <= Reach(E, {root})
      invariant Growing(edges, root, order, stack, seen, pe)
      invariant Explored(adj, seen, stack)
      decreases NodeIds(nodes) - seen, |stack|
    {
      var cur, rest := stack[|stack| - 1], stack[..|stack| - 1];
      Popped(stack);
      PopGrowing(edges, root, order, rest, cur, seen, pe);
      order := order + [cur];
      TargetsReached(nodes, edges, adj, {root}, cur);
      ghost var seen0 := seen;
      seen, stack, pe := Discover(adj[cur], edges, root, order, cur, seen, rest, pe);
      VisitKeepsExplored(adj, seen0, rest, cur, seen, stack, NodeIds(nodes));
    }
    GrowingEnds(edges, root, order, seen, pe);
    ExploredIsClosed(nodes, edges, adj, seen);
  }

  // ---- paths, chains and subtrees ------------------------------------------

  ghost predicate Linked(t: Tree, n: NodeId) {
    && n in t.parentEdge && n in t.pathEdges
    && Joins(LinkOf(t.parentEdge[n]), t.Parent(n), n)
    && t.Parent(n) in t.pathEdges
    && t.pathEdges[n] == t.pathEdges[t.Parent(n)] + [t.parentEdge[n]]
  }

  /** Every node but the root hangs by its parent edge, and its root path is its
      parent's root path followed by that edge. */
  ghost predicate IsTree(t: Tree) {
    && t.root in t.pathEdges && t.pathEdges[t.root] == []
    && t.parentEdge.Keys == t.pathEdges.Keys - {t.root}
    && (forall n :: n in t.parentEdge ==> Linked(t, n))
    && (forall m, n :: m in t.parentEdge && n in t.parentEdge && m != n ==> t.parentEdge[m].id != t.parentEdge[n].id)
  }

  /** The nodes from `n` up to the root, deepest first. */
  ghost function Chain(t: Tree, n: NodeId): (c: seq<NodeId>)
    requires IsTree(t) && n in t.pathEdges
    ensures |c| == |t.pathEdges[n]| + 1 && c[0] == n && t.root in c
    ensures Elems(c) <= t.Nodes()
    decreases |t.pathEdges[n]|
  {
    if n == t.root then [n]
    else
      assert Linked(t, n);
      [n] + Chain(t, t.Parent(n))
  }

  /** What hangs below `n`, `n` included. */
  ghost function Below(t: Tree, n: NodeId): set<NodeId>
    requires IsTree(t)
  {
    set k | k in t.pathEdges && n in Chain(t, k)
  }

  /** A node lies in the subtree of an edge exactly when the edge is on its root path. */
  lemma {:induction false} SubtreeIffOnPath(t: Tree, n: NodeId, k: NodeId)
    requires IsTree(t) && n in t.parentEdge && k in t.pathEdges
    ensures k in Below(t, n) <==> t.parentEdge[n] in t.pathEdges[k]
    decreases |t.pathEdges[k]|
  {
    if k != t.root {
      assert Linked(t, k);
      SubtreeIffOnPath(t, n, t.Parent(k));
      assert t.parentEdge[n] == t.parentEdge[k] <==> n == k;
    }
  }

  /** Root paths have no repeated edge, and hold parent edges only. */
  lemma {:induction false} PathIsParentEdges(t: Tree, k: NodeId)
    requires IsTree(t) && k in t.pathEdges
    ensures forall i :: 0 <= i < |t.pathEdges[k]| ==>
      exists n :: n in t.parentEdge && t.parentEdge[n] == t.pathEdges[k][i] && |t.pathEdges[n]| == i + 1
    decreases |t.pathEdges[k]|
  {
    if k != t.root {
      assert Linked(t, k);
      PathIsParentEdges(t, t.Parent(k));
    }
  }

  lemma PathDistinct(t: Tree, k: NodeId)
    requires IsTree(t) && k in t.pathEdges
    ensures Distinct(t.pathEdges[k])
  {
    PathIsParentEdges(t, k);
    forall i, j | 0 <= i < j < |t.pathEdges[k]| ensures t.pathEdges[k][i] != t.pathEdges[k][j] {
      var m :| m in t.parentEdge && t.parentEdge[m] == t.pathEdges[k][i] && |t.pathEdges[m]| == i + 1;
      var n :| n in t.parentEdge && t.parentEdge[n] == t.pathEdges[k][j] && |t.pathEdges[n]| == j + 1;
    }
  }

  ghost predicate PathsSoFar(root: NodeId, order: seq<NodeId>, pe: map<NodeId, Edge>, paths: map<NodeId, seq<Edge>>) {
    && paths.Keys == Elems(order) && root in paths && paths[root] == []
    && forall n :: n in paths && n != root ==> Linked(Tree(root, order, pe, paths), n)
  }

  lemma PathsGrow(
      edges: seq<Edge>, root: NodeId, order: seq<NodeId>, pe: map<NodeId, Edge>, paths: map<NodeId, seq<Edge>>,
      n: NodeId)
    requires PathsSoFar(root, order, pe, paths)
    requires n in pe && n !in order && ParentOk(edges, pe[n], n, order)
    ensures OtherEnd(pe[n], n) in paths
    ensures PathsSoFar(root, order + [n], pe, paths[n := paths[OtherEnd(pe[n], n)] + [pe[n]]])
  {
    var paths' := paths[n := paths[OtherEnd(pe[n], n)] + [pe[n]]];
    assert Elems(order + [n]) == Elems(order) + {n};
    forall m | m in paths' && m != root ensures Linked(Tree(root, order + [n], pe, paths'), m) {
      if m != n { assert Linked(Tree(root, order, pe, paths), m); }
    }
  }

  lemma NoPathsYet(edges: seq<Edge>, root: NodeId, order: seq<NodeId>, pe: map<NodeId, Edge>)
    requires Rooted(edges, root, order, pe)
    ensures |order| >= 1 && PathsSoFar(root, order[..1], pe, map[root := []])
  {
  }

  lemma NextInOrder(edges: seq<Edge>, root: NodeId, order: seq<NodeId>, pe: map<NodeId, Edge>, i: nat)
    requires Rooted(edges, root, order, pe) && 0 < i < |order|
    ensures order[i] in pe && order[i] !in order[..i] && ParentOk(edges, pe[order[i]], order[i], order[..i])
  {
  }

  method BuildPaths(ghost edges: seq<Edge>, root: NodeId, order: seq<NodeId>, pe: map<NodeId, Edge>)
    returns (paths: map<NodeId, seq<Edge>>)
    requires UniqueIds(edges) && Rooted(edges, root, order, pe)
    ensures paths.Keys == Elems(order)
    ensures IsTree(Tree(root, order, pe, paths))
  {
    hide *;
    paths := map[root := []];
    NoPathsYet(edges, root, order, pe);
    for i := 1 to |order|
      invariant PathsSoFar(root, order[..i], pe, paths)
    {
      var n := order[i];
      PrefixGrows(order, i);
      NextInOrder(edges, root, order, pe, i);
      PathsGrow(edges, root, order[..i], pe, paths, n);
      paths := paths[n := paths[OtherEnd(pe[n], n)] + [pe[n]]];
    }
    assert order[..|order|] == order;
    PathsDone(edges, root, order, pe, paths);
  }

  lemma PathsDone(
      edges: seq<Edge>, root: NodeId, order: seq<NodeId>, pe: map<NodeId, Edge>, paths: map<NodeId, seq<Edge>>)
    requires UniqueIds(edges) && Rooted(edges, root, order, pe) && PathsSoFar(root, order, pe, paths)
    ensures paths.Keys == Elems(order)
    ensures IsTree(Tree(root, order, pe, paths))
  {
    forall n | n in pe ensures pe[n] in edges && Linked(Tree(root, order, pe, paths), n) {
      var i :| 0 <= i < |order| && order[i] == n;
      assert ParentOk(edges, pe[order[i]], order[i], order[..i]);
    }
    DistinctParents(edges, Tree(root, order, pe, paths));
  }

  lemma DistinctParents(edges: seq<Edge>, t: Tree)
    requires UniqueIds(edges)
    requires forall n :: n in t.parentEdge ==> t.parentEdge[n] in edges && Linked(t, n)
    ensures forall m, n :: m in t.parentEdge && n in t.parentEdge && m != n ==> t.parentEdge[m].id != t.parentEdge[n].id
  {
  }

  // ---- subtrees and impedances ---------------------------------------------

  ghost function ChildSet(t: Tree, p: NodeId): set<NodeId> {
    set n | n in t.parentEdge && t.Parent(n) == p
  }

  ghost predicate ChildrenSoFar(t: Tree, listed: seq<NodeId>, children: map<NodeId, seq<NodeId>>) {
    && children.Keys == t.Nodes()
    && forall p :: p in children ==>
      Distinct(children[p]) && Elems(children[p]) == ChildSet(t, p) * Elems(listed)
  }

  lemma ChildrenGrow(t: Tree, listed: seq<NodeId>, children: map<NodeId, seq<NodeId>>, n: NodeId)
    requires IsTree(t) && ChildrenSoFar(t, listed, children)
    requires n in t.parentEdge && n !in listed
    ensures t.Parent(n) in children
    ensures ChildrenSoFar(t, listed + [n], children[t.Parent(n) := children[t.Parent(n)] + [n]])
  {
    assert Linked(t, n);
    var p := t.Parent(n);
    assert Elems(listed + [n]) == Elems(listed) + {n};
    assert n !in Elems(children[p]);
    DistinctAppend(children[p], [n]);
    assert Elems(children[p] + [n]) == Elems(children[p]) + {n};
  }

  lemma ChildrenSkipRoot(t: Tree, listed: seq<NodeId>, children: map<NodeId, seq<NodeId>>)
    requires IsTree(t) && ChildrenSoFar(t, listed, children)
    ensures ChildrenSoFar(t, listed + [t.root], children)
  {
  }

  method BuildChildren(t: Tree) returns (children: map<NodeId, seq<NodeId>>)
    requires IsTree(t) && Elems(t.order) == t.Nodes() && Distinct(t.order)
    ensures children.Keys == t.Nodes()
    ensures forall p :: p in children ==> Distinct(children[p]) && Elems(children[p]) == ChildSet(t, p)
  {
    hide ChildrenSoFar, IsTree, ChildSet;
    children := map n | n in t.pathEdges :: [];
    NoChildrenYet(t, children);
    for i := 0 to |t.order|
      invariant ChildrenSoFar(t, t.order[..i], children)
    {
      var n := t.order[i];
      PrefixGrows(t.order, i);
      assert n in Elems(t.order);
      ListedNode(t, n);
      if n != t.root {
        ChildrenGrow(t, t.order[..i], children, n);
        children := children[t.Parent(n) := children[t.Parent(n)] + [n]];
      } else {
        ChildrenSkipRoot(t, t.order[..i], children);
      }
    }
    assert t.order[..|t.order|] == t.order;
    AllChildren(t, children);
  }

  lemma NoChildrenYet(t: Tree, children: map<NodeId, seq<NodeId>>)
    requires children.Keys == t.Nodes() && forall n :: n in children ==> children[n] == []
    ensures ChildrenSoFar(t, [], children)
  {
  }

  lemma AllChildren(t: Tree, children: map<NodeId, seq<NodeId>>)
    requires IsTree(t) && Elems(t.order) == t.Nodes() && ChildrenSoFar(t, t.order, children)
    ensures children.Keys == t.Nodes()
    ensures forall p :: p in children ==> Distinct(children[p]) && Elems(children[p]) == ChildSet(t, p)
  {
  }

  lemma {:induction false} ChainAbove(t: Tree, a: NodeId, k: NodeId)
    requires IsTree(t) && k in t.pathEdges && a in Chain(t, k)
    ensures a in t.pathEdges && |t.pathEdges[a]| <= |t.pathEdges[k]|
    ensures a == k || (k != t.root && a in Chain(t, t.Parent(k)) && |t.pathEdges[a]| < |t.pathEdges[k]|)
    decreases |t.pathEdges[k]|
  {
    if k != t.root && a != k {
      assert Linked(t, k);
      ChainAbove(t, a, t.Parent(k));
    }
  }

  ghost predicate Sweeping(t: Tree, start: NodeId, out: set<NodeId>, st: seq<NodeId>)
    requires IsTree(t)
  {
    && Distinct(st) && (forall x :: x in st ==> x !in out)
    && start in out + Elems(st)
    && (forall x :: x in out + Elems(st) ==>
        x in t.pathEdges && start in Chain(t, x) && (x == start || (x in t.parentEdge && t.Parent(x) in out)))
    && (forall x :: x in out ==> ChildSet(t, x) <= out + Elems(st))
  }

  lemma KidsAreNew(t: Tree, start: NodeId, out: set<NodeId>, rest: seq<NodeId>, c: NodeId, x: NodeId)
    requires IsTree(t) && start in t.pathEdges && Sweeping(t, start, out, rest + [c])
    requires x in ChildSet(t, c)
    ensures x in t.pathEdges && start in Chain(t, x) && x !in out && x !in rest && x != c
  {
    assert c in rest + [c];
    ChainAbove(t, start, c);
    assert Linked(t, x);
    assert forall y :: y in rest ==> y in rest + [c];
  }

  lemma SweepVisits(t: Tree, start: NodeId, out: set<NodeId>, rest: seq<NodeId>, c: NodeId, kids: seq<NodeId>)
    requires IsTree(t) && start in t.pathEdges
    requires Sweeping(t, start, out, rest + [c])
    requires Distinct(kids) && Elems(kids) == ChildSet(t, c)
    ensures c in t.pathEdges && c !in out
    ensures Sweeping(t, start, out + {c}, rest + kids)
  {
    assert c in rest + [c];
    forall x | x in kids ensures x in t.pathEdges && start in Chain(t, x) && x !in out && x !in rest && x != c {
      assert x in Elems(kids);
      KidsAreNew(t, start, out, rest, c, x);
    }
    SweepStep(t, start, out, rest, c, kids);
  }

  lemma SweepStep(t: Tree, start: NodeId, out: set<NodeId>, rest: seq<NodeId>, c: NodeId, kids: seq<NodeId>)
    requires IsTree(t) && Sweeping(t, start, out, rest + [c])
    requires Distinct(kids) && Elems(kids) == ChildSet(t, c)
    requires forall x :: x in kids ==> x in t.pathEdges && start in Chain(t, x) && x !in out && x !in rest && x != c
    ensures Sweeping(t, start, out + {c}, rest + kids)
  {
    hide Chain, IsTree;
    DistinctInit(rest, c);
    DistinctAppend(rest, kids);
    assert Elems(rest + [c]) == Elems(rest) + {c};
    assert Elems(rest + kids) == Elems(rest) + Elems(kids);
    forall x | x in rest + kids ensures x !in out + {c} {
      if x in rest { assert x in rest + [c]; }
    }
  }

  lemma DistinctAppend(a: seq<NodeId>, b: seq<NodeId>)
    requires Distinct(a) && Distinct(b) && forall x :: x in b ==> x !in a
    ensures Distinct(a + b)
  {
    forall i, j | 0 <= i < j < |a + b| ensures (a + b)[i] != (a + b)[j] {
      if i < |a| <= j { assert b[j - |a|] in b; }
    }
  }

  lemma {:induction false} SweepCovers(t: Tree, start: NodeId, out: set<NodeId>, k: NodeId)
    requires IsTree(t) && start in out && k in t.pathEdges && start in Chain(t, k)
    requires forall x :: x in out ==> ChildSet(t, x) <= out
    ensures k in out
    decreases |t.pathEdges[k]|
  {
    if k != start {
      ChainAbove(t, start, k);
      assert Linked(t, k);
      SweepCovers(t, start, out, t.Parent(k));
      assert k in ChildSet(t, t.Parent(k));
    }
  }

  /** `descendants` keeps no visited set; that it ends and visits each node once is
      because it walks a tree. */
  method Descendants(t: Tree, children: map<NodeId, seq<NodeId>>, start: NodeId) returns (out: set<NodeId>)
    requires IsTree(t) && start in t.pathEdges && children.Keys == t.Nodes()
    requires forall p :: p in children ==> Distinct(children[p]) && Elems(children[p]) == ChildSet(t, p)
    ensures out == Below(t, start)
  {
    hide Chain, ChildSet;
    out := {};
    var st := [start];
    SweepStarts(t, start);
    while st != []
      invariant Sweeping(t, start, out, st)
      decreases t.Nodes() - out
    {
      var c, rest := st[|st| - 1], st[..|st| - 1];
      Popped(st);
      SweepVisits(t, start, out, rest, c, children[c]);
      out := out + {c};
      st := rest + children[c];
    }
    SweepEnds(t, start, out);
  }

  lemma SweepStarts(t: Tree, start: NodeId)
    requires IsTree(t) && start in t.pathEdges
    ensures Sweeping(t, start, {}, [start])
  {
  }

  lemma SweepEnds(t: Tree, start: NodeId, out: set<NodeId>)
    requires IsTree(t) && Sweeping(t, start, out, [])
    ensures out == Below(t, start)
  {
    forall k | k in Below(t, start) ensures k in out {
      SweepCovers(t, start, out, k);
    }
  }

  const SBASE_KW := 1000.0

  function BaseKv(n: Node): (kv: real)
    ensures kv != 0.0
  {
    if n.nominalKv == 0.0 then 0.415 else n.nominalKv
  }

  function PerUnit(e: Edge, child: Node): Impedance {
    var zbase := BaseKv(child) * BaseKv(child) / (SBASE_KW / 1000.0);
    if zbase == 0.0 then Impedance(0.0, 0.0) else Impedance(e.resistanceOhm / zbase, e.reactanceOhm / zbase)
  }

  ghost predicate SubtreesOk(net: Net) {
    && IsTree(net.tree) && net.tree.Nodes() <= net.byId.Keys
    && net.subtree.Keys == net.pu.Keys == (set n | n in net.tree.parentEdge :: net.tree.parentEdge[n].id)
    && forall n :: n in net.tree.parentEdge ==>
      && net.subtree[net.tree.parentEdge[n].id] == Below(net.tree, n)
      && net.pu[net.tree.parentEdge[n].id] == PerUnit(net.tree.parentEdge[n], net.byId[n])
  }

  /** The tree covers what its root energizes over closed edges. */
  ghost predicate Spans(nodes: seq<Node>, edges: seq<Edge>, net: Net) {
    && SourceList(nodes) != [] && net.tree.root == SourceList(nodes)[0]
    && net.tree.Nodes() == Reach(ClosedLinks(edges), {net.tree.root})
    && Rooted(edges, net.tree.root, net.tree.order, net.tree.parentEdge)
    && Elems(net.tree.order) == net.tree.Nodes()
    && net.byId.Keys == NodeIds(nodes)
    && forall n :: n in nodes ==> net.byId[n.id] == n
  }

  ghost predicate IsNet(nodes: seq<Node>, edges: seq<Edge>, net: Net) {
    SubtreesOk(net) && Spans(nodes, edges, net)
  }

  function ById(nodes: seq<Node>): map<NodeId, Node> {
    if nodes == [] then map[] else ById(nodes[..|nodes| - 1])[nodes[|nodes| - 1].id := nodes[|nodes| - 1]]
  }

  lemma {:induction false} ByIdFinds(nodes: seq<Node>)
    requires forall i, j :: 0 <= i < j < |nodes| ==> nodes[i].id != nodes[j].id
    ensures ById(nodes).Keys == NodeIds(nodes)
    ensures forall n :: n in nodes ==> ById(nodes)[n.id] == n
  {
    if nodes != [] {
      var k := |nodes| - 1;
      PrefixGrows(nodes, k);
      ByIdFinds(nodes[..k]);
      assert forall n :: n in nodes <==> n in nodes[..k] || n == nodes[k];
    }
  }

  ghost predicate SubtreesSoFar(
    t: Tree, byId: map<NodeId, Node>, listed: set<NodeId>,
    subtree: map<EdgeId, set<NodeId>>, pu: map<EdgeId, Impedance>)
    requires IsTree(t) && t.Nodes() <= byId.Keys
  {
    && subtree.Keys == pu.Keys == (set n | n in t.parentEdge && n in listed :: t.parentEdge[n].id)
    && forall n :: n in t.parentEdge && n in listed ==>
      && subtree[t.parentEdge[n].id] == Below(t, n)
      && pu[t.parentEdge[n].id] == PerUnit(t.parentEdge[n], byId[n])
  }

  lemma SubtreesGrow(
      t: Tree, byId: map<NodeId, Node>, listed: set<NodeId>,
      subtree: map<EdgeId, set<NodeId>>, pu: map<EdgeId, Impedance>, n: NodeId)
    requires IsTree(t) && t.Nodes() <= byId.Keys && n in t.parentEdge && n !in listed
    requires SubtreesSoFar(t, byId, listed, subtree, pu)
    ensures var e := t.parentEdge[n];
      SubtreesSoFar(t, byId, listed + {n}, subtree[e.id := Below(t, n)], pu[e.id := PerUnit(e, byId[n])])
  {
    hide Below, PerUnit, IsTree;
    OtherIds(t, n);
    var subtree' := subtree[t.parentEdge[n].id := Below(t, n)];
    assert subtree'.Keys == subtree.Keys + {t.parentEdge[n].id};
  }

  lemma OtherIds(t: Tree, n: NodeId)
    requires IsTree(t) && n in t.parentEdge
    ensures forall m :: m in t.parentEdge && m != n ==> t.parentEdge[m].id != t.parentEdge[n].id
    ensures t.parentEdge.Keys <= t.Nodes()
  {
  }

  lemma NoSubtreesYet(t: Tree, byId: map<NodeId, Node>)
    requires IsTree(t) && t.Nodes() <= byId.Keys
    ensures SubtreesSoFar(t, byId, {}, map[], map[])
  {
  }

  lemma ListedNode(t: Tree, n: NodeId)
    requires IsTree(t) && n in t.Nodes()
    ensures n == t.root || n in t.parentEdge
  {
  }

  lemma SubtreesSkipRoot(
      t: Tree, byId: map<NodeId, Node>, listed: set<NodeId>,
      subtree: map<EdgeId, set<NodeId>>, pu: map<EdgeId, Impedance>)
    requires IsTree(t) && t.Nodes() <= byId.Keys && SubtreesSoFar(t, byId, listed, subtree, pu)
    ensures SubtreesSoFar(t, byId, listed + {t.root}, subtree, pu)
  {
  }

  method BuildSubtrees(t: Tree, byId: map<NodeId, Node>)
    returns (subtree: map<EdgeId, set<NodeId>>, pu: map<EdgeId, Impedance>)
    requires IsTree(t) && t.Nodes() <= byId.Keys && Elems(t.order) == t.Nodes() && Distinct(t.order)
    ensures SubtreesSoFar(t, byId, t.Nodes(), subtree, pu)
  {
    hide Below, IsTree, SubtreesSoFar;
    var children := BuildChildren(t);
    NoSubtreesYet(t, byId);
    assert Elems(t.order[..0]) == {};
    subtree, pu := map[], map[];
    for i := 0 to |t.order|
      invariant SubtreesSoFar(t, byId, Elems(t.order[..i]), subtree, pu)
    {
      var n := t.order[i];
      PrefixGrows(t.order, i);
      assert n in Elems(t.order);
      ListedNode(t, n);
      if n != t.root {
        var e := t.parentEdge[n];
        SubtreesGrow(t, byId, Elems(t.order[..i]), subtree, pu, n);
        var d := Descendants(t, children, n);
        subtree := subtree[e.id := d];
        pu := pu[e.id := PerUnit(e, byId[n])];
      } else {
        SubtreesSkipRoot(t, byId, Elems(t.order[..i]), subtree, pu);
      }
    }
    assert t.order[..|t.order|] == t.order;
  }

  method BuildRadial(nodes: seq<Node>, edges: seq<Edge>) returns (r: Result<Net>)
    requires WellFormed(nodes, edges)
    ensures r.Err? <==> SourceList(nodes) == []
    ensures r.Ok? ==> IsNet(nodes, edges, r.value)
  {
    hide Reach, Rooted, Below, IsTree, SubtreesSoFar, IsNet;
    if SourceList(nodes) == [] {
      return Err("no substation/source node");
    }
    var root := SourceList(nodes)[0];
    assert root in SourceList(nodes);
    var byId := ById(nodes);
    ByIdFinds(nodes);
    ReachKnown(nodes, edges, {root});
    var seen, order, pe := GrowTree(nodes, edges, root);
    RootedDistinct(edges, root, order, pe);
    var paths := BuildPaths(edges, root, order, pe);
    var t := Tree(root, order, pe, paths);
    var subtree, pu := BuildSubtrees(t, byId);
    r := Ok(Net(t, byId, subtree, pu));
    NetAssembled(nodes, edges, r.value);
  }

  lemma NetAssembled(nodes: seq<Node>, edges: seq<Edge>, net: Net)
    requires IsTree(net.tree) && net.tree.Nodes() <= net.byId.Keys
    requires SubtreesSoFar(net.tree, net.byId, net.tree.Nodes(), net.subtree, net.pu)
    requires Spans(nodes, edges, net)
    ensures IsNet(nodes, edges, net)
  {
    hide Below, Spans;
    var t := net.tree;
    assert (set n | n in t.parentEdge :: t.parentEdge[n].id)
        == (set n | n in t.parentEdge && n in t.Nodes() :: t.parentEdge[n].id);
  }

  lemma RootedDistinct(edges: seq<Edge>, root: NodeId, order: seq<NodeId>, pe: map<NodeId, Edge>)
    requires Rooted(edges, root, order, pe)
    ensures Distinct(order)
  {
  }
}

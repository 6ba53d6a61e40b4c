/** Ancestor walks with the 1000-step guard, and the deepest common ancestor they find. */
module Ancestry {
  import opened Graph
  import opened Results
  import opened RadialTree
  import opened TreeSums
  import opened Sequences

  const GUARD: nat := 1000

  /** Path from `n` towards the root, deepest first, cut off by the guard. */
  ghost function Guarded(t: Tree, n: NodeId): seq<NodeId>
    requires IsTree(t) && n in t.pathEdges
  {
    var c := Chain(t, n);
    if |c| <= GUARD then c else c[..GUARD]
  }

  lemma {:induction false} ChainLinks(t: Tree, n: NodeId, j: nat)
    requires IsTree(t) && n in t.pathEdges && j < |Chain(t, n)|
    ensures Chain(t, n)[j] in t.pathEdges
    ensures |t.pathEdges[Chain(t, n)[j]]| == |t.pathEdges[n]| - j
    ensures Chain(t, n)[j] == t.root <==> j == |Chain(t, n)| - 1
    ensures j + 1 < |Chain(t, n)| ==>
      Chain(t, n)[j] in t.parentEdge && Chain(t, n)[j + 1] == t.Parent(Chain(t, n)[j])
    decreases j
  {
    if n != t.root {
      assert Linked(t, n);
      if j > 0 { ChainLinks(t, t.Parent(n), j - 1); }
    }
  }

  method Ancestors(t: Tree, n: NodeId) returns (chain: seq<NodeId>)
    requires IsTree(t) && n in t.pathEdges
    ensures chain == Guarded(t, n)
  {
    hide IsTree, Chain;
    ghost var c := Chain(t, n);
    chain := [];
    var cur := Some(n);
    var guard := 0;
    while cur.Some? && guard < GUARD
      invariant guard <= GUARD && guard <= |c| && chain == c[..guard]
      invariant cur.Some? ==> guard < |c| && cur.value == c[guard]
      invariant cur.None? ==> guard == |c|
      decreases GUARD - guard, cur.Some?
    {
      ChainLinks(t, n, guard);
      chain := chain + [cur.value];
      if cur.value == t.root {
        break;
      }
      cur := if cur.value in t.parentEdge then Some(t.Parent(cur.value)) else None;
      guard := guard + 1;
    }
    assert c[..|c|] == c;
  }

  // ---- deepest common ancestor ---------------------------------------------

  ghost predicate CommonAncestor(t: Tree, members: seq<NodeId>, a: NodeId)
    requires IsTree(t) && forall m :: m in members ==> m in t.pathEdges
  {
    a in t.pathEdges && forall m :: m in members ==> a in Chain(t, m)
  }

  ghost predicate IsLca(t: Tree, members: seq<NodeId>, a: NodeId)
    requires IsTree(t) && forall m :: m in members ==> m in t.pathEdges
  {
    CommonAncestor(t, members, a)
    && forall b :: CommonAncestor(t, members, b) ==> |t.pathEdges[b]| <= |t.pathEdges[a]|
  }

  ghost predicate GuardedCommon(t: Tree, members: seq<NodeId>, a: NodeId)
    requires IsTree(t) && forall m :: m in members ==> m in t.pathEdges
  {
    a in t.pathEdges && forall m :: m in members ==> a in Guarded(t, m)
  }

  /** The guarded walks of the members share no node. */
  ghost predicate LacksCommon(t: Tree, members: seq<NodeId>)
    requires IsTree(t) && forall m :: m in members ==> m in t.pathEdges
  {
    !exists a :: GuardedCommon(t, members, a)
  }

  /** What `_lca` computes: a node common to the guarded walks with the longest guarded
      walk of its own. */
  ghost predicate IsGuardedLca(t: Tree, members: seq<NodeId>, a: NodeId)
    requires IsTree(t) && forall m :: m in members ==> m in t.pathEdges
  {
    GuardedCommon(t, members, a)
    && forall b :: GuardedCommon(t, members, b) ==> |Guarded(t, b)| <= |Guarded(t, a)|
  }

  method CommonNodes(t: Tree, members: seq<NodeId>) returns (common: set<NodeId>)
    requires IsTree(t) && members != [] && forall m :: m in members ==> m in t.pathEdges
    ensures forall a :: a in common <==> GuardedCommon(t, members, a)
  {
    hide IsTree, Guarded;
    var first := Ancestors(t, members[0]);
    GuardedKnown(t, members[0]);
    common := Elems(first);
    for i := 1 to |members|
      invariant forall a :: a in common <==> GuardedCommon(t, members[..i], a)
    {
      var anc := Ancestors(t, members[i]);
      assert forall m :: m in members[..i + 1] <==> m in members[..i] || m == members[i];
      common := common * Elems(anc);
    }
    assert members[..|members|] == members;
  }

  lemma GuardedKnown(t: Tree, n: NodeId)
    requires IsTree(t) && n in t.pathEdges
    ensures forall a :: a in Guarded(t, n) ==> a in t.pathEdges && a in Chain(t, n)
    ensures n in Guarded(t, n)
  {
  }

  /** `_lca`: the exception is the maximum of an empty intersection. */
  method FindLca(t: Tree, members: seq<NodeId>) returns (r: Result<NodeId>)
    requires IsTree(t) && forall m :: m in members ==> m in t.pathEdges
    ensures members == [] ==> r == Ok(t.root)
    ensures members != [] ==> (r.Ok? <==> exists a :: GuardedCommon(t, members, a))
    ensures members != [] && r.Ok? ==> IsGuardedLca(t, members, r.value)
  {
    hide IsTree, Guarded, Chain;
    if members == [] {
      return Ok(t.root);
    }
    var common := CommonNodes(t, members);
    if common == {} {
      return Err("max() arg is an empty sequence");
    }
    var best :| best in common;
    var bestChain := Ancestors(t, best);
    var todo := common - {best};
    while todo != {}
      invariant todo <= common && best in common && bestChain == Guarded(t, best)
      invariant forall b :: b in common && b !in todo ==>
        GuardedCommon(t, members, b) && |Guarded(t, b)| <= |Guarded(t, best)|
      decreases todo
    {
      var n :| n in todo;
      var chain := Ancestors(t, n);
      if |chain| > |bestChain| {
        best, bestChain := n, chain;
      }
      todo := todo - {n};
    }
    r := Ok(best);
  }

  // ---- when the guard does no harm -----------------------------------------

  lemma {:induction false} ChainPosition(t: Tree, n: NodeId, a: NodeId)
    requires IsTree(t) && n in t.pathEdges && a in Chain(t, n)
    ensures a in t.pathEdges && |t.pathEdges[a]| <= |t.pathEdges[n]|
    ensures Chain(t, n)[|t.pathEdges[n]| - |t.pathEdges[a]|] == a
  {
    var j :| 0 <= j < |Chain(t, n)| && Chain(t, n)[j] == a;
    ChainLinks(t, n, j);
  }

  /** The guarded walk keeps the ancestors fewer than 1000 steps up. */
  lemma GuardedIff(t: Tree, n: NodeId, a: NodeId)
    requires IsTree(t) && n in t.pathEdges && a in t.pathEdges
    ensures a in Guarded(t, n) <==> a in Chain(t, n) && |t.pathEdges[n]| - |t.pathEdges[a]| < GUARD
    ensures |Guarded(t, n)| == if |t.pathEdges[n]| < GUARD then |t.pathEdges[n]| + 1 else GUARD
  {
    hide IsTree;
    var c := Chain(t, n);
    if a in c {
      ChainPosition(t, n, a);
      var j := |t.pathEdges[n]| - |t.pathEdges[a]|;
      if j < GUARD { assert Guarded(t, n)[j] == a; }
      if a in Guarded(t, n) {
        var i :| 0 <= i < |Guarded(t, n)| && Guarded(t, n)[i] == a;
        assert c[i] == a;
        ChainLinks(t, n, i);
      }
    }
  }

  lemma LcaUnique(t: Tree, members: seq<NodeId>, a: NodeId, b: NodeId)
    requires IsTree(t) && members != [] && forall m :: m in members ==> m in t.pathEdges
    requires CommonAncestor(t, members, a) && CommonAncestor(t, members, b)
    ensures |t.pathEdges[a]| == |t.pathEdges[b]| ==> a == b
  {
    assert members[0] in members;
    OnePerDepth(t, members[0], a, b);
  }

  /** Every cluster has exactly one deepest common ancestor. */
  lemma LcaExists(t: Tree, members: seq<NodeId>) returns (c: NodeId)
    requires IsTree(t) && members != [] && forall m :: m in members ==> m in t.pathEdges
    ensures IsLca(t, members, c)
    ensures forall a :: IsLca(t, members, a) ==> a == c
  {
    hide IsTree, Chain;
    var common := set a | a in t.pathEdges && CommonAncestor(t, members, a);
    RootIsCommon(t, members);
    assert t.root in common;
    c := Deepest(t, common);
    forall a | IsLca(t, members, a) ensures a == c {
      LcaUnique(t, members, a, c);
    }
  }

  lemma RootIsCommon(t: Tree, members: seq<NodeId>)
    requires IsTree(t) && forall m :: m in members ==> m in t.pathEdges
    ensures t.root in t.pathEdges && CommonAncestor(t, members, t.root)
  {
  }

  lemma {:induction false} Deepest(t: Tree, S: set<NodeId>) returns (c: NodeId)
    requires S != {} && S <= t.pathEdges.Keys
    ensures c in S && forall a :: a in S ==> |t.pathEdges[a]| <= |t.pathEdges[c]|
    decreases |S|
  {
    var x :| x in S;
    if S == {x} {
      c := x;
    } else {
      assert S - {x} != {};
      var y := Deepest(t, S - {x});
      c := if |t.pathEdges[x]| >= |t.pathEdges[y]| then x else y;
    }
  }

  /** `_lca` returns exactly when every member is fewer than 1000 steps below the deepest
      common ancestor, and then returns that ancestor for certain exactly when the
      ancestor is fewer than 1000 steps deep or some member is 999 steps below it. */
  lemma LcaIsExactWhen(t: Tree, members: seq<NodeId>, c: NodeId)
    requires IsTree(t) && members != [] && (forall m :: m in members ==> m in t.pathEdges) && IsLca(t, members, c)
    ensures (exists a :: GuardedCommon(t, members, a))
      <==> forall m :: m in members ==> |t.pathEdges[m]| - |t.pathEdges[c]| < GUARD
    ensures (exists a :: GuardedCommon(t, members, a)) ==>
      ((forall a :: IsGuardedLca(t, members, a) ==> a == c)
       <==> |t.pathEdges[c]| < GUARD || exists m :: m in members && |t.pathEdges[m]| - |t.pathEdges[c]| == GUARD - 1)
  {
    hide IsTree, Chain, Guarded;
    if exists a :: GuardedCommon(t, members, a) {
      var a :| GuardedCommon(t, members, a);
      GuardedCommonIsCommon(t, members, a);
      forall m | m in members ensures |t.pathEdges[m]| - |t.pathEdges[c]| < GUARD {
        GuardedIff(t, m, a);
      }
    }
    if forall m :: m in members ==> |t.pathEdges[m]| - |t.pathEdges[c]| < GUARD {
      forall m | m in members ensures c in Guarded(t, m) {
        GuardedIff(t, m, c);
      }
      assert GuardedCommon(t, members, c);
      if |t.pathEdges[c]| < GUARD || exists m :: m in members && |t.pathEdges[m]| - |t.pathEdges[c]| == GUARD - 1 {
        forall a | IsGuardedLca(t, members, a) ensures a == c {
          GuardForces(t, members, c, a);
        }
      } else {
        GuardTies(t, members, c);
      }
    }
  }

  lemma GuardedCommonIsCommon(t: Tree, members: seq<NodeId>, a: NodeId)
    requires IsTree(t) && (forall m :: m in members ==> m in t.pathEdges) && GuardedCommon(t, members, a)
    ensures CommonAncestor(t, members, a)
  {
  }

  lemma GuardForces(t: Tree, members: seq<NodeId>, c: NodeId, a: NodeId)
    requires IsTree(t) && members != [] && (forall m :: m in members ==> m in t.pathEdges) && IsLca(t, members, c)
    requires GuardedCommon(t, members, c) && IsGuardedLca(t, members, a)
    requires |t.pathEdges[c]| < GUARD || exists m :: m in members && |t.pathEdges[m]| - |t.pathEdges[c]| == GUARD - 1
    ensures a == c
  {
    hide IsTree, Chain, Guarded;
    GuardedCommonIsCommon(t, members, a);
    GuardedIff(t, a, a);
    GuardedIff(t, c, c);
    if |t.pathEdges[c]| >= GUARD {
      var m :| m in members && |t.pathEdges[m]| - |t.pathEdges[c]| == GUARD - 1;
      GuardedIff(t, m, a);
    }
    LcaUnique(t, members, a, c);
  }

  lemma GuardTies(t: Tree, members: seq<NodeId>, c: NodeId)
    requires IsTree(t) && members != [] && (forall m :: m in members ==> m in t.pathEdges) && IsLca(t, members, c)
    requires |t.pathEdges[c]| >= GUARD
    requires forall m :: m in members ==> |t.pathEdges[m]| - |t.pathEdges[c]| < GUARD - 1
    ensures exists a :: IsGuardedLca(t, members, a) && a != c
  {
    var q := ParentAbove(t, c);
    forall m | m in members ensures q in Guarded(t, m) {
      assert c in Chain(t, m);
      ParentInChain(t, m, c);
      GuardedIff(t, m, q);
    }
    GuardedIff(t, q, q);
    forall b | GuardedCommon(t, members, b) ensures |Guarded(t, b)| <= |Guarded(t, q)| {
      GuardedIff(t, b, b);
    }
    assert IsGuardedLca(t, members, q);
  }

  lemma ParentAbove(t: Tree, c: NodeId) returns (q: NodeId)
    requires IsTree(t) && c in t.pathEdges && |t.pathEdges[c]| > 0
    ensures c in t.parentEdge && q == t.Parent(c) && q in t.pathEdges && |t.pathEdges[q]| == |t.pathEdges[c]| - 1
  {
    assert Linked(t, c);
    q := t.Parent(c);
  }

  lemma {:induction false} ParentInChain(t: Tree, m: NodeId, c: NodeId)
    requires IsTree(t) && m in t.pathEdges && c in Chain(t, m) && c in t.parentEdge
    ensures t.Parent(c) in Chain(t, m)
    decreases |t.pathEdges[m]|
  {
    assert Linked(t, c);
    ChainAbove(t, c, m);
    if m == c {
      assert Chain(t, m) == [m] + Chain(t, t.Parent(m));
    } else {
      assert Linked(t, m);
      ParentInChain(t, t.Parent(m), c);
      assert Chain(t, m) == [m] + Chain(t, t.Parent(m));
    }
  }

  /** An ancestor and a node below it have no common node on their guarded walks exactly
      when 1000 or more edges lie between them: there `_lca` raises. */
  lemma AncestorAndNode(t: Tree, a: NodeId, n: NodeId)
    requires IsTree(t) && n in t.pathEdges && a in Chain(t, n) && a in t.pathEdges
    ensures forall m :: m in [a, n] ==> m in t.pathEdges
    ensures LacksCommon(t, [a, n]) <==> |t.pathEdges[n]| - |t.pathEdges[a]| >= GUARD
  {
    hide IsTree, Guarded, Chain;
    var d := |t.pathEdges[n]| - |t.pathEdges[a]|;
    ChainPosition(t, n, a);
    GuardedIff(t, a, a);
    GuardedIff(t, n, a);
    assert [a, n][0] == a && [a, n][1] == n;
    if d < GUARD {
      SelfInChain(t, a);
      assert GuardedCommon(t, [a, n], a);
    } else {
      forall b | GuardedCommon(t, [a, n], b) ensures false {
        GuardedIff(t, a, b);
        GuardedIff(t, n, b);
        ChainPosition(t, a, b);
      }
    }
  }

  lemma SelfInChain(t: Tree, n: NodeId)
    requires IsTree(t) && n in t.pathEdges
    ensures n in Chain(t, n)
  {
    assert Chain(t, n)[0] == n;
  }
}

/** Sums over a subtree by its child subtrees, and root paths as sets of ancestors. */
module TreeSums {
  import opened Graph
  import opened RadialTree
  import opened Sums
  import opened ComplexNumbers
  import opened ComplexSums
  import opened Sequences

  /** The nodes of the root path of `n`, the root left out. */
  ghost function Above(t: Tree, n: NodeId): set<NodeId>
    requires IsTree(t) && n in t.pathEdges
  {
    Elems(Chain(t, n)) - {t.root}
  }

  lemma AboveStep(t: Tree, n: NodeId)
    requires IsTree(t) && n in t.parentEdge
    ensures Linked(t, n) && Above(t, n) == Above(t, t.Parent(n)) + {n} && n !in Above(t, t.Parent(n))
  {
    assert Linked(t, n);
    if n in Chain(t, t.Parent(n)) { ChainAbove(t, n, t.Parent(n)); }
  }

  lemma AboveRoot(t: Tree)
    requires IsTree(t)
    ensures Above(t, t.root) == {}
  {
  }

  /** On one root path there is one node per depth. */
  lemma {:induction false} OnePerDepth(t: Tree, k: NodeId, a: NodeId, b: NodeId)
    requires IsTree(t) && k in t.pathEdges && a in Chain(t, k) && b in Chain(t, k)
    ensures a in t.pathEdges && b in t.pathEdges
    ensures |t.pathEdges[a]| == |t.pathEdges[b]| ==> a == b
    decreases |t.pathEdges[k]|
  {
    ChainAbove(t, a, k);
    ChainAbove(t, b, k);
    if a != k && b != k {
      assert Linked(t, k);
      OnePerDepth(t, t.Parent(k), a, b);
    }
  }

  /** Strictly below `n`, every node is below exactly one child of `n`. */
  lemma {:induction false} ChildToward(t: Tree, n: NodeId, k: NodeId) returns (c: NodeId)
    requires IsTree(t) && k in Below(t, n) && k != n
    ensures c in ChildSet(t, n) && k in Below(t, c)
    ensures forall d :: d in ChildSet(t, n) && k in Below(t, d) ==> d == c
    decreases |t.pathEdges[k]|
  {
    ChainAbove(t, n, k);
    assert Linked(t, k);
    if t.Parent(k) == n {
      c := k;
    } else {
      c := ChildToward(t, n, t.Parent(k));
    }
    forall d | d in ChildSet(t, n) && k in Below(t, d) ensures d == c {
      assert Linked(t, d) && Linked(t, c);
      OnePerDepth(t, k, c, d);
    }
  }

  lemma ChildBelow(t: Tree, n: NodeId, c: NodeId)
    requires IsTree(t) && n in t.pathEdges && c in ChildSet(t, n)
    ensures Below(t, c) <= Below(t, n) - {n}
  {
    assert Linked(t, c);
    forall k | k in Below(t, c) ensures k in Below(t, n) && k != n {
      ChainPasses(t, n, c, k);
    }
  }

  lemma {:induction false} ChainPasses(t: Tree, n: NodeId, c: NodeId, k: NodeId)
    requires IsTree(t) && c in ChildSet(t, n) && k in Below(t, c)
    ensures k in Below(t, n) && k != n
    decreases |t.pathEdges[k]|
  {
    assert Linked(t, c);
    ChainAbove(t, c, k);
    if k == c {
      assert Chain(t, c) == [c] + Chain(t, n);
    } else {
      assert Linked(t, k);
      ChainPasses(t, n, c, t.Parent(k));
      assert Chain(t, k) == [k] + Chain(t, t.Parent(k));
    }
  }

  /** The total over what hangs below `n`, itself left out, child subtree by child subtree. */
  lemma TotalByChildren(t: Tree, n: NodeId, w: map<NodeId, Complex>, perChild: map<NodeId, Complex>)
    requires IsTree(t) && n in t.pathEdges
    requires forall c :: c in ChildSet(t, n) ==> At(perChild, c, ZERO) == TotalC(w, Below(t, c))
    ensures TotalC(w, Below(t, n) - {n}) == TotalC(perChild, ChildSet(t, n))
  {
    hide Below, ChildSet, TotalC, Complex.Times, Complex.Plus;
    var M, K := ChildSet(t, n), Below(t, n) - {n};
    var one := Complex(1.0, 0.0);
    var f := map c | c in M :: one;
    var above := map k | k in K :: set c | c in M && k in Below(t, c);
    ExchangeSums(f, w, M, K, above);
    forall k | k in K ensures At(ByNode(f, w, M, K, above), k, ZERO) == At(w, k, ZERO) {
      var c := ChildToward(t, n, k);
      assert M * At(above, k, {}) == {c};
      SingleTotal(f, c);
      OneTimes(At(w, k, ZERO));
    }
    TotalCSame(ByNode(f, w, M, K, above), w, K);
    forall c | c in M ensures At(ByBranch(f, w, M, K, above), c, ZERO) == At(perChild, c, ZERO) {
      ChildBelow(t, n, c);
      assert (set k | k in K && c in At(above, k, {})) == Below(t, c);
      OneTimes(TotalC(w, Below(t, c)));
    }
    TotalCSame(ByBranch(f, w, M, K, above), perChild, M);
  }

  lemma SingleTotal(f: map<NodeId, Complex>, c: NodeId)
    ensures TotalC(f, {c}) == At(f, c, ZERO)
  {
  }

  lemma OneTimes(z: Complex)
    ensures z.Times(Complex(1.0, 0.0)) == z && Complex(1.0, 0.0).Times(z) == z
  {
  }
}

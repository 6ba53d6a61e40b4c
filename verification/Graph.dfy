/** Undirected reachability over a finite set of closed links, and the edge-count
    test for radiality.

    Reachability is defined without paths: the energized set is the least set that
    holds the sources and is closed under the links. `ReachIffWalk` shows that this
    is the same as being joined to a source by a walk. */
module Graph {
  type NodeId = nat
  type EdgeId = nat

  datatype Link = Link(id: EdgeId, a: NodeId, b: NodeId)

  ghost predicate Closed(E: set<Link>, C: set<NodeId>) {
    forall l :: l in E ==> (l.a in C <==> l.b in C)
  }

  ghost function Universe(E: set<Link>, S: set<NodeId>): set<NodeId> {
    S + (set l | l in E :: l.a) + (set l | l in E :: l.b)
  }

  /** The nodes that lie in every closed superset of the sources. */
  ghost function Reach(E: set<Link>, S: set<NodeId>): set<NodeId> {
    set n | n in Universe(E, S) && InEveryClosed(E, S, n)
  }

  ghost predicate InEveryClosed(E: set<Link>, S: set<NodeId>, n: NodeId) {
    forall C: set<NodeId> :: S <= C && Closed(E, C) ==> n in C
  }

  lemma ReachIsLeast(E: set<Link>, S: set<NodeId>)
    ensures S <= Reach(E, S)
    ensures Closed(E, Reach(E, S))
    ensures forall C: set<NodeId> :: S <= C && Closed(E, C) ==> Reach(E, S) <= C
  {
  }

  lemma ReachUnique(E: set<Link>, S: set<NodeId>, R: set<NodeId>)
    requires S <= R && Closed(E, R)
    requires forall C: set<NodeId> :: S <= C && Closed(E, C) ==> R <= C
    ensures R == Reach(E, S)
  {
    ReachIsLeast(E, S);
  }

  lemma ReachMonotone(E: set<Link>, S: set<NodeId>, E': set<Link>, S': set<NodeId>)
    requires E <= E' && S <= Reach(E', S')
    ensures Reach(E, S) <= Reach(E', S')
  {
    ReachIsLeast(E, S);
    ReachIsLeast(E', S');
    assert Closed(E, Reach(E', S'));
  }

  // ---- walks ---------------------------------------------------------------

  ghost predicate Joins(l: Link, m: NodeId, n: NodeId) {
    (l.a == m && l.b == n) || (l.b == m && l.a == n)
  }

  /** `w` lists the links of a walk from `s` to `n`. */
  ghost predicate IsWalk(E: set<Link>, s: NodeId, w: seq<Link>, n: NodeId)
    decreases |w|
  {
    if w == [] then s == n
    else var l := w[|w| - 1]; l in E && exists m :: Joins(l, m, n) && IsWalk(E, s, w[..|w| - 1], m)
  }

  lemma {:induction false} WalkStaysInside(E: set<Link>, s: NodeId, w: seq<Link>, n: NodeId, C: set<NodeId>)
    requires IsWalk(E, s, w, n) && s in C && Closed(E, C)
    ensures n in C
    decreases |w|
  {
    if w != [] {
      var l := w[|w| - 1];
      var m :| Joins(l, m, n) && IsWalk(E, s, w[..|w| - 1], m);
      WalkStaysInside(E, s, w[..|w| - 1], m, C);
    }
  }

  ghost predicate Walkable(E: set<Link>, S: set<NodeId>, n: NodeId) {
    exists s, w :: s in S && IsWalk(E, s, w, n)
  }

  lemma WalkExtends(E: set<Link>, S: set<NodeId>, l: Link, m: NodeId, n: NodeId)
    requires Walkable(E, S, m) && l in E && Joins(l, m, n)
    ensures Walkable(E, S, n)
  {
    var s, w :| s in S && IsWalk(E, s, w, m);
    var w' := w + [l];
    assert w'[..|w'| - 1] == w && w'[|w'| - 1] == l;
    assert Joins(l, m, n) && IsWalk(E, s, w'[..|w'| - 1], m);
    assert IsWalk(E, s, w', n);
  }

  /** The least closed set is the set of nodes joined to a source by a walk. */
  lemma ReachIffWalk(E: set<Link>, S: set<NodeId>, n: NodeId)
    ensures n in Reach(E, S) <==> Walkable(E, S, n)
  {
    ReachIsLeast(E, S);
    if Walkable(E, S, n) {
      var s, w :| s in S && IsWalk(E, s, w, n);
      WalkStaysInside(E, s, w, n, Reach(E, S));
    }
    var C := set m | m in Reach(E, S) && Walkable(E, S, m);
    forall s | s in S ensures s in C {
      assert IsWalk(E, s, [], s);
    }
    forall l | l in E ensures l.a in C <==> l.b in C {
      if l.a in C { WalkExtends(E, S, l, l.a, l.b); }
      if l.b in C { WalkExtends(E, S, l, l.b, l.a); }
    }
    assert Closed(E, C);
  }

  // ---- the edge-count test -------------------------------------------------

  ghost function Within(E: set<Link>, R: set<NodeId>): set<Link> {
    set l | l in E && l.a in R && l.b in R
  }

  /** Energized links beyond the least number that can energize the same nodes. */
  ghost function Slack(E: set<Link>, S: set<NodeId>): int {
    |Within(E, Reach(E, S))| - (|Reach(E, S)| - |S|)
  }

  lemma AddInert(E: set<Link>, S: set<NodeId>, l: Link)
    requires l !in E
    requires l.a in Reach(E, S) <==> l.b in Reach(E, S)
    ensures Reach(E + {l}, S) == Reach(E, S)
    ensures Slack(E + {l}, S) == Slack(E, S) + if l.a in Reach(E, S) then 1 else 0
  {
    var R := Reach(E, S);
    ReachIsLeast(E, S);
    forall C: set<NodeId> | S <= C && Closed(E + {l}, C) ensures R <= C {
      assert Closed(E, C);
    }
    ReachUnique(E + {l}, S, R);
    if l.a in R {
      assert Within(E + {l}, R) == Within(E, R) + {l};
    } else {
      assert Within(E + {l}, R) == Within(E, R);
    }
  }

  lemma AddBridgeReach(E: set<Link>, S: set<NodeId>, l: Link, u: NodeId, v: NodeId)
    requires Joins(l, u, v) && u in Reach(E, S) && v !in Reach(E, S)
    ensures Reach(E, S) !! Reach(E, {v})
    ensures Reach(E + {l}, S) == Reach(E, S) + Reach(E, {v})
  {
    var R, M := Reach(E, S), Reach(E, {v});
    ReachIsLeast(E, S);
    ReachIsLeast(E, {v});
    assert Closed(E, M - R);
    assert {v} <= M - R;
    forall C: set<NodeId> | S <= C && Closed(E + {l}, C) ensures R + M <= C {
      assert Closed(E, C);
      assert R <= C;
      assert l in E + {l};
      assert {v} <= C;
    }
    ReachUnique(E + {l}, S, R + M);
  }

  lemma AddBridge(E: set<Link>, S: set<NodeId>, l: Link, u: NodeId, v: NodeId)
    requires l !in E && Joins(l, u, v)
    requires u in Reach(E, S) && v !in Reach(E, S)
    ensures Within(E + {l}, Reach(E + {l}, S)) == Within(E, Reach(E, S)) + Within(E, Reach(E, {v})) + {l}
    ensures Slack(E + {l}, S) == Slack(E, S) + Slack(E, {v})
  {
    hide Reach, Within;
    AddBridgeReach(E, S, l, u, v);
    ReachIsLeast(E, S);
    ReachIsLeast(E, {v});
    WithinSplit(E, Reach(E, S), Reach(E, {v}), l, u, v);
  }

  lemma WithinSplit(E: set<Link>, R: set<NodeId>, M: set<NodeId>, l: Link, u: NodeId, v: NodeId)
    requires l !in E && Joins(l, u, v) && u in R && v in M && R !! M
    requires Closed(E, R) && Closed(E, M)
    ensures Within(E + {l}, R + M) == Within(E, R) + Within(E, M) + {l}
    ensures |Within(E + {l}, R + M)| == |Within(E, R)| + |Within(E, M)| + 1
    ensures |R + M| == |R| + |M|
  {
    var WR, WM := Within(E, R), Within(E, M);
    assert WR !! WM;
    assert |WR + WM| == |WR| + |WM|;
    assert Within(E + {l}, R + M) == (WR + WM) + {l};
  }

  /** However the network is wired, the energized part has at least as many closed
      links as energized nodes that are not sources. */
  lemma {:induction false} SlackNonNegative(E: set<Link>, S: set<NodeId>)
    ensures Slack(E, S) >= 0
    decreases |E|
  {
    if E == {} {
      ReachUnique(E, S, S);
      assert Within(E, S) == {};
    } else {
      var l :| l in E;
      var E' := E - {l};
      assert E == E' + {l};
      SlackNonNegative(E', S);
      var R := Reach(E', S);
      if l.a in R <==> l.b in R {
        AddInert(E', S, l);
      } else {
        var v := if l.a in R then l.b else l.a;
        SlackNonNegative(E', {v});
        AddBridge(E', S, l, if l.a in R then l.a else l.b, v);
      }
    }
  }

  // ---- the test is exact ---------------------------------------------------

  /** No energized link closes a loop: its ends fall apart when it is taken out. */
  ghost predicate Acyclic(E: set<Link>, R: set<NodeId>) {
    forall l :: l in Within(E, R) ==> l.b !in Reach(E - {l}, {l.a})
  }

  ghost predicate SourcesApart(E: set<Link>, S: set<NodeId>) {
    forall s, t :: s in S && t in S && s != t ==> t !in Reach(E, {s})
  }

  /** The energized network is a forest and each of its trees holds one source. */
  ghost predicate RadialForest(E: set<Link>, S: set<NodeId>) {
    Acyclic(E, Reach(E, S)) && SourcesApart(E, S)
  }

  lemma ReachSymmetric(E: set<Link>, m: NodeId, n: NodeId)
    requires n in Reach(E, {m})
    ensures m in Reach(E, {n})
  {
    ReachIsLeast(E, {m});
    ReachIsLeast(E, {n});
    if m !in Reach(E, {n}) {
      assert Closed(E, Reach(E, {m}) - Reach(E, {n}));
    }
  }

  lemma ReachTransitive(E: set<Link>, m: NodeId, n: NodeId, k: NodeId)
    requires n in Reach(E, {m}) && k in Reach(E, {n})
    ensures k in Reach(E, {m})
  {
    ReachMonotone(E, {n}, E, {m});
  }

  lemma ReachHasSource(E: set<Link>, S: set<NodeId>, n: NodeId) returns (s: NodeId)
    requires n in Reach(E, S)
    ensures s in S && n in Reach(E, {s})
  {
    ReachIffWalk(E, S, n);
    var w;
    s, w :| s in S && IsWalk(E, s, w, n);
    ReachIffWalk(E, {s}, n);
  }

  lemma CrossLink(E: set<Link>, s: NodeId, l: Link, t: NodeId)
    requires l in E && l.a in Reach(E, {s}) && l.b in Reach(E, {t})
    ensures t in Reach(E, {s})
  {
    ReachIsLeast(E, {s});
    ReachSymmetric(E, t, l.b);
    ReachTransitive(E, s, l.b, t);
  }

  /** In a forest every energized link is a bridge: exactly one end stays energized
      without it. */
  lemma ForestLinkIsBridge(E: set<Link>, S: set<NodeId>, l: Link)
    requires RadialForest(E, S) && l in Within(E, Reach(E, S))
    ensures l.a in Reach(E - {l}, S) <==> l.b !in Reach(E - {l}, S)
  {
    var E' := E - {l};
    assert E == E' + {l};
    if l.a in Reach(E', S) && l.b in Reach(E', S) {
      var s := ReachHasSource(E', S, l.a);
      var t := ReachHasSource(E', S, l.b);
      if s == t {
        ReachSymmetric(E', s, l.a);
        ReachTransitive(E', l.a, s, l.b);
      } else {
        ReachIsLeast(E, {s});
        ReachIsLeast(E, {t});
        ReachMonotone(E', {s}, E, {s});
        ReachMonotone(E', {t}, E, {t});
        CrossLink(E, s, l, t);
      }
      assert false;
    }
    if l.a !in Reach(E', S) && l.b !in Reach(E', S) {
      AddInert(E', S, l);
      assert false;
    }
  }

  lemma ForestShrinks(E: set<Link>, S: set<NodeId>, E': set<Link>, S': set<NodeId>)
    requires RadialForest(E, S) && E' <= E && SourcesApart(E', S')
    requires Reach(E', S') <= Reach(E, S)
    ensures RadialForest(E', S')
  {
    forall l | l in Within(E', Reach(E', S')) ensures l.b !in Reach(E' - {l}, {l.a}) {
      assert l in Within(E, Reach(E, S));
      ReachIsLeast(E - {l}, {l.a});
      ReachMonotone(E' - {l}, {l.a}, E - {l}, {l.a});
    }
  }

  lemma ForestWithoutLinks(E: set<Link>, S: set<NodeId>)
    requires Within(E, Reach(E, S)) == {}
    ensures Slack(E, S) == 0
  {
    ReachIsLeast(E, S);
    forall l | l in E ensures l.a in S <==> l.b in S {
      assert l !in Within(E, Reach(E, S));
    }
    ReachUnique(E, S, S);
  }

  /** Taking a link out of a forest leaves a smaller forest at either end. */
  lemma ForestSplits(E: set<Link>, S: set<NodeId>, l: Link) returns (v: NodeId)
    requires RadialForest(E, S) && l in Within(E, Reach(E, S))
    ensures RadialForest(E - {l}, S) && RadialForest(E - {l}, {v})
    ensures Slack(E, S) == Slack(E - {l}, S) + Slack(E - {l}, {v})
  {
    hide Acyclic, Slack, Reach;
    var E' := E - {l};
    assert E == E' + {l};
    ForestLinkIsBridge(E, S, l);
    var u;
    if l.a in Reach(E', S) { u, v := l.a, l.b; } else { u, v := l.b, l.a; }
    AddBridgeReach(E', S, l, u, v);
    AddBridge(E', S, l, u, v);
    SourcesStayApart(E, S, E');
    ForestShrinks(E, S, E', S);
    ForestShrinks(E, S, E', {v});
  }

  lemma SourcesStayApart(E: set<Link>, S: set<NodeId>, E': set<Link>)
    requires SourcesApart(E, S) && E' <= E
    ensures SourcesApart(E', S)
  {
    forall s, t | s in S && t in S && s != t ensures t !in Reach(E', {s}) {
      ReachIsLeast(E, {s});
      ReachMonotone(E', {s}, E, {s});
    }
  }

  lemma {:induction false} ForestHasNoSlack(E: set<Link>, S: set<NodeId>)
    requires RadialForest(E, S)
    ensures Slack(E, S) == 0
    decreases |E|
  {
    if Within(E, Reach(E, S)) == {} {
      ForestWithoutLinks(E, S);
    } else {
      var l :| l in Within(E, Reach(E, S));
      var v := ForestSplits(E, S, l);
      ForestHasNoSlack(E - {l}, S);
      ForestHasNoSlack(E - {l}, {v});
    }
  }

  lemma NoSlackMeansAcyclic(E: set<Link>, S: set<NodeId>, l: Link)
    requires Slack(E, S) == 0 && l in Within(E, Reach(E, S))
    ensures l.b !in Reach(E - {l}, {l.a})
  {
    var E' := E - {l};
    assert E == E' + {l};
    if l.b in Reach(E', {l.a}) {
      ReachSymmetric(E', l.a, l.b);
      if l.a in Reach(E', S) { ReachMonotone(E', {l.a}, E', S); }
      if l.b in Reach(E', S) { ReachMonotone(E', {l.b}, E', S); }
      SlackNonNegative(E', S);
      AddInert(E', S, l);
    }
  }

  lemma DropJoinedSource(E: set<Link>, S: set<NodeId>, s: NodeId, t: NodeId)
    requires s in S && t in S && s != t && t in Reach(E, {s})
    ensures Reach(E, S - {t}) == Reach(E, S)
  {
    ReachIsLeast(E, S - {t});
    ReachIsLeast(E, S);
    ReachMonotone(E, {s}, E, S - {t});
    ReachMonotone(E, S, E, S - {t});
    ReachMonotone(E, S - {t}, E, S);
  }

  lemma NoSlackMeansApart(E: set<Link>, S: set<NodeId>, s: NodeId, t: NodeId)
    requires Slack(E, S) == 0 && s in S && t in S && s != t
    ensures t !in Reach(E, {s})
  {
    if t in Reach(E, {s}) {
      DropJoinedSource(E, S, s, t);
      SlackNonNegative(E, S - {t});
    }
  }

  /** The edge count passes exactly for forests with one source in every tree. */
  lemma NoSlackIffForest(E: set<Link>, S: set<NodeId>)
    ensures Slack(E, S) == 0 <==> RadialForest(E, S)
  {
    if RadialForest(E, S) { ForestHasNoSlack(E, S); }
    if Slack(E, S) == 0 {
      forall l | l in Within(E, Reach(E, S)) ensures l.b !in Reach(E - {l}, {l.a}) {
        NoSlackMeansAcyclic(E, S, l);
      }
      forall s, t | s in S && t in S && s != t ensures t !in Reach(E, {s}) {
        NoSlackMeansApart(E, S, s, t);
      }
    }
  }
}

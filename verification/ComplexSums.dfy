/** Sums of complex weights over node sets, and the exchange of a double sum. */
module ComplexSums {
  import opened Graph
  import opened Sums
  import opened ComplexNumbers

  ghost function TotalC(w: map<NodeId, Complex>, S: set<NodeId>): Complex {
    if S == {} then ZERO else var x :| x in S; At(w, x, ZERO).Plus(TotalC(w, S - {x}))
  }

  lemma {:induction false} TotalCSplit(w: map<NodeId, Complex>, S: set<NodeId>, x: NodeId)
    requires x in S
    ensures TotalC(w, S) == At(w, x, ZERO).Plus(TotalC(w, S - {x}))
    decreases |S|
  {
    hide Complex.Plus;
    var y :| y in S && TotalC(w, S) == At(w, y, ZERO).Plus(TotalC(w, S - {y}));
    if y != x {
      TotalCSplit(w, S - {y}, x);
      TotalCSplit(w, S - {x}, y);
      assert S - {y} - {x} == S - {x} - {y};
      var a, b, c := At(w, x, ZERO), At(w, y, ZERO), TotalC(w, S - {x} - {y});
      PlusLaws(a, b, c);
      PlusLaws(b, a, c);
    }
  }

  lemma TotalCEmpty(w: map<NodeId, Complex>)
    ensures TotalC(w, {}) == ZERO
  {
  }

  method TotalCOver(w: map<NodeId, Complex>, S: set<NodeId>) returns (t: Complex)
    ensures t == TotalC(w, S)
  {
    hide Complex.Plus;
    t := ZERO;
    var todo := S;
    PlusLaws(TotalC(w, S), ZERO, ZERO);
    PlusLaws(ZERO, TotalC(w, S), ZERO);
    while todo != {}
      invariant t.Plus(TotalC(w, todo)) == TotalC(w, S)
      decreases todo
    {
      var x :| x in todo;
      TotalCSplit(w, todo, x);
      PlusLaws(t, At(w, x, ZERO), TotalC(w, todo - {x}));
      t := t.Plus(At(w, x, ZERO));
      todo := todo - {x};
    }
    PlusLaws(t, ZERO, ZERO);
  }

  lemma {:induction false} TotalCSame(v: map<NodeId, Complex>, w: map<NodeId, Complex>, S: set<NodeId>)
    requires forall n :: n in S ==> At(v, n, ZERO) == At(w, n, ZERO)
    ensures TotalC(v, S) == TotalC(w, S)
    decreases |S|
  {
    hide Complex.Plus, Complex.Times, TotalC;
    TotalCEmpty(v);
    TotalCEmpty(w);
    if S != {} {
      var n :| n in S;
      TotalCSplit(v, S, n);
      TotalCSplit(w, S, n);
      TotalCSame(v, w, S - {n});
    }
  }

  lemma {:induction false} TotalCZero(w: map<NodeId, Complex>, S: set<NodeId>)
    requires forall n :: n in S ==> At(w, n, ZERO) == ZERO
    ensures TotalC(w, S) == ZERO
    decreases |S|
  {
    hide Complex.Plus, Complex.Times, TotalC;
    TotalCEmpty(w);
    PlusLaws(ZERO, ZERO, ZERO);
    if S != {} {
      var n :| n in S;
      TotalCSplit(w, S, n);
      TotalCZero(w, S - {n});
    }
  }

  lemma {:induction false} TotalCAdds(
      u: map<NodeId, Complex>, v: map<NodeId, Complex>, w: map<NodeId, Complex>, S: set<NodeId>)
    requires forall n :: n in S ==> At(w, n, ZERO) == At(u, n, ZERO).Plus(At(v, n, ZERO))
    ensures TotalC(w, S) == TotalC(u, S).Plus(TotalC(v, S))
    decreases |S|
  {
    hide TotalC;
    TotalCEmpty(u);
    TotalCEmpty(v);
    TotalCEmpty(w);
    if S != {} {
      var n :| n in S;
      TotalCSplit(u, S, n);
      TotalCSplit(v, S, n);
      TotalCSplit(w, S, n);
      TotalCAdds(u, v, w, S - {n});
    }
  }

  lemma {:induction false} TotalCScales(k: Complex, u: map<NodeId, Complex>, w: map<NodeId, Complex>, S: set<NodeId>)
    requires forall n :: n in S ==> At(w, n, ZERO) == k.Times(At(u, n, ZERO))
    ensures TotalC(w, S) == k.Times(TotalC(u, S))
    decreases |S|
  {
    Distributes(k, ZERO, ZERO);
    hide Complex.Plus, Complex.Times, TotalC;
    TotalCEmpty(u);
    TotalCEmpty(w);
    if S != {} {
      var n :| n in S;
      TotalCSplit(u, S, n);
      TotalCSplit(w, S, n);
      TotalCScales(k, u, w, S - {n});
      Distributes(k, At(u, n, ZERO), TotalC(u, S - {n}));
    }
  }

  lemma {:induction false} TotalCConj(u: map<NodeId, Complex>, w: map<NodeId, Complex>, S: set<NodeId>)
    requires forall n :: n in S ==> At(w, n, ZERO) == At(u, n, ZERO).Conj()
    ensures TotalC(w, S) == TotalC(u, S).Conj()
    decreases |S|
  {
    hide Complex.Plus, Complex.Conj, TotalC;
    TotalCEmpty(u);
    TotalCEmpty(w);
    ConjLaws(ZERO, ZERO);
    if S != {} {
      var n :| n in S;
      TotalCSplit(u, S, n);
      TotalCSplit(w, S, n);
      TotalCConj(u, w, S - {n});
      ConjLaws(At(u, n, ZERO), TotalC(u, S - {n}));
    }
  }

  /** Entries outside `R` count nothing. */
  lemma {:induction false} TotalCRestrict(
      u: map<NodeId, Complex>, w: map<NodeId, Complex>, S: set<NodeId>, R: set<NodeId>)
    requires forall n :: n in S ==> At(w, n, ZERO) == if n in R then At(u, n, ZERO) else ZERO
    ensures TotalC(w, S) == TotalC(u, S * R)
    decreases |S|
  {
    hide Complex.Plus, Complex.Times, TotalC;
    TotalCEmpty(u);
    TotalCEmpty(w);
    assert {} * R == {};
    if S != {} {
      var n :| n in S;
      TotalCSplit(w, S, n);
      TotalCRestrict(u, w, S - {n}, R);
      PlusLaws(TotalC(w, S - {n}), ZERO, ZERO);
      PlusLaws(ZERO, TotalC(w, S - {n}), ZERO);
      if n in R {
        TotalCSplit(u, S * R, n);
        assert S * R - {n} == (S - {n}) * R;
      } else {
        assert S * R == (S - {n}) * R;
      }
    }
  }

  // ---- exchanging a double sum ---------------------------------------------

  /** For each n of K, g(n) times the total of f over the part of M that `above` n. */
  ghost function ByNode(f: map<NodeId, Complex>, g: map<NodeId, Complex>, M: set<NodeId>, K: set<NodeId>,
                        above: map<NodeId, set<NodeId>>): map<NodeId, Complex> {
    map n | n in K :: At(g, n, ZERO).Times(TotalC(f, M * At(above, n, {})))
  }

  /** For each m of M, f(m) times the total of g over the part of K below m. */
  ghost function ByBranch(f: map<NodeId, Complex>, g: map<NodeId, Complex>, M: set<NodeId>, K: set<NodeId>,
                          above: map<NodeId, set<NodeId>>): map<NodeId, Complex> {
    map m | m in M :: At(f, m, ZERO).Times(TotalC(g, set n | n in K && m in At(above, n, {})))
  }

  lemma {:induction false} ExchangeSums(
      f: map<NodeId, Complex>, g: map<NodeId, Complex>, M: set<NodeId>, K: set<NodeId>, above: map<NodeId, set<NodeId>>)
    ensures TotalC(ByNode(f, g, M, K, above), K) == TotalC(ByBranch(f, g, M, K, above), M)
    decreases |K|
  {
    hide Complex.Times, Complex.Plus, TotalC;
    var rhs := ByBranch(f, g, M, K, above);
    if K == {} {
      forall m | m in M ensures At(rhs, m, ZERO) == ZERO {
        TotalCZero(g, set n | n in K && m in At(above, n, {}));
        Distributes(At(f, m, ZERO), ZERO, ZERO);
      }
      TotalCZero(rhs, M);
      TotalCZero(ByNode(f, g, M, K, above), K);
    } else {
      var n :| n in K;
      var K' := K - {n};
      ExchangeSums(f, g, M, K', above);
      TotalCSplit(ByNode(f, g, M, K, above), K, n);
      TotalCSame(ByNode(f, g, M, K, above), ByNode(f, g, M, K', above), K');
      ExchangeStep(f, g, M, K, above, n);
    }
  }

  lemma ExchangeStep(
      f: map<NodeId, Complex>, g: map<NodeId, Complex>, M: set<NodeId>, K: set<NodeId>, above: map<NodeId, set<NodeId>>,
      n: NodeId)
    requires n in K
    ensures TotalC(ByBranch(f, g, M, K, above), M)
      == At(g, n, ZERO).Times(TotalC(f, M * At(above, n, {}))).Plus(TotalC(ByBranch(f, g, M, K - {n}, above), M))
  {
    hide Complex.Times, Complex.Plus, TotalC;
    var R, gn := At(above, n, {}), At(g, n, ZERO);
    var kept := map m | m in M :: if m in R then At(f, m, ZERO) else ZERO;
    var extra := map m | m in M :: gn.Times(At(kept, m, ZERO));
    forall m | m in M
      ensures At(ByBranch(f, g, M, K, above), m, ZERO)
        == At(extra, m, ZERO).Plus(At(ByBranch(f, g, M, K - {n}, above), m, ZERO))
    {
      BranchGains(f, g, K, above, n, m);
    }
    TotalCAdds(extra, ByBranch(f, g, M, K - {n}, above), ByBranch(f, g, M, K, above), M);
    TotalCScales(gn, kept, extra, M);
    TotalCRestrict(f, kept, M, R);
  }

  lemma BranchGains(
      f: map<NodeId, Complex>, g: map<NodeId, Complex>, K: set<NodeId>, above: map<NodeId, set<NodeId>>, n: NodeId,
      m: NodeId)
    requires n in K
    ensures At(f, m, ZERO).Times(TotalC(g, set k | k in K && m in At(above, k, {})))
      == At(g, n, ZERO).Times(if m in At(above, n, {}) then At(f, m, ZERO) else ZERO)
         .Plus(At(f, m, ZERO).Times(TotalC(g, set k | k in K - {n} && m in At(above, k, {}))))
  {
    hide Complex.Times, Complex.Plus, TotalC;
    var fm, gn := At(f, m, ZERO), At(g, n, ZERO);
    var T := set k | k in K && m in At(above, k, {});
    var T' := set k | k in K - {n} && m in At(above, k, {});
    if m in At(above, n, {}) {
      assert T - {n} == T';
      TotalCSplit(g, T, n);
      Distributes(fm, gn, TotalC(g, T'));
      TimesLaws(fm, gn, ZERO);
    } else {
      assert T == T';
      Distributes(gn, ZERO, ZERO);
      PlusLaws(ZERO, fm.Times(TotalC(g, T')), ZERO);
      PlusLaws(fm.Times(TotalC(g, T')), ZERO, ZERO);
    }
  }
}

/** Finite sums over node sets, where a node without an entry counts zero, and the
    rounding the analytics apply to what they report. */
module Sums {
  import opened Graph

  function At<T>(w: map<NodeId, T>, n: NodeId, zero: T): T {
    if n in w then w[n] else zero
  }

  ghost function Total(w: map<NodeId, int>, S: set<NodeId>): int {
    if S == {} then 0 else var x :| x in S; At(w, x, 0) + Total(w, S - {x})
  }

  lemma {:induction false} TotalSplit(w: map<NodeId, int>, S: set<NodeId>, x: NodeId)
    requires x in S
    ensures Total(w, S) == At(w, x, 0) + Total(w, S - {x})
    decreases |S|
  {
    var y :| y in S && Total(w, S) == At(w, y, 0) + Total(w, S - {y});
    if y != x {
      TotalSplit(w, S - {y}, x);
      TotalSplit(w, S - {x}, y);
      assert S - {y} - {x} == S - {x} - {y};
    }
  }

  method TotalOver(w: map<NodeId, int>, S: set<NodeId>) returns (t: int)
    ensures t == Total(w, S)
  {
    t := 0;
    var todo := S;
    while todo != {}
      invariant t + Total(w, todo) == Total(w, S)
      decreases todo
    {
      var x :| x in todo;
      TotalSplit(w, todo, x);
      t := t + At(w, x, 0);
      todo := todo - {x};
    }
  }

  ghost function TotalR(w: map<NodeId, real>, S: set<NodeId>): real {
    if S == {} then 0.0 else var x :| x in S; At(w, x, 0.0) + TotalR(w, S - {x})
  }

  lemma {:induction false} TotalRSplit(w: map<NodeId, real>, S: set<NodeId>, x: NodeId)
    requires x in S
    ensures TotalR(w, S) == At(w, x, 0.0) + TotalR(w, S - {x})
    decreases |S|
  {
    var y :| y in S && TotalR(w, S) == At(w, y, 0.0) + TotalR(w, S - {y});
    if y != x {
      TotalRSplit(w, S - {y}, x);
      TotalRSplit(w, S - {x}, y);
      assert S - {y} - {x} == S - {x} - {y};
    }
  }

  method TotalROver(w: map<NodeId, real>, S: set<NodeId>) returns (t: real)
    ensures t == TotalR(w, S)
  {
    t := 0.0;
    var todo := S;
    while todo != {}
      invariant t + TotalR(w, todo) == TotalR(w, S)
      decreases todo
    {
      var x :| x in todo;
      TotalRSplit(w, todo, x);
      t := t + At(w, x, 0.0);
      todo := todo - {x};
    }
  }

  /** Nearest multiple of 1/scale, halves to the even neighbour. */
  function Round(x: real, scale: nat): real
    requires scale > 0
  {
    var s := scale as real;
    var f := (x * s).Floor;
    var d := x * s - f as real;
    (if d < 0.5 || (d == 0.5 && f % 2 == 0) then f else f + 1) as real / s
  }

  lemma RoundIsOnGrid(x: real, scale: nat) returns (k: int)
    requires scale > 0
    ensures Round(x, scale) == k as real / scale as real
    ensures -0.5 <= k as real - x * scale as real <= 0.5
  {
    var f := (x * scale as real).Floor;
    var d := x * scale as real - f as real;
    k := if d < 0.5 || (d == 0.5 && f % 2 == 0) then f else f + 1;
  }

  /** Halfway between two multiples the even one is taken. */
  lemma RoundTies(x: real, scale: nat, k: int)
    requires scale > 0 && x * scale as real == k as real + 0.5
    ensures Round(x, scale) == (if k % 2 == 0 then k else k + 1) as real / scale as real
  {
    assert (x * scale as real).Floor == k;
  }
}

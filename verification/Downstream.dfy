/** The directed walk shared by topology, outage management and distribution management. */
module Downstream {
  import opened Graph
  import opened Grid
  import opened Worklist
  import opened Sequences

  ghost predicate DownClosed(E: set<Link>, C: set<NodeId>) {
    forall l :: l in E && l.a in C ==> l.b in C
  }

  ghost predicate InEveryDownClosed(E: set<Link>, S: set<NodeId>, n: NodeId) {
    forall C: set<NodeId> :: S <= C && DownClosed(E, C) ==> n in C
  }

  /** The least set that holds `S` and is closed under following links forwards. */
  ghost function Down(E: set<Link>, S: set<NodeId>): set<NodeId> {
    set n | n in Universe(E, S) && InEveryDownClosed(E, S, n)
  }

  lemma DownIsLeast(E: set<Link>, S: set<NodeId>)
    ensures S <= Down(E, S) <= Universe(E, S)
    ensures DownClosed(E, Down(E, S))
    ensures forall C: set<NodeId> :: S <= C && DownClosed(E, C) ==> Down(E, S) <= C
  {
  }

  /** The edges the walk may follow. */
  ghost function Followed(edges: seq<Edge>, energizedOnly: bool): set<Link> {
    set e | e in edges && (energizedOnly ==> e.isClosed) :: LinkOf(e)
  }

  function Successors(adj: map<NodeId, seq<NodeId>>, n: NodeId): seq<NodeId> {
    if n in adj then adj[n] else []
  }

  ghost predicate Leads(E: set<Link>, m: NodeId, n: NodeId) {
    exists l :: l in E && l.a == m && l.b == n
  }

  ghost predicate IsSuccessors(E: set<Link>, adj: map<NodeId, seq<NodeId>>) {
    forall m, n :: n in Successors(adj, m) <==> Leads(E, m, n)
  }

  method BuildSuccessors(edges: seq<Edge>, energizedOnly: bool) returns (adj: map<NodeId, seq<NodeId>>)
    ensures IsSuccessors(Followed(edges, energizedOnly), adj)
  {
    adj := map[];
    for i := 0 to |edges|
      invariant IsSuccessors(Followed(edges[..i], energizedOnly), adj)
    {
      var e := edges[i];
      ghost var E, before := Followed(edges[..i], energizedOnly), adj;
      assert edges[..i + 1] == edges[..i] + [e];
      if energizedOnly && !e.isClosed {
        assert Followed(edges[..i + 1], energizedOnly) == E;
      } else {
        adj := adj[e.fromNode := Successors(adj, e.fromNode) + [e.toNode]];
        assert Followed(edges[..i + 1], energizedOnly) == E + {LinkOf(e)};
        forall m, n ensures n in Successors(adj, m) <==> Leads(E + {LinkOf(e)}, m, n) {
          assert n in Successors(before, m) <==> Leads(E, m, n);
        }
      }
    }
    assert edges[..|edges|] == edges;
  }

  ghost predicate Listed(order: seq<NodeId>, seen: set<NodeId>) {
    Elems(order) == seen && Distinct(order)
  }

  /** Lists the nodes downstream of `start`, each once. */
  method DownstreamNodeIds(edges: seq<Edge>, start: NodeId, energizedOnly: bool) returns (order: seq<NodeId>)
    ensures order != [] && order[0] == start
    ensures Distinct(order)
    ensures Elems(order) == Down(Followed(edges, energizedOnly), {start})
  {
    ghost var E := Followed(edges, energizedOnly);
    ghost var R := Down(E, {start});
    var adj := BuildSuccessors(edges, energizedOnly);
    DownIsLeast(E, {start});
    hide Down, Followed, IsSuccessors;
    var seen, stack := {start}, [start];
    order := [start];
    while stack != []
      invariant order != [] && order[0] == start && Listed(order, seen)
      invariant {start} <= seen <= R
      invariant Scanned(adj, seen, Elems(stack))
      decreases R - seen, |stack|
    {
      var cur, rest := stack[|stack| - 1], stack[..|stack| - 1];
      TopOpen(stack);
      ghost var seen0 := seen;
      SuccessorsDown(E, {start}, adj, cur);
      seen, order, stack := Visit(adj, cur, seen, order, rest, R);
    }
    ScannedIsDown(E, adj, seen);
  }

  lemma SuccessorsDown(E: set<Link>, S: set<NodeId>, adj: map<NodeId, seq<NodeId>>, cur: NodeId)
    requires IsSuccessors(E, adj) && cur in Down(E, S)
    ensures forall n :: n in Successors(adj, cur) ==> n in Down(E, S)
  {
  }

  lemma ScannedIsDown(E: set<Link>, adj: map<NodeId, seq<NodeId>>, seen: set<NodeId>)
    requires IsSuccessors(E, adj) && Scanned(adj, seen, Elems([]))
    ensures DownClosed(E, seen)
  {
    forall l | l in E && l.a in seen ensures l.b in seen {
      assert Leads(E, l.a, l.b);
      assert l.b in Successors(adj, l.a);
    }
  }

  method Visit(adj: map<NodeId, seq<NodeId>>, cur: NodeId, seen0: set<NodeId>,
               order0: seq<NodeId>, stack0: seq<NodeId>, ghost R: set<NodeId>)
    returns (seen: set<NodeId>, order: seq<NodeId>, stack: seq<NodeId>)
    requires Listed(order0, seen0) && cur in seen0 && seen0 <= R
    requires Scanned(adj, seen0, {cur} + Elems(stack0))
    requires forall n :: n in Successors(adj, cur) ==> n in R
    ensures Listed(order, seen) && seen0 <= seen <= R && order0 <= order
    ensures Scanned(adj, seen, Elems(stack))
    ensures seen == seen0 ==> stack == stack0
  {
    hide Scanned;
    seen, order, stack := seen0, order0, stack0;
    var next := Successors(adj, cur);
    for i := 0 to |next|
      invariant Listed(order, seen) && seen0 <= seen <= R && order0 <= order
      invariant Scanned(adj, seen, {cur} + Elems(stack))
      invariant forall k :: 0 <= k < i ==> next[k] in seen
      invariant seen == seen0 ==> stack == stack0
    {
      var nxt := next[i];
      if nxt !in seen {
        ScanPush(adj, seen, {cur} + Elems(stack), nxt);
        PushOpen(stack, nxt);
        PushOpen(order, nxt);
        assert {cur} + Elems(stack + [nxt]) == {cur} + Elems(stack) + {nxt};
        seen, order, stack := seen + {nxt}, order + [nxt], stack + [nxt];
      }
    }
    ScanDone(adj, seen, Elems(stack), cur);
  }
}

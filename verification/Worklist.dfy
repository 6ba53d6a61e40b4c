/** The bookkeeping shared by the searches that keep a list of nodes still to visit. */
module Worklist {
  import opened Graph
  import opened Sequences

  /** Everything found has had its neighbours found too, save the nodes still open. */
  ghost predicate Scanned(adj: map<NodeId, seq<NodeId>>, found: set<NodeId>, open: set<NodeId>) {
    open <= found && forall n, k :: n in found - open && n in adj && k in adj[n] ==> k in found
  }

  lemma TopOpen(stack: seq<NodeId>)
    requires stack != []
    ensures Elems(stack) == {stack[|stack| - 1]} + Elems(stack[..|stack| - 1])
  {
  }

  lemma PushOpen(stack: seq<NodeId>, n: NodeId)
    ensures Elems(stack + [n]) == Elems(stack) + {n}
  {
  }

  lemma ScanPush(adj: map<NodeId, seq<NodeId>>, found: set<NodeId>, open: set<NodeId>, nxt: NodeId)
    requires Scanned(adj, found, open)
    ensures Scanned(adj, found + {nxt}, open + {nxt})
  {
  }

  lemma ScanDone(adj: map<NodeId, seq<NodeId>>, found: set<NodeId>, open: set<NodeId>, cur: NodeId)
    requires Scanned(adj, found, {cur} + open)
    requires cur in adj ==> forall i :: 0 <= i < |adj[cur]| ==> adj[cur][i] in found
    ensures Scanned(adj, found, open)
  {
  }

  lemma ScannedIsFound(adj: map<NodeId, seq<NodeId>>, found: set<NodeId>, open: set<NodeId>)
    requires Scanned(adj, found, open)
    ensures open <= found
  {
  }
}

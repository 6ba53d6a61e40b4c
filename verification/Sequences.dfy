/** Sequences as sets, and sequences without repetition. */
module Sequences {
  function Elems<T>(s: seq<T>): set<T> {
    set x | x in s
  }

  ghost predicate Distinct<T>(s: seq<T>) {
    forall i, j :: 0 <= i < j < |s| ==> s[i] != s[j]
  }

  lemma PrefixGrows<T>(s: seq<T>, i: nat)
    requires i < |s|
    ensures s[..i + 1] == s[..i] + [s[i]]
    ensures Elems(s[..i + 1]) == Elems(s[..i]) + {s[i]}
    ensures s[..|s|] == s
    ensures Distinct(s) ==> s[i] !in s[..i]
  {
  }

  lemma {:induction false} DistinctCount<T>(s: seq<T>)
    requires Distinct(s)
    ensures |Elems(s)| == |s|
  {
    if s != [] {
      PrefixGrows(s, |s| - 1);
      DistinctCount(s[..|s| - 1]);
    }
  }

  /** What is left of `s` when only the elements in `S` stay. */
  function Kept<T(==)>(s: seq<T>, S: set<T>): seq<T> {
    if s == [] then []
    else Kept(s[..|s| - 1], S) + if s[|s| - 1] in S then [s[|s| - 1]] else []
  }

  lemma KeptAdds<T>(s: seq<T>, x: T, S: set<T>)
    ensures Kept(s + [x], S) == Kept(s, S) + if x in S then [x] else []
  {
    assert (s + [x])[..|s|] == s;
  }

  lemma {:induction false} KeptSame<T>(s: seq<T>, S: set<T>, T': set<T>)
    requires forall x :: x in s ==> (x in S <==> x in T')
    ensures Kept(s, S) == Kept(s, T')
  {
    if s != [] { KeptSame(s[..|s| - 1], S, T'); }
  }

  lemma {:induction false} KeptAll<T>(s: seq<T>, S: set<T>)
    requires Elems(s) <= S
    ensures Kept(s, S) == s
  {
    if s != [] { KeptAll(s[..|s| - 1], S); }
  }

  /** Nothing is added and nothing that stays is repeated or lost. */
  lemma {:induction false} KeptCounts<T>(s: seq<T>, S: set<T>, x: T)
    ensures multiset(Kept(s, S))[x] == if x in S then multiset(s)[x] else 0
  {
    if s != [] {
      var k := |s| - 1;
      KeptCounts(s[..k], S, x);
      assert s == s[..k] + [s[k]];
      KeptAdds(s[..k], s[k], S);
      hide Kept;
      CountAdds(s[..k], s[k], x);
      CountAdds(Kept(s[..k], S), s[k], x);
    }
  }

  lemma CountAdds<T>(s: seq<T>, y: T, x: T)
    ensures multiset(s + [y])[x] == multiset(s)[x] + if x == y then 1 else 0
  {
  }

  /** Some element of `a` is listed before any of `b`. */
  ghost predicate ListedBefore<T>(s: seq<T>, a: seq<T>, b: seq<T>) {
    exists p :: 0 <= p < |s| && s[p] in a && forall q :: 0 <= q <= p ==> s[q] !in b
  }
}

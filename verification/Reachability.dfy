/** Reachability in a directed graph. */
module Reachability {

  /** `p` goes along edges. */
  ghost predicate IsPath<T(!new)>(edges: T -> set<T>, p: seq<T>) {
    p != [] && forall i :: 0 <= i < |p| - 1 ==> p[i + 1] in edges(p[i])
  }

  /** Some path from one of the roots ends in `x`. */
  ghost predicate Reaches<T(!new)>(edges: T -> set<T>, roots: set<T>, x: T) {
    exists p :: IsPath(edges, p) && p[0] in roots && p[|p| - 1] == x
  }

  ghost predicate IsClosed<T(!new)>(edges: T -> set<T>, s: set<T>) {
    forall x :: x in s ==> edges(x) <= s
  }

  lemma RootReaches<T(!new)>(edges: T -> set<T>, roots: set<T>, x: T)
    requires x in roots
    ensures Reaches(edges, roots, x)
  {
    assert IsPath(edges, [x]);
  }

  lemma ReachesNext<T(!new)>(edges: T -> set<T>, roots: set<T>, x: T, y: T)
    requires Reaches(edges, roots, x) && y in edges(x)
    ensures Reaches(edges, roots, y)
  {
    var p :| IsPath(edges, p) && p[0] in roots && p[|p| - 1] == x;
    var q := p + [y];
    assert forall i :: 0 <= i < |q| - 1 ==> q[i + 1] in edges(q[i]);
    assert IsPath(edges, q);
  }

  lemma {:induction false} PathStaysInside<T(!new)>(edges: T -> set<T>, s: set<T>, p: seq<T>, n: nat)
    requires IsClosed(edges, s) && IsPath(edges, p) && p[0] in s && n < |p|
    ensures p[n] in s
  {
    if n > 0 {
      PathStaysInside(edges, s, p, n - 1);
      assert p[(n - 1) + 1] in edges(p[n - 1]);
    }
  }

  /** A closed set that holds the roots holds all that they reach. */
  lemma ClosedHoldsReachable<T(!new)>(edges: T -> set<T>, roots: set<T>, s: set<T>, x: T)
    requires IsClosed(edges, s) && roots <= s && Reaches(edges, roots, x)
    ensures x in s
  {
    var p :| IsPath(edges, p) && p[0] in roots && p[|p| - 1] == x;
    PathStaysInside(edges, s, p, |p| - 1);
  }
}

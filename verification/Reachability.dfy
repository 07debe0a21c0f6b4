/** Reachability in a finite directed graph, shared by the analyses that walk one. */
module Reachability {

  /** A graph: the successors of each node that has any. */
  type Graph<T> = map<T, set<T>>

  predicate Edge<T(==)>(g: Graph<T>, u: T, v: T) {
    u in g && v in g[u]
  }

  ghost predicate IsPath<T>(g: Graph<T>, p: seq<T>) {
    |p| > 0 && (|p| > 1 ==> Edge(g, p[0], p[1]) && IsPath(g, p[1..]))
  }

  /** `p` leads from `u` to `v`. */
  ghost predicate Links<T>(g: Graph<T>, p: seq<T>, u: T, v: T) {
    IsPath(g, p) && p[0] == u && p[|p| - 1] == v
  }

  /** `v` can be reached from `u` in any number of steps, none included. */
  ghost predicate Reaches<T(!new)>(g: Graph<T>, u: T, v: T) {
    exists p: seq<T> :: Links(g, p, u, v)
  }

  /** A non-empty chain of edges leads from `u` back to itself. */
  ghost predicate OnCycle<T(!new)>(g: Graph<T>, u: T) {
    exists v :: Edge(g, u, v) && Reaches(g, v, u)
  }

  ghost predicate Closed<T(!new)>(g: Graph<T>, s: set<T>) {
    forall u, v :: u in s && Edge(g, u, v) ==> v in s
  }

  lemma ReachesSelf<T(!new)>(g: Graph<T>, u: T)
    ensures Reaches(g, u, u)
  {
    assert Links(g, [u], u, u);
  }

  lemma ReachesStep<T(!new)>(g: Graph<T>, u: T, v: T)
    requires Edge(g, u, v)
    ensures Reaches(g, u, v)
  {
    assert Links(g, [u, v], u, v);
  }

  lemma {:induction false} Join<T>(g: Graph<T>, p: seq<T>, q: seq<T>, u: T, v: T, w: T)
    requires Links(g, p, u, v) && Links(g, q, v, w)
    ensures Links(g, p + q[1..], u, w)
    decreases |p|
  {
    if |p| == 1 {
      assert p + q[1..] == q;
    } else {
      Join(g, p[1..], q, p[1], v, w);
      assert (p + q[1..])[1..] == p[1..] + q[1..];
    }
  }

  lemma ReachesTrans<T(!new)>(g: Graph<T>, u: T, v: T, w: T)
    requires Reaches(g, u, v) && Reaches(g, v, w)
    ensures Reaches(g, u, w)
  {
    var p :| Links(g, p, u, v);
    var q :| Links(g, q, v, w);
    Join(g, p, q, u, v, w);
  }

  lemma ReachesEdge<T(!new)>(g: Graph<T>, u: T, v: T, w: T)
    requires Reaches(g, u, v) && Edge(g, v, w)
    ensures Reaches(g, u, w)
  {
    ReachesStep(g, v, w);
    ReachesTrans(g, u, v, w);
  }

  lemma {:induction false} PathStaysInside<T(!new)>(g: Graph<T>, s: set<T>, p: seq<T>)
    requires Closed(g, s) && IsPath(g, p) && p[0] in s
    ensures p[|p| - 1] in s
    decreases |p|
  {
    if |p| > 1 {
      PathStaysInside(g, s, p[1..]);
    }
  }

  /** A set closed under edges holds whatever its members reach. */
  lemma ReachesStaysInside<T(!new)>(g: Graph<T>, s: set<T>, u: T, v: T)
    requires Closed(g, s) && u in s && Reaches(g, u, v)
    ensures v in s
  {
    var p :| Links(g, p, u, v);
    PathStaysInside(g, s, p);
  }
}

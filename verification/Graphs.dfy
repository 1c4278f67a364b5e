/** Directed graphs as maps from a node to its successors, in order and with repeats as
    they are listed. A node that is not a key has no successors. */
module Graphs {
  import opened Collections
  import opened Wrappers

  type Graph<T> = map<T, seq<T>>

  ghost predicate Edge<T>(g: Graph<T>, p: T, q: T) {
    p in g && q in g[p]
  }

  /** Where one ends up by leaving p through its successor number path[0], and so on. */
  ghost function Follow<T>(g: Graph<T>, p: T, path: seq<nat>): Option<T> {
    if path == [] then Some(p)
    else if p in g && path[0] < |g[p]| then Follow(g, g[p][path[0]], path[1..])
    else None
  }

  /** One can get from p to q in one or more steps. */
  ghost predicate Reaches<T>(g: Graph<T>, p: T, q: T) {
    exists path :: path != [] && Follow(g, p, path) == Some(q)
  }

  ghost predicate Cyclic<T>(g: Graph<T>) {
    exists p :: p in g && Reaches(g, p, p)
  }

  ghost predicate ClosedUnder<T>(g: Graph<T>, s: set<T>) {
    forall p, q | p in s && p in g && q in g[p] :: q in s
  }

  lemma {:induction false} FollowConcat<T>(g: Graph<T>, p: T, a: seq<nat>, b: seq<nat>)
    ensures Follow(g, p, a + b) == match Follow(g, p, a) case None => None case Some(q) => Follow(g, q, b)
  {
    if a == [] {
      assert a + b == b;
    } else {
      assert (a + b)[1..] == a[1..] + b;
      if p in g && a[0] < |g[p]| {
        FollowConcat(g, g[p][a[0]], a[1..], b);
      }
    }
  }

  lemma EdgeReaches<T>(g: Graph<T>, p: T, q: T)
    requires Edge(g, p, q)
    ensures Reaches(g, p, q)
  {
    var k :| 0 <= k < |g[p]| && g[p][k] == q;
    assert Follow(g, p, [k]) == Follow(g, q, []);
  }

  lemma ReachesTransitive<T>(g: Graph<T>, p: T, q: T, r: T)
    requires Reaches(g, p, q) && Reaches(g, q, r)
    ensures Reaches(g, p, r)
  {
    var a :| a != [] && Follow(g, p, a) == Some(q);
    var b :| b != [] && Follow(g, q, b) == Some(r);
    FollowConcat(g, p, a, b);
  }

  /** A closed set that holds the successors of p holds everything p reaches. */
  lemma {:induction false} ClosedHoldsReached<T>(g: Graph<T>, s: set<T>, p: T, path: seq<nat>)
    requires ClosedUnder(g, s) && path != [] && Follow(g, p, path).Some?
    requires forall q | Edge(g, p, q) :: q in s
    ensures Follow(g, p, path).value in s
  {
    var q := g[p][path[0]];
    assert Edge(g, p, q);
    if path[1..] != [] {
      ClosedHoldsReached(g, s, q, path[1..]);
    }
  }

  lemma ReachedIsInClosed<T>(g: Graph<T>, s: set<T>, p: T, r: T)
    requires ClosedUnder(g, s) && Reaches(g, p, r)
    requires forall q | Edge(g, p, q) :: q in s
    ensures r in s
  {
    var path :| path != [] && Follow(g, p, path) == Some(r);
    ClosedHoldsReached(g, s, p, path);
  }

  // ----- Orders and cycles -----

  /** Every node stands somewhere after each of its successors. */
  ghost predicate SuccessorsFirst<T>(g: Graph<T>, order: seq<T>) {
    forall i, q | 0 <= i < |order| && order[i] in g && q in g[order[i]] :: q in order[..i]
  }

  lemma {:induction false} EarlierAlongPath<T>(g: Graph<T>, order: seq<T>, i: nat, path: seq<nat>)
    requires SuccessorsFirst(g, order) && i < |order|
    requires path != [] && Follow(g, order[i], path).Some?
    ensures Follow(g, order[i], path).value in order[..i]
    decreases |path|
  {
    var q := g[order[i]][path[0]];
    assert Edge(g, order[i], q);
    var j :| 0 <= j < i && order[j] == q;
    if path[1..] != [] {
      EarlierAlongPath(g, order, j, path[1..]);
    }
  }

  lemma OrderedIsAcyclic<T>(g: Graph<T>, order: seq<T>)
    requires Distinct(order) && SuccessorsFirst(g, order)
    requires forall p | p in g :: p in order
    ensures !Cyclic(g)
  {
    forall p | p in g && Reaches(g, p, p) ensures false {
      var path :| path != [] && Follow(g, p, path) == Some(p);
      var i :| 0 <= i < |order| && order[i] == p;
      EarlierAlongPath(g, order, i, path);
    }
  }

  // ----- Depth -----

  /** The depth of a node is 0 if it has no predecessor, and otherwise one more than that of
      its deepest predecessor. */
  ghost predicate IsDepth<T>(g: Graph<T>, depth: map<T, nat>) {
    && (forall p, q | p in g && q in g[p] :: p in depth && q in depth && depth[p] < depth[q])
    && (forall q | q in depth && depth[q] > 0 :: HasPredecessorAt(g, depth, q))
  }

  ghost predicate HasPredecessorAt<T>(g: Graph<T>, depth: map<T, nat>, q: T)
    requires q in depth
  {
    exists p :: p in g && q in g[p] && p in depth && depth[p] + 1 == depth[q]
  }

  ghost predicate DeepestFirst<T>(order: seq<T>, depth: map<T, nat>) {
    && (forall p | p in order :: p in depth)
    && forall i, j | 0 <= i < j < |order| :: depth[order[i]] >= depth[order[j]]
  }

  lemma {:induction false} DepthAtMost<T>(g: Graph<T>, depth: map<T, nat>, other: map<T, nat>, q: T)
    requires IsDepth(g, depth) && IsDepth(g, other) && q in depth && q in other
    ensures depth[q] <= other[q]
    decreases depth[q]
  {
    if depth[q] > 0 {
      assert HasPredecessorAt(g, depth, q);
      var p :| p in g && q in g[p] && p in depth && depth[p] + 1 == depth[q];
      DepthAtMost(g, depth, other, p);
    }
  }

  /** There is one depth, so that it can be known beforehand. */
  lemma DepthIsOne<T>(g: Graph<T>, depth: map<T, nat>, other: map<T, nat>)
    requires IsDepth(g, depth) && IsDepth(g, other) && depth.Keys == other.Keys
    ensures depth == other
  {
    forall q | q in depth ensures depth[q] == other[q] {
      DepthAtMost(g, depth, other, q);
      DepthAtMost(g, other, depth, q);
    }
  }

  /** No path to a node is longer than its depth. */
  lemma {:induction false} PathsAreNoLonger<T>(g: Graph<T>, depth: map<T, nat>, p: T, path: seq<nat>)
    requires IsDepth(g, depth) && p in depth && Follow(g, p, path).Some?
    ensures Follow(g, p, path).value in depth && depth[p] + |path| <= depth[Follow(g, p, path).value]
  {
    if path != [] {
      var q := g[p][path[0]];
      assert Edge(g, p, q);
      PathsAreNoLonger(g, depth, q, path[1..]);
    }
  }

  /** And one of them is as long, from a node that has no predecessor. */
  lemma {:induction false} LongestPath<T>(g: Graph<T>, depth: map<T, nat>, q: T) returns (root: T, path: seq<nat>)
    requires IsDepth(g, depth) && q in depth
    ensures root in depth && depth[root] == 0 && |path| == depth[q] && Follow(g, root, path) == Some(q)
    decreases depth[q]
  {
    if depth[q] == 0 {
      root, path := q, [];
    } else {
      assert HasPredecessorAt(g, depth, q);
      var p :| p in g && q in g[p] && p in depth && depth[p] + 1 == depth[q];
      root, path := LongestPath(g, depth, p);
      var k :| 0 <= k < |g[p]| && g[p][k] == q;
      FollowConcat(g, root, path, [k]);
      assert Follow(g, p, [k]) == Follow(g, q, []);
      path := path + [k];
    }
  }

  // ----- Cycles from predecessors -----

  ghost predicate HasPredecessor<T>(g: Graph<T>, s: set<T>, q: T) {
    exists p :: p in s && Edge(g, p, q)
  }

  ghost predicate EachHasPredecessor<T>(g: Graph<T>, s: set<T>) {
    forall q {:trigger HasPredecessor(g, s, q)} | q in s :: HasPredecessor(g, s, q)
  }

  /** When every node of a finite set has a predecessor in the set, there is a cycle:
      walking backwards from any node must come by a node again. */
  lemma {:induction false} BackwardsForever<T>(g: Graph<T>, s: set<T>, x: T, seen: set<T>)
    requires x in s && seen <= s && x !in seen
    requires EachHasPredecessor(g, s)
    requires forall y | y in seen :: Reaches(g, x, y)
    ensures Cyclic(g)
    decreases |s - seen|
  {
    hide *;
    var p := Predecessor(g, s, x);
    EdgeReaches(g, p, x);
    forall y | y in seen ensures Reaches(g, p, y) {
      ReachesTransitive(g, p, x, y);
    }
    if p == x || p in seen {
      CycleAt(g, p);
    } else {
      Smaller(s - (seen + {x}), s - seen, x);
      BackwardsForever(g, s, p, seen + {x});
    }
  }

  lemma Predecessor<T>(g: Graph<T>, s: set<T>, x: T) returns (p: T)
    requires x in s && EachHasPredecessor(g, s)
    ensures p in s && Edge(g, p, x)
  {
    assert HasPredecessor(g, s, x);
    p :| p in s && Edge(g, p, x);
  }

  lemma CycleAt<T>(g: Graph<T>, p: T)
    requires Reaches(g, p, p)
    ensures Cyclic(g)
  {}

  lemma Smaller<T>(a: set<T>, b: set<T>, x: T)
    requires a == b - {x} && x in b
    ensures |a| < |b|
  {}
}

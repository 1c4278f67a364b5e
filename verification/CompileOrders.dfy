/** state/job/dependency_compiler.go: which packages are compiled for a set of job packages,
    and whether the order in which that happens can be relied upon. */
module CompileOrders {
  import opened Collections
  import opened Graphs

  /** What these nodes list as successors. */
  ghost function Successors<T>(g: Graph<T>, s: set<T>): set<T> {
    set p, q | p in s && p in g && q in g[p] :: q
  }

  /** The edges that leave these nodes. */
  ghost function Restrict<T>(g: Graph<T>, s: set<T>): Graph<T> {
    map p | p in g && p in s :: g[p]
  }

  /** The packages that are collected: those of the jobs and their direct dependencies. */
  ghost function Collected<T>(g: Graph<T>, jobs: set<T>): set<T> {
    jobs + Successors(g, jobs)
  }

  /** What sorting makes of the collected packages: it adds their dependencies. */
  ghost function Layered<T>(g: Graph<T>, collected: set<T>): set<T> {
    collected + Successors(g, collected)
  }

  /** The packages that are compiled for these job packages. */
  ghost function CompileSet<T>(g: Graph<T>, jobs: set<T>): set<T> {
    Layered(g, Collected(g, jobs))
  }

  /** The packages that are promised: those of the jobs and all their transitive dependencies. */
  ghost function Closure<T>(g: Graph<T>, jobs: set<T>): set<T> {
    jobs + set q | q in g && exists p :: p in jobs && Reaches(g, p, q)
  }

  lemma CompileSetIsPromised<T>(g: Graph<T>, jobs: set<T>)
    requires ClosedUnder(g, g.Keys) && jobs <= g.Keys
    ensures CompileSet(g, jobs) <= Closure(g, jobs)
  {
    forall q | q in Successors(g, jobs) ensures q in Closure(g, jobs) {
      var p :| p in jobs && p in g && q in g[p];
      EdgeReaches(g, p, q);
    }
    forall r | r in Successors(g, Collected(g, jobs)) ensures r in Closure(g, jobs) {
      var q :| q in Collected(g, jobs) && q in g && r in g[q];
      EdgeReaches(g, q, r);
      if q !in jobs {
        var p :| p in jobs && Reaches(g, p, q);
        ReachesTransitive(g, p, q, r);
      }
    }
  }

  lemma ClosureIsClosed<T>(g: Graph<T>, jobs: set<T>)
    requires ClosedUnder(g, g.Keys) && jobs <= g.Keys
    ensures ClosedUnder(g, Closure(g, jobs))
  {
    forall q, r | q in Closure(g, jobs) && q in g && r in g[q] ensures r in Closure(g, jobs) {
      EdgeReaches(g, q, r);
      if q !in jobs {
        var p :| p in jobs && Reaches(g, p, q);
        ReachesTransitive(g, p, q, r);
      }
    }
  }

  /** The promise is kept exactly when no dependency leads out of the compiled packages. */
  lemma CompleteIffClosed<T>(g: Graph<T>, jobs: set<T>)
    requires ClosedUnder(g, g.Keys) && jobs <= g.Keys
    ensures CompileSet(g, jobs) == Closure(g, jobs) <==> ClosedUnder(g, CompileSet(g, jobs))
  {
    CompileSetIsPromised(g, jobs);
    ClosureIsClosed(g, jobs);
    if ClosedUnder(g, CompileSet(g, jobs)) {
      forall q | q in Closure(g, jobs) ensures q in CompileSet(g, jobs) {
        if q !in jobs {
          var p :| p in jobs && Reaches(g, p, q);
          ReachedIsInClosed(g, CompileSet(g, jobs), p, q);
        }
      }
    }
  }

  ghost predicate IsChain<T>(g: Graph<T>, a: T, b: T, c: T, d: T) {
    && a != b && a != c && a != d && b != c && b != d && c != d
    && g == map[a := [b], b := [c], c := [d], d := []]
  }

  /** A chain of three steps: its end is promised but not compiled. */
  lemma ChainOfThreeSteps<T>(g: Graph<T>, a: T, b: T, c: T, d: T)
    requires IsChain(g, a, b, c, d)
    ensures d in Closure(g, {a}) && d !in CompileSet(g, {a})
  {
    EdgeReaches(g, a, b);
    EdgeReaches(g, b, c);
    EdgeReaches(g, c, d);
    ReachesTransitive(g, a, b, c);
    ReachesTransitive(g, a, c, d);
    assert Successors(g, {a}) == {b};
    assert Successors(g, {a, b}) == {b, c};
    assert Collected(g, {a}) == {a, b};
  }

  // ----- The order -----

  /** What the contract of sorting says about the result for these collected packages. */
  ghost predicate ValidOrder<T>(g: Graph<T>, collected: set<T>, order: seq<T>) {
    && Distinct(order)
    && (forall p | p in order :: p in Layered(g, collected))
    && (forall p | p in Layered(g, collected) :: p in order)
    && SuccessorsFirst(Restrict(g, collected), order)
  }

  /** Compiled packages that are not collected have no dependencies. */
  ghost predicate LeavesOnly<T>(g: Graph<T>, collected: set<T>) {
    forall p | p in Layered(g, collected) && p !in collected && p in g :: g[p] == []
  }

  /** An order as sorting makes it: valid, and the deepest packages first. The depth is that
      in the graph of the edges that sorting sees, those of the collected packages. */
  ghost predicate SortedOrder<T>(g: Graph<T>, collected: set<T>, depth: map<T, nat>, order: seq<T>) {
    && ValidOrder(g, collected, order)
    && IsDepth(Restrict(g, collected), depth) && depth.Keys == Layered(g, collected)
    && DeepestFirst(order, depth)
  }

  /** What the compiled packages that are not collected depend on is compiled, and deeper. */
  ghost predicate DeeperOnly<T>(g: Graph<T>, collected: set<T>, depth: map<T, nat>) {
    forall p, q | p in Layered(g, collected) && p !in collected && p in g && q in g[p] ::
      p in depth && q in depth && depth[p] < depth[q]
  }

  /** A compiled package that is not collected depends on one that is not compiled at all, or
      not as deep. */
  ghost predicate Misplaced<T>(g: Graph<T>, collected: set<T>, depth: map<T, nat>, p: T, q: T) {
    && p in Layered(g, collected) && p !in collected && p in g && q in g[p]
    && p in depth && (q !in depth || depth[q] < depth[p])
  }

  ghost predicate SomeMisplaced<T>(g: Graph<T>, collected: set<T>, depth: map<T, nat>) {
    exists p, q :: p in g && q in g[p] && Misplaced(g, collected, depth, p, q)
  }

  lemma LeavesOnlyIsDeeperOnly<T>(g: Graph<T>, collected: set<T>, depth: map<T, nat>)
    requires LeavesOnly(g, collected)
    ensures DeeperOnly(g, collected, depth)
  {}

  /** Deeper dependencies are enough, whatever the order of iteration. */
  lemma DeeperOnlyIsSound<T>(g: Graph<T>, collected: set<T>, depth: map<T, nat>, order: seq<T>)
    requires SortedOrder(g, collected, depth, order) && DeeperOnly(g, collected, depth)
    ensures SuccessorsFirst(g, order)
  {
    hide Layered, IsDepth;
    var h := Restrict(g, collected);
    forall i, q | 0 <= i < |order| && order[i] in g && q in g[order[i]] ensures q in order[..i] {
      var p := order[i];
      assert p in order;
      if p in collected {
        assert p in h && q in h[p];
      } else {
        assert q in order;
        var j :| 0 <= j < |order| && order[j] == q;
        assert j < i;
      }
    }
  }

  /** Less deep dependencies come too late, whatever the order of iteration. */
  lemma MisplacedIsUnsound<T>(g: Graph<T>, collected: set<T>, depth: map<T, nat>, order: seq<T>, p: T, q: T)
    requires SortedOrder(g, collected, depth, order) && Misplaced(g, collected, depth, p, q)
    ensures !SuccessorsFirst(g, order)
  {
    hide Layered, IsDepth;
    var i :| 0 <= i < |order| && order[i] == p;
    forall j | 0 <= j < i ensures order[j] != q {
      assert order[j] in order && depth[order[j]] >= depth[order[i]];
    }
    assert q !in order[..i];
  }

  lemma DeepestFirstIsSuccessorsFirst<T>(h: Graph<T>, depth: map<T, nat>, order: seq<T>)
    requires IsDepth(h, depth) && DeepestFirst(order, depth) && forall p | p in depth :: p in order
    ensures SuccessorsFirst(h, order)
  {
    forall i, q | 0 <= i < |order| && order[i] in h && q in h[order[i]] ensures q in order[..i] {
      assert q in depth;
      var j :| 0 <= j < |order| && order[j] == q;
      assert j < i;
    }
  }

  lemma Swap<T>(order: seq<T>, i: nat, j: nat) returns (next: seq<T>)
    requires Distinct(order) && i < j < |order|
    ensures |next| == |order| && next[i] == order[j] && next[j] == order[i]
    ensures forall k | 0 <= k < |order| && k != i && k != j :: next[k] == order[k]
    ensures Distinct(next)
    ensures forall p :: p in next <==> p in order
  {
    next := order[i := order[j]][j := order[i]];
    assert forall k | 0 <= k < |order| :: next[k] in order;
    forall p | p in order ensures p in next {
      var k :| 0 <= k < |order| && order[k] == p;
      assert next[if k == i then j else if k == j then i else k] == p;
    }
  }

  lemma SwapKeepsDepth<T>(order: seq<T>, depth: map<T, nat>, i: nat, j: nat, next: seq<T>)
    requires DeepestFirst(order, depth) && i < j < |order| && depth[order[i]] == depth[order[j]]
    requires |next| == |order| && next[i] == order[j] && next[j] == order[i]
    requires forall k | 0 <= k < |order| && k != i && k != j :: next[k] == order[k]
    requires forall p :: p in next <==> p in order
    ensures DeepestFirst(next, depth)
  {
    assert forall k | 0 <= k < |order| :: next[k] in depth && depth[next[k]] == depth[order[k]];
  }

  /** Two packages of the same depth may as well change places. */
  lemma Swapped<T>(g: Graph<T>, collected: set<T>, depth: map<T, nat>, order: seq<T>, i: nat, j: nat) returns (next: seq<T>)
    requires SortedOrder(g, collected, depth, order) && i < j < |order| && depth[order[i]] == depth[order[j]]
    ensures |next| == |order| && next[i] == order[j] && next[j] == order[i]
    ensures SortedOrder(g, collected, depth, next)
  {
    hide Layered, IsDepth, SuccessorsFirst, Distinct, DeepestFirst;
    next := Swap(order, i, j);
    SwapKeepsDepth(order, depth, i, j, next);
    DeepestFirstIsSuccessorsFirst(Restrict(g, collected), depth, next);
  }

  /** What can be concluded from the contract of sorting: all orders that it allows have every
      dependency first exactly when the packages that sorting adds depend on deeper ones only.
      With a dependency of the same depth the contract allows either order. */
  lemma SortPromisesOrderIffDeeper<T>(g: Graph<T>, collected: set<T>, depth: map<T, nat>, order: seq<T>)
    requires SortedOrder(g, collected, depth, order)
    ensures (forall o :: SortedOrder(g, collected, depth, o) ==> SuccessorsFirst(g, o)) <==> DeeperOnly(g, collected, depth)
  {
    hide SortedOrder, DeeperOnly, SuccessorsFirst, Misplaced;
    if DeeperOnly(g, collected, depth) {
      forall o | SortedOrder(g, collected, depth, o) ensures SuccessorsFirst(g, o) {
        DeeperOnlyIsSound(g, collected, depth, o);
      }
    } else {
      var p, q := NotDeeper(g, collected, depth, order);
      if Misplaced(g, collected, depth, p, q) {
        MisplacedIsUnsound(g, collected, depth, order, p, q);
      } else {
        SameDepthIsUnsound(g, collected, depth, order, p, q);
      }
    }
  }

  lemma NotDeeper<T>(g: Graph<T>, collected: set<T>, depth: map<T, nat>, order: seq<T>) returns (p: T, q: T)
    requires SortedOrder(g, collected, depth, order) && !DeeperOnly(g, collected, depth)
    ensures p in g && q in g[p] && p in depth
    ensures Misplaced(g, collected, depth, p, q) || (q in depth && depth[p] == depth[q])
  {
    hide Layered, IsDepth, ValidOrder, DeepestFirst;
    p, q :| p in Layered(g, collected) && p !in collected && p in g && q in g[p]
      && !(p in depth && q in depth && depth[p] < depth[q]);
  }

  lemma SameDepthIsUnsound<T>(g: Graph<T>, collected: set<T>, depth: map<T, nat>, order: seq<T>, p: T, q: T)
    requires SortedOrder(g, collected, depth, order)
    requires p in depth && q in depth && depth[p] == depth[q] && p in g && q in g[p]
    ensures exists o :: SortedOrder(g, collected, depth, o) && !SuccessorsFirst(g, o)
  {
    hide SortedOrder;
    var i, j := Places(g, collected, depth, order, p, q);
    if j < i {
      var next := Swapped(g, collected, depth, order, j, i);
      LaterIsUnsound(g, collected, depth, next, p, q, j, i);
    } else {
      LaterIsUnsound(g, collected, depth, order, p, q, i, j);
    }
  }

  lemma Places<T>(g: Graph<T>, collected: set<T>, depth: map<T, nat>, order: seq<T>, p: T, q: T) returns (i: nat, j: nat)
    requires SortedOrder(g, collected, depth, order) && p in depth && q in depth
    ensures i < |order| && j < |order| && order[i] == p && order[j] == q && depth.Keys == ToSet(order)
  {
    hide Layered, IsDepth;
    i :| 0 <= i < |order| && order[i] == p;
    j :| 0 <= j < |order| && order[j] == q;
    assert forall x :: x in depth <==> x in order;
  }

  lemma LaterIsUnsound<T>(
    g: Graph<T>, collected: set<T>, depth: map<T, nat>, order: seq<T>, p: T, q: T, i: nat, j: nat)
    requires SortedOrder(g, collected, depth, order) && i <= j < |order| && order[i] == p && order[j] == q
    requires p in g && q in g[p]
    ensures !SuccessorsFirst(g, order)
  {
    assert q !in order[..i];
  }

  /** Leaves only is enough for the promise, too. */
  lemma LeavesOnlyIsComplete<T>(g: Graph<T>, jobs: set<T>)
    requires ClosedUnder(g, g.Keys) && jobs <= g.Keys && LeavesOnly(g, Collected(g, jobs))
    ensures CompileSet(g, jobs) == Closure(g, jobs)
  {
    assert ClosedUnder(g, CompileSet(g, jobs));
    CompleteIffClosed(g, jobs);
  }

  /** An order of all compiled packages with every dependency first leaves nothing out. */
  lemma OrderedMeansClosed<T>(g: Graph<T>, collected: set<T>, order: seq<T>)
    requires ValidOrder(g, collected, order) && SuccessorsFirst(g, order)
    ensures ClosedUnder(g, Layered(g, collected))
  {
    hide Layered;
    forall p, q | p in Layered(g, collected) && p in g && q in g[p] ensures q in Layered(g, collected) {
      var k :| 0 <= k < |order| && order[k] == p;
      assert q in order[..k];
    }
  }

  /** What is compiled is the same whichever order is taken; what is misplaced may only be
      missing. */
  lemma NotClosedIsMisplaced<T>(g: Graph<T>, collected: set<T>, depth: map<T, nat>)
    requires depth.Keys == Layered(g, collected) && !ClosedUnder(g, Layered(g, collected))
    ensures SomeMisplaced(g, collected, depth)
  {
    var p, q :| p in Layered(g, collected) && p in g && q in g[p] && q !in Layered(g, collected);
    assert Misplaced(g, collected, depth, p, q);
  }

  ghost predicate IsShortCut<T>(g: Graph<T>, a: T, b: T, p: T, q: T) {
    && a != b && a != p && a != q && b != p && b != q && p != q
    && g == map[a := [b, q], b := [p], p := [q], q := []]
  }

  lemma ShortCutSets<T>(g: Graph<T>, a: T, b: T, p: T, q: T)
    requires IsShortCut(g, a, b, p, q)
    ensures Collected(g, {a}) == {a, b, q}
    ensures CompileSet(g, {a}) == Closure(g, {a}) == {a, b, p, q}
  {
    assert g[a] == [b, q] && g[b] == [p] && g[p] == [q] && g[q] == [];
    assert b in g[a] && q in g[a] && p in g[b];
    assert Successors(g, {a}) == {b, q};
    assert Successors(g, {a, b, q}) == {b, q, p};
    assert ClosedUnder(g, g.Keys) && ClosedUnder(g, {a, b, p, q});
    CompleteIffClosed(g, {a});
  }

  /** A short cut to a package that is also needed on the way: all that is promised is
      compiled, and still the package that sorting adds is misplaced. */
  lemma ShortCut<T>(g: Graph<T>, a: T, b: T, p: T, q: T, depth: map<T, nat>)
    requires IsShortCut(g, a, b, p, q)
    requires IsDepth(Restrict(g, Collected(g, {a})), depth) && depth.Keys == CompileSet(g, {a})
    ensures CompileSet(g, {a}) == Closure(g, {a})
    ensures Misplaced(g, Collected(g, {a}), depth, p, q)
  {
    ShortCutSets(g, a, b, p, q);
    var h := Restrict(g, {a, b, q});
    assert b in h[a] && q in h[a] && p in h[b];
    if depth[q] > 0 {
      assert HasPredecessorAt(h, depth, q);
    }
    assert q in g[p];
  }
}

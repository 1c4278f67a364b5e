/** release/pkg/sort.go: Kahn's algorithm on the packages of a release. Go iterates over a
    map in any order; so does the loop that fills the first worklist. */
module PackageSort {
  import opened Collections
  import opened Wrappers
  import opened Graphs
  import opened Packages

  function Get(m: Graph<Package>, p: Package): seq<Package> {
    if p in m then m[p] else []
  }

  /** The packages and everything that they depend on directly. */
  ghost function Nodes(g: Graph<Package>): set<Package> {
    g.Keys + set p, q | p in g && q in g[p] :: q
  }

  /** The outgoing edges of all these packages, of which the map lists those that have any. */
  ghost function Outgoing(m: Graph<Package>, packages: seq<Package>): Graph<Package> {
    map p | p in packages :: Get(m, p)
  }

  /** The outgoing edges are those of the graph. */
  ghost predicate SameEdges(g: Graph<Package>, outgoing: Graph<Package>, packages: seq<Package>) {
    && (forall p | p in g :: p in packages)
    && (forall p | p in packages :: p in g && (forall q | q in g[p] :: q in Get(outgoing, p)) && forall q | q in Get(outgoing, p) :: q in g[p])
  }

  ghost predicate DependentsKnown(incoming: Graph<Package>, left: Graph<Package>) {
    forall d, p | d in incoming && p in incoming[d] :: p in left
  }

  ghost predicate CountsAgree(incoming: Graph<Package>, left: Graph<Package>) {
    forall d, p | d in incoming && p in left :: multiset(incoming[d])[p] == multiset(left[p])[d]
  }

  ghost predicate TargetsKnown(incoming: Graph<Package>, left: Graph<Package>) {
    forall d, p | p in left && d in left[p] :: d in incoming
  }

  /** A package is listed as a dependent as often as it still lists the dependency. */
  ghost predicate Balanced(incoming: Graph<Package>, left: Graph<Package>) {
    DependentsKnown(incoming, left) && CountsAgree(incoming, left) && TargetsKnown(incoming, left)
  }

  lemma EdgeAdded(incoming: Graph<Package>, left: Graph<Package>, p: Package, d: Package)
    requires Balanced(incoming, left) && p in left
    ensures Balanced(incoming[d := Get(incoming, d) + [p]], left[p := left[p] + [d]])
  {
    if d !in incoming {
      assert forall q | q in left :: multiset(left[q])[d] == 0;
    }
  }

  lemma TailCount<T>(s: seq<T>, x: T)
    requires s != []
    ensures multiset(s[1..])[x] == multiset(s)[x] - if x == s[0] then 1 else 0
  {
    assert s == [s[0]] + s[1..];
  }

  lemma OneLess(list: seq<Package>, before: seq<Package>, p: Package)
    requires multiset(list) == multiset(before) - multiset{p}
    ensures forall x | x in list :: x in before
    ensures forall q | q != p :: multiset(list)[q] == multiset(before)[q]
    ensures p in before ==> multiset(list)[p] == multiset(before)[p] - 1
  {
    forall x | x in list ensures x in before {
      assert multiset(list)[x] > 0;
      assert multiset(before)[x] > 0;
    }
  }

  lemma CountsStillAgree(incoming: Graph<Package>, left: Graph<Package>, p: Package, list: seq<Package>)
    requires CountsAgree(incoming, left) && p in left && left[p] != [] && left[p][0] in incoming
    requires multiset(list) == multiset(incoming[left[p][0]]) - multiset{p}
    ensures p in incoming[left[p][0]]
    ensures CountsAgree(incoming[left[p][0] := list], left[p := left[p][1..]])
  {
    var d := left[p][0];
    assert multiset(incoming[d])[p] == multiset(left[p])[d] > 0;
    var incoming', left' := incoming[d := list], left[p := left[p][1..]];
    OneLess(list, incoming[d], p);
    forall e, q | e in incoming' && q in left' ensures multiset(incoming'[e])[q] == multiset(left'[q])[e] {
      assert multiset(incoming[e])[q] == multiset(left[q])[e];
      if q == p {
        TailCount(left[p], e);
      }
    }
  }

  lemma EdgeRemoved(incoming: Graph<Package>, left: Graph<Package>, p: Package, list: seq<Package>)
    requires Balanced(incoming, left) && p in left && left[p] != []
    requires left[p][0] in incoming && multiset(list) == multiset(incoming[left[p][0]]) - multiset{p}
    ensures Balanced(incoming[left[p][0] := list], left[p := left[p][1..]])
    ensures p in incoming[left[p][0]]
  {
    CountsStillAgree(incoming, left, p, list);
    hide CountsAgree;
    OneLess(list, incoming[left[p][0]], p);
    assert forall e | e in left[p][1..] :: e in left[p];
  }

  lemma TargetIsNode(g: Graph<Package>, p: Package, q: Package)
    requires Edge(g, p, q)
    ensures q in Nodes(g)
  {}

  lemma KeysAreNodes(g: Graph<Package>)
    ensures g.Keys <= Nodes(g)
  {}

  lemma AllNodes(g: Graph<Package>, s: set<Package>)
    requires g.Keys <= s <= Nodes(g)
    requires forall p, q | p in g && q in g[p] :: q in s
    ensures s == Nodes(g)
  {}

  lemma OneMoreEdge(m: Graph<Package>, packages: seq<Package>, p: Package, d: Package)
    requires p in packages
    ensures Outgoing(m[p := Get(m, p) + [d]], packages) ==
            Outgoing(m, packages)[p := Outgoing(m, packages)[p] + [d]]
  {}

  lemma OutgoingOf(m: Graph<Package>, packages: seq<Package>, p: Package)
    requires p in packages
    ensures p in Outgoing(m, packages) && Outgoing(m, packages)[p] == Get(m, p)
  {}

  lemma BalancedTargets(incoming: Graph<Package>, outgoing: Graph<Package>, packages: seq<Package>)
    requires Balanced(incoming, Outgoing(outgoing, packages))
    ensures forall p, q | p in packages && q in Get(outgoing, p) :: q in incoming
  {
    assert forall p | p in packages :: p in Outgoing(outgoing, packages);
  }

  lemma NoneOutgoing(packages: seq<Package>)
    ensures forall p | p in Outgoing(map[], packages) :: Outgoing(map[], packages)[p] == []
  {}

  lemma NoEdges(incoming: Graph<Package>, left: Graph<Package>)
    requires forall p | p in incoming :: incoming[p] == []
    requires forall p | p in left :: left[p] == []
    ensures Balanced(incoming, left)
  {}

  /** The edges of the first i packages, and the first j edges of the one after them. */
  ghost predicate EdgesCollected(
    packages: seq<Package>, i: nat, j: nat, incoming: Graph<Package>, outgoing: Graph<Package>)
    reads packages
  {
    && i <= |packages| && (i < |packages| ==> j <= |packages[i].dependencies|)
    && Balanced(incoming, Outgoing(outgoing, packages))
    && ToSet(packages) <= incoming.Keys <= Nodes(EdgesOf(packages))
    && (forall p | p in outgoing :: p in packages && forall q | q in outgoing[p] :: q in p.dependencies)
    && (forall p, q | p in packages[..i] && q in p.dependencies :: q in Get(outgoing, p))
    && (i < |packages| ==> forall q | q in packages[i].dependencies[..j] :: q in Get(outgoing, packages[i]))
  }

  lemma NoneCollected(packages: seq<Package>, incoming: Graph<Package>)
    requires incoming.Keys == ToSet(packages) && forall p | p in incoming :: incoming[p] == []
    ensures EdgesCollected(packages, 0, 0, incoming, map[])
  {
    NoneOutgoing(packages);
    KeysAreNodes(EdgesOf(packages));
    NoEdges(incoming, Outgoing(map[], packages));
  }

  lemma OneMoreCollected(
    packages: seq<Package>, i: nat, j: nat, incoming: Graph<Package>, outgoing: Graph<Package>)
    requires EdgesCollected(packages, i, j, incoming, outgoing) && i < |packages| && j < |packages[i].dependencies|
    ensures
      var p, d := packages[i], packages[i].dependencies[j];
      EdgesCollected(packages, i, j + 1, incoming[d := Get(incoming, d) + [p]], outgoing[p := Get(outgoing, p) + [d]])
  {
    hide Balanced, Nodes, Outgoing, ToSet;
    var p, d := packages[i], packages[i].dependencies[j];
    OutgoingOf(outgoing, packages, p);
    EdgeAdded(incoming, Outgoing(outgoing, packages), p, d);
    OneMoreEdge(outgoing, packages, p, d);
    TargetIsNode(EdgesOf(packages), p, d);
    assert p.dependencies[..j + 1] == p.dependencies[..j] + [d];
  }

  lemma PackageCollected(
    packages: seq<Package>, i: nat, incoming: Graph<Package>, outgoing: Graph<Package>)
    requires i < |packages| && EdgesCollected(packages, i, |packages[i].dependencies|, incoming, outgoing)
    ensures EdgesCollected(packages, i + 1, 0, incoming, outgoing)
  {
    hide Balanced, Nodes, Outgoing;
    assert packages[i].dependencies[..|packages[i].dependencies|] == packages[i].dependencies;
    assert packages[..i + 1] == packages[..i] + [packages[i]];
  }

  lemma AllCollected(packages: seq<Package>, incoming: Graph<Package>, outgoing: Graph<Package>)
    requires EdgesCollected(packages, |packages|, 0, incoming, outgoing)
    ensures incoming.Keys == Nodes(EdgesOf(packages))
    ensures Balanced(incoming, Outgoing(outgoing, packages))
    ensures SameEdges(EdgesOf(packages), outgoing, packages)
    ensures outgoing.Keys <= ToSet(packages)
  {
    assert packages[..|packages|] == packages;
    BalancedTargets(incoming, outgoing, packages);
    AllNodes(EdgesOf(packages), incoming.Keys);
  }

  /** The dependents and the dependencies of every package. */
  method GetEdgeMaps(packages: seq<Package>) returns (incoming: Graph<Package>, outgoing: Graph<Package>)
    ensures incoming.Keys == Nodes(EdgesOf(packages))
    ensures Balanced(incoming, Outgoing(outgoing, packages))
    ensures SameEdges(EdgesOf(packages), outgoing, packages)
    ensures outgoing.Keys <= ToSet(packages)
  {
    hide Balanced, Nodes, Outgoing, EdgesCollected;
    incoming, outgoing := map[], map[];
    for i := 0 to |packages|
      invariant incoming.Keys == ToSet(packages[..i])
      invariant forall p | p in incoming :: incoming[p] == []
    {
      incoming := incoming[packages[i] := []];
    }
    assert packages[..|packages|] == packages;
    NoneCollected(packages, incoming);
    for i := 0 to |packages|
      invariant EdgesCollected(packages, i, 0, incoming, outgoing)
    {
      var p := packages[i];
      for j := 0 to |p.dependencies|
        invariant EdgesCollected(packages, i, j, incoming, outgoing)
      {
        var dep := p.dependencies[j];
        OneMoreCollected(packages, i, j, incoming, outgoing);
        incoming := incoming[dep := Get(incoming, dep) + [p]];
        outgoing := outgoing[p := Get(outgoing, p) + [dep]];
      }
      PackageCollected(packages, i, incoming, outgoing);
    }
    AllCollected(packages, incoming, outgoing);
  }

  /** Removes the first occurrence. The package must be in the list: otherwise it panics. */
  method RemoveFromList(list: seq<Package>, p: Package) returns (r: seq<Package>)
    requires p in list
    ensures multiset(r) == multiset(list) - multiset{p}
    ensures |r| == |list| - 1
  {
    r := list;
    for i := 0 to |list|
      invariant forall k | 0 <= k < i :: list[k] != p
    {
      if list[i] == p {
        assert list == list[..i] + [p] + list[i + 1..];
        return list[..i] + list[i + 1..];
      }
    }
    assert false;
  }

  // ----- The worklist -----

  /** Every package whose dependents are all sorted is sorted or in the worklist, once. */
  ghost predicate Progress(
    incoming: Graph<Package>, left: Graph<Package>, worklist: seq<Package>, sorted: seq<Package>)
  {
    && Balanced(incoming, left)
    && Distinct(worklist) && Distinct(sorted)
    && (forall x | x in sorted :: x !in worklist)
    && (forall x | x in worklist :: x in incoming)
    && (forall x | x in sorted :: x in incoming)
    && (forall x | x in incoming :: incoming[x] == [] <==> x in worklist || x in sorted)
  }

  /** The sorted packages have no edges left, the others have all of theirs. */
  ghost predicate Spent(outgoing: Graph<Package>, left: Graph<Package>, packages: seq<Package>, sorted: seq<Package>) {
    && (forall p | p in left :: p in packages)
    && (forall p | p in packages :: p in left && left[p] == if p in sorted then [] else Get(outgoing, p))
  }

  ghost predicate DependentsAfter(outgoing: Graph<Package>, packages: seq<Package>, sorted: seq<Package>) {
    forall i, p | 0 <= i < |sorted| && p in packages && sorted[i] in Get(outgoing, p) :: p in sorted[i + 1..]
  }

  /** One package is being sorted: its first k edges are spent. */
  ghost predicate Spending(
    outgoing: Graph<Package>, left: Graph<Package>, packages: seq<Package>, sorted: seq<Package>, elem: Package, k: nat)
  {
    && (forall p | p in left :: p in packages)
    && k <= |Get(outgoing, elem)|
    && (forall p | p in packages ::
          p in left && left[p] == if p == elem then Get(outgoing, p)[k..] else if p in sorted then [] else Get(outgoing, p))
  }

  lemma SpendingBegins(
    outgoing: Graph<Package>, left: Graph<Package>, packages: seq<Package>, sorted: seq<Package>, elem: Package)
    requires Spent(outgoing, left, packages, sorted) && elem !in sorted
    ensures Spending(outgoing, left, packages, sorted, elem, 0)
  {}

  lemma SpendingOn(
    outgoing: Graph<Package>, left: Graph<Package>, packages: seq<Package>, sorted: seq<Package>, elem: Package, k: nat)
    requires Spending(outgoing, left, packages, sorted, elem, k) && k < |Get(outgoing, elem)|
    requires elem in packages
    ensures elem in left && left[elem] != [] && left[elem][0] == Get(outgoing, elem)[k]
    ensures Spending(outgoing, left[elem := left[elem][1..]], packages, sorted, elem, k + 1)
  {
    assert Get(outgoing, elem)[k..][1..] == Get(outgoing, elem)[k + 1..];
  }

  lemma SpentOnAll(
    outgoing: Graph<Package>, left: Graph<Package>, packages: seq<Package>, sorted: seq<Package>, elem: Package)
    requires Spending(outgoing, left, packages, sorted, elem, |Get(outgoing, elem)|)
    ensures Spent(outgoing, left, packages, [elem] + sorted)
  {}

  lemma EdgeFound(
    incoming: Graph<Package>, left: Graph<Package>, worklist: seq<Package>, sorted: seq<Package>, p: Package)
    requires Progress(incoming, left, worklist, sorted) && p in left && left[p] != []
    ensures left[p][0] in incoming && p in incoming[left[p][0]]
  {
    assert multiset(left[p])[left[p][0]] > 0;
    assert p in multiset(incoming[left[p][0]]);
  }

  /** What is sorted fits into the nodes, so that there is an end to it. */
  lemma SortedFits(incoming: Graph<Package>, left: Graph<Package>, worklist: seq<Package>, sorted: seq<Package>)
    requires Progress(incoming, left, worklist, sorted)
    ensures |sorted| <= |incoming.Keys|
  {
    SetSize(sorted);
    SubsetSize(ToSet(sorted), incoming.Keys);
  }

  lemma Begun(incoming: Graph<Package>, outgoing: Graph<Package>, packages: seq<Package>, worklist: seq<Package>)
    requires Balanced(incoming, Outgoing(outgoing, packages)) && Undepended(incoming, worklist)
    ensures Progress(incoming, Outgoing(outgoing, packages), worklist, [])
    ensures Spent(outgoing, Outgoing(outgoing, packages), packages, [])
    ensures DependentsAfter(outgoing, packages, [])
  {}

  lemma Taken(incoming: Graph<Package>, left: Graph<Package>, worklist: seq<Package>, sorted: seq<Package>)
    requires Progress(incoming, left, worklist, sorted) && worklist != []
    ensures Progress(incoming, left, worklist[1..], [worklist[0]] + sorted)
    ensures worklist[0] in incoming && worklist[0] !in sorted
  {
    assert worklist[0] in worklist && worklist[0] !in sorted;
    assert forall x | x in worklist[1..] :: x in worklist && x != worklist[0];
  }

  lemma DependentSorted(
    incoming: Graph<Package>, outgoing: Graph<Package>, left: Graph<Package>, packages: seq<Package>,
    sorted: seq<Package>, x: Package, p: Package)
    requires Balanced(incoming, left) && Spent(outgoing, left, packages, sorted)
    requires x in incoming && incoming[x] == [] && p in packages && x in Get(outgoing, p)
    ensures p in sorted
  {
    assert multiset(incoming[x])[p] == multiset(left[p])[x] == 0;
  }

  lemma DependentsAreAfter(
    incoming: Graph<Package>, outgoing: Graph<Package>, left: Graph<Package>, packages: seq<Package>,
    worklist: seq<Package>, sorted: seq<Package>)
    requires Progress(incoming, left, worklist, sorted) && worklist != []
    requires Spent(outgoing, left, packages, sorted) && DependentsAfter(outgoing, packages, sorted)
    ensures DependentsAfter(outgoing, packages, [worklist[0]] + sorted)
  {
    hide Balanced, Spent;
    var elem := worklist[0];
    var next := [elem] + sorted;
    forall i, p | 0 <= i < |next| && p in packages && next[i] in Get(outgoing, p) ensures p in next[i + 1..] {
      if i == 0 {
        DependentSorted(incoming, outgoing, left, packages, sorted, elem, p);
        assert next[1..] == sorted;
      } else {
        assert next[i + 1..] == sorted[i..];
        assert p in sorted[i - 1 + 1..];
      }
    }
  }

  // ----- Level by level -----

  /** What stands in the worklist or is sorted has its depth: more than all of its dependents,
      which are sorted, and one more than one of them, if there are any. */
  ghost predicate DepthSoFar(
    outgoing: Graph<Package>, packages: seq<Package>, depth: map<Package, nat>, sorted: seq<Package>)
  {
    && (forall x, p | x in depth && p in packages && x in Get(outgoing, p) ::
          p in sorted && p in depth && depth[p] < depth[x])
    && (forall x | x in depth && depth[x] > 0 :: HasDependentAt(outgoing, packages, depth, x))
  }

  ghost predicate HasDependentAt(
    outgoing: Graph<Package>, packages: seq<Package>, depth: map<Package, nat>, x: Package)
    requires x in depth
  {
    exists p :: p in packages && x in Get(outgoing, p) && p in depth && depth[p] + 1 == depth[x]
  }

  /** The worklist goes down level by level: it never holds more than two levels, the deeper
      one last, and neither is above the level that was sorted last. */
  ghost predicate Levels(depth: map<Package, nat>, worklist: seq<Package>, sorted: seq<Package>) {
    && DeepestFirst(sorted, depth)
    && (forall x | x in worklist :: x in depth)
    && (forall x | x in depth :: x in worklist || x in sorted)
    && (forall i, j | 0 <= i < j < |worklist| :: depth[worklist[i]] <= depth[worklist[j]])
    && (forall x | x in worklist ::
          if sorted == [] then depth[x] == 0 else depth[sorted[0]] <= depth[x] <= depth[sorted[0]] + 1)
  }

  /** These packages enter the worklist, one level below the package that was sorted. */
  ghost function Deeper(depth: map<Package, nat>, elem: Package, added: seq<Package>): (d: map<Package, nat>)
    requires elem in depth
    ensures forall x | x in depth :: x in d && d[x] == depth[x]
    ensures forall x | x in added && x !in depth :: x in d && d[x] == depth[elem] + 1
    ensures forall x | x in d :: x in depth || x in added
  {
    map x | x in depth.Keys + ToSet(added) :: if x in depth then depth[x] else depth[elem] + 1
  }

  lemma NotDependedOn(
    incoming: Graph<Package>, outgoing: Graph<Package>, packages: seq<Package>, x: Package, p: Package)
    requires Balanced(incoming, Outgoing(outgoing, packages)) && x in incoming && incoming[x] == [] && p in packages
    ensures x !in Get(outgoing, p)
  {
    OutgoingOf(outgoing, packages, p);
    assert multiset(incoming[x])[p] == multiset(Get(outgoing, p))[x];
  }

  lemma LevelsBegin(
    incoming: Graph<Package>, outgoing: Graph<Package>, packages: seq<Package>, worklist: seq<Package>)
    returns (depth: map<Package, nat>)
    requires Balanced(incoming, Outgoing(outgoing, packages)) && Undepended(incoming, worklist)
    ensures Levels(depth, worklist, []) && DepthSoFar(outgoing, packages, depth, [])
  {
    depth := map x | x in worklist :: 0;
    forall x, p | x in depth && p in packages ensures x !in Get(outgoing, p) {
      NotDependedOn(incoming, outgoing, packages, x, p);
    }
  }

  lemma WorklistGoesOn(
    depth: map<Package, nat>, worklist: seq<Package>, d: nat, added: seq<Package>, depth': map<Package, nat>)
    requires forall x | x in worklist :: x in depth && x in depth' && depth'[x] == depth[x] && d <= depth[x] <= d + 1
    requires forall i, j | 0 <= i < j < |worklist| :: depth[worklist[i]] <= depth[worklist[j]]
    requires forall x | x in added :: x in depth' && depth'[x] == d + 1
    ensures
      var rest := worklist + added;
      && (forall x | x in rest :: x in depth' && d <= depth'[x] <= d + 1)
      && forall i, j | 0 <= i < j < |rest| :: depth'[rest[i]] <= depth'[rest[j]]
  {
    var rest := worklist + added;
    forall i, j | 0 <= i < j < |rest| ensures depth'[rest[i]] <= depth'[rest[j]] {
      if j < |worklist| {
        assert rest[i] == worklist[i] && rest[j] == worklist[j];
      } else {
        assert rest[j] in added;
        assert rest[i] in worklist || rest[i] in added;
      }
    }
  }

  lemma SortedGoesOn(depth: map<Package, nat>, elem: Package, sorted: seq<Package>, depth': map<Package, nat>)
    requires DeepestFirst(sorted, depth) && elem in depth
    requires sorted == [] || depth[sorted[0]] <= depth[elem]
    requires forall x | x in depth :: x in depth' && depth'[x] == depth[x]
    ensures forall x | x in sorted :: depth[x] <= depth[elem]
    ensures DeepestFirst([elem] + sorted, depth')
  {
    forall x | x in sorted ensures depth[x] <= depth[elem] {
      var i :| 0 <= i < |sorted| && sorted[i] == x;
      assert i > 0 ==> depth[sorted[0]] >= depth[sorted[i]];
    }
  }

  lemma LevelsGoOn(depth: map<Package, nat>, worklist: seq<Package>, sorted: seq<Package>, added: seq<Package>)
    requires Levels(depth, worklist, sorted) && worklist != []
    requires forall x | x in added :: x !in depth
    ensures worklist[0] in depth
    ensures Levels(Deeper(depth, worklist[0], added), worklist[1..] + added, [worklist[0]] + sorted)
  {
    hide Deeper;
    var elem, next, rest := worklist[0], [worklist[0]] + sorted, worklist[1..];
    var depth' := Deeper(depth, elem, added);
    forall x | x in rest ensures x in depth && depth[elem] <= depth[x] <= depth[elem] + 1 {
      var i :| 1 <= i < |worklist| && worklist[i] == x;
      assert depth[worklist[0]] <= depth[worklist[i]];
      assert x in worklist && elem in worklist;
    }
    assert elem in worklist;
    WorklistGoesOn(depth, rest, depth[elem], added, depth');
    SortedGoesOn(depth, elem, sorted, depth');
    assert worklist == [elem] + rest;
  }

  ghost predicate DeeperBy(depth: map<Package, nat>, elem: Package, added: seq<Package>, depth': map<Package, nat>) {
    && elem in depth
    && (forall x | x in depth :: x in depth' && depth'[x] == depth[x])
    && (forall x | x in added :: x !in depth && x in depth' && depth'[x] == depth[elem] + 1)
    && (forall x | x in depth' :: x in depth || x in added)
  }

  lemma DependentsAreLess(
    outgoing: Graph<Package>, packages: seq<Package>, depth: map<Package, nat>, depth': map<Package, nat>,
    elem: Package, sorted: seq<Package>, added: seq<Package>, x: Package, p: Package)
    requires DepthSoFar(outgoing, packages, depth, sorted) && DeeperBy(depth, elem, added, depth')
    requires forall y | y in sorted :: y in depth && depth[y] <= depth[elem]
    requires x in depth' && p in packages && x in Get(outgoing, p)
    requires x in added ==> p == elem || p in sorted
    ensures (p == elem || p in sorted) && p in depth' && depth'[p] < depth'[x]
  {
    hide Get;
  }

  lemma DependentIsThere(
    outgoing: Graph<Package>, packages: seq<Package>, depth: map<Package, nat>, depth': map<Package, nat>,
    elem: Package, sorted: seq<Package>, added: seq<Package>, x: Package)
    requires DepthSoFar(outgoing, packages, depth, sorted) && DeeperBy(depth, elem, added, depth')
    requires x in depth' && depth'[x] > 0
    requires x in added ==> elem in packages && x in Get(outgoing, elem)
    ensures HasDependentAt(outgoing, packages, depth', x)
  {
    hide Get;
    if x in depth {
      assert HasDependentAt(outgoing, packages, depth, x);
      var p :| p in packages && x in Get(outgoing, p) && p in depth && depth[p] + 1 == depth[x];
      assert depth'[p] + 1 == depth'[x];
    } else {
      assert depth'[elem] + 1 == depth'[x];
    }
  }

  lemma IsDepthSoFar(
    outgoing: Graph<Package>, packages: seq<Package>, depth: map<Package, nat>, sorted: seq<Package>)
    requires forall x, p | x in depth && p in packages && x in Get(outgoing, p) ::
      p in sorted && p in depth && depth[p] < depth[x]
    requires forall x | x in depth && depth[x] > 0 :: HasDependentAt(outgoing, packages, depth, x)
    ensures DepthSoFar(outgoing, packages, depth, sorted)
  {
    hide Get, HasDependentAt;
  }

  lemma DeeperStill(
    outgoing: Graph<Package>, packages: seq<Package>, depth: map<Package, nat>, depth': map<Package, nat>,
    elem: Package, sorted: seq<Package>, added: seq<Package>)
    requires DepthSoFar(outgoing, packages, depth, sorted) && DeeperBy(depth, elem, added, depth')
    requires forall y | y in sorted :: y in depth && depth[y] <= depth[elem]
    requires forall x | x in added :: elem in packages && x in Get(outgoing, elem)
    requires forall x, p | x in added && p in packages && x in Get(outgoing, p) :: p == elem || p in sorted
    ensures DepthSoFar(outgoing, packages, depth', [elem] + sorted)
  {
    hide DepthSoFar, HasDependentAt, Get;
    forall x, p | x in depth' && p in packages && x in Get(outgoing, p)
      ensures p in [elem] + sorted && p in depth' && depth'[p] < depth'[x]
    {
      DependentsAreLess(outgoing, packages, depth, depth', elem, sorted, added, x, p);
    }
    forall x | x in depth' && depth'[x] > 0 ensures HasDependentAt(outgoing, packages, depth', x) {
      DependentIsThere(outgoing, packages, depth, depth', elem, sorted, added, x);
    }
    IsDepthSoFar(outgoing, packages, depth', [elem] + sorted);
  }

  lemma DepthGoesOn(
    outgoing: Graph<Package>, packages: seq<Package>, depth: map<Package, nat>, worklist: seq<Package>,
    sorted: seq<Package>, added: seq<Package>)
    requires Levels(depth, worklist, sorted) && worklist != [] && DepthSoFar(outgoing, packages, depth, sorted)
    requires outgoing.Keys <= ToSet(packages)
    requires forall x | x in added :: x !in depth && x in Get(outgoing, worklist[0])
    requires forall x, p | x in added && p in packages && x in Get(outgoing, p) :: p in [worklist[0]] + sorted
    ensures worklist[0] in depth
    ensures DepthSoFar(outgoing, packages, Deeper(depth, worklist[0], added), [worklist[0]] + sorted)
  {
    hide Deeper, DepthSoFar;
    var elem := worklist[0];
    assert elem in worklist && elem in depth;
    SortedGoesOn(depth, elem, sorted, depth);
    assert added != [] ==> added[0] in added && elem in packages;
    hide Get;
    DeeperStill(outgoing, packages, depth, Deeper(depth, elem, added), elem, sorted, added);
  }

  lemma DepthOfAll(
    g: Graph<Package>, outgoing: Graph<Package>, packages: seq<Package>, depth: map<Package, nat>, sorted: seq<Package>)
    requires SameEdges(g, outgoing, packages) && ToSet(sorted) == Nodes(g)
    requires DepthSoFar(outgoing, packages, depth, sorted) && Levels(depth, [], sorted)
    ensures IsDepth(g, depth) && depth.Keys == Nodes(g)
  {
    forall p, q | Edge(g, p, q) ensures p in depth && q in depth && depth[p] < depth[q] {
      TargetIsNode(g, p, q);
      assert q in sorted && q in Get(outgoing, p);
    }
    forall q | q in depth && depth[q] > 0 ensures HasPredecessorAt(g, depth, q) {
      assert HasDependentAt(outgoing, packages, depth, q);
      var p :| p in packages && q in Get(outgoing, p) && p in depth && depth[p] + 1 == depth[q];
      assert Edge(g, p, q);
    }
    forall x | x in Nodes(g) ensures x in depth {
      assert x in sorted;
    }
  }

  lemma EdgeSpent(
    incoming: Graph<Package>, left: Graph<Package>, worklist: seq<Package>, sorted: seq<Package>,
    p: Package, list: seq<Package>)
    requires Progress(incoming, left, worklist, sorted)
    requires p in left && left[p] != []
    requires multiset(list) == multiset(incoming[left[p][0]]) - multiset{p}
    ensures
      var d := left[p][0];
      p in incoming[d] &&
      Progress(incoming[d := list], left[p := left[p][1..]], if list == [] then worklist + [d] else worklist, sorted)
  {
    EdgeRemoved(incoming, left, p, list);
    assert incoming[left[p][0]] != [];
  }

  /** Takes the edges of a package that was sorted just now out of the incoming edges,
      and adds the packages that have none left to the worklist. */
  method SpendEdges(
    incoming0: Graph<Package>, outgoing: Graph<Package>, ghost left0: Graph<Package>, ghost packages: seq<Package>,
    worklist0: seq<Package>, ghost sorted: seq<Package>, elem: Package)
    returns (incoming: Graph<Package>, worklist: seq<Package>, ghost left: Graph<Package>)
    requires Progress(incoming0, left0, worklist0, [elem] + sorted)
    requires Spending(outgoing, left0, packages, sorted, elem, 0)
    requires outgoing.Keys <= ToSet(packages)
    ensures incoming.Keys == incoming0.Keys
    ensures Progress(incoming, left, worklist, [elem] + sorted)
    ensures Spending(outgoing, left, packages, sorted, elem, |Get(outgoing, elem)|)
    ensures worklist0 <= worklist && forall x | x in worklist[|worklist0|..] :: x in Get(outgoing, elem)
  {
    hide Progress, Spending, Balanced;
    incoming, worklist, left := incoming0, worklist0, left0;
    var targets := Get(outgoing, elem);
    for k := 0 to |targets|
      invariant incoming.Keys == incoming0.Keys
      invariant Progress(incoming, left, worklist, [elem] + sorted)
      invariant Spending(outgoing, left, packages, sorted, elem, k)
      invariant worklist0 <= worklist && forall x | x in worklist[|worklist0|..] :: x in targets
    {
      SpendingOn(outgoing, left, packages, sorted, elem, k);
      EdgeFound(incoming, left, worklist, [elem] + sorted, elem);
      var list := RemoveFromList(incoming[targets[k]], elem);
      EdgeSpent(incoming, left, worklist, [elem] + sorted, elem, list);
      incoming := incoming[targets[k] := list];
      left := left[elem := left[elem][1..]];
      if |list| == 0 {
        worklist := worklist + [targets[k]];
      }
    }
  }

  // ----- The result -----

  /** No worklist and no edges left: the order has every node, and it is a right one. */
  lemma AllSorted(
    incoming: Graph<Package>, outgoing: Graph<Package>, left: Graph<Package>, packages: seq<Package>,
    sorted: seq<Package>, g: Graph<Package>)
    requires Progress(incoming, left, [], sorted) && DependentsAfter(outgoing, packages, sorted)
    requires incoming.Keys == Nodes(g) && forall x | x in incoming :: incoming[x] == []
    requires SameEdges(g, outgoing, packages)
    ensures Distinct(sorted) && ToSet(sorted) == Nodes(g) && SuccessorsFirst(g, sorted) && !Cyclic(g)
  {
    forall i, q | 0 <= i < |sorted| && sorted[i] in g && q in g[sorted[i]] ensures q in sorted[..i] {
      TargetIsNode(g, sorted[i], q);
      assert q in sorted;
      var j :| 0 <= j < |sorted| && sorted[j] == q;
      assert sorted[i] in sorted[j + 1..];
    }
    OrderedIsAcyclic(g, sorted);
  }

  /** No worklist but edges left: each package that still has dependents has one that does, too. */
  lemma SomeUnsorted(
    incoming: Graph<Package>, outgoing: Graph<Package>, left: Graph<Package>, packages: seq<Package>,
    sorted: seq<Package>, g: Graph<Package>, x: Package)
    requires Progress(incoming, left, [], sorted) && Spent(outgoing, left, packages, sorted)
    requires x in incoming && incoming[x] != []
    requires incoming.Keys == Nodes(g) && SameEdges(g, outgoing, packages)
    ensures Cyclic(g)
  {
    var unsorted := set y | y in incoming && incoming[y] != [];
    forall q | q in unsorted ensures HasPredecessor(g, unsorted, q) {
      var p := incoming[q][0];
      assert p in incoming[q] && p in left;
      assert multiset(incoming[q])[p] > 0;
      assert q in left[p];
      assert p !in sorted;
      assert Edge(g, p, q) && p in unsorted;
    }
    BackwardsForever(g, unsorted, x, {});
  }

  /** Edges that are left over belong to cycles. */
  method Verdict(
    incoming: Graph<Package>, ghost outgoing: Graph<Package>, ghost left: Graph<Package>,
    ghost packages: seq<Package>, sorted: seq<Package>, ghost g: Graph<Package>)
    returns (r: Option<seq<Package>>)
    requires incoming.Keys == Nodes(g) && SameEdges(g, outgoing, packages)
    requires Progress(incoming, left, [], sorted) && Spent(outgoing, left, packages, sorted)
    requires DependentsAfter(outgoing, packages, sorted)
    ensures r.None? <==> Cyclic(g)
    ensures r.Some? ==>
      r.value == sorted && Distinct(sorted) && ToSet(sorted) == Nodes(g) && SuccessorsFirst(g, sorted)
  {
    hide *;
    var unsorted := AnyWithEdges(incoming);
    if unsorted.Some? {
      SomeUnsorted(incoming, outgoing, left, packages, sorted, g, unsorted.value);
      return None;
    }
    AllSorted(incoming, outgoing, left, packages, sorted, g);
    return Some(sorted);
  }

  lemma NotInPrefix(all: seq<Package>, prefix: seq<Package>, i: nat)
    requires Distinct(all) && prefix <= all && |prefix| <= i < |all|
    ensures all[i] !in prefix
  {}

  lemma NewOnes(
    incoming: Graph<Package>, outgoing: Graph<Package>, left: Graph<Package>, packages: seq<Package>,
    depth: map<Package, nat>, worklist: seq<Package>, sorted: seq<Package>, all: seq<Package>)
    requires Levels(depth, worklist, sorted) && worklist != []
    requires worklist[1..] <= all
    requires Progress(incoming, left, all, [worklist[0]] + sorted)
    requires Spent(outgoing, left, packages, [worklist[0]] + sorted)
    ensures
      var added := all[|worklist| - 1..];
      && all == worklist[1..] + added
      && (forall x | x in added :: x !in depth)
      && (forall x, p | x in added && p in packages && x in Get(outgoing, p) :: p in [worklist[0]] + sorted)
  {
    hide Balanced, Spent;
    var added, next := all[|worklist| - 1..], [worklist[0]] + sorted;
    forall x | x in added ensures x !in depth {
      var i :| |worklist| - 1 <= i < |all| && all[i] == x;
      assert x in all && x !in next;
      NotInPrefix(all, worklist[1..], i);
      assert worklist[0] in next && forall y | y in sorted :: y in next;
      assert forall y | y in worklist :: y == worklist[0] || y in worklist[1..];
    }
    forall x, p | x in added && p in packages && x in Get(outgoing, p) ensures p in next {
      assert x in all;
      DependentSorted(incoming, outgoing, left, packages, next, x, p);
    }
  }

  /** Fails exactly when the edges that leave the packages have a cycle. Otherwise the
      result has the packages and their direct dependencies, each once, and each package
      after all of its dependencies; and since the worklist is first in, first out, the
      deepest ones come first, whatever the order of iteration. */
  method Sort(packages: seq<Package>) returns (r: Option<seq<Package>>, ghost depth: map<Package, nat>)
    ensures r.None? <==> Cyclic(EdgesOf(packages))
    ensures r.Some? ==>
      && Distinct(r.value)
      && ToSet(r.value) == Nodes(EdgesOf(packages))
      && SuccessorsFirst(EdgesOf(packages), r.value)
      && IsDepth(EdgesOf(packages), depth) && depth.Keys == Nodes(EdgesOf(packages))
      && DeepestFirst(r.value, depth)
  {
    hide *;
    ghost var g := EdgesOf(packages);
    var incoming, outgoing := GetEdgeMaps(packages);
    ghost var left := Outgoing(outgoing, packages);
    var sorted: seq<Package> := [];
    var worklist := NoDependents(incoming);
    Begun(incoming, outgoing, packages, worklist);
    depth := LevelsBegin(incoming, outgoing, packages, worklist);
    while |worklist| > 0
      invariant incoming.Keys == Nodes(g)
      invariant Progress(incoming, left, worklist, sorted)
      invariant Spent(outgoing, left, packages, sorted)
      invariant DependentsAfter(outgoing, packages, sorted)
      invariant Levels(depth, worklist, sorted) && DepthSoFar(outgoing, packages, depth, sorted)
      decreases |Nodes(g)| - |sorted|
    {
      ghost var worklist0 := worklist;
      var elem := worklist[0];
      Taken(incoming, left, worklist, sorted);
      SortedFits(incoming, left, worklist[1..], [elem] + sorted);
      DependentsAreAfter(incoming, outgoing, left, packages, worklist, sorted);
      SpendingBegins(outgoing, left, packages, sorted, elem);
      worklist := worklist[1..];
      ghost var before := sorted;
      sorted := [elem] + sorted;
      incoming, worklist, left := SpendEdges(incoming, outgoing, left, packages, worklist, before, elem);
      SpentOnAll(outgoing, left, packages, before, elem);
      NewOnes(incoming, outgoing, left, packages, depth, worklist0, before, worklist);
      ghost var added := worklist[|worklist0| - 1..];
      LevelsGoOn(depth, worklist0, before, added);
      DepthGoesOn(outgoing, packages, depth, worklist0, before, added);
      depth := Deeper(depth, elem, added);
    }
    assert worklist == [];
    r := Verdict(incoming, outgoing, left, packages, sorted, g);
    if r.Some? {
      DepthOfAll(g, outgoing, packages, depth, sorted);
      SortedIsDeepestFirst(depth, sorted);
    }
  }

  lemma SortedIsDeepestFirst(depth: map<Package, nat>, sorted: seq<Package>)
    requires Levels(depth, [], sorted)
    ensures DeepestFirst(sorted, depth)
  {}

  method AnyWithEdges(incoming: Graph<Package>) returns (r: Option<Package>)
    ensures r.Some? ==> r.value in incoming && incoming[r.value] != []
    ensures r.None? ==> forall x | x in incoming :: incoming[x] == []
  {
    var rest := incoming.Keys;
    while rest != {}
      invariant rest <= incoming.Keys
      invariant forall x | x in incoming && x !in rest :: incoming[x] == []
    {
      var x :| x in rest;
      if |incoming[x]| > 0 {
        return Some(x);
      }
      rest := rest - {x};
    }
    return None;
  }

  ghost predicate Undepended(incoming: Graph<Package>, r: seq<Package>) {
    && Distinct(r)
    && (forall x | x in r :: x in incoming && incoming[x] == [])
    && (forall x | x in incoming && incoming[x] == [] :: x in r)
  }

  /** The packages that nothing depends on, in any order. */
  method NoDependents(incoming: Graph<Package>) returns (r: seq<Package>)
    ensures Undepended(incoming, r)
  {
    r := [];
    var rest := incoming.Keys;
    while rest != {}
      invariant rest <= incoming.Keys
      invariant Distinct(r)
      invariant forall x :: x in r <==> x in incoming && x !in rest && incoming[x] == []
    {
      var p :| p in rest;
      if incoming[p] == [] {
        r := r + [p];
      }
      rest := rest - {p};
    }
  }
}

/** state/pkg/resolve_dependencies.go: everything a package needs, directly or through
    other packages, in graphs that may have cycles. */
module DependencyResolution {
  import opened Wrappers
  import opened Collections
  import opened Graphs
  import opened Packages

  /** The graph shows these packages and all that they lead to, as the objects are now. */
  ghost predicate Depicts(g: Graph<Package>)
    reads g.Keys
  {
    forall p | p in g :: p.dependencies == g[p] && forall d | d in g[p] :: d in g
  }

  method Contains(list: seq<Package>, element: Package) returns (r: bool)
    ensures r <==> element in list
  {
    for i := 0 to |list|
      invariant element !in list[..i]
    {
      if list[i] == element {
        return true;
      }
    }
    assert list[..|list|] == list;
    return false;
  }

  method JoinUnique(a: seq<Package>, b: seq<Package>) returns (joined: seq<Package>)
    ensures a <= joined
    ensures forall x :: x in joined <==> x in a || x in b
  {
    joined := a;
    for i := 0 to |b|
      invariant a <= joined
      invariant forall x :: x in joined <==> x in a || x in b[..i]
    {
      var known := Contains(a, b[i]);
      if !known {
        joined := joined + [b[i]];
      }
      assert b[..i + 1] == b[..i] + [b[i]];
    }
    assert b[..|b|] == b;
  }

  /** Swaps from the middle outwards. */
  method Reverse(a: array<Package>)
    modifies a
    ensures forall k | 0 <= k < a.Length :: a[k] == old(a[a.Length - 1 - k])
  {
    var i := a.Length / 2 - 1;
    while i >= 0
      invariant -1 <= i < a.Length
      invariant i <= a.Length / 2 - 1
      invariant forall k | 0 <= k <= i || a.Length - 1 - i <= k < a.Length :: a[k] == old(a[k])
      invariant forall k | i < k < a.Length - 1 - i :: a[k] == old(a[a.Length - 1 - k])
    {
      var opp := a.Length - 1 - i;
      a[i], a[opp] := a[opp], a[i];
      i := i - 1;
    }
  }

  lemma NotTwice(s: seq<Package>, j: nat, k: nat)
    requires Distinct(s) && j < k < |s|
    ensures s[j] != s[k]
  {}

  lemma OnePlace(s: seq<Package>, j: nat, k: nat)
    requires Distinct(s) && j < |s| && k < |s| && s[j] == s[k]
    ensures j == k
  {}

  lemma WithoutOne(s: seq<Package>, j: nat)
    requires Distinct(s) && j < |s|
    ensures Distinct(s[..j] + s[j + 1..])
    ensures s[j] !in s[..j] + s[j + 1..]
    ensures forall x | x != s[j] :: x in s[..j] + s[j + 1..] <==> x in s
  {
    assert s == s[..j] + [s[j]] + s[j + 1..];
  }

  /** Removes an element while ranging over the slice that it is removed from: the loop goes
      on over the old length, and what stands behind the new length is a leftover. That no
      index is ever out of range rests on the element occurring at most once. */
  method RemoveWhileRanging(a: array<Package>, p: Package) returns (n: nat)
    requires Distinct(a[..])
    modifies a
    ensures n <= a.Length
    ensures p !in a[..n]
    ensures forall x | x != p :: x in a[..n] <==> x in old(a[..])
    ensures Distinct(a[..n])
    ensures p !in old(a[..]) ==> a[..n] == old(a[..])
    ensures forall i | 0 <= i < a.Length && old(a[i]) == p :: a[..n] == old(a[..i]) + old(a[i + 1..])
  {
    hide Distinct;
    n := a.Length;
    ghost var s, at := a[..], 0;
    for i := 0 to a.Length
      invariant n == a.Length || n == a.Length - 1
      invariant n == a.Length ==> a[..] == s && p !in s[..i]
      invariant n < a.Length ==> 0 <= at < i && s[at] == p && a[..n] == s[..at] + s[at + 1..] && a[n] == s[n]
    {
      if a[i] == p {
        if n < a.Length {
          NotTwice(s, at, if i < n then i + 1 else i);
          assert false;
        }
        assert i + 1 <= n;
        forall k | i <= k < n - 1 {
          a[k] := a[k + 1];
        }
        n, at := n - 1, i;
        assert a[..n] == s[..i] + s[i + 1..];
      }
    }
    if n < a.Length {
      WithoutOne(s, at);
      forall i | 0 <= i < a.Length && s[i] == p ensures i == at {
        OnePlace(s, i, at);
      }
    } else {
      assert s[..a.Length] == s && a[..n] == s;
    }
  }

  /** The package at this position is one that p depends on, or one that a package in front
      of it depends on. */
  ghost predicate LedTo(g: Graph<Package>, p: Package, all: seq<Package>, i: nat)
    requires p in g && i < |all|
  {
    all[i] in g[p] || exists j :: 0 <= j < i && all[j] in g && all[i] in g[all[j]]
  }

  ghost predicate AllLedTo(g: Graph<Package>, p: Package, all: seq<Package>)
    requires p in g
  {
    forall i | 0 <= i < |all| :: LedTo(g, p, all, i)
  }

  /** The first of these that is not to be skipped. */
  ghost function FirstNew(ps: seq<Package>, skip: seq<Package>): Option<Package> {
    if ps == [] then None else if ps[0] !in skip then Some(ps[0]) else FirstNew(ps[1..], skip)
  }

  lemma {:induction false} FirstNewAt(ps: seq<Package>, skip: seq<Package>, i: nat)
    requires i < |ps| && ps[i] !in skip && forall x | x in ps[..i] :: x in skip
    ensures FirstNew(ps, skip) == Some(ps[i])
  {
    if i > 0 {
      assert ps[0] in ps[..i];
      forall x | x in ps[1..][..i - 1] ensures x in skip {
        assert x in ps[..i];
      }
      FirstNewAt(ps[1..], skip, i - 1);
    }
  }

  lemma {:induction false} NoneNew(ps: seq<Package>, skip: seq<Package>)
    ensures FirstNew(ps, skip).None? <==> forall x | x in ps :: x in skip
  {
    if ps != [] {
      NoneNew(ps[1..], skip);
    }
  }

  lemma {:induction false} SameSkipped(ps: seq<Package>, skip: seq<Package>, other: seq<Package>)
    requires forall x :: x in skip <==> x in other
    ensures FirstNew(ps, skip) == FirstNew(ps, other)
  {
    if ps != [] {
      SameSkipped(ps[1..], skip, other);
    }
  }

  lemma StillLedTo(
    g: Graph<Package>, p: Package, all: seq<Package>, d: Package, deps: seq<Package>)
    requires p in g && d in g[p] && d in g && AllLedTo(g, p, all) && AllLedTo(g, d, deps)
    ensures AllLedTo(g, p, all + [d] + deps)
  {
    var next := all + [d] + deps;
    forall i | 0 <= i < |next| ensures LedTo(g, p, next, i) {
      if i < |all| {
        assert next[i] == all[i] && LedTo(g, p, all, i);
        assert forall j | 0 <= j < i :: next[j] == all[j];
      } else if i > |all| {
        var k := i - |all| - 1;
        assert next[i] == deps[k] && LedTo(g, d, deps, k);
        assert next[|all|] == d;
        assert forall j | 0 <= j < k :: next[|all| + 1 + j] == deps[j];
      }
    }
  }

  /** Without the package itself the others are still led to: what it leads to, it leads to. */
  lemma LedToWithout(g: Graph<Package>, p: Package, all: seq<Package>, at: nat)
    requires p in g && AllLedTo(g, p, all) && at < |all| && all[at] == p
    ensures AllLedTo(g, p, all[..at] + all[at + 1..])
  {
    var rest := all[..at] + all[at + 1..];
    forall i | 0 <= i < |rest| ensures LedTo(g, p, rest, i) {
      var k := if i < at then i else i + 1;
      assert rest[i] == all[k] && LedTo(g, p, all, k);
      if all[k] !in g[p] {
        var j :| 0 <= j < k && all[j] in g && all[k] in g[all[j]];
        assert j != at;
        assert rest[if j < at then j else j - 1] == all[j];
      }
    }
  }

  /** Where the walk from a package stands after its first i dependencies: all is new, and
      whatever it leads to directly is in it or is not to be followed. */
  ghost predicate Walked(
    g: Graph<Package>, p: Package, noFollow: seq<Package>, i: nat, all: seq<Package>)
  {
    && p in g && i <= |g[p]|
    && Distinct(all)
    && (forall x | x in all :: x in g && x !in noFollow && Reaches(g, p, x))
    && (forall x | x in g[p][..i] :: x in all || x in noFollow)
    && (forall x | x in all :: x in g && forall y | y in g[x] :: y in all || y in noFollow)
  }

  /** The result of a walk: as above for all dependencies, and without the package itself. */
  ghost predicate Resolved(g: Graph<Package>, p: Package, noFollow: seq<Package>, all: seq<Package>) {
    && p in g && p !in all
    && Distinct(all)
    && (forall x | x in all :: x in g && x !in noFollow && Reaches(g, p, x))
    && (forall x | x in g[p] :: x in all || x in noFollow || x == p)
    && (forall x | x in all :: x in g && forall y | y in g[x] :: y in all || y in noFollow || y == p)
  }

  /** The order of a result: each package after one that needs it, beginning with the first
      dependency that is new. */
  ghost predicate Ordered(g: Graph<Package>, p: Package, noFollow: seq<Package>, all: seq<Package>) {
    && p in g && AllLedTo(g, p, all)
    && (all != [] ==> FirstNew(g[p], noFollow + [p]) == Some(all[0]))
  }

  /** The order on the way there, when the package itself may still be among the others. */
  ghost predicate OrderedSoFar(g: Graph<Package>, p: Package, noFollow: seq<Package>, i: nat, all: seq<Package>) {
    && p in g && i <= |g[p]| && AllLedTo(g, p, all)
    && (all == [] ==> forall x | x in g[p][..i] :: x in noFollow)
    && (all != [] && all[0] != p ==> FirstNew(g[p], noFollow + [p]) == Some(all[0]))
    && (|all| > 1 && all[0] == p ==> FirstNew(g[p], noFollow + [p]) == Some(all[1]))
    && (all == [p] ==> FirstNew(g[p], noFollow + [p]) == None)
  }

  lemma KnownInOrder(g: Graph<Package>, p: Package, noFollow: seq<Package>, i: nat, all: seq<Package>)
    requires OrderedSoFar(g, p, noFollow, i, all) && i < |g[p]| && (g[p][i] in all || g[p][i] in noFollow)
    ensures OrderedSoFar(g, p, noFollow, i + 1, all)
  {
    hide AllLedTo, FirstNew;
    assert g[p][..i + 1] == g[p][..i] + [g[p][i]];
  }

  /** The walk goes on from the first dependency that is new. If that is the package itself,
      then what is walked from there begins with the next one. */
  lemma FirstInOrder(
    g: Graph<Package>, p: Package, noFollow: seq<Package>, i: nat, inner: seq<Package>, deps: seq<Package>)
    requires OrderedSoFar(g, p, noFollow, i, []) && i < |g[p]| && g[p][i] !in noFollow
    requires forall x :: x in inner <==> x == g[p][i] || x in noFollow
    requires Resolved(g, g[p][i], inner, deps) && Ordered(g, g[p][i], inner, deps)
    ensures
      if g[p][i] != p then FirstNew(g[p], noFollow + [p]) == Some(g[p][i])
      else FirstNew(g[p], noFollow + [p]) == if deps == [] then None else Some(deps[0])
  {
    hide FirstNew, AllLedTo;
    var d, skip := g[p][i], noFollow + [p];
    if d != p {
      FirstNewAt(g[p], skip, i);
    } else {
      SameSkipped(g[p], skip, inner + [p]);
      NoneNew(g[p], skip);
    }
  }

  lemma NewInOrder(
    g: Graph<Package>, p: Package, noFollow: seq<Package>, i: nat, all: seq<Package>,
    inner: seq<Package>, deps: seq<Package>)
    requires OrderedSoFar(g, p, noFollow, i, all) && i < |g[p]| && g[p][i] in g
    requires g[p][i] !in all && g[p][i] !in noFollow
    requires forall x :: x in inner <==> x in all + [g[p][i]] || x in noFollow
    requires Resolved(g, g[p][i], inner, deps) && Ordered(g, g[p][i], inner, deps)
    ensures OrderedSoFar(g, p, noFollow, i + 1, all + [g[p][i]] + deps)
  {
    StillLedTo(g, p, all, g[p][i], deps);
    if all == [] {
      FirstInOrder(g, p, noFollow, i, inner, deps);
      assert all + [g[p][i]] + deps == [g[p][i]] + deps;
      BegunInOrder(g, p, noFollow, i, deps);
    } else {
      assert all + [g[p][i]] + deps == all + ([g[p][i]] + deps);
      OthersInOrder(g, p, noFollow, i, all, [g[p][i]] + deps);
    }
  }

  lemma BegunInOrder(g: Graph<Package>, p: Package, noFollow: seq<Package>, i: nat, deps: seq<Package>)
    requires p in g && i < |g[p]| && AllLedTo(g, p, [g[p][i]] + deps)
    requires
      if g[p][i] != p then FirstNew(g[p], noFollow + [p]) == Some(g[p][i])
      else FirstNew(g[p], noFollow + [p]) == if deps == [] then None else Some(deps[0])
    ensures OrderedSoFar(g, p, noFollow, i + 1, [g[p][i]] + deps)
  {
    hide AllLedTo, FirstNew;
    var next := [g[p][i]] + deps;
    assert next[0] == g[p][i];
    if deps == [] {
      assert next == [g[p][i]] && |next| == 1;
    } else {
      assert |next| > 1 && next[1] == deps[0] && next != [p];
    }
  }

  /** Once the walk has begun, what comes later does not change the beginning. */
  lemma OthersInOrder(
    g: Graph<Package>, p: Package, noFollow: seq<Package>, i: nat, all: seq<Package>, more: seq<Package>)
    requires OrderedSoFar(g, p, noFollow, i, all) && i < |g[p]| && all != [] && more != []
    requires g[p][i] !in all && g[p][i] !in noFollow && AllLedTo(g, p, all + more)
    ensures OrderedSoFar(g, p, noFollow, i + 1, all + more)
  {
    hide AllLedTo, FirstNew;
    assert all != [p] by {
      NoneNew(g[p], noFollow + [p]);
      assert g[p][i] in g[p];
    }
    var next := all + more;
    assert next[0] == all[0] && |next| > 1 && (|all| > 1 ==> next[1] == all[1]);
  }

  lemma SelfRemovedInOrder(g: Graph<Package>, p: Package, noFollow: seq<Package>, all: seq<Package>, rest: seq<Package>)
    requires p in g && OrderedSoFar(g, p, noFollow, |g[p]|, all) && Distinct(all)
    requires p !in all ==> rest == all
    requires forall i | 0 <= i < |all| && all[i] == p :: rest == all[..i] + all[i + 1..]
    ensures Ordered(g, p, noFollow, rest)
  {
    hide FirstNew, AllLedTo;
    if p in all {
      var at :| 0 <= at < |all| && all[at] == p;
      LedToWithout(g, p, all, at);
    }
  }

  lemma NothingWalked(g: Graph<Package>, p: Package, noFollow: seq<Package>)
    requires p in g
    ensures Walked(g, p, noFollow, 0, []) && OrderedSoFar(g, p, noFollow, 0, [])
  {}

  lemma KnownDependency(g: Graph<Package>, p: Package, noFollow: seq<Package>, i: nat, all: seq<Package>)
    requires Walked(g, p, noFollow, i, all) && i < |g[p]|
    requires g[p][i] in all || g[p][i] in noFollow
    ensures Walked(g, p, noFollow, i + 1, all)
  {
    assert g[p][..i + 1] == g[p][..i] + [g[p][i]];
  }

  lemma NewDependency(
    g: Graph<Package>, p: Package, noFollow: seq<Package>, i: nat, all: seq<Package>,
    inner: seq<Package>, deps: seq<Package>)
    requires Walked(g, p, noFollow, i, all) && i < |g[p]| && g[p][i] in g
    requires g[p][i] !in all && g[p][i] !in noFollow
    requires forall x :: x in inner <==> x in all + [g[p][i]] || x in noFollow
    requires Resolved(g, g[p][i], inner, deps)
    ensures Walked(g, p, noFollow, i + 1, all + [g[p][i]] + deps)
  {
    var d := g[p][i];
    var next := all + [d] + deps;
    assert g[p][..i + 1] == g[p][..i] + [d];
    EdgeReaches(g, p, d);
    forall x | x in next ensures x in g && x !in noFollow && Reaches(g, p, x) {
      if x in deps {
        ReachesTransitive(g, p, d, x);
      }
    }
    hide Reaches;
    forall m, n | 0 <= m < n < |next| ensures next[m] != next[n] {
      assert m < |all| ==> next[m] == all[m] && next[m] in inner;
      assert n > |all| ==> next[n] == deps[n - |all| - 1] && next[n] in deps;
      assert m > |all| ==> next[m] == deps[m - |all| - 1];
    }
    forall x | x in next ensures forall y | y in g[x] :: y in next || y in noFollow {
    }
    forall x | x in g[p][..i + 1] ensures x in next || x in noFollow {}
  }

  lemma SelfRemoved(g: Graph<Package>, p: Package, noFollow: seq<Package>, all: seq<Package>, rest: seq<Package>)
    requires p in g && Walked(g, p, noFollow, |g[p]|, all) && Distinct(rest) && p !in rest
    requires forall x | x != p :: x in rest <==> x in all
    ensures Resolved(g, p, noFollow, rest)
  {
    hide Reaches;
    assert g[p][..|g[p]|] == g[p];
  }

  lemma MoreNotFollowed(nodes: set<Package>, noFollow: seq<Package>, inner: seq<Package>, d: Package)
    requires d in nodes && d !in noFollow && d in inner && (forall x | x in noFollow :: x in inner)
    ensures |nodes - ToSet(inner)| < |nodes - ToSet(noFollow)|
  {
    var a, b := nodes - ToSet(inner), nodes - ToSet(noFollow);
    assert d in b && d !in a && a <= b - {d};
    assert b - {d} == a + (b - {d} - a);
  }

  /** The walk. Of the packages that must not be followed the package itself is one, but
      at the outermost call, where there are none. */
  method ResolveInner(p: Package, noFollow: seq<Package>, ghost g: Graph<Package>) returns (all: seq<Package>)
    requires Depicts(g) && p in g
    ensures Resolved(g, p, noFollow, all) && Ordered(g, p, noFollow, all)
    decreases |g.Keys - ToSet(noFollow)|
  {
    hide Walked, Resolved, Distinct, Ordered, OrderedSoFar;
    all := [];
    NothingWalked(g, p, noFollow);
    for i := 0 to |p.dependencies|
      invariant Depicts(g)
      invariant Walked(g, p, noFollow, i, all) && OrderedSoFar(g, p, noFollow, i, all)
    {
      var dep := p.dependencies[i];
      assert dep in g[p];
      var inAll := Contains(all, dep);
      var inNoFollow := Contains(noFollow, dep);
      if !inAll && !inNoFollow {
        ghost var before := all;
        all := all + [dep];
        var inner := JoinUnique(all, noFollow);
        MoreNotFollowed(g.Keys, noFollow, inner, dep);
        var deps := ResolveInner(dep, inner, g);
        NewDependency(g, p, noFollow, i, before, inner, deps);
        NewInOrder(g, p, noFollow, i, before, inner, deps);
        all := all + deps;
      } else {
        KnownDependency(g, p, noFollow, i, all);
        KnownInOrder(g, p, noFollow, i, all);
      }
    }
    WalkedIsDistinct(g, p, noFollow, |p.dependencies|, all);
    var a := new Package[|all|](k requires 0 <= k < |all| => all[k]);
    assert a[..] == all;
    var n := RemoveWhileRanging(a, p);
    SelfRemoved(g, p, noFollow, all, a[..n]);
    SelfRemovedInOrder(g, p, noFollow, all, a[..n]);
    all := a[..n];
  }

  lemma WalkedIsDistinct(g: Graph<Package>, p: Package, noFollow: seq<Package>, i: nat, all: seq<Package>)
    requires Walked(g, p, noFollow, i, all)
    ensures Distinct(all)
  {}

  /** Everything else that the package reaches in one or more steps, each package once and
      in front of one that needs it, up to the first dependency of the package, which is the
      last one. */
  method ResolveDependencies(p: Package, ghost g: Graph<Package>) returns (r: seq<Package>)
    requires Depicts(g) && p in g
    ensures Distinct(r)
    ensures forall q | q in g :: q in r <==> Reaches(g, p, q) && q != p
    ensures forall q | q in r :: q in g
    ensures forall i | 0 <= i < |r| :: r[i] in g[p] || exists j :: i < j < |r| && r[i] in g[r[j]]
    ensures r != [] ==> FirstNew(g[p], [p]) == Some(r[|r| - 1])
  {
    hide Resolved, Ordered, FirstNew;
    var all := ResolveInner(p, [], g);
    AllReached(g, p, all);
    OrderedMeans(g, p, all);
    var a := new Package[|all|](k requires 0 <= k < |all| => all[k]);
    assert a[..] == all;
    Reverse(a);
    r := a[..];
    assert forall k | 0 <= k < |r| :: r[k] == all[|all| - 1 - k];
    assert forall k | 0 <= k < |all| :: all[k] == r[|r| - 1 - k];
    Reversed(g, p, all, r);
  }

  lemma OrderedMeans(g: Graph<Package>, p: Package, all: seq<Package>)
    requires Ordered(g, p, [], all)
    ensures p in g && AllLedTo(g, p, all) && (all != [] ==> FirstNew(g[p], [p]) == Some(all[0]))
  {
    assert [] + [p] == [p];
  }

  lemma Reversed(g: Graph<Package>, p: Package, all: seq<Package>, r: seq<Package>)
    requires p in g && AllLedTo(g, p, all) && forall x | x in all :: x in g
    requires |r| == |all| && forall k | 0 <= k < |r| :: r[k] == all[|all| - 1 - k]
    ensures forall i | 0 <= i < |r| :: r[i] in g && (r[i] in g[p] || exists j :: i < j < |r| && r[j] in g && r[i] in g[r[j]])
  {
    forall i | 0 <= i < |r| ensures r[i] in g && (r[i] in g[p] || exists j :: i < j < |r| && r[j] in g && r[i] in g[r[j]]) {
      var k := |all| - 1 - i;
      assert LedTo(g, p, all, k) && all[k] == r[i];
      if all[k] !in g[p] {
        var j :| 0 <= j < k && all[j] in g && all[k] in g[all[j]];
        assert r[|all| - 1 - j] == all[j];
      }
    }
  }

  lemma AllReached(g: Graph<Package>, p: Package, all: seq<Package>)
    requires Resolved(g, p, [], all)
    ensures Distinct(all) && forall q | q in all :: q in g
    ensures forall q | q in g :: q in all <==> Reaches(g, p, q) && q != p
  {
    var s := ToSet(all) + {p};
    assert ClosedUnder(g, s);
    forall q | q in g && Reaches(g, p, q) ensures q in s {
      ReachedIsInClosed(g, s, p, q);
    }
  }
}

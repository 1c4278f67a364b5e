/** state/job/dependency_compiler.go: the packages that the jobs of a deployment need. */
module JobDependencies {
  import opened Wrappers
  import opened Collections
  import opened Graphs
  import opened Packages
  import opened DependencyResolution
  import opened CompiledPackages
  import opened CompileOrders
  import opened DependencyCompilers
  import opened Services
  import PackageSort

  type PackageMap = map<string, Package>

  ghost function Names(ps: seq<Package>): set<string> {
    set p | p in ps :: p.name
  }

  /** For each name that is not in the map, the first of these packages that has it was added. */
  ghost predicate Added(m: PackageMap, r: PackageMap, ps: seq<Package>) {
    && r.Keys == m.Keys + Names(ps)
    && (forall n | n in m :: r[n] == m[n])
    && (forall n | n in r && n !in m ::
          exists i :: 0 <= i < |ps| && ps[i] == r[n] && ps[i].name == n && forall k | 0 <= k < i :: ps[k].name != n)
  }

  lemma NothingToAdd(m: PackageMap, ps: seq<Package>)
    requires forall i | 0 <= i < |ps| :: ps[i].name in m
    ensures Added(m, m, ps)
  {}

  lemma FirstAdded(m: PackageMap, r: PackageMap, ps: seq<Package>, i: nat)
    requires i < |ps| && ps[i].name !in m && forall k | 0 <= k < i :: ps[k].name in m
    requires Added(m[ps[i].name := ps[i]], r, ps)
    ensures Added(m, r, ps)
  {
    assert ps[i] in ps;
    assert ps[i].name in Names(ps);
    forall n | n in r && n !in m
      ensures exists j :: 0 <= j < |ps| && ps[j] == r[n] && ps[j].name == n && forall k | 0 <= k < j :: ps[k].name != n
    {
      if n == ps[i].name {
        assert ps[i] == r[n];
      }
    }
  }

  lemma AddedHasAll(m: PackageMap, r: PackageMap, ps: seq<Package>)
    requires Added(m, r, ps)
    ensures forall i | 0 <= i < |ps| :: ps[i].name in r
  {
    forall i | 0 <= i < |ps| ensures ps[i].name in r {
      assert ps[i] in ps;
    }
  }

  /** How many names of these packages are not in the map. */
  ghost function Unnamed(ps: seq<Package>, m: PackageMap): nat {
    |Names(ps) - m.Keys|
  }

  lemma FewerNames(ps: seq<Package>, m: PackageMap, p: Package)
    requires p in ps && p.name !in m
    ensures Unnamed(ps, m[p.name := p]) < Unnamed(ps, m)
  {
    var a, b := Names(ps) - m[p.name := p].Keys, Names(ps) - m.Keys;
    assert p.name in b && a == b - {p.name};
  }

  /** The recursive call goes into the same package again, not into the dependency. What
      is added are therefore the direct dependencies, and nothing else. */
  method ResolvePackageDependencies(p: Package, m: PackageMap) returns (r: PackageMap)
    ensures Added(m, r, p.dependencies)
    decreases Unnamed(p.dependencies, m)
  {
    hide Added, Names, Unnamed;
    r := m;
    ghost var done := false;
    for i := 0 to |p.dependencies|
      invariant !done ==> r == m && forall k | 0 <= k < i :: p.dependencies[k].name in m
      invariant done ==> Added(m, r, p.dependencies)
    {
      var dependency := p.dependencies[i];
      if done {
        AddedHasAll(m, r, p.dependencies);
      }
      if dependency.name !in r {
        assert !done;
        r := r[dependency.name := dependency];
        FewerNames(p.dependencies, m, dependency);
        r := ResolvePackageDependencies(p, r);
        FirstAdded(m, r, p.dependencies, i);
        done := true;
      }
    }
    if !done {
      NothingToAdd(m, p.dependencies);
    }
  }

  // ----- The packages of all jobs -----

  ghost predicate NamesIdentify(g: Graph<Package>) {
    forall p, q | p in g && q in g && p.name == q.name :: p == q
  }

  ghost function Values(m: PackageMap): set<Package> {
    set n | n in m :: m[n]
  }

  /** All packages of all jobs, one after the other. */
  ghost function Flat(jobs: seq<seq<Package>>): seq<Package> {
    if jobs == [] then [] else Flat(jobs[..|jobs| - 1]) + jobs[|jobs| - 1]
  }

  ghost function PackagesOf(jobs: seq<seq<Package>>): set<Package> {
    ToSet(Flat(jobs))
  }

  /** The dependencies of all these packages, one after the other. */
  ghost function DirectDependencies(g: Graph<Package>, ps: seq<Package>): seq<Package> {
    if ps == [] then []
    else
      var n := |ps| - 1;
      DirectDependencies(g, ps[..n]) + if ps[n] in g then g[ps[n]] else []
  }

  ghost predicate LastNamed(ps: seq<Package>, p: Package) {
    exists i :: 0 <= i < |ps| && ps[i] == p && forall k | i < k < |ps| :: ps[k].name != p.name
  }

  ghost predicate FirstNamed(ps: seq<Package>, p: Package) {
    exists i :: 0 <= i < |ps| && ps[i] == p && forall k | 0 <= k < i :: ps[k].name != p.name
  }

  /** Which packages are collected when several have the same name, as packages of different
      releases may: the last of the job packages that has it or, if none has, the first of
      their dependencies. */
  ghost predicate Chosen(g: Graph<Package>, ps: seq<Package>, m: PackageMap) {
    && m.Keys == Names(ps) + Names(DirectDependencies(g, ps))
    && forall n | n in m ::
         m[n].name == n && if n in Names(ps) then LastNamed(ps, m[n]) else FirstNamed(DirectDependencies(g, ps), m[n])
  }

  lemma NamedAfterOneMore(g: Graph<Package>, ps: seq<Package>, m: PackageMap, p: Package, r: PackageMap, n: string)
    requires p in g && Chosen(g, ps, m) && Added(m[p.name := p], r, g[p]) && n in r
    ensures
      if n in Names(ps + [p]) then LastNamed(ps + [p], r[n])
      else FirstNamed(DirectDependencies(g, ps) + g[p], r[n])
  {
    hide LastNamed, FirstNamed;
    var deps := DirectDependencies(g, ps);
    NamesOfBoth(ps, [p]);
    if n == p.name {
      LastOfMore(ps, p, p);
    } else if n in m {
      if n in Names(ps) {
        LastOfMore(ps, p, m[n]);
      } else {
        FirstOfMore(deps, g[p], m[n]);
      }
    } else {
      NewInMore(deps, g[p], r[n]);
    }
  }

  lemma OneMoreChosen(g: Graph<Package>, ps: seq<Package>, m: PackageMap, p: Package, r: PackageMap)
    requires p in g && Chosen(g, ps, m) && Added(m[p.name := p], r, g[p])
    ensures Chosen(g, ps + [p], r)
  {
    hide LastNamed, FirstNamed;
    var next, deps := ps + [p], DirectDependencies(g, ps);
    assert next[..|ps|] == ps;
    NamesOfBoth(ps, [p]);
    NamesOfBoth(deps, g[p]);
    forall n | n in r
      ensures r[n].name == n && if n in Names(next) then LastNamed(next, r[n]) else FirstNamed(deps + g[p], r[n])
    {
      NamedAfterOneMore(g, ps, m, p, r, n);
    }
  }

  lemma NamesOfBoth(a: seq<Package>, b: seq<Package>)
    ensures Names(a + b) == Names(a) + Names(b)
  {
    forall p | p in a + b ensures p in a || p in b {}
  }

  lemma LastOfMore(ps: seq<Package>, p: Package, q: Package)
    requires q == p || (LastNamed(ps, q) && q.name != p.name)
    ensures LastNamed(ps + [p], q)
  {
    var next := ps + [p];
    if q == p {
      assert next[|ps|] == q;
    } else {
      var i :| 0 <= i < |ps| && ps[i] == q && forall k | i < k < |ps| :: ps[k].name != q.name;
      assert next[i] == q;
    }
  }

  lemma FirstOfMore(a: seq<Package>, b: seq<Package>, q: Package)
    requires FirstNamed(a, q)
    ensures FirstNamed(a + b, q)
  {
    var i :| 0 <= i < |a| && a[i] == q && forall k | 0 <= k < i :: a[k].name != q.name;
    assert (a + b)[i] == q;
  }

  lemma NewInMore(a: seq<Package>, b: seq<Package>, q: Package)
    requires q.name !in Names(a) && FirstNamed(b, q)
    ensures FirstNamed(a + b, q)
  {
    var i :| 0 <= i < |b| && b[i] == q && forall k | 0 <= k < i :: b[k].name != q.name;
    assert (a + b)[|a| + i] == q;
    assert forall k | 0 <= k < |a| :: a[k] in a && a[k].name in Names(a);
  }

  lemma NothingChosen(g: Graph<Package>)
    ensures Chosen(g, [], map[])
  {}

  lemma {:induction false} DependenciesAreSuccessors(g: Graph<Package>, ps: seq<Package>)
    ensures forall q :: q in DirectDependencies(g, ps) <==> q in Successors(g, ToSet(ps))
  {
    if ps != [] {
      var n := |ps| - 1;
      DependenciesAreSuccessors(g, ps[..n]);
      forall q ensures q in DirectDependencies(g, ps) <==> q in Successors(g, ToSet(ps)) {
        assert forall p | p in ps :: p in ps[..n] || p == ps[n];
      }
    }
  }

  lemma ChosenIsSome(g: Graph<Package>, ps: seq<Package>, m: PackageMap)
    requires Chosen(g, ps, m)
    ensures Values(m) <= Collected(g, ToSet(ps))
  {
    DependenciesAreSuccessors(g, ps);
    forall n | n in m ensures m[n] in Collected(g, ToSet(ps)) {
      if n in Names(ps) {
        assert LastNamed(ps, m[n]) && m[n] in ps;
      } else {
        assert FirstNamed(DirectDependencies(g, ps), m[n]) && m[n] in DirectDependencies(g, ps);
      }
    }
  }

  /** Where names identify packages, nothing is left out. */
  lemma ChosenIsAll(g: Graph<Package>, ps: seq<Package>, m: PackageMap)
    requires Chosen(g, ps, m) && NamesIdentify(g) && ClosedUnder(g, g.Keys) && forall p | p in ps :: p in g
    ensures Values(m) == Collected(g, ToSet(ps))
  {
    ChosenIsSome(g, ps, m);
    DependenciesAreSuccessors(g, ps);
    forall q | q in Collected(g, ToSet(ps)) ensures q in Values(m) {
      assert q.name in Names(ps) + Names(DirectDependencies(g, ps));
      assert q.name in m && m[q.name] in Values(m);
      assert m[q.name] in g && q in g;
    }
  }

  lemma {:induction false} JobInPackagesOf(jobs: seq<seq<Package>>, i: nat, j: nat)
    requires i < |jobs| && j < |jobs[i]|
    ensures jobs[i][j] in PackagesOf(jobs)
  {
    var n := |jobs| - 1;
    if i < n {
      JobInPackagesOf(jobs[..n], i, j);
      assert jobs[i][j] in Flat(jobs[..n]);
    } else {
      assert jobs[i][j] in jobs[n];
    }
  }

  lemma OneMoreJob(jobs: seq<seq<Package>>, i: nat)
    requires i < |jobs|
    ensures Flat(jobs[..i + 1]) == Flat(jobs[..i]) + jobs[i]
  {
    assert jobs[..i + 1][..i] == jobs[..i];
  }

  /** Collects the packages of the jobs and their direct dependencies, by name. */
  method CollectPackages(jobs: seq<seq<Package>>, ghost g: Graph<Package>) returns (m: PackageMap)
    requires Depicts(g) && PackagesOf(jobs) <= g.Keys
    ensures Chosen(g, Flat(jobs), m)
  {
    hide *;
    m := map[];
    NothingChosen(g);
    NoJobs();
    for i := 0 to |jobs|
      invariant Chosen(g, Flat(jobs[..i]), m)
    {
      var job := jobs[i];
      assert Flat(jobs[..i]) + job[..0] == Flat(jobs[..i]);
      for j := 0 to |job|
        invariant Chosen(g, Flat(jobs[..i]) + job[..j], m)
      {
        var p := job[j];
        JobInPackagesOf(jobs, i, j);
        DependenciesAre(g, p);
        ghost var before := m;
        m := ResolvePackageDependencies(p, m[p.name := p]);
        OneMoreChosen(g, Flat(jobs[..i]) + job[..j], before, p, m);
        assert job[..j + 1] == job[..j] + [p];
        assert Flat(jobs[..i]) + job[..j + 1] == Flat(jobs[..i]) + job[..j] + [p];
      }
      assert job[..|job|] == job;
      OneMoreJob(jobs, i);
    }
    assert jobs[..|jobs|] == jobs;
  }

  lemma DependenciesAre(g: Graph<Package>, p: Package)
    requires Depicts(g) && p in g
    ensures p.dependencies == g[p]
  {}

  lemma NoJobs()
    ensures Flat([]) == []
  {}

  /** The packages in the map, in any order. */
  method Flatten(m: PackageMap) returns (packages: seq<Package>)
    ensures ToSet(packages) == Values(m)
  {
    packages := [];
    var rest := m.Keys;
    while rest != {}
      invariant rest <= m.Keys
      invariant forall n | n in m && n !in rest :: m[n] in packages
      invariant forall p | p in packages :: p in Values(m)
    {
      var n :| n in rest;
      packages := packages + [m[n]];
      rest := rest - {n};
    }
  }

  lemma ChosenAreKnown(g: Graph<Package>, jobs: seq<seq<Package>>, m: PackageMap)
    requires Depicts(g) && PackagesOf(jobs) <= g.Keys && Chosen(g, Flat(jobs), m)
    ensures Values(m) <= g.Keys
    ensures NamesIdentify(g) ==> Values(m) == Collected(g, PackagesOf(jobs))
  {
    ChosenIsSome(g, Flat(jobs), m);
    forall p | p in Flat(jobs) ensures p in g {
      assert p in PackagesOf(jobs);
    }
    if NamesIdentify(g) {
      ChosenIsAll(g, Flat(jobs), m);
    }
  }

  lemma EdgesAreRestricted(packages: seq<Package>, g: Graph<Package>, collected: set<Package>)
    requires Depicts(g) && collected <= g.Keys && ToSet(packages) == collected
    ensures EdgesOf(packages) == Restrict(g, collected)
    ensures PackageSort.Nodes(EdgesOf(packages)) == Layered(g, collected)
  {
    assert forall p :: p in packages <==> p in collected;
  }

  lemma SortedIsValid(g: Graph<Package>, collected: set<Package>, order: seq<Package>, depth: map<Package, nat>)
    requires Distinct(order) && ToSet(order) == Layered(g, collected)
    requires SuccessorsFirst(Restrict(g, collected), order)
    requires IsDepth(Restrict(g, collected), depth) && depth.Keys == Layered(g, collected) && DeepestFirst(order, depth)
    ensures SortedOrder(g, collected, depth, order)
  {
    assert forall p :: p in order <==> p in ToSet(order);
  }

  /** A circle among the edges that leave the collected packages is the only error; otherwise
      they are returned with their dependencies, in a valid order, deepest first. Where names
      identify packages, the collected ones are all job packages and their direct
      dependencies. */
  method ResolveJobCompilationDependencies(jobs: seq<seq<Package>>, ghost g: Graph<Package>)
    returns (r: Option<seq<Package>>, ghost m: PackageMap, ghost depth: map<Package, nat>)
    requires Depicts(g) && PackagesOf(jobs) <= g.Keys
    ensures Chosen(g, Flat(jobs), m) && Values(m) <= g.Keys
    ensures NamesIdentify(g) ==> Values(m) == Collected(g, PackagesOf(jobs))
    ensures r.None? <==> Cyclic(Restrict(g, Values(m)))
    ensures r.Some? ==> SortedOrder(g, Values(m), depth, r.value)
  {
    hide *;
    var packageMap := CollectPackages(jobs, g);
    m := packageMap;
    ChosenAreKnown(g, jobs, m);
    var packages := Flatten(packageMap);
    EdgesAreRestricted(packages, g, Values(m));
    r, depth := PackageSort.Sort(packages);
    if r.Some? {
      SortedIsValid(g, Values(m), r.value, depth);
    }
  }

  // ----- Compiling them -----

  datatype JobCompilation = Circular | Done(refs: Refs)

  predicate Succeeded(r: JobCompilation) {
    r.Done? && r.refs.Refs?
  }

  lemma OrderStays(d: Picture, collected: set<Package>, depth: map<Package, nat>, order: seq<Package>)
    requires Shows(d) && collected <= d.g.Keys && SortedOrder(d.g, collected, depth, order)
    ensures forall p | p in order :: p in d.g
  {}

  /** With every dependency before it, a package is ready at its turn. */
  lemma OrderedMeansReady(compiler: Compiler, before: seq<SaveEvent>, d: Picture, order: seq<Package>)
    requires Shows(d) && (forall p | p in order :: p in d.g) && SuccessorsFirst(d.g, order)
    ensures AllReady(compiler, before, d, order, |order|)
  {
    hide IsSaved, CacheKey;
    forall k | 0 <= k < |order| ensures DependenciesProvided(before, d, order, k) {
      assert order[k] in order;
      forall q | q in d.g[order[k]] ensures Provided(before, d, order, k, q) {
        var j :| 0 <= j < k && order[j] == q;
      }
    }
  }

  ghost predicate AllSources(g: Graph<Package>)
    reads g.Keys
  {
    forall p | p in g :: p.stemcell == ""
  }

  /** The other way round: source packages whose names identify them, compiled on the VM with
      nothing in the cache, are only ready with all dependencies first. */
  lemma ReadyMeansOrdered(d: Picture, order: seq<Package>)
    requires Shows(d) && NamesIdentify(d.g) && AllSources(d.g)
    requires AllReady(Remote, [], d, order, |order|)
    ensures SuccessorsFirst(d.g, order)
  {
    forall k, q | 0 <= k < |order| && order[k] in d.g && q in d.g[order[k]] ensures q in order[..k] {
      assert ReadyAt(Remote, [], d, order, k);
      assert Provided([], d, order, k, q);
      var j :| 0 <= j < k && CacheKey(d, order[j]) == CacheKey(d, q);
      assert order[j] in order;
      assert CacheKey(d, q).name == q.name && CacheKey(d, order[j]).name == order[j].name;
    }
  }

  /** How compiling for these jobs ends. A circle among the edges that leave the collected
      packages is an error, and the only one before anything is compiled. Success means that
      every package was ready at its turn; a dependency is lacking at the turn of a package
      that was not. */
  ghost predicate Outcome(
    compiler: Compiler, before: seq<SaveEvent>, now: seq<SaveEvent>, jobs: seq<seq<Package>>, d: Picture,
    r: JobCompilation, order: seq<Package>, m: PackageMap, depth: map<Package, nat>)
    reads order, d.g.Keys
  {
    && Chosen(d.g, Flat(jobs), m) && (forall p | p in order :: p in d.g)
    && (NamesIdentify(d.g) ==> Values(m) == Collected(d.g, PackagesOf(jobs)))
    && (r.Circular? <==> Cyclic(Restrict(d.g, Values(m))))
    && (r.Done? ==> SortedOrder(d.g, Values(m), depth, order))
    && (Succeeded(r) ==> CompiledAll(compiler, before, now, r.refs.refs, d, order))
    && (r.Done? && r.refs.LacksDependency? ==>
          r.refs.at < |order| && !ReadyAt(compiler, before, d, order, r.refs.at))
  }

  /** When it succeeds, if no request fails: with what the packages that sorting adds depend on
      deeper than they are, always. */
  ghost predicate Verdict(
    compiler: Compiler, before: seq<SaveEvent>, d: Picture, r: JobCompilation, order: seq<Package>, m: PackageMap,
    depth: map<Package, nat>)
    reads order
  {
    r.Done? && !r.refs.Stopped? ==>
      && (Succeeded(r) <==> AllReady(compiler, before, d, order, |order|))
      && (DeeperOnly(d.g, Values(m), depth) ==> Succeeded(r))
  }

  /** And for source packages whose names identify them, compiled on the VM with an empty
      cache: exactly if all dependencies come first, and never, whatever fails, if a package
      that sorting adds depends on one that is less deep or not compiled. */
  ghost predicate SourceVerdict(d: Picture, r: JobCompilation, order: seq<Package>, m: PackageMap, depth: map<Package, nat>) {
    && (Succeeded(r) ==> SuccessorsFirst(d.g, order))
    && (r.Done? && !r.refs.Stopped? ==> (Succeeded(r) <==> SuccessorsFirst(d.g, order)))
    && (SomeMisplaced(d.g, Values(m), depth) ==> !Succeeded(r))
    && (Succeeded(r) ==> ClosedUnder(d.g, Layered(d.g, Values(m))))
  }

  lemma OutcomeMeans(
    compiler: Compiler, before: seq<SaveEvent>, now: seq<SaveEvent>, jobs: seq<seq<Package>>, d: Picture,
    r: JobCompilation, order: seq<Package>, m: PackageMap, depth: map<Package, nat>)
    requires Shows(d) && Outcome(compiler, before, now, jobs, d, r, order, m, depth)
    ensures Verdict(compiler, before, d, r, order, m, depth)
  {
    hide Chosen, SortedOrder, DeeperOnly, NamesIdentify, Values, Restrict, Cyclic, Shows, ReadyAt;
    if r.Done? && DeeperOnly(d.g, Values(m), depth) {
      DeeperOnlyIsSound(d.g, Values(m), depth, order);
      OrderedMeansReady(compiler, before, d, order);
    }
  }

  lemma OutcomeOfSources(
    now: seq<SaveEvent>, jobs: seq<seq<Package>>, d: Picture, r: JobCompilation, order: seq<Package>, m: PackageMap,
    depth: map<Package, nat>)
    requires Shows(d) && Outcome(Remote, [], now, jobs, d, r, order, m, depth)
    requires NamesIdentify(d.g) && AllSources(d.g)
    ensures SourceVerdict(d, r, order, m, depth)
  {
    hide Chosen, SortedOrder, NamesIdentify, AllSources, Values, Restrict, Cyclic, Shows, ReadyAt, SuccessorsFirst;
    hide Layered, Misplaced, ClosedUnder;
    if r.Done? {
      if Succeeded(r) {
        ReadyMeansOrdered(d, order);
        OrderedIsClosed(d.g, Values(m), depth, order);
      }
      if SuccessorsFirst(d.g, order) {
        OrderedMeansReady(Remote, [], d, order);
      }
      if SomeMisplaced(d.g, Values(m), depth) {
        var p, q :| p in d.g && q in d.g[p] && Misplaced(d.g, Values(m), depth, p, q);
        MisplacedIsUnsound(d.g, Values(m), depth, order, p, q);
      }
    }
  }

  lemma OrderedIsClosed(g: Graph<Package>, collected: set<Package>, depth: map<Package, nat>, order: seq<Package>)
    requires SortedOrder(g, collected, depth, order) && SuccessorsFirst(g, order)
    ensures ClosedUnder(g, Layered(g, collected))
  {
    OrderedMeansClosed(g, collected, order);
  }

  lemma OutcomeIsCircular(
    compiler: Compiler, saves: seq<SaveEvent>, jobs: seq<seq<Package>>, d: Picture, m: PackageMap,
    depth: map<Package, nat>)
    requires Chosen(d.g, Flat(jobs), m)
    requires NamesIdentify(d.g) ==> Values(m) == Collected(d.g, PackagesOf(jobs))
    requires Cyclic(Restrict(d.g, Values(m)))
    ensures Outcome(compiler, saves, saves, jobs, d, Circular, [], m, depth)
  {}

  lemma OutcomeIs(
    compiler: Compiler, before: seq<SaveEvent>, now: seq<SaveEvent>, jobs: seq<seq<Package>>, d: Picture,
    refs: Refs, order: seq<Package>, m: PackageMap, depth: map<Package, nat>)
    requires Chosen(d.g, Flat(jobs), m) && forall p | p in order :: p in d.g
    requires NamesIdentify(d.g) ==> Values(m) == Collected(d.g, PackagesOf(jobs))
    requires !Cyclic(Restrict(d.g, Values(m))) && SortedOrder(d.g, Values(m), depth, order)
    requires refs.Refs? ==> CompiledAll(compiler, before, now, refs.refs, d, order)
    requires refs.LacksDependency? ==> refs.at < |order| && !ReadyAt(compiler, before, d, order, refs.at)
    ensures Outcome(compiler, before, now, jobs, d, Done(refs), order, m, depth)
  {}

  ghost predicate Concluded(
    compiler: Compiler, before: seq<SaveEvent>, now: seq<SaveEvent>, jobs: seq<seq<Package>>, d: Picture,
    r: JobCompilation, order: seq<Package>, m: PackageMap, depth: map<Package, nat>)
    reads order, d.g.Keys
  {
    && Outcome(compiler, before, now, jobs, d, r, order, m, depth)
    && Verdict(compiler, before, d, r, order, m, depth)
    && (compiler == Remote && before == [] && NamesIdentify(d.g) && AllSources(d.g) ==>
          SourceVerdict(d, r, order, m, depth))
  }

  lemma OutcomeConcludes(
    compiler: Compiler, before: seq<SaveEvent>, now: seq<SaveEvent>, jobs: seq<seq<Package>>, d: Picture,
    r: JobCompilation, order: seq<Package>, m: PackageMap, depth: map<Package, nat>)
    requires Shows(d) && Outcome(compiler, before, now, jobs, d, r, order, m, depth)
    ensures Concluded(compiler, before, now, jobs, d, r, order, m, depth)
  {
    hide Outcome, Verdict, SourceVerdict, NamesIdentify, AllSources, Shows;
    OutcomeMeans(compiler, before, now, jobs, d, r, order, m, depth);
    if compiler == Remote && before == [] && NamesIdentify(d.g) && AllSources(d.g) {
      OutcomeOfSources(now, jobs, d, r, order, m, depth);
    }
  }

  /** What was asked for is what made the records that were saved, and all of it if this has
      succeeded. */
  ghost predicate Worked(
    compiler: Compiler, before: seq<SaveEvent>, now: seq<SaveEvent>, sent: seq<Exchange>, d: Picture,
    order: seq<Package>, r: JobCompilation)
    reads order
  {
    && WorkBegun(compiler, before, now, sent, d, order)
    && (Succeeded(r) ==> WorkDone(compiler, before, now, sent, d, order))
  }

  lemma WorkedOn(
    compiler: Compiler, before: seq<SaveEvent>, now: seq<SaveEvent>, sent: seq<Exchange>, d: Picture,
    order: seq<Package>, refs: Refs)
    requires WorkBegun(compiler, before, now, sent, d, order)
    requires refs.Refs? ==> WorkDone(compiler, before, now, sent, d, order)
    ensures Worked(compiler, before, now, sent, d, order, Done(refs))
  {}

  lemma NoWorkWhenCircular(compiler: Compiler, saves: seq<SaveEvent>, log: seq<Exchange>, d: Picture)
    ensures Worked(compiler, saves, saves, Since(log, log), d, [], Circular)
  {
    NoWork(compiler, saves, d);
    NothingSince(log);
    var none: seq<Package> := [];
    assert none[..0] == none;
    BegunWith(compiler, saves, saves, [], [], d, none, 0);
    assert Since(log, log) == Since(log, log) + [];
  }

  /** Compiles what was sorted. */
  method CompileSorted(
    compiler: Compiler, repo: CompiledPackageRepo, service: Service, jobs: seq<seq<Package>>, order: seq<Package>,
    ghost d: Picture, ghost m: PackageMap, ghost depth: map<Package, nat>)
    returns (r: JobCompilation)
    requires repo.Valid() && Shows(d) && Chosen(d.g, Flat(jobs), m) && Values(m) <= d.g.Keys
    requires NamesIdentify(d.g) ==> Values(m) == Collected(d.g, PackagesOf(jobs))
    requires !Cyclic(Restrict(d.g, Values(m))) && SortedOrder(d.g, Values(m), depth, order)
    modifies repo, repo.index, service
    ensures repo.Valid()
    ensures Outcome(compiler, old(repo.saves), repo.saves, jobs, d, r, order, m, depth)
    ensures old(Failures(repo, service)) <= Failures(repo, service)
    ensures r.Done? && r.refs.Stopped? ==> old(Failures(repo, service)) < Failures(repo, service)
    ensures old(service.log) <= service.log
    ensures Worked(compiler, old(repo.saves), repo.saves, Since(old(service.log), service.log), d, order, r)
  {
    hide *;
    ghost var before := repo.saves;
    OrderStays(d, Values(m), depth, order);
    var refs := CompilePackages(compiler, repo, service, order, d);
    r := Done(refs);
    WorkedOn(compiler, before, repo.saves, Since(old(service.log), service.log), d, order, refs);
    OutcomeIs(compiler, before, repo.saves, jobs, d, refs, order, m, depth);
  }

  /** Resolves and compiles. */
  method Compile(
    compiler: Compiler, repo: CompiledPackageRepo, service: Service, jobs: seq<seq<Package>>, ghost d: Picture)
    returns (r: JobCompilation, ghost order: seq<Package>, ghost m: PackageMap, ghost depth: map<Package, nat>)
    requires repo.Valid() && Shows(d) && PackagesOf(jobs) <= d.g.Keys
    modifies repo, repo.index, service
    ensures repo.Valid()
    ensures Concluded(compiler, old(repo.saves), repo.saves, jobs, d, r, order, m, depth)
    ensures old(Failures(repo, service)) <= Failures(repo, service)
    ensures r.Done? && r.refs.Stopped? ==> old(Failures(repo, service)) < Failures(repo, service)
    ensures old(service.log) <= service.log
    ensures Worked(compiler, old(repo.saves), repo.saves, Since(old(service.log), service.log), d, order, r)
  {
    assert Depicts(d.g);
    hide *;
    var sorted;
    sorted, m, depth := ResolveJobCompilationDependencies(jobs, d.g);
    if sorted.None? {
      r, order := Circular, [];
      OutcomeIsCircular(compiler, repo.saves, jobs, d, m, depth);
      NoWorkWhenCircular(compiler, repo.saves, service.log, d);
    } else {
      order := sorted.value;
      r := CompileSorted(compiler, repo, service, jobs, sorted.value, d, m, depth);
    }
    OutcomeConcludes(compiler, old(repo.saves), repo.saves, jobs, d, r, order, m, depth);
  }

  // ----- Two jobs that are never compiled -----

  lemma OneJob(g: Graph<Package>, p: Package)
    requires p in g
    ensures PackagesOf([[p]]) == {p} <= g.Keys
  {
    assert [[p]][..0] == [] && Flat([[p]]) == [p];
  }

  /** A job that needs a chain of three packages: the last one is not compiled. */
  method CompileChain(
    repo: CompiledPackageRepo, service: Service, p: Package, q: Package, s: Package, t: Package, ghost d: Picture)
    returns (r: JobCompilation)
    requires IsChain(d.g, p, q, s, t)
    requires repo.Valid() && repo.saves == [] && Shows(d) && NamesIdentify(d.g) && AllSources(d.g)
    modifies repo, repo.index, service
    ensures !Succeeded(r)
  {
    hide *;
    ChainIsNotClosed(d.g, p, q, s, t);
    OneJob(d.g, p);
    ghost var order, m, depth;
    r, order, m, depth := Compile(Remote, repo, service, [[p]], d);
    NotClosedNotCompiled(repo.saves, [[p]], d, r, order, m, depth);
  }

  lemma ChainIsNotClosed(g: Graph<Package>, p: Package, q: Package, s: Package, t: Package)
    requires IsChain(g, p, q, s, t)
    ensures p in g && PackagesOf([[p]]) == {p} && !ClosedUnder(g, CompileSet(g, PackagesOf([[p]])))
  {
    ChainOfThreeSteps(g, p, q, s, t);
    assert ClosedUnder(g, g.Keys);
    CompleteIffClosed(g, {p});
    OneJob(g, p);
  }

  lemma NotClosedNotCompiled(
    now: seq<SaveEvent>, jobs: seq<seq<Package>>, d: Picture, r: JobCompilation, order: seq<Package>, m: PackageMap,
    depth: map<Package, nat>)
    requires Concluded(Remote, [], now, jobs, d, r, order, m, depth)
    requires NamesIdentify(d.g) && AllSources(d.g) && !ClosedUnder(d.g, CompileSet(d.g, PackagesOf(jobs)))
    ensures !Succeeded(r)
  {}

  /** A job that needs a package both directly and through two others: everything is compiled,
      but the package in between too early. */
  method CompileShortCut(
    repo: CompiledPackageRepo, service: Service, a: Package, b: Package, p: Package, q: Package, ghost d: Picture)
    returns (r: JobCompilation)
    requires IsShortCut(d.g, a, b, p, q)
    requires repo.Valid() && repo.saves == [] && Shows(d) && NamesIdentify(d.g) && AllSources(d.g)
    modifies repo, repo.index, service
    ensures !Succeeded(r)
  {
    hide *;
    StartsIn(d.g, a, b, p, q);
    OneJob(d.g, a);
    ghost var order, m, depth;
    r, order, m, depth := Compile(Remote, repo, service, [[a]], d);
    ShortCutNotCompiled(repo.saves, d, r, order, m, depth, a, b, p, q);
  }

  lemma StartsIn(g: Graph<Package>, a: Package, b: Package, p: Package, q: Package)
    requires IsShortCut(g, a, b, p, q)
    ensures a in g && p in g && q in g[p]
  {}

  lemma ShortCutNotCompiled(
    now: seq<SaveEvent>, d: Picture, r: JobCompilation, order: seq<Package>, m: PackageMap, depth: map<Package, nat>,
    a: Package, b: Package, p: Package, q: Package)
    requires IsShortCut(d.g, a, b, p, q)
    requires NamesIdentify(d.g) && AllSources(d.g) && PackagesOf([[a]]) == {a}
    requires Concluded(Remote, [], now, [[a]], d, r, order, m, depth)
    ensures !Succeeded(r)
  {
    hide Chosen, NamesIdentify, Values, ValidOrder, IsDepth, DeepestFirst, Cyclic, Restrict, CompiledAll, ReadyAt, Layered;
    hide SuccessorsFirst, ClosedUnder, Misplaced, IsShortCut, AllSources, Verdict;
    if r.Done? {
      ShortCut(d.g, a, b, p, q, depth);
      StartsIn(d.g, a, b, p, q);
      assert SomeMisplaced(d.g, Values(m), depth);
    }
  }
}

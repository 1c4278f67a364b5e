/** deployment/instance/state/remote_package_compiler.go, installation/pkg/compiler.go and
    state/job/dependency_compiler.go: compiling the packages of jobs, dependencies first. */
module DependencyCompilers {
  import opened Wrappers
  import opened Packages
  import opened DependencyResolution
  import opened CacheKeys
  import opened CompiledPackages
  import opened Services

  /** The two compilers behind the interface. */
  datatype Compiler = Remote | Local

  datatype Compilation =
    | Compiled(record: CompiledPackageRecord, isAlreadyCompiled: bool)
    | NotCompiled(dependency: Package)  // the package requires one that has not been compiled
    | CompilationFailed                 // any other error

  /** Something was saved for a package with the key of this one. */
  ghost predicate IsSaved(saves: seq<SaveEvent>, d: Picture, p: Package)
    requires p in d.labels
  {
    LastSaved(saves, CacheKey(d, p)).Some?
  }

  lemma SavedStill(saves: seq<SaveEvent>, event: SaveEvent, d: Picture, p: Package)
    requires p in d.labels
    ensures IsSaved(saves, d, p) || event.Key() == CacheKey(d, p) <==> IsSaved(saves + [event], d, p)
  {
    assert (saves + [event])[..|saves|] == saves;
  }

  /** The references are those of the packages, position by position. */
  ghost predicate ReferTo(refs: seq<PackageRef>, packages: seq<Package>)
    reads packages
  {
    && |refs| == |packages|
    && forall i | 0 <= i < |packages| :: refs[i].name == packages[i].name && refs[i].version == packages[i].fingerprint
  }

  /** The references are those of the packages, position by position, each to what was last
      saved under the key of its package. */
  ghost predicate LastSavedFor(refs: seq<PackageRef>, saves: seq<SaveEvent>, d: Picture, packages: seq<Package>) {
    && |refs| == |packages|
    && forall i | 0 <= i < |packages| ::
         && packages[i] in d.labels && Label(refs[i].name, refs[i].version) == d.labels[packages[i]]
         && LastSaved(saves, CacheKey(d, packages[i])) == Some(refs[i].record)
  }

  /** How many requests have failed that compiling depends on. */
  ghost function Failures(repo: CompiledPackageRepo, service: Service): nat
    reads repo.index`failures, service
  {
    repo.index.failures + service.failures
  }

  /** Everything that the package depends on directly is in the cache. */
  ghost predicate DependenciesSaved(saves: seq<SaveEvent>, d: Picture, p: Package) {
    p in d.g && forall q | q in d.g[p] :: q in d.labels && IsSaved(saves, d, q)
  }

  /** The compiler can do without what it does not find: on the VM, a package that comes
      compiled needs nothing, and here, one that is in the cache. */
  ghost predicate Ready(compiler: Compiler, saves: seq<SaveEvent>, d: Picture, p: Package)
    requires p in d.labels
    reads p
  {
    || (if compiler == Remote then p.stemcell != "" else IsSaved(saves, d, p))
    || DependenciesSaved(saves, d, p)
  }

  // ----- What compiling asks for -----

  ghost function Upload(p: Package, blobID: string): seq<Exchange> {
    [Exchange(AddBlob(p), Text(blobID))]
  }

  /** The archive of the package is uploaded, and the agent compiles it. */
  ghost function CompilationOnVM(
    p: Package, blobID: string, dependencies: seq<PackageRef>, record: CompiledPackageRecord): seq<Exchange>
    reads p
  {
    var source := PackageRef(p.name, p.fingerprint, CompiledPackageRecord(blobID, p.sha1));
    Upload(p, blobID) + [Exchange(CompileOnVM(source, dependencies), Blob(record))]
  }

  ghost function Installations(dependencies: seq<PackageRef>): seq<Exchange> {
    if dependencies == [] then []
    else Installations(dependencies[..|dependencies| - 1]) + [Exchange(Install(dependencies[|dependencies| - 1]), Performed)]
  }

  ghost function Build(p: Package, tarball: string, record: CompiledPackageRecord): seq<Exchange> {
    [Exchange(PrepareInstallation(p), Performed), Exchange(RunPackagingScript(p), Performed),
     Exchange(Compress(p), Text(tarball)), Exchange(CreateBlob(tarball), Blob(record))]
  }

  /** The dependencies are installed, the packaging script runs, and what it has installed
      becomes a blob. */
  ghost function CompilationHere(
    p: Package, tarball: string, dependencies: seq<PackageRef>, record: CompiledPackageRecord): seq<Exchange>
  {
    Installations(dependencies) + Build(p, tarball, record)
  }

  /** The record is the answer to just these requests: to one compilation of this package,
      against its direct dependencies, each in its position and as it was last compiled; or
      to the upload of the package, if it comes compiled. */
  ghost predicate Made(
    compiler: Compiler, sent: seq<Exchange>, saves: seq<SaveEvent>, d: Picture, p: Package, record: CompiledPackageRecord)
    reads p
  {
    p in d.g &&
    match compiler
    case Remote =>
      if p.stemcell != "" then
        sent == Upload(p, record.blobID) && record.blobSHA1 == p.sha1
      else
        exists blobID, dependencies | sent == CompilationOnVM(p, blobID, dependencies, record) ::
          LastSavedFor(dependencies, saves, d, d.g[p])
    case Local =>
      exists tarball, dependencies | sent == CompilationHere(p, tarball, dependencies, record) ::
        LastSavedFor(dependencies, saves, d, d.g[p])
  }

  lemma MadeOnVM(
    sent: seq<Exchange>, saves: seq<SaveEvent>, d: Picture, p: Package, blobID: string, dependencies: seq<PackageRef>,
    record: CompiledPackageRecord)
    requires Shows(d) && p in d.g && p.stemcell == "" && LastSavedFor(dependencies, saves, d, p.dependencies)
    requires sent == CompilationOnVM(p, blobID, dependencies, record)
    ensures Made(Remote, sent, saves, d, p, record)
  {
    hide LastSavedFor, CompilationOnVM;
  }

  lemma MadeHere(
    sent: seq<Exchange>, saves: seq<SaveEvent>, d: Picture, p: Package, tarball: string, dependencies: seq<PackageRef>,
    record: CompiledPackageRecord)
    requires Shows(d) && p in d.g && LastSavedFor(dependencies, saves, d, p.dependencies)
    requires sent == CompilationHere(p, tarball, dependencies, record)
    ensures Made(Local, sent, saves, d, p, record)
  {
    hide LastSavedFor, CompilationHere;
  }

  lemma MadeByUpload(sent: seq<Exchange>, saves: seq<SaveEvent>, d: Picture, p: Package, record: CompiledPackageRecord)
    requires p in d.g && p.stemcell != "" && sent == Upload(p, record.blobID) && record.blobSHA1 == p.sha1
    ensures Made(Remote, sent, saves, d, p, record)
  {}

  /** The first i dependencies have been found. */
  ghost predicate FoundSoFar(refs: seq<PackageRef>, saves: seq<SaveEvent>, d: Picture, p: Package, i: nat) {
    p in d.g && i <= |d.g[p]| && LastSavedFor(refs, saves, d, d.g[p][..i])
  }

  lemma NothingFound(saves: seq<SaveEvent>, d: Picture, p: Package)
    requires p in d.g
    ensures FoundSoFar([], saves, d, p, 0) && Installations([]) == []
  {}

  lemma KnownPackage(d: Picture, p: Package, i: nat)
    requires Shows(d) && p in d.g && i < |p.dependencies|
    ensures p.dependencies[i] in d.g && p.dependencies[i] in d.g[p] && p.dependencies[i] in d.labels
  {
    assert d.g[p][i] in d.g[p];
  }

  lemma NotSaved(saves: seq<SaveEvent>, d: Picture, q: Package)
    requires q in d.labels && LastSaved(saves, CacheKey(d, q)).None?
    ensures !IsSaved(saves, d, q)
  {}

  lemma OneMoreFound(refs: seq<PackageRef>, saves: seq<SaveEvent>, d: Picture, p: Package, i: nat, ref: PackageRef)
    requires Shows(d) && FoundSoFar(refs, saves, d, p, i) && i < |p.dependencies|
    requires ref.name == p.dependencies[i].name && ref.version == p.dependencies[i].fingerprint
    requires p.dependencies[i] in d.labels && LastSaved(saves, CacheKey(d, p.dependencies[i])) == Some(ref.record)
    ensures FoundSoFar(refs + [ref], saves, d, p, i + 1)
    ensures Installations(refs + [ref]) == Installations(refs) + [Exchange(Install(ref), Performed)]
  {
    hide LastSaved, CacheKey;
    assert (refs + [ref])[..|refs|] == refs;
    assert d.g[p][..i + 1] == d.g[p][..i] + [d.g[p][i]];
    assert d.g[p][i] in d.g[p];
  }

  lemma AllFound(refs: seq<PackageRef>, saves: seq<SaveEvent>, d: Picture, p: Package)
    requires Shows(d) && FoundSoFar(refs, saves, d, p, |p.dependencies|)
    ensures ReferTo(refs, p.dependencies) && LastSavedFor(refs, saves, d, p.dependencies)
    ensures DependenciesSaved(saves, d, p)
  {
    hide LastSaved, CacheKey;
    assert p.dependencies[..|p.dependencies|] == p.dependencies;
    forall i | 0 <= i < |p.dependencies| ensures p.dependencies[i] in d.g {
      assert d.g[p][i] in d.g[p];
    }
  }

  /** All direct dependencies must have been compiled; what was last saved for each of them
      is what is used, and what a compiler on this machine installs. */
  method FindDependencies(compiler: Compiler, repo: CompiledPackageRepo, service: Service, p: Package, ghost d: Picture)
    returns (ok: bool, missing: Option<Package>, refs: seq<PackageRef>)
    requires repo.Valid() && Shows(d) && p in d.g
    modifies repo.index`failures, service
    ensures ok ==> ReferTo(refs, p.dependencies) && LastSavedFor(refs, repo.saves, d, p.dependencies)
    ensures ok ==> DependenciesSaved(repo.saves, d, p)
    ensures missing.Some? ==>
      !ok && missing.value in d.g[p] && missing.value in d.labels && !IsSaved(repo.saves, d, missing.value)
    ensures old(Failures(repo, service)) <= Failures(repo, service)
    ensures !ok && missing.None? ==> old(Failures(repo, service)) < Failures(repo, service)
    ensures old(service.log) <= service.log
    ensures ok ==> service.log == old(service.log) + if compiler == Local then Installations(refs) else []
  {
    hide LastSaved, CacheKey, FoundSoFar, IsSaved, Shows, LastSavedFor, ReferTo, DependenciesSaved, Installations;
    hide LastSavedAs, PlainSaves, Dependencies, Agree;
    refs := [];
    NothingFound(repo.saves, d, p);
    for i := 0 to |p.dependencies|
      invariant FoundSoFar(refs, repo.saves, d, p, i)
      invariant old(Failures(repo, service)) <= Failures(repo, service)
      invariant service.log == old(service.log) + if compiler == Local then Installations(refs) else []
    {
      var q := p.dependencies[i];
      KnownPackage(d, p, i);
      var r := repo.Find(q, d);
      if r.Unreadable? { return false, None, []; }
      if r.Missing? {
        NotSaved(repo.saves, d, q);
        return false, Some(q), [];
      }
      var ref := PackageRef(q.name, q.fingerprint, r.value);
      if compiler == Local {
        var installed := service.Ask(Install(ref));
        if installed.Failed? { return false, None, []; }
      }
      OneMoreFound(refs, repo.saves, d, p, i, ref);
      refs := refs + [ref];
    }
    AllFound(refs, repo.saves, d, p);
    return true, None, refs;
  }

  /** Compiling here, once the dependencies are installed. */
  method RunPackaging(service: Service, p: Package) returns (r: Option<CompiledPackageRecord>, ghost tarball: string)
    modifies service
    ensures service.failures == old(service.failures) + if r.Some? then 0 else 1
    ensures old(service.log) <= service.log
    ensures r.Some? ==> service.log == old(service.log) + Build(p, tarball, r.value)
  {
    r, tarball := None, "";
    var prepared := service.Ask(PrepareInstallation(p));
    if prepared.Failed? { return; }
    var run := service.Ask(RunPackagingScript(p));
    if run.Failed? { return; }
    var compressed := service.Ask(Compress(p));
    if compressed.Failed? { return; }
    tarball := compressed.text;
    var blob := service.Ask(CreateBlob(compressed.text));
    if blob.Failed? { return; }
    r := Some(blob.record);
  }

  /** Compiling on the VM: a source package is compiled whether or not it is in the cache;
      a package that comes compiled is uploaded as it is. */
  method CompileRemotely(repo: CompiledPackageRepo, service: Service, p: Package, ghost d: Picture) returns (r: Compilation)
    requires repo.Valid() && Shows(d) && p in d.g
    modifies repo, repo.index, service
    ensures repo.Valid()
    ensures r.Compiled? ==> repo.saves == old(repo.saves) + [EventOf(d, p, r.record)]
    ensures r.Compiled? ==> r.isAlreadyCompiled == (p.stemcell != "")
    ensures old(service.log) <= service.log
    ensures r.Compiled? ==> Made(Remote, Since(old(service.log), service.log), old(repo.saves), d, p, r.record)
    ensures r.Compiled? ==> p.stemcell != "" || DependenciesSaved(old(repo.saves), d, p)
    ensures !r.Compiled? ==> repo.saves == old(repo.saves)
    ensures r.NotCompiled? ==>
      p.stemcell == "" && r.dependency in d.g[p] && r.dependency in d.labels && !IsSaved(old(repo.saves), d, r.dependency)
    ensures old(Failures(repo, service)) <= Failures(repo, service)
    ensures r.CompilationFailed? ==> old(Failures(repo, service)) < Failures(repo, service)
  {
    hide LastSaved, CacheKey, LastSavedFor, ReferTo, DependenciesSaved, EventOf, Made;
    var uploaded := service.Ask(AddBlob(p));
    if uploaded.Failed? { return CompilationFailed; }
    var record := CompiledPackageRecord(uploaded.text, p.sha1);
    if p.stemcell == "" {
      var found, missing, dependencies := FindDependencies(Remote, repo, service, p, d);
      if missing.Some? { return NotCompiled(missing.value); }
      if !found { return CompilationFailed; }
      var compiled := service.Ask(CompileOnVM(PackageRef(p.name, p.fingerprint, record), dependencies));
      if compiled.Failed? { return CompilationFailed; }
      record := compiled.record;
      assert Since(old(service.log), service.log) == CompilationOnVM(p, uploaded.text, dependencies, record);
      MadeOnVM(Since(old(service.log), service.log), repo.saves, d, p, uploaded.text, dependencies, record);
    } else {
      MadeByUpload(Since(old(service.log), service.log), repo.saves, d, p, record);
    }
    var saved := repo.Save(p, record, d);
    if !saved { return CompilationFailed; }
    return Compiled(record, p.stemcell != "");
  }

  /** Compiling on this machine: a package that is in the cache is not compiled again. */
  method CompileLocally(repo: CompiledPackageRepo, service: Service, p: Package, ghost d: Picture) returns (r: Compilation)
    requires repo.Valid() && Shows(d) && p in d.g
    modifies repo, repo.index, service
    ensures repo.Valid()
    ensures r.Compiled? ==> !r.isAlreadyCompiled
    ensures r.Compiled? && IsSaved(old(repo.saves), d, p) ==>
      repo.saves == old(repo.saves) && LastSaved(repo.saves, CacheKey(d, p)) == Some(r.record)
    ensures r.Compiled? && !IsSaved(old(repo.saves), d, p) ==>
      repo.saves == old(repo.saves) + [EventOf(d, p, r.record)] && DependenciesSaved(old(repo.saves), d, p)
    ensures old(service.log) <= service.log
    ensures r.Compiled? && IsSaved(old(repo.saves), d, p) ==> service.log == old(service.log)
    ensures r.Compiled? && !IsSaved(old(repo.saves), d, p) ==>
      Made(Local, Since(old(service.log), service.log), old(repo.saves), d, p, r.record)
    ensures !r.Compiled? ==> repo.saves == old(repo.saves)
    ensures r.NotCompiled? ==>
      && !IsSaved(old(repo.saves), d, p)
      && r.dependency in d.g[p] && r.dependency in d.labels && !IsSaved(old(repo.saves), d, r.dependency)
    ensures old(Failures(repo, service)) <= Failures(repo, service)
    ensures r.CompilationFailed? ==> old(Failures(repo, service)) < Failures(repo, service)
  {
    hide LastSaved, CacheKey, LastSavedFor, ReferTo, DependenciesSaved, EventOf, Made;
    var known := repo.Find(p, d);
    if known.Unreadable? { return CompilationFailed; }
    if known.Found? { return Compiled(known.value, false); }
    var found, missing, dependencies := FindDependencies(Local, repo, service, p, d);
    if missing.Some? { return NotCompiled(missing.value); }
    if !found { return CompilationFailed; }
    ghost var tarball;
    var record;
    record, tarball := RunPackaging(service, p);
    if record.None? { return CompilationFailed; }
    assert Since(old(service.log), service.log) == CompilationHere(p, tarball, dependencies, record.value);
    MadeHere(Since(old(service.log), service.log), repo.saves, d, p, tarball, dependencies, record.value);
    var saved := repo.Save(p, record.value, d);
    if !saved { return CompilationFailed; }
    return Compiled(record.value, false);
  }

  /** If no request fails, a package compiles exactly when it is ready. */
  method Compile(compiler: Compiler, repo: CompiledPackageRepo, service: Service, p: Package, ghost d: Picture)
    returns (r: Compilation)
    requires repo.Valid() && Shows(d) && p in d.g
    modifies repo, repo.index, service
    ensures repo.Valid()
    ensures r.Compiled? ==> LastSaved(repo.saves, CacheKey(d, p)) == Some(r.record)
    ensures repo.saves == old(repo.saves)
            || (r.Compiled? && repo.saves == old(repo.saves) + [EventOf(d, p, r.record)])
    ensures r.Compiled? && compiler == Remote ==> repo.saves != old(repo.saves)
    ensures old(service.log) <= service.log
    ensures r.Compiled? ==>
      if repo.saves == old(repo.saves) then service.log == old(service.log)
      else Made(compiler, Since(old(service.log), service.log), old(repo.saves), d, p, r.record)
    ensures r.Compiled? ==> Ready(compiler, old(repo.saves), d, p)
    ensures r.NotCompiled? ==>
      && !Ready(compiler, old(repo.saves), d, p)
      && r.dependency in d.g[p] && r.dependency in d.labels && !IsSaved(old(repo.saves), d, r.dependency)
    ensures old(Failures(repo, service)) <= Failures(repo, service)
    ensures r.CompilationFailed? ==> old(Failures(repo, service)) < Failures(repo, service)
  {
    hide CacheKey, EventOf, Made;
    match compiler
    case Remote =>
      r := CompileRemotely(repo, service, p, d);
      if r.Compiled? {
        LastOfMore(old(repo.saves), EventOf(d, p, r.record));
      }
    case Local =>
      r := CompileLocally(repo, service, p, d);
      if r.Compiled? {
        LastOfMore(old(repo.saves), EventOf(d, p, r.record));
      }
  }

  lemma LastOfMore(saves: seq<SaveEvent>, e: SaveEvent)
    ensures LastSaved(saves + [e], e.Key()) == Some(e.record)
  {}

  // ----- Compiling a list of packages -----

  datatype Refs =
    | Refs(refs: seq<PackageRef>)
    | LacksDependency(at: nat, dependency: Package)  // the package at this position requires a package that was not compiled
    | Stopped

  /** What is in the cache was there before or is one of these packages. */
  ghost predicate SavedByNow(before: seq<SaveEvent>, now: seq<SaveEvent>, d: Picture, ps: seq<Package>) {
    && (forall p | p in ps :: p in d.labels && IsSaved(now, d, p))
    && (forall q | q in d.labels && IsSaved(now, d, q) ::
          IsSaved(before, d, q) || exists i :: 0 <= i < |ps| && CacheKey(d, ps[i]) == CacheKey(d, q))
  }

  lemma OneMoreSaved(
    before: seq<SaveEvent>, a: seq<SaveEvent>, b: seq<SaveEvent>, d: Picture, ps: seq<Package>, p: Package,
    record: CompiledPackageRecord)
    requires SavedByNow(before, a, d, ps) && p in d.labels
    requires b == a || b == a + [EventOf(d, p, record)]
    requires IsSaved(b, d, p)
    ensures SavedByNow(before, b, d, ps + [p])
  {
    hide LastSaved, CacheKey, IsSaved, EventOf;
    var next := ps + [p];
    forall q | q in d.labels && IsSaved(b, d, q)
      ensures IsSaved(before, d, q) || exists i :: 0 <= i < |next| && CacheKey(d, next[i]) == CacheKey(d, q)
    {
      if b != a {
        SavedStill(a, EventOf(d, p, record), d, q);
      }
      if IsSaved(a, d, q) {
        if !IsSaved(before, d, q) {
          var i :| 0 <= i < |ps| && CacheKey(d, ps[i]) == CacheKey(d, q);
          assert next[i] == ps[i];
        }
      } else {
        assert next[|ps|] == p;
      }
    }
    forall q | q in next ensures q in d.labels && IsSaved(b, d, q) {
      if q in ps && b != a {
        SavedStill(a, EventOf(d, p, record), d, q);
      }
    }
  }

  /** Each reference is to what was saved under the key of its package. */
  ghost predicate Backed(refs: seq<PackageRef>, saves: seq<SaveEvent>, d: Picture, packages: seq<Package>) {
    && |refs| == |packages|
    && forall i | 0 <= i < |packages| ::
         packages[i] in d.labels && WasSaved(saves, CacheKey(d, packages[i]), refs[i].record)
  }

  ghost predicate WasSaved(saves: seq<SaveEvent>, key: PackageKey, record: CompiledPackageRecord) {
    exists i :: 0 <= i < |saves| && saves[i].Key() == key && saves[i].record == record
  }

  lemma {:induction false} LastWasSaved(saves: seq<SaveEvent>, key: PackageKey, record: CompiledPackageRecord)
    requires LastSaved(saves, key) == Some(record)
    ensures WasSaved(saves, key, record)
  {
    var n := |saves| - 1;
    if saves[n].Key() != key {
      LastWasSaved(saves[..n], key, record);
      var i :| 0 <= i < n && saves[..n][i].Key() == key && saves[..n][i].record == record;
      assert saves[i].Key() == key;
    }
  }

  lemma WasSavedStill(a: seq<SaveEvent>, b: seq<SaveEvent>, key: PackageKey, record: CompiledPackageRecord)
    requires WasSaved(a, key, record) && a <= b
    ensures WasSaved(b, key, record)
  {
    var i :| 0 <= i < |a| && a[i].Key() == key && a[i].record == record;
    assert b[i] == a[i];
  }

  lemma OneMoreBacked(
    refs: seq<PackageRef>, a: seq<SaveEvent>, b: seq<SaveEvent>, d: Picture, ps: seq<Package>, p: Package,
    record: CompiledPackageRecord)
    requires Backed(refs, a, d, ps) && p in d.labels && a <= b
    requires LastSaved(b, CacheKey(d, p)) == Some(record)
    ensures forall ref: PackageRef | ref.record == record :: Backed(refs + [ref], b, d, ps + [p])
  {
    hide WasSaved, CacheKey, LastSaved;
    LastWasSaved(b, CacheKey(d, p), record);
    forall i | 0 <= i < |ps| ensures WasSaved(b, CacheKey(d, ps[i]), refs[i].record) {
      WasSavedStill(a, b, CacheKey(d, ps[i]), refs[i].record);
    }
  }

  /** Under the key of this package something was saved before, or one of the first i
      packages was compiled. */
  ghost predicate Provided(before: seq<SaveEvent>, d: Picture, packages: seq<Package>, i: nat, q: Package) {
    && i <= |packages| && (forall p | p in packages :: p in d.labels) && q in d.labels
    && (IsSaved(before, d, q) || exists j :: 0 <= j < i && CacheKey(d, packages[j]) == CacheKey(d, q))
  }

  ghost predicate DependenciesProvided(before: seq<SaveEvent>, d: Picture, packages: seq<Package>, k: nat)
    requires k < |packages|
  {
    packages[k] in d.g && forall q | q in d.g[packages[k]] :: Provided(before, d, packages, k, q)
  }

  /** When its turn comes, this package will be ready. Whether it will can be said before. */
  ghost predicate ReadyAt(compiler: Compiler, before: seq<SaveEvent>, d: Picture, packages: seq<Package>, k: nat)
    requires k < |packages|
    reads packages
  {
    || (if compiler == Remote then packages[k].stemcell != "" else Provided(before, d, packages, k, packages[k]))
    || DependenciesProvided(before, d, packages, k)
  }

  ghost predicate AllReady(compiler: Compiler, before: seq<SaveEvent>, d: Picture, packages: seq<Package>, n: nat)
    reads packages
  {
    n <= |packages| && forall k | 0 <= k < n :: ReadyAt(compiler, before, d, packages, k)
  }

  lemma {:induction false} SavedLater(a: seq<SaveEvent>, b: seq<SaveEvent>, d: Picture, p: Package)
    requires a <= b && p in d.labels && IsSaved(a, d, p)
    ensures IsSaved(b, d, p)
    decreases |b|
  {
    if |a| < |b| {
      var n := |b| - 1;
      assert b == b[..n] + [b[n]];
      SavedLater(a, b[..n], d, p);
      SavedStill(b[..n], b[n], d, p);
    } else {
      assert a == b;
    }
  }

  lemma SavedIffProvided(
    before: seq<SaveEvent>, now: seq<SaveEvent>, d: Picture, packages: seq<Package>, k: nat, q: Package)
    requires k <= |packages| && before <= now && SavedByNow(before, now, d, packages[..k])
    requires q in d.labels && forall p | p in packages :: p in d.labels
    ensures IsSaved(now, d, q) <==> Provided(before, d, packages, k, q)
  {
    hide LastSaved, CacheKey;
    if IsSaved(now, d, q) {
      SavedBefore(before, now, d, packages, k, q);
    }
    if Provided(before, d, packages, k, q) {
      if IsSaved(before, d, q) {
        SavedLater(before, now, d, q);
      } else {
        var j :| 0 <= j < k && CacheKey(d, packages[j]) == CacheKey(d, q);
        assert packages[..k][j] == packages[j] && packages[j] in packages[..k];
        SameKeySaved(now, d, packages[j], q);
      }
    }
  }

  lemma SameKeySaved(saves: seq<SaveEvent>, d: Picture, p: Package, q: Package)
    requires p in d.labels && q in d.labels && CacheKey(d, p) == CacheKey(d, q)
    ensures IsSaved(saves, d, p) <==> IsSaved(saves, d, q)
  {}

  lemma ReadyIffReadyAt(
    compiler: Compiler, before: seq<SaveEvent>, now: seq<SaveEvent>, d: Picture, packages: seq<Package>, k: nat)
    requires k < |packages| && before <= now && SavedByNow(before, now, d, packages[..k])
    requires Shows(d) && forall p | p in packages :: p in d.g
    ensures packages[k] in d.labels
    ensures Ready(compiler, now, d, packages[k]) <==> ReadyAt(compiler, before, d, packages, k)
  {
    hide IsSaved, SavedByNow, Provided, CacheKey;
    assert packages[k] in packages && forall p | p in packages :: p in d.labels;
    SavedIffProvided(before, now, d, packages, k, packages[k]);
    forall q | q in d.g[packages[k]] ensures q in d.labels && (IsSaved(now, d, q) <==> Provided(before, d, packages, k, q)) {
      SavedIffProvided(before, now, d, packages, k, q);
    }
  }

  /** Compiling these packages in this order has asked for just this: nothing for a package
      that is in the cache and need not be compiled again; otherwise for what made the record
      that was saved next, for this package. */
  ghost predicate WorkDone(
    compiler: Compiler, before: seq<SaveEvent>, now: seq<SaveEvent>, sent: seq<Exchange>, d: Picture, ps: seq<Package>)
    reads ps
    decreases |ps|
  {
    if ps == [] then now == before && sent == []
    else
      var n := |ps| - 1;
      || (compiler == Local && WorkDone(compiler, before, now, sent, d, ps[..n])
          && ps[n] in d.labels && IsSaved(now, d, ps[n]))
      || (exists i | 0 <= i <= |sent| :: WorkThen(compiler, before, now, sent, i, d, ps))
  }

  /** The last of the packages was compiled with what comes after the first i requests. */
  ghost predicate WorkThen(
    compiler: Compiler, before: seq<SaveEvent>, now: seq<SaveEvent>, sent: seq<Exchange>, i: nat, d: Picture,
    ps: seq<Package>)
    requires ps != [] && i <= |sent|
    reads ps
    decreases |ps|, 0
  {
    var n := |ps| - 1;
    && now != [] && SavedAs(now[..|now| - 1], now, sent[i..], compiler, d, ps[n])
    && WorkDone(compiler, before, now[..|now| - 1], sent[..i], d, ps[..n])
  }

  /** The next save is of what was made for this package. */
  ghost predicate SavedAs(
    a: seq<SaveEvent>, b: seq<SaveEvent>, sent: seq<Exchange>, compiler: Compiler, d: Picture, p: Package)
    reads p
  {
    && |b| == |a| + 1 && p in d.labels
    && b == a + [EventOf(d, p, b[|a|].record)]
    && Made(compiler, sent, a, d, p, b[|a|].record)
  }

  lemma NoWork(compiler: Compiler, saves: seq<SaveEvent>, d: Picture)
    ensures WorkDone(compiler, saves, saves, [], d, [])
  {}

  lemma DoneWithout(
    compiler: Compiler, before: seq<SaveEvent>, now: seq<SaveEvent>, sent: seq<Exchange>, d: Picture, ps: seq<Package>,
    p: Package)
    requires WorkDone(compiler, before, now, sent, d, ps)
    requires compiler == Local && p in d.labels && IsSaved(now, d, p)
    ensures WorkDone(compiler, before, now, sent, d, ps + [p])
  {
    hide IsSaved, WorkThen;
    assert (ps + [p])[..|ps|] == ps;
  }

  lemma DoneWith(
    compiler: Compiler, before: seq<SaveEvent>, now: seq<SaveEvent>, sent: seq<Exchange>, i: nat, d: Picture,
    ps: seq<Package>)
    requires ps != [] && i <= |sent| && WorkThen(compiler, before, now, sent, i, d, ps)
    ensures WorkDone(compiler, before, now, sent, d, ps)
  {
    hide IsSaved, WorkThen;
  }

  lemma WorkFollows(
    compiler: Compiler, before: seq<SaveEvent>, a: seq<SaveEvent>, b: seq<SaveEvent>, sent: seq<Exchange>,
    more: seq<Exchange>, d: Picture, ps: seq<Package>, p: Package)
    requires WorkDone(compiler, before, a, sent, d, ps) && SavedAs(a, b, more, compiler, d, p)
    ensures WorkThen(compiler, before, b, sent + more, |sent|, d, ps + [p])
  {
    hide WorkDone, Made, EventOf;
    assert (ps + [p])[..|ps|] == ps;
    assert (sent + more)[..|sent|] == sent && (sent + more)[|sent|..] == more;
    assert b[..|b| - 1] == a;
  }

  lemma OneMoreDone(
    compiler: Compiler, before: seq<SaveEvent>, a: seq<SaveEvent>, b: seq<SaveEvent>, sent: seq<Exchange>,
    more: seq<Exchange>, d: Picture, ps: seq<Package>, p: Package)
    requires WorkDone(compiler, before, a, sent, d, ps)
    requires
      || (compiler == Local && b == a && more == [] && p in d.labels && IsSaved(b, d, p))
      || SavedAs(a, b, more, compiler, d, p)
    ensures WorkDone(compiler, before, b, sent + more, d, ps + [p])
  {
    hide *;
    if SavedAs(a, b, more, compiler, d, p) {
      WorkFollows(compiler, before, a, b, sent, more, d, ps, p);
      DoneWith(compiler, before, b, sent + more, |sent|, d, ps + [p]);
    } else {
      assert sent + more == sent;
      DoneWithout(compiler, before, a, sent, d, ps, p);
    }
  }

  /** The last package was in the cache, or what was made for it was saved last. */
  lemma LastDone(
    compiler: Compiler, before: seq<SaveEvent>, now: seq<SaveEvent>, sent: seq<Exchange>, d: Picture, ps: seq<Package>)
    returns (m: nat)
    requires WorkDone(compiler, before, now, sent, d, ps) && ps != []
    ensures m <= |sent|
    ensures WorkDone(compiler, before, now, sent, d, ps[..|ps| - 1]) || WorkThen(compiler, before, now, sent, m, d, ps)
  {
    hide IsSaved, WorkThen;
    m := 0;
    if !WorkDone(compiler, before, now, sent, d, ps[..|ps| - 1]) {
      m :| 0 <= m <= |sent| && WorkThen(compiler, before, now, sent, m, d, ps);
    }
  }

  lemma LastThen(
    compiler: Compiler, before: seq<SaveEvent>, now: seq<SaveEvent>, sent: seq<Exchange>, m: nat, d: Picture,
    ps: seq<Package>)
    requires ps != [] && m <= |sent| && WorkThen(compiler, before, now, sent, m, d, ps)
    ensures now != [] && SavedAs(now[..|now| - 1], now, sent[m..], compiler, d, ps[|ps| - 1])
    ensures WorkDone(compiler, before, now[..|now| - 1], sent[..m], d, ps[..|ps| - 1])
  {
    hide WorkDone, SavedAs;
  }

  lemma NothingDone(compiler: Compiler, before: seq<SaveEvent>, now: seq<SaveEvent>, sent: seq<Exchange>, d: Picture)
    requires WorkDone(compiler, before, now, sent, d, [])
    ensures now == before && sent == []
  {}

  /** What that means for each save: it is of what was made for one of the packages, by some
      of the requests. */
  lemma {:induction false} EachSaveWasMade(
    compiler: Compiler, before: seq<SaveEvent>, now: seq<SaveEvent>, sent: seq<Exchange>, d: Picture, ps: seq<Package>,
    k: nat)
    returns (p: Package, i: nat, j: nat)
    requires WorkDone(compiler, before, now, sent, d, ps) && |before| <= k < |now|
    ensures p in ps && i <= j <= |sent| && SavedAs(now[..k], now[..k + 1], sent[i..j], compiler, d, p)
    decreases |ps|
  {
    hide *;
    if ps == [] {
      NothingDone(compiler, before, now, sent, d);
    }
    var n := |ps| - 1;
    var m := LastDone(compiler, before, now, sent, d, ps);
    if WorkDone(compiler, before, now, sent, d, ps[..n]) {
      p, i, j := EachSaveWasMade(compiler, before, now, sent, d, ps[..n], k);
    } else {
      LastThen(compiler, before, now, sent, m, d, ps);
      if k == |now| - 1 {
        p, i, j := ps[n], m, |sent|;
        assert now[..k + 1] == now && sent[i..j] == sent[m..];
      } else {
        p, i, j := EachSaveWasMade(compiler, before, now[..|now| - 1], sent[..m], d, ps[..n], k);
        assert sent[..m][i..j] == sent[i..j];
        assert now[..|now| - 1][..k] == now[..k] && now[..|now| - 1][..k + 1] == now[..k + 1];
      }
    }
  }

  /** The first of the packages have been compiled, with the first of the requests. */
  ghost predicate WorkBegun(
    compiler: Compiler, before: seq<SaveEvent>, now: seq<SaveEvent>, sent: seq<Exchange>, d: Picture, ps: seq<Package>)
    reads ps
  {
    exists n, i | 0 <= n <= |ps| && 0 <= i <= |sent| :: WorkDone(compiler, before, now, sent[..i], d, ps[..n])
  }

  lemma BegunWith(
    compiler: Compiler, before: seq<SaveEvent>, now: seq<SaveEvent>, sent: seq<Exchange>, more: seq<Exchange>,
    d: Picture, ps: seq<Package>, n: nat)
    requires n <= |ps| && WorkDone(compiler, before, now, sent, d, ps[..n])
    ensures WorkBegun(compiler, before, now, sent + more, d, ps)
  {
    assert (sent + more)[..|sent|] == sent;
  }

  /** Compiles the packages in this order. Success gives one reference for each position,
      skipped or not, and if no request fails it comes exactly when every package will be
      ready at its turn. A dependency that is lacking is none of the packages before. */
  method CompilePackages(
    compiler: Compiler, repo: CompiledPackageRepo, service: Service, packages: seq<Package>, ghost d: Picture)
    returns (r: Refs)
    requires repo.Valid() && Shows(d) && forall p | p in packages :: p in d.g
    modifies repo, repo.index, service
    ensures repo.Valid()
    ensures r.Refs? ==> CompiledAll(compiler, old(repo.saves), repo.saves, r.refs, d, packages)
    ensures r.LacksDependency? ==>
      && r.at < |packages|
      && r.dependency in d.g[packages[r.at]]
      && r.dependency !in packages[..r.at]
      && !ReadyAt(compiler, old(repo.saves), d, packages, r.at)
    ensures old(Failures(repo, service)) <= Failures(repo, service)
    ensures r.Stopped? ==> old(Failures(repo, service)) < Failures(repo, service)
    ensures old(service.log) <= service.log
    ensures r.Refs? ==> WorkDone(compiler, old(repo.saves), repo.saves, Since(old(service.log), service.log), d, packages)
    ensures WorkBegun(compiler, old(repo.saves), repo.saves, Since(old(service.log), service.log), d, packages)
  {
    hide *;
    ghost var before, log := repo.saves, service.log;
    var refs: seq<PackageRef> := [];
    NothingCompiled(compiler, before, d, packages);
    NoWork(compiler, before, d);
    NothingSince(log);
    assert packages[..0] == [];
    for i := 0 to |packages|
      invariant repo.Valid() && Shows(d)
      invariant CompiledSoFar(compiler, before, repo.saves, refs, d, packages, i)
      invariant old(Failures(repo, service)) <= Failures(repo, service)
      invariant log <= service.log
      invariant WorkDone(compiler, before, repo.saves, Since(log, service.log), d, packages[..i])
    {
      var p := packages[i];
      assert p in packages;
      ghost var a, asked := repo.saves, service.log;
      SoFarReady(compiler, before, a, refs, d, packages, i);
      var c := Compile(compiler, repo, service, p, d);
      SinceThen(log, asked, service.log);
      if !c.Compiled? {
        BegunWith(compiler, before, a, Since(log, asked), Since(asked, service.log), d, packages, i);
      }
      match c {
        case Compiled(record, already) =>
          OneMoreCompiled(compiler, before, a, repo.saves, refs, d, packages, i, record);
          CompiledAs(compiler, a, repo.saves, asked, service.log, d, p, record);
          OneMoreDone(compiler, before, a, repo.saves, Since(log, asked), Since(asked, service.log), d, packages[..i], p);
          assert packages[..i + 1] == packages[..i] + [p];
          refs := refs + [PackageRef(p.name, p.fingerprint, record)];
        case NotCompiled(q) =>
          NotAmongSaved(compiler, before, a, refs, d, packages, i, q);
          return LacksDependency(i, q);
        case CompilationFailed =>
          return Stopped;
      }
    }
    AllCompiled(compiler, before, repo.saves, refs, d, packages);
    BegunWith(compiler, before, repo.saves, Since(log, service.log), [], d, packages, |packages|);
    assert packages[..|packages|] == packages && Since(log, service.log) + [] == Since(log, service.log);
    return Refs(refs);
  }

  /** One call of a compiler, as the list of packages needs it. */
  lemma CompiledAs(
    compiler: Compiler, a: seq<SaveEvent>, b: seq<SaveEvent>, asked: seq<Exchange>, log: seq<Exchange>, d: Picture,
    p: Package, record: CompiledPackageRecord)
    requires p in d.labels && asked <= log
    requires b == a || b == a + [EventOf(d, p, record)]
    requires LastSaved(b, CacheKey(d, p)) == Some(record)
    requires compiler == Remote ==> b != a
    requires if b == a then log == asked else Made(compiler, Since(asked, log), a, d, p, record)
    ensures
      || (compiler == Local && b == a && Since(asked, log) == [] && IsSaved(b, d, p))
      || SavedAs(a, b, Since(asked, log), compiler, d, p)
  {
    hide Made, LastSaved, CacheKey;
  }

  /** No more saves than packages; on the VM there is one for each of them. */
  ghost predicate SavedOnceEach(compiler: Compiler, before: seq<SaveEvent>, now: seq<SaveEvent>, n: nat) {
    && before <= now && |now| <= |before| + n
    && (compiler == Remote ==> |now| == |before| + n)
  }

  /** All of these packages are compiled: one reference for each position, to what was saved
      for that package; nothing else was saved; and every package was ready at its turn. */
  ghost predicate CompiledAll(
    compiler: Compiler, before: seq<SaveEvent>, now: seq<SaveEvent>, refs: seq<PackageRef>, d: Picture,
    packages: seq<Package>)
    reads packages
  {
    && ReferTo(refs, packages) && Backed(refs, now, d, packages)
    && SavedOnceEach(compiler, before, now, |packages|)
    && SavedByNow(before, now, d, packages)
    && AllReady(compiler, before, d, packages, |packages|)
  }

  ghost predicate CompiledSoFar(
    compiler: Compiler, before: seq<SaveEvent>, now: seq<SaveEvent>, refs: seq<PackageRef>, d: Picture,
    packages: seq<Package>, i: nat)
    reads packages
  {
    && i <= |packages|
    && ReferTo(refs, packages[..i]) && Backed(refs, now, d, packages[..i])
    && SavedOnceEach(compiler, before, now, i)
    && SavedByNow(before, now, d, packages[..i])
    && AllReady(compiler, before, d, packages, i)
  }

  lemma OneMoreReferredTo(refs: seq<PackageRef>, ps: seq<Package>, p: Package)
    requires ReferTo(refs, ps)
    ensures forall record :: ReferTo(refs + [PackageRef(p.name, p.fingerprint, record)], ps + [p])
  {}

  lemma NothingCompiled(compiler: Compiler, saves: seq<SaveEvent>, d: Picture, packages: seq<Package>)
    requires forall p | p in packages :: p in d.g
    ensures CompiledSoFar(compiler, saves, saves, [], d, packages, 0)
  {}

  lemma OneMoreCompiled(
    compiler: Compiler, before: seq<SaveEvent>, a: seq<SaveEvent>, b: seq<SaveEvent>, refs: seq<PackageRef>,
    d: Picture, packages: seq<Package>, i: nat, record: CompiledPackageRecord)
    requires i < |packages| && CompiledSoFar(compiler, before, a, refs, d, packages, i) && Shows(d)
    requires packages[i] in d.g
    requires b == a || b == a + [EventOf(d, packages[i], record)]
    requires LastSaved(b, CacheKey(d, packages[i])) == Some(record)
    requires compiler == Remote ==> b != a
    requires ReadyAt(compiler, before, d, packages, i)
    ensures CompiledSoFar(compiler, before, b,
      refs + [PackageRef(packages[i].name, packages[i].fingerprint, record)], d, packages, i + 1)
  {
    hide LastSaved, CacheKey, IsSaved, SavedByNow, ReadyAt, ReferTo, Depicts, Backed;
    assert packages[..i + 1] == packages[..i] + [packages[i]];
    LastSavedIsSaved(b, d, packages[i]);
    OneMoreReferredTo(refs, packages[..i], packages[i]);
    OneMoreSaved(before, a, b, d, packages[..i], packages[i], record);
    OneMoreBacked(refs, a, b, d, packages[..i], packages[i], record);
  }

  lemma SoFarReady(
    compiler: Compiler, before: seq<SaveEvent>, now: seq<SaveEvent>, refs: seq<PackageRef>, d: Picture,
    packages: seq<Package>, i: nat)
    requires i < |packages| && CompiledSoFar(compiler, before, now, refs, d, packages, i)
    requires Shows(d) && forall p | p in packages :: p in d.g
    ensures packages[i] in d.labels
    ensures Ready(compiler, now, d, packages[i]) <==> ReadyAt(compiler, before, d, packages, i)
  {
    hide Ready, ReadyAt, SavedByNow;
    ReadyIffReadyAt(compiler, before, now, d, packages, i);
  }

  lemma AllCompiled(
    compiler: Compiler, before: seq<SaveEvent>, now: seq<SaveEvent>, refs: seq<PackageRef>, d: Picture,
    packages: seq<Package>)
    requires CompiledSoFar(compiler, before, now, refs, d, packages, |packages|)
    ensures CompiledAll(compiler, before, now, refs, d, packages)
  {
    assert packages[..|packages|] == packages;
  }

  lemma LastSavedIsSaved(saves: seq<SaveEvent>, d: Picture, p: Package)
    requires p in d.labels && LastSaved(saves, CacheKey(d, p)).Some?
    ensures IsSaved(saves, d, p)
  {}

  lemma SavedBefore(before: seq<SaveEvent>, now: seq<SaveEvent>, d: Picture, packages: seq<Package>, i: nat, q: Package)
    requires i <= |packages| && SavedByNow(before, now, d, packages[..i]) && q in d.labels && IsSaved(now, d, q)
    requires forall p | p in packages :: p in d.labels
    ensures IsSaved(before, d, q) || exists j :: 0 <= j < i && CacheKey(d, packages[j]) == CacheKey(d, q)
  {
    hide CacheKey, IsSaved;
    if !IsSaved(before, d, q) {
      var k :| 0 <= k < i && CacheKey(d, packages[..i][k]) == CacheKey(d, q);
      assert packages[..i][k] == packages[k];
    }
  }

  lemma NotAmongSaved(
    compiler: Compiler, before: seq<SaveEvent>, now: seq<SaveEvent>, refs: seq<PackageRef>, d: Picture,
    packages: seq<Package>, i: nat, q: Package)
    requires CompiledSoFar(compiler, before, now, refs, d, packages, i) && q in d.labels && !IsSaved(now, d, q)
    ensures q !in packages[..i]
  {}
}

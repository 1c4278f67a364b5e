/** release/reader.go and release/pkg/package_repo.go: the package graph of a release, built
    from the names in its manifest. */
module Readers {
  import opened Wrappers
  import opened Graphs
  import opened Packages
  import opened DependencyResolution
  import opened JobDependencies
  import opened Services

  datatype ManifestPackage = ManifestPackage(
    name: string, fingerprint: string, sha1: string, stemcell: string, dependencies: seq<string>)

  datatype Manifest = Manifest(packages: seq<ManifestPackage>, compiledPackages: seq<ManifestPackage>)

  /** What a package object holds, with its dependencies by name. */
  datatype Content = Content(fingerprint: string, sha1: string, stemcell: string, dependencies: seq<string>)

  const BLANK := Content("", "", "", [])

  type Contents = map<string, Content>

  ghost function NamesOf(ps: seq<Package>): (r: seq<string>)
    ensures |r| == |ps| && forall i | 0 <= i < |r| :: r[i] == ps[i].name
  {
    if ps == [] then [] else NamesOf(ps[..|ps| - 1]) + [ps[|ps| - 1].name]
  }

  ghost predicate Known(p: Package, repo: map<string, Package>) {
    p.name in repo && repo[p.name] == p
  }

  /** The object has this name and these contents, and leads to objects that are known. */
  ghost predicate Has(p: Package, name: string, c: Content, repo: map<string, Package>)
    reads p
  {
    && p.name == name
    && Content(p.fingerprint, p.sha1, p.stemcell, NamesOf(p.dependencies)) == c
    && forall q | q in p.dependencies :: Known(q, repo)
  }

  /** Name and object are one: every object is known under its own name only. */
  ghost predicate Holds(repo: map<string, Package>, c: Contents)
    reads repo.Values
  {
    && repo.Keys == c.Keys
    && forall n | n in repo :: Has(repo[n], n, c[n], repo)
  }

  ghost function WithObject(c: Contents, name: string): Contents {
    if name in c then c else c[name := BLANK]
  }

  /** The objects known before are still known under their names. */
  ghost predicate Extends(later: map<string, Package>, repo: map<string, Package>) {
    forall n | n in repo :: n in later && later[n] == repo[n]
  }

  lemma StillHas(p: Package, name: string, c: Content, repo: map<string, Package>, later: map<string, Package>)
    requires Has(p, name, c, repo) && Extends(later, repo)
    ensures Has(p, name, c, later)
  {}

  class PackageRepo {
    var repo: map<string, Package>

    constructor ()
      ensures repo == map[]
    {
      repo := map[];
    }

    method FindOrCreatePackage(name: string, ghost c: Contents) returns (p: Package)
      requires Holds(repo, c)
      modifies this
      ensures Holds(repo, WithObject(c, name)) && Extends(repo, old(repo))
      ensures p.name == name && Known(p, repo)
      ensures forall n | n in repo && n !in old(repo) :: fresh(repo[n])
    {
      if name in repo {
        return repo[name];
      }
      p := new Package(name);
      ghost var before := repo;
      repo := repo[name := p];
      forall n | n in before ensures Has(repo[n], n, c[n], repo) {
        StillHas(repo[n], n, c[n], before, repo);
      }
    }
  }

  method SetDependencies(p: Package, dependencies: seq<Package>, ghost repo: map<string, Package>, ghost c: Contents)
    requires Holds(repo, c) && Known(p, repo) && forall q | q in dependencies :: Known(q, repo)
    modifies p`dependencies
    ensures p.dependencies == dependencies
    ensures p.name in c && Holds(repo, c[p.name := c[p.name].(dependencies := NamesOf(dependencies))])
  {
    hide NamesOf;
    p.dependencies := dependencies;
  }

  /** These contents with an object for each of the names, the named one leading to all of
      them. */
  ghost function Linked(c: Contents, name: string, names: seq<string>): Contents
    requires name in c
  {
    map n | n in c.Keys + (set d | d in names) ::
      if n == name then c[n].(dependencies := names) else if n in c then c[n] else BLANK
  }

  lemma NothingLinked(c: Contents, name: string)
    requires name in c
    ensures Linked(c, name, []) == c[name := c[name].(dependencies := [])]
  {}

  lemma OneMoreLinked(c: Contents, name: string, names: seq<string>, d: string)
    requires name in c
    ensures var l := WithObject(Linked(c, name, names), d);
      name in l && Linked(c, name, names + [d]) == l[name := l[name].(dependencies := names + [d])]
  {}

  /** The dependencies by name; a name that comes up for the first time gets an object that
      an entry further down may fill. */
  method LinkDependencies(packageRepo: PackageRepo, p: Package, names: seq<string>, ghost c: Contents)
    requires Holds(packageRepo.repo, c) && Known(p, packageRepo.repo) && p.name in c
    modifies packageRepo, p`dependencies
    ensures Holds(packageRepo.repo, Linked(c, p.name, names)) && Extends(packageRepo.repo, old(packageRepo.repo))
    ensures forall n | n in packageRepo.repo && n !in old(packageRepo.repo) :: fresh(packageRepo.repo[n])
  {
    hide Holds, Linked, WithObject, NamesOf;
    ghost var before := packageRepo.repo;
    SetDependencies(p, [], packageRepo.repo, c);
    NothingLinked(c, p.name);
    for i := 0 to |names|
      invariant Extends(packageRepo.repo, before)
      invariant forall n | n in packageRepo.repo && n !in before :: fresh(packageRepo.repo[n])
      invariant Holds(packageRepo.repo, Linked(c, p.name, names[..i]))
      invariant NamesOf(p.dependencies) == names[..i]
      invariant forall q | q in p.dependencies :: Known(q, packageRepo.repo)
    {
      ghost var linked := Linked(c, p.name, names[..i]);
      var q := packageRepo.FindOrCreatePackage(names[i], linked);
      assert names[..i + 1] == names[..i] + [names[i]];
      NamesOfMore(p.dependencies, q);
      OneMoreLinked(c, p.name, names[..i], names[i]);
      SetDependencies(p, p.dependencies + [q], packageRepo.repo, WithObject(linked, names[i]));
    }
    assert names[..|names|] == names;
  }

  lemma NamesOfMore(ps: seq<Package>, q: Package)
    ensures NamesOf(ps + [q]) == NamesOf(ps) + [q.name]
  {
    assert (ps + [q])[..|ps|] == ps;
  }

  // ----- Entry by entry -----

  function StemcellOf(m: ManifestPackage, compiled: bool): string {
    if compiled then m.stemcell else ""
  }

  /** For each name among the first i entries, the last of them that has it. */
  ghost predicate IsLast(ms: seq<ManifestPackage>, i: nat, last: map<string, nat>) {
    && i <= |ms|
    && (forall k | 0 <= k < i :: ms[k].name in last && k <= last[ms[k].name])
    && (forall n | n in last :: last[n] < i && ms[last[n]].name == n)
  }

  /** The first i entries have been read. Of entries with the same name the last one counts;
      a name that only occurs as a dependency stands for an object that leads nowhere. */
  ghost predicate Read(ms: seq<ManifestPackage>, i: nat, compiled: bool, c: Contents, last: map<string, nat>) {
    && IsLast(ms, i, last)
    && (forall n | n in last ::
          var m := ms[last[n]];
          n in c && c[n] == Content(m.fingerprint, m.sha1, StemcellOf(m, compiled), m.dependencies))
    && (forall n | n in c && n !in last :: c[n] == BLANK)
  }

  lemma NothingRead(ms: seq<ManifestPackage>, compiled: bool)
    ensures Holds(map[], map[]) && Read(ms, 0, compiled, map[], map[])
  {}

  ghost function FilledIn(c: Content, m: ManifestPackage, compiled: bool): Content {
    Content(m.fingerprint, m.sha1, if compiled then m.stemcell else c.stemcell, c.dependencies)
  }

  ghost function Entered(c: Contents, m: ManifestPackage, compiled: bool): Contents {
    var with := WithObject(c, m.name);
    Linked(with[m.name := FilledIn(with[m.name], m, compiled)], m.name, m.dependencies)
  }

  lemma OneMoreRead(ms: seq<ManifestPackage>, i: nat, compiled: bool, c: Contents, last: map<string, nat>)
    requires i < |ms| && Read(ms, i, compiled, c, last)
    ensures Read(ms, i + 1, compiled, Entered(c, ms[i], compiled), last[ms[i].name := i])
  {}

  method Fill(p: Package, m: ManifestPackage, compiled: bool, ghost repo: map<string, Package>, ghost c: Contents)
    requires Holds(repo, c) && Known(p, repo)
    modifies p`fingerprint, p`sha1, p`stemcell
    ensures p.name in c && Holds(repo, c[p.name := FilledIn(c[p.name], m, compiled)])
  {
    hide NamesOf;
    p.fingerprint := m.fingerprint;
    p.sha1 := m.sha1;
    if compiled {
      p.stemcell := m.stemcell;
    }
  }

  method ReadEntry(packageRepo: PackageRepo, m: ManifestPackage, compiled: bool, ghost c: Contents)
    returns (p: Package)
    requires Holds(packageRepo.repo, c)
    modifies packageRepo, packageRepo.repo.Values
    ensures p.name == m.name && Known(p, packageRepo.repo)
    ensures Holds(packageRepo.repo, Entered(c, m, compiled)) && Extends(packageRepo.repo, old(packageRepo.repo))
    ensures forall n | n in packageRepo.repo && n !in old(packageRepo.repo) :: fresh(packageRepo.repo[n])
  {
    hide Holds, Linked, FilledIn;
    p := packageRepo.FindOrCreatePackage(m.name, c);
    ghost var with := WithObject(c, m.name);
    Fill(p, m, compiled, packageRepo.repo, with);
    LinkDependencies(packageRepo, p, m.dependencies, with[m.name := FilledIn(with[m.name], m, compiled)]);
  }

  // ----- The whole manifest -----

  /** The list that counts: a release has either source packages or compiled ones. */
  function EntriesOf(manifest: Manifest): seq<ManifestPackage> {
    if |manifest.compiledPackages| > 0 then manifest.compiledPackages else manifest.packages
  }

  /** The packages that these entries are about, in their order. */
  ghost predicate AreFor(ps: seq<Package>, ms: seq<ManifestPackage>, repo: map<string, Package>) {
    && |ps| == |ms|
    && forall i | 0 <= i < |ps| :: ps[i].name == ms[i].name && Known(ps[i], repo)
  }


  ghost function GraphOf(repo: map<string, Package>): Graph<Package>
    reads repo.Values
  {
    map p | p in repo.Values :: p.dependencies
  }

  lemma HeldGraph(repo: map<string, Package>, c: Contents)
    requires Holds(repo, c)
    ensures Depicts(GraphOf(repo)) && NamesIdentify(GraphOf(repo))
  {
    forall p, d | p in repo.Values && d in p.dependencies ensures d in repo.Values {
      assert Has(repo[p.name], p.name, c[p.name], repo);
      assert repo[d.name] in repo.Values;
    }
  }

  function DirectoryOf(compiled: bool): string {
    if compiled then "compiled_packages" else "packages"
  }

  /** For each entry, in their order, its archive was to be extracted. */
  ghost predicate AreExtractions(sent: seq<Exchange>, ms: seq<ManifestPackage>, compiled: bool) {
    && |sent| == |ms|
    && forall i | 0 <= i < |ms| :: sent[i].request == ExtractArchive(DirectoryOf(compiled), ms[i].name)
  }

  lemma OneMoreExtraction(sent: seq<Exchange>, ms: seq<ManifestPackage>, i: nat, compiled: bool, answer: Answer)
    requires i < |ms| && AreExtractions(sent, ms[..i], compiled)
    ensures AreExtractions(sent + [Exchange(ExtractArchive(DirectoryOf(compiled), ms[i].name), answer)], ms[..i + 1], compiled)
  {}

  lemma NoExtraction(log: seq<Exchange>, compiled: bool)
    ensures AreExtractions(Since(log, log), [], compiled)
  {}

  lemma SinceOneMore(before: seq<Exchange>, now: seq<Exchange>, exchange: Exchange)
    requires before <= now
    ensures Since(before, now + [exchange]) == Since(before, now) + [exchange]
  {}

  /** Builds the graph, unless the manifest has both kinds of packages or an archive cannot
      be extracted. After success names identify packages, every object holds what the last
      entry of its name says, its dependencies are the objects with the listed names, and what
      is not in the manifest leads nowhere. */
  method NewPackagesFromManifestPackages(manifest: Manifest, service: Service)
    returns (r: Option<seq<Package>>, isCompiled: bool, ghost repo: map<string, Package>, ghost c: Contents, ghost last: map<string, nat>)
    modifies service
    ensures |manifest.packages| > 0 && |manifest.compiledPackages| > 0 ==> service.log == old(service.log)
    ensures |manifest.packages| == 0 || |manifest.compiledPackages| == 0 ==>
      old(service.log) <= service.log && AreExtractions(Since(old(service.log), service.log), EntriesOf(manifest), isCompiled)
    ensures r.None? <==>
      || (|manifest.packages| > 0 && |manifest.compiledPackages| > 0)
      || old(service.failures) < service.failures
    ensures r.Some? ==>
      && service.failures == old(service.failures)
      && isCompiled == (|manifest.compiledPackages| > 0)
      && Holds(repo, c) && Read(EntriesOf(manifest), |EntriesOf(manifest)|, isCompiled, c, last)
      && AreFor(r.value, EntriesOf(manifest), repo)
      && Depicts(GraphOf(repo)) && NamesIdentify(GraphOf(repo))
  {
    hide Holds, Read, AreFor, Entered, WithObject, AreExtractions, Since;
    var ms := manifest.packages;
    isCompiled, repo, c, last := false, map[], map[], map[];
    if |manifest.packages| > 0 && |manifest.compiledPackages| > 0 {
      return None, false, map[], map[], map[];
    } else if |manifest.compiledPackages| > 0 {
      ms := manifest.compiledPackages;
      isCompiled := true;
    }
    var packages: seq<Package> := [];
    var errors := 0;
    var packageRepo := new PackageRepo();
    NothingRead(ms, isCompiled);
    ForNothing();
    NoExtraction(service.log, isCompiled);
    assert ms[..0] == [];
    for i := 0 to |ms|
      invariant fresh(packageRepo) && forall n | n in packageRepo.repo :: fresh(packageRepo.repo[n])
      invariant Holds(packageRepo.repo, c)
      invariant service.failures == old(service.failures) + errors
      invariant old(service.log) <= service.log && AreExtractions(Since(old(service.log), service.log), ms[..i], isCompiled)
      invariant errors == 0 ==> Read(ms, i, isCompiled, c, last)
      invariant errors == 0 ==> AreFor(packages, ms[..i], packageRepo.repo)
    {
      ghost var log := service.log;
      var extracted := service.Ask(ExtractArchive(DirectoryOf(isCompiled), ms[i].name));
      OneMoreExtraction(Since(old(service.log), log), ms, i, isCompiled, extracted);
      SinceOneMore(old(service.log), log, Exchange(ExtractArchive(DirectoryOf(isCompiled), ms[i].name), extracted));
      if extracted.Failed? {
        var _ := packageRepo.FindOrCreatePackage(ms[i].name, c);
        c := WithObject(c, ms[i].name);
        errors := errors + 1;
      } else {
        ghost var before := packageRepo.repo;
        var p := ReadEntry(packageRepo, ms[i], isCompiled, c);
        if errors == 0 {
          OneMoreRead(ms, i, isCompiled, c, last);
          ForOneMore(packages, ms, i, before, packageRepo.repo, p);
        }
        c := Entered(c, ms[i], isCompiled);
        last := last[ms[i].name := i];
        packages := packages + [p];
      }
    }
    assert ms[..|ms|] == ms;
    if errors > 0 {
      return None, isCompiled, map[], map[], map[];
    }
    repo := packageRepo.repo;
    HeldGraph(repo, c);
    return Some(packages), isCompiled, repo, c, last;
  }

  lemma ForNothing()
    ensures AreFor([], [], map[])
  {}

  lemma ForOneMore(ps: seq<Package>, ms: seq<ManifestPackage>, i: nat, repo: map<string, Package>, later: map<string, Package>, p: Package)
    requires i < |ms| && AreFor(ps, ms[..i], repo) && Extends(later, repo)
    requires p.name == ms[i].name && Known(p, later)
    ensures AreFor(ps + [p], ms[..i + 1], later)
  {}
}

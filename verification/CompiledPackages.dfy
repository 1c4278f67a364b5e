/** state/pkg/compiled_package_repo.go: the cache of compiled packages. */
module CompiledPackages {
  import opened Wrappers
  import opened Collections
  import opened Graphs
  import opened Packages
  import opened DependencyResolution
  import opened CacheKeys
  import opened Indexes

  /** The packages of some releases as they are now: what they depend on, and their labels. */
  datatype Picture = Picture(g: Graph<Package>, labels: map<Package, Label>)

  ghost predicate Shows(d: Picture)
    reads d.g.Keys
  {
    && Depicts(d.g)
    && d.labels.Keys == d.g.Keys
    && forall p | p in d.g :: d.labels[p] == Label(p.name, p.fingerprint)
  }

  ghost function Reached(g: Graph<Package>, p: Package): set<Package> {
    set q | q in g && Reaches(g, p, q)
  }

  ghost function Enumerate<T>(s: set<T>): (r: seq<T>)
    ensures Distinct(r) && forall x | x in r :: x in s
    ensures forall x | x in s :: x in r
  {
    if s == {} then []
    else
      var x :| x in s;
      [x] + Enumerate(s - {x})
  }

  ghost function LabelIn(labels: map<Package, Label>): Package -> Label {
    p => if p in labels then labels[p] else Label("", "")
  }

  ghost function LabelsOf(d: Picture, ps: seq<Package>): seq<Label> {
    Map(LabelIn(d.labels), ps)
  }

  /** The labels of everything the package reaches, each as often as a package has it. */
  ghost function Dependencies(d: Picture, p: Package): multiset<Label> {
    multiset(LabelsOf(d, Enumerate(Reached(d.g, p))))
  }

  /** The key of a package, in terms of what it reaches. A package on a cycle reaches itself. */
  ghost function CacheKey(d: Picture, p: Package): PackageKey
    requires p in d.labels
  {
    PackageKey(d.labels[p].name, d.labels[p].fingerprint,
               DependencyKey(LabelsOf(d, Enumerate(Reached(d.g, p)))))
  }

  lemma {:induction false} DistinctCount<T>(xs: seq<T>, x: T)
    requires Distinct(xs)
    ensures multiset(xs)[x] == if x in xs then 1 else 0
  {
    if xs != [] {
      var n := |xs| - 1;
      assert xs == xs[..n] + [xs[n]];
      DistinctCount(xs[..n], x);
    }
  }

  lemma SameElements<T>(xs: seq<T>, ys: seq<T>)
    requires Distinct(xs) && Distinct(ys)
    requires forall x :: x in xs <==> x in ys
    ensures multiset(xs) == multiset(ys)
  {
    forall x ensures multiset(xs)[x] == multiset(ys)[x] {
      DistinctCount(xs, x);
      DistinctCount(ys, x);
    }
  }

  /** The key does not depend on the order in which the dependencies are found. */
  lemma AnyEnumeration(d: Picture, p: Package, ps: seq<Package>)
    requires Distinct(ps) && forall q :: q in ps <==> q in Reached(d.g, p)
    ensures DependencyKey(LabelsOf(d, ps)) == DependencyKey(LabelsOf(d, Enumerate(Reached(d.g, p))))
  {
    var qs := Enumerate(Reached(d.g, p));
    SameElements(ps, qs);
    SameMapped(LabelIn(d.labels), ps, qs);
    OrderDoesNotMatter(LabelsOf(d, ps), LabelsOf(d, qs));
  }

  /** Cache soundness: for plain labels two packages, of whatever releases, have the same
      key exactly when they have the same name, the same fingerprint and dependencies with
      the same labels. */
  lemma SameKeyIffSameContents(d: Picture, p: Package, e: Picture, q: Package)
    requires p in d.labels && q in e.labels
    requires forall l | l in Dependencies(d, p) :: Plain(l)
    requires forall l | l in Dependencies(e, q) :: Plain(l)
    ensures CacheKey(d, p) == CacheKey(e, q) <==>
            d.labels[p] == e.labels[q] && Dependencies(d, p) == Dependencies(e, q)
  {
    var a, b := LabelsOf(d, Enumerate(Reached(d.g, p))), LabelsOf(e, Enumerate(Reached(e.g, q)));
    assert forall l | l in a :: l in multiset(a);
    assert forall l | l in b :: l in multiset(b);
    KeyTellsLabels(a, b);
  }

  /** The same packages with the same dependencies, in any order and repeated or not. */
  ghost predicate SameDependencies(g: Graph<Package>, h: Graph<Package>) {
    && g.Keys == h.Keys
    && forall p | p in g :: (forall q | q in g[p] :: q in h[p]) && (forall q | q in h[p] :: q in g[p])
  }

  lemma {:induction false} ReachesInBoth(g: Graph<Package>, h: Graph<Package>, p: Package, path: seq<nat>)
    requires SameDependencies(g, h) && path != [] && Follow(g, p, path).Some?
    ensures Reaches(h, p, Follow(g, p, path).value)
    decreases |path|
  {
    var q := g[p][path[0]];
    assert q in g[p];
    EdgeReaches(h, p, q);
    if path[1..] != [] {
      ReachesInBoth(g, h, q, path[1..]);
      ReachesTransitive(h, p, q, Follow(g, p, path).value);
    }
  }

  /** Cache stability: reordering or repeating dependencies does not change any key. */
  lemma ReorderingKeepsKeys(d: Picture, e: Picture, p: Package)
    requires SameDependencies(d.g, e.g) && d.labels == e.labels && p in d.labels
    ensures CacheKey(d, p) == CacheKey(e, p)
  {
    forall q | Reaches(d.g, p, q) ensures Reaches(e.g, p, q) {
      var path :| path != [] && Follow(d.g, p, path) == Some(q);
      ReachesInBoth(d.g, e.g, p, path);
    }
    forall q | Reaches(e.g, p, q) ensures Reaches(d.g, p, q) {
      var path :| path != [] && Follow(e.g, p, path) == Some(q);
      ReachesInBoth(e.g, d.g, p, path);
    }
    assert Reached(d.g, p) == Reached(e.g, p);
  }

  // ----- A package passed by value is another package -----

  lemma {:induction false} FollowInLarger(g: Graph<Package>, copy: Package, deps: seq<Package>, p: Package, path: seq<nat>)
    requires copy !in g && p in g && forall x | x in g :: forall y | y in g[x] :: y in g
    ensures Follow(g[copy := deps], p, path) == Follow(g, p, path)
    ensures Follow(g, p, path).Some? ==> Follow(g, p, path).value in g
    decreases |path|
  {
    if path != [] && path[0] < |g[p]| {
      assert g[p][path[0]] in g[p];
      FollowInLarger(g, copy, deps, g[p][path[0]], path[1..]);
    }
  }

  lemma CopyPath(g: Graph<Package>, p: Package, copy: Package, path: seq<nat>)
    requires copy !in g && p in g && forall x | x in g :: forall y | y in g[x] :: y in g
    requires path != []
    ensures Follow(g[copy := g[p]], copy, path) == Follow(g, p, path)
    ensures Follow(g, p, path).Some? ==> Follow(g, p, path).value in g
  {
    if path[0] < |g[p]| {
      assert g[p][path[0]] in g[p];
      FollowInLarger(g, copy, g[p], g[p][path[0]], path[1..]);
    }
  }

  lemma CopyReaches(g: Graph<Package>, p: Package, copy: Package, q: Package)
    requires copy !in g && p in g && forall x | x in g :: forall y | y in g[x] :: y in g
    ensures Reaches(g[copy := g[p]], copy, q) <==> Reaches(g, p, q)
    ensures Reaches(g, p, q) ==> q in g
  {
    if Reaches(g[copy := g[p]], copy, q) {
      var path :| path != [] && Follow(g[copy := g[p]], copy, path) == Some(q);
      CopyPath(g, p, copy, path);
    }
    if Reaches(g, p, q) {
      var path :| path != [] && Follow(g, p, path) == Some(q);
      CopyPath(g, p, copy, path);
    }
  }

  /** The dependency resolution gets the address of the copy, which is not among the
      packages: on a cycle the package itself stays among its dependencies. */
  method PkgKey(p: Package, ghost d: Picture) returns (key: PackageKey)
    requires Shows(d) && p in d.g
    ensures key == CacheKey(d, p)
  {
    var copy := new Package(p.name);
    copy.fingerprint, copy.sha1, copy.stemcell, copy.dependencies := p.fingerprint, p.sha1, p.stemcell, p.dependencies;
    ghost var larger := d.g[copy := d.g[p]];
    hide *;
    CopyDepicted(d, p, copy);
    var packages := ResolveDependencies(copy, larger);
    CopyResolved(d, p, copy, packages);
    AnyEnumeration(d, p, packages);
    var dependencyKey := ConvertToDependencyKey(packages, d);
    KeyOf(d, p);
    key := PackageKey(p.name, p.fingerprint, dependencyKey);
  }

  lemma CopyDepicted(d: Picture, p: Package, copy: Package)
    requires Shows(d) && p in d.g && copy !in d.g && copy.dependencies == p.dependencies
    ensures Depicts(d.g[copy := d.g[p]])
  {}

  lemma CopyResolved(d: Picture, p: Package, copy: Package, packages: seq<Package>)
    requires Shows(d) && p in d.g && copy !in d.g
    requires forall q | q in d.g[copy := d.g[p]] ::
      q in packages <==> Reaches(d.g[copy := d.g[p]], copy, q) && q != copy
    requires forall q | q in packages :: q in d.g[copy := d.g[p]]
    ensures forall q :: q in packages <==> q in Reached(d.g, p)
    ensures forall q | q in packages :: q in d.g
  {
    forall q ensures q in packages <==> q in Reached(d.g, p) {
      CopyReaches(d.g, p, copy, q);
    }
  }

  lemma KeyOf(d: Picture, p: Package)
    requires Shows(d) && p in d.g
    ensures p in d.labels && CacheKey(d, p) ==
            PackageKey(p.name, p.fingerprint, DependencyKey(LabelsOf(d, Enumerate(Reached(d.g, p)))))
  {}

  method ConvertToDependencyKey(packages: seq<Package>, ghost d: Picture) returns (key: string)
    requires Shows(d) && forall q | q in packages :: q in d.g
    ensures key == DependencyKey(LabelsOf(d, packages))
  {
    var keys: seq<string> := [];
    for i := 0 to |packages|
      invariant keys == Texts(LabelsOf(d, packages))[..i]
    {
      assert packages[i] in packages;
      keys := keys + [packages[i].name + ":" + packages[i].fingerprint];
    }
    assert keys == Texts(LabelsOf(d, packages));
    key := Join(SortStrings(keys));
  }

  // ----- The cache -----

  /** A save: for which label, which dependencies it was, and what was saved. */
  datatype SaveEvent = SaveEvent(identity: Label, dependencies: seq<Label>, record: CompiledPackageRecord) {
    function Key(): PackageKey {
      PackageKey(identity.name, identity.fingerprint, DependencyKey(dependencies))
    }
  }

  ghost function EventOf(d: Picture, p: Package, record: CompiledPackageRecord): (e: SaveEvent)
    requires p in d.labels
    ensures e.Key() == CacheKey(d, p) && e.record == record
  {
    SaveEvent(d.labels[p], LabelsOf(d, Enumerate(Reached(d.g, p))), record)
  }

  /** The record of the last save under this key. */
  ghost function LastSaved(saves: seq<SaveEvent>, key: PackageKey): Option<CompiledPackageRecord> {
    if saves == [] then None
    else
      var n := |saves| - 1;
      if saves[n].Key() == key then Some(saves[n].record) else LastSaved(saves[..n], key)
  }

  /** The record of the last save for this name and fingerprint with these dependencies. */
  ghost function LastSavedAs(
    saves: seq<SaveEvent>, identity: Label, dependencies: multiset<Label>): Option<CompiledPackageRecord>
  {
    if saves == [] then None
    else
      var n := |saves| - 1;
      if saves[n].identity == identity && multiset(saves[n].dependencies) == dependencies then Some(saves[n].record)
      else LastSavedAs(saves[..n], identity, dependencies)
  }

  ghost predicate PlainSaves(saves: seq<SaveEvent>) {
    forall e | e in saves :: AllPlain(e.dependencies)
  }

  /** With plain labels, what is found under a key is what was saved for the same contents. */
  lemma {:induction false} LastSavedByContents(saves: seq<SaveEvent>, d: Picture, p: Package)
    requires p in d.labels && PlainSaves(saves)
    requires forall l | l in Dependencies(d, p) :: Plain(l)
    ensures LastSaved(saves, CacheKey(d, p)) == LastSavedAs(saves, d.labels[p], Dependencies(d, p))
  {
    hide CacheKey, Dependencies, Plain, AllPlain;
    if saves != [] {
      var n := |saves| - 1;
      LastSavedByContents(saves[..n], d, p);
      assert saves[n] in saves;
      SameKey(saves[n], d, p);
    }
  }

  lemma SameKey(e: SaveEvent, d: Picture, p: Package)
    requires p in d.labels && AllPlain(e.dependencies)
    requires forall l | l in Dependencies(d, p) :: Plain(l)
    ensures e.Key() == CacheKey(d, p) <==> e.identity == d.labels[p] && multiset(e.dependencies) == Dependencies(d, p)
  {
    var ls := LabelsOf(d, Enumerate(Reached(d.g, p)));
    assert forall l | l in ls :: l in multiset(ls);
    KeyTellsLabels(e.dependencies, ls);
  }

  class CompiledPackageRepo {
    const index: FileIndex<PackageKey, CompiledPackageRecord>
    /** Every save that was successful, oldest first. */
    ghost var saves: seq<SaveEvent>

    ghost predicate Valid()
      reads this, index`entries
    {
      Agree(saves, index.Contents())
    }

    /** The index may hold what was saved in the past. */
    constructor (index: FileIndex<PackageKey, CompiledPackageRecord>, ghost past: seq<SaveEvent>)
      requires Agree(past, index.Contents())
      ensures Valid() && this.index == index && saves == past
    {
      this.index := index;
      saves := past;
    }

    /** Finds what was last saved for a package with the same key; with plain labels, for
        the same name, the same fingerprint and the same dependencies. */
    method Find(p: Package, ghost d: Picture) returns (r: Lookup<CompiledPackageRecord>)
      requires Valid() && Shows(d) && p in d.g
      modifies index`failures
      ensures index.failures == old(index.failures) + if r.Unreadable? then 1 else 0
      ensures r.Found? ==> LastSaved(saves, CacheKey(d, p)) == Some(r.value)
      ensures r.Missing? ==> LastSaved(saves, CacheKey(d, p)) == None
      ensures !r.Unreadable? && PlainSaves(saves) && (forall l | l in Dependencies(d, p) :: Plain(l)) ==>
        LastSavedAs(saves, d.labels[p], Dependencies(d, p)) == if r.Found? then Some(r.value) else None
    {
      hide LastSaved, LastSavedAs, CacheKey, Dependencies, Plain, PlainSaves;
      var key := PkgKey(p, d);
      r := index.Find(key);
      Agreed(saves, index.Contents(), key);
      if PlainSaves(saves) && forall l | l in Dependencies(d, p) :: Plain(l) {
        LastSavedByContents(saves, d, p);
      }
    }

    method Save(p: Package, record: CompiledPackageRecord, ghost d: Picture) returns (ok: bool)
      requires Valid() && Shows(d) && p in d.g
      modifies this, index
      ensures Valid()
      ensures saves == if ok then old(saves) + [EventOf(d, p, record)] else old(saves)
      ensures index.failures == old(index.failures) + if ok then 0 else 1
    {
      var key := PkgKey(p, d);
      ok := index.Save(key, record);
      if ok {
        saves := saves + [EventOf(d, p, record)];
        assert saves[..|saves| - 1] == old(saves);
      }
    }
  }

  /** The index holds, for each key, what was saved last. */
  ghost predicate Agree(saves: seq<SaveEvent>, contents: map<PackageKey, CompiledPackageRecord>) {
    forall key :: LastSaved(saves, key) == if key in contents then Some(contents[key]) else None
  }

  lemma Agreed(saves: seq<SaveEvent>, contents: map<PackageKey, CompiledPackageRecord>, key: PackageKey)
    requires Agree(saves, contents)
    ensures LastSaved(saves, key) == if key in contents then Some(contents[key]) else None
  {}
}

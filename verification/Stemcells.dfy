/** stemcell/cloud_stemcell.go and stemcell/manager.go: stemcells in the cloud and their records. */
module Stemcells {
  import opened Wrappers
  import opened DeploymentStates
  import opened Environments
  import StemcellRepo

  datatype CloudStemcell = CloudStemcell(cid: string, name: string, version: string)

  function FromRecord(r: StemcellRecord): CloudStemcell {
    CloudStemcell(r.cid, r.name, r.version)
  }

  function WithoutStemcell(s: DeploymentState, name: string, version: string): DeploymentState {
    match FindStemcellByName(s.stemcells, name, version)
    case None => s
    case Some(r) => RemoveStemcell(s, r.id)
  }

  /** No record of this name and version has another CID. */
  ghost predicate UpToDate(s: DeploymentState, stemcell: CloudStemcell) {
    forall r | r in s.stemcells :: r.name == stemcell.name && r.version == stemcell.version ==> r.cid == stemcell.cid
  }

  ghost predicate OnlyStemcellsChanged(a: World, b: World) {
    && b == a.(state := b.state, stemcells := b.stemcells, uploads := b.uploads,
               unrecorded := b.unrecorded, leaked := b.leaked)
    && b.state == a.state.(stemcells := b.state.stemcells, currentStemcellID := b.state.currentStemcellID)
    && a.leaked <= b.leaked
    && a.uploads <= b.uploads
  }

  /** Stemcells and their records only went away, and the records in use are as they were. */
  ghost predicate StemcellsShrunk(a: World, b: World) {
    && OnlyStemcellsChanged(a, b)
    && b.leaked == a.leaked && b.uploads == a.uploads && b.stemcells <= a.stemcells
  }

  method PromoteAsCurrent(env: Environment, stemcell: CloudStemcell) returns (ok: bool)
    requires env.AtRest()
    modifies env`w, env`safeSoFar, env`trouble
    ensures env.AtRest()
    ensures OnlyStemcellsChanged(old(env.w), env.w)
    ensures env.w.stemcells == old(env.w.stemcells) && env.w.state.stemcells == old(env.w.state.stemcells)
    ensures ok ==>
      && CurrentStemcell(env.w.state).Some?
      && CurrentStemcell(env.w.state) == FindStemcellByName(env.w.state.stemcells, stemcell.name, stemcell.version)
    ensures env.w.uploads == old(env.w.uploads)
    ensures env.w.leaked == old(env.w.leaked) && old(env.trouble).Before(env.trouble)
    ensures env.trouble == old(env.trouble) && FindStemcellByName(old(env.w.state.stemcells), stemcell.name, stemcell.version).Some? ==> ok
  {
    hide Safe;
    var record;
    ok, record := StemcellRepo.Find(env, stemcell.name, stemcell.version);
    if !ok { return; }
    if record.None? { return false; }
    SafeRecords(env.w, env.condemned);
    FoundStemcell(env.w.state.stemcells, record.value);
    ok := StemcellRepo.UpdateCurrent(env, record.value.id);
  }

  /** Deletes in the cloud first and the record after that, as for disks. */
  method Delete(env: Environment, stemcell: CloudStemcell) returns (r: Outcome)
    requires env.AtRest() && UpToDate(env.w.state, stemcell)
    modifies env`w, env`safeSoFar, env`trouble
    ensures env.AtRest()
    ensures r != Failed ==>
      && stemcell.cid !in env.w.stemcells
      && env.w.state == WithoutStemcell(old(env.w.state), stemcell.name, stemcell.version)
    ensures r == Failed ==> env.w.state == old(env.w.state)
    ensures StemcellsShrunk(old(env.w), env.w)
    ensures old(env.w.stemcells) - {stemcell.cid} <= env.w.stemcells
    ensures r == NotFound ==>
      && stemcell.cid !in old(env.w.stemcells)
      && FindStemcellByName(old(env.w.state.stemcells), stemcell.name, stemcell.version).Some?
    ensures Onward(old(env.trouble), old(env.w.leaked), env.trouble, env.w.leaked)
    ensures env.trouble == old(env.trouble) ==> r != Failed
  {
    hide Safe;
    var deleted := env.DeleteStemcell(stemcell.cid);
    if deleted == Failed {
      return Failed;
    }
    var ok, record := StemcellRepo.Find(env, stemcell.name, stemcell.version);
    if !ok {
      return Failed;
    }
    if record.None? {
      return Ok;
    }
    ok := StemcellRepo.Delete(env, record.value);
    if !ok {
      return Failed;
    }
    return deleted;
  }

  method FindCurrent(env: Environment) returns (ok: bool, stemcells: seq<CloudStemcell>)
    modifies env`trouble
    ensures StateTrouble(old(env.trouble), env.trouble, ok)
    ensures ok ==> stemcells == match CurrentStemcell(env.w.state) case None => [] case Some(r) => [FromRecord(r)]
  {
    var record;
    ok, record := StemcellRepo.FindCurrent(env);
    stemcells := if ok && record.Some? then [FromRecord(record.value)] else [];
  }

  /** Uploads unless a record of this name and version exists already. The record is all
      that comes after the upload: when it cannot be made, the state file was the reason. */
  method Upload(env: Environment, name: string, version: string) returns (r: Option<CloudStemcell>)
    requires env.AtRest()
    modifies env`w, env`safeSoFar, env`trouble
    ensures env.AtRest()
    ensures OnlyStemcellsChanged(old(env.w), env.w)
    ensures env.w.state.currentStemcellID == old(env.w.state.currentStemcellID)
    ensures CurrentStemcell(env.w.state) == CurrentStemcell(old(env.w.state))
    ensures r.Some? ==>
      && FindStemcellByName(env.w.state.stemcells, name, version).Some?
      && FromRecord(FindStemcellByName(env.w.state.stemcells, name, version).value) == r.value
    ensures old(FindStemcellByName(env.w.state.stemcells, name, version).Some?) ==> env.w == old(env.w)
    ensures r.Some? && old(FindStemcellByName(env.w.state.stemcells, name, version).None?) ==>
      env.w.state.stemcells ==
        old(env.w.state.stemcells) + [FindStemcellByName(env.w.state.stemcells, name, version).value]
    ensures r.Some? && old(FindStemcellByName(env.w.state.stemcells, name, version).None?) ==>
      && r.value.cid in env.w.stemcells
      && env.w.stemcells == old(env.w.stemcells) + {r.value.cid}
      && env.w.uploads == old(env.w.uploads) + {StemcellUpload(r.value.cid, name, version)}
    ensures old(env.w.stemcells) <= env.w.stemcells
    ensures r.None? ==> env.w.state == old(env.w.state)
    ensures Onward(old(env.trouble), old(env.w.leaked), env.trouble, env.w.leaked)
    ensures env.trouble == old(env.trouble) ==> r.Some?
  {
    hide Safe;
    var ok, found := StemcellRepo.Find(env, name, version);
    if !ok { return None; }
    if found.Some? { return Some(FromRecord(found.value)); }
    var cid := env.CreateStemcell(name, version);
    if cid.None? { return None; }
    var record := StemcellRepo.Save(env, name, version, cid.value);
    if record.None? {
      env.NoteLeak(Stemcell(cid.value));
      return None;
    }
    return Some(FromRecord(record.value));
  }

  /** Exactly the stemcells whose record is not the current one. */
  ghost predicate AreUnused(s: DeploymentState, unused: seq<CloudStemcell>) {
    && (forall d | d in unused :: exists r :: r in s.stemcells && d == FromRecord(r) && CurrentStemcell(s) != Some(r))
    && (forall r | r in s.stemcells :: FromRecord(r) in unused || (CurrentStemcell(s).Some? && r.id == CurrentStemcell(s).value.id))
  }

  method FindUnused(env: Environment) returns (ok: bool, stemcells: seq<CloudStemcell>)
    modifies env`trouble
    ensures StateTrouble(old(env.trouble), env.trouble, ok)
    ensures ok ==> AreUnused(env.w.state, stemcells)
  {
    stemcells := [];
    var records;
    ok, records := StemcellRepo.All(env);
    if !ok { return; }
    var current;
    ok, current := StemcellRepo.FindCurrent(env);
    if !ok { return; }
    for i := 0 to |records|
      invariant forall d | d in stemcells ::
        exists r :: r in records && d == FromRecord(r) && current != Some(r)
      invariant forall k | 0 <= k < i ::
        FromRecord(records[k]) in stemcells || (current.Some? && records[k].id == current.value.id)
    {
      if current.None? || records[i].id != current.value.id {
        stemcells := stemcells + [FromRecord(records[i])];
      }
    }
  }

  function CurrentOnly(s: DeploymentState): seq<StemcellRecord> {
    match CurrentStemcell(s) case None => [] case Some(r) => [r]
  }

  lemma OnlyCurrentLeft(s: DeploymentState)
    requires DistinctStemcells(s.stemcells)
    requires forall r | r in s.stemcells :: CurrentStemcell(s) == Some(r)
    ensures s.stemcells == CurrentOnly(s)
  {
    if s.stemcells != [] {
      var k := |s.stemcells| - 1;
      assert s.stemcells[0] in s.stemcells && s.stemcells[k] in s.stemcells;
      assert k == 0;
      assert s.stemcells == [s.stemcells[0]];
    }
  }

  ghost predicate IsCurrentStemcell(s: DeploymentState, d: CloudStemcell) {
    CurrentStemcell(s).Some? && CurrentStemcell(s).value.name == d.name && CurrentStemcell(s).value.version == d.version
  }

  lemma UnusedAreNotCurrent(s: DeploymentState, unused: seq<CloudStemcell>)
    requires Integrity(s) && AreUnused(s, unused)
    ensures forall k | 0 <= k < |unused| :: !IsCurrentStemcell(s, unused[k]) && UpToDate(s, unused[k])
  {
    forall k | 0 <= k < |unused| ensures !IsCurrentStemcell(s, unused[k]) && UpToDate(s, unused[k]) {
      assert unused[k] in unused;
      var r :| r in s.stemcells && unused[k] == FromRecord(r) && CurrentStemcell(s) != Some(r);
      FoundStemcell(s.stemcells, r);
      forall x | x in s.stemcells && x.name == r.name && x.version == r.version ensures x == r {
        FoundStemcell(s.stemcells, x);
      }
    }
  }

  lemma WithoutUnused(s: DeploymentState, d: CloudStemcell)
    requires Integrity(s) && !IsCurrentStemcell(s, d)
    ensures WithoutStemcell(s, d.name, d.version) ==
            s.(stemcells := WithoutStemcell(s, d.name, d.version).stemcells)
    ensures CurrentStemcell(WithoutStemcell(s, d.name, d.version)) == CurrentStemcell(s)
    ensures forall r :: r in WithoutStemcell(s, d.name, d.version).stemcells <==>
                        r in s.stemcells && (r.name != d.name || r.version != d.version)
  {
    if FindStemcellByName(s.stemcells, d.name, d.version).Some? {
      var found := FindStemcellByName(s.stemcells, d.name, d.version).value;
      FoundStemcell(s.stemcells, found);
      RemoveStemcellKeeps(s, found.id);
      forall r | r in s.stemcells && r.id == found.id ensures r == found {
        FoundStemcell(s.stemcells, r);
      }
      forall r | r in s.stemcells && r.name == found.name && r.version == found.version ensures r == found {
        FoundStemcell(s.stemcells, r);
      }
    }
  }

  /** The record of the current stemcell is as it was; of the others some may be gone. */
  ghost predicate OnlyUnusedGone(a: World, b: World) {
    && StemcellsShrunk(a, b)
    && b.state == a.state.(stemcells := b.state.stemcells)
    && CurrentStemcell(b.state) == CurrentStemcell(a.state)
    && (forall r | r in b.state.stemcells :: r in a.state.stemcells)
  }

  ghost predicate Pruned(a: World, b: World, gone: seq<CloudStemcell>) {
    && OnlyUnusedGone(a, b)
    && (forall r, d | r in b.state.stemcells && d in gone :: r.name != d.name || r.version != d.version)
  }

  lemma PruneOne(a: World, b: World, c: World, gone: seq<CloudStemcell>, d: CloudStemcell)
    requires Pruned(a, b, gone) && Integrity(b.state) && !IsCurrentStemcell(b.state, d)
    requires StemcellsShrunk(b, c)
    requires c.state == b.state || c.state == WithoutStemcell(b.state, d.name, d.version)
    ensures Pruned(a, c, gone)
    ensures c.state == WithoutStemcell(b.state, d.name, d.version) ==> Pruned(a, c, gone + [d])
  {
    WithoutUnused(b.state, d);
  }

  lemma PrunedMeans(a: World, b: World, gone: seq<CloudStemcell>)
    ensures Pruned(a, a, []) && OnlyUnusedGone(a, a)
    ensures Pruned(a, b, gone) ==> OnlyUnusedGone(a, b)
  {}

  lemma StillUnused(a: World, b: World, gone: seq<CloudStemcell>, d: CloudStemcell)
    requires Pruned(a, b, gone) && UpToDate(a.state, d) && !IsCurrentStemcell(a.state, d)
    ensures UpToDate(b.state, d) && !IsCurrentStemcell(b.state, d)
  {}

  lemma AllPruned(a: World, b: World, unused: seq<CloudStemcell>)
    requires Pruned(a, b, unused) && Integrity(a.state) && Integrity(b.state)
    requires AreUnused(a.state, unused)
    ensures b.state.stemcells == CurrentOnly(a.state)
  {
    forall r | r in b.state.stemcells ensures CurrentStemcell(b.state) == Some(r) {
      assert FromRecord(r) !in unused;
      FoundStemcell(a.state.stemcells, r);
    }
    OnlyCurrentLeft(b.state);
  }

  /** One step of the loop: a stage that skips the error of a stemcell that is not there. */
  method DeleteSkippingMissing(env: Environment, d: CloudStemcell, ghost before: World, ghost gone: seq<CloudStemcell>)
    returns (ok: bool)
    requires env.AtRest() && Pruned(before, env.w, gone)
    requires !IsCurrentStemcell(before.state, d) && UpToDate(before.state, d)
    modifies env`w, env`safeSoFar, env`trouble
    ensures env.AtRest()
    ensures Pruned(before, env.w, if ok then gone + [d] else gone)
    ensures Onward(old(env.trouble), old(env.w.leaked), env.trouble, env.w.leaked)
    ensures env.trouble == old(env.trouble) ==> ok
  {
    hide *;
    ghost var a := env.w;
    RestRecords(env);
    PrunedMeans(before, a, gone);
    StillUnused(before, a, gone, d);
    var outcome := Delete(env, d);
    PruneOne(before, a, env.w, gone, d);
    ok := outcome != Failed;
  }

  /** The loop: one after the other, up to the first failure. */
  method DeleteEach(env: Environment, unused: seq<CloudStemcell>, ghost before: World) returns (ok: bool)
    requires env.AtRest() && env.w == before
    requires forall k | 0 <= k < |unused| :: !IsCurrentStemcell(before.state, unused[k]) && UpToDate(before.state, unused[k])
    modifies env`w, env`safeSoFar, env`trouble
    ensures env.AtRest()
    ensures if ok then Pruned(before, env.w, unused) else OnlyUnusedGone(before, env.w)
    ensures Onward(old(env.trouble), old(env.w.leaked), env.trouble, env.w.leaked)
    ensures env.trouble == old(env.trouble) ==> ok
  {
    hide *;
    PrunedMeans(before, before, []);
    OnwardNow(env.trouble, before.leaked);
    for i := 0 to |unused|
      invariant env.AtRest()
      invariant Pruned(before, env.w, unused[..i])
      invariant Onward(old(env.trouble), before.leaked, env.trouble, env.w.leaked)
    {
      ghost var t, leaked := env.trouble, env.w.leaked;
      ok := DeleteSkippingMissing(env, unused[i], before, unused[..i]);
      OnwardTwice(old(env.trouble), before.leaked, t, leaked, env.trouble, env.w.leaked);
      if !ok {
        PrunedMeans(before, env.w, unused[..i]);
        return;
      }
      assert unused[..i + 1] == unused[..i] + [unused[i]];
    }
    assert unused[..|unused|] == unused;
    ok := true;
  }

  /** Deletes every stemcell but the current one; the record of the current one stays as
      it is whatever fails. */
  method DeleteUnused(env: Environment) returns (ok: bool)
    requires env.AtRest()
    modifies env`w, env`safeSoFar, env`trouble
    ensures env.AtRest()
    ensures OnlyUnusedGone(old(env.w), env.w)
    ensures ok ==> env.w.state.stemcells == CurrentOnly(old(env.w.state))
    ensures Onward(old(env.trouble), old(env.w.leaked), env.trouble, env.w.leaked)
    ensures env.trouble == old(env.trouble) ==> ok
  {
    ghost var before := env.w;
    hide *;
    PrunedMeans(before, before, []);
    var unused;
    ok, unused := FindUnused(env);
    StateTroubleMeans(old(env.trouble), env.trouble, ok, before.leaked);
    if !ok { return; }
    RestRecords(env);
    UnusedAreNotCurrent(before.state, unused);
    ghost var t := env.trouble;
    ok := DeleteEach(env, unused, before);
    OnwardTwice(old(env.trouble), before.leaked, t, before.leaked, env.trouble, env.w.leaked);
    if !ok { return; }
    RestRecords(env);
    AllPruned(before, env.w, unused);
    PrunedMeans(before, env.w, unused);
    ok := true;
  }
}

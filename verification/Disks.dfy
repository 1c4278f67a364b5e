/** deployment/disk/disk.go and deployment/disk/manager.go: disks of the deployment and
    the deletion of the ones that are not in use. */
module Disks {
  import opened Wrappers
  import opened DeploymentStates
  import opened Environments
  import DiskRepo

  datatype DiskPool = DiskPool(size: int, props: Properties)

  datatype CloudDisk = CloudDisk(cid: string, size: int, props: Properties) {
    predicate NeedsMigration(newSize: int, newProps: Properties) {
      size != newSize || props != newProps
    }
  }

  function FromRecord(r: DiskRecord): CloudDisk {
    CloudDisk(r.cid, r.size, r.props)
  }

  /** The state without the record of this disk, which the current ID then names no more. */
  function WithoutDisk(s: DeploymentState, cid: string): DeploymentState {
    match FindDiskByCID(s.disks, cid)
    case None => s
    case Some(r) => RemoveDisk(s, r.id)
  }

  /** Only disks, their records and what those two imply are different. */
  ghost predicate OnlyDisksChanged(a: World, b: World) {
    && b == a.(state := b.state, disks := b.disks, usedDisks := b.usedDisks,
               unrecorded := b.unrecorded, leaked := b.leaked, latest := b.latest)
    && b.state == a.state.(disks := b.state.disks, currentDiskID := b.state.currentDiskID)
    && a.leaked <= b.leaked
    && a.usedDisks.Items <= b.usedDisks.Items
  }

  /** No disk is new, and those that are left hold what they held. */
  ghost predicate DisksShrunk(a: World, b: World) {
    && OnlyDisksChanged(a, b)
    && b.latest == a.latest && b.leaked == a.leaked && b.usedDisks == a.usedDisks
    && b.disks.Keys <= a.disks.Keys
    && forall c | c in b.disks :: b.disks[c] == a.disks[c]
  }

  lemma GoneIsRemovable(w: World, condemned: set<string>, r: DiskRecord)
    requires Safe(w, condemned) && r in w.state.disks && r.cid !in w.disks
    requires IsCurrentDisk(w.state, r.cid) ==> NoneRunning(w)
    ensures DiskRepo.Removable(w, r)
  {
    FoundDisk(w.state.disks, r);
  }

  lemma RecordGone(w: World, condemned: set<string>, r: DiskRecord)
    requires Safe(w, condemned)
    ensures DisksShrunk(w, Saved(w, RemoveDisk(w.state, r.id), Quiet))
  {
    RemoveDiskKeeps(w.state, r.id);
  }

  lemma ShrunkTwice(a: World, b: World, c: World)
    requires DisksShrunk(a, b) && DisksShrunk(b, c)
    ensures DisksShrunk(a, c)
  {}

  /** The second half of deleting a disk: its record, if it has one. */
  method DeleteRecord(env: Environment, d: CloudDisk) returns (ok: bool, found: bool)
    requires env.AtRest() && d.cid !in env.w.disks
    requires IsCurrentDisk(env.w.state, d.cid) ==> NoneRunning(env.w)
    modifies env`w, env`safeSoFar, env`trouble
    ensures env.AtRest()
    ensures env.w.state == if ok then WithoutDisk(old(env.w.state), d.cid) else old(env.w.state)
    ensures ok ==> found == FindDiskByCID(old(env.w.state.disks), d.cid).Some?
    ensures DisksShrunk(old(env.w), env.w) && env.w.disks == old(env.w.disks)
    ensures StateTrouble(old(env.trouble), env.trouble, ok)
  {
    hide Safe, CurrentDisk, IsCurrentDisk, DiskRepo.Removable, RemoveDisk, Recorded;
    var record;
    ok, record := DiskRepo.Find(env, d.cid);
    found := record.Some?;
    if !ok || !found { return; }
    GoneIsRemovable(env.w, env.condemned, record.value);
    RecordGone(env.w, env.condemned, record.value);
    ok := DiskRepo.Delete(env, record.value);
  }

  /** Deletes in the cloud first and the record after that. A disk that the cloud does
      not know counts as deleted; NotFound is reported only after its record is gone. */
  method Delete(env: Environment, d: CloudDisk) returns (r: Outcome)
    requires env.AtRest()
    requires Dispensable(env.w, env.condemned, d.cid)
    requires IsCurrentDisk(env.w.state, d.cid) ==> NoneRunning(env.w)
    modifies env`w, env`safeSoFar, env`trouble
    ensures env.AtRest()
    ensures r != Failed ==> d.cid !in env.w.disks && env.w.state == WithoutDisk(old(env.w.state), d.cid)
    ensures r == Failed ==> env.w.state == old(env.w.state)
    ensures DisksShrunk(old(env.w), env.w)
    ensures env.w.disks.Keys >= old(env.w.disks).Keys - {d.cid}
    ensures r == NotFound ==> d.cid !in old(env.w.disks) && FindDiskByCID(old(env.w.state.disks), d.cid).Some?
    ensures Onward(old(env.trouble), old(env.w.leaked), env.trouble, env.w.leaked)
    ensures env.trouble == old(env.trouble) ==> r != Failed
  {
    hide Safe, CurrentDisk, IsCurrentDisk, WithoutDisk, FindDiskByCID;
    ghost var before := env.w;
    var deleted := env.DeleteDisk(d.cid);
    assert DisksShrunk(before, env.w);
    if deleted == Failed {
      return Failed;
    }
    hide DisksShrunk;
    ghost var gone := env.w;
    var ok, found := DeleteRecord(env, d);
    ShrunkTwice(before, gone, env.w);
    r := if !ok then Failed else if !found then Ok else deleted;
  }

  method FindCurrent(env: Environment) returns (ok: bool, disks: seq<CloudDisk>)
    modifies env`trouble
    ensures StateTrouble(old(env.trouble), env.trouble, ok)
    ensures ok ==> disks == match CurrentDisk(env.w.state) case None => [] case Some(r) => [FromRecord(r)]
  {
    var record;
    ok, record := DiskRepo.FindCurrent(env);
    disks := if ok && record.Some? then [FromRecord(record.value)] else [];
  }

  lemma NewIsUnknown(w: World, condemned: set<string>, cid: string)
    requires Safe(w, condemned) && cid !in w.usedDisks
    ensures FindDiskByCID(w.state.disks, cid).None? && cid !in w.disks
  {}

  /** A new disk and its record, neither of which is in use yet. The record is all that
      comes after the disk: when it cannot be made, the state file was the reason. */
  method Create(env: Environment, pool: DiskPool) returns (r: Option<CloudDisk>)
    requires env.AtRest()
    modifies env`w, env`safeSoFar, env`trouble
    ensures env.AtRest()
    ensures OnlyDisksChanged(old(env.w), env.w) && env.w.latest == old(env.w.latest)
    ensures CurrentDisk(env.w.state) == CurrentDisk(old(env.w.state))
    ensures env.w.state.currentDiskID == old(env.w.state.currentDiskID)
    ensures r.Some? ==>
      && r.value == CloudDisk(r.value.cid, pool.size, pool.props)
      && r.value.cid !in old(env.w.usedDisks)
      && env.w.disks == old(env.w.disks)[r.value.cid := BLANK]
      && env.w.usedDisks == old(env.w.usedDisks)[r.value.cid := DiskShape(pool.size, pool.props)]
      && FindDiskByCID(env.w.state.disks, r.value.cid).Some?
      && FromRecord(FindDiskByCID(env.w.state.disks, r.value.cid).value) == r.value
      && env.w.state.disks == old(env.w.state.disks) + [FindDiskByCID(env.w.state.disks, r.value.cid).value]
    ensures r.None? ==> env.w.state == old(env.w.state) && old(env.w.disks.Items) <= env.w.disks.Items
    ensures Onward(old(env.trouble), old(env.w.leaked), env.trouble, env.w.leaked)
    ensures env.trouble == old(env.trouble) ==> r.Some?
  {
    hide Safe;
    ghost var before := env.w;
    var cid := env.CreateDisk(pool.size, pool.props);
    if cid.None? {
      return None;
    }
    NewIsUnknown(before, env.condemned, cid.value);
    assert env.w.disks.Items >= old(env.w.disks.Items) by {
      assert forall i | i in old(env.w.disks.Items) :: i.0 != cid.value;
    }
    assert env.w.usedDisks.Items >= old(env.w.usedDisks.Items) by {
      assert forall i | i in old(env.w.usedDisks.Items) :: i.0 != cid.value;
    }
    var record := DiskRepo.Save(env, cid.value, pool.size, pool.props);
    if record.None? {
      env.NoteLeak(Disk(cid.value));
      return None;
    }
    return Some(FromRecord(record.value));
  }

  /** Exactly the disks whose record is not the current one. */
  ghost predicate AreUnused(s: DeploymentState, unused: seq<CloudDisk>) {
    && (forall d | d in unused :: exists r :: r in s.disks && d == FromRecord(r) && CurrentDisk(s) != Some(r))
    && (forall r | r in s.disks :: FromRecord(r) in unused || (CurrentDisk(s).Some? && r.id == CurrentDisk(s).value.id))
  }

  method FindUnused(env: Environment) returns (ok: bool, disks: seq<CloudDisk>)
    modifies env`trouble
    ensures StateTrouble(old(env.trouble), env.trouble, ok)
    ensures ok ==> AreUnused(env.w.state, disks)
  {
    disks := [];
    var records;
    ok, records := DiskRepo.All(env);
    if !ok { return; }
    var current;
    ok, current := DiskRepo.FindCurrent(env);
    if !ok { return; }
    for i := 0 to |records|
      invariant forall d | d in disks ::
        exists r :: r in records && d == FromRecord(r) && current != Some(r)
      invariant forall k | 0 <= k < i ::
        FromRecord(records[k]) in disks || (current.Some? && records[k].id == current.value.id)
    {
      if current.None? || records[i].id != current.value.id {
        disks := disks + [FromRecord(records[i])];
      }
    }
  }

  function CurrentOnly(s: DeploymentState): seq<DiskRecord> {
    match CurrentDisk(s) case None => [] case Some(r) => [r]
  }

  lemma OnlyCurrentLeft(s: DeploymentState)
    requires DistinctDisks(s.disks)
    requires forall r | r in s.disks :: CurrentDisk(s) == Some(r)
    ensures s.disks == CurrentOnly(s)
  {
    if s.disks != [] {
      var k := |s.disks| - 1;
      assert s.disks[0] in s.disks && s.disks[k] in s.disks;
      assert k == 0;
      assert s.disks == [s.disks[0]];
    }
  }

  lemma UnusedAreNotCurrent(s: DeploymentState, unused: seq<CloudDisk>)
    requires Integrity(s) && AreUnused(s, unused)
    ensures forall k | 0 <= k < |unused| :: !IsCurrentDisk(s, unused[k].cid)
  {
    forall k | 0 <= k < |unused| ensures !IsCurrentDisk(s, unused[k].cid) {
      assert unused[k] in unused;
      var r :| r in s.disks && unused[k] == FromRecord(r) && CurrentDisk(s) != Some(r);
      FoundDisk(s.disks, r);
    }
  }

  lemma WithoutUnused(s: DeploymentState, cid: string)
    requires Integrity(s) && !IsCurrentDisk(s, cid)
    ensures WithoutDisk(s, cid) == s.(disks := WithoutDisk(s, cid).disks)
    ensures CurrentDisk(WithoutDisk(s, cid)) == CurrentDisk(s)
    ensures forall r :: r in WithoutDisk(s, cid).disks <==> r in s.disks && r.cid != cid
  {
    if FindDiskByCID(s.disks, cid).Some? {
      var found := FindDiskByCID(s.disks, cid).value;
      FoundDisk(s.disks, found);
      RemoveDiskKeeps(s, found.id);
      forall r | r in s.disks && r.id == found.id ensures r == found {
        FoundDisk(s.disks, r);
      }
      forall r | r in s.disks && r.cid == found.cid ensures r == found {
        FoundDisk(s.disks, r);
      }
    }
  }

  /** What is left after the records of some disks are gone, none of them current. */
  ghost predicate Pruned(a: World, b: World, gone: seq<CloudDisk>) {
    && OnlyUnusedGone(a, b)
    && (forall r, d | r in b.state.disks && d in gone :: r.cid != d.cid)
  }

  lemma PruneOne(a: World, b: World, c: World, gone: seq<CloudDisk>, d: CloudDisk)
    requires Pruned(a, b, gone) && Integrity(b.state) && !IsCurrentDisk(b.state, d.cid)
    requires DisksShrunk(b, c) && c.disks.Keys >= b.disks.Keys - {d.cid}
    requires c.state == b.state || c.state == WithoutDisk(b.state, d.cid)
    ensures Pruned(a, c, gone)
    ensures c.state == WithoutDisk(b.state, d.cid) ==> Pruned(a, c, gone + [d])
  {
    WithoutUnused(b.state, d.cid);
  }

  lemma StillUnused(a: World, b: World, gone: seq<CloudDisk>, d: CloudDisk)
    requires Pruned(a, b, gone) && !IsCurrentDisk(a.state, d.cid)
    ensures !IsCurrentDisk(b.state, d.cid)
    ensures forall condemned :: Dispensable(b, condemned, d.cid)
  {}

  /** The current disk and its record are as they were; of the others some may be gone. */
  ghost predicate OnlyUnusedGone(a: World, b: World) {
    && DisksShrunk(a, b)
    && b.state == a.state.(disks := b.state.disks)
    && CurrentDisk(b.state) == CurrentDisk(a.state)
    && (forall r | r in b.state.disks :: r in a.state.disks)
    && (forall c | c in a.disks && IsCurrentDisk(a.state, c) :: c in b.disks)
  }

  lemma PrunedMeans(a: World, b: World, gone: seq<CloudDisk>)
    ensures Pruned(a, a, []) && OnlyUnusedGone(a, a)
    ensures Pruned(a, b, gone) ==> OnlyUnusedGone(a, b)
  {}

  lemma AllPruned(a: World, b: World, unused: seq<CloudDisk>)
    requires Pruned(a, b, unused) && Integrity(a.state) && Integrity(b.state)
    requires AreUnused(a.state, unused)
    ensures b.state.disks == CurrentOnly(a.state)
  {
    forall r | r in b.state.disks ensures CurrentDisk(b.state) == Some(r) {
      assert FromRecord(r) !in unused;
      FoundDisk(a.state.disks, r);
    }
    OnlyCurrentLeft(b.state);
  }

  /** One step of the loop: a stage that skips the error of a disk that is not there. */
  method DeleteSkippingMissing(env: Environment, d: CloudDisk, ghost before: World, ghost gone: seq<CloudDisk>)
    returns (ok: bool)
    requires env.AtRest() && Pruned(before, env.w, gone)
    requires !IsCurrentDisk(before.state, d.cid)
    modifies env`w, env`safeSoFar, env`trouble
    ensures env.AtRest()
    ensures Pruned(before, env.w, if ok then gone + [d] else gone)
    ensures Onward(old(env.trouble), old(env.w.leaked), env.trouble, env.w.leaked)
    ensures env.trouble == old(env.trouble) ==> ok
  {
    hide *;
    ghost var a := env.w;
    RestRecords(env);
    PrunedMeans(before, a, gone);
    StillUnused(before, a, gone, d);
    var outcome := Delete(env, d);
    PruneOne(before, a, env.w, gone, d);
    ok := outcome != Failed;
  }

  /** The loop: one after the other, up to the first failure. */
  method DeleteEach(env: Environment, unused: seq<CloudDisk>, ghost before: World) returns (ok: bool)
    requires env.AtRest() && env.w == before
    requires forall k | 0 <= k < |unused| :: !IsCurrentDisk(before.state, unused[k].cid)
    modifies env`w, env`safeSoFar, env`trouble
    ensures env.AtRest()
    ensures if ok then Pruned(before, env.w, unused) else OnlyUnusedGone(before, env.w)
    ensures Onward(old(env.trouble), old(env.w.leaked), env.trouble, env.w.leaked)
    ensures env.trouble == old(env.trouble) ==> ok
  {
    hide *;
    PrunedMeans(before, before, []);
    OnwardNow(env.trouble, before.leaked);
    for i := 0 to |unused|
      invariant env.AtRest()
      invariant Pruned(before, env.w, unused[..i])
      invariant Onward(old(env.trouble), before.leaked, env.trouble, env.w.leaked)
    {
      ghost var t, leaked := env.trouble, env.w.leaked;
      ok := DeleteSkippingMissing(env, unused[i], before, unused[..i]);
      OnwardTwice(old(env.trouble), before.leaked, t, leaked, env.trouble, env.w.leaked);
      if !ok {
        PrunedMeans(before, env.w, unused[..i]);
        return;
      }
      assert unused[..i + 1] == unused[..i] + [unused[i]];
    }
    assert unused[..|unused|] == unused;
    ok := true;
  }

  /** Deletes every disk but the current one; the current disk and its record stay as
      they are whatever fails. A disk that was gone already does not stop the loop. */
  method DeleteUnused(env: Environment) returns (ok: bool)
    requires env.AtRest()
    modifies env`w, env`safeSoFar, env`trouble
    ensures env.AtRest()
    ensures OnlyUnusedGone(old(env.w), env.w)
    ensures ok ==> env.w.state.disks == CurrentOnly(old(env.w.state))
    ensures Onward(old(env.trouble), old(env.w.leaked), env.trouble, env.w.leaked)
    ensures env.trouble == old(env.trouble) ==> ok
  {
    ghost var before := env.w;
    hide *;
    PrunedMeans(before, before, []);
    var unused;
    ok, unused := FindUnused(env);
    StateTroubleMeans(old(env.trouble), env.trouble, ok, before.leaked);
    if !ok { return; }
    RestRecords(env);
    UnusedAreNotCurrent(before.state, unused);
    ghost var t := env.trouble;
    ok := DeleteEach(env, unused, before);
    OnwardTwice(old(env.trouble), before.leaked, t, before.leaked, env.trouble, env.w.leaked);
    if !ok { return; }
    RestRecords(env);
    AllPruned(before, env.w, unused);
    PrunedMeans(before, env.w, unused);
    ok := true;
  }
}

/** deployment/vm/disk_deployer.go: brings the deployment's disk to the size and the
    properties that its pool asks for, migrating the data when they differ. */
module DiskDeployers {
  import opened Wrappers
  import opened DeploymentStates
  import opened Environments
  import opened Disks
  import opened VMs
  import DiskRepo

  /** The VM of record, booted and not running jobs. */
  ghost predicate Idle(w: World, v: string) {
    v == w.state.currentVMCID && v in w.vms && !w.vms[v].running
  }

  ghost predicate Fresh(w: World, v: string) {
    Idle(w, v) && w.vms[v] == NewVM(w.vms[v].stemcell)
  }

  /** Only disks, their records and this VM's mounts are different, and an existing
      deployment still has the same latest data. */
  ghost predicate DeployedDisks(a: World, b: World, v: string) {
    && b == a.(state := b.state, disks := b.disks, usedDisks := b.usedDisks, vms := b.vms,
               unrecorded := b.unrecorded, leaked := b.leaked, latest := b.latest)
    && b.state == a.state.(disks := b.state.disks, currentDiskID := b.state.currentDiskID)
    && b.vms.Keys == a.vms.Keys
    && (v in a.vms ==>
          var x, y := a.vms[v], b.vms[v];
          b.vms == a.vms[v := x.(attached := y.attached, store := y.store, target := y.target)])
    && (Idle(a, v) ==> Idle(b, v))
    && a.leaked <= b.leaked
    && (CurrentDisk(a.state).Some? ==> CurrentDisk(b.state).Some? && b.latest == a.latest)
  }

  /** This disk is the current one, alive, the only one attached, and mounted where jobs
      will use it. */
  ghost predicate InUse(w: World, v: string, d: CloudDisk) {
    && CurrentDisk(w.state).Some? && FromRecord(CurrentDisk(w.state).value) == d
    && d.cid in w.disks
    && v in w.vms && w.vms[v].attached == {d.cid} && w.vms[v].store == d.cid
  }

  /** There is one disk; it is recorded as the pool asks, alive, and in use on this VM. */
  ghost predicate OneDisk(w: World, v: string, pool: DiskPool, disks: seq<CloudDisk>) {
    && |disks| == 1
    && |w.state.disks| == 1 && Disks.FromRecord(w.state.disks[0]) == disks[0]
    && disks[0] == CloudDisk(disks[0].cid, pool.size, pool.props)
    && InUse(w, v, disks[0])
  }

  /** There is no disk to bring along, or it is still alive. */
  ghost predicate DiskReady(w: World, pool: DiskPool) {
    pool.size == 0 || CurrentDisk(w.state).None? || CurrentDisk(w.state).value.cid in w.disks
  }

  /** A current disk that is as the pool asks stays the current one, and none is created. */
  ghost predicate NoNeedlessDisk(a: World, b: World, pool: DiskPool) {
    && (CurrentDisk(a.state).Some?
        && (pool.size == 0 || !FromRecord(CurrentDisk(a.state).value).NeedsMigration(pool.size, pool.props)) ==>
          CurrentDisk(b.state) == CurrentDisk(a.state) && b.usedDisks == a.usedDisks)
    && (CurrentDisk(a.state).None? && pool.size == 0 ==> CurrentDisk(b.state).None? && b.usedDisks == a.usedDisks)
  }

  lemma IdleMeansNoneRunning(w: World, condemned: set<string>, v: string)
    requires Safe(w, condemned) && Idle(w, v)
    ensures NoneRunning(w)
  {}

  lemma CurrentDiskHoldsLatest(w: World, condemned: set<string>, c: string)
    requires Safe(w, condemned) && IsCurrentDisk(w.state, c) && c in w.disks
    ensures c != "" && c in w.usedDisks && w.disks[c] == w.latest
  {}

  method UpdateCurrentDiskRecord(env: Environment, d: CloudDisk) returns (ok: bool)
    requires env.AtRest() && d.cid in env.w.disks
    requires CurrentDisk(env.w.state).Some? ==> env.w.disks[d.cid] == env.w.latest
    requires NoneRunning(env.w)
    modifies env`w, env`safeSoFar, env`trouble
    ensures env.AtRest()
    ensures !ok ==> env.w == old(env.w)
    ensures ok ==>
      && FindDiskByCID(old(env.w.state.disks), d.cid).Some?
      && CurrentDisk(env.w.state) == FindDiskByCID(old(env.w.state.disks), d.cid)
      && env.w == old(env.w).(state := env.w.state, unrecorded := env.w.unrecorded, latest := env.w.latest)
      && env.w.state == old(env.w.state).(currentDiskID := env.w.state.currentDiskID)
      && (CurrentDisk(old(env.w.state)).Some? ==> env.w.latest == old(env.w.latest))
    ensures old(env.trouble).Before(env.trouble)
    ensures env.trouble == old(env.trouble) && FindDiskByCID(old(env.w.state.disks), d.cid).Some? ==> ok
  {
    hide Safe;
    var record;
    ok, record := DiskRepo.Find(env, d.cid);
    if !ok { return; }
    if record.None? { return false; }
    SafeRecords(env.w, env.condemned);
    FoundDisk(env.w.state.disks, record.value);
    ok := DiskRepo.UpdateCurrent(env, record.value.id);
  }

  lemma DeployedDisksTwice(a: World, b: World, c: World, v: string)
    requires DeployedDisks(a, b, v) && DeployedDisks(b, c, v)
    ensures DeployedDisks(a, c, v)
  {}

  /** The second half of a migration, once the data is on the new disk: that becomes the
      current one, and then the original disk goes. */
  method ReplaceDisk(env: Environment, v: string, original: CloudDisk, newDisk: CloudDisk) returns (ok: bool)
    requires env.AtRest() && Idle(env.w, v)
    requires CurrentDisk(env.w.state).Some? && FromRecord(CurrentDisk(env.w.state).value) == original
    requires original.cid in env.w.disks
    requires newDisk.cid != original.cid && newDisk.cid in env.w.disks && env.w.disks[newDisk.cid] == env.w.latest
    requires FindDiskByCID(env.w.state.disks, newDisk.cid).Some?
    requires FromRecord(FindDiskByCID(env.w.state.disks, newDisk.cid).value) == newDisk
    requires env.w.vms[v].store == newDisk.cid && env.w.vms[v].attached == {original.cid, newDisk.cid}
    modifies env`w, env`safeSoFar, env`trouble
    ensures env.AtRest()
    ensures DeployedDisks(old(env.w), env.w, v)
    ensures ok ==>
      && InUse(env.w, v, newDisk)
      && original.cid !in env.w.disks && FindDiskByCID(env.w.state.disks, original.cid).None?
    ensures Onward(old(env.trouble), old(env.w.leaked), env.trouble, env.w.leaked)
    ensures env.trouble == old(env.trouble) ==> ok
  {
    hide Safe, CurrentDisk, Recorded, RemoveDisk, WithoutDisk, FindDiskByCID, FindDiskByID;
    IdleMeansNoneRunning(env.w, env.condemned, v);
    ok := UpdateCurrentDiskRecord(env, newDisk);
    if !ok { return; }
    ok := VMs.DetachDisk(env, v, original);
    if !ok { return; }
    SafeRecords(env.w, env.condemned);
    WithoutUnused(env.w.state, original.cid);
    var deleted := Disks.Delete(env, original);
    ok := deleted == Ok;
  }

  /** The new disk becomes current only after the data is on it, and the old one is
      deleted only after that. NotFound is an error here: no stage skips it. */
  method MigrateDisk(env: Environment, v: string, original: CloudDisk, pool: DiskPool)
    returns (ok: bool, newDisk: Option<CloudDisk>)
    requires env.AtRest() && Idle(env.w, v) && InUse(env.w, v, original) && env.w.vms[v].target == ""
    modifies env`w, env`safeSoFar, env`trouble
    ensures env.AtRest()
    ensures DeployedDisks(old(env.w), env.w, v)
    ensures ok ==>
      && newDisk.Some? && newDisk.value.cid != original.cid
      && !newDisk.value.NeedsMigration(pool.size, pool.props)
      && InUse(env.w, v, newDisk.value)
      && original.cid !in env.w.disks && FindDiskByCID(env.w.state.disks, original.cid).None?
    ensures Onward(old(env.trouble), old(env.w.leaked), env.trouble, env.w.leaked)
    ensures env.trouble == old(env.trouble) ==> ok
  {
    hide Safe, CurrentDisk, Recorded, RemoveDisk, WithoutDisk, FindDiskByCID, FindDiskByID;
    ok := false;
    CurrentDiskHoldsLatest(env.w, env.condemned, original.cid);
    newDisk := Disks.Create(env, pool);
    if newDisk.None? { return; }
    ok := VMs.AttachDisk(env, v, newDisk.value);
    if !ok { return; }
    assert env.w.vms[v].target == newDisk.value.cid;
    assert IsCurrentDisk(env.w.state, original.cid) && !IsCurrentDisk(env.w.state, newDisk.value.cid);
    ok := env.MigrateDisk(v);
    if !ok { return; }
    assert env.w.disks[newDisk.value.cid] == env.w.latest;
    assert DeployedDisks(old(env.w), env.w, v);
    ghost var migrated := env.w;
    hide DeployedDisks, InUse, Onward;
    ok := ReplaceDisk(env, v, original, newDisk.value);
    DeployedDisksTwice(old(env.w), migrated, env.w, v);
  }

  method DeployExistingDisk(env: Environment, v: string, disk: CloudDisk, pool: DiskPool)
    returns (ok: bool, disks: seq<CloudDisk>)
    requires env.AtRest() && Fresh(env.w, v)
    requires CurrentDisk(env.w.state).Some? && disk == FromRecord(CurrentDisk(env.w.state).value)
    modifies env`w, env`safeSoFar, env`trouble
    ensures env.AtRest()
    ensures DeployedDisks(old(env.w), env.w, v)
    ensures ok ==>
      |disks| == 1 && !disks[0].NeedsMigration(pool.size, pool.props) && InUse(env.w, v, disks[0])
    ensures ok ==> disk.cid in old(env.w.disks)
    ensures pool.size != 0 ==> NoNeedlessDisk(old(env.w), env.w, pool)
    ensures Onward(old(env.trouble), old(env.w.leaked), env.trouble, env.w.leaked)
    ensures env.trouble == old(env.trouble) && disk.cid in old(env.w.disks) ==> ok
  {
    hide Safe;
    disks := [disk];
    ok := VMs.AttachDisk(env, v, disk);
    if !ok { return; }
    if disk.NeedsMigration(pool.size, pool.props) {
      var migrated;
      ok, migrated := MigrateDisk(env, v, disk, pool);
      if !ok { return; }
      disks := disks[0 := migrated.value];
    }
  }

  method DeployNewDisk(env: Environment, v: string, pool: DiskPool)
    returns (ok: bool, disks: seq<CloudDisk>)
    requires env.AtRest() && Fresh(env.w, v)
    requires CurrentDisk(env.w.state).None?
    modifies env`w, env`safeSoFar, env`trouble
    ensures env.AtRest()
    ensures DeployedDisks(old(env.w), env.w, v)
    ensures ok ==>
      |disks| == 1 && !disks[0].NeedsMigration(pool.size, pool.props) && InUse(env.w, v, disks[0])
    ensures !ok ==> env.w.state.currentDiskID == old(env.w.state.currentDiskID) && CurrentDisk(env.w.state).None?
    ensures Onward(old(env.trouble), old(env.w.leaked), env.trouble, env.w.leaked)
    ensures env.trouble == old(env.trouble) ==> ok
  {
    hide Safe;
    ok, disks := false, [];
    var disk := Disks.Create(env, pool);
    if disk.None? { return; }
    ok := VMs.AttachDisk(env, v, disk.value);
    if !ok { return; }
    disks := [disk.value];
    IdleMeansNoneRunning(env.w, env.condemned, v);
    ok := UpdateCurrentDiskRecord(env, disk.value);
  }

  /** A pool of size zero leaves everything alone. Otherwise success means convergence:
      one disk record is left, it is current and has the size and the properties of the
      pool, and its disk is alive, in use on the VM, and the one that is returned. */
  method Deploy(env: Environment, v: string, pool: DiskPool) returns (ok: bool, disks: seq<CloudDisk>)
    requires env.AtRest() && Fresh(env.w, v)
    modifies env`w, env`safeSoFar, env`trouble
    ensures env.AtRest()
    ensures DeployedDisks(old(env.w), env.w, v)
    ensures pool.size == 0 ==> ok && disks == [] && env.w == old(env.w)
    ensures ok && pool.size != 0 ==> OneDisk(env.w, v, pool, disks)
    ensures ok ==> StoreIsCurrent(env.w, v)
    ensures NoNeedlessDisk(old(env.w), env.w, pool)
    ensures Onward(old(env.trouble), old(env.w.leaked), env.trouble, env.w.leaked)
    ensures env.trouble == old(env.trouble) ==> (ok <==> DiskReady(old(env.w), pool))
    ensures ok ==> DiskReady(old(env.w), pool)
  {
    hide Safe;
    if pool.size == 0 {
      return true, [];
    }
    ok, disks := Disks.FindCurrent(env);
    if !ok { return; }
    if |disks| == 1 {
      ok, disks := DeployExistingDisk(env, v, disks[0], pool);
      if !ok { return; }
    } else {
      ok, disks := DeployNewDisk(env, v, pool);
      if !ok { return; }
    }
    ok := Disks.DeleteUnused(env);
  }
}

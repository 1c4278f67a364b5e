/** config/disk_repo.go: disk records in the state file. */
module DiskRepo {
  import opened Wrappers
  import opened DeploymentStates
  import opened Environments

  ghost predicate CreatedAs(w: World, cid: string, size: int, props: Properties) {
    cid in w.usedDisks && w.usedDisks[cid] == DiskShape(size, props)
  }

  /** The record for a new disk, provided that no record has its CID. */
  method Save(env: Environment, cid: string, size: int, props: Properties) returns (r: Option<DiskRecord>)
    modifies env`w, env`safeSoFar, env`trouble
    ensures r.Some? ==>
      && r.value == DiskRecord(r.value.id, cid, size, props) && r.value.id != ""
      && FindDiskByCID(old(env.w.state).disks, cid).None?
      && FindDiskByID(old(env.w.state).disks, r.value.id).None?
      && env.w == Saved(old(env.w), AddDisk(old(env.w.state), r.value), Quiet)
    ensures r.None? ==> env.w == old(env.w)
    ensures FindDiskByCID(old(env.w.state).disks, cid).None? ==> StateTrouble(old(env.trouble), env.trouble, r.Some?)
    ensures FindDiskByCID(old(env.w.state).disks, cid).Some? ==> r.None?
    ensures old(env.trouble).Before(env.trouble)
    ensures old(env.Sound()) && cid != "" && CreatedAs(old(env.w), cid, size, props) ==>
      && env.Sound()
      && CurrentDisk(env.w.state) == CurrentDisk(old(env.w.state))
      && (r.Some? ==> FindDiskByCID(env.w.state.disks, cid) == r)
  {
    hide Safe;
    r := None;
    var loaded, s := env.Load();
    if !loaded { return; }
    var existing := FindByCID(s.disks, cid);
    if existing.Some? { return; }
    var id := env.GenerateUUID([]);
    if id.None? { return; }
    var record := DiskRecord(id.value, cid, size, props);
    if env.Sound() && cid != "" && CreatedAs(env.w, cid, size, props) {
      AddedSafe(env.w, record, env.condemned);
    }
    var saved := env.Save(AddDisk(s, record), Quiet);
    if saved {
      r := Some(record);
    }
  }

  lemma AddedCovered(w: World, r: DiskRecord)
    requires Covered(w)
    ensures Covered(Saved(w, AddDisk(w.state, r), Quiet))
  {
    var t := Saved(w, AddDisk(w.state, r), Quiet);
    forall c | c in t.disks ensures (exists x :: x in t.state.disks && x.cid == c) || Disk(c) in t.unrecorded {
      if x :| x in w.state.disks && x.cid == c {
        assert x in t.state.disks;
      } else if Disk(c) in Recorded(t.state) {
        assert r in t.state.disks;
      }
    }
  }

  lemma AddedTrue(w: World, r: DiskRecord)
    requires RecordsTrue(w) && CreatedAs(w, r.cid, r.size, r.props)
    ensures RecordsTrue(Saved(w, AddDisk(w.state, r), Quiet))
  {}

  /** Recording a new disk keeps the world safe. */
  lemma AddedSafe(w: World, r: DiskRecord, condemned: set<string>)
    requires Safe(w, condemned)
    requires r.id != "" && r.cid != "" && CreatedAs(w, r.cid, r.size, r.props)
    requires FindDiskByID(w.state.disks, r.id).None? && FindDiskByCID(w.state.disks, r.cid).None?
    ensures Safe(Saved(w, AddDisk(w.state, r), Quiet), condemned)
    ensures CurrentDisk(AddDisk(w.state, r)) == CurrentDisk(w.state)
    ensures FindDiskByCID(AddDisk(w.state, r).disks, r.cid) == Some(r)
  {
    AddedCovered(w, r);
    AddedTrue(w, r);
    hide Covered, RecordsTrue;
    AddDiskKeeps(w.state, r);
  }

  lemma OthersStay(rs: seq<DiskRecord>, r: DiskRecord)
    requires DistinctDisks(rs) && r in rs
    ensures forall x | x in rs && x.cid != r.cid :: x in DropDisk(rs, r.id)
  {
    forall x | x in rs && x.cid != r.cid ensures x.id != r.id {
      FoundDisk(rs, x);
      FoundDisk(rs, r);
    }
  }

  lemma RemovedDisksCovered(w: World, r: DiskRecord)
    requires DisksCovered(w)
    requires DistinctDisks(w.state.disks) && r in w.state.disks && r.cid !in w.disks
    ensures DisksCovered(Saved(w, RemoveDisk(w.state, r.id), Quiet))
  {
    hide DistinctDisks, CurrentDisk, DropDisk;
    OthersStay(w.state.disks, r);
    var t := Saved(w, RemoveDisk(w.state, r.id), Quiet);
    forall c | c in t.disks ensures (exists x :: x in t.state.disks && x.cid == c) || Disk(c) in t.unrecorded {
      if x :| x in w.state.disks && x.cid == c {
        assert x in t.state.disks;
      } else {
        assert Disk(c) in w.unrecorded;
      }
    }
  }

  lemma RemovedCovered(w: World, r: DiskRecord)
    requires Covered(w)
    requires DistinctDisks(w.state.disks) && r in w.state.disks && r.cid !in w.disks
    ensures Covered(Saved(w, RemoveDisk(w.state, r.id), Quiet))
  {
    hide DisksCovered, DistinctDisks, CurrentDisk;
    RemovedDisksCovered(w, r);
  }

  /** Removing the record of a disk that is gone keeps the world safe. */
  lemma RemovedSafe(w: World, r: DiskRecord, condemned: set<string>)
    requires Safe(w, condemned) && Removable(w, r)
    ensures Safe(Saved(w, RemoveDisk(w.state, r.id), Quiet), condemned)
  {
    RemovedCovered(w, r);
    hide Covered;
    RemoveDiskKeeps(w.state, r.id);
  }

  method FindByCID(records: seq<DiskRecord>, cid: string) returns (r: Option<DiskRecord>)
    ensures r == FindDiskByCID(records, cid)
  {
    for i := 0 to |records|
      invariant FindDiskByCID(records, cid) == FindDiskByCID(records[i..], cid)
    {
      if records[i].cid == cid {
        return Some(records[i]);
      }
    }
    return None;
  }

  method Find(env: Environment, cid: string) returns (ok: bool, r: Option<DiskRecord>)
    modifies env`trouble
    ensures ok ==> r == FindDiskByCID(env.w.state.disks, cid)
    ensures StateTrouble(old(env.trouble), env.trouble, ok)
  {
    var s;
    ok, s := env.Load();
    r := FindByCID(s.disks, cid);
  }

  method FindByID(records: seq<DiskRecord>, id: string) returns (r: Option<DiskRecord>)
    ensures r == FindDiskByID(records, id)
  {
    for i := 0 to |records|
      invariant FindDiskByID(records, id) == FindDiskByID(records[i..], id)
    {
      if records[i].id == id {
        return Some(records[i]);
      }
    }
    return None;
  }

  method FindCurrent(env: Environment) returns (ok: bool, r: Option<DiskRecord>)
    modifies env`trouble
    ensures ok ==> r == CurrentDisk(env.w.state)
    ensures StateTrouble(old(env.trouble), env.trouble, ok)
  {
    var s;
    ok, s := env.Load();
    r := None;
    if ok && s.currentDiskID != "" {
      r := FindByID(s.disks, s.currentDiskID);
    }
  }

  method All(env: Environment) returns (ok: bool, rs: seq<DiskRecord>)
    modifies env`trouble
    ensures ok ==> rs == env.w.state.disks
    ensures StateTrouble(old(env.trouble), env.trouble, ok)
  {
    var s;
    ok, s := env.Load();
    rs := s.disks;
  }

  /** Making a record current keeps the world safe when its disk can take over. */
  lemma SwitchedSafe(w: World, id: string, condemned: set<string>)
    requires Safe(w, condemned) && NoneRunning(w)
    requires FindDiskByID(w.state.disks, id).Some? && CanTakeOver(w, FindDiskByID(w.state.disks, id).value.cid)
    ensures Safe(Saved(w, w.state.(currentDiskID := id), Quiet), condemned)
  {
    StillCovered(w, w.state.(currentDiskID := id), Quiet);
    hide Covered, RecordsTrue;
  }

  /** The disk is alive and, unless there is no current disk, already holds the latest data. */
  ghost predicate CanTakeOver(w: World, c: string) {
    c in w.disks && (CurrentDisk(w.state).Some? ==> w.disks[c] == w.latest)
  }

  /** Makes an existing record the current one. This is safe when no job runs and the disk of
      the record can take over. */
  method UpdateCurrent(env: Environment, id: string) returns (ok: bool)
    modifies env`w, env`safeSoFar, env`trouble
    ensures ok ==>
      && FindDiskByID(old(env.w.state).disks, id).Some?
      && env.w == Saved(old(env.w), old(env.w.state).(currentDiskID := id), Quiet)
    ensures !ok ==> env.w == old(env.w)
    ensures FindDiskByID(old(env.w.state).disks, id).Some? ==> StateTrouble(old(env.trouble), env.trouble, ok)
    ensures old(env.trouble).Before(env.trouble)
    ensures old(env.Sound()) && (FindDiskByID(old(env.w.state).disks, id).Some? ==>
        NoneRunning(old(env.w)) && CanTakeOver(old(env.w), FindDiskByID(old(env.w.state).disks, id).value.cid))
      ==> env.Sound()
  {
    hide Safe;
    ok := false;
    var loaded, s := env.Load();
    if !loaded { return; }
    var found := false;
    for i := 0 to |s.disks|
      invariant found <==> exists j :: 0 <= j < i && s.disks[j].id == id
    {
      if s.disks[i].id == id {
        found := true;
      }
    }
    if !found { return; }
    if env.Sound() && NoneRunning(env.w) && CanTakeOver(env.w, FindDiskByID(s.disks, id).value.cid) {
      SwitchedSafe(env.w, id, env.condemned);
    }
    ok := env.Save(s.(currentDiskID := id), Quiet);
  }

  /** The disk of the record is gone, and if it was the current one then nothing runs. */
  ghost predicate Removable(w: World, record: DiskRecord) {
    && record in w.state.disks && record.cid !in w.disks
    && (w.state.currentDiskID == record.id ==> NoneRunning(w))
  }

  /** Removes a record, and the current ID with it. This is safe when the disk is gone. */
  method Delete(env: Environment, record: DiskRecord) returns (ok: bool)
    modifies env`w, env`safeSoFar, env`trouble
    ensures env.w == if ok then Saved(old(env.w), RemoveDisk(old(env.w.state), record.id), Quiet)
                     else old(env.w)
    ensures StateTrouble(old(env.trouble), env.trouble, ok)
    ensures old(env.Sound()) && Removable(old(env.w), record) ==> env.Sound()
  {
    hide Safe;
    ok := false;
    var loaded, s := env.Load();
    if !loaded { return; }
    var kept := Without(s.disks, record.id);
    var current := if s.currentDiskID == record.id then "" else s.currentDiskID;
    if env.Sound() && Removable(env.w, record) {
      RemovedSafe(env.w, record, env.condemned);
    }
    assert s.(disks := kept, currentDiskID := current) == RemoveDisk(s, record.id);
    ok := env.Save(s.(disks := kept, currentDiskID := current), Quiet);
  }

  method Without(records: seq<DiskRecord>, id: string) returns (kept: seq<DiskRecord>)
    ensures kept == DropDisk(records, id)
  {
    kept := [];
    for i := 0 to |records|
      invariant kept == DropDisk(records[..i], id)
    {
      assert records[..i + 1][..i] == records[..i];
      if records[i].id != id {
        kept := kept + [records[i]];
      }
    }
    assert records[..|records|] == records;
  }

  lemma ForgottenSafe(w: World, condemned: set<string>)
    requires Safe(w, condemned) && NoneRunning(w)
    ensures Safe(Saved(w, w.state.(currentDiskID := ""), Quiet), condemned)
  {}

  /** Forgets which disk is current. This is safe when nothing runs. */
  method ClearCurrent(env: Environment) returns (ok: bool)
    modifies env`w, env`safeSoFar, env`trouble
    ensures env.w == if ok then Saved(old(env.w), old(env.w.state).(currentDiskID := ""), Quiet)
                     else old(env.w)
    ensures StateTrouble(old(env.trouble), env.trouble, ok)
    ensures old(env.Sound()) && NoneRunning(old(env.w)) ==> env.Sound()
  {
    hide Safe;
    ok := false;
    var loaded, s := env.Load();
    if !loaded { return; }
    if env.Sound() && NoneRunning(env.w) {
      ForgottenSafe(env.w, env.condemned);
    }
    ok := env.Save(s.(currentDiskID := ""), Quiet);
  }
}

/** config/stemcell_repo.go: stemcell records in the state file. */
module StemcellRepo {
  import opened Wrappers
  import opened DeploymentStates
  import opened Environments

  lemma AddedCovered(w: World, r: StemcellRecord)
    requires Covered(w)
    ensures Covered(Saved(w, AddStemcell(w.state, r), Quiet))
  {
    var t := Saved(w, AddStemcell(w.state, r), Quiet);
    forall c | c in t.stemcells ensures (exists x :: x in t.state.stemcells && x.cid == c) || Stemcell(c) in t.unrecorded {
      if x :| x in w.state.stemcells && x.cid == c {
        assert x in t.state.stemcells;
      } else if Stemcell(c) in Recorded(t.state) {
        assert r in t.state.stemcells;
      }
    }
  }

  lemma AddedTrue(w: World, r: StemcellRecord)
    requires RecordsTrue(w) && StemcellUpload(r.cid, r.name, r.version) in w.uploads
    ensures RecordsTrue(Saved(w, AddStemcell(w.state, r), Quiet))
  {}

  /** Recording a new stemcell keeps the world safe. */
  lemma AddedSafe(w: World, r: StemcellRecord, condemned: set<string>)
    requires Safe(w, condemned) && StemcellUpload(r.cid, r.name, r.version) in w.uploads
    requires r.id != "" && FindStemcellByID(w.state.stemcells, r.id).None?
    requires FindStemcellByName(w.state.stemcells, r.name, r.version).None?
    ensures Safe(Saved(w, AddStemcell(w.state, r), Quiet), condemned)
    ensures CurrentStemcell(AddStemcell(w.state, r)) == CurrentStemcell(w.state)
    ensures FindStemcellByName(AddStemcell(w.state, r).stemcells, r.name, r.version) == Some(r)
  {
    AddedCovered(w, r);
    AddedTrue(w, r);
    hide Covered, RecordsTrue;
    AddStemcellKeeps(w.state, r);
  }

  lemma RemovedCovered(w: World, r: StemcellRecord)
    requires Covered(w)
    requires DistinctStemcells(w.state.stemcells) && r in w.state.stemcells && r.cid !in w.stemcells
    ensures Covered(Saved(w, RemoveStemcell(w.state, r.id), Quiet))
  {
    var t := Saved(w, RemoveStemcell(w.state, r.id), Quiet);
    FoundStemcell(w.state.stemcells, r);
    forall c | c in t.stemcells ensures (exists x :: x in t.state.stemcells && x.cid == c) || Stemcell(c) in t.unrecorded {
      if x :| x in w.state.stemcells && x.cid == c {
        FoundStemcell(w.state.stemcells, x);
        assert x in t.state.stemcells;
      } else {
        assert Stemcell(c) in w.unrecorded;
      }
    }
  }

  /** Removing the record of a stemcell that is gone keeps the world safe. */
  lemma RemovedSafe(w: World, r: StemcellRecord, condemned: set<string>)
    requires Safe(w, condemned)
    requires r in w.state.stemcells && r.cid !in w.stemcells
    ensures Safe(Saved(w, RemoveStemcell(w.state, r.id), Quiet), condemned)
  {
    RemovedCovered(w, r);
    hide Covered;
    RemoveStemcellKeeps(w.state, r.id);
  }

  method Save(env: Environment, name: string, version: string, cid: string) returns (r: Option<StemcellRecord>)
    modifies env`w, env`safeSoFar, env`trouble
    ensures r.Some? ==>
      && r.value == StemcellRecord(r.value.id, name, version, cid) && r.value.id != ""
      && FindStemcellByName(old(env.w.state).stemcells, name, version).None?
      && FindStemcellByID(old(env.w.state).stemcells, r.value.id).None?
      && env.w == Saved(old(env.w), AddStemcell(old(env.w.state), r.value), Quiet)
    ensures r.None? ==> env.w == old(env.w)
    ensures FindStemcellByName(old(env.w.state).stemcells, name, version).None? ==>
      StateTrouble(old(env.trouble), env.trouble, r.Some?)
    ensures FindStemcellByName(old(env.w.state).stemcells, name, version).Some? ==> r.None?
    ensures old(env.trouble).Before(env.trouble)
    ensures old(env.Sound()) && StemcellUpload(cid, name, version) in old(env.w.uploads) ==>
      && env.Sound()
      && CurrentStemcell(env.w.state) == CurrentStemcell(old(env.w.state))
      && (r.Some? ==> FindStemcellByName(env.w.state.stemcells, name, version) == r)
  {
    hide Safe;
    r := None;
    var loaded, s := env.Load();
    if !loaded { return; }
    var id := env.GenerateUUID([]);
    if id.None? { return; }
    var record := StemcellRecord(id.value, name, version, cid);
    var existing := FindByName(s.stemcells, name, version);
    if existing.Some? { return; }
    if env.Sound() && StemcellUpload(cid, name, version) in env.w.uploads {
      AddedSafe(env.w, record, env.condemned);
    }
    var saved := env.Save(AddStemcell(s, record), Quiet);
    if saved {
      r := Some(record);
    }
  }

  method FindByName(records: seq<StemcellRecord>, name: string, version: string) returns (r: Option<StemcellRecord>)
    ensures r == FindStemcellByName(records, name, version)
  {
    for i := 0 to |records|
      invariant FindStemcellByName(records, name, version) == FindStemcellByName(records[i..], name, version)
    {
      if records[i].name == name && records[i].version == version {
        return Some(records[i]);
      }
    }
    return None;
  }

  method Find(env: Environment, name: string, version: string) returns (ok: bool, r: Option<StemcellRecord>)
    modifies env`trouble
    ensures ok ==> r == FindStemcellByName(env.w.state.stemcells, name, version)
    ensures StateTrouble(old(env.trouble), env.trouble, ok)
  {
    var s;
    ok, s := env.Load();
    r := FindByName(s.stemcells, name, version);
  }

  method FindByID(records: seq<StemcellRecord>, id: string) returns (r: Option<StemcellRecord>)
    ensures r == FindStemcellByID(records, id)
  {
    for i := 0 to |records|
      invariant FindStemcellByID(records, id) == FindStemcellByID(records[i..], id)
    {
      if records[i].id == id {
        return Some(records[i]);
      }
    }
    return None;
  }

  method FindCurrent(env: Environment) returns (ok: bool, r: Option<StemcellRecord>)
    modifies env`trouble
    ensures ok ==> r == CurrentStemcell(env.w.state)
    ensures StateTrouble(old(env.trouble), env.trouble, ok)
  {
    var s;
    ok, s := env.Load();
    r := None;
    if ok && s.currentStemcellID != "" {
      r := FindByID(s.stemcells, s.currentStemcellID);
    }
  }

  method All(env: Environment) returns (ok: bool, rs: seq<StemcellRecord>)
    modifies env`trouble
    ensures ok ==> rs == env.w.state.stemcells
    ensures StateTrouble(old(env.trouble), env.trouble, ok)
  {
    var s;
    ok, s := env.Load();
    rs := s.stemcells;
  }

  lemma SwitchedSafe(w: World, id: string, condemned: set<string>)
    requires Safe(w, condemned) && FindStemcellByID(w.state.stemcells, id).Some?
    ensures Safe(Saved(w, w.state.(currentStemcellID := id), Quiet), condemned)
  {
    StillCovered(w, w.state.(currentStemcellID := id), Quiet);
    hide Covered, RecordsTrue;
  }

  method UpdateCurrent(env: Environment, id: string) returns (ok: bool)
    modifies env`w, env`safeSoFar, env`trouble
    ensures ok ==>
      && FindStemcellByID(old(env.w.state).stemcells, id).Some?
      && env.w == Saved(old(env.w), old(env.w.state).(currentStemcellID := id), Quiet)
    ensures !ok ==> env.w == old(env.w)
    ensures FindStemcellByID(old(env.w.state).stemcells, id).Some? ==> StateTrouble(old(env.trouble), env.trouble, ok)
    ensures old(env.trouble).Before(env.trouble)
    ensures old(env.Sound()) ==> env.Sound()
  {
    hide Safe;
    ok := false;
    var loaded, s := env.Load();
    if !loaded { return; }
    var found := false;
    for i := 0 to |s.stemcells|
      invariant found <==> exists j :: 0 <= j < i && s.stemcells[j].id == id
    {
      if s.stemcells[i].id == id {
        found := true;
      }
    }
    if !found { return; }
    if env.Sound() {
      SwitchedSafe(env.w, id, env.condemned);
    }
    ok := env.Save(s.(currentStemcellID := id), Quiet);
  }

  lemma ForgottenSafe(w: World, condemned: set<string>)
    requires Safe(w, condemned)
    ensures Safe(Saved(w, w.state.(currentStemcellID := ""), Quiet), condemned)
  {}

  method ClearCurrent(env: Environment) returns (ok: bool)
    modifies env`w, env`safeSoFar, env`trouble
    ensures env.w == if ok then Saved(old(env.w), old(env.w.state).(currentStemcellID := ""), Quiet)
                     else old(env.w)
    ensures StateTrouble(old(env.trouble), env.trouble, ok)
    ensures old(env.Sound()) ==> env.Sound()
  {
    hide Safe;
    ok := false;
    var loaded, s := env.Load();
    if !loaded { return; }
    if env.Sound() {
      ForgottenSafe(env.w, env.condemned);
    }
    ok := env.Save(s.(currentStemcellID := ""), Quiet);
  }

  /** Removes a record, and the current ID with it. This is safe when the stemcell is gone. */
  method Delete(env: Environment, record: StemcellRecord) returns (ok: bool)
    modifies env`w, env`safeSoFar, env`trouble
    ensures env.w == if ok then Saved(old(env.w), RemoveStemcell(old(env.w.state), record.id), Quiet)
                     else old(env.w)
    ensures StateTrouble(old(env.trouble), env.trouble, ok)
    ensures old(env.Sound()) && record in old(env.w.state.stemcells) && record.cid !in old(env.w.stemcells) ==> env.Sound()
  {
    hide Safe;
    ok := false;
    var loaded, s := env.Load();
    if !loaded { return; }
    var kept := Without(s.stemcells, record.id);
    var current := if s.currentStemcellID == record.id then "" else s.currentStemcellID;
    if env.Sound() && record in s.stemcells && record.cid !in env.w.stemcells {
      RemovedSafe(env.w, record, env.condemned);
    }
    assert s.(stemcells := kept, currentStemcellID := current) == RemoveStemcell(s, record.id);
    ok := env.Save(s.(stemcells := kept, currentStemcellID := current), Quiet);
  }

  method Without(records: seq<StemcellRecord>, id: string) returns (kept: seq<StemcellRecord>)
    ensures kept == DropStemcell(records, id)
  {
    kept := [];
    for i := 0 to |records|
      invariant kept == DropStemcell(records[..i], id)
    {
      assert records[..i + 1][..i] == records[..i];
      if records[i].id != id {
        kept := kept + [records[i]];
      }
    }
    assert records[..|records|] == records;
  }
}

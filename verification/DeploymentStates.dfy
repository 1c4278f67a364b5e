/** The persisted deployment state and the pure updates the repositories make to it. */
module DeploymentStates {
  import opened Wrappers

  type Properties = map<string, string>

  datatype DiskRecord = DiskRecord(id: string, cid: string, size: int, props: Properties)
  datatype StemcellRecord = StemcellRecord(id: string, name: string, version: string, cid: string)
  datatype ReleaseRecord = ReleaseRecord(id: string, name: string, version: string)

  /** An empty current ID, CID or SHA1 means that there is none. */
  datatype DeploymentState = DeploymentState(
    currentVMCID: string,
    currentStemcellID: string,
    currentDiskID: string,
    currentReleaseIDs: seq<string>,
    currentManifestSHA1: string,
    disks: seq<DiskRecord>,
    stemcells: seq<StemcellRecord>,
    releases: seq<ReleaseRecord>)

  // ----- Lookups: the first match, as the Go loops return it -----

  function FindDiskByCID(rs: seq<DiskRecord>, cid: string): (r: Option<DiskRecord>)
    ensures r.Some? ==> r.value in rs && r.value.cid == cid
    ensures r.None? ==> forall x | x in rs :: x.cid != cid
  {
    if rs == [] then None else if rs[0].cid == cid then Some(rs[0]) else FindDiskByCID(rs[1..], cid)
  }

  function FindDiskByID(rs: seq<DiskRecord>, id: string): (r: Option<DiskRecord>)
    ensures r.Some? ==> r.value in rs && r.value.id == id
    ensures r.None? ==> forall x | x in rs :: x.id != id
  {
    if rs == [] then None else if rs[0].id == id then Some(rs[0]) else FindDiskByID(rs[1..], id)
  }

  function FindStemcellByName(rs: seq<StemcellRecord>, name: string, version: string): (r: Option<StemcellRecord>)
    ensures r.Some? ==> r.value in rs && r.value.name == name && r.value.version == version
    ensures r.None? ==> forall x | x in rs :: x.name != name || x.version != version
  {
    if rs == [] then None
    else if rs[0].name == name && rs[0].version == version then Some(rs[0])
    else FindStemcellByName(rs[1..], name, version)
  }

  function FindStemcellByID(rs: seq<StemcellRecord>, id: string): (r: Option<StemcellRecord>)
    ensures r.Some? ==> r.value in rs && r.value.id == id
    ensures r.None? ==> forall x | x in rs :: x.id != id
  {
    if rs == [] then None else if rs[0].id == id then Some(rs[0]) else FindStemcellByID(rs[1..], id)
  }

  function CurrentDisk(s: DeploymentState): Option<DiskRecord> {
    if s.currentDiskID == "" then None else FindDiskByID(s.disks, s.currentDiskID)
  }

  function CurrentStemcell(s: DeploymentState): Option<StemcellRecord> {
    if s.currentStemcellID == "" then None else FindStemcellByID(s.stemcells, s.currentStemcellID)
  }

  // ----- Updates -----

  function DropDisk(rs: seq<DiskRecord>, id: string): (kept: seq<DiskRecord>)
    ensures forall r :: r in kept <==> r in rs && r.id != id
  {
    if rs == [] then []
    else var n := |rs| - 1; DropDisk(rs[..n], id) + if rs[n].id == id then [] else [rs[n]]
  }

  function DropStemcell(rs: seq<StemcellRecord>, id: string): (kept: seq<StemcellRecord>)
    ensures forall r :: r in kept <==> r in rs && r.id != id
  {
    if rs == [] then []
    else var n := |rs| - 1; DropStemcell(rs[..n], id) + if rs[n].id == id then [] else [rs[n]]
  }

  function AddDisk(s: DeploymentState, r: DiskRecord): DeploymentState {
    s.(disks := s.disks + [r])
  }

  function RemoveDisk(s: DeploymentState, id: string): DeploymentState {
    s.(disks := DropDisk(s.disks, id), currentDiskID := if s.currentDiskID == id then "" else s.currentDiskID)
  }

  function AddStemcell(s: DeploymentState, r: StemcellRecord): DeploymentState {
    s.(stemcells := s.stemcells + [r])
  }

  function RemoveStemcell(s: DeploymentState, id: string): DeploymentState {
    s.(stemcells := DropStemcell(s.stemcells, id),
       currentStemcellID := if s.currentStemcellID == id then "" else s.currentStemcellID)
  }

  // ----- Record integrity -----

  ghost predicate DistinctDisks(rs: seq<DiskRecord>) {
    && (forall r | r in rs :: r.id != "" && r.cid != "")
    && (forall i, j | 0 <= i < j < |rs| :: rs[i].id != rs[j].id && rs[i].cid != rs[j].cid)
  }

  ghost predicate DistinctStemcells(rs: seq<StemcellRecord>) {
    && (forall r | r in rs :: r.id != "")
    && (forall i, j | 0 <= i < j < |rs| ::
          rs[i].id != rs[j].id && (rs[i].name != rs[j].name || rs[i].version != rs[j].version))
  }

  /** Record IDs, disk CIDs and stemcell (name, version) pairs are unique, and each
      current ID is empty or names an existing record. */
  ghost predicate Integrity(s: DeploymentState) {
    && DistinctDisks(s.disks)
    && DistinctStemcells(s.stemcells)
    && (s.currentDiskID != "" ==> CurrentDisk(s).Some?)
    && (s.currentStemcellID != "" ==> CurrentStemcell(s).Some?)
  }

  lemma {:induction false} DropDiskDistinct(rs: seq<DiskRecord>, id: string)
    requires DistinctDisks(rs)
    ensures DistinctDisks(DropDisk(rs, id))
  {
    if rs != [] {
      var n := |rs| - 1;
      DropDiskDistinct(rs[..n], id);
    }
  }

  lemma {:induction false} DropStemcellDistinct(rs: seq<StemcellRecord>, id: string)
    requires DistinctStemcells(rs)
    ensures DistinctStemcells(DropStemcell(rs, id))
  {
    if rs != [] {
      var n := |rs| - 1;
      DropStemcellDistinct(rs[..n], id);
    }
  }

  /** With unique IDs and CIDs each lookup finds exactly the record that matches. */
  lemma FoundDisk(rs: seq<DiskRecord>, r: DiskRecord)
    requires DistinctDisks(rs) && r in rs
    ensures FindDiskByCID(rs, r.cid) == Some(r)
    ensures FindDiskByID(rs, r.id) == Some(r)
  {
    var k :| 0 <= k < |rs| && rs[k] == r;
    var a, b := FindDiskByCID(rs, r.cid).value, FindDiskByID(rs, r.id).value;
    var i :| 0 <= i < |rs| && rs[i] == a;
    var j :| 0 <= j < |rs| && rs[j] == b;
  }

  lemma FoundStemcell(rs: seq<StemcellRecord>, r: StemcellRecord)
    requires DistinctStemcells(rs) && r in rs
    ensures FindStemcellByName(rs, r.name, r.version) == Some(r)
    ensures FindStemcellByID(rs, r.id) == Some(r)
  {
    var k :| 0 <= k < |rs| && rs[k] == r;
    var a, b := FindStemcellByName(rs, r.name, r.version).value, FindStemcellByID(rs, r.id).value;
    var i :| 0 <= i < |rs| && rs[i] == a;
    var j :| 0 <= j < |rs| && rs[j] == b;
  }

  // ----- Every update a repository makes keeps the records sound -----

  lemma AddDiskKeeps(s: DeploymentState, r: DiskRecord)
    requires Integrity(s)
    requires r.id != "" && r.cid != "" && FindDiskByID(s.disks, r.id).None? && FindDiskByCID(s.disks, r.cid).None?
    ensures Integrity(AddDisk(s, r))
    ensures CurrentDisk(AddDisk(s, r)) == CurrentDisk(s)
    ensures FindDiskByCID(AddDisk(s, r).disks, r.cid) == Some(r)
  {
    var t := AddDisk(s, r);
    assert DistinctDisks(t.disks);
    FoundDisk(t.disks, r);
    if CurrentDisk(s).Some? {
      FoundDisk(t.disks, CurrentDisk(s).value);
    }
  }

  lemma RemoveDiskKeeps(s: DeploymentState, id: string)
    requires Integrity(s)
    ensures Integrity(RemoveDisk(s, id))
    ensures CurrentDisk(RemoveDisk(s, id)) == if s.currentDiskID == id then None else CurrentDisk(s)
  {
    DropDiskDistinct(s.disks, id);
    if s.currentDiskID != id && s.currentDiskID != "" {
      FoundDisk(RemoveDisk(s, id).disks, CurrentDisk(s).value);
    }
  }

  lemma AddStemcellKeeps(s: DeploymentState, r: StemcellRecord)
    requires Integrity(s)
    requires r.id != "" && FindStemcellByID(s.stemcells, r.id).None?
    requires FindStemcellByName(s.stemcells, r.name, r.version).None?
    ensures Integrity(AddStemcell(s, r))
    ensures CurrentStemcell(AddStemcell(s, r)) == CurrentStemcell(s)
    ensures FindStemcellByName(AddStemcell(s, r).stemcells, r.name, r.version) == Some(r)
  {
    var t := AddStemcell(s, r);
    assert DistinctStemcells(t.stemcells);
    FoundStemcell(t.stemcells, r);
    if CurrentStemcell(s).Some? {
      FoundStemcell(t.stemcells, CurrentStemcell(s).value);
    }
  }

  lemma RemoveStemcellKeeps(s: DeploymentState, id: string)
    requires Integrity(s)
    ensures Integrity(RemoveStemcell(s, id))
    ensures CurrentStemcell(RemoveStemcell(s, id)) == if s.currentStemcellID == id then None else CurrentStemcell(s)
  {
    DropStemcellDistinct(s.stemcells, id);
    if s.currentStemcellID != id && s.currentStemcellID != "" {
      FoundStemcell(RemoveStemcell(s, id).stemcells, CurrentStemcell(s).value);
    }
  }
}

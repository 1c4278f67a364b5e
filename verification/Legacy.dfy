/** config/legacy_deployment_state_migrator.go: the state file made from the one that an
    earlier version of the program has left. */
module Legacy {
  import opened Wrappers
  import opened DeploymentStates
  import opened Environments

  /** The fields of a legacy instance; "" stands for one that is not there. */
  datatype LegacyInstance = LegacyInstance(vmCID: string, diskCID: string, stemcellCID: string, stemcellName: string)

  /** What one UUID generation gives: an ID that is not empty, or an error. */
  predicate Generated(id: Option<string>) {
    id.Some? ==> id.value != ""
  }

  /** Only the first instance is looked at. */
  method Migrate(instances: seq<LegacyInstance>, diskID: Option<string>, stemcellID: Option<string>)
    returns (r: Option<DeploymentState>)
    requires Generated(diskID) && Generated(stemcellID)
    ensures r.None? <==>
      && instances != []
      && ((instances[0].diskCID != "" && diskID.None?) || (instances[0].stemcellCID != "" && stemcellID.None?))
    ensures r.Some? ==> Integrity(r.value)
    ensures r.Some? ==> r.value.currentStemcellID == "" && r.value.currentManifestSHA1 == "" && r.value.releases == []
    ensures r.Some? && instances == [] ==>
      r.value.currentVMCID == "" && CurrentDisk(r.value).None? && r.value.disks == [] && r.value.stemcells == []
    ensures r.Some? && instances != [] ==>
      var legacy := instances[0];
      && r.value.currentVMCID == legacy.vmCID
      && CurrentDisk(r.value) == (if legacy.diskCID == "" then None else Some(DiskRecord(diskID.value, legacy.diskCID, 0, map[])))
      && (forall d | d in r.value.disks :: CurrentDisk(r.value) == Some(d))
      && r.value.stemcells == (if legacy.stemcellCID == "" then [] else
           [StemcellRecord(stemcellID.value, if legacy.stemcellName == "" then "unknown-stemcell" else legacy.stemcellName,
                           "", legacy.stemcellCID)])
  {
    var s := DeploymentState("", "", "", [], "", [], [], []);
    if |instances| > 0 {
      var instance := instances[0];
      if instance.diskCID != "" {
        if diskID.None? { return None; }
        s := s.(currentDiskID := diskID.value, disks := [DiskRecord(diskID.value, instance.diskCID, 0, map[])]);
      }
      if instance.vmCID != "" {
        s := s.(currentVMCID := instance.vmCID);
      }
      if instance.stemcellCID != "" {
        if stemcellID.None? { return None; }
        var name := if instance.stemcellName == "" then "unknown-stemcell" else instance.stemcellName;
        s := s.(stemcells := [StemcellRecord(stemcellID.value, name, "", instance.stemcellCID)]);
      }
    }
    return Some(s);
  }

  /** A cloud that holds what the migrated state names, whatever the disk holds,
      whatever the agent has been told and whether or not the jobs run, is a safe world to start from. */
  lemma MigratedWorldIsSafe(s: DeploymentState, data: Content, running: bool, told: seq<Order>, stemcell: string)
    requires Integrity(s) && s.currentManifestSHA1 == "" && s.releases == []
    requires forall d | d in s.disks :: CurrentDisk(s) == Some(d)
    ensures
      var cid := if CurrentDisk(s).Some? then CurrentDisk(s).value.cid else "";
      var disks := if cid == "" then map[] else map[cid := data];
      var vms := if s.currentVMCID == "" then map[]
                 else map[s.currentVMCID := VMState(if cid == "" then {} else {cid}, cid, "", running, told, stemcell)];
      var used := if cid == "" then map[] else map[cid := DiskShape(CurrentDisk(s).value.size, CurrentDisk(s).value.props)];
      var uploads := set r | r in s.stemcells :: StemcellUpload(r.cid, r.name, r.version);
      var w := World(s, disks, vms, set r | r in s.stemcells :: r.cid, used, uploads, map[], {}, {}, {}, data, Unfinished);
      Safe(w, {}) && Settled(w)
  {}
}

/** deployment/vm/vm.go: the calls on one VM that involve the cloud and its agent. */
module VMs {
  import opened Wrappers
  import opened Environments
  import opened Disks
  import StemcellRepo
  import VMRepo

  /** Only this VM's attachments and mounts are different. */
  ghost predicate OnlyMountsChanged(a: World, b: World, v: string) {
    && v in a.vms && v in b.vms
    && b == a.(vms := a.vms[v := b.vms[v]])
    && b.vms[v] == a.vms[v].(attached := b.vms[v].attached, store := b.vms[v].store, target := b.vms[v].target)
  }

  /** Attaches in the cloud, then mounts through the agent. */
  method AttachDisk(env: Environment, v: string, d: CloudDisk) returns (ok: bool)
    requires env.AtRest() && v in env.w.vms && !env.w.vms[v].running
    modifies env`w, env`safeSoFar, env`trouble
    ensures env.AtRest()
    ensures OnlyMountsChanged(old(env.w), env.w, v)
    ensures ok ==>
      && d.cid in env.w.disks
      && env.w.vms[v] == Mounted(old(env.w).vms[v].(attached := old(env.w).vms[v].attached + {d.cid}), d.cid)
    ensures old(env.trouble).Before(env.trouble)
    ensures env.trouble == old(env.trouble) && d.cid in old(env.w.disks) ==> ok
  {
    hide Safe;
    ok := env.AttachDisk(v, d.cid);
    if ok {
      ok := env.MountDisk(v, d.cid);
    }
  }

  method DetachDisk(env: Environment, v: string, d: CloudDisk) returns (ok: bool)
    requires env.AtRest() && v in env.w.vms
    modifies env`w, env`safeSoFar, env`trouble
    ensures env.AtRest()
    ensures OnlyMountsChanged(old(env.w), env.w, v)
    ensures env.w.vms[v].store == old(env.w).vms[v].store
    ensures ok ==> env.w.vms[v].attached == old(env.w).vms[v].attached - {d.cid}
    ensures old(env.trouble).Before(env.trouble)
    ensures env.trouble == old(env.trouble) ==> ok
  {
    hide Safe;
    ok := env.DetachDisk(v, d.cid);
  }

  /** Everything but the VMs, their record and the current stemcell is as it was. */
  ghost predicate OnlyVMsChanged(a: World, b: World) {
    && b == a.(state := b.state, vms := b.vms, unrecorded := b.unrecorded, leaked := b.leaked,
               silent := b.silent, torn := b.torn)
    && b.state == a.state.(currentVMCID := b.state.currentVMCID, currentStemcellID := b.state.currentStemcellID)
    && a.leaked <= b.leaked
  }

  /** Forgets the VM, which is gone, and then its stemcell. */
  method ForgetCurrent(env: Environment) returns (ok: bool)
    requires env.AtRest() && env.w.state.currentVMCID !in env.w.vms
    modifies env`w, env`safeSoFar, env`trouble
    ensures env.AtRest()
    ensures OnlyVMsChanged(old(env.w), env.w) && env.w.vms == old(env.w.vms) && env.w.leaked == old(env.w.leaked)
    ensures ok ==> env.w.state.currentVMCID == "" && env.w.state.currentStemcellID == ""
    ensures env.w.state.currentVMCID in {old(env.w.state.currentVMCID), ""}
    ensures env.w.state.currentStemcellID in {old(env.w.state.currentStemcellID), ""}
    ensures env.w.state.currentStemcellID != old(env.w.state.currentStemcellID) ==> env.w.state.currentVMCID == ""
    ensures StateTrouble(old(env.trouble), env.trouble, ok)
  {
    hide Safe, Recorded;
    VMsAreNamed(env.w, env.condemned);
    ok := VMRepo.ClearCurrent(env);
    if ok {
      ok := StemcellRepo.ClearCurrent(env);
    }
  }

  /** Deletes in the cloud first, then forgets the VM, then its stemcell. */
  method Delete(env: Environment, v: string) returns (r: Outcome)
    requires env.AtRest() && env.w.state.currentVMCID in {v, ""} && MayDelete(env.w, v)
    modifies env`w, env`safeSoFar, env`trouble
    ensures env.AtRest()
    ensures r != Failed ==> env.w.state.currentVMCID == "" && env.w.state.currentStemcellID == ""
    ensures r != Failed ==> v !in env.w.vms
    ensures env.w.state.currentVMCID in {old(env.w.state.currentVMCID), ""}
    ensures env.w.state.currentStemcellID in {old(env.w.state.currentStemcellID), ""}
    ensures env.w.state.currentStemcellID != old(env.w.state.currentStemcellID) ==> env.w.state.currentVMCID == ""
    ensures forall x | x in env.w.vms :: x in old(env.w).vms && env.w.vms[x] == old(env.w).vms[x]
    ensures OnlyVMsChanged(old(env.w), env.w) && env.w.leaked == old(env.w.leaked)
    ensures old(env.trouble).Before(env.trouble)
    ensures env.trouble == old(env.trouble) ==> r != Failed
  {
    hide Safe;
    VMsAreNamed(env.w, env.condemned);
    var deleted := env.DeleteVM(v);
    if deleted == Failed {
      return Failed;
    }
    var ok := ForgetCurrent(env);
    return if ok then deleted else Failed;
  }
}

/** deployment/vm/manager.go, deployment/instance/instance.go and
    deployment/instance/manager.go: building an instance and taking it down. */
module Instances {
  import opened Wrappers
  import opened DeploymentStates
  import opened Environments
  import opened Disks
  import opened VMs
  import opened DiskDeployers
  import Stemcells
  import VMRepo

  /** What a deploy may change: the VM, the disks and which stemcell is current. An
      existing deployment keeps its latest data. */
  ghost predicate Redeployed(a: World, b: World) {
    && b == a.(state := b.state, disks := b.disks, usedDisks := b.usedDisks, vms := b.vms,
               unrecorded := b.unrecorded, leaked := b.leaked, silent := b.silent, torn := b.torn, latest := b.latest)
    && b.state == a.state.(currentVMCID := b.state.currentVMCID, currentStemcellID := b.state.currentStemcellID,
                           disks := b.state.disks, currentDiskID := b.state.currentDiskID)
    && a.leaked <= b.leaked
    && (CurrentDisk(a.state).Some? ==> CurrentDisk(b.state).Some? && b.latest == a.latest)
  }

  // ----- deployment/vm/manager.go -----

  /** Records the VM right after creating it, and only then gives it its metadata: no call
      to the cloud is allowed while something that was created waits for its record. */
  method CreateVM(env: Environment, stemcellCID: string) returns (r: Option<string>)
    requires env.AtRest() && env.w.state.currentVMCID == ""
    modifies env`w, env`safeSoFar, env`trouble
    ensures env.AtRest()
    ensures OnlyVMsChanged(old(env.w), env.w)
    ensures env.w.state.currentStemcellID == old(env.w.state.currentStemcellID)
    ensures r.Some? ==> Fresh(env.w, r.value)
    ensures r.Some? ==> env.w.vms == old(env.w.vms)[r.value := NewVM(stemcellCID)]
    ensures Onward(old(env.trouble), old(env.w.leaked), env.trouble, env.w.leaked)
    ensures r.Some? ==> stemcellCID in env.w.stemcells
    ensures env.trouble == old(env.trouble) && stemcellCID in old(env.w.stemcells) ==> r.Some?
  {
    hide Safe;
    var prepared := env.Call();
    if !prepared { return None; }
    var cid := env.CreateVM(stemcellCID);
    if cid.None? { return None; }
    VMsAreNamed(env.w, env.condemned);
    var ok := VMRepo.UpdateCurrent(env, cid.value);
    if !ok {
      env.NoteLeak(VM(cid.value));
      return None;
    }
    ok := env.Call();
    return if ok then cid else None;
  }

  method FindCurrentVM(env: Environment) returns (ok: bool, vms: seq<string>)
    modifies env`trouble
    ensures StateTrouble(old(env.trouble), env.trouble, ok)
    ensures ok ==> vms == if env.w.state.currentVMCID == "" then [] else [env.w.state.currentVMCID]
  {
    var cid;
    ok, cid := VMRepo.FindCurrent(env);
    vms := if ok && cid.Some? then [cid.value] else [];
  }

  // ----- deployment/instance/instance.go -----

  /** Only what runs and what is mounted on this VM is different, and nothing is while it
      still runs. */
  ghost predicate OnlyAgentChanged(a: World, b: World, v: string) {
    && b == a.(vms := b.vms, silent := b.silent)
    && b.vms.Keys == a.vms.Keys
    && forall x | x in a.vms && (x != v || b.vms[x].running) :: b.vms[x] == a.vms[x]
  }

  /** Disks are being unmounted: those still mounted are among these. */
  ghost predicate Unmounting(a: World, b: World, v: string, left: seq<string>) {
    && OnlyAgentChanged(a, b, v)
    && (v in b.vms ==> !b.vms[v].running && ListsMounts(left, b.vms[v]))
  }

  lemma UnmountingBegins(w: World, v: string, cids: seq<string>)
    requires v in w.vms ==> !w.vms[v].running && ListsMounts(cids, w.vms[v])
    ensures Unmounting(w, w, v, cids)
  {}

  lemma UnmountingGoesOn(a: World, b: World, c: World, v: string, left: seq<string>, ok: bool)
    requires left != [] && Unmounting(a, b, v, left)
    requires c == b || (v in b.vms && c == WithVM(b, v, Unmounted(b.vms[v], left[0])))
    requires ok && v in b.vms ==> c == WithVM(b, v, Unmounted(b.vms[v], left[0]))
    ensures Unmounting(a, c, v, if ok then left[1..] else left)
  {}

  lemma NothingUnmounted(w: World, v: string)
    ensures OnlyAgentChanged(w, w, v)
  {}

  lemma UnmountingMeans(a: World, b: World, v: string, left: seq<string>)
    requires Unmounting(a, b, v, left)
    ensures OnlyAgentChanged(a, b, v)
    ensures v in b.vms ==> !b.vms[v].running
    ensures left == [] && v in b.vms ==> IsShutDown(b.vms[v])
  {}

  method UnmountDisks(env: Environment, v: string) returns (ok: bool)
    requires env.AtRest() && (v in env.w.vms ==> !env.w.vms[v].running)
    modifies env`w, env`safeSoFar, env`trouble
    ensures env.AtRest()
    ensures OnlyAgentChanged(old(env.w), env.w, v)
    ensures v in env.w.vms ==> !env.w.vms[v].running
    ensures ok && v in env.w.vms ==> IsShutDown(env.w.vms[v])
    ensures old(env.trouble).Before(env.trouble)
    ensures env.trouble == old(env.trouble) ==> ok
  {
    hide Safe, Unmounting, OnlyAgentChanged, ListsMounts, IsShutDown, Unmounted;
    ghost var before := env.w;
    var cids;
    ok, cids := env.ListDisk(v);
    NothingUnmounted(before, v);
    if !ok { return; }
    UnmountingBegins(before, v, cids);
    for i := 0 to |cids|
      invariant env.AtRest()
      invariant Unmounting(before, env.w, v, cids[i..])
      invariant old(env.trouble).Before(env.trouble)
    {
      ghost var w, left := env.w, cids[i..];
      ok := env.UnmountDisk(v, cids[i]);
      UnmountingGoesOn(before, w, env.w, v, left, ok);
      UnmountingMeans(before, env.w, v, if ok then left[1..] else left);
      if !ok { return; }
      assert cids[i..][1..] == cids[i + 1..];
    }
    ok := true;
    UnmountingMeans(before, env.w, v, cids[|cids|..]);
  }

  /** Jobs stop before disks are unmounted, all of them. Only an agent that does not answer
      now excuses a VM from that. */
  method Shutdown(env: Environment, v: string) returns (ok: bool)
    requires env.AtRest()
    modifies env`w, env`safeSoFar, env`trouble
    ensures env.AtRest()
    ensures OnlyAgentChanged(old(env.w), env.w, v)
    ensures ok ==> MayDelete(env.w, v)
    ensures ok && v in env.w.vms && !IsShutDown(env.w.vms[v]) ==> old(env.trouble).other < env.trouble.other
    ensures old(env.trouble).Before(env.trouble)
    ensures env.trouble == old(env.trouble) && v in old(env.w.vms) ==> ok
  {
    hide Safe;
    var reachable := env.Ping(v);
    if !reachable { return true; }
    ok := env.Tell(v, Stop);
    if !ok { return; }
    ok := UnmountDisks(env, v);
  }

  /** Deletes the VM of record. A VM that does not exist is deleted all the same, without
      being shut down, and its absence is skipped. */
  method Delete(env: Environment, v: string) returns (ok: bool)
    requires env.AtRest() && env.w.state.currentVMCID in {v, ""}
    modifies env`w, env`safeSoFar, env`trouble
    ensures env.AtRest()
    ensures ok ==> env.w.state.currentVMCID == "" && env.w.state.currentStemcellID == "" && NoneRunning(env.w)
    ensures ok ==> v !in env.w.vms
    ensures env.w.vms.Keys <= old(env.w.vms).Keys
    ensures env.w.state.currentVMCID in {old(env.w.state.currentVMCID), ""}
    ensures env.w.state.currentStemcellID in {old(env.w.state.currentStemcellID), ""}
    ensures OnlyVMsChanged(old(env.w), env.w) && env.w.leaked == old(env.w.leaked)
    ensures KeptWhileRunning(old(env.w), env.w)
    ensures old(env.trouble).Before(env.trouble)
    ensures env.trouble == old(env.trouble) ==> ok
  {
    hide Safe;
    ok := false;
    var known := env.HasVM(v);
    if known.None? { return; }
    if known.value {
      ok := Shutdown(env, v);
      if !ok { return; }
    }
    var outcome := VMs.Delete(env, v);
    ok := outcome != Failed;
    if env.w.state.currentVMCID == "" {
      NoRecordNoJobs(env.w, env.condemned);
    }
  }

  lemma NoRecordNoJobs(w: World, condemned: set<string>)
    requires Safe(w, condemned) && w.state.currentVMCID == ""
    ensures NoneRunning(w) && !JobsRun(w)
  {}

  /** The agent has carried out these orders, all of them if ok. Otherwise it may have
      carried out the one that failed, and none after it. */
  ghost predicate Obeyed(a: World, b: World, v: string, orders: seq<Order>, ok: bool) {
    && v in a.vms && v in b.vms
    && b == WithVM(a, v, a.vms[v].(told := b.vms[v].told, running := b.vms[v].running))
    && a.vms[v].told <= b.vms[v].told <= a.vms[v].told + orders
    && (ok ==> b.vms[v].told == a.vms[v].told + orders)
  }

  /** The agent gets the new state only after it has stopped its jobs. */
  const UpdateOrders: seq<Order> :=
    [ApplyInitial, ReportState, Stop, ApplyResolved, RunScript("pre-start"), Start, ReportRunning, RunScript("post-start")]

  /** One more order to an agent that has carried out the first n of an update. */
  lemma ObeyedNext(a: World, b: World, c: World, v: string, n: nat, ok: bool)
    requires n < |UpdateOrders| && Obeyed(a, b, v, UpdateOrders[..n], true)
    requires Obeyed(b, c, v, [UpdateOrders[n]], ok)
    ensures Obeyed(a, c, v, UpdateOrders[..n + 1], ok)
  {
    assert UpdateOrders[..n + 1] == UpdateOrders[..n] + [UpdateOrders[n]];
    assert a.vms[v].told + UpdateOrders[..n + 1] == b.vms[v].told + [UpdateOrders[n]];
  }

  lemma ObeyedSoFar(a: World, b: World, v: string, n: nat, ok: bool)
    requires n <= |UpdateOrders| && Obeyed(a, b, v, UpdateOrders[..n], ok)
    ensures Obeyed(a, b, v, UpdateOrders, ok && n == |UpdateOrders|)
  {
    assert UpdateOrders == UpdateOrders[..n] + UpdateOrders[n..];
    assert a.vms[v].told + UpdateOrders == (a.vms[v].told + UpdateOrders[..n]) + UpdateOrders[n..];
  }

  ghost predicate OfRecord(w: World, v: string) {
    v in w.vms && v == w.state.currentVMCID && StoreIsCurrent(w, v)
  }

  lemma NotUpdatedYet(w: World, v: string)
    requires Idle(w, v) && StoreIsCurrent(w, v)
    ensures OfRecord(w, v) && Obeyed(w, w, v, UpdateOrders[..0], true)
  {}

  /** The order at this position of an update. */
  method Tell(env: Environment, v: string, order: Order, ghost before: World, ghost n: nat) returns (ok: bool)
    requires env.AtRest() && OfRecord(env.w, v)
    requires n < |UpdateOrders| && order == UpdateOrders[n] && Obeyed(before, env.w, v, UpdateOrders[..n], true)
    modifies env`w, env`safeSoFar, env`trouble
    ensures env.AtRest() && OfRecord(env.w, v)
    ensures Obeyed(before, env.w, v, UpdateOrders[..n + 1], ok)
    ensures Obeyed(before, env.w, v, UpdateOrders, ok && n + 1 == |UpdateOrders|)
    ensures ok ==> env.w.vms[v].running == match order case Start => true case Stop => false case _ => old(env.w).vms[v].running
    ensures env.trouble == old(env.trouble).AfterCall(ok)
  {
    hide Safe;
    ok := env.Tell(v, order);
    assert Obeyed(old(env.w), env.w, v, [order], ok);
    hide Obeyed;
    ObeyedNext(before, old(env.w), env.w, v, n, ok);
    ObeyedSoFar(before, env.w, v, n + 1, ok);
  }

  /** The stage that updates the instance: the agent stops its jobs, gets the new state, runs
      the script before the start and starts the jobs. */
  method UpdateStage(env: Environment, v: string, ghost before: World) returns (ok: bool)
    requires env.AtRest() && OfRecord(env.w, v) && Obeyed(before, env.w, v, UpdateOrders[..2], true)
    modifies env`w, env`safeSoFar, env`trouble
    ensures env.AtRest() && OfRecord(env.w, v)
    ensures Obeyed(before, env.w, v, UpdateOrders, false)
    ensures ok ==> Obeyed(before, env.w, v, UpdateOrders[..6], true) && env.w.vms[v].running
    ensures old(env.trouble).Before(env.trouble)
    ensures env.trouble == old(env.trouble) ==> ok
  {
    hide Safe, Obeyed, Settled;
    ok := Tell(env, v, Stop, before, 2);
    if !ok { return; }
    ok := Tell(env, v, ApplyResolved, before, 3);
    if !ok { return; }
    ok := Tell(env, v, RunScript("pre-start"), before, 4);
    if !ok { return; }
    ok := Tell(env, v, Start, before, 5);
  }

  /** Starts the jobs on a VM whose store is the current disk, if it has one mounted. */
  method UpdateJobs(env: Environment, v: string) returns (ok: bool)
    requires env.AtRest() && Idle(env.w, v) && StoreIsCurrent(env.w, v)
    modifies env`w, env`safeSoFar, env`trouble
    ensures env.AtRest()
    ensures Obeyed(old(env.w), env.w, v, UpdateOrders, ok)
    ensures ok ==> env.w.vms[v].running
    ensures old(env.trouble).Before(env.trouble)
    ensures env.trouble == old(env.trouble) ==> ok
  {
    ghost var before := env.w;
    NotUpdatedYet(before, v);
    hide Safe, Obeyed, Settled;
    ok := Tell(env, v, ApplyInitial, before, 0);
    if !ok { return; }
    ok := Tell(env, v, ReportState, before, 1);
    if !ok { return; }
    ok := env.Call();               // build and compile the new state
    if !ok { return; }
    ok := UpdateStage(env, v, before);
    if !ok { return; }
    ok := Tell(env, v, ReportRunning, before, 6);
    if !ok { return; }
    ok := Tell(env, v, RunScript("post-start"), before, 7);
  }

  // ----- deployment/instance/manager.go -----

  method DeleteAll(env: Environment) returns (ok: bool)
    requires env.AtRest()
    modifies env`w, env`safeSoFar, env`trouble
    ensures env.AtRest()
    ensures ok ==> env.w.state.currentVMCID == ""
    ensures OnlyVMsChanged(old(env.w), env.w) && env.w.leaked == old(env.w.leaked)
    ensures old(env.trouble).Before(env.trouble)
    ensures env.trouble == old(env.trouble) ==> ok
  {
    var vms;
    ok, vms := FindCurrentVM(env);
    if ok && |vms| == 1 {
      ok := Delete(env, vms[0]);
    }
  }

  ghost predicate DisksAsBefore(a: World, b: World) {
    b.disks == a.disks && b.usedDisks == a.usedDisks && b.state.disks == a.state.disks
  }

  /** The VM, then its stemcell as the current one, then its disks, which are left alone
      until the agent on the VM has answered. None for a disk pool
      stands for one that the manifest does not have. */
  method Create(env: Environment, stemcell: Stemcells.CloudStemcell, pool: Option<DiskPool>)
    returns (ok: bool, v: string, disks: seq<CloudDisk>)
    requires env.AtRest() && env.w.state.currentVMCID == ""
    modifies env`w, env`safeSoFar, env`trouble
    ensures env.AtRest()
    ensures Redeployed(old(env.w), env.w)
    ensures ok ==>
      && pool.Some? && Idle(env.w, v) && StoreIsCurrent(env.w, v)
      && v !in env.w.silent && env.w.vms[v].stemcell == stemcell.cid
      && CurrentStemcell(env.w.state).Some?
      && CurrentStemcell(env.w.state) == FindStemcellByName(env.w.state.stemcells, stemcell.name, stemcell.version)
      && (pool.value.size != 0 ==> OneDisk(env.w, v, pool.value, disks))
    ensures Onward(old(env.trouble), old(env.w.leaked), env.trouble, env.w.leaked)
    ensures pool.Some? ==> NoNeedlessDisk(old(env.w), env.w, pool.value)
    ensures !DisksAsBefore(old(env.w), env.w) ==>
      && env.w.state.currentVMCID == v && v !in env.w.silent
      && CurrentStemcell(env.w.state).Some?
      && CurrentStemcell(env.w.state) == FindStemcellByName(env.w.state.stemcells, stemcell.name, stemcell.version)
    ensures ok ==> DiskReady(old(env.w), pool.value) && stemcell.cid in old(env.w.stemcells)
    ensures (env.trouble == old(env.trouble) && pool.Some? && DiskReady(old(env.w), pool.value)
             && stemcell.cid in old(env.w.stemcells)
             && FindStemcellByName(old(env.w.state.stemcells), stemcell.name, stemcell.version).Some?)
      ==> ok
  {
    hide Safe;
    ok, v, disks := false, "", [];
    var created := CreateVM(env, stemcell.cid);
    if created.None? { return; }
    v := created.value;
    ok := Stemcells.PromoteAsCurrent(env, stemcell);
    if !ok { return; }
    ok := env.Ping(v);              // waits for the agent, through an SSH tunnel if there is one
    if !ok { return; }
    if pool.None? {
      ok := false;
      return;
    }
    ok, disks := DiskDeployers.Deploy(env, v, pool.value);
  }
}

/** deployment/deployer.go, deployment/manager.go, cmd/deployment_preparer.go and
    cmd/deployment_deleter.go: the deploy and the delete command. */
module Commands {
  import opened Wrappers
  import opened DeploymentStates
  import opened Environments
  import opened Disks
  import opened DiskDeployers
  import opened Deployments
  import opened Records
  import Instances
  import Stemcells

  datatype Job = Job(name: string, instances: int, pool: Option<DiskPool>)

  /** What a deploy is asked for. None for the SHA1 means that it cannot be calculated. */
  datatype Request = Request(
    sha1: Option<string>,
    jobs: seq<Job>,
    releases: seq<Release>,
    stemcellName: string,
    stemcellVersion: string)

  // ----- deployment/deployer.go -----

  /** The VM of record has the disk that is asked for, and no other. */
  ghost predicate Installed(w: World, jobs: seq<Job>) {
    && |jobs| == 1 && jobs[0].pool.Some?
    && w.state.currentVMCID in w.vms
    && StoreIsCurrent(w, w.state.currentVMCID)
    && (jobs[0].pool.value.size != 0 ==>
          exists disks :: OneDisk(w, w.state.currentVMCID, jobs[0].pool.value, disks))
  }

  ghost predicate HasStemcell(s: DeploymentState, request: Request) {
    && CurrentStemcell(s).Some?
    && CurrentStemcell(s).value.name == request.stemcellName
    && CurrentStemcell(s).value.version == request.stemcellVersion
  }

  /** The VM of record was created from this stemcell. */
  ghost predicate BootedFrom(w: World, stemcellCID: string) {
    w.state.currentVMCID in w.vms && w.vms[w.state.currentVMCID].stemcell == stemcellCID
  }

  /** The deployment runs as requested on the VM of record, which was created from this
      stemcell. */
  ghost predicate RunningFrom(w: World, request: Request, stemcellCID: string) {
    Installed(w, request.jobs) && HasStemcell(w.state, request) && BootedFrom(w, stemcellCID) && JobsRun(w)
  }

  /** The deployment runs as requested: on the VM of record, from the current stemcell. */
  ghost predicate Running(w: World, request: Request) {
    CurrentStemcell(w.state).Some? && RunningFrom(w, request, CurrentStemcell(w.state).value.cid)
  }

  /** The request is one that can be met, and its disk is not lost. */
  ghost predicate Feasible(w: World, request: Request) {
    && |request.jobs| == 1 && request.jobs[0].instances == 1
    && request.jobs[0].pool.Some? && DiskReady(w, request.jobs[0].pool.value)
  }

  /** The stemcell that is asked for is not recorded, so that it will be uploaded, or what is
      recorded is still alive. */
  ghost predicate StemcellReady(w: World, request: Request) {
    var recorded := FindStemcellByName(w.state.stemcells, request.stemcellName, request.stemcellVersion);
    recorded.None? || recorded.value.cid in w.stemcells
  }

  ghost predicate Deployable(w: World, request: Request) {
    Feasible(w, request) && StemcellReady(w, request)
  }

  /** What is installed depends on the VM of record, on its disk and on the disk records. */
  lemma InstalledStill(a: World, b: World, jobs: seq<Job>)
    requires Installed(a, jobs)
    requires b.state.currentVMCID == a.state.currentVMCID && b.state.currentVMCID in b.vms
    requires
      var x, y := a.vms[a.state.currentVMCID], b.vms[b.state.currentVMCID];
      x.attached == y.attached && x.store == y.store
    requires b.disks.Keys == a.disks.Keys
    requires b.state.disks == a.state.disks && b.state.currentDiskID == a.state.currentDiskID
    ensures Installed(b, jobs)
  {
    if jobs[0].pool.value.size != 0 {
      var disks :| OneDisk(a, a.state.currentVMCID, jobs[0].pool.value, disks);
      assert OneDisk(b, b.state.currentVMCID, jobs[0].pool.value, disks);
    }
  }

  /** The old instance goes before the manifest is looked at. */
  method Deploy(env: Environment, request: Request, stemcell: Stemcells.CloudStemcell) returns (ok: bool)
    requires env.AtRest()
    requires stemcell.name == request.stemcellName && stemcell.version == request.stemcellVersion
    modifies env`w, env`safeSoFar, env`trouble
    ensures env.AtRest()
    ensures Instances.Redeployed(old(env.w), env.w)
    ensures ok ==> RunningFrom(env.w, request, stemcell.cid)
    ensures ok ==> Feasible(old(env.w), request) && stemcell.cid in old(env.w.stemcells)
    ensures |request.jobs| == 1 && request.jobs[0].pool.Some? ==>
      NoNeedlessDisk(old(env.w), env.w, request.jobs[0].pool.value)
    ensures env.trouble == old(env.trouble) && (|request.jobs| != 1 || request.jobs[0].instances != 1) ==>
      !ok && env.w.state.currentVMCID == "" && NoneRunning(env.w)
    ensures Onward(old(env.trouble), old(env.w.leaked), env.trouble, env.w.leaked)
    ensures (env.trouble == old(env.trouble) && Feasible(old(env.w), request) && stemcell.cid in old(env.w.stemcells)
             && FindStemcellByName(old(env.w.state.stemcells), stemcell.name, stemcell.version).Some?)
      ==> ok
  {
    hide Safe;
    ok := Instances.DeleteAll(env);
    if !ok { return; }
    Instances.NoRecordNoJobs(env.w, env.condemned);
    if |request.jobs| != 1 { return false; }
    var job := request.jobs[0];
    if job.instances != 1 { return false; }
    var v, disks;
    ok, v, disks := Instances.Create(env, stemcell, job.pool);
    if !ok { return; }
    assert Installed(env.w, request.jobs) && BootedFrom(env.w, stemcell.cid);
    ghost var before := env.w;
    ok := Instances.UpdateJobs(env, v);
    InstalledStill(before, env.w, request.jobs);
  }

  // ----- cmd/deployment_preparer.go -----

  /** What one deploy command leaves of the data: an existing deployment keeps it. */
  ghost predicate DataKept(a: World, b: World) {
    CurrentDisk(a.state).Some? ==> CurrentDisk(b.state).Some? && b.latest == a.latest
  }

  /** Nothing that a running deployment depends on is different. */
  ghost predicate Undisturbed(a: World, b: World) {
    && b.attempt == a.attempt && b.vms == a.vms && b.disks == a.disks
    && b.state.currentVMCID == a.state.currentVMCID
    && b.state.disks == a.state.disks && b.state.currentDiskID == a.state.currentDiskID
    && CurrentStemcell(b.state) == CurrentStemcell(a.state)
  }

  /** How a deploy may end: what ran before is undisturbed, or the latest attempt counts as
      unfinished, or just what was asked for runs and counts as finished. */
  ghost predicate Conclusive(a: World, b: World, request: Request) {
    || Undisturbed(a, b)
    || b.attempt == Unfinished
    || IsDone(b, request)
  }

  ghost predicate IsDone(w: World, request: Request) {
    Running(w, request) && CountsAsDone(w, request)
  }

  ghost predicate CountsAsDone(w: World, request: Request) {
    request.sha1.Some? && w.attempt == Finished(request.sha1.value, request.releases)
  }

  lemma RunningStill(a: World, b: World, request: Request, stemcellCID: string)
    requires RunningFrom(a, request, stemcellCID)
    requires b.vms == a.vms && b.disks == a.disks && b.state.currentVMCID == a.state.currentVMCID
    requires b.state.disks == a.state.disks && b.state.currentDiskID == a.state.currentDiskID
    requires CurrentStemcell(b.state) == CurrentStemcell(a.state)
    ensures RunningFrom(b, request, stemcellCID)
  {
    InstalledStill(a, b, request.jobs);
  }

  /** Clears the deployment record before anything is deployed, and writes it only
      afterwards: as long as there is a finished attempt, nothing has happened yet or all
      of it has. */
  method DeployStage(env: Environment, request: Request, stemcell: Stemcells.CloudStemcell) returns (ok: bool)
    requires env.AtRest()
    requires stemcell.name == request.stemcellName && stemcell.version == request.stemcellVersion
    modifies env`w, env`safeSoFar, env`trouble
    ensures env.AtRest()
    ensures DataKept(old(env.w), env.w)
    ensures ok ==> RunningFrom(env.w, request, stemcell.cid) && CountsAsDone(env.w, request)
    ensures ok ==> Feasible(old(env.w), request) && stemcell.cid in old(env.w.stemcells)
    ensures !ok && env.w.attempt != Unfinished ==> env.w == old(env.w)
    ensures env.w.stemcells == old(env.w.stemcells) && env.w.state.stemcells == old(env.w.state.stemcells)
    ensures Onward(old(env.trouble), old(env.w.leaked), env.trouble, env.w.leaked)
    ensures (env.trouble == old(env.trouble) && Feasible(old(env.w), request) && stemcell.cid in old(env.w.stemcells)
             && request.sha1.Some?
             && FindStemcellByName(old(env.w.state.stemcells), stemcell.name, stemcell.version).Some?)
      ==> ok
  {
    hide Safe, RunningFrom, Feasible;
    ok := Records.Clear(env);
    if !ok { return; }
    SameFeasible(old(env.w), env.w, request);
    ok := Deploy(env, request, stemcell);
    if !ok { return; }
    ghost var before := env.w;
    ok := Records.Update(env, request.sha1, request.releases);
    RunningStill(before, env.w, request, stemcell.cid);
  }

  lemma SameFeasible(a: World, b: World, request: Request)
    requires b.disks == a.disks && CurrentDisk(b.state) == CurrentDisk(a.state)
    ensures Feasible(b, request) <==> Feasible(a, request)
  {}

  /** With one record for each name and version, the current one is the one that is found. */
  lemma BootedFromCurrent(w: World, request: Request, stemcellCID: string)
    requires Integrity(w.state) && RunningFrom(w, request, stemcellCID)
    requires
      var found := FindStemcellByName(w.state.stemcells, request.stemcellName, request.stemcellVersion);
      found.Some? && found.value.cid == stemcellCID
    ensures CurrentStemcell(w.state).Some? && CurrentStemcell(w.state).value.cid == stemcellCID
    ensures Running(w, request)
  {
    FoundStemcell(w.state.stemcells, CurrentStemcell(w.state).value);
  }

  method DeployAll(env: Environment, request: Request) returns (ok: bool)
    requires env.AtRest()
    modifies env`w, env`safeSoFar, env`trouble
    ensures env.AtRest()
    ensures DataKept(old(env.w), env.w)
    ensures Conclusive(old(env.w), env.w, request)
    ensures ok ==>
      && IsDone(env.w, request) && Deployable(old(env.w), request)
      && env.w.state.stemcells == Stemcells.CurrentOnly(env.w.state)
    ensures Onward(old(env.trouble), old(env.w.leaked), env.trouble, env.w.leaked)
    ensures env.trouble == old(env.trouble) && Deployable(old(env.w), request) && request.sha1.Some? ==> ok
    ensures !StemcellReady(old(env.w), request) ==> !StemcellReady(env.w, request)
  {
    hide Safe, RunningFrom, Feasible;
    ok := env.Call();               // the CPI client
    if !ok { return; }
    var stemcell := Stemcells.Upload(env, request.stemcellName, request.stemcellVersion);
    if stemcell.None? { return false; }
    ok := env.Call();               // the blobstore client
    if !ok { return; }
    SameFeasible(old(env.w), env.w, request);
    ok := DeployStage(env, request, stemcell.value);
    if !ok { return; }
    ghost var before := env.w;
    SafeRecords(env.w, env.condemned);
    BootedFromCurrent(env.w, request, stemcell.value.cid);
    ok := Stemcells.DeleteUnused(env);
    RunningStill(before, env.w, request, stemcell.value.cid);
  }

  /** The deploy command: nothing is done when the record says that just this is deployed. If
      a recorded stemcell is gone, asking for it again does not bring it back. */
  method DeployCommand(env: Environment, request: Request) returns (ok: bool, skipped: bool)
    requires env.AtRest()
    modifies env`w, env`safeSoFar, env`condemned, env`trouble
    ensures env.AtRest()
    ensures DataKept(old(env.w), env.w)
    ensures env.condemned <= old(env.condemned)
    ensures skipped ==> ok && env.w == old(env.w) && IsRecorded(env.w, request)
    ensures !skipped ==> forall c | c in old(env.w.disks) :: c !in env.condemned
    ensures Conclusive(old(env.w), env.w, request)
    ensures ok && !skipped ==>
      && IsDone(env.w, request) && Deployable(old(env.w), request)
      && env.w.state.stemcells == Stemcells.CurrentOnly(env.w.state)
    ensures Onward(old(env.trouble), old(env.w.leaked), env.trouble, env.w.leaked)
    ensures env.trouble == old(env.trouble) ==>
      (ok <==> skipped || (Deployable(old(env.w), request) && request.sha1.Some?))
    ensures !StemcellReady(old(env.w), request) ==> !StemcellReady(env.w, request)
  {
    hide Safe, Running, Deployable, StemcellReady;
    skipped := false;
    var isDeployed := Records.IsDeployed(env, request.sha1, request.releases, request.stemcellName, request.stemcellVersion);
    env.TakeBack();
    if isDeployed.None? { return false, false; }
    if isDeployed.value { return true, true; }
    ok := DeployAll(env, request);
  }

  /** The state says that just this is deployed. */
  ghost predicate IsRecorded(w: World, request: Request) {
    && request.sha1.Some?
    && Deployed(w.state, request.sha1.value, request.releases, request.stemcellName, request.stemcellVersion)
  }

  // ----- deployment/manager.go -----

  method FindCurrent(env: Environment) returns (ok: bool, deployment: Deployment?)
    requires env.AtRest()
    modifies env`trouble
    ensures StateTrouble(old(env.trouble), env.trouble, ok)
    ensures deployment != null ==>
      && fresh(deployment) && deployment.Valid() && deployment.Of(env.w)
      && deployment.instances == (if env.w.state.currentVMCID == "" then [] else [env.w.state.currentVMCID])
      && deployment.disks == (match CurrentDisk(env.w.state) case None => [] case Some(r) => [FromRecord(r)])
      && deployment.stemcells ==
           (match CurrentStemcell(env.w.state) case None => [] case Some(r) => [Stemcells.FromRecord(r)])
    ensures ok && deployment == null ==> NothingCurrent(env.w.state)
  {
    SafeRecords(env.w, env.condemned);
    if CurrentDisk(env.w.state).Some? {
      CurrentDiskIsKnown(env.w, env.condemned);
    }
    if CurrentStemcell(env.w.state).Some? {
      CurrentStemcellIsUpToDate(env.w.state);
    }
    hide Safe, Integrity, Accounted, CurrentDisk, CurrentStemcell, Stemcells.UpToDate;
    deployment := null;
    var instances, disks, stemcells;
    ok, instances := Instances.FindCurrentVM(env);
    if !ok { return; }
    ok, disks := Disks.FindCurrent(env);
    if !ok { return; }
    ok, stemcells := Stemcells.FindCurrent(env);
    if !ok { return; }
    if |instances| == 0 && |disks| == 0 && |stemcells| == 0 {
      return;
    }
    deployment := new Deployment(instances, disks, stemcells);
  }

  lemma CurrentDiskIsKnown(w: World, condemned: set<string>)
    requires Safe(w, condemned) && CurrentDisk(w.state).Some?
    ensures CurrentDisk(w.state).value.cid in w.usedDisks
  {}

  lemma CurrentStemcellIsUpToDate(s: DeploymentState)
    requires Integrity(s) && CurrentStemcell(s).Some?
    ensures Stemcells.UpToDate(s, Stemcells.FromRecord(CurrentStemcell(s).value))
  {
    var r := CurrentStemcell(s).value;
    FoundStemcell(s.stemcells, r);
    forall x | x in s.stemcells && x.name == r.name && x.version == r.version ensures x == r {
      FoundStemcell(s.stemcells, x);
    }
  }

  method Cleanup(env: Environment) returns (ok: bool)
    requires env.AtRest()
    modifies env`w, env`safeSoFar, env`trouble
    ensures env.AtRest()
    ensures old(!JobsRun(env.w)) ==> Dismantled(old(env.w), env.w)
    ensures ok ==>
      && env.w.state.disks == CurrentOnly(old(env.w.state))
      && env.w.state.stemcells == Stemcells.CurrentOnly(old(env.w.state))
    ensures old(env.trouble).Before(env.trouble)
    ensures env.trouble == old(env.trouble) ==> ok
  {
    hide Safe;
    ok := Disks.DeleteUnused(env);
    if !ok { return; }
    ok := Stemcells.DeleteUnused(env);
  }

  // ----- cmd/deployment_deleter.go -----

  ghost predicate NothingCurrent(s: DeploymentState) {
    s.currentVMCID == "" && CurrentDisk(s).None? && CurrentStemcell(s).None?
  }

  /** No record is left, and nothing is alive but what could not be recorded. */
  ghost predicate NothingLeft(w: World) {
    && w.state.currentVMCID == "" && w.state.currentDiskID == "" && w.state.currentStemcellID == ""
    && w.state.disks == [] && w.state.stemcells == []
    && (forall c | c in w.disks :: Disk(c) in w.leaked)
    && (forall c | c in w.vms :: VM(c) in w.leaked)
    && (forall c | c in w.stemcells :: Stemcell(c) in w.leaked)
  }

  lemma NoRecordsNothingLeft(w: World, condemned: set<string>)
    requires Safe(w, condemned) && Settled(w)
    requires w.state.currentVMCID == "" && w.state.disks == [] && w.state.stemcells == []
    ensures NothingLeft(w)
  {}

  /** What was current is neither alive nor recorded any more. */
  ghost predicate CurrentGone(a: World, b: World) {
    && (a.state.currentVMCID != "" ==> VMGone(b, a.state.currentVMCID))
    && (CurrentDisk(a.state).Some? ==> DiskGone(b, FromRecord(CurrentDisk(a.state).value)))
    && (CurrentStemcell(a.state).Some? ==> StemcellGone(b, Stemcells.FromRecord(CurrentStemcell(a.state).value)))
  }

  lemma DisksOfNoneCurrent(a: World, b: World, disks: seq<CloudDisk>)
    requires Dismantled(a, b)
    requires forall r | CurrentDisk(a.state) == Some(r) :: FromRecord(r) in disks
    requires forall d | d in disks :: !IsCurrentDisk(b.state, d.cid)
    ensures CurrentDisk(b.state).None?
  {
    assert CurrentDisk(a.state).Some? ==> FromRecord(CurrentDisk(a.state).value) in disks;
  }

  lemma StemcellsOfNoneCurrent(a: World, b: World, stemcells: seq<Stemcells.CloudStemcell>)
    requires Dismantled(a, b)
    requires forall r | CurrentStemcell(a.state) == Some(r) :: Stemcells.FromRecord(r) in stemcells
    requires forall s | s in stemcells :: !Stemcells.IsCurrentStemcell(b.state, s)
    ensures CurrentStemcell(b.state).None?
  {
    assert CurrentStemcell(a.state).Some? ==> Stemcells.FromRecord(CurrentStemcell(a.state).value) in stemcells;
  }

  method FindCurrentDeploymentAndDelete(env: Environment) returns (ok: bool)
    requires env.AtRest()
    modifies env`w, env`safeSoFar, env`condemned, env`trouble
    ensures env.AtRest()
    ensures Dismantled(old(env.w), env.w)
    ensures ok ==> NothingCurrent(env.w.state) && CurrentGone(old(env.w), env.w)
    ensures old(env.trouble).Before(env.trouble)
    ensures env.trouble == old(env.trouble) ==> ok
  {
    hide Safe, Dismantled;
    DismantledOnce(env.w);
    var deployment;
    ok, deployment := FindCurrent(env);
    if !ok || deployment == null { return; }
    ghost var before, disks, stemcells := env.w, deployment.disks, deployment.stemcells;
    ok := deployment.Delete(env);
    if ok {
      assert deployment.Of(env.w);
      DisksOfNoneCurrent(before, env.w, disks);
      StemcellsOfNoneCurrent(before, env.w, stemcells);
    }
  }

  /** The delete run: whatever earlier deploys and delete runs have left, success means
      that no record is left and that nothing is alive but what could not be recorded; and
      if no call fails, then it succeeds. */
  method FindAndDeleteDeployment(env: Environment) returns (ok: bool)
    requires env.AtRest()
    modifies env`w, env`safeSoFar, env`condemned, env`trouble
    ensures env.AtRest()
    ensures Dismantled(old(env.w), env.w)
    ensures ok ==> NothingLeft(env.w)
    ensures old(env.trouble).Before(env.trouble)
    ensures env.trouble == old(env.trouble) ==> ok
  {
    hide Safe, Dismantled;
    DismantledOnce(env.w);
    ok := env.Call();               // the CPI client and the blobstore client
    if !ok { return; }
    ok := FindCurrentDeploymentAndDelete(env);
    if !ok { return; }
    ghost var before := env.w;
    Instances.NoRecordNoJobs(env.w, env.condemned);
    ok := Cleanup(env);
    DismantledTwice(old(env.w), before, env.w);
    if ok {
      DismantledVM(before, env.w);
      NoRecordsNothingLeft(env.w, env.condemned);
    }
  }

  lemma DismantledVM(a: World, b: World)
    requires Dismantled(a, b) && a.state.currentVMCID == ""
    ensures b.state.currentVMCID == ""
  {}
}

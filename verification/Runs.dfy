/** Runs: any number of commands in any order, each of them stopped at any point by any call
    that fails, with the jobs at work in between. */
module Runs {
  import opened Wrappers
  import opened DeploymentStates
  import opened Environments
  import opened Deployments
  import opened Records
  import opened Commands

  /** What the manifest with this SHA1 asks for. */
  type Manifests = string -> seq<Job>

  /** The SHA1 of the request is that of its manifest. */
  ghost predicate Follows(request: Request, manifests: Manifests) {
    request.sha1.Some? ==> request.jobs == manifests(request.sha1.value)
  }

  // ----- What the deployment record is worth -----

  /** The VM of record was created from the current stemcell, if there is one. */
  ghost predicate FromCurrent(w: World) {
    CurrentStemcell(w.state).Some? ==> BootedFrom(w, CurrentStemcell(w.state).value.cid)
  }

  /** As long as jobs run on the VM of record, what a finished attempt has installed is
      still installed. */
  ghost predicate Standing(w: World, manifests: Manifests) {
    w.attempt.Finished? && JobsRun(w) ==> Installed(w, manifests(w.attempt.sha1)) && FromCurrent(w)
  }

  /** After a finished attempt, jobs run on the VM of record. */
  ghost predicate Up(w: World) {
    w.attempt.Finished? ==> JobsRun(w)
  }

  lemma RecordedMeansFinished(w: World, condemned: set<string>, request: Request)
    requires Safe(w, condemned) && IsRecorded(w, request)
    ensures w.attempt.Finished? && w.attempt.sha1 == request.sha1.value && HasStemcell(w.state, request)
  {}

  /** What a deploy has finished is recorded, so that the same request will be skipped, unless
      its SHA1 is empty or it has no releases. */
  lemma DoneIsRecorded(w: World, condemned: set<string>, request: Request)
    requires Safe(w, condemned) && IsDone(w, request)
    ensures IsRecorded(w, request) <==> request.sha1.value != "" && request.releases != []
  {
    forall i | 0 <= i < |request.releases| ensures Listed(w.state.releases, request.releases[i]) {
      assert Release(w.state.releases[i].name, w.state.releases[i].version) == request.releases[i];
    }
  }

  /** The exact condition under which it is right to skip a deploy: the deployment runs as
      requested if and only if jobs run on the VM of record. */
  lemma SkipIsRightIffJobsRun(w: World, condemned: set<string>, request: Request, manifests: Manifests)
    requires Safe(w, condemned) && Standing(w, manifests)
    requires Follows(request, manifests) && IsRecorded(w, request)
    ensures Running(w, request) <==> JobsRun(w)
  {
    RecordedMeansFinished(w, condemned, request);
    hide Installed;
  }

  /** What runs is what was asked for, in the cloud and not only in the records: the VM was
      created from what was uploaded as that stemcell, and its disk was created as the pool
      asks. */
  lemma RunningAsAsked(w: World, condemned: set<string>, request: Request)
    requires Safe(w, condemned) && Running(w, request)
    ensures
      var a := w.vms[w.state.currentVMCID];
      var pool := request.jobs[0].pool.value;
      && StemcellUpload(a.stemcell, request.stemcellName, request.stemcellVersion) in w.uploads
      && (pool.size != 0 ==>
            && a.store in w.disks && w.disks[a.store] == w.latest
            && a.store in w.usedDisks && w.usedDisks[a.store] == DiskShape(pool.size, pool.props))
  {
    assert CurrentStemcell(w.state).value in w.state.stemcells;
  }

  lemma DeployKeeps(a: World, b: World, request: Request, manifests: Manifests)
    requires Conclusive(a, b, request) && Follows(request, manifests)
    ensures Standing(a, manifests) ==> Standing(b, manifests)
    ensures Up(a) ==> Up(b)
  {
    if Undisturbed(a, b) && JobsRun(b) && b.attempt.Finished? && Standing(a, manifests) {
      InstalledStill(a, b, manifests(a.attempt.sha1));
    }
  }

  lemma DeleteKeeps(a: World, b: World, manifests: Manifests)
    requires Dismantled(a, b) && Standing(a, manifests)
    ensures Standing(b, manifests)
  {
    if JobsRun(b) && b.attempt.Finished? {
      InstalledStill(a, b, manifests(a.attempt.sha1));
    }
  }

  lemma JobsKeep(a: World, b: World, manifests: Manifests)
    requires b.disks.Keys == a.disks.Keys && b == a.(disks := b.disks, latest := b.latest)
    ensures Standing(a, manifests) ==> Standing(b, manifests)
    ensures Up(a) ==> Up(b)
  {
    if JobsRun(b) && b.attempt.Finished? && Standing(a, manifests) {
      InstalledStill(a, b, manifests(a.attempt.sha1));
    }
  }

  // ----- A delete that was interrupted -----

  /** After any delete, finished or not, the next deploy is skipped exactly if it would have
      been skipped before and the current stemcell has not been cleared. */
  lemma SkippedAfterDelete(a: World, b: World, request: Request)
    requires Dismantled(a, b)
    ensures IsRecorded(b, request) <==> IsRecorded(a, request) && CurrentStemcell(b.state).Some?
  {}

  /** Right after the jobs have been stopped. */
  ghost function JobsStopped(w: World): World
    requires JobsRun(w)
  {
    WithVM(w, w.state.currentVMCID, Told(w.vms[w.state.currentVMCID], Stop))
  }

  /** After the VM has been shut down and deleted and its record cleared, but before the
      current stemcell has. */
  ghost function VMCleared(w: World): World
    requires JobsRun(w)
  {
    var v := w.state.currentVMCID;
    var unmounted := WithVM(w, v, Told(w.vms[v], Stop).(store := "", target := ""));
    Saved(WithoutVM(unmounted, v), w.state.(currentVMCID := ""), Quiet)
  }

  lemma JobsStoppedMeans(w: World, condemned: set<string>)
    requires Safe(w, condemned) && JobsRun(w)
    ensures Safe(JobsStopped(w), condemned) && Dismantled(w, JobsStopped(w)) && !JobsRun(JobsStopped(w))
    ensures JobsStopped(w).state == w.state
  {
    hide Safe;
    var v := w.state.currentVMCID;
    VMChangedSafe(w, condemned, v, Told(w.vms[v], Stop));
  }

  lemma VMClearedMeans(w: World, condemned: set<string>)
    requires Safe(w, condemned) && JobsRun(w)
    ensures Safe(VMCleared(w), condemned) && Dismantled(w, VMCleared(w)) && !JobsRun(VMCleared(w))
    ensures CurrentStemcell(VMCleared(w).state) == CurrentStemcell(w.state)
    ensures VMCleared(w).vms.Keys == w.vms.Keys - {w.state.currentVMCID}
  {
    hide Safe;
    var v := w.state.currentVMCID;
    var a := Told(w.vms[v], Stop).(store := "", target := "");
    VMChangedSafe(w, condemned, v, a);
    DeletedSafe(WithVM(w, v, a), condemned, v);
  }

  /** Two points at which a delete may stop, in whatever world a deployment runs: nothing is
      unsafe, but the next deploy is skipped, with stopped jobs or without a VM. */
  lemma InterruptedDeleteIsSkipped(w: World, condemned: set<string>, request: Request)
    requires Safe(w, condemned) && Running(w, request) && IsRecorded(w, request)
    ensures Dismantled(w, JobsStopped(w)) && Dismantled(w, VMCleared(w))
    ensures Safe(JobsStopped(w), condemned) && IsRecorded(JobsStopped(w), request) && !JobsRun(JobsStopped(w))
    ensures Safe(VMCleared(w), condemned) && IsRecorded(VMCleared(w), request) && !JobsRun(VMCleared(w))
    ensures VMCleared(w).vms.Keys == w.vms.Keys - {w.state.currentVMCID}
  {
    JobsStoppedMeans(w, condemned);
    VMClearedMeans(w, condemned);
    hide Safe, Dismantled, Installed;
    SkippedAfterDelete(w, JobsStopped(w), request);
    SkippedAfterDelete(w, VMCleared(w), request);
  }

  lemma DeletedSafe(w: World, condemned: set<string>, v: string)
    requires Safe(w, condemned) && v in w.vms && IsShutDown(w.vms[v]) && v == w.state.currentVMCID
    ensures
      var b := Saved(WithoutVM(w, v), w.state.(currentVMCID := ""), Quiet);
      Safe(b, condemned) && "" !in b.vms
  {}

  // ----- A record that could not be removed -----

  /** A stemcell was deleted in the cloud, and then removing its record failed. Nothing is
      unsafe, but no deploy that asks for it can succeed; and unless it is the current one,
      none is skipped either. */
  lemma LostStemcellStopsDeploys(w: World, condemned: set<string>, request: Request)
    requires Safe(w, condemned)
    requires FindStemcellByName(w.state.stemcells, request.stemcellName, request.stemcellVersion).Some?
    ensures
      var lost := FindStemcellByName(w.state.stemcells, request.stemcellName, request.stemcellVersion).value;
      var b := w.(stemcells := w.stemcells - {lost.cid});
      && Safe(b, condemned) && Dismantled(w, b) && !Deployable(b, request)
      && (CurrentStemcell(w.state) != Some(lost) ==> !IsRecorded(b, request))
  {
    var lost := FindStemcellByName(w.state.stemcells, request.stemcellName, request.stemcellVersion).value;
    FoundStemcell(w.state.stemcells, lost);
    if CurrentStemcell(w.state).Some? {
      FoundStemcell(w.state.stemcells, CurrentStemcell(w.state).value);
    }
  }

  /** The current disk was deleted in the cloud, and then removing its record failed: just
      the deploys that ask for no disk can still succeed. */
  lemma LostDiskStopsDeploys(w: World, condemned: set<string>, request: Request)
    requires Safe(w, condemned) && NoneRunning(w) && CurrentDisk(w.state).Some?
    ensures
      var lost := CurrentDisk(w.state).value.cid;
      var b := w.(disks := w.disks - {lost});
      && Safe(b, condemned + {lost}) && Dismantled(w, b)
      && (Deployable(b, request) <==> Deployable(w, request) && request.jobs[0].pool.value.size == 0)
  {}

  /** After a delete that has succeeded, every request that makes sense can be met again. */
  lemma DeleteBringsBack(w: World, request: Request)
    requires NothingLeft(w)
    ensures Deployable(w, request) <==> |request.jobs| == 1 && request.jobs[0].instances == 1 && request.jobs[0].pool.Some?
  {}

  // ----- Runs -----

  /** A command, or the jobs on some VM writing to their disk between two commands. */
  datatype Step = DeployStep(request: Request) | DeleteStep | JobsStep(vm: string, data: Content)

  /** A deploy that was skipped, and the world that it has left as it was. */
  datatype Skip = Skip(w: World, request: Request)

  ghost predicate NoDelete(steps: seq<Step>) {
    forall s | s in steps :: !s.DeleteStep?
  }

  ghost predicate FollowAll(steps: seq<Step>, manifests: Manifests) {
    forall s | s in steps && s.DeployStep? :: Follows(s.request, manifests)
  }

  /** Every live disk and stemcell has a record, and the VM of record is the only one. */
  ghost predicate NothingLost(w: World) {
    && w.vms.Keys <= {w.state.currentVMCID}
    && (forall c | c in w.disks :: FindDiskByCID(w.state.disks, c).Some?)
    && (forall c | c in w.stemcells :: exists r :: r in w.state.stemcells && r.cid == c)
  }

  lemma NothingLostTrack(w: World, condemned: set<string>)
    requires Safe(w, condemned) && Settled(w) && w.leaked == {}
    ensures NothingLost(w)
  {}

  /** What holds of the deploys that were skipped so far. */
  ghost predicate SkipsAreRight(skips: seq<Skip>, always: bool) {
    forall s | s in skips ::
      && IsRecorded(s.w, s.request)
      && (Running(s.w, s.request) <==> JobsRun(s.w))
      && (always ==> Running(s.w, s.request))
  }

  lemma OneMoreSkip(
    skips: seq<Skip>, always: bool, w: World, condemned: set<string>, request: Request, manifests: Manifests)
    requires SkipsAreRight(skips, always) && (always ==> Up(w))
    requires Safe(w, condemned) && Standing(w, manifests) && Follows(request, manifests) && IsRecorded(w, request)
    ensures SkipsAreRight(skips + [Skip(w, request)], always)
  {
    SkipIsRightIffJobsRun(w, condemned, request, manifests);
    RecordedMeansFinished(w, condemned, request);
    hide Running, IsRecorded;
  }

  /** AtRest says that every world on the way was safe. Without trouble with the state file
      nothing is ever lost track of. A deploy that is skipped was right to be if and only if
      jobs run on the VM of record; without deletes they do. */
  method Run(env: Environment, steps: seq<Step>, ghost manifests: Manifests) returns (ghost skips: seq<Skip>)
    requires env.AtRest() && Standing(env.w, manifests) && FollowAll(steps, manifests)
    modifies env`w, env`safeSoFar, env`condemned, env`trouble
    ensures env.AtRest() && Standing(env.w, manifests)
    ensures NoDelete(steps) ==> env.condemned <= old(env.condemned)
    ensures (forall s | s in steps :: s.DeployStep?) ==> DataKept(old(env.w), env.w)
    ensures SkipsAreRight(skips, NoDelete(steps) && old(Up(env.w)))
    ensures NoDelete(steps) && old(Up(env.w)) ==> Up(env.w)
    ensures Onward(old(env.trouble), old(env.w.leaked), env.trouble, env.w.leaked)
    ensures env.trouble.state == old(env.trouble.state) && old(env.w.leaked) == {} ==> NothingLost(env.w)
  {
    hide Safe, Standing, Up, Dismantled, Conclusive, SkipsAreRight, NothingLost, IsRecorded, Follows;
    ghost var always := NoDelete(steps) && Up(env.w);
    skips := [];
    NoSkips(always);
    for i := 0 to |steps|
      invariant env.AtRest() && Standing(env.w, manifests)
      invariant NoDelete(steps) ==> env.condemned <= old(env.condemned)
      invariant (forall s | s in steps :: s.DeployStep?) ==> DataKept(old(env.w), env.w)
      invariant SkipsAreRight(skips, always) && (always ==> Up(env.w))
      invariant Onward(old(env.trouble), old(env.w.leaked), env.trouble, env.w.leaked)
    {
      ghost var a := env.w;
      assert steps[i] in steps;
      match steps[i] {
        case DeployStep(request) =>
          var _, skipped := DeployCommand(env, request);
          if skipped {
            OneMoreSkip(skips, always, env.w, env.condemned, request, manifests);
            skips := skips + [Skip(env.w, request)];
          }
          DeployKeeps(a, env.w, request, manifests);
        case DeleteStep =>
          var _ := FindAndDeleteDeployment(env);
          DismantledLeaks(a, env.w);
          DeleteKeeps(a, env.w, manifests);
        case JobsStep(vm, data) =>
          env.JobsWrite(vm, data);
          JobsKeep(a, env.w, manifests);
      }
    }
    if env.w.leaked == {} {
      NothingLostTrack(env.w, env.condemned);
    }
  }

  lemma DismantledLeaks(a: World, b: World)
    requires Dismantled(a, b)
    ensures b.leaked == a.leaked
  {}

  lemma NoSkips(always: bool)
    ensures SkipsAreRight([], always)
  {}
}

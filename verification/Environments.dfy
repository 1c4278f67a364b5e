/** The world bosh-init acts on: the persisted state, the cloud, the agents, and the
    history variables the safety properties speak about. Every effect of every command
    goes through one method of Environment, so that the safety of each world a run
    passes through is checked, not only of the last one. */
module Environments {
  import opened Wrappers
  import opened DeploymentStates

  /** What a disk holds. The value itself is of no interest, only its equality. */
  type Content = nat
  const BLANK: Content := 0

  datatype Resource = Disk(diskCID: string) | VM(vmCID: string) | Stemcell(stemcellCID: string)

  /** An order that the agent of a VM carries out. The initial state is one that the agent
      takes its network settings from, the resolved one has the jobs to run. To report that
      the jobs are running may take any number of questions. */
  datatype Order = ApplyInitial | ApplyResolved | Stop | Start | RunScript(name: string) | ReportState | ReportRunning

  /** A live VM with its agent. The agent mounts the first disk at its store directory
      and a second one as the migration target; "" means that nothing is mounted. What it
      has been told are the orders that it carried out. The stemcell is the CID of the one
      that the VM was created from. */
  datatype VMState = VMState(
    attached: set<string>,
    store: string,
    target: string,
    running: bool,
    told: seq<Order>,
    stemcell: string)

  function NewVM(stemcell: string): VMState {
    VMState({}, "", "", false, [], stemcell)
  }

  function Told(a: VMState, order: Order): VMState {
    a.(told := a.told + [order],
       running := match order case Start => true case Stop => false case _ => a.running)
  }

  datatype Release = Release(name: string, version: string)

  /** How far the latest deploy attempt that began clearing the deployment record got. */
  datatype Attempt = Unfinished | Finished(sha1: string, releases: seq<Release>)

  /** What a save of the state means to the history of attempts. */
  datatype Note = Quiet | Clearing | Updated(sha1: string, releases: seq<Release>)

  /** What a disk was created as. */
  datatype DiskShape = DiskShape(size: int, props: Properties)

  /** A stemcell that was uploaded, and the CID that the cloud returned for it. */
  datatype StemcellUpload = StemcellUpload(cid: string, name: string, version: string)

  datatype World = World(
    state: DeploymentState,          // the deployment state file
    disks: map<string, Content>,     // live disks in the cloud
    vms: map<string, VMState>,       // live VMs in the cloud
    stemcells: set<string>,          // live stemcells in the cloud
    // History:
    usedDisks: map<string, DiskShape>, // disk CIDs the cloud has ever given out, and for what
    uploads: set<StemcellUpload>,    // every upload of a stemcell that was successful
    unrecorded: map<Resource, nat>,  // created, and not yet in any state that was saved; with
                                     // the number of times the state file had failed by then
    leaked: set<Resource>,           // created, and then recording them failed
    silent: set<string>,             // VMs whose agent did not answer the last time it was asked
    torn: set<string>,               // VMs deleted with jobs running or disks mounted, though
                                     // their agent had answered
    latest: Content,                 // what the deployment's persistent disk should hold
    attempt: Attempt)

  function Recorded(s: DeploymentState): set<Resource> {
    (set r | r in s.disks :: Disk(r.cid)) + {VM(s.currentVMCID)} + (set r | r in s.stemcells :: Stemcell(r.cid))
  }

  /** The world after a save that succeeded. A state that names a current disk where the
      one before named none makes what that disk holds the deployment's data. */
  function Saved(w: World, s: DeploymentState, note: Note): World {
    w.(state := s,
       unrecorded := w.unrecorded - Recorded(s),
       latest := if CurrentDisk(w.state).None? && CurrentDisk(s).Some? && CurrentDisk(s).value.cid in w.disks
                 then w.disks[CurrentDisk(s).value.cid] else w.latest,
       attempt := match note
                  case Quiet => w.attempt
                  case Clearing => Unfinished
                  case Updated(sha1, releases) => Finished(sha1, releases))
  }

  // ----- Safety of one world -----

  /** The current disk is live, unless a delete run has asked for its deletion, and as
      long as it is live it holds the latest data. */
  ghost predicate DataSafe(w: World, condemned: set<string>) {
    match CurrentDisk(w.state)
    case None => true
    case Some(r) =>
      && (r.cid !in condemned ==> r.cid in w.disks)
      && (r.cid in w.disks ==> w.disks[r.cid] == w.latest)
  }

  ghost predicate IsCurrentDisk(s: DeploymentState, c: string) {
    CurrentDisk(s).Some? && CurrentDisk(s).value.cid == c
  }

  /** Deleting this disk loses nothing that anybody still wants. */
  ghost predicate Dispensable(w: World, condemned: set<string>, c: string) {
    IsCurrentDisk(w.state, c) ==> c in condemned
  }

  /** Nothing runs that could still write to the deployment's disk. */
  ghost predicate NoneRunning(w: World) {
    forall v | v in w.vms :: !w.vms[v].running
  }

  ghost predicate StoreIsCurrent(w: World, v: string)
    requires v in w.vms
  {
    w.vms[v].store == "" || IsCurrentDisk(w.state, w.vms[v].store)
  }

  /** Jobs run on the VM of record only, and write to the disk of record only. */
  ghost predicate JobsSafe(w: World) {
    forall v | v in w.vms && w.vms[v].running ::
      v == w.state.currentVMCID && StoreIsCurrent(w, v)
  }

  ghost predicate DisksCovered(w: World) {
    forall c | c in w.disks :: (exists r :: r in w.state.disks && r.cid == c) || Disk(c) in w.unrecorded
  }

  ghost predicate StemcellsCovered(w: World) {
    forall c | c in w.stemcells :: (exists r :: r in w.state.stemcells && r.cid == c) || Stemcell(c) in w.unrecorded
  }

  /** Every live resource is recorded, or its creation was never followed by a save that
      recorded it; in particular the VM of record is the only live VM that ever got recorded. */
  ghost predicate Covered(w: World) {
    && DisksCovered(w)
    && (forall c | c in w.vms :: c == w.state.currentVMCID || VM(c) in w.unrecorded)
    && StemcellsCovered(w)
  }

  /** At most one VM is alive, VMs whose recording failed aside. */
  ghost predicate OneVM(w: World) {
    forall x, y | x in w.vms && y in w.vms && VM(x) !in w.leaked && VM(y) !in w.leaked :: x == y
  }

  /** Nothing runs on this VM, and no disk is mounted. */
  predicate IsShutDown(a: VMState) {
    !a.running && a.store == "" && a.target == ""
  }

  /** Only VMs whose agent did not answer are deleted without being shut down. */
  ghost predicate ShutDownFirst(w: World) {
    w.torn == {}
  }

  ghost predicate MayDelete(w: World, v: string) {
    v in w.vms && !IsShutDown(w.vms[v]) ==> v in w.silent
  }

  ghost predicate WellNamed(w: World) {
    && "" !in w.usedDisks && "" !in w.vms
    && w.disks.Keys <= w.usedDisks.Keys
    && (forall r | r in w.state.disks :: r.cid in w.usedDisks)
  }

  /** As long as the latest attempt is unfinished, the deployment record has no manifest
      or no releases; once it is finished, the record says what that attempt deployed. */
  ghost predicate RecordHonest(w: World) {
    match w.attempt
    case Unfinished => w.state.currentManifestSHA1 == "" || w.state.releases == []
    case Finished(sha1, releases) =>
      && w.state.currentManifestSHA1 == sha1
      && |w.state.releases| == |releases|
      && forall i | 0 <= i < |releases| ::
           releases[i] == Release(w.state.releases[i].name, w.state.releases[i].version)
  }

  /** Jobs run on the VM of record. */
  ghost predicate JobsRun(w: World) {
    w.state.currentVMCID in w.vms && w.vms[w.state.currentVMCID].running
  }

  /** If jobs still run on the VM of record, then they ran there before, and what they run on
      is as it was. */
  ghost predicate KeptWhileRunning(a: World, b: World) {
    JobsRun(b) ==>
      && JobsRun(a) && b.state.currentVMCID == a.state.currentVMCID
      && b.vms[b.state.currentVMCID] == a.vms[a.state.currentVMCID]
      && b.disks == a.disks
      && b.state.disks == a.state.disks && b.state.currentDiskID == a.state.currentDiskID
  }

  /** What the records say of disks and stemcells is what those were created as. */
  ghost predicate RecordsTrue(w: World) {
    && (forall r | r in w.state.disks :: r.cid in w.usedDisks && w.usedDisks[r.cid] == DiskShape(r.size, r.props))
    && (forall r | r in w.state.stemcells :: StemcellUpload(r.cid, r.name, r.version) in w.uploads)
  }

  ghost predicate Safe(w: World, condemned: set<string>) {
    && Integrity(w.state)
    && WellNamed(w)
    && DataSafe(w, condemned)
    && JobsSafe(w)
    && Covered(w)
    && OneVM(w)
    && RecordHonest(w)
    && RecordsTrue(w)
    && ShutDownFirst(w)
  }

  lemma SafeRecords(w: World, condemned: set<string>)
    requires Safe(w, condemned)
    ensures Integrity(w.state)
  {}

  lemma VMsAreNamed(w: World, condemned: set<string>)
    requires Safe(w, condemned)
    ensures "" !in w.vms
  {}

  /** Whatever was created and is not recorded is something whose recording failed. This
      holds between operations, not between a creation and the save that follows it. */
  ghost predicate Settled(w: World) {
    w.unrecorded.Keys <= w.leaked
  }

  /** How often a call has failed that need not have failed: one on the state file (loading,
      saving, generating an ID for a record), or any other. */
  datatype Trouble = Trouble(state: nat, other: nat) {
    function AfterState(ok: bool): Trouble {
      if ok then this else this.(state := state + 1)
    }

    ghost predicate Before(t: Trouble) {
      state <= t.state && other <= t.other
    }

    function AfterCall(ok: bool): Trouble {
      if ok then this else this.(other := other + 1)
    }
  }

  /** There was trouble with the state file exactly if this did not go well. */
  ghost predicate StateTrouble(t: Trouble, t': Trouble, ok: bool) {
    t'.other == t.other && if ok then t' == t else t.state < t'.state
  }

  /** Trouble only adds up, and nothing leaks without trouble with the state file. */
  ghost predicate Onward(t: Trouble, leaked: set<Resource>, t': Trouble, leaked': set<Resource>) {
    && t.Before(t')
    && (t.state == t'.state ==> leaked' == leaked)
  }

  lemma StateTroubleMeans(t: Trouble, t': Trouble, ok: bool, leaked: set<Resource>)
    requires StateTrouble(t, t', ok)
    ensures Onward(t, leaked, t', leaked) && (ok <==> t' == t)
  {}

  lemma OnwardNow(t: Trouble, leaked: set<Resource>)
    ensures Onward(t, leaked, t, leaked)
  {}

  lemma TroubleNow(t: Trouble)
    ensures t.Before(t)
  {}

  lemma TroubleTwice(t0: Trouble, t1: Trouble, t2: Trouble)
    requires t0.Before(t1) && t1.Before(t2)
    ensures t0.Before(t2) && (t2 == t0 ==> t1 == t0)
  {}

  lemma OnwardTwice(
    t0: Trouble, l0: set<Resource>, t1: Trouble, l1: set<Resource>, t2: Trouble, l2: set<Resource>)
    requires Onward(t0, l0, t1, l1) && Onward(t1, l1, t2, l2)
    ensures Onward(t0, l0, t2, l2)
    ensures t2 == t0 ==> t1 == t0
  {}

  /** What a VM has attached and mounted, and whether it runs jobs, may change as long as
      jobs run on the VM of record and on the disk of record only. */
  lemma VMChangedSafe(w: World, condemned: set<string>, v: string, a: VMState)
    requires Safe(w, condemned) && v in w.vms
    requires a.running ==> v == w.state.currentVMCID && (a.store == "" || IsCurrentDisk(w.state, a.store))
    ensures Safe(WithVM(w, v, a), condemned)
  {}

  lemma SameJobs(w: World, condemned: set<string>, v: string, a: VMState)
    requires Safe(w, condemned) && v in w.vms && a.running == w.vms[v].running
    requires a.store == w.vms[v].store || a.store == ""
    ensures Safe(WithVM(w, v, a), condemned)
  {
    VMChangedSafe(w, condemned, v, a);
  }

  lemma ToldSafe(w: World, condemned: set<string>, v: string, order: Order)
    requires Safe(w, condemned) && v in w.vms
    requires order.Start? ==> v == w.state.currentVMCID && StoreIsCurrent(w, v)
    ensures Safe(WithVM(w, v, Told(w.vms[v], order)), condemned)
  {
    VMChangedSafe(w, condemned, v, Told(w.vms[v], order));
  }

  lemma TargetChangedSafe(w: World, condemned: set<string>, c: string, data: Content)
    requires Safe(w, condemned) && c in w.disks && !IsCurrentDisk(w.state, c)
    ensures Safe(w.(disks := w.disks[c := data]), condemned)
  {}

  /** After a save that leaves the records alone they cover what they covered, as truly. */
  lemma StillCovered(w: World, s: DeploymentState, note: Note)
    requires Covered(w) && RecordsTrue(w)
    requires s.disks == w.state.disks && s.stemcells == w.state.stemcells && s.currentVMCID == w.state.currentVMCID
    ensures Covered(Saved(w, s, note)) && RecordsTrue(Saved(w, s, note))
  {
    var b := Saved(w, s, note);
    forall c | c in b.disks && Disk(c) !in b.unrecorded ensures exists r :: r in s.disks && r.cid == c {
      assert Disk(c) in w.unrecorded ==> Disk(c) in Recorded(s);
    }
    forall c | c in b.stemcells && Stemcell(c) !in b.unrecorded ensures exists r :: r in s.stemcells && r.cid == c {
      assert Stemcell(c) in w.unrecorded ==> Stemcell(c) in Recorded(s);
    }
  }

  lemma DiskGoneSafe(w: World, condemned: set<string>, c: string)
    requires Safe(w, condemned) && Dispensable(w, condemned, c)
    ensures Safe(w.(disks := w.disks - {c}), condemned)
  {}

  lemma VMGoneSafe(w: World, condemned: set<string>, v: string)
    requires Safe(w, condemned) && MayDelete(w, v)
    ensures Safe(WithoutVM(w, v), condemned)
  {}

  lemma WrittenSafe(w: World, condemned: set<string>, v: string, data: Content)
    requires Safe(w, condemned) && v in w.vms && w.vms[v].running && w.vms[v].store in w.disks
    ensures Safe(w.(disks := w.disks[w.vms[v].store := data], latest := data), condemned)
  {}

  lemma DiskCreatedSafe(w: World, condemned: set<string>, c: string, shape: DiskShape, failures: nat)
    requires Safe(w, condemned) && condemned <= w.usedDisks.Keys && c != "" && c !in w.usedDisks
    ensures Safe(w.(disks := w.disks[c := BLANK], usedDisks := w.usedDisks[c := shape],
                    unrecorded := w.unrecorded[Disk(c) := failures]), condemned)
  {}

  lemma StemcellCreatedSafe(w: World, condemned: set<string>, upload: StemcellUpload, failures: nat)
    requires Safe(w, condemned)
    ensures Safe(w.(stemcells := w.stemcells + {upload.cid}, uploads := w.uploads + {upload},
                    unrecorded := w.unrecorded[Stemcell(upload.cid) := failures]), condemned)
  {}

  lemma VMCreatedSafe(w: World, condemned: set<string>, c: string, stemcell: string, failures: nat)
    requires Safe(w, condemned) && Settled(w) && w.state.currentVMCID == ""
    requires c != "" && c !in w.vms && VM(c) !in w.unrecorded
    ensures Safe(w.(vms := w.vms[c := NewVM(stemcell)], unrecorded := w.unrecorded[VM(c) := failures]), condemned)
  {}

  class Environment {
    var w: World
    /** Disks a delete run has asked to remove, and no deploy has found alive since. */
    ghost var condemned: set<string>
    /** Whether Safe held of every world entered so far, each with the disks that were
        condemned at that time. */
    ghost var safeSoFar: bool
    var trouble: Trouble

    ghost predicate Sound()
      reads this`w, this`condemned, this`safeSoFar
    {
      safeSoFar && Safe(w, condemned) && condemned <= w.usedDisks.Keys
    }

    /** Sound, and between operations. */
    ghost predicate AtRest()
      reads this`w, this`condemned, this`safeSoFar
    {
      Sound() && Settled(w)
    }

    /** The last step was an effect, and its outcome has been checked. */
    twostate predicate Watched()
      reads this`w, this`condemned, this`safeSoFar
    {
      safeSoFar == (old(safeSoFar) && Safe(w, condemned))
    }

    constructor (initial: World)
      requires Safe(initial, {})
      ensures w == initial && condemned == {} && trouble == Trouble(0, 0) && Sound()
    {
      w := initial;
      condemned := {};
      safeSoFar := true;
      trouble := Trouble(0, 0);
    }

    method Enter(next: World)
      modifies this`w, this`safeSoFar
      ensures w == next && Watched()
    {
      w := next;
      safeSoFar := safeSoFar && Safe(w, condemned);
    }

    // ----- The state file -----

    method Load() returns (ok: bool, s: DeploymentState)
      modifies this`trouble
      ensures s == w.state
      ensures trouble == old(trouble).AfterState(ok)
    {
      ok := *;
      s := w.state;
      trouble := trouble.AfterState(ok);
    }

    method Save(s: DeploymentState, note: Note) returns (ok: bool)
      modifies this`w, this`safeSoFar, this`trouble
      ensures w == if ok then Saved(old(w), s, note) else old(w)
      ensures trouble == old(trouble).AfterState(ok)
      ensures Watched()
      ensures old(Sound()) && (ok ==> Safe(Saved(old(w), s, note), condemned)) ==> Sound()
    {
      ok := *;
      trouble := trouble.AfterState(ok);
      if ok {
        Enter(Saved(w, s, note));
      } else {
        Enter(w);
      }
    }

    /** A UUID that no disk or stemcell record has, and none of those already taken. */
    method GenerateUUID(taken: seq<string>) returns (r: Option<string>)
      modifies this`trouble
      ensures r.Some? ==>
        && r.value != "" && r.value !in taken
        && FindDiskByID(w.state.disks, r.value).None?
        && FindStemcellByID(w.state.stemcells, r.value).None?
      ensures trouble == old(trouble).AfterState(r.Some?)
    {
      var id: string := *;
      if id != "" && id !in taken && FindDiskByID(w.state.disks, id).None? && FindStemcellByID(w.state.stemcells, id).None? {
        r := Some(id);
      } else {
        r := None;
      }
      trouble := trouble.AfterState(r.Some?);
    }

    /** Recording what was created has failed: the state file has, since its creation. */
    method NoteLeak(r: Resource)
      requires r in w.unrecorded && w.unrecorded[r] < trouble.state
      modifies this`w, this`safeSoFar
      ensures w == old(w).(leaked := old(w).leaked + {r})
      ensures Watched()
      ensures old(Sound()) ==> Sound()
    {
      Enter(w.(leaked := w.leaked + {r}));
    }

    // ----- The cloud. A failed create has no effect; any other call that fails may
    // still have taken effect. NotFound means that the resource is not there. Nothing is
    // asked of the cloud or of an agent while a resource waits for its record. -----

    method CreateDisk(size: int, props: Properties) returns (r: Option<string>)
      requires Settled(w)
      modifies this`w, this`safeSoFar, this`trouble
      ensures r.None? ==> w == old(w)
      ensures r.Some? ==>
        && r.value != "" && r.value !in old(w).usedDisks
        && w == old(w).(disks := old(w).disks[r.value := BLANK],
                        usedDisks := old(w).usedDisks[r.value := DiskShape(size, props)],
                        unrecorded := old(w).unrecorded[Disk(r.value) := trouble.state])
      ensures trouble == old(trouble).AfterCall(r.Some?)
      ensures Watched()
      ensures old(Sound()) ==> Sound()
    {
      hide Safe;
      var c: string := *;
      if c != "" && c !in w.usedDisks {
        if Sound() { DiskCreatedSafe(w, condemned, c, DiskShape(size, props), trouble.state); }
        Enter(w.(disks := w.disks[c := BLANK],
                 usedDisks := w.usedDisks[c := DiskShape(size, props)],
                 unrecorded := w.unrecorded[Disk(c) := trouble.state]));
        r := Some(c);
      } else {
        Enter(w);
        r := None;
      }
      trouble := trouble.AfterCall(r.Some?);
    }

    method DeleteDisk(c: string) returns (r: Outcome)
      requires Settled(w)
      modifies this`w, this`safeSoFar, this`trouble
      ensures w == old(w) || w == old(w).(disks := old(w).disks - {c})
      ensures r != Failed ==> c !in w.disks
      ensures r == NotFound ==> c !in old(w).disks
      ensures trouble == old(trouble).AfterCall(r != Failed)
      ensures Watched()
      ensures old(Sound()) && Dispensable(old(w), condemned, c) ==> Sound()
    {
      hide Safe;
      r := *;
      var gone: bool := *;
      if Sound() && Dispensable(w, condemned, c) { DiskGoneSafe(w, condemned, c); }
      if r == NotFound && c in w.disks {
        r := Failed;
      }
      trouble := trouble.AfterCall(r != Failed);
      Enter(if gone || r == Ok then w.(disks := w.disks - {c}) else w);
    }

    /** There has to be a stemcell to create it from. */
    method CreateVM(stemcell: string) returns (r: Option<string>)
      requires Settled(w)
      modifies this`w, this`safeSoFar, this`trouble
      ensures r.None? ==> w == old(w)
      ensures r.Some? ==>
        && stemcell in old(w).stemcells
        && r.value != "" && r.value !in old(w).vms && VM(r.value) !in old(w).unrecorded
        && w == old(w).(vms := old(w).vms[r.value := NewVM(stemcell)],
                        unrecorded := old(w).unrecorded[VM(r.value) := trouble.state])
      ensures trouble == old(trouble).AfterCall(r.Some? || stemcell !in old(w).stemcells)
      ensures Watched()
      ensures old(Sound()) && old(w).state.currentVMCID == "" ==> Sound()
    {
      hide Safe;
      var c: string := *;
      if stemcell in w.stemcells && c != "" && c !in w.vms && VM(c) !in w.unrecorded {
        if Sound() && w.state.currentVMCID == "" { VMCreatedSafe(w, condemned, c, stemcell, trouble.state); }
        Enter(w.(vms := w.vms[c := NewVM(stemcell)], unrecorded := w.unrecorded[VM(c) := trouble.state]));
        r := Some(c);
      } else {
        Enter(w);
        r := None;
      }
      trouble := trouble.AfterCall(r.Some? || stemcell !in w.stemcells);
    }

    method HasVM(c: string) returns (r: Option<bool>)
      requires Settled(w)
      modifies this`trouble
      ensures r.Some? ==> r.value == (c in w.vms)
      ensures trouble == old(trouble).AfterCall(r.Some?)
    {
      var ok: bool := *;
      trouble := trouble.AfterCall(ok);
      r := if ok then Some(c in w.vms) else None;
    }

    method DeleteVM(c: string) returns (r: Outcome)
      requires Settled(w)
      modifies this`w, this`safeSoFar, this`trouble
      ensures w == old(w) || w == WithoutVM(old(w), c)
      ensures r != Failed ==> c !in w.vms
      ensures r == NotFound ==> c !in old(w).vms
      ensures trouble == old(trouble).AfterCall(r != Failed)
      ensures Watched()
      ensures old(Sound()) && MayDelete(old(w), c) ==> Sound()
    {
      hide Safe;
      r := *;
      var gone: bool := *;
      if Sound() && MayDelete(w, c) { VMGoneSafe(w, condemned, c); }
      if r == NotFound && c in w.vms {
        r := Failed;
      }
      trouble := trouble.AfterCall(r != Failed);
      Enter(if gone || r == Ok then WithoutVM(w, c) else w);
    }

    /** There has to be a VM and a disk; the same goes for the calls below. */
    method AttachDisk(v: string, c: string) returns (ok: bool)
      requires Settled(w)
      modifies this`w, this`safeSoFar, this`trouble
      ensures !ok ==> w == old(w) || (v in old(w).vms && w == WithVM(old(w), v, old(w).vms[v].(attached := old(w).vms[v].attached + {c})))
      ensures ok ==>
        && v in old(w).vms && c in old(w).disks
        && w == WithVM(old(w), v, old(w).vms[v].(attached := old(w).vms[v].attached + {c}))
      ensures trouble == old(trouble).AfterCall(ok || v !in old(w).vms || c !in old(w).disks)
      ensures Watched()
      ensures old(Sound()) ==> Sound()
    {
      hide Safe;
      ok := *;
      var done: bool := *;
      if v in w.vms && c in w.disks {
        trouble := trouble.AfterCall(ok);
        var a := w.vms[v].(attached := w.vms[v].attached + {c});
        if Sound() { SameJobs(w, condemned, v, a); }
        Enter(if ok || done then WithVM(w, v, a) else w);
      } else {
        ok := false;
        Enter(w);
      }
    }

    method DetachDisk(v: string, c: string) returns (ok: bool)
      requires Settled(w)
      modifies this`w, this`safeSoFar, this`trouble
      ensures w == old(w) || (v in old(w).vms && w == WithVM(old(w), v, old(w).vms[v].(attached := old(w).vms[v].attached - {c})))
      ensures ok ==> v in old(w).vms && w == WithVM(old(w), v, old(w).vms[v].(attached := old(w).vms[v].attached - {c}))
      ensures trouble == old(trouble).AfterCall(ok || v !in old(w).vms)
      ensures Watched()
      ensures old(Sound()) ==> Sound()
    {
      hide Safe;
      ok := *;
      var done: bool := *;
      if v in w.vms {
        trouble := trouble.AfterCall(ok);
        var a := w.vms[v].(attached := w.vms[v].attached - {c});
        if Sound() { SameJobs(w, condemned, v, a); }
        Enter(if ok || done then WithVM(w, v, a) else w);
      } else {
        ok := false;
        Enter(w);
      }
    }

    /** The CPI may return the CID of a stemcell that it already has. */
    method CreateStemcell(name: string, version: string) returns (r: Option<string>)
      requires Settled(w)
      modifies this`w, this`safeSoFar, this`trouble
      ensures r.None? ==> w == old(w)
      ensures r.Some? ==>
        w == old(w).(stemcells := old(w).stemcells + {r.value},
                     uploads := old(w).uploads + {StemcellUpload(r.value, name, version)},
                     unrecorded := old(w).unrecorded[Stemcell(r.value) := trouble.state])
      ensures trouble == old(trouble).AfterCall(r.Some?)
      ensures Watched()
      ensures old(Sound()) ==> Sound()
    {
      hide Safe;
      var ok: bool := *;
      var c: string := *;
      trouble := trouble.AfterCall(ok);
      if ok {
        if Sound() { StemcellCreatedSafe(w, condemned, StemcellUpload(c, name, version), trouble.state); }
        Enter(w.(stemcells := w.stemcells + {c}, uploads := w.uploads + {StemcellUpload(c, name, version)},
                 unrecorded := w.unrecorded[Stemcell(c) := trouble.state]));
        r := Some(c);
      } else {
        Enter(w);
        r := None;
      }
    }

    method DeleteStemcell(c: string) returns (r: Outcome)
      requires Settled(w)
      modifies this`w, this`safeSoFar, this`trouble
      ensures w == old(w) || w == old(w).(stemcells := old(w).stemcells - {c})
      ensures r != Failed ==> c !in w.stemcells
      ensures r == NotFound ==> c !in old(w).stemcells
      ensures trouble == old(trouble).AfterCall(r != Failed)
      ensures Watched()
      ensures old(Sound()) ==> Sound()
    {
      r := *;
      var gone: bool := *;
      if r == NotFound && c in w.stemcells {
        r := Failed;
      }
      trouble := trouble.AfterCall(r != Failed);
      Enter(if gone || r == Ok then w.(stemcells := w.stemcells - {c}) else w);
    }

    // ----- The agent on a VM -----

    /** A call whose effects the model does not track, such as getting the agent's state. */
    method Call() returns (ok: bool)
      requires Settled(w)
      modifies this`trouble
      ensures trouble == old(trouble).AfterCall(ok)
    {
      ok := *;
      trouble := trouble.AfterCall(ok);
    }

    method Ping(v: string) returns (ok: bool)
      requires Settled(w)
      modifies this`w, this`safeSoFar, this`trouble
      ensures w == old(w).(silent := if ok then old(w).silent - {v} else old(w).silent + {v})
      ensures trouble == old(trouble).AfterCall(ok)
      ensures Watched()
      ensures old(Sound()) ==> Sound()
    {
      ok := *;
      trouble := trouble.AfterCall(ok);
      Enter(w.(silent := if ok then w.silent - {v} else w.silent + {v}));
    }

    /** An agent that answers lists every disk that is mounted. */
    method ListDisk(v: string) returns (ok: bool, cids: seq<string>)
      requires Settled(w)
      modifies this`trouble
      ensures ok && v in w.vms ==> ListsMounts(cids, w.vms[v])
      ensures trouble == old(trouble).AfterCall(ok)
    {
      ok := *;
      cids := *;
      if v in w.vms && !ListsMounts(cids, w.vms[v]) {
        ok := false;
      }
      trouble := trouble.AfterCall(ok);
    }

    method MountDisk(v: string, c: string) returns (ok: bool)
      requires Settled(w)
      modifies this`w, this`safeSoFar, this`trouble
      ensures w == old(w) || (v in old(w).vms && w == WithVM(old(w), v, Mounted(old(w).vms[v], c)))
      ensures ok ==> v in old(w).vms && w == WithVM(old(w), v, Mounted(old(w).vms[v], c))
      ensures trouble == old(trouble).AfterCall(ok || v !in old(w).vms || c !in old(w).vms[v].attached)
      ensures Watched()
      ensures old(Sound()) && (v in old(w).vms ==> !old(w).vms[v].running) ==> Sound()
    {
      hide Safe;
      ok := *;
      var done: bool := *;
      if v in w.vms && c in w.vms[v].attached {
        trouble := trouble.AfterCall(ok);
        var a := Mounted(w.vms[v], c);
        if Sound() && !a.running { VMChangedSafe(w, condemned, v, a); }
        Enter(if ok || done then WithVM(w, v, a) else w);
      } else {
        ok := false;
        Enter(w);
      }
    }

    method UnmountDisk(v: string, c: string) returns (ok: bool)
      requires Settled(w)
      modifies this`w, this`safeSoFar, this`trouble
      ensures w == old(w) || (v in old(w).vms && w == WithVM(old(w), v, Unmounted(old(w).vms[v], c)))
      ensures ok && v in old(w).vms ==> w == WithVM(old(w), v, Unmounted(old(w).vms[v], c))
      ensures trouble == old(trouble).AfterCall(ok)
      ensures Watched()
      ensures old(Sound()) ==> Sound()
    {
      hide Safe;
      ok := *;
      var done: bool := *;
      trouble := trouble.AfterCall(ok);
      if v in w.vms && (ok || done) {
        var a := Unmounted(w.vms[v], c);
        if Sound() { SameJobs(w, condemned, v, a); }
        Enter(WithVM(w, v, a));
      } else {
        Enter(w);
      }
    }

    /** Copies the disk at the store directory to the migration target and mounts the
        target in its place. A migration that fails may also leave anything on the target. */
    method MigrateDisk(v: string) returns (ok: bool)
      requires Settled(w)
      modifies this`w, this`safeSoFar, this`trouble
      ensures ok ==> CanMigrate(old(w), v) && w == Migrated(old(w), v)
      ensures !ok ==>
        || w == old(w)
        || (CanMigrate(old(w), v)
            && (w == Migrated(old(w), v)
                || (old(w).vms[v].target in w.disks
                    && w == old(w).(disks := old(w).disks[old(w).vms[v].target := w.disks[old(w).vms[v].target]]))))
      ensures trouble == old(trouble).AfterCall(ok || !CanMigrate(old(w), v))
      ensures Watched()
      ensures old(Sound()) && (v in old(w).vms ==> !old(w).vms[v].running && !IsCurrentDisk(old(w).state, old(w).vms[v].target)) ==> Sound()
    {
      hide Safe;
      var garbage: Content, done: bool;
      ok, garbage, done := *, *, *;
      if CanMigrate(w, v) {
        trouble := trouble.AfterCall(ok);
        var a := w.vms[v];
        var copied := w.(disks := w.disks[a.target := if ok || done then w.disks[a.store] else garbage]);
        if Sound() && !a.running && !IsCurrentDisk(w.state, a.target) {
          TargetChangedSafe(w, condemned, a.target, copied.disks[a.target]);
          VMChangedSafe(copied, condemned, v, a.(store := a.target, target := ""));
        }
        Enter(if ok || done then WithVM(copied, v, a.(store := a.target, target := "")) else copied);
      } else {
        ok := false;
        Enter(w);
      }
    }

    /** Gives the agent an order. */
    method Tell(v: string, order: Order) returns (ok: bool)
      requires Settled(w)
      modifies this`w, this`safeSoFar, this`trouble
      ensures w == old(w) || (v in old(w).vms && w == WithVM(old(w), v, Told(old(w).vms[v], order)))
      ensures ok ==> v in old(w).vms && w == WithVM(old(w), v, Told(old(w).vms[v], order))
      ensures trouble == old(trouble).AfterCall(ok || v !in old(w).vms)
      ensures Watched()
      ensures old(Sound()) && (order.Start? && v in old(w).vms ==> v == old(w).state.currentVMCID && StoreIsCurrent(old(w), v))
        ==> Sound()
    {
      hide Safe;
      ok := *;
      var done: bool := *;
      if v in w.vms {
        trouble := trouble.AfterCall(ok);
        var a := Told(w.vms[v], order);
        if Sound() && (order.Start? ==> v == w.state.currentVMCID && StoreIsCurrent(w, v)) {
          ToldSafe(w, condemned, v, order);
        }
        Enter(if ok || done then WithVM(w, v, a) else w);
      } else {
        ok := false;
        Enter(w);
      }
    }

    /** The jobs running on a VM write to the disk at its store directory. */
    method JobsWrite(v: string, data: Content)
      modifies this`w, this`safeSoFar
      ensures w == if v in old(w).vms && old(w).vms[v].running && old(w).vms[v].store in old(w).disks
                   then old(w).(disks := old(w).disks[old(w).vms[v].store := data], latest := data) else old(w)
      ensures Watched()
      ensures old(Sound()) ==> Sound()
    {
      hide Safe;
      if v in w.vms && w.vms[v].running && w.vms[v].store in w.disks {
        if Sound() { WrittenSafe(w, condemned, v, data); }
        Enter(w.(disks := w.disks[w.vms[v].store := data], latest := data));
      } else {
        Enter(w);
      }
    }

    // ----- What the user asks for -----

    /** A delete run is about to delete this disk. */
    ghost method Condemn(c: string)
      requires Sound() && c in w.usedDisks
      modifies this`condemned
      ensures condemned == old(condemned) + {c} && Sound()
    {
      condemned := condemned + {c};
    }

    /** A deploy begins: every disk that is still alive is wanted again. */
    ghost method TakeBack()
      requires Sound()
      modifies this`condemned
      ensures condemned == old(condemned) - w.disks.Keys && Sound()
    {
      condemned := condemned - w.disks.Keys;
    }
  }

  lemma RestRecords(env: Environment)
    requires env.AtRest()
    ensures Integrity(env.w.state)
  {}

  function WithVM(w: World, v: string, a: VMState): World {
    w.(vms := w.vms[v := a])
  }

  function WithoutVM(w: World, v: string): World {
    w.(vms := w.vms - {v}, torn := w.torn + if v in w.vms && !IsShutDown(w.vms[v]) && v !in w.silent then {v} else {})
  }

  predicate CanMigrate(w: World, v: string) {
    v in w.vms && w.vms[v].store in w.disks && w.vms[v].target in w.disks
  }

  function Migrated(w: World, v: string): World
    requires CanMigrate(w, v)
  {
    var a := w.vms[v];
    WithVM(w.(disks := w.disks[a.target := w.disks[a.store]]), v, a.(store := a.target, target := ""))
  }

  predicate ListsMounts(cids: seq<string>, a: VMState) {
    (a.store == "" || a.store in cids) && (a.target == "" || a.target in cids)
  }

  function Mounted(a: VMState, c: string): VMState {
    if a.store == "" || a.store == c then a.(store := c) else a.(target := c)
  }

  function Unmounted(a: VMState, c: string): VMState {
    a.(store := if a.store == c then "" else a.store, target := if a.target == c then "" else a.target)
  }
}

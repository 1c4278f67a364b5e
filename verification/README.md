# bosh-init: a Dafny model of its deployment protocol and its package graph

bosh-init deploys one VM with one persistent disk and takes it down again. It has no server:
all that it remembers between two commands is a small state file, and every call it makes (to
the cloud, to the agent on the VM, or to write that file) can fail at any moment and leave the
next command to go on from there. This project models that protocol, the package graph that
decides what is compiled and in which order, and two small parts with a bound or a fact of
their own behind them.

## The parts

**A. The life of disks, VMs and stemcells.** `Environments` holds a `World` (the state file,
the live resources in the cloud, what the agents have mounted and run, and history variables)
and the only methods that change it: one per cloud call, agent call and save. Each of them may
fail. The field `safeSoFar` is a monitor: it stays true only if `Safe` held of *every* world
that was entered, so a contract that ends in `AtRest()` speaks about all intermediate points of
a command and not just about its end. A crash is a call that fails and after which nothing else
happens; since every method keeps `AtRest()` on its error paths, too, the next command may
start from any such point. `Safe` is the conjunction of

- record integrity: unique IDs, disk CIDs and stemcell (name, version) pairs; current IDs are
  empty or name a record;
- data safety: the current disk is alive and holds the latest data, unless a delete command has
  asked for its deletion;
- jobs run only on the VM of record and write only to the disk of record;
- coverage: what is alive is recorded, or has never been in a state that was saved; at most one
  VM is alive;
- the deployment record says what the latest finished attempt deployed, and nothing while an
  attempt is unfinished;
- what the records say of a disk or a stemcell is what it was created or uploaded as;
- a VM is deleted with jobs running or disks mounted only if its agent did not answer.

`AtRest()` adds that nothing waits for its record any more: what was created is recorded, or is
in `leaked`. Only a failure of the state file since its creation lets a resource be put there
(`NoteLeak`), and no call to the cloud or to an agent is allowed before. `trouble` counts the
calls that failed although they could have gone well, those on the state file apart from the
others. Most contracts say two things about it: nothing leaks without trouble with the state
file (`Onward`), and without any trouble the call succeeds.

The modules on top follow the source's packages: the repositories (`DiskRepo`, `StemcellRepo`,
`VMRepo`, `RecordRepos`), `Disks`, `Stemcells`, `VMs`, `DiskDeployers` (the migration protocol),
`Instances`, `Deployments` (resumable deletion), `Records` (what counts as deployed),
`Commands` (the two commands), `Runs` (arbitrary sequences of them) and `Legacy`.

**B. The package graph and the compile cache.** Packages are heap objects told apart by
identity. `PackageSort` is Kahn's algorithm, `DependencyResolution` the walk through graphs that
may have cycles, `CacheKeys`, `CompiledPackages` and `Indexes` the cache, `DependencyCompilers`
and `JobDependencies` what is compiled and in which order, `Readers` how the graph is built from
a manifest. `Graphs` and `CompileOrders` are the theory: paths, cycles, depths, orders, closures.
What may fail at any time (the index file, the blobstore, archives, the compilation itself) counts
its failures (`Indexes`, `Services`), so that a failure can be told from a dependency that is
lacking; and `Services` keeps every request with its answer, so that contracts can say what was
asked for. Go's
iteration over a map is an arbitrary choice in the model.

**C.** `SshTunnel` is the retry loop that only the clock ends; `Subnets` the last address of a
network and the gateway check.

## What the code does differently from what it says

- `resolvePackageDependencies` (state/job/dependency_compiler.go:95) goes into the same package
  again instead of into the dependency. Collected are therefore the job packages and their direct
  dependencies, and sorting adds one more layer. The comment at line 88 promises all transitive
  dependencies. `CompileOrders.CompleteIffClosed` says when the promise is kept,
  `CompileOrders.ChainOfThreeSteps` is a graph for which it is not, and
  `JobDependencies.CompileChain` shows that without a cache it is never compiled.
- The order fails, too, even where everything that is promised is compiled. Sorting sees the edges
  of the collected packages only; what it adds comes where its depth puts it (the longest path to
  it), since the worklist is first in, first out, and its own dependencies count for nothing. Where
  it depends on deeper packages only, the order is right (`CompileOrders.DeeperOnlyIsSound`);
  where it depends on one that is less deep, it is wrong for every order of iteration
  (`CompileOrders.MisplacedIsUnsound`). An example is a job package a that needs b and q, where
  b needs p and p needs q: `JobDependencies.CompileShortCut` shows that without a cache it is
  never compiled. Depth can be known before (`Graphs.DepthIsOne`); `JobDependencies.Compile` states
  both conditions for the outcome.
- `pkgKey` hands the dependency resolution the address of a copy
  (state/pkg/compiled_package_repo.go:68), which is not in the graph. On a cycle a package is
  therefore among its own dependencies. The key is still a function of what the package reaches.
- The check of the releases in `IsDeployed` looks for each release in the record and compares
  lengths. `Records.ReleaseCheckIsExact` says that this compares the sets exactly when no
  release is given twice, `Records.RepeatedReleaseIsNotNoticed` is an example.
- `LastAddress` (common/net/ip_helper.go:8) takes the short form of an address but not of its
  mask. For a network of IPv4-mapped addresses in 16 bytes the result is the network address;
  `Subnets.LastAddressIsGreatest` has the exact condition, and `Subnets.MappedLastIsAccepted`
  what follows for the gateway check.
- A delete that is interrupted leaves the deployment record as it was. If it stops after the
  jobs have been stopped, or after the VM has been deleted and before the current stemcell has
  been cleared (deployment/vm/vm.go:203-208), then the next deploy of the same manifest is
  skipped although nothing runs (`Runs.InterruptedDeleteIsSkipped`). The exact condition is in
  `Runs.SkippedAfterDelete` and `Runs.SkipIsRightIffJobsRun`: a deploy is skipped after a delete
  if and only if it would have been before and the current stemcell has not been cleared, and
  skipping is right if and only if jobs run on the VM of record.
- Deleting asks the cloud first and removes the record after that. When only the first succeeds, a
  stemcell (stemcell/cloud_stemcell.go:69-94) or a disk is recorded that does not exist. The upload
  of the next deploy is skipped because of the record (stemcell/manager.go:56-64), and creating the
  VM fails; so does every further deploy that asks for this stemcell, until a delete succeeds or
  a deploy of another stemcell removes the record. `Commands.Deployable` has the exact condition,
  `Runs.LostStemcellStopsDeploys` and `Runs.LostDiskStopsDeploys` are the worlds in which it fails.
- The branch for several current disks in `Deploy` (deployment/vm/disk_deployer.go:48-49) cannot
  be reached, since `FindCurrent` returns at most one; it would return no error.

## Assumptions

- A create call that fails has no effect in the cloud. Any other call that fails may or may not
  have taken effect. A not-found error is truthful, and so is the answer of `has_vm`.
- CIDs of disks are never given out twice, the CID of a new VM is not that of a live one, UUIDs
  are new. CIDs of stemcells may repeat.
- One save of the state file either happens or does not. The same goes for the index file.
- `Stage.Perform` turns a skip error into success, `PerformComplex` does not (ui/stage.go:35-72).
- A migration that fails may have taken effect or may have left anything on the target disk, but
  it leaves the original alone. The agent on a VM mounts the first disk at its store directory
  and the second as the migration target, and lists every disk that is mounted.
- The clock in `SshTunnel` does not go backwards, and sleeping lasts at least as long as asked.
- `net.IP.To4`, `net.IPNet.Contains` and `net.ParseCIDR` are Go's: an address range becomes a
  masked address and a mask of the same length, and membership compares the short forms.
- The SHA1 of a manifest identifies it (`Follows`); what a manifest asks for is a function of it.
- The leaks that the code admits (a resource whose recording fails right after its creation) are
  not assumed away: `leaked` names exactly those resources, and the claims about coverage except
  them and nothing else. If the state file never fails, there are none.
- `condemned` and `Dispensable` are obligations, not assumptions about the code: whoever deletes
  a disk must show that it is not current, or that the user has asked for its deletion.
- The repositories do what they do in any state; under which conditions that is safe is said in
  their last postcondition. The objects above them have preconditions that the source does not
  check and depends on (jobs start only on the disk of record, a VM is created only when none is
  recorded). Every caller in the model meets them; `Commands.DeployCommand` and
  `Commands.FindAndDeleteDeployment` ask for nothing but a safe world between operations.

## Model

| member | source | states |
|---|---|---|
| `Runs.Run` | cmd/deployment_preparer.go:97-286 | Over any sequence of deploy and delete commands and of writes by jobs, each command stopped at any point by any failing call: every world entered is `Safe`; if the state file never fails, nothing leaks, so that every live disk and stemcell has a record and the only VM alive is the one of record; every deploy that was skipped was right to be exactly if jobs ran on the VM of record, and without deletes they did; without deletes no disk is ever given up, and over deploys alone an existing deployment keeps its current disk and its latest data. |
| `Runs.SkipIsRightIffJobsRun` | cmd/deployment_preparer.go:194-202 | When the record says that just this is deployed, then the deployment runs as requested if and only if jobs run on the VM of record. |
| `Runs.SkippedAfterDelete` | deployment/vm/vm.go:193-215 | After any delete, a deploy is skipped if and only if it would have been before and the current stemcell has not been cleared. |
| `Runs.InterruptedDeleteIsSkipped` | deployment/instance/instance.go:226-250 | From every world in which a deployment runs, two points at which a delete may stop, both within what deletions do to a world: both are safe, both let the next deploy be skipped, and nothing runs in either. |
| `Runs.LostStemcellStopsDeploys` | stemcell/cloud_stemcell.go:69-94 | When a stemcell has been deleted in the cloud and removing its record has failed, nothing is unsafe, but no deploy that asks for it can succeed; unless it is the current one, none is skipped either. |
| `Runs.LostDiskStopsDeploys` | deployment/disk/disk.go:49-75 | When the current disk has been deleted in the cloud and removing its record has failed, just those deploys can still succeed that could before and ask for no disk. |
| `Runs.DeleteBringsBack` | cmd/deployment_deleter.go:159-169 | After a delete that has succeeded, the only conditions left are those on the request itself. |
| `Runs.DoneIsRecorded` | deployment/record.go:38-130 | What a deploy has finished is recorded, so that the same request is skipped next, unless its SHA1 is empty or it has no releases. |
| `Runs.RunningAsAsked` | deployment/vm/manager.go:135-148 | What runs is what was asked for in the cloud, not only in the records: the VM was created from what was uploaded as that stemcell, and its disk, which holds the latest data, was created with the size and the properties of the pool. |
| `Runs.DeployKeeps` | cmd/deployment_preparer.go:248-273 | However a deploy ends, a finished attempt still means that what it asked for is installed, and that it runs if it did before. |
| `Runs.NothingLostTrack` | deployment/vm/manager.go:135-148 | With nothing leaked, the live VMs are at most the one of record, and every live disk and stemcell has a record. |
| `Commands.FindAndDeleteDeployment` | cmd/deployment_deleter.go:159-169 | From any world that earlier commands can leave, success means no current VM, disk or stemcell, no disk and no stemcell records, and nothing alive in the cloud but what the state file failed to record; and if no call fails, then it succeeds. What running jobs need is left alone as long as they run. |
| `Commands.FindCurrentDeploymentAndDelete` | cmd/deployment_deleter.go:171-187 | Success, which only a failing call can prevent, means that nothing is current any more, whether or not a deployment was found, and that the VM, the disk and the stemcell that were current are neither alive nor recorded; records only go away. |
| `Commands.FindCurrent` | deployment/manager.go:37-58 | The deployment that is found has the VM of record, the current disk and the current stemcell as its pieces, and no others; none is found only if nothing is current. |
| `Commands.Cleanup` | deployment/manager.go:60-70 | Success leaves of each kind at most the record of the current one. |
| `Commands.Deploy` | deployment/deployer.go:54-114 | Success means that jobs run on the VM of record, which was created from this stemcell and whose store is the one disk of record, with the requested stemcell current; an existing deployment keeps its data, whatever fails, and its disk if that is as the pool asks; it takes one job with one instance, a disk that is not lost and a stemcell that is alive in the cloud, and with a recorded stemcell and without failing calls that is enough. The VM of before is gone even when the jobs cannot be deployed. |
| `Commands.DeployStage` | cmd/deployment_preparer.go:248-273 | The record is cleared before anything else and written last: after a failure either nothing has happened or no attempt counts as finished, and success means that what was asked for runs and counts as finished. Stemcells and their records stay as they are. What runs was created from this stemcell. |
| `Commands.DeployAll` | cmd/deployment_preparer.go:220-286 | What ran before is undisturbed, or no attempt counts as finished, or what was asked for runs and counts as finished; after success the only stemcell record is the current one. What runs was created from the stemcell of the current record. |
| `Commands.DeployCommand` | cmd/deployment_preparer.go:194-218 | Skips only if just this is recorded, and then changes nothing; otherwise as above, and no disk that was alive is given up; without failing calls it succeeds if and only if it skips or the request can be met: one job, one instance, a disk pool, a SHA1, a disk that is new or alive, and a stemcell that is not recorded or alive. A recorded stemcell that is gone stays so, however often it is asked for. |
| `Deployments.Deployment.Delete` | deployment/deployment.go:42-78 | Resumable deletion, over any number of calls: each piece succeeds at most once, the pieces left and the pieces deleted are always the initial lists, no disk is tried while an instance is left and no stemcell while a disk is left, success means that all three lists are empty, and failure means that the last attempt failed. A VM that left its list is not alive and none is of record; a disk or stemcell that left its list is neither alive nor recorded. Nothing is created. |
| `Deployments.Deployment.DeleteLastInstance` | deployment/deployment.go:44-53 | One attempt at the last instance, which leaves its list exactly on success; its VM is then gone, and no VM is of record. |
| `Deployments.Deployment.DeleteLastDisk` | deployment/deployment.go:80-90 | The same for the last disk, which is then neither alive nor recorded. |
| `Deployments.Deployment.DeleteLastStemcell` | deployment/deployment.go:92-102 | The same for the last stemcell: it is not alive, and no record has its name and version. |
| `DiskDeployers.Deploy` | deployment/vm/disk_deployer.go:37-70 | Convergence: for a pool with a size, success from any safe world (failed migrations included) leaves one disk record; it is current, has the pool's size and properties, its disk is alive, holds the latest data, is the only one attached, is mounted as the store, and is the one returned. A pool of size zero changes nothing. Without failing calls it succeeds if and only if the current disk, if there is one, is alive. A current disk that is as the pool asks stays the one, and no other is created. |
| `DiskDeployers.DeployExistingDisk` | deployment/vm/disk_deployer.go:72-95 | The disk in use afterwards needs no migration; a lost disk is an error; on failure the deployment still has a current disk with the latest data. |
| `DiskDeployers.DeployNewDisk` | deployment/vm/disk_deployer.go:97-119 | After success the new disk is current, attached and mounted; after any failure no disk is current. |
| `DiskDeployers.MigrateDisk` | deployment/vm/disk_deployer.go:121-175 | Data safety at every step: success moves the latest data to a new disk that is current and alone attached, with the original and its record gone; at no point is the current disk gone or stale; it only fails when a call does. |
| `DiskDeployers.ReplaceDisk` | deployment/vm/disk_deployer.go:150-175 | The second half of a migration: the new disk becomes current, then the original is detached and deleted with its record. |
| `DiskDeployers.UpdateCurrentDiskRecord` | deployment/vm/disk_deployer.go:177-193 | Switches to the record of this disk, which must be alive and hold the latest data; any failure changes nothing. |
| `Disks.Delete` | deployment/disk/disk.go:49-75 | Cloud first, record second; success and not-found both mean that disk and record are gone, failure leaves the state file as it was; no other disk is touched. Not-found is only reported for a disk that had a record. |
| `Disks.DeleteRecord` | deployment/disk/disk.go:59-73 | The record of a disk that is gone is removed if there is one, or nothing has changed. |
| `Disks.Create` | deployment/disk/manager.go:57-78 | A new blank disk, created with the size and the properties of the pool, and its record, not current; without a record it is leaked, which takes a failure of the state file. |
| `Disks.FindCurrent` | deployment/disk/manager.go:41-55 | None or exactly the current disk. |
| `Disks.FindUnused` | deployment/disk/manager.go:80-100 | Exactly the disks whose record is not the current one. |
| `Disks.DeleteUnused` | deployment/disk/manager.go:102-124 | Never touches the current disk or its record, whatever fails; success leaves no other record; a disk that was gone already does not stop it. |
| `VMs.AttachDisk` | deployment/vm/vm.go:142-154 | Attaches, then mounts; success means that the disk is alive, attached and mounted on this VM. |
| `VMs.DetachDisk` | deployment/vm/vm.go:156-163 | Detaches this disk from this VM and changes no mount. |
| `VMs.Delete` | deployment/vm/vm.go:193-215 | Cloud first, then the VM record, then the current stemcell: the stemcell is cleared only when no VM is recorded, and the record only when the VM is gone; deleting a VM that was not shut down is only allowed if its agent did not answer. |
| `VMs.ForgetCurrent` | deployment/vm/vm.go:203-215 | First the VM is forgotten, then the stemcell. |
| `Instances.CreateVM` | deployment/vm/manager.go:82-148 | The VM of record is the new one, created from this stemcell, and no call comes between its creation and its record; a VM is leaked only when the state file failed. It takes a stemcell that is alive, and without failing calls that is enough. |
| `Instances.FindCurrentVM` | deployment/instance/manager.go:66-93 | None or exactly the VM of record. |
| `Instances.UnmountDisks` | deployment/instance/instance.go:272-291 | After success nothing is mounted on the VM. |
| `Instances.Shutdown` | deployment/instance/instance.go:226-250 | After success the jobs are stopped and no disk is mounted, or the agent did not answer this time; jobs are stopped before disks are unmounted. |
| `Instances.Delete` | deployment/instance/instance.go:198-224 | Success means that there is no VM of record, no current stemcell, and no job running anywhere; a missing VM is deleted all the same; jobs that still run after a failure run on what they ran on before. |
| `Instances.UpdateJobs` | deployment/instance/instance.go:128-196 | The agent carries out, in this order: apply the initial state, report its state, stop, apply the new state, run the script before the start, start, report that the jobs run, run the script after it. After a failure it has carried out a beginning of that, at most up to the order that failed. Success means that jobs run; nothing else changes. |
| `Instances.UpdateStage` | deployment/instance/instance.go:156-180 | The stage in the middle, which stops the jobs before it applies the new state and starts them after that. |
| `Instances.DeleteAll` | deployment/instance/manager.go:136-152 | Success means that there is no VM of record. |
| `Instances.Create` | deployment/instance/manager.go:95-134 | VM, then stemcell, then disk, which is left alone until the agent on the VM has answered; success means the VM of record, created from this stemcell, its stemcell current and its one disk in use. |
| `Stemcells.PromoteAsCurrent` | stemcell/cloud_stemcell.go:51-67 | Makes the record with this name and version current. |
| `Stemcells.Delete` | stemcell/cloud_stemcell.go:69-94 | Cloud first, record second, as for disks; no other stemcell is touched. |
| `Stemcells.FindCurrent` | stemcell/manager.go:31-45 | None or exactly the current stemcell. |
| `Stemcells.Upload` | stemcell/manager.go:50-83 | A recorded stemcell is returned as it is, alive or not; otherwise what was uploaded under this name and version is returned, and one record is appended; a failure changes no record, and leaks what was created only when the state file failed. |
| `Stemcells.FindUnused` | stemcell/manager.go:85-106 | Exactly the stemcells whose record is not the current one. |
| `Stemcells.DeleteUnused` | stemcell/manager.go:108-130 | Keeps the current record whatever fails; success leaves no other. |
| `DiskRepo.Save` | config/disk_repo.go:31-60 | Appends a record under a new ID unless the CID is recorded or the state file fails; keeps the current disk, and the safety of the world if the disk was created as recorded. |
| `DiskRepo.FindCurrent` | config/disk_repo.go:62-80 | The record that the current ID names. |
| `DiskRepo.UpdateCurrent` | config/disk_repo.go:82-105 | Succeeds only for an existing record, then unless the state file fails, and changes only the current ID; safe when no job runs and the disk is alive and already holds the latest data, or there was no current disk. |
| `DiskRepo.Find` | config/disk_repo.go:107-115 | The first record with this CID. |
| `DiskRepo.Delete` | config/disk_repo.go:126-151 | Removes the record, and the current ID if it named it; safe for a disk that is gone. |
| `DiskRepo.ClearCurrent` | config/disk_repo.go:153-166 | Changes only the current ID; safe when no job runs. |
| `StemcellRepo.Save` | config/stemcell_repo.go:31-66 | Appends a record under a new ID unless name and version are recorded or the state file fails; safe for a CID that was uploaded as that. |
| `StemcellRepo.Find` | config/stemcell_repo.go:68-80 | The first record with this name and version. |
| `StemcellRepo.FindCurrent` | config/stemcell_repo.go:82-100 | The record that the current ID names. |
| `StemcellRepo.Delete` | config/stemcell_repo.go:111-136 | Removes the record, and the current ID if it named it; safe for a stemcell that is gone. |
| `StemcellRepo.UpdateCurrent` | config/stemcell_repo.go:138-154 | Succeeds only for an existing record and changes only the current ID. |
| `StemcellRepo.ClearCurrent` | config/stemcell_repo.go:156-162 | Changes only the current ID. |
| `VMRepo.FindCurrent` | config/vm_repo.go:23-35 | The VM of record, if there is one. |
| `VMRepo.UpdateCurrent` | config/vm_repo.go:37-50 | Replaces the CID; safe when the VM recorded before is gone. |
| `VMRepo.ClearCurrent` | config/vm_repo.go:52-65 | Forgets the CID; safe when its VM is gone. |
| `RecordRepos.UpdateCurrentSHA1` | config/deployment_repo.go:36-49 | Replaces the manifest's SHA1; safe as long as the deployment record stays honest. |
| `RecordRepos.UpdateReleases` | config/release_repo.go:27-56 | The records list the releases in their order, each with an ID of its own, and the current IDs are those; or nothing has changed. |
| `DeploymentStates.AddDiskKeeps` | config/disk_repo.go:31-60 | Adding keeps record integrity and the current disk, and the new record is the one that is found. |
| `DeploymentStates.RemoveDiskKeeps` | config/disk_repo.go:126-151 | Removing keeps record integrity, and the current disk unless it is the one removed. |
| `DeploymentStates.AddStemcellKeeps` | config/stemcell_repo.go:31-66 | Adding keeps record integrity and the current stemcell, and the new record is the one that is found. |
| `DeploymentStates.RemoveStemcellKeeps` | config/stemcell_repo.go:111-136 | Removing keeps record integrity, and the current stemcell unless it is the one removed. |
| `Records.IsDeployed` | deployment/record.go:38-97 | Answers as `Deployed` says of the state; it is an error exactly if the state file fails, or if the SHA1 cannot be calculated and there is one to compare it with. |
| `Records.Clear` | deployment/record.go:99-111 | From its first write on, no attempt counts as finished and no manifest is recorded; before that nothing has changed; success leaves no release either. |
| `Records.Update` | deployment/record.go:113-130 | The attempt counts as finished with its last write, and not before; then the SHA1 and the releases in their order are recorded. |
| `Records.DeployedIffLatestAttemptFinished` | deployment/record.go:38-97 | In every safe world: deployed if and only if the latest attempt that began clearing has finished with this SHA1 and this set of releases, and the current stemcell is the one asked for. |
| `Records.DistinctReleasesCompareAsSets` | deployment/record.go:75-94 | For distinct releases the one-way search with the comparison of lengths is equality of sets. |
| `Records.ReleaseCheckIsExact` | deployment/record.go:75-94 | It compares the sets for every record if and only if no release is given twice. |
| `Records.RepeatedReleaseIsNotNoticed` | deployment/record.go:75-94 | An example: different releases that are taken for the same. |
| `Legacy.Migrate` | config/legacy_deployment_state_migrator.go:97-152 | Keeps the VM, the disk and the stemcell of the first instance, keeps record integrity, makes the disk current and leaves stemcell and deployment record empty. |
| `Legacy.MigratedWorldIsSafe` | config/legacy_deployment_state_migrator.go:97-152 | A cloud that holds what the migrated state names is a safe world to start from. |
| `Environments.Environment.Save` | config/file_system_deployment_state_service.go:76-94 | All or nothing; what the new state names counts as recorded. |
| `Environments.Environment.CreateDisk` | cloud/cloud.go:167-195 | A new CID, a blank disk of this size and with these properties, not recorded yet; safe in every safe world. |
| `Environments.Environment.DeleteDisk` | cloud/cloud.go:252-265 | Safe only for a disk that nobody wants; any answer but a failure means that the disk is gone. |
| `Environments.Environment.CreateVM` | cloud/cloud.go:113-146 | Success needs a live stemcell, without which failing is no trouble, and the VM is created from it; safe only when no VM is of record. |
| `Environments.Environment.Tell` | deployment/vm/vm.go:98-125 | The agent carries out one order; a failed one may have been carried out or not. Safe for a start only on the VM of record with the disk of record at its store. |
| `Environments.Environment.DeleteVM` | cloud/cloud.go:237-250 | Safe only for a VM that is quiet or whose agent did not answer. |
| `Environments.Environment.AttachDisk` | cloud/cloud.go:197-215 | Success needs a live VM and a live disk. |
| `Environments.Environment.DetachDisk` | cloud/cloud.go:217-235 | Removes the attachment and nothing else. |
| `Environments.Environment.CreateStemcell` | cloud/cloud.go:58-77 | Any CID, also one that is there already; the upload is remembered with name and version. |
| `Environments.Environment.DeleteStemcell` | cloud/cloud.go:79-93 | Any answer but a failure means that the stemcell is gone. |
| `PackageSort.Sort` | release/pkg/sort.go:9-39 | For every order of iteration: the circular-dependency error if and only if the edges leaving the packages have a cycle (self-loops included, packages and dependencies repeated or not); otherwise exactly the packages and their direct dependencies, each once, every package after all of its dependencies. Because the worklist is first in, first out, the packages come in the order of their depth, the deepest first. |
| `PackageSort.GetEdgeMaps` | release/pkg/sort.go:50-67 | Each package is listed as a dependent as often as it lists the dependency; the outgoing edges are those of the graph. |
| `PackageSort.RemoveFromList` | release/pkg/sort.go:41-48 | Removes one occurrence; its callers show that there is one, so it does not panic. |
| `PackageSort.SpendEdges` | release/pkg/sort.go:26-31 | One round of the worklist keeps the balance of both maps and adds exactly the packages that have no dependents left. |
| `PackageSort.Verdict` | release/pkg/sort.go:33-38 | Edges are left over if and only if there is a cycle. |
| `Graphs.BackwardsForever` | release/pkg/sort.go:33-37 | A finite set in which everything has a predecessor has a cycle. |
| `Graphs.OrderedIsAcyclic` | release/pkg/sort.go:9-39 | An order with all successors first has no cycle. |
| `Graphs.DepthIsOne` | release/pkg/sort.go:9-39 | The depth by which the result is ordered is a function of the graph. |
| `Graphs.LongestPath` | release/pkg/sort.go:24-31 | The depth of a package is the length of a path to it from a package that nothing depends on. |
| `Graphs.PathsAreNoLonger` | release/pkg/sort.go:24-31 | No path to it is longer. |
| `DependencyResolution.ResolveDependencies` | state/pkg/resolve_dependencies.go:7-9 | Terminates on every graph, cyclic or not, and returns exactly what the argument reaches in one or more steps, without the argument, each once. Each package in it is a direct dependency or one of a package after it, and the last one is the first direct dependency other than the argument. |
| `DependencyResolution.ResolveInner` | state/pkg/resolve_dependencies.go:11-30 | What is returned is reached and not to be followed by others, and whatever it leads to is returned or not to be followed; never the argument itself; each after one that needs it, beginning with the first dependency that is new. |
| `DependencyResolution.RemoveWhileRanging` | state/pkg/resolve_dependencies.go:24-28 | Removing from the slice that is ranged over is in bounds and right, because the element occurs at most once; the others stay in their order. |
| `DependencyResolution.JoinUnique` | state/pkg/resolve_dependencies.go:41-50 | The union, with the first list in front. |
| `DependencyResolution.Reverse` | state/pkg/resolve_dependencies.go:52-59 | Position k holds what was k positions from the end. |
| `DependencyResolution.Contains` | state/pkg/resolve_dependencies.go:32-39 | Membership. |
| `CacheKeys.KeyTellsLabels` | state/pkg/compiled_package_repo.go:72-79 | With no comma, and no colon in names: equal dependency keys if and only if equal multisets of (name, fingerprint). |
| `CacheKeys.OrderDoesNotMatter` | state/pkg/compiled_package_repo.go:72-79 | The key does not depend on the order of the dependencies, whatever they are called. |
| `CacheKeys.SortedUnique` | state/pkg/compiled_package_repo.go:77 | A multiset of strings has one sorted sequence. |
| `CacheKeys.JoinInjective` | state/pkg/compiled_package_repo.go:78 | Joining with commas can be undone for texts without commas that are not empty. |
| `CacheKeys.TextInjective` | state/pkg/compiled_package_repo.go:75 | Name and fingerprint can be told from the text if the name has no colon. |
| `CacheKeys.ColonInName` | state/pkg/compiled_package_repo.go:75 | Why names must not have a colon: two different labels with one key. |
| `CacheKeys.CommaInFingerprint` | state/pkg/compiled_package_repo.go:78 | Why fingerprints must not have a comma: one dependency with the key of two. |
| `CompiledPackages.SameKeyIffSameContents` | state/pkg/compiled_package_repo.go:56-79 | Cache soundness across releases: same key if and only if same name, same fingerprint and same multiset of labels of everything reached. |
| `CompiledPackages.ReorderingKeepsKeys` | state/pkg/compiled_package_repo.go:64-70 | Reordering or repeating entries of any dependency list changes no key. |
| `CompiledPackages.PkgKey` | state/pkg/compiled_package_repo.go:64-70 | The key is a function of what the package reaches, although the walk starts from a copy that is not in the graph. |
| `CompiledPackages.CopyReaches` | state/pkg/compiled_package_repo.go:64-70 | A copy reaches exactly what the original reaches. |
| `CompiledPackages.ConvertToDependencyKey` | state/pkg/compiled_package_repo.go:72-79 | The key of these packages' labels. |
| `CompiledPackages.CompiledPackageRepo.Find` | state/pkg/compiled_package_repo.go:41-54 | Found is what the last successful save under an equal key saved; missing means that there was none. With plain labels, that is the last save for the same name, the same fingerprint and the same multiset of labels of everything reached. |
| `CompiledPackages.CompiledPackageRepo.Save` | state/pkg/compiled_package_repo.go:31-39 | Adds one save to the history, with the label and the dependencies it was for, or nothing. |
| `CompiledPackages.LastSavedByContents` | state/pkg/compiled_package_repo.go:41-54 | With plain labels, the last save under a key is the last save for the same contents. |
| `Indexes.FileIndex.Find` | index/file_index.go:25-48 | Reads the map that the list of entries stands for. |
| `Indexes.FileIndex.Save` | index/file_index.go:50-90 | Updating an entry in its place or appending one updates that map at that key. |
| `Indexes.InMemoryIndex.Find` | index/in_memory_index.go:19-36 | The same contract as the index in a file, and always readable. |
| `Indexes.InMemoryIndex.Save` | index/in_memory_index.go:38-52 | The same contract as the index in a file. |
| `DependencyCompilers.FindDependencies` | deployment/instance/state/remote_package_compiler.go:43-71 | Success gives every direct dependency in its position, with its name, its fingerprint and the record last saved for it, and on this machine has installed just those, in this order; what is reported missing was never saved; any other failure takes a request that fails. |
| `DependencyCompilers.CompileRemotely` | deployment/instance/state/remote_package_compiler.go:25-96 | For a source package, success has asked for two things: the upload of its archive, and one compilation of that upload against the direct dependencies, each in its position and as last saved; the record is the answer. A compiled package is uploaded as it is, and the record is the ID of that upload with its own SHA1. Exactly that record is saved under the key of the package. It fails only for a dependency that was not saved or because a request has failed. |
| `DependencyCompilers.CompileLocally` | installation/pkg/compiler.go:53-158 | A package in the cache is not compiled again, and nothing is asked for. Otherwise success has installed the direct dependencies, each as last saved, run the packaging script, compressed what it has installed and made that a blob, in this order; the record is the answer and is saved. |
| `DependencyCompilers.RunPackaging` | installation/pkg/compiler.go:73-131 | The tarball that becomes a blob is that of what was installed for this package. |
| `DependencyCompilers.CompilePackages` | state/job/dependency_compiler.go:101-132 | Success gives one reference per position, skipped or not, to what was saved under that package's key, and saves at most once per package (exactly once on the VM). If no request fails, it succeeds if and only if every package is ready at its turn, which can be said before: it is compiled already, or each of its dependencies is in the cache or shares its key with a package before it. A dependency that is lacking is none of the packages before. What was asked for in all falls into one part for each package that was saved, in their order, and each part made just that record; a package that was in the cache on this machine has asked for nothing. After a failure the same holds of the packages before. |
| `DependencyCompilers.EachSaveWasMade` | state/job/dependency_compiler.go:101-132 | Each new save is of the answer to the compilation or the upload of its package, against what had been saved by then. |
| `JobDependencies.ResolvePackageDependencies` | state/job/dependency_compiler.go:89-98 | Terminates on cyclic graphs, and adds exactly the direct dependencies: for each new name the first that has it. |
| `JobDependencies.CollectPackages` | state/job/dependency_compiler.go:58-65 | Exactly the names of the job packages and of their direct dependencies; of several packages with one name the last job package or, if there is none, the first dependency. |
| `JobDependencies.ResolveJobCompilationDependencies` | state/job/dependency_compiler.go:56-86 | An error if and only if the edges leaving the collected packages have a cycle; otherwise exactly the collected packages and their dependencies, the collected ones after their dependencies, and the deepest ones first. Where names identify packages, the collected ones are all job packages and all their direct dependencies. |
| `JobDependencies.Compile` | state/job/dependency_compiler.go:41-53 | An error of its own exactly for a circle among the edges of the collected packages. Otherwise, how compiling ends if no request fails: with success exactly if every package is ready at its turn; always with success if the packages that sorting adds depend on deeper ones only, with either compiler and whatever is in the cache. Source packages with an empty cache, compiled on the VM: with success exactly if all dependencies come first, and, whatever fails, never if a package that sorting adds depends on one that is less deep or not compiled at all. What was asked for is what made the records, as for a list of packages. |
| `JobDependencies.ReadyMeansOrdered` | deployment/instance/state/remote_package_compiler.go:43-71 | The converse: source packages whose names identify them, compiled on the VM with an empty cache, are all ready at their turn only in an order with all dependencies first. |
| `JobDependencies.OrderedMeansReady` | deployment/instance/state/remote_package_compiler.go:43-71 | In an order with all dependencies first every package is ready at its turn, with either compiler and whatever is in the cache. |
| `JobDependencies.CompileChain` | state/job/dependency_compiler.go:41-53 | A job that needs a chain of three packages is never compiled on the VM with an empty cache. |
| `JobDependencies.CompileShortCut` | state/job/dependency_compiler.go:41-53 | A job that needs b and q, where b needs p and p needs q, is never compiled on the VM with an empty cache either, although all four are compiled packages. |
| `JobDependencies.ChosenIsAll` | state/job/dependency_compiler.go:58-65 | Where names identify packages, choosing one package per name leaves nothing out. |
| `CompileOrders.CompleteIffClosed` | state/job/dependency_compiler.go:88-98 | The compiled packages are the promised transitive closure if and only if no dependency leads out of them. |
| `CompileOrders.ChainOfThreeSteps` | state/job/dependency_compiler.go:88-98 | The end of a chain of three steps is promised but not compiled. |
| `CompileOrders.ShortCut` | state/job/dependency_compiler.go:88-98 | A graph in which the promised closure is compiled, and still a package that sorting adds depends on one that is less deep. |
| `CompileOrders.CompileSetIsPromised` | state/job/dependency_compiler.go:56-86 | Nothing is compiled that was not promised. |
| `CompileOrders.SortPromisesOrderIffDeeper` | state/job/dependency_compiler.go:67-85 | What the contract of sorting is worth: all orders that it allows have every dependency first if and only if the packages that sorting adds depend on deeper ones only. |
| `CompileOrders.DeeperOnlyIsSound` | state/job/dependency_compiler.go:67-85 | If they do, every order that sorting may yield has all dependencies first. |
| `CompileOrders.MisplacedIsUnsound` | state/job/dependency_compiler.go:67-85 | If one of them depends on a package that is less deep or not compiled, no order that sorting may yield has. |
| `CompileOrders.OrderedMeansClosed` | state/job/dependency_compiler.go:88-98 | An order with all dependencies first exists only if no dependency leads out of the compiled packages. |
| `CompileOrders.LeavesOnlyIsComplete` | state/job/dependency_compiler.go:88-98 | If the packages that sorting adds have no dependencies, the promised closure is compiled. |
| `Readers.NewPackagesFromManifestPackages` | release/reader.go:146-206 | Fails if and only if both kinds of packages are given or an extraction fails; after success names identify packages, every object holds what the last entry with its name says, its dependencies are the objects with the listed names in their order (forward references included), names that only occur as dependencies lead nowhere, and the packages of the entries are returned in their order. For each entry, in their order, its archive is to be extracted, also after a failure. |
| `Readers.PackageRepo.FindOrCreatePackage` | release/pkg/package_repo.go:7-23 | One object per name; a known name gives the known object, a new one a blank object. |
| `Readers.LinkDependencies` | release/reader.go:193-196 | The package leads to exactly the objects with these names; all other objects stay as they are. |
| `Readers.ReadEntry` | release/reader.go:167-199 | One entry fills one object and links it. |
| `SshTunnel.SSHRetryStrategy.IsRetryable` | deployment/sshtunnel/ssh_tunnel.go:173-191 | The three fields answer as if all failures had been kept: never again for want of a common algorithm; and, as long as the clock does not go backwards, exactly if the last failure is no reason to stop. |
| `SshTunnel.TryAgainUnlessStops` | deployment/sshtunnel/ssh_tunnel.go:173-191 | The reasons to stop, without any clock of the strategy: no common algorithm; or about authentication, and no earlier than that timeout after the first failure and after every one that was about neither; or about neither, and no earlier than its timeout after the first one. |
| `SshTunnel.Dial` | deployment/sshtunnel/ssh_tunnel.go:88-104 | The loop without a counter terminates, for any texts and times of failures: connected, and none of the failures so far was a reason to stop; or given up at the first one that was; after no more attempts than fit into both timeouts. |
| `SshTunnel.MentionsMeans` | deployment/sshtunnel/ssh_tunnel.go:181-187 | A text mentions words if they stand somewhere in it. |
| `SshTunnel.AuthStartIsEarly` | deployment/sshtunnel/ssh_tunnel.go:185-190 | However the kinds of failures alternate, the time for authentication starts within the time for connections. |
| `SshTunnel.RetriedBeforeDeadline` | deployment/sshtunnel/ssh_tunnel.go:173-191 | Every failure that is retried comes before the first one plus both timeouts. |
| `SshTunnel.RetriesAreBounded` | deployment/sshtunnel/ssh_tunnel.go:88-104 | There are no more retries than delays fit before that deadline, rounded up. |
| `SshTunnel.DeadlineIsReached` | deployment/sshtunnel/ssh_tunnel.go:173-191 | The deadline cannot be earlier: both timeouts can be used up. |
| `Subnets.LastAddressIsGreatest` | common/net/ip_helper.go:7-25 | The result is the greatest address of the network if and only if the network is not one of IPv4-mapped addresses in 16 bytes, or is a single address. |
| `Subnets.LastOfIsGreatest` | common/net/ip_helper.go:19-24 | Setting the host bits gives the greatest address, for every mask. |
| `Subnets.ValidateGateway` | deployment/manifest/validator.go:340-368 | No error if and only if a gateway is given and, where there is a range, it is an address inside it that is neither the network address nor what `LastAddress` returns; an address is never both outside and the network address. Each error is reported exactly for its fault. |
| `Subnets.AcceptedIsBetween` | deployment/manifest/validator.go:340-368 | An accepted gateway lies strictly between the network address and the greatest address, networks of mapped addresses aside. |
| `Subnets.MappedLastIsAccepted` | deployment/manifest/validator.go:351-361 | In a network of mapped addresses the greatest address is accepted. |
| `Subnets.RoomForGateway` | deployment/manifest/validator.go:340-368 | Some gateway is acceptable if and only if there are two host bits, or one in a network of mapped addresses. |

## Left out

- Runs.Run: what is said about finished attempts is about what the commands do; a VM that the cloud loses by itself, or jobs that stop by themselves, are not modelled.
- CompileOrders.SortPromisesOrderIffDeeper: is about the contract of sorting, which leaves open which of two packages of equal depth comes first; in the source that follows from the order of the dependency lists and of the iteration over maps. Where a package that sorting adds depends on one of its own depth, the contract allows both orders.
- Commands.DeployCommand: validation, downloads and the installation of the CPI come before what is modelled; any of them failing is a command that does nothing.
- Stemcells.DeleteUnused: that the current stemcell stays alive in the cloud is not claimed, because records may share a CID; the claim is about its record.
- Instances.UpdateJobs: what job states and scripts contain is not modelled, and rendering them is a call that succeeds or fails; waiting for the jobs is one report, however often the agent is asked; the registry brackets and the SSH tunnel around the wait for the agent are not modelled.
- Instances.CreateVM: agent IDs, networks and metadata are not modelled.
- Legacy.Migrate: parsing and writing files, the director ID and the installation ID are not part of this model.
- Environments.Environment.Save: JSON, and the loss of types in a round trip through it; disk properties are maps with equality.
- VMs.AttachDisk: agents are addressed by VM in the model and by one URL in the source, which is the same as long as one VM is alive.
- PackageSort.SpendEdges: the inner loops of `Sort` are methods of their own (`SpendEdges`, `Verdict`, `NoDependents`, `AnyWithEdges`).
- DependencyCompilers.CompilePackages: references carry the record instead of its two fields; stage output is left out.
- DependencyCompilers.CompileLocally: what the packaging script does to the files, and the removal of installed files and of the tarball afterwards.
- CompiledPackages.CompiledPackageRepo.Find: the cache is modelled over the index in a file; the index in memory has the same contracts.
- Indexes.FileIndex.Save: an index file whose write fails keeps its contents.
- Readers.NewPackagesFromManifestPackages: creating the directories that archives are extracted to, and what is in them; jobs are read elsewhere.
- SshTunnel.Dial: keys, listening and copying after the connection is made.
- Subnets.ValidateGateway: texts of errors, and parsing of addresses and ranges, which Go does; the other checks of the manifest are field by field.
- Classes without state of their own (managers, factories, repositories over the state file) are modules of methods, because all of their state is in the environment. A deployment, an index, a package repository and a retry strategy are classes, as in the source.
- Stage output, logging, timing, HTTP, blobstores, the CPI process, templates and the commands for help and version.

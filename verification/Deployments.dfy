/** deployment/deployment.go: a deployment that is taken down piece by piece, and that a
    failed deletion leaves in a state from which the next one goes on. */
module Deployments {
  import opened Wrappers
  import opened DeploymentStates
  import opened Environments
  import opened Disks
  import Instances
  import VMs
  import Stemcells

  datatype Kind = InstancePiece | DiskPiece | StemcellPiece

  function Rank(k: Kind): nat {
    match k case InstancePiece => 0 case DiskPiece => 1 case StemcellPiece => 2
  }

  /** One attempt to delete the piece at this position of its initial list. */
  datatype Try = Try(kind: Kind, index: nat, ok: bool)

  /** What deletions may do to the world: records only go away, the current IDs are only
      cleared, nothing is created, and what running jobs need is left alone. */
  ghost predicate Dismantled(a: World, b: World) {
    && b == a.(state := b.state, disks := b.disks, vms := b.vms, stemcells := b.stemcells,
               unrecorded := b.unrecorded, leaked := b.leaked,
               silent := b.silent, torn := b.torn)
    && b.state == a.state.(currentVMCID := b.state.currentVMCID, currentStemcellID := b.state.currentStemcellID,
                           currentDiskID := b.state.currentDiskID, disks := b.state.disks,
                           stemcells := b.state.stemcells)
    && b.disks.Keys <= a.disks.Keys && b.vms.Keys <= a.vms.Keys && b.stemcells <= a.stemcells
    && a.leaked == b.leaked
    && KeptWhileRunning(a, b)
    && b.state.currentVMCID in {a.state.currentVMCID, ""}
    && (CurrentDisk(b.state).Some? ==> CurrentDisk(b.state) == CurrentDisk(a.state))
    && (CurrentStemcell(b.state).Some? ==> CurrentStemcell(b.state) == CurrentStemcell(a.state))
    && (forall r | r in b.state.disks :: r in a.state.disks)
    && (forall r | r in b.state.stemcells :: r in a.state.stemcells)
  }

  lemma DismantledOnce(w: World)
    ensures Dismantled(w, w)
  {}

  lemma DismantledTwice(a: World, b: World, c: World)
    requires Dismantled(a, b) && Dismantled(b, c)
    ensures Dismantled(a, c)
  {}

  lemma VMDismantled(a: World, b: World)
    requires VMsOnly(a, b)
    ensures Dismantled(a, b)
  {}

  ghost predicate VMsOnly(a: World, b: World) {
    && VMs.OnlyVMsChanged(a, b) && a.leaked == b.leaked && KeptWhileRunning(a, b)
    && b.vms.Keys <= a.vms.Keys
    && b.state.currentVMCID in {a.state.currentVMCID, ""}
    && b.state.currentStemcellID in {a.state.currentStemcellID, ""}
  }

  /** The disk is neither alive nor recorded, so that it cannot be the current one. */
  ghost predicate DiskGone(w: World, d: CloudDisk) {
    && d.cid !in w.disks && (forall r | r in w.state.disks :: r.cid != d.cid)
    && !IsCurrentDisk(w.state, d.cid)
  }

  ghost predicate StemcellGone(w: World, s: Stemcells.CloudStemcell) {
    && s.cid !in w.stemcells && (forall r | r in w.state.stemcells :: r.name != s.name || r.version != s.version)
    && !Stemcells.IsCurrentStemcell(w.state, s)
  }

  ghost predicate VMGone(w: World, v: string) {
    v !in w.vms && w.state.currentVMCID == ""
  }

  lemma DiskDismantled(a: World, b: World, d: CloudDisk)
    requires Integrity(a.state) && DisksShrunk(a, b) && !JobsRun(a)
    requires b.state == a.state || b.state == WithoutDisk(a.state, d.cid)
    ensures Dismantled(a, b)
    ensures b.state == WithoutDisk(a.state, d.cid) && d.cid !in b.disks ==> DiskGone(b, d)
  {
    if FindDiskByCID(a.state.disks, d.cid).Some? {
      var found := FindDiskByCID(a.state.disks, d.cid).value;
      FoundDisk(a.state.disks, found);
      RemoveDiskKeeps(a.state, found.id);
      forall r | r in a.state.disks && r.cid == d.cid ensures r == found {
        FoundDisk(a.state.disks, r);
      }
    }
  }

  lemma StillUpToDate(a: DeploymentState, b: DeploymentState, d: Stemcells.CloudStemcell)
    requires b.stemcells == a.stemcells || b == Stemcells.WithoutStemcell(a, d.name, d.version)
    ensures forall s :: Stemcells.UpToDate(a, s) ==> Stemcells.UpToDate(b, s)
  {}

  lemma SameUpToDate(a: DeploymentState, b: DeploymentState)
    requires b.stemcells == a.stemcells
    ensures forall s :: Stemcells.UpToDate(a, s) ==> Stemcells.UpToDate(b, s)
  {}

  lemma StemcellDismantled(a: World, b: World, d: Stemcells.CloudStemcell)
    requires Integrity(a.state) && Stemcells.StemcellsShrunk(a, b)
    requires b.state == a.state || b.state == Stemcells.WithoutStemcell(a.state, d.name, d.version)
    ensures Dismantled(a, b)
    ensures b.state == Stemcells.WithoutStemcell(a.state, d.name, d.version) && d.cid !in b.stemcells ==> StemcellGone(b, d)
  {
    if FindStemcellByName(a.state.stemcells, d.name, d.version).Some? {
      var found := FindStemcellByName(a.state.stemcells, d.name, d.version).value;
      FoundStemcell(a.state.stemcells, found);
      RemoveStemcellKeeps(a.state, found.id);
      forall r | r in a.state.stemcells && r.name == d.name && r.version == d.version ensures r == found {
        FoundStemcell(a.state.stemcells, r);
      }
    }
  }

  datatype Counts = Counts(instances: nat, disks: nat, stemcells: nat) {
    function Of(k: Kind): nat {
      match k case InstancePiece => instances case DiskPiece => disks case StemcellPiece => stemcells
    }

    function Less(k: Kind): Counts
      requires Of(k) > 0
    {
      match k
      case InstancePiece => this.(instances := instances - 1)
      case DiskPiece => this.(disks := disks - 1)
      case StemcellPiece => this.(stemcells := stemcells - 1)
    }
  }

  /** The attempts account for what is left of the three lists: the pieces that are gone
      are exactly those that were deleted successfully, each of them once, and when a
      piece of one kind was attempted nothing was left of the kinds before it. */
  ghost predicate Accounted(tries: seq<Try>, left: Counts, total: Counts) {
    && (forall k: Kind :: left.Of(k) <= total.Of(k))
    && GoneIsDeleted(tries, left, total)
    && NoneTwice(tries)
    && InOrder(tries)
    && StageByStage(tries, left)
  }

  ghost predicate GoneIsDeleted(tries: seq<Try>, left: Counts, total: Counts) {
    && (forall t | t in tries :: t.index < total.Of(t.kind) && (t.ok ==> left.Of(t.kind) <= t.index))
    && (forall k: Kind, i: nat | left.Of(k) <= i < total.Of(k) :: Try(k, i, true) in tries)
  }

  ghost predicate NoneTwice(tries: seq<Try>) {
    forall i, j | 0 <= i < j < |tries| && tries[i].ok && tries[j].ok :: tries[i] != tries[j]
  }

  ghost predicate InOrder(tries: seq<Try>) {
    forall i, j | 0 <= i < j < |tries| :: Rank(tries[i].kind) <= Rank(tries[j].kind)
  }

  ghost predicate StageByStage(tries: seq<Try>, left: Counts) {
    forall t, k: Kind | t in tries && Rank(k) < Rank(t.kind) :: left.Of(k) == 0
  }

  lemma GoneIsDeletedStill(tries: seq<Try>, left: Counts, total: Counts, k: Kind, ok: bool)
    requires GoneIsDeleted(tries, left, total) && 0 < left.Of(k) <= total.Of(k)
    ensures GoneIsDeleted(tries + [Try(k, left.Of(k) - 1, ok)], if ok then left.Less(k) else left, total)
  {
    var next := tries + [Try(k, left.Of(k) - 1, ok)];
    var left' := if ok then left.Less(k) else left;
    assert forall b: Kind :: left'.Of(b) == if b == k && ok then left.Of(b) - 1 else left.Of(b);
    forall b: Kind, i: nat | left'.Of(b) <= i < total.Of(b) ensures Try(b, i, true) in next {
      if i == left'.Of(k) && b == k && ok {
        assert next[|tries|] == Try(b, i, true);
      } else {
        assert Try(b, i, true) in tries;
      }
    }
  }

  lemma NoneTwiceStill(tries: seq<Try>, last: Try)
    requires NoneTwice(tries) && (last.ok ==> last !in tries)
    ensures NoneTwice(tries + [last])
  {
    assert forall i | 0 <= i < |tries| :: tries[i] in tries;
  }

  lemma InOrderStill(tries: seq<Try>, last: Try)
    requires InOrder(tries) && forall t | t in tries :: Rank(t.kind) <= Rank(last.kind)
    ensures InOrder(tries + [last])
  {
    assert forall i | 0 <= i < |tries| :: tries[i] in tries;
  }

  /** One more attempt, of the last piece of a kind, when nothing of the kinds before it is left. */
  lemma TriedOnceMore(tries: seq<Try>, left: Counts, total: Counts, k: Kind, ok: bool)
    requires Accounted(tries, left, total) && left.Of(k) > 0
    requires forall b: Kind | Rank(b) < Rank(k) :: left.Of(b) == 0
    ensures Accounted(tries + [Try(k, left.Of(k) - 1, ok)], if ok then left.Less(k) else left, total)
  {
    var last := Try(k, left.Of(k) - 1, ok);
    var next := tries + [last];
    GoneIsDeletedStill(tries, left, total, k, ok);
    assert forall t | t in tries :: Rank(t.kind) <= Rank(k);
    NoneTwiceStill(tries, last);
    InOrderStill(tries, last);
    hide GoneIsDeleted, NoneTwice, InOrder;
  }

  class Deployment {
    var instances: seq<string>
    var disks: seq<CloudDisk>
    var stemcells: seq<Stemcells.CloudStemcell>

    /** The initial lists, and every deletion attempted so far. */
    ghost const allInstances: seq<string>
    ghost const allDisks: seq<CloudDisk>
    ghost const allStemcells: seq<Stemcells.CloudStemcell>
    ghost var tries: seq<Try>

    ghost function Left(): Counts
      reads this
    {
      Counts(|instances|, |disks|, |stemcells|)
    }

    ghost function Total(): Counts {
      Counts(|allInstances|, |allDisks|, |allStemcells|)
    }

    /** What is left is a prefix of each initial list, and the attempts account for the rest. */
    ghost predicate Valid()
      reads this
    {
      && instances <= allInstances && disks <= allDisks && stemcells <= allStemcells
      && Accounted(tries, Left(), Total())
    }

    /** The pieces are those of this world, as far as they are still there. */
    ghost predicate Of(w: World)
      reads this
    {
      && (forall v | v in instances :: w.state.currentVMCID in {v, ""})
      && (instances == [] ==> w.state.currentVMCID == "")
      && (forall d | d in disks :: d.cid in w.usedDisks)
      && (forall s | s in stemcells :: Stemcells.UpToDate(w.state, s))
    }

    constructor (instances: seq<string>, disks: seq<CloudDisk>, stemcells: seq<Stemcells.CloudStemcell>)
      ensures Valid() && tries == []
      ensures this.instances == allInstances == instances
      ensures this.disks == allDisks == disks
      ensures this.stemcells == allStemcells == stemcells
    {
      this.instances, this.disks, this.stemcells := instances, disks, stemcells;
      allInstances, allDisks, allStemcells := instances, disks, stemcells;
      tries := [];
    }

    /** Consumes the three lists from their ends, instances before disks before stemcells,
        and stops at the first failure with the failed piece still in its list. */
    method Delete(env: Environment) returns (ok: bool)
      requires env.AtRest() && Valid() && Of(env.w)
      modifies this, env`w, env`safeSoFar, env`trouble, env`condemned
      ensures env.AtRest() && Valid() && Of(env.w)
      ensures old(tries) <= tries
      ensures ok ==> instances == [] && disks == [] && stemcells == []
      ensures !ok ==> tries != [] && !tries[|tries| - 1].ok
      ensures Dismantled(old(env.w), env.w)
      ensures forall v | v in old(instances) && v !in instances :: VMGone(env.w, v)
      ensures forall d | d in old(disks) && d !in disks :: DiskGone(env.w, d)
      ensures forall s | s in old(stemcells) && s !in stemcells :: StemcellGone(env.w, s)
      ensures old(env.trouble).Before(env.trouble)
      ensures env.trouble == old(env.trouble) ==> ok
    {
      hide *;
      DismantledOnce(env.w);
      TroubleNow(env.trouble);
      while |instances| > 0
        invariant env.AtRest() && Valid() && Of(env.w)
        invariant old(tries) <= tries
        invariant instances <= old(instances)
        invariant forall v | v in old(instances) && v !in instances :: VMGone(env.w, v)
        invariant disks == old(disks) && stemcells == old(stemcells)
        invariant Dismantled(old(env.w), env.w)
        invariant old(env.trouble).Before(env.trouble)
        decreases |instances|
      {
        ghost var a, t := env.w, env.trouble;
        ok := DeleteLastInstance(env);
        DismantledTwice(old(env.w), a, env.w);
        TroubleTwice(old(env.trouble), t, env.trouble);
        StillGone(a, env.w);
        if !ok { return; }
      }
      while |disks| > 0
        invariant env.AtRest() && Valid() && Of(env.w)
        invariant old(tries) <= tries
        invariant forall v | v in old(instances) && v !in instances :: VMGone(env.w, v)
        invariant instances == [] && disks <= old(disks) && stemcells == old(stemcells)
        invariant Dismantled(old(env.w), env.w)
        invariant old(env.trouble).Before(env.trouble)
        invariant forall d | d in old(disks) && d !in disks :: DiskGone(env.w, d)
        decreases |disks|
      {
        ghost var a, t := env.w, env.trouble;
        ok := DeleteLastDisk(env);
        DismantledTwice(old(env.w), a, env.w);
        TroubleTwice(old(env.trouble), t, env.trouble);
        StillGone(a, env.w);
        if !ok { return; }
      }
      while |stemcells| > 0
        invariant env.AtRest() && Valid() && Of(env.w)
        invariant old(tries) <= tries
        invariant forall v | v in old(instances) && v !in instances :: VMGone(env.w, v)
        invariant instances == [] && disks == [] && stemcells <= old(stemcells)
        invariant Dismantled(old(env.w), env.w)
        invariant old(env.trouble).Before(env.trouble)
        invariant forall d | d in old(disks) && d !in disks :: DiskGone(env.w, d)
        invariant forall s | s in old(stemcells) && s !in stemcells :: StemcellGone(env.w, s)
        decreases |stemcells|
      {
        ghost var a, t := env.w, env.trouble;
        ok := DeleteLastStemcell(env);
        DismantledTwice(old(env.w), a, env.w);
        TroubleTwice(old(env.trouble), t, env.trouble);
        StillGone(a, env.w);
        if !ok { return; }
      }
      ok := true;
    }

    method DeleteLastInstance(env: Environment) returns (ok: bool)
      requires env.AtRest() && Valid() && Of(env.w) && |instances| > 0
      modifies this`instances, this`tries, env`w, env`safeSoFar, env`trouble
      ensures env.AtRest() && Valid() && Of(env.w)
      ensures instances == if ok then old(instances)[..|old(instances)| - 1] else old(instances)
      ensures tries == old(tries) + [Try(InstancePiece, |old(instances)| - 1, ok)]
      ensures ok ==> VMGone(env.w, old(instances)[|old(instances)| - 1])
      ensures Dismantled(old(env.w), env.w)
      ensures old(env.trouble).Before(env.trouble)
      ensures env.trouble == old(env.trouble) ==> ok
    {
      hide Safe, Accounted, Dismantled;
      var last := |instances| - 1;
      assert instances[last] in instances;
      ok := Instances.Delete(env, instances[last]);
      VMDismantled(old(env.w), env.w);
      TriedOnceMore(tries, Left(), Total(), InstancePiece, ok);
      tries := tries + [Try(InstancePiece, last, ok)];
      if ok {
        instances := instances[..last];
      }
    }

    /** The user wants this disk gone: from here on its loss is no loss. */
    method DeleteLastDisk(env: Environment) returns (ok: bool)
      requires env.AtRest() && Valid() && Of(env.w) && instances == [] && |disks| > 0
      modifies this`disks, this`tries, env`w, env`safeSoFar, env`trouble, env`condemned
      ensures env.AtRest() && Valid() && Of(env.w)
      ensures disks == if ok then old(disks)[..|old(disks)| - 1] else old(disks)
      ensures tries == old(tries) + [Try(DiskPiece, |old(disks)| - 1, ok)]
      ensures Dismantled(old(env.w), env.w)
      ensures ok ==> DiskGone(env.w, old(disks)[|old(disks)| - 1])
      ensures old(env.trouble).Before(env.trouble)
      ensures env.trouble == old(env.trouble) ==> ok
    {
      hide Safe, Accounted, Dismantled, WithoutDisk, FindDiskByCID, CurrentDisk, IsCurrentDisk;
      hide Stemcells.UpToDate, Settled, JobsRun, Integrity;
      var last := |disks| - 1;
      var disk := disks[last];
      env.Condemn(disk.cid);
      Instances.NoRecordNoJobs(env.w, env.condemned);
      SafeRecords(env.w, env.condemned);
      var outcome := Disks.Delete(env, disk);
      SameUpToDate(old(env.w.state), env.w.state);
      DiskDismantled(old(env.w), env.w, disk);
      ok := outcome != Failed;
      TriedOnceMore(tries, Left(), Total(), DiskPiece, ok);
      tries := tries + [Try(DiskPiece, last, ok)];
      if ok {
        disks := disks[..last];
      }
    }

    method DeleteLastStemcell(env: Environment) returns (ok: bool)
      requires env.AtRest() && Valid() && Of(env.w) && instances == [] && disks == [] && |stemcells| > 0
      modifies this`stemcells, this`tries, env`w, env`safeSoFar, env`trouble
      ensures env.AtRest() && Valid() && Of(env.w)
      ensures stemcells == if ok then old(stemcells)[..|old(stemcells)| - 1] else old(stemcells)
      ensures tries == old(tries) + [Try(StemcellPiece, |old(stemcells)| - 1, ok)]
      ensures Dismantled(old(env.w), env.w)
      ensures ok ==> StemcellGone(env.w, old(stemcells)[|old(stemcells)| - 1])
      ensures old(env.trouble).Before(env.trouble)
      ensures env.trouble == old(env.trouble) ==> ok
    {
      hide Safe, Accounted, Dismantled, Stemcells.WithoutStemcell, Stemcells.UpToDate, Stemcells.StemcellsShrunk, StemcellGone;
      hide Stemcells.IsCurrentStemcell, CurrentStemcell;
      var last := |stemcells| - 1;
      var stemcell := stemcells[last];
      SafeRecords(env.w, env.condemned);
      var outcome := Stemcells.Delete(env, stemcell);
      StillUpToDate(old(env.w.state), env.w.state, stemcell);
      StemcellDismantled(old(env.w), env.w, stemcell);
      ok := outcome != Failed;
      TriedOnceMore(tries, Left(), Total(), StemcellPiece, ok);
      tries := tries + [Try(StemcellPiece, last, ok)];
      if ok {
        stemcells := stemcells[..last];
      }
    }
  }

  lemma StillGone(a: World, b: World)
    requires Dismantled(a, b)
    ensures forall v :: VMGone(a, v) ==> VMGone(b, v)
    ensures forall d :: DiskGone(a, d) ==> DiskGone(b, d)
    ensures forall s :: StemcellGone(a, s) ==> StemcellGone(b, s)
  {}
}

/** config/vm_repo.go: the CID of the one current VM in the state file. */
module VMRepo {
  import opened Wrappers
  import opened Environments

  method FindCurrent(env: Environment) returns (ok: bool, r: Option<string>)
    modifies env`trouble
    ensures ok ==> r == if env.w.state.currentVMCID == "" then None else Some(env.w.state.currentVMCID)
    ensures StateTrouble(old(env.trouble), env.trouble, ok)
  {
    var s;
    ok, s := env.Load();
    r := if ok && s.currentVMCID != "" then Some(s.currentVMCID) else None;
  }

  /** A VM that is still alive must not be lost track of. */
  lemma ReplacedSafe(w: World, cid: string, condemned: set<string>)
    requires Safe(w, condemned) && w.state.currentVMCID !in w.vms
    ensures Safe(Saved(w, w.state.(currentVMCID := cid), Quiet), condemned)
  {}

  /** Replaces the CID. This is safe when the VM that had been recorded is gone. */
  method UpdateCurrent(env: Environment, cid: string) returns (ok: bool)
    modifies env`w, env`safeSoFar, env`trouble
    ensures env.w == if ok then Saved(old(env.w), old(env.w.state).(currentVMCID := cid), Quiet)
                     else old(env.w)
    ensures StateTrouble(old(env.trouble), env.trouble, ok)
    ensures old(env.Sound()) && old(env.w.state.currentVMCID !in env.w.vms) ==> env.Sound()
  {
    hide Safe;
    ok := false;
    var loaded, s := env.Load();
    if !loaded { return; }
    if env.Sound() && s.currentVMCID !in env.w.vms {
      ReplacedSafe(env.w, cid, env.condemned);
    }
    ok := env.Save(s.(currentVMCID := cid), Quiet);
  }

  method ClearCurrent(env: Environment) returns (ok: bool)
    modifies env`w, env`safeSoFar, env`trouble
    ensures env.w == if ok then Saved(old(env.w), old(env.w.state).(currentVMCID := ""), Quiet)
                     else old(env.w)
    ensures StateTrouble(old(env.trouble), env.trouble, ok)
    ensures old(env.Sound()) && old(env.w.state.currentVMCID !in env.w.vms) ==> env.Sound()
  {
    hide Safe;
    ok := false;
    var loaded, s := env.Load();
    if !loaded { return; }
    if env.Sound() && s.currentVMCID !in env.w.vms {
      ReplacedSafe(env.w, "", env.condemned);
    }
    ok := env.Save(s.(currentVMCID := ""), Quiet);
  }
}

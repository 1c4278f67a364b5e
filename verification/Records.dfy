/** config/deployment_repo.go and config/release_repo.go: the two fields that say what is deployed. */
module RecordRepos {
  import opened Wrappers
  import opened Collections
  import opened DeploymentStates
  import opened Environments

  method FindCurrentSHA1(env: Environment) returns (ok: bool, r: Option<string>)
    modifies env`trouble
    ensures ok ==> r == if env.w.state.currentManifestSHA1 == "" then None else Some(env.w.state.currentManifestSHA1)
    ensures StateTrouble(old(env.trouble), env.trouble, ok)
  {
    var s;
    ok, s := env.Load();
    r := if ok && s.currentManifestSHA1 != "" then Some(s.currentManifestSHA1) else None;
  }

  lemma SHA1Saved(w: World, sha1: string, note: Note, condemned: set<string>)
    requires Safe(w, condemned) && RecordHonest(Saved(w, w.state.(currentManifestSHA1 := sha1), note))
    ensures Safe(Saved(w, w.state.(currentManifestSHA1 := sha1), note), condemned)
  {}

  /** Replaces the SHA1. This is safe as long as the record tells the truth. */
  method UpdateCurrentSHA1(env: Environment, sha1: string, note: Note) returns (ok: bool)
    modifies env`w, env`safeSoFar, env`trouble
    ensures env.w == if ok then Saved(old(env.w), old(env.w.state).(currentManifestSHA1 := sha1), note)
                     else old(env.w)
    ensures StateTrouble(old(env.trouble), env.trouble, ok)
    ensures old(env.Sound()) && RecordHonest(Saved(old(env.w), old(env.w.state).(currentManifestSHA1 := sha1), note))
      ==> env.Sound()
  {
    hide Safe, RecordHonest;
    ok := false;
    var loaded, s := env.Load();
    if !loaded { return; }
    if env.Sound() && RecordHonest(Saved(env.w, s.(currentManifestSHA1 := sha1), note)) {
      SHA1Saved(env.w, sha1, note, env.condemned);
    }
    ok := env.Save(s.(currentManifestSHA1 := sha1), note);
  }

  method ListReleases(env: Environment) returns (ok: bool, rs: seq<ReleaseRecord>)
    modifies env`trouble
    ensures ok ==> rs == env.w.state.releases
    ensures StateTrouble(old(env.trouble), env.trouble, ok)
  {
    var s;
    ok, s := env.Load();
    rs := s.releases;
  }

  /** The records list these releases, in this order. */
  predicate Lists(records: seq<ReleaseRecord>, releases: seq<Release>) {
    && |records| == |releases|
    && forall i | 0 <= i < |releases| :: releases[i] == Release(records[i].name, records[i].version)
  }

  /** What makes it true that these releases are recorded now. */
  ghost predicate MayRecord(w: World, releases: seq<Release>, note: Note) {
    || note == Updated(w.state.currentManifestSHA1, releases)
    || (note == Quiet && w.attempt == Unfinished && releases == [])
  }

  lemma ReleasesSaved(w: World, s: DeploymentState, releases: seq<Release>, note: Note, condemned: set<string>)
    requires Safe(w, condemned) && MayRecord(w, releases, note)
    requires s == w.state.(currentReleaseIDs := s.currentReleaseIDs, releases := s.releases)
    requires Lists(s.releases, releases)
    ensures Safe(Saved(w, s, note), condemned)
  {}

  /** These are the IDs of the records, each its own. */
  ghost predicate AreIDsOf(ids: seq<string>, records: seq<ReleaseRecord>) {
    && |ids| == |records| && Distinct(ids)
    && forall i | 0 <= i < |ids| :: ids[i] == records[i].id && ids[i] != ""
  }

  method UpdateReleases(env: Environment, releases: seq<Release>, note: Note) returns (ok: bool)
    modifies env`w, env`safeSoFar, env`trouble
    ensures ok ==>
      && Lists(env.w.state.releases, releases)
      && AreIDsOf(env.w.state.currentReleaseIDs, env.w.state.releases)
      && env.w == Saved(old(env.w), old(env.w.state).(currentReleaseIDs := env.w.state.currentReleaseIDs,
                                                      releases := env.w.state.releases), note)
    ensures !ok ==> env.w == old(env.w)
    ensures StateTrouble(old(env.trouble), env.trouble, ok)
    ensures old(env.Sound()) && MayRecord(old(env.w), releases, note) ==> env.Sound()
  {
    hide Safe, MayRecord;
    ok := false;
    var ids: seq<string>, records: seq<ReleaseRecord> := [], [];
    var loaded, s := env.Load();
    if !loaded { return; }
    for i := 0 to |releases|
      invariant Lists(records, releases[..i]) && AreIDsOf(ids, records)
      invariant env.trouble == old(env.trouble) && env.w == old(env.w) && env.safeSoFar == old(env.safeSoFar)
    {
      var id := env.GenerateUUID(ids);
      if id.None? { return; }
      records := records + [ReleaseRecord(id.value, releases[i].name, releases[i].version)];
      ids := ids + [id.value];
    }
    assert releases[..|releases|] == releases;
    if env.Sound() && MayRecord(env.w, releases, note) {
      ReleasesSaved(env.w, s.(currentReleaseIDs := ids, releases := records), releases, note, env.condemned);
    }
    ok := env.Save(s.(currentReleaseIDs := ids, releases := records), note);
  }
}

/** deployment/record.go: whether a manifest, a stemcell and a set of releases are what is deployed. */
module Records {
  import opened Collections
  import opened Wrappers
  import opened DeploymentStates
  import opened Environments
  import opened RecordRepos
  import StemcellRepo

  predicate Listed(records: seq<ReleaseRecord>, r: Release) {
    exists i :: 0 <= i < |records| && Release(records[i].name, records[i].version) == r
  }

  /** The check of the releases: the record is not empty, the lengths agree, and each
      release is in the record. Nothing looks for the records among the releases. */
  predicate SameReleases(records: seq<ReleaseRecord>, releases: seq<Release>) {
    && |records| != 0
    && |records| == |releases|
    && forall i | 0 <= i < |releases| :: Listed(records, releases[i])
  }

  predicate Deployed(s: DeploymentState, sha1: string, releases: seq<Release>, name: string, version: string) {
    && s.currentManifestSHA1 != "" && s.currentManifestSHA1 == sha1
    && CurrentStemcell(s).Some?
    && CurrentStemcell(s).value.name == name && CurrentStemcell(s).value.version == version
    && SameReleases(s.releases, releases)
  }

  /** None stands for an error. A SHA1 that cannot be calculated is only an error when
      there is a recorded one to compare it with. */
  method IsDeployed(env: Environment, sha1: Option<string>, releases: seq<Release>, name: string, version: string)
    returns (r: Option<bool>)
    modifies env`trouble
    ensures old(env.trouble).Before(env.trouble) && env.trouble.other == old(env.trouble).other
    ensures r.None? <==>
      old(env.trouble) != env.trouble || (sha1.None? && env.w.state.currentManifestSHA1 != "")
    ensures r.Some? && sha1.Some? ==> r.value == Deployed(env.w.state, sha1.value, releases, name, version)
    ensures r.Some? && sha1.None? ==> !r.value && env.w.state.currentManifestSHA1 == ""
  {
    var ok, recorded := FindCurrentSHA1(env);
    if !ok { return None; }
    if recorded.None? { return Some(false); }
    if sha1.None? { return None; }
    if recorded != sha1 { return Some(false); }
    var ok', stemcell := StemcellRepo.FindCurrent(env);
    if !ok' { return None; }
    if stemcell.None? { return Some(false); }
    if stemcell.value.name != name || stemcell.value.version != version { return Some(false); }
    var ok'', records := ListReleases(env);
    if !ok'' { return None; }
    if |records| == 0 { return Some(false); }
    if |releases| != |records| { return Some(false); }
    for i := 0 to |releases|
      invariant forall k | 0 <= k < i :: Listed(records, releases[k])
    {
      var found := false;
      for j := 0 to |records|
        invariant !found
        invariant forall k | 0 <= k < j :: Release(records[k].name, records[k].version) != releases[i]
      {
        if records[j].name == releases[i].name && records[j].version == releases[i].version {
          found := true;
          break;
        }
      }
      if !found { return Some(false); }
    }
    return Some(true);
  }

  method Clear(env: Environment) returns (ok: bool)
    requires env.AtRest()
    modifies env`w, env`safeSoFar, env`trouble
    ensures env.AtRest()
    ensures ok ==>
      && env.w.attempt == Unfinished
      && env.w.state.currentManifestSHA1 == "" && env.w.state.releases == [] && env.w.state.currentReleaseIDs == []
    ensures !ok ==> env.w == old(env.w) || (env.w.attempt == Unfinished && env.w.state.currentManifestSHA1 == "")
    ensures OnlyRecordChanged(old(env.w), env.w)
    ensures StateTrouble(old(env.trouble), env.trouble, ok)
  {
    hide Safe;
    ok := UpdateCurrentSHA1(env, "", Clearing);
    if ok {
      ok := UpdateReleases(env, [], Quiet);
    }
  }

  method Update(env: Environment, sha1: Option<string>, releases: seq<Release>) returns (ok: bool)
    requires env.AtRest()
    requires env.w.attempt == Unfinished && env.w.state.releases == []
    modifies env`w, env`safeSoFar, env`trouble
    ensures env.AtRest()
    ensures ok ==>
      && sha1.Some? && env.w.attempt == Finished(sha1.value, releases)
      && env.w.state.currentManifestSHA1 == sha1.value
      && Lists(env.w.state.releases, releases) && AreIDsOf(env.w.state.currentReleaseIDs, env.w.state.releases)
    ensures !ok ==> env.w.attempt == Unfinished && env.w.state.releases == []
    ensures OnlyRecordChanged(old(env.w), env.w)
    ensures sha1.Some? ==> StateTrouble(old(env.trouble), env.trouble, ok)
    ensures sha1.None? ==> env.trouble == old(env.trouble)
  {
    hide Safe;
    if sha1.None? { return false; }
    ok := UpdateCurrentSHA1(env, sha1.value, Quiet);
    if ok {
      ok := UpdateReleases(env, releases, Updated(sha1.value, releases));
    }
  }

  /** Nothing but the deployment record, the history of attempts and what still waits to be
      recorded is different. */
  ghost predicate OnlyRecordChanged(a: World, b: World) {
    && b == a.(state := b.state, unrecorded := b.unrecorded, attempt := b.attempt)
    && b.state == a.state.(currentManifestSHA1 := b.state.currentManifestSHA1,
                           currentReleaseIDs := b.state.currentReleaseIDs, releases := b.state.releases)
  }

  // ----- What IsDeployed tells -----

  function Pairs(records: seq<ReleaseRecord>): (ps: seq<Release>)
    ensures |ps| == |records|
    ensures forall i | 0 <= i < |ps| :: ps[i] == Release(records[i].name, records[i].version)
  {
    seq(|records|, i requires 0 <= i < |records| => Release(records[i].name, records[i].version))
  }

  /** For distinct releases the one-way check with its comparison of lengths is equality
      of the two sets. */
  lemma DistinctReleasesCompareAsSets(records: seq<ReleaseRecord>, releases: seq<Release>)
    requires Distinct(releases)
    ensures SameReleases(records, releases) <==>
            releases != [] && |records| == |releases| && ToSet(Pairs(records)) == ToSet(releases)
  {
    var ps := Pairs(records);
    SetSize(releases);
    SetSize(ps);
    if SameReleases(records, releases) {
      forall r | r in ToSet(releases) ensures r in ToSet(ps) {
        var i :| 0 <= i < |releases| && releases[i] == r;
        var j :| 0 <= j < |records| && Release(records[j].name, records[j].version) == r;
        assert ps[j] == r;
      }
      SubsetSize(ToSet(releases), ToSet(ps));
    }
    if releases != [] && |records| == |releases| && ToSet(ps) == ToSet(releases) {
      forall i | 0 <= i < |releases| ensures Listed(records, releases[i]) {
        assert releases[i] in ToSet(ps);
        var j :| 0 <= j < |ps| && ps[j] == releases[i];
        assert Release(records[j].name, records[j].version) == releases[i];
      }
    }
  }

  /** A name longer than every name in the list is not in the list. */
  lemma {:induction false} UnlistedRelease(xs: seq<Release>) returns (r: Release)
    ensures r !in xs
    ensures forall x | x in xs :: |x.name| < |r.name|
  {
    if xs == [] {
      r := Release("x", "");
    } else {
      var s := UnlistedRelease(xs[1..]);
      r := Release(s.name + xs[0].name + "x", "");
      assert forall x | x in xs :: x == xs[0] || x in xs[1..];
    }
  }

  /** The check tells the sets apart for every record exactly when no release is given twice. */
  lemma ReleaseCheckIsExact(releases: seq<Release>)
    ensures Distinct(releases) <==>
            forall records :: SameReleases(records, releases) ==> ToSet(Pairs(records)) == ToSet(releases)
  {
    if Distinct(releases) {
      forall records | SameReleases(records, releases) ensures ToSet(Pairs(records)) == ToSet(releases) {
        DistinctReleasesCompareAsSets(records, releases);
      }
    } else {
      var i, j :| 0 <= i < j < |releases| && releases[i] == releases[j];
      var other := UnlistedRelease(releases);
      var rs := releases[j := other];
      var records := seq(|rs|, k requires 0 <= k < |rs| => ReleaseRecord("", rs[k].name, rs[k].version));
      forall k | 0 <= k < |releases| ensures Listed(records, releases[k]) {
        var m := if k == j then i else k;
        assert Release(records[m].name, records[m].version) == releases[k];
      }
      assert SameReleases(records, releases);
      assert Pairs(records)[j] == other;
      assert other in ToSet(Pairs(records));
    }
  }

  /** Two deployments with different releases that the check takes for the same. */
  lemma RepeatedReleaseIsNotNoticed()
    ensures
      var a, b := Release("a", "1"), Release("b", "1");
      var records := [ReleaseRecord("1", "a", "1"), ReleaseRecord("2", "b", "1")];
      SameReleases(records, [a, a]) && b in ToSet(Pairs(records)) && b !in ToSet([a, a])
  {
    var records := [ReleaseRecord("1", "a", "1"), ReleaseRecord("2", "b", "1")];
    assert Release(records[0].name, records[0].version) == Release("a", "1");
    assert Pairs(records)[1] == Release("b", "1");
  }

  /** In every world a run passes through, IsDeployed answers true only when the latest
      attempt that began clearing has finished, with this manifest and these releases;
      and then it does, if the current stemcell is the one asked for. */
  lemma DeployedIffLatestAttemptFinished(
    w: World, condemned: set<string>, sha1: string, releases: seq<Release>, name: string, version: string)
    requires Safe(w, condemned) && Distinct(releases)
    ensures Deployed(w.state, sha1, releases, name, version) <==>
      && w.attempt.Finished? && w.attempt.sha1 == sha1 && sha1 != ""
      && releases != [] && |w.attempt.releases| == |releases| && ToSet(w.attempt.releases) == ToSet(releases)
      && CurrentStemcell(w.state).Some?
      && CurrentStemcell(w.state).value.name == name && CurrentStemcell(w.state).value.version == version
  {
    DistinctReleasesCompareAsSets(w.state.releases, releases);
    if w.attempt.Finished? {
      assert Pairs(w.state.releases) == w.attempt.releases;
    }
  }
}

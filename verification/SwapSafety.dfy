// What CommitSwap guarantees under every schedule of faults: the bundle that was live at
// entry is never lost before the new one is verified, and what each return means.

module SwapSafety {
  import opened FileWorld
  import opened BundleSwap
  import StateStore

  // Every state visited on the way from w to w' is good.
  ghost predicate Always(w: World, w': World, good: Entry -> bool) {
    Extends(w, w') && forall k | |w.trace| <= k < |w'.trace| :: good(w'.trace[k])
  }

  lemma AlwaysTrans(w: World, w1: World, w2: World, good: Entry -> bool)
    requires Always(w, w1, good) && Always(w1, w2, good)
    ensures Always(w, w2, good)
  {
    forall k | |w.trace| <= k < |w2.trace| ensures good(w2.trace[k]) {
      if k < |w1.trace| {
        assert w2.trace[k] == w1.trace[k];
      }
    }
  }

  lemma AlwaysWeaker(w: World, w': World, good: Entry -> bool, weaker: Entry -> bool)
    requires Always(w, w', good) && forall e :: good(e) ==> weaker(e)
    ensures Always(w, w', weaker)
  {}

  // A bundle, or whatever node is meant, is at the live path or at the backup path.
  predicate Held(disk: Disk, p: Paths, node: Node) {
    (p.app in disk && disk[p.app] == node) || (p.backup in disk && disk[p.backup] == node)
  }

  function Holds(p: Paths, node: Node): Entry -> bool {
    (e: Entry) => Held(e.disk, p, node)
  }

  // An edit of one bundle in place: no other path changes, and the bundle stays a bundle
  // of the same installation.
  ghost predicate EditedAt(before: Disk, after: Disk, path: Path) {
    && after.Keys == before.Keys
    && (forall q | q in before && q != path :: after[q] == before[q])
    && (path in before && before[path].Bundle? ==> after[path].Bundle? && after[path].tag == before[path].tag)
    && (path in before && before[path].Debris? ==> after[path].Debris?)
  }

  predicate EditMark(mark: Mark, path: Path) {
    mark == Edited(path) || mark == EditFailed(path)
  }

  // The edits of a verify callback, each leaving the records alone.
  lemma {:induction false} EditsTouchOnly(w: World, faults: Faults, path: Path, n: nat)
    ensures var w' := EditsStep(w, faults, path, n).0;
            && Extends(w, w') && EditedAt(w.disk, w'.disk, path) && w'.records == w.records
            && (n == 0 ==> w' == w)
            && (forall k | |w.trace| <= k < |w'.trace| ::
                  EditMark(w'.trace[k].mark, path) && EditedAt(w.disk, w'.trace[k].disk, path)
                      && w'.trace[k].records == w.records)
    decreases n
  {
    if n > 0 {
      var step := EditStep(w, faults, path);
      if step.1 {
        EditsTouchOnly(step.0, faults, path, n - 1);
      }
    }
  }

  function VerifiedRecords(records: Records, verify: Verify): Records {
    if verify.Verify? && verify.record.Some? then records[verify.record.value.id := verify.record.value.record]
        else records
  }

  predicate VerifyMark(mark: Mark, path: Path) {
    EditMark(mark, path) || mark == Tried || mark == Failed || mark == RecordsReplaced
  }

  // A verify callback edits the live bundle only; it replaces the target's record exactly
  // when it succeeds, and as its very last step.
  ghost predicate VerifyEffect(w: World, w': World, ok: bool, path: Path, verify: Verify) {
    && Extends(w, w')
    && EditedAt(w.disk, w'.disk, path)
    && (verify.NoVerify? || verify.edits == 0 ==> w'.disk == w.disk)
    && w'.records == (if ok then VerifiedRecords(w.records, verify) else w.records)
    && (forall k | |w.trace| <= k < |w'.trace| ::
          && EditedAt(w.disk, w'.trace[k].disk, path)
          && (w'.trace[k].records == w.records || (ok && k == |w'.trace| - 1))
          && VerifyMark(w'.trace[k].mark, path))
  }

  lemma VerifyTouchesOnly(w: World, faults: Faults, path: Path, verify: Verify)
    ensures var (w', ok) := VerifyStep(w, faults, path, verify);
            VerifyEffect(w, w', ok, path, verify)
  {
    if verify.Verify? {
      var (w1, edited) := EditsStep(w, faults, path, verify.edits);
      EditsTouchOnly(w, faults, path, verify.edits);
      if edited && verify.record.Some? {
        var write := verify.record.value;
        var (w2, ok) := StateStore.UpdateStep(w1, faults, write.id, StateStore.Put(write.record), write.localTeam);
        StateStore.UpdateIsAtomic(w1, faults, write.id, StateStore.Put(write.record), write.localTeam);
        forall k | |w.trace| <= k < |w2.trace|
          ensures EditedAt(w.disk, w2.trace[k].disk, path)
                  && (w2.trace[k].records == w.records || (ok && k == |w2.trace| - 1))
                  && VerifyMark(w2.trace[k].mark, path)
        {
          if k < |w1.trace| {
            assert w2.trace[k] == w1.trace[k];
          }
        }
      }
    }
  }

  lemma RemoveBackupHolds(w: World, faults: Faults, p: Paths, live: Node)
    requires Apart(p) && p.app in w.disk && w.disk[p.app] == live
    ensures var (w', ok) := RemoveAllStep(w, faults, p.backup);
            && Always(w, w', Holds(p, live)) && w'.records == w.records
            && p.app in w'.disk && w'.disk[p.app] == live
            && w'.disk - {p.backup} == w.disk - {p.backup}
            && (ok ==> p.backup !in w'.disk)
  {}

  lemma PrepareHolds(w: World, faults: Faults, p: Paths, live: Node)
    requires Apart(p) && p.app in w.disk && w.disk[p.app] == live
    ensures var (w', problems) := PrepareOldPath(w, faults, p);
            && Always(w, w', Holds(p, live)) && w'.records == w.records
            && p.app in w'.disk && w'.disk[p.app] == live
            && w'.disk - {p.backup} == w.disk - {p.backup}
            && (problems == [] ==> p.backup !in w'.disk)
  {
    var w1 := LstatStep(w, faults, p.backup).0;
    var w2 := LstatStep(w1, faults, p.app).0;
    assert Always(w, w1, Holds(p, live)) && Always(w, w2, Holds(p, live));
    RemoveBackupHolds(w2, faults, p, live);
    AlwaysTrans(w, w2, RemoveAllStep(w2, faults, p.backup).0, Holds(p, live));
  }

  lemma SaveHolds(w: World, faults: Faults, p: Paths, live: Node)
    requires Apart(p) && p.app in w.disk && w.disk[p.app] == live && p.backup !in w.disk
    ensures var (w', hadLive, problems) := SaveLive(w, faults, p);
            && Always(w, w', Holds(p, live)) && w'.records == w.records
            && (problems == [] <==> hadLive)
            && w'.disk == (if hadLive then w.disk[p.backup := live] - {p.app} else w.disk)
  {}

  lemma RestoreInstallHolds(w: World, faults: Faults, p: Paths, live: Node)
    requires Apart(p) && p.backup in w.disk && w.disk[p.backup] == live && p.app !in w.disk
    ensures var (w', problems) := RestoreAfterInstallFailure(w, faults, p, true);
            && Always(w, w', Holds(p, live)) && w'.records == w.records
            && w'.disk == (if RestoreAfterInstall in problems then w.disk else w.disk[p.app := live] - {p.backup})
  {}

  lemma RemoveAppHolds(w: World, faults: Faults, p: Paths, live: Node)
    requires Apart(p) && p.backup in w.disk && w.disk[p.backup] == live
    ensures var w' := RemoveAllStep(w, faults, p.app).0;
            && Always(w, w', Holds(p, live)) && w'.records == w.records
            && p.backup in w'.disk && w'.disk[p.backup] == live
  {}

  lemma RestoreHolds(w: World, faults: Faults, p: Paths, live: Node)
    requires Apart(p) && p.backup in w.disk && w.disk[p.backup] == live
    ensures var (w', ok) := RenameStep(w, faults, p.backup, p.app);
            && Always(w, w', Holds(p, live)) && w'.records == w.records
            && (!ok ==> p.backup in w'.disk && w'.disk[p.backup] == live)
            && (ok ==> p.app in w'.disk && w'.disk[p.app] == live && p.backup !in w'.disk)
  {}

  lemma RestoreRollbackHolds(w: World, faults: Faults, p: Paths, live: Node)
    requires Apart(p) && p.backup in w.disk && w.disk[p.backup] == live
    ensures var (w', problems) := RestoreLiveAfterRollback(w, faults, p);
            && Always(w, w', Holds(p, live)) && w'.records == w.records
            && (RestoreLive in problems ==> p.backup in w'.disk && w'.disk[p.backup] == live)
            && (RestoreLive !in problems ==> p.app in w'.disk && w'.disk[p.app] == live && p.backup !in w'.disk)
  {
    var (w1, found) := LstatStep(w, faults, p.app);
    assert Always(w, w1, Holds(p, live));
    var w2 := if found == Exists then RemoveAllStep(w1, faults, p.app).0 else w1;
    RemoveAppHolds(w1, faults, p, live);
    AlwaysTrans(w, w1, w2, Holds(p, live));
    RestoreHolds(w2, faults, p, live);
    AlwaysTrans(w, w2, RenameStep(w2, faults, p.backup, p.app).0, Holds(p, live));
  }

  lemma RollbackHolds(w: World, faults: Faults, p: Paths, live: Node)
    requires Apart(p) && p.backup in w.disk && w.disk[p.backup] == live
    ensures var (w', problems) := RollbackCommit(w, faults, p, true);
            && Always(w, w', Holds(p, live)) && w'.records == w.records
            && (RestoreLive in problems ==> p.backup in w'.disk && w'.disk[p.backup] == live)
            && (RestoreLive !in problems ==> p.app in w'.disk && w'.disk[p.app] == live && p.backup !in w'.disk)
  {
    var w1 := TryStep(w, faults).0;
    var w2 := RenameStep(w1, faults, p.app, p.staged).0;
    assert Always(w, w2, Holds(p, live));
    RestoreRollbackHolds(w2, faults, p, live);
    AlwaysTrans(w, w2, RestoreLiveAfterRollback(w2, faults, p).0, Holds(p, live));
  }

  // The main safety result. From entry until the new bundle is installed and verified, or
  // until the error return, the node that was live at entry is at the live path or at the
  // backup path, in every state, whatever fails. On an error return it is back at the live
  // path unless a restoring rename itself failed, and then it is at the backup path. On
  // success the staged bundle is live, as the verify callback left it.
  lemma LiveBundleSurvives(w: World, faults: Faults, p: Paths, verify: Verify)
    requires Apart(p) && p.app in w.disk
    ensures var (w', hadLive, problems) := Install(w, faults, p, verify);
            var live := w.disk[p.app];
            && Always(w, w', Holds(p, live))
            && LiveAtEnd(w', p, live, problems)
            && (problems == [] ==> hadLive && StagedIsLive(w, w', p, verify))
            && w'.records == (if problems == [] then VerifiedRecords(w.records, verify) else w.records)
  {
    var live := w.disk[p.app];
    var (w1, stale) := PrepareOldPath(w, faults, p);
    PrepareHolds(w, faults, p, live);
    if stale == [] {
      var (w2, hadLive, unsaved) := SaveLive(w1, faults, p);
      SaveHolds(w1, faults, p, live);
      AlwaysTrans(w, w1, w2, Holds(p, live));
      if unsaved == [] {
        InstallHolds(w2, faults, p, verify, live);
        AlwaysTrans(w, w2, Install(w, faults, p, verify).0, Holds(p, live));
        assert p.staged in w2.disk ==> p.staged in w.disk && w2.disk[p.staged] == w.disk[p.staged];
      }
    }
  }

  // Where the node that was live at entry is in the end: set aside after a success or when
  // the restoring rename failed, else live again.
  ghost predicate LiveAtEnd(w': World, p: Paths, live: Node, problems: Problems) {
    if problems == [] || RestoreAfterInstall in problems || RestoreLive in problems
    then p.backup in w'.disk && w'.disk[p.backup] == live
    else p.app in w'.disk && w'.disk[p.app] == live
  }

  // The staged bundle is live, as the verify callback left it.
  ghost predicate StagedIsLive(w: World, w': World, p: Paths, verify: Verify) {
    && p.staged in w.disk && p.app in w'.disk
    && (w.disk[p.staged].Bundle? ==> w'.disk[p.app].Bundle? && w'.disk[p.app].tag == w.disk[p.staged].tag)
    && (verify.NoVerify? || verify.edits == 0 ==> w'.disk[p.app] == w.disk[p.staged])
  }

  lemma InstallHolds(w: World, faults: Faults, p: Paths, verify: Verify, live: Node)
    requires Apart(p) && p.backup in w.disk && w.disk[p.backup] == live && p.app !in w.disk
    ensures var (w', problems) := InstallAside(w, faults, p, verify, true);
            && Always(w, w', Holds(p, live))
            && LiveAtEnd(w', p, live, problems)
            && (problems == [] ==> StagedIsLive(w, w', p, verify))
            && w'.records == (if problems == [] then VerifiedRecords(w.records, verify) else w.records)
  {
    var (w1, installed) := RenameStep(w, faults, p.staged, p.app);
    assert Always(w, w1, Holds(p, live));
    if !installed {
      RestoreInstallHolds(w1, faults, p, live);
      AlwaysTrans(w, w1, RestoreAfterInstallFailure(w1, faults, p, true).0, Holds(p, live));
    } else {
      VerifyHolds(w1, faults, p, verify, live);
      AlwaysTrans(w, w1, InstallAside(w, faults, p, verify, true).0, Holds(p, live));
    }
  }

  lemma VerifyHolds(w: World, faults: Faults, p: Paths, verify: Verify, live: Node)
    requires Apart(p) && p.backup in w.disk && w.disk[p.backup] == live
    ensures var (w1, verified) := VerifyStep(w, faults, p.app, verify);
            var (w', problems) := if verified then (w1, []) else RollbackCommit(w1, faults, p, true);
            && Always(w, w', Holds(p, live))
            && LiveAtEnd(w', p, live, problems)
            && (problems == []
                ==> EditedAt(w.disk, w'.disk, p.app) && (verify.NoVerify? || verify.edits == 0 ==> w'.disk == w.disk))
            && w'.records == (if problems == [] then VerifiedRecords(w.records, verify) else w.records)
  {
    var (w1, verified) := VerifyStep(w, faults, p.app, verify);
    VerifyTouchesOnly(w, faults, p.app, verify);
    assert Always(w, w1, Holds(p, live));
    assert p.backup in w1.disk && w1.disk[p.backup] == live;
    if !verified {
      RollbackHolds(w1, faults, p, live);
      AlwaysTrans(w, w1, RollbackCommit(w1, faults, p, true).0, Holds(p, live));
    }
  }

  lemma AsideWithoutLive(w: World, faults: Faults, p: Paths, verify: Verify)
    requires Apart(p) && p.app !in w.disk && p.backup !in w.disk
    ensures var (w', problems) := InstallAside(w, faults, p, verify, false);
            && Extends(w, w')
            && (problems == [] ==> p.backup !in w'.disk && StagedIsLive(w, w', p, verify))
            && (problems != [] && RollBackStaged !in problems ==> p.app !in w'.disk)
            && w'.records == (if problems == [] then VerifiedRecords(w.records, verify) else w.records)
  {
    var (w1, installed) := RenameStep(w, faults, p.staged, p.app);
    if installed {
      var (w2, verified) := VerifyStep(w1, faults, p.app, verify);
      VerifyTouchesOnly(w1, faults, p.app, verify);
      ExtendsTrans(w, w1, w2);
      if !verified {
        RollbackWithoutLive(w2, faults, p);
        ExtendsTrans(w, w2, RollbackCommit(w2, faults, p, false).0);
      }
    }
  }

  lemma RollbackWithoutLive(w: World, faults: Faults, p: Paths)
    requires Apart(p)
    ensures var (w', problems) := RollbackCommit(w, faults, p, false);
            && Extends(w, w') && w'.records == w.records && problems != []
            && (RollBackStaged !in problems ==> p.app !in w'.disk)
  {}

  // Without a live bundle at entry: a stale backup is refused and nothing changes; else an
  // error leaves the live path empty unless moving the failed bundle back failed.
  lemma NoLiveBundle(w: World, faults: Faults, p: Paths, verify: Verify)
    requires Apart(p) && p.app !in w.disk
    ensures var (w', hadLive, problems) := Install(w, faults, p, verify);
            && Extends(w, w') && !hadLive
            && (p.backup in w.disk
                ==> problems in {[StatStaleOld], [StaleOldWithoutLive], [StatLive]} && w'.disk == w.disk)
            && (problems == [] ==> p.backup !in w'.disk && StagedIsLive(w, w', p, verify))
            && (problems != [] && RollBackStaged !in problems ==> p.app !in w'.disk)
            && w'.records == (if problems == [] then VerifiedRecords(w.records, verify) else w.records)
  {
    var (w1, stale) := PrepareOldPath(w, faults, p);
    if stale == [] {
      var (w2, hadLive, unsaved) := SaveLive(w1, faults, p);
      if unsaved == [] {
        AsideWithoutLive(w2, faults, p, verify);
      }
    }
  }

  // The outcome contract of CommitSwap.
  lemma CommitOutcome(w: World, faults: Faults, p: Paths, verify: Verify, dryRun: bool)
    requires Apart(p)
    ensures var (w', problems) := CommitSwap(w, faults, p, verify, dryRun);
            && (dryRun ==> w' == w && problems == [])
            // A nil return from a real run: the staged bundle is live, no backup is left.
            && (!dryRun && problems == [] ==> StagedIsLive(w, w', p, verify) && p.backup !in w'.disk)
            // An error after verification concerns the backup only: the new bundle stays.
            // and it is reported only of a backup that is still there.
            && (CleanUpOld in problems ==>
                  problems == [CleanUpOld] && StagedIsLive(w, w', p, verify) && p.backup in w'.disk)
            // Any other error, with the restoring rename succeeding, leaves the live path as it was.
            && (problems != [] && CleanUpOld !in problems && Restored(problems, p.app in w.disk) ==>
                  (p.app in w'.disk <==> p.app in w.disk) && (p.app in w.disk ==> w'.disk[p.app] == w.disk[p.app]))
            && w'.records
                == (if !dryRun && (problems == [] || problems == [CleanUpOld])
                    then VerifiedRecords(w.records, verify) else w.records)
  {
    if !dryRun {
      var (w1, hadLive, problems) := Install(w, faults, p, verify);
      InstallProblems(w, faults, p, verify);
      if p.app in w.disk {
        LiveBundleSurvives(w, faults, p, verify);
      } else {
        NoLiveBundle(w, faults, p, verify);
      }
    }
  }

  // The rollback renames that matter succeeded.
  predicate Restored(problems: Problems, hadLive: bool) {
    if hadLive then RestoreAfterInstall !in problems && RestoreLive !in problems else RollBackStaged !in problems
  }

  lemma InstallProblems(w: World, faults: Faults, p: Paths, verify: Verify)
    ensures CleanUpOld !in Install(w, faults, p, verify).2
  {
    var (w1, stale) := PrepareOldPath(w, faults, p);
    if stale == [] {
      var (w2, hadLive, unsaved) := SaveLive(w1, faults, p);
      if unsaved == [] {
        AsideProblems(w2, faults, p, verify, hadLive);
      }
    }
  }

  lemma AsideProblems(w: World, faults: Faults, p: Paths, verify: Verify, hadLive: bool)
    ensures CleanUpOld !in InstallAside(w, faults, p, verify, hadLive).1
  {}
}

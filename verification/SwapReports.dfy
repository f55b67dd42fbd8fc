// What a commit and a staged upgrade report is true: they report success exactly when no step
// failed and nothing stood in the way, and without faults they succeed.

module SwapReports {
  import opened Text
  import opened FileWorld
  import opened BundleSwap
  import opened StagedUpgrade
  import StateStore

  // The target's record can go on file: the records then would not name the local team.
  ghost predicate RecordAccepted(records: Records, verify: Verify) {
    verify.NoVerify? || verify.record.None? ||
    var write := verify.record.value;
    StateStore.Acceptable(records[write.id := write.record], write.localTeam)
  }

  // A backup without a live bundle, which a commit refuses to touch.
  predicate LoneBackup(disk: Disk, p: Paths) {
    p.backup in disk && p.app !in disk
  }

  lemma {:induction false} EditsReport(w: World, faults: Faults, path: Path, n: nat)
    ensures var (w', ok) := EditsStep(w, faults, path, n);
            && Extends(w, w') && w'.records == w.records
            && (ok <==> NoneFailed(w, w')) && (Quiet(faults) ==> ok)
    decreases n
  {
    if n > 0 {
      var step := EditStep(w, faults, path);
      EditReports(w, faults, path);
      if step.1 {
        EditsReport(step.0, faults, path, n - 1);
        NoneFailedTrans(w, step.0, EditsStep(w, faults, path, n).0);
      }
    }
  }

  lemma VerifyReports(w: World, faults: Faults, path: Path, verify: Verify)
    ensures var (w', ok) := VerifyStep(w, faults, path, verify);
            && Extends(w, w') && (ok <==> NoneFailed(w, w') && RecordAccepted(w.records, verify))
            && (Quiet(faults) ==> NoneFailed(w, w'))
  {
    if verify.Verify? {
      var (w1, edited) := EditsStep(w, faults, path, verify.edits);
      EditsReport(w, faults, path, verify.edits);
      if edited && verify.record.Some? {
        var write := verify.record.value;
        var w2 := StateStore.UpdateStep(w1, faults, write.id, StateStore.Put(write.record), write.localTeam).0;
        StateStore.UpdateSucceedsIff(w1, faults, write.id, StateStore.Put(write.record), write.localTeam);
        StateStore.UpdateReplaces(w1, faults, write.id, StateStore.Put(write.record), write.localTeam);
        NoneFailedTrans(w, w1, w2);
      }
    }
  }

  lemma PrepareReports(w: World, faults: Faults, p: Paths)
    requires Apart(p)
    ensures var (w', problems) := PrepareOldPath(w, faults, p);
            && Extends(w, w') && w'.records == w.records
            && (problems == [] <==> NoneFailed(w, w') && !LoneBackup(w.disk, p))
            && (problems == [] ==> w'.disk == w.disk - {p.backup})
            && (Quiet(faults) ==> NoneFailed(w, w'))
  {
    var (w1, stale) := LstatStep(w, faults, p.backup);
    LstatReports(w, faults, p.backup);
    if stale == Exists {
      var (w2, live) := LstatStep(w1, faults, p.app);
      LstatReports(w1, faults, p.app);
      NoneFailedTrans(w, w1, w2);
      if live == Exists {
        var w3 := RemoveAllStep(w2, faults, p.backup).0;
        RemoveReports(w2, faults, p.backup);
        NoneFailedTrans(w, w2, w3);
      }
    }
  }

  lemma SaveReports(w: World, faults: Faults, p: Paths)
    requires Apart(p)
    ensures var (w', hadLive, problems) := SaveLive(w, faults, p);
            && Extends(w, w') && w'.records == w.records
            && (problems == [] <==> NoneFailed(w, w'))
            && (problems == [] ==> (hadLive <==> p.app in w.disk))
            && (hadLive ==> p.app in w.disk && w'.disk == w.disk[p.backup := w.disk[p.app]] - {p.app})
            && (!hadLive ==> w'.disk == w.disk)
            && (Quiet(faults) && p.backup !in w.disk ==> problems == [])
  {
    var (w1, live) := LstatStep(w, faults, p.app);
    LstatReports(w, faults, p.app);
    if live == Exists {
      var w2 := RenameStep(w1, faults, p.app, p.backup).0;
      RenameReports(w1, faults, p.app, p.backup);
      NoneFailedTrans(w, w1, w2);
    }
  }

  lemma RestoreExtends(w: World, faults: Faults, p: Paths)
    ensures Extends(w, RestoreLiveAfterRollback(w, faults, p).0)
  {
    var (w1, live) := LstatStep(w, faults, p.app);
    LstatReports(w, faults, p.app);
    var w2 := if live == Exists then RemoveAllStep(w1, faults, p.app).0 else w1;
    RemoveReports(w1, faults, p.app);
    RenameReports(w2, faults, p.backup, p.app);
    ExtendsTrans(w, w1, w2);
    ExtendsTrans(w, w2, RenameStep(w2, faults, p.backup, p.app).0);
  }

  lemma RollbackExtends(w: World, faults: Faults, p: Paths, hadLive: bool)
    ensures Extends(w, RollbackCommit(w, faults, p, hadLive).0) && RollbackCommit(w, faults, p, hadLive).1 != []
  {
    var w1 := TryStep(w, faults).0;
    var w2 := RenameStep(w1, faults, p.app, p.staged).0;
    TryReports(w, faults);
    RenameReports(w1, faults, p.app, p.staged);
    ExtendsTrans(w, w1, w2);
    if hadLive {
      RestoreExtends(w2, faults, p);
      ExtendsTrans(w, w2, RestoreLiveAfterRollback(w2, faults, p).0);
    }
  }

  lemma AsideReports(w: World, faults: Faults, p: Paths, verify: Verify, hadLive: bool)
    requires Apart(p)
    ensures var (w', problems) := InstallAside(w, faults, p, verify, hadLive);
            && Extends(w, w')
            && (problems == [] <==> NoneFailed(w, w') && RecordAccepted(w.records, verify))
            && (problems == [] ==> p.staged in w.disk)
            && (Quiet(faults) && p.staged in w.disk && p.app !in w.disk && RecordAccepted(w.records, verify)
                ==> problems == [])
  {
    var (w1, installed) := RenameStep(w, faults, p.staged, p.app);
    var w' := InstallAside(w, faults, p, verify, hadLive).0;
    RenameReports(w, faults, p.staged, p.app);
    if installed {
      var (w2, verified) := VerifyStep(w1, faults, p.app, verify);
      VerifyReports(w1, faults, p.app, verify);
      RollbackExtends(w2, faults, p, hadLive);
      NoneFailedTrans(w1, w2, w');
      ExtendsTrans(w1, w2, w');
    } else if hadLive {
      RenameReports(w1, faults, p.backup, p.app);
    }
    NoneFailedTrans(w, w1, w');
    ExtendsTrans(w, w1, w');
  }

  lemma InstallReports(w: World, faults: Faults, p: Paths, verify: Verify)
    requires Apart(p)
    ensures var (w', hadLive, problems) := Install(w, faults, p, verify);
            && Extends(w, w')
            && (problems == [] <==> NoneFailed(w, w') && !LoneBackup(w.disk, p) && RecordAccepted(w.records, verify))
            && (problems == [] ==> p.staged in w.disk && (hadLive <==> p.app in w.disk))
            && (Quiet(faults) && p.staged in w.disk && !LoneBackup(w.disk, p) && RecordAccepted(w.records, verify)
                ==> problems == [])
  {
    var (w1, stale) := PrepareOldPath(w, faults, p);
    PrepareReports(w, faults, p);
    if stale == [] {
      var w' := Install(w, faults, p, verify).0;
      var (w2, hadLive, unsaved) := SaveLive(w1, faults, p);
      SaveReports(w1, faults, p);
      if unsaved == [] {
        AsideReports(w2, faults, p, verify, hadLive);
        NoneFailedTrans(w1, w2, w');
      }
      NoneFailedTrans(w, w1, w');
    }
  }

  // A commit reports no problem exactly when no step of it failed, there was no backup without
  // a live bundle, and the record it wrote was acceptable.
  lemma CommitReports(w: World, faults: Faults, p: Paths, verify: Verify)
    requires Apart(p)
    ensures var (w', problems) := CommitSwap(w, faults, p, verify, false);
            && Extends(w, w')
            && (problems == [] <==> NoneFailed(w, w') && !LoneBackup(w.disk, p) && RecordAccepted(w.records, verify))
  {
    var (w1, hadLive, problems) := Install(w, faults, p, verify);
    var w' := CommitSwap(w, faults, p, verify, false).0;
    InstallReports(w, faults, p, verify);
    if problems == [] && hadLive {
      RemoveReports(w1, faults, p.backup);
    }
    NoneFailedTrans(w, w1, w');
  }

  // If nothing fails by itself, it reports none exactly when there is something staged, no
  // backup without a live bundle, and the record is acceptable: replacing a live bundle succeeds.
  lemma QuietCommitSucceedsIff(w: World, faults: Faults, p: Paths, verify: Verify)
    requires Apart(p) && Quiet(faults)
    ensures CommitSwap(w, faults, p, verify, false).1 == []
            <==> p.staged in w.disk && !LoneBackup(w.disk, p) && RecordAccepted(w.records, verify)
  {
    var (w1, hadLive, problems) := Install(w, faults, p, verify);
    InstallReports(w, faults, p, verify);
    CommitReports(w, faults, p, verify);
    if problems == [] && hadLive {
      RemoveReports(w1, faults, p.backup);
    }
  }

  // ----- Which problem names which failure, and that nothing else is reported.

  lemma PrepareProblems(w: World, faults: Faults, p: Paths)
    ensures var n := |w.trace|;
            var stale := p.backup in w.disk && !faults(n).fails;
            var both := stale && p.app in w.disk && !faults(n + 1).fails;
            PrepareOldPath(w, faults, p).1
            == if faults(n).fails then [StatStaleOld]
               else if !stale then []
               else if faults(n + 1).fails then [StatLive]
               else if !both then [StaleOldWithoutLive]
               else if faults(n + 2).fails then [RemoveStaleOld]
               else []
  {}

  lemma SaveProblems(w: World, faults: Faults, p: Paths)
    requires Apart(p) && p.backup !in w.disk
    ensures var n := |w.trace|;
            SaveLive(w, faults, p).2
            == if faults(n).fails then [StatBeforeSave]
               else if p.app in w.disk && faults(n + 1).fails then [SaveOld]
               else []
  {}

  // After a failed install only the restoring rename can fail besides.
  lemma RestoreInstallProblems(w: World, faults: Faults, p: Paths, hadLive: bool)
    requires Apart(p) && (hadLive ==> p.backup in w.disk && p.app !in w.disk)
    ensures RestoreAfterInstallFailure(w, faults, p, hadLive).1
            == [InstallStaged] + if hadLive && faults(|w.trace|).fails then [RestoreAfterInstall] else []
  {}

  // After a failed verification: what could not be looked at, removed or renamed, in this order.
  lemma RestoreProblems(w: World, faults: Faults, p: Paths)
    requires Apart(p) && p.backup in w.disk
    ensures var n := |w.trace|;
            var there := p.app in w.disk && !faults(n).fails;
            var cleared := there && !faults(n + 1).fails;
            var (w', problems) := RestoreLiveAfterRollback(w, faults, p);
            && (StatFailedLive in problems <==> faults(n).fails)
            && (RemoveFailedLive in problems <==> there && !cleared)
            && (RestoreLive in problems <==> p.backup in w'.disk)
            && problems == (if StatFailedLive in problems then [StatFailedLive] else [])
                           + (if RemoveFailedLive in problems then [RemoveFailedLive] else [])
                           + (if RestoreLive in problems then [RestoreLive] else [])
  {
    var (w1, live) := LstatStep(w, faults, p.app);
    var w2 := if live == Exists then RemoveAllStep(w1, faults, p.app).0 else w1;
    RemoveReports(w1, faults, p.app);
    assert p.backup in w2.disk;
    BackIsReported(w2, faults, p);
  }

  lemma BackIsReported(w: World, faults: Faults, p: Paths)
    requires Apart(p) && p.backup in w.disk
    ensures var (w', restored) := RenameStep(w, faults, p.backup, p.app); restored <==> p.backup !in w'.disk
  {}

  // The verification failure comes first, then the parent that could not be made again, the
  // failed bundle that is still live, and the problems of restoring the old one.
  lemma RollbackProblems(w: World, faults: Faults, p: Paths, hadLive: bool)
    requires Apart(p) && p.app in w.disk
    ensures var w2 := RenameStep(TryStep(w, faults).0, faults, p.app, p.staged).0;
            RollbackCommit(w, faults, p, hadLive).1
            == [VerifyFailed] + (if faults(|w.trace|).fails then [RecreateStagedParent] else [])
               + (if p.app in w2.disk then [RollBackStaged] else [])
               + (if hadLive then RestoreLiveAfterRollback(w2, faults, p).1 else [])
  {
    var w1 := TryStep(w, faults).0;
    RenameReports(w1, faults, p.app, p.staged);
  }

  // ----- A staged upgrade.

  lemma CheckReports(w: World, faults: Faults, plan: Plan)
    requires !plan.dryRun
    ensures var (w', error) := PolicyCheck(w, faults, plan);
            && Extends(w, w') && w'.disk == w.disk && w'.records == w.records
            && (error.None? <==> NoneFailed(w, w') && !plan.policy.PolicyOther?)
            && (Quiet(faults) ==> NoneFailed(w, w'))
  {
    PolicyReports(w, faults);
  }

  lemma StageReports(w: World, faults: Faults, plan: Plan, adopt: Path)
    requires !plan.dryRun
    ensures var (w', ok) := StageBundle(w, faults, plan, adopt);
            && Extends(w, w') && (ok <==> NoneFailed(w, w'))
            && (ok ==> adopt in w.disk && w.disk[adopt].Bundle?)
            && (Quiet(faults) && adopt in w.disk && w.disk[adopt].Bundle? ==> ok)
  {
    var w1 := TryStep(w, faults).0;
    TryReports(w, faults);
    CopyReports(w1, faults, adopt, plan.paths.staged, plan.tag);
    NoneFailedTrans(w, w1, CopyStep(w1, faults, adopt, plan.paths.staged, plan.tag).0);
  }

  // All that comes before the commit goes through exactly when no step of it fails.
  lemma BeforeCommitReports(w: World, faults: Faults, plan: Plan, adopt: Path)
    requires !plan.dryRun
    ensures var (w', error) := BeforeCommit(w, faults, plan, adopt);
            && Extends(w, w')
            && (error.None? <==> NoneFailed(w, w') && !plan.policy.PolicyOther?)
            && (error.None? ==> adopt in w.disk && w.disk[adopt].Bundle?)
            && (Quiet(faults) && adopt in w.disk && w.disk[adopt].Bundle? ==> NoneFailed(w, w'))
  {
    var (w1, staged) := StageBundle(w, faults, plan, adopt);
    var w' := BeforeCommit(w, faults, plan, adopt).0;
    StageReports(w, faults, plan, adopt);
    if staged {
      var (w2, prepared) := EditsStep(w1, faults, plan.paths.staged, plan.prepareEdits);
      EditsReport(w1, faults, plan.paths.staged, plan.prepareEdits);
      if prepared {
        CheckReports(w2, faults, plan);
        NoneFailedTrans(w1, w2, w');
      }
      NoneFailedTrans(w, w1, w');
    }
  }
}

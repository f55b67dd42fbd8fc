// A staged upgrade changes the live bundle and the target's patch record together, and
// commits only after a policy check made when staging was over.

module UpgradeAtomicity {
  import opened Text
  import opened FileWorld
  import opened BundleSwap
  import opened SwapSafety
  import opened StagedUpgrade
  import opened SwapReports

  // The bundle of one installation is live.
  predicate TagLive(disk: Disk, app: Path, tag: nat) {
    app in disk && disk[app].Bundle? && disk[app].tag == tag
  }

  // In a commit, no step is one of the staging, and the new records are never visible
  // without the new bundle.
  function CommitEntry(p: Paths, tag: nat, before: Records, after: Records): Entry -> bool {
    (e: Entry) => CommitMark(p, e.mark) && (e.records == before || (e.records == after && TagLive(e.disk, p.app, tag)))
  }

  // The marks of copying and preparing the new bundle.
  predicate StagingMark(mark: Mark, staged: Path) {
    mark == Copying || mark == Copied || EditMark(mark, staged)
  }

  predicate CommitMark(p: Paths, mark: Mark) {
    !StagingMark(mark, p.staged) && mark != PolicyPassed
  }

  function RecordsStay(p: Paths, records: Records): Entry -> bool {
    (e: Entry) => CommitMark(p, e.mark) && e.records == records
  }

  // Outside the staging path nothing has happened, and nothing has been renamed.
  ghost function Unswapped(disk: Disk, records: Records, staged: Path): Entry -> bool {
    (e: Entry) => e.records == records && Elsewhere(disk, e.disk, staged) && !e.mark.Renamed?
  }

  // Two disks that differ at most at one path.
  ghost predicate Elsewhere(before: Disk, after: Disk, path: Path) {
    forall q | q != path :: (q in after <==> q in before) && (q in before ==> after[q] == before[q])
  }

  predicate CommitRename(mark: Mark, p: Paths) {
    mark == Renamed(p.app, p.backup) || mark == Renamed(p.staged, p.app)
  }

  // Steps of a commit that leave the records alone.
  ghost predicate Plainly(w: World, w': World, p: Paths) {
    Always(w, w', RecordsStay(p, w.records)) && w'.records == w.records
  }

  lemma PlainTrans(w: World, w1: World, w2: World, p: Paths)
    requires Plainly(w, w1, p) && Plainly(w1, w2, p)
    ensures Plainly(w, w2, p)
  {
    AlwaysTrans(w, w1, w2, RecordsStay(p, w.records));
  }

  lemma LookRecords(w: World, faults: Faults, p: Paths, path: Path)
    ensures Plainly(w, LstatStep(w, faults, path).0, p)
  {}

  lemma RemoveRecords(w: World, faults: Faults, p: Paths, path: Path)
    ensures Plainly(w, RemoveAllStep(w, faults, path).0, p)
  {}

  lemma RenameRecords(w: World, faults: Faults, p: Paths, src: Path, dst: Path)
    ensures Plainly(w, RenameStep(w, faults, src, dst).0, p)
  {}

  lemma PrepareRecords(w: World, faults: Faults, p: Paths)
    ensures Plainly(w, PrepareOldPath(w, faults, p).0, p)
  {
    var w1 := LstatStep(w, faults, p.backup).0;
    var w2 := LstatStep(w1, faults, p.app).0;
    LookRecords(w, faults, p, p.backup);
    LookRecords(w1, faults, p, p.app);
    PlainTrans(w, w1, w2, p);
    RemoveRecords(w2, faults, p, p.backup);
    PlainTrans(w, w2, RemoveAllStep(w2, faults, p.backup).0, p);
  }

  lemma SaveRecords(w: World, faults: Faults, p: Paths)
    ensures Plainly(w, SaveLive(w, faults, p).0, p)
  {
    var w1 := LstatStep(w, faults, p.app).0;
    LookRecords(w, faults, p, p.app);
    RenameRecords(w1, faults, p, p.app, p.backup);
    PlainTrans(w, w1, RenameStep(w1, faults, p.app, p.backup).0, p);
  }

  lemma RestoreRecords(w: World, faults: Faults, p: Paths)
    ensures Plainly(w, RestoreLiveAfterRollback(w, faults, p).0, p)
  {
    var (w1, live) := LstatStep(w, faults, p.app);
    LookRecords(w, faults, p, p.app);
    var w2 := if live == Exists then RemoveAllStep(w1, faults, p.app).0 else w1;
    if live == Exists {
      RemoveRecords(w1, faults, p, p.app);
      PlainTrans(w, w1, w2, p);
    }
    RenameRecords(w2, faults, p, p.backup, p.app);
    PlainTrans(w, w2, RenameStep(w2, faults, p.backup, p.app).0, p);
  }

  lemma RollbackRecords(w: World, faults: Faults, p: Paths, hadLive: bool)
    ensures Plainly(w, RollbackCommit(w, faults, p, hadLive).0, p)
  {
    var w1 := TryStep(w, faults).0;
    var w2 := RenameStep(w1, faults, p.app, p.staged).0;
    assert Plainly(w, w1, p);
    RenameRecords(w1, faults, p, p.app, p.staged);
    PlainTrans(w, w1, w2, p);
    if hadLive {
      RestoreRecords(w2, faults, p);
      PlainTrans(w, w2, RestoreLiveAfterRollback(w2, faults, p).0, p);
    }
  }

  lemma RestoreInstallRecords(w: World, faults: Faults, p: Paths, hadLive: bool)
    ensures Plainly(w, RestoreAfterInstallFailure(w, faults, p, hadLive).0, p)
  {
    RenameRecords(w, faults, p, p.backup, p.app);
  }

  lemma PlainThen(w: World, w1: World, w2: World, p: Paths, tag: nat, after: Records)
    requires Always(w, w1, RecordsStay(p, w.records)) && Always(w1, w2, CommitEntry(p, tag, w.records, after))
    ensures Always(w, w2, CommitEntry(p, tag, w.records, after))
  {
    AlwaysWeaker(w, w1, RecordsStay(p, w.records), CommitEntry(p, tag, w.records, after));
    AlwaysTrans(w, w1, w2, CommitEntry(p, tag, w.records, after));
  }

  lemma CallbackRecords(w: World, faults: Faults, p: Paths, verify: Verify, tag: nat)
    requires Apart(p) && TagLive(w.disk, p.app, tag)
    ensures var (w1, verified) := VerifyStep(w, faults, p.app, verify);
            && Always(w, w1, CommitEntry(p, tag, w.records, VerifiedRecords(w.records, verify)))
            && (!verified ==> w1.records == w.records)
  {
    var (w1, verified) := VerifyStep(w, faults, p.app, verify);
    VerifyTouchesOnly(w, faults, p.app, verify);
    EffectRecords(w, w1, verified, p, verify, tag);
  }

  lemma EffectRecords(w: World, w1: World, verified: bool, p: Paths, verify: Verify, tag: nat)
    requires Apart(p) && TagLive(w.disk, p.app, tag) && VerifyEffect(w, w1, verified, p.app, verify)
    ensures Always(w, w1, CommitEntry(p, tag, w.records, VerifiedRecords(w.records, verify)))
  {
    forall k | |w.trace| <= k < |w1.trace|
      ensures CommitEntry(p, tag, w.records, VerifiedRecords(w.records, verify))(w1.trace[k])
    {
      assert VerifyMark(w1.trace[k].mark, p.app) && EditedAt(w.disk, w1.trace[k].disk, p.app);
    }
  }

  // Verifying the freshly installed bundle, and rolling back when that fails.
  lemma VerifyRecords(w: World, faults: Faults, p: Paths, verify: Verify, hadLive: bool, tag: nat)
    requires Apart(p) && TagLive(w.disk, p.app, tag)
    ensures var (w1, verified) := VerifyStep(w, faults, p.app, verify);
            var w' := if verified then w1 else RollbackCommit(w1, faults, p, hadLive).0;
            Always(w, w', CommitEntry(p, tag, w.records, VerifiedRecords(w.records, verify)))
  {
    var good := CommitEntry(p, tag, w.records, VerifiedRecords(w.records, verify));
    var (w1, verified) := VerifyStep(w, faults, p.app, verify);
    CallbackRecords(w, faults, p, verify, tag);
    if !verified {
      RollbackRecords(w1, faults, p, hadLive);
      var w2 := RollbackCommit(w1, faults, p, hadLive).0;
      AlwaysWeaker(w1, w2, RecordsStay(p, w.records), good);
      AlwaysTrans(w, w1, w2, good);
    }
  }

  lemma AsideRecords(w: World, faults: Faults, p: Paths, verify: Verify, hadLive: bool, tag: nat)
    requires Apart(p) && TagLive(w.disk, p.staged, tag)
    ensures Always(w, InstallAside(w, faults, p, verify, hadLive).0,
            CommitEntry(p, tag, w.records, VerifiedRecords(w.records, verify)))
  {
    var after := VerifiedRecords(w.records, verify);
    var (w1, installed) := RenameStep(w, faults, p.staged, p.app);
    var w2 := InstallAside(w, faults, p, verify, hadLive).0;
    RenameRecords(w, faults, p, p.staged, p.app);
    if installed {
      VerifyRecords(w1, faults, p, verify, hadLive, tag);
    } else {
      RestoreInstallRecords(w1, faults, p, hadLive);
      AlwaysWeaker(w1, w2, RecordsStay(p, w.records), CommitEntry(p, tag, w.records, after));
    }
    PlainThen(w, w1, w2, p, tag, after);
  }

  // In every state of a commit the target's new record comes only with the new bundle.
  lemma CommitRecords(w: World, faults: Faults, p: Paths, verify: Verify, tag: nat)
    requires Apart(p) && TagLive(w.disk, p.staged, tag)
    ensures Always(w, CommitSwap(w, faults, p, verify, false).0,
            CommitEntry(p, tag, w.records, VerifiedRecords(w.records, verify)))
  {
    var after := VerifiedRecords(w.records, verify);
    var (w1, hadLive, problems) := Install(w, faults, p, verify);
    InstallRecords(w, faults, p, verify, tag);
    if problems == [] {
      InstallNew(w, faults, p, verify, tag);
      FinishRecords(w1, faults, p, hadLive, tag, w.records);
      AlwaysTrans(w, w1, FinishCommit(w1, faults, p, hadLive).0, CommitEntry(p, tag, w.records, after));
    }
  }

  lemma InstallRecords(w: World, faults: Faults, p: Paths, verify: Verify, tag: nat)
    requires Apart(p) && TagLive(w.disk, p.staged, tag)
    ensures Always(w, Install(w, faults, p, verify).0,
            CommitEntry(p, tag, w.records, VerifiedRecords(w.records, verify)))
  {
    var after := VerifiedRecords(w.records, verify);
    var (w1, stale) := PrepareOldPath(w, faults, p);
    PrepareRecords(w, faults, p);
    if stale == [] {
      var (w2, hadLive, unsaved) := SaveLive(w1, faults, p);
      SaveRecords(w1, faults, p);
      AlwaysTrans(w, w1, w2, RecordsStay(p, w.records));
      if unsaved == [] {
        assert w2.disk[p.staged] == w.disk[p.staged];
        AsideRecords(w2, faults, p, verify, hadLive, tag);
      }
      PlainThen(w, w2, Install(w, faults, p, verify).0, p, tag, after);
    } else {
      PlainThen(w, w1, w1, p, tag, after);
    }
  }

  lemma FinishRecords(w: World, faults: Faults, p: Paths, hadLive: bool, tag: nat, before: Records)
    requires Apart(p) && TagLive(w.disk, p.app, tag)
    ensures Always(w, FinishCommit(w, faults, p, hadLive).0, CommitEntry(p, tag, before, w.records))
  {
    var w' := RemoveAllStep(w, faults, p.backup).0;
    CleanupStaysAside(w, faults, p.backup);
    forall k | |w.trace| <= k < |w'.trace| ensures CommitEntry(p, tag, before, w.records)(w'.trace[k]) {
      assert Unswapped(w.disk, w.records, p.backup)(w'.trace[k]);
    }
  }

  lemma InstallNew(w: World, faults: Faults, p: Paths, verify: Verify, tag: nat)
    requires Apart(p) && TagLive(w.disk, p.staged, tag)
    requires Install(w, faults, p, verify).2 == []
    ensures var w' := Install(w, faults, p, verify).0;
            TagLive(w'.disk, p.app, tag) && w'.records == VerifiedRecords(w.records, verify)
  {
    if p.app in w.disk {
      LiveBundleSurvives(w, faults, p, verify);
    } else {
      NoLiveBundle(w, faults, p, verify);
    }
  }

  // What staging leaves: everything outside the staging path as it was, the new bundle
  // staged, its copy and its preparation done before the last step, which is a policy
  // check that passed.
  ghost predicate ReadyToCommit(w: World, w': World, plan: Plan) {
    && TagLive(w'.disk, plan.paths.staged, plan.tag)
    && |w'.trace| > |w.trace| && w'.trace[|w'.trace| - 1].mark == PolicyPassed
    && (exists i :: |w.trace| <= i < |w'.trace| - 1 && w'.trace[i].mark == Copied)
  }

  lemma StagingStaysAside(w: World, faults: Faults, plan: Plan, adopt: Path)
    ensures var (w', ok) := StageBundle(w, faults, plan, adopt);
            && Always(w, w', Unswapped(w.disk, w.records, plan.paths.staged))
            && w'.records == w.records && Elsewhere(w.disk, w'.disk, plan.paths.staged)
            && (ok && !plan.dryRun ==>
                  TagLive(w'.disk, plan.paths.staged, plan.tag) && |w'.trace| > |w.trace|
                      && w'.trace[|w'.trace| - 1].mark == Copied)
  {}

  lemma PreparingStaysAside(w: World, faults: Faults, staged: Path, n: nat)
    ensures var (w', ok) := EditsStep(w, faults, staged, n);
            && Always(w, w', Unswapped(w.disk, w.records, staged))
            && w'.records == w.records && Elsewhere(w.disk, w'.disk, staged)
            && (forall tag :: TagLive(w.disk, staged, tag) ==> TagLive(w'.disk, staged, tag))
  {
    EditsTouchOnly(w, faults, staged, n);
  }

  lemma BeforeCommitStaysAside(w: World, faults: Faults, plan: Plan, adopt: Path)
    ensures var (w', error) := BeforeCommit(w, faults, plan, adopt);
            && Always(w, w', Unswapped(w.disk, w.records, plan.paths.staged))
            && w'.records == w.records && Elsewhere(w.disk, w'.disk, plan.paths.staged)
            && (error.None? && !plan.dryRun ==> ReadyToCommit(w, w', plan))
  {
    var good := Unswapped(w.disk, w.records, plan.paths.staged);
    var (w1, staged) := StageBundle(w, faults, plan, adopt);
    StagingStaysAside(w, faults, plan, adopt);
    if staged {
      var n := if plan.dryRun then 0 else plan.prepareEdits;
      var (w2, prepared) := EditsStep(w1, faults, plan.paths.staged, n);
      PreparingStaysAside(w1, faults, plan.paths.staged, n);
      AlwaysWeaker(w1, w2, Unswapped(w1.disk, w1.records, plan.paths.staged), good);
      AlwaysTrans(w, w1, w2, good);
      if prepared {
        CheckStaysAside(w, w1, w2, faults, plan);
      }
    }
  }

  lemma CheckStaysAside(w: World, w1: World, w2: World, faults: Faults, plan: Plan)
    requires Always(w, w2, Unswapped(w.disk, w.records, plan.paths.staged))
    requires w2.records == w.records && Elsewhere(w.disk, w2.disk, plan.paths.staged)
    requires w.trace <= w1.trace <= w2.trace
    requires !plan.dryRun ==>
               TagLive(w2.disk, plan.paths.staged, plan.tag) && |w1.trace| > |w.trace|
                   && w1.trace[|w1.trace| - 1].mark == Copied
    ensures var (w', error) := PolicyCheck(w2, faults, plan);
            && Always(w, w', Unswapped(w.disk, w.records, plan.paths.staged))
            && w'.records == w.records && w'.disk == w2.disk
            && (error.None? && !plan.dryRun ==> ReadyToCommit(w, w', plan))
  {
    var (w3, error) := PolicyCheck(w2, faults, plan);
    assert Always(w2, w3, Unswapped(w.disk, w.records, plan.paths.staged));
    AlwaysTrans(w, w2, w3, Unswapped(w.disk, w.records, plan.paths.staged));
    if error.None? && !plan.dryRun {
      assert w3.trace[|w1.trace| - 1] == w1.trace[|w1.trace| - 1];
    }
  }

  // The two stores at the end, against the start: both new, or both as they were.
  ghost predicate BothNew(w: World, w': World, plan: Plan) {
    && TagLive(w'.disk, plan.paths.app, plan.tag)
    && w'.records == w.records[plan.write.id := plan.write.record]
  }

  ghost predicate BothOld(w: World, w': World, plan: Plan) {
    && (plan.paths.app in w'.disk <==> plan.paths.app in w.disk)
    && (plan.paths.app in w.disk ==> w'.disk[plan.paths.app] == w.disk[plan.paths.app])
    && w'.records == w.records
  }

  predicate Succeeded(error: Option<UpgradeError>) {
    error == None || error == Some(CommitFailed([CleanUpOld]))
  }

  // What an upgrade leaves: success, or a failure to remove the backup afterwards, leaves
  // both stores new; every other failure leaves the records as they were, and the live path
  // too unless the rename that restores it failed.
  ghost predicate Atomic(w: World, w': World, error: Option<UpgradeError>, plan: Plan) {
    if Succeeded(error) then BothNew(w, w', plan)
    else
      && w'.records == w.records
      && ((error.value.CommitFailed? ==> Restored(error.value.problems, plan.paths.app in w.disk))
          ==> BothOld(w, w', plan))
  }

  lemma UpgradeIsAtomic(w: World, faults: Faults, plan: Plan)
    requires Apart(plan.paths) && !plan.dryRun
    ensures var (w', error) := RunStagedUpgrade(w, faults, plan);
            Atomic(w, w', error, plan) && w'.records - {plan.write.id} == w.records - {plan.write.id}
  {
    var (w0, refused) := PolicyCheck(w, faults, plan);
    if refused.None? {
      var (w', error) := StagedSwap(w0, faults, plan);
      SwapIsAtomic(w0, faults, plan);
      SameStart(w, w0, w', error, plan);
    }
  }

  // A step that changes neither store, first, makes no difference.
  lemma SameStart(w: World, w0: World, w': World, error: Option<UpgradeError>, plan: Plan)
    requires w0.disk == w.disk && w0.records == w.records && Atomic(w0, w', error, plan)
    ensures Atomic(w, w', error, plan) && w'.records - {plan.write.id} == w.records - {plan.write.id}
  {}

  lemma SwapIsAtomic(w: World, faults: Faults, plan: Plan)
    requires Apart(plan.paths) && !plan.dryRun
    ensures var (w', error) := StagedSwap(w, faults, plan); Atomic(w, w', error, plan)
  {
    var adopt := Trim(plan.adopt);
    var w1 := TryStep(w, faults).0;
    var (w2, error) := SwapBody(w1, faults, plan, adopt);
    BodyIsAtomic(w1, faults, plan, adopt);
    CleanupStaysAside(w2, faults, plan.paths.staged);
    if adopt != "" && TryStep(w, faults).1 {
      assert StagedSwap(w, faults, plan) == (RemoveAllStep(w2, faults, plan.paths.staged).0, error);
    }
  }

  // The deferred removal of the staging area.
  lemma CleanupStaysAside(w: World, faults: Faults, staged: Path)
    ensures var w' := RemoveAllStep(w, faults, staged).0;
            && Always(w, w', Unswapped(w.disk, w.records, staged))
            && w'.records == w.records && Elsewhere(w.disk, w'.disk, staged)
            && (forall k | |w.trace| <= k < |w'.trace| :: w'.trace[k].mark in {Failed, Removing, Removed})
  {}

  lemma BodyIsAtomic(w: World, faults: Faults, plan: Plan, adopt: Path)
    requires Apart(plan.paths) && !plan.dryRun
    ensures var (w', error) := SwapBody(w, faults, plan, adopt); Atomic(w, w', error, plan)
  {
    var (w1, error) := BeforeCommit(w, faults, plan, adopt);
    BeforeCommitStaysAside(w, faults, plan, adopt);
    if error.None? {
      var (w2, problems) := CommitSwap(w1, faults, plan.paths, FinalizeOf(plan), false);
      CommitIsAtomic(w1, faults, plan);
      StagedAside(w, w1, w2, if problems == [] then None else Some(CommitFailed(problems)), plan);
    }
  }

  lemma CommitIsAtomic(w: World, faults: Faults, plan: Plan)
    requires Apart(plan.paths) && TagLive(w.disk, plan.paths.staged, plan.tag)
    ensures var (w', problems) := CommitSwap(w, faults, plan.paths, FinalizeOf(plan), false);
            Atomic(w, w', if problems == [] then None else Some(CommitFailed(problems)), plan)
  {
    CommitOutcome(w, faults, plan.paths, FinalizeOf(plan), false);
    CommitProblems(w, faults, plan.paths, FinalizeOf(plan));
  }

  // What only staging has touched is as good a start.
  lemma StagedAside(w: World, w1: World, w2: World, error: Option<UpgradeError>, plan: Plan)
    requires Apart(plan.paths) && w1.records == w.records && Elsewhere(w.disk, w1.disk, plan.paths.staged)
    requires Atomic(w1, w2, error, plan)
    ensures Atomic(w, w2, error, plan)
  {}

  // A failure to clean up is reported alone.
  lemma CommitProblems(w: World, faults: Faults, p: Paths, verify: Verify)
    ensures var problems := CommitSwap(w, faults, p, verify, false).1;
            CleanUpOld in problems ==> problems == [CleanUpOld]
  {
    InstallProblems(w, faults, p, verify);
  }

  // A dry run changes neither store.
  lemma DryRunChangesNothing(w: World, faults: Faults, plan: Plan)
    requires Apart(plan.paths) && plan.dryRun
    ensures var (w', error) := RunStagedUpgrade(w, faults, plan);
            Elsewhere(w.disk, w'.disk, plan.paths.staged) && w'.records == w.records
  {
    if plan.policy.PolicyOther? {
      return;
    }
    var (w3, swapped) := StagedSwap(w, faults, plan);
    assert RunStagedUpgrade(w, faults, plan) == if swapped.Some? then (w3, swapped) else DryFinalize(w3, faults);
    var adopt := Trim(plan.adopt);
    var w1 := TryStep(w, faults).0;
    var (w2, error) := BeforeCommit(w1, faults, plan, adopt);
    BeforeCommitStaysAside(w1, faults, plan, adopt);
    CleanupStaysAside(w2, faults, plan.paths.staged);
    if adopt != "" && TryStep(w, faults).1 {
      assert StagedSwap(w, faults, plan).0 == RemoveAllStep(w2, faults, plan.paths.staged).0;
    }
  }

  // One state of an upgrade: the old record, or the new one with the new bundle live.
  ghost predicate Consistent(w: World, e: Entry, plan: Plan) {
    e.records == w.records
        || (e.records == w.records[plan.write.id := plan.write.record] && TagLive(e.disk, plan.paths.app, plan.tag))
  }

  // The check at this position passed, everything that stages is before it, every rename
  // that commits after it.
  ghost predicate RecheckAt(w: World, w': World, plan: Plan, check: nat) {
    && |w.trace| <= check < |w'.trace| && w'.trace[check].mark == PolicyPassed
    && (exists i :: |w.trace| <= i < check && w'.trace[i].mark == Copied)
    && (forall k | |w.trace| <= k < check :: !CommitRename(w'.trace[k].mark, plan.paths))
    && (forall k | |w.trace| <= k < check :: !FailedMark(w'.trace[k].mark))
    && (forall k | check < k < |w'.trace| ::
        !StagingMark(w'.trace[k].mark, plan.paths.staged))
  }

  ghost predicate NoCommitRename(w: World, w': World, plan: Plan) {
    forall k | |w.trace| <= k < |w'.trace| :: !CommitRename(w'.trace[k].mark, plan.paths)
  }

  // Wherever an upgrade stops, the new record is on file only with the new bundle live; and
  // bundles are renamed for the commit only after a policy check that passed when the copy
  // and the preparation of the new bundle were over.
  ghost predicate TraceOk(w: World, w': World, plan: Plan) {
    && Extends(w, w')
    && (forall k | |w.trace| <= k < |w'.trace| :: Consistent(w, w'.trace[k], plan))
    && (NoCommitRename(w, w', plan) || exists check :: RecheckAt(w, w', plan, check))
  }

  lemma BodyTrace(w: World, faults: Faults, plan: Plan, adopt: Path)
    requires Apart(plan.paths) && !plan.dryRun
    ensures TraceOk(w, SwapBody(w, faults, plan, adopt).0, plan)
  {
    var (w1, error) := BeforeCommit(w, faults, plan, adopt);
    BeforeCommitStaysAside(w, faults, plan, adopt);
    if error.None? {
      var w2 := CommitSwap(w1, faults, plan.paths, FinalizeOf(plan), false).0;
      CommitRecords(w1, faults, plan.paths, FinalizeOf(plan), plan.tag);
      BeforeCommitReports(w, faults, plan, adopt);
      CommitTrace(w, w1, w2, plan);
    }
  }

  lemma CommitTrace(w: World, w1: World, w2: World, plan: Plan)
    requires Always(w, w1, Unswapped(w.disk, w.records, plan.paths.staged)) && ReadyToCommit(w, w1, plan)
    requires NoneFailed(w, w1)
    requires Always(w1, w2, CommitEntry(plan.paths, plan.tag, w.records, w.records[plan.write.id := plan.write.record]))
    ensures TraceOk(w, w2, plan)
  {
    forall k | |w.trace| <= k < |w2.trace| ensures Consistent(w, w2.trace[k], plan) {
      assert k < |w1.trace| ==> w2.trace[k] == w1.trace[k];
    }
    var check := |w1.trace| - 1;
    var i :| |w.trace| <= i < check && w1.trace[i].mark == Copied;
    assert w2.trace[i] == w1.trace[i];
    forall k | |w.trace| <= k < check
      ensures !CommitRename(w2.trace[k].mark, plan.paths) && !FailedMark(w2.trace[k].mark)
    {
      assert w2.trace[k] == w1.trace[k];
    }
    assert RecheckAt(w, w2, plan, check);
  }

  lemma QuietThen(w: World, mark: Mark, w2: World, plan: Plan)
    requires mark == Tried || mark == PolicyPassed
    requires TraceOk(Log(w, mark, w.disk, w.records), w2, plan)
    ensures TraceOk(w, w2, plan)
  {
    var w1 := Log(w, mark, w.disk, w.records);
    assert w2.trace[|w.trace|] == w1.trace[|w.trace|];
    forall k | |w.trace| <= k < |w2.trace| ensures Consistent(w, w2.trace[k], plan) {
      assert k >= |w1.trace| ==> Consistent(w1, w2.trace[k], plan);
    }
    if !NoCommitRename(w1, w2, plan) {
      var check :| RecheckAt(w1, w2, plan, check);
      assert RecheckAt(w, w2, plan, check);
    }
  }

  lemma QuietTrace(w: World, mark: Mark, plan: Plan)
    requires mark == Tried || mark == Failed || mark == PolicyPassed
    ensures TraceOk(w, w, plan) && TraceOk(w, Log(w, mark, w.disk, w.records), plan)
  {
    assert NoCommitRename(w, w, plan) && NoCommitRename(w, Log(w, mark, w.disk, w.records), plan);
  }

  lemma ThenCleanup(w: World, w2: World, faults: Faults, plan: Plan)
    requires Apart(plan.paths) && TraceOk(w, w2, plan) && Consistent(w, Entry(Tried, w2.disk, w2.records), plan)
    ensures TraceOk(w, RemoveAllStep(w2, faults, plan.paths.staged).0, plan)
  {
    var w3 := RemoveAllStep(w2, faults, plan.paths.staged).0;
    CleanupStaysAside(w2, faults, plan.paths.staged);
    CleanupConsistent(w, w2, w3, plan);
    ThenNoneRenamed(w, w2, w3, plan);
  }

  // Steps that neither copy, edit nor rename, after the others.
  lemma ThenNoneRenamed(w: World, w2: World, w3: World, plan: Plan)
    requires TraceOk(w, w2, plan) && Extends(w2, w3)
    requires forall k | |w2.trace| <= k < |w3.trace| ::
               w3.trace[k].mark in {Failed, Removing, Removed}
    requires forall k | |w.trace| <= k < |w3.trace| :: Consistent(w, w3.trace[k], plan)
    ensures TraceOk(w, w3, plan)
  {
    if NoCommitRename(w, w2, plan) {
      forall k | |w.trace| <= k < |w3.trace| ensures !CommitRename(w3.trace[k].mark, plan.paths) {
        assert k < |w2.trace| ==> w3.trace[k] == w2.trace[k];
      }
    } else {
      var check :| RecheckAt(w, w2, plan, check);
      RecheckKept(w, w2, w3, plan, check);
    }
  }

  lemma CleanupConsistent(w: World, w2: World, w3: World, plan: Plan)
    requires Apart(plan.paths) && TraceOk(w, w2, plan) && Consistent(w, Entry(Tried, w2.disk, w2.records), plan)
    requires Always(w2, w3, Unswapped(w2.disk, w2.records, plan.paths.staged))
    ensures forall k | |w.trace| <= k < |w3.trace| :: Consistent(w, w3.trace[k], plan)
  {
    forall k | |w.trace| <= k < |w3.trace| ensures Consistent(w, w3.trace[k], plan) {
      if k < |w2.trace| {
        assert w3.trace[k] == w2.trace[k];
      } else {
        assert Unswapped(w2.disk, w2.records, plan.paths.staged)(w3.trace[k]);
      }
    }
  }

  lemma RecheckKept(w: World, w2: World, w3: World, plan: Plan, check: nat)
    requires RecheckAt(w, w2, plan, check) && w2.trace <= w3.trace
    requires forall k | |w2.trace| <= k < |w3.trace| :: !StagingMark(w3.trace[k].mark, plan.paths.staged)
    ensures RecheckAt(w, w3, plan, check)
  {
    assert forall k | 0 <= k < |w2.trace| :: w3.trace[k] == w2.trace[k];
  }

  lemma SwapTrace(w: World, faults: Faults, plan: Plan)
    requires Apart(plan.paths) && !plan.dryRun
    ensures TraceOk(w, StagedSwap(w, faults, plan).0, plan)
  {
    var adopt := Trim(plan.adopt);
    QuietTrace(w, Failed, plan);
    if adopt != "" {
      var (w1, compared) := TryStep(w, faults);
      if compared {
        var w2 := SwapBody(w1, faults, plan, adopt).0;
        BodyTrace(w1, faults, plan, adopt);
        BodyIsAtomic(w1, faults, plan, adopt);
        ThenCleanup(w1, w2, faults, plan);
        QuietThen(w, Tried, RemoveAllStep(w2, faults, plan.paths.staged).0, plan);
      }
    }
  }

  lemma UpgradeTrace(w: World, faults: Faults, plan: Plan)
    requires Apart(plan.paths) && !plan.dryRun
    ensures TraceOk(w, RunStagedUpgrade(w, faults, plan).0, plan)
  {
    var (w0, refused) := PolicyCheck(w, faults, plan);
    if refused.Some? {
      QuietTrace(w, Failed, plan);
    } else {
      SwapTrace(w0, faults, plan);
      QuietThen(w, PolicyPassed, StagedSwap(w0, faults, plan).0, plan);
    }
  }
}

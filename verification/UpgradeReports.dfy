// What a staged upgrade reports is true, and without faults it succeeds with both stores new.

module UpgradeReports {
  import opened Text
  import opened FileWorld
  import opened BundleSwap
  import opened SwapSafety
  import opened StagedUpgrade
  import opened SwapReports
  import opened UpgradeAtomicity

  // What an upgrade needs of its caller and of what it finds: a policy it knows, a bundle to
  // adopt, no backup without a live bundle, and a record that may go on file.
  ghost predicate Upgradable(disk: Disk, records: Records, plan: Plan) {
    && !plan.policy.PolicyOther?
    && Trim(plan.adopt) != "" && Adoptable(disk, Trim(plan.adopt))
    && Committable(disk, records, plan)
  }

  predicate Adoptable(disk: Disk, adopt: Path) {
    adopt in disk && disk[adopt].Bundle?
  }

  ghost predicate Committable(disk: Disk, records: Records, plan: Plan) {
    !LoneBackup(disk, plan.paths) && RecordAccepted(records, FinalizeOf(plan))
  }

  lemma BodyReports(w: World, faults: Faults, plan: Plan, adopt: Path)
    requires Apart(plan.paths) && !plan.dryRun
    ensures var (w', error) := SwapBody(w, faults, plan, adopt);
            var could := !plan.policy.PolicyOther? && Adoptable(w.disk, adopt) && Committable(w.disk, w.records, plan);
            && Extends(w, w')
            && (error.None? <==> NoneFailed(w, w') && could)
            && (Quiet(faults) && could ==> error.None?)
  {
    var (w1, error) := BeforeCommit(w, faults, plan, adopt);
    var w' := SwapBody(w, faults, plan, adopt).0;
    BeforeCommitReports(w, faults, plan, adopt);
    BeforeCommitStaysAside(w, faults, plan, adopt);
    if error.None? {
      CommitReports(w1, faults, plan.paths, FinalizeOf(plan));
      NoneFailedTrans(w, w1, w');
      StagedForCommit(w1, faults, plan);
    }
  }

  lemma StagedForCommit(w: World, faults: Faults, plan: Plan)
    requires Apart(plan.paths) && TagLive(w.disk, plan.paths.staged, plan.tag)
    ensures Quiet(faults) && Committable(w.disk, w.records, plan)
            ==> CommitSwap(w, faults, plan.paths, FinalizeOf(plan), false).1 == []
  {
    if Quiet(faults) {
      QuietCommitSucceedsIff(w, faults, plan.paths, FinalizeOf(plan));
    }
  }

  // No step failed but perhaps the last, the removal of the staging area, whose failure is
  // only logged.
  ghost predicate FailedAtMostLast(w: World, w': World) {
    forall k | |w.trace| <= k < |w'.trace| - 1 :: !FailedMark(w'.trace[k].mark)
  }

  lemma ThenRemoved(w: World, w1: World, faults: Faults, path: Path)
    requires Extends(w, w1)
    ensures var w' := RemoveAllStep(w1, faults, path).0;
            && Extends(w, w')
            && (NoneFailed(w, w1) ==> FailedAtMostLast(w, w'))
            && (NoneFailed(w, w') ==> NoneFailed(w, w1))
  {
    var (w', ok) := RemoveAllStep(w1, faults, path);
    RemoveReports(w1, faults, path);
    ExtendsTrans(w, w1, w');
    NoneFailedTrans(w, w1, w');
    if NoneFailed(w, w1) {
      forall k | |w.trace| <= k < |w'.trace| - 1 ensures !FailedMark(w'.trace[k].mark) {
        assert k < |w1.trace| ==> w'.trace[k] == w1.trace[k];
      }
    }
  }

  lemma QuietStart(w: World, w1: World, w': World)
    requires Extends(w, w1) && Extends(w1, w') && NoneFailed(w, w1)
    ensures Extends(w, w') && (NoneFailed(w, w') <==> NoneFailed(w1, w'))
    ensures FailedAtMostLast(w1, w') ==> FailedAtMostLast(w, w')
  {
    ExtendsTrans(w, w1, w');
    NoneFailedTrans(w, w1, w');
    if FailedAtMostLast(w1, w') {
      forall k | |w.trace| <= k < |w'.trace| - 1 ensures !FailedMark(w'.trace[k].mark) {
        assert k < |w1.trace| ==> w'.trace[k] == w1.trace[k];
      }
    }
  }

  // What the report of a run from w to w' must be.
  ghost predicate Truthful(w: World, w': World, failed: bool, could: bool, faults: Faults) {
    && Extends(w, w')
    && (!failed ==> could && FailedAtMostLast(w, w'))
    && (NoneFailed(w, w') && could ==> !failed)
    && (Quiet(faults) && could ==> !failed)
  }

  lemma SwapIsTruthful(w: World, faults: Faults, plan: Plan)
    requires Apart(plan.paths) && !plan.dryRun && !plan.policy.PolicyOther?
    ensures var (w', error) := StagedSwap(w, faults, plan);
            Truthful(w, w', error.Some?, Upgradable(w.disk, w.records, plan), faults)
  {
    var adopt := Trim(plan.adopt);
    var (w1, compared) := TryStep(w, faults);
    TryReports(w, faults);
    if adopt != "" && compared {
      var w2 := SwapBody(w1, faults, plan, adopt).0;
      BodyReports(w1, faults, plan, adopt);
      ThenRemoved(w1, w2, faults, plan.paths.staged);
      QuietStart(w, w1, RemoveAllStep(w2, faults, plan.paths.staged).0);
    }
  }

  // A staged upgrade that reports success found all it needs, and no step of it failed but at
  // most the last, the removal of the staging area; if it found all and no step failed it
  // reports success; and if nothing fails by itself it succeeds, with both stores new.
  lemma UpgradeIsTruthful(w: World, faults: Faults, plan: Plan)
    requires Apart(plan.paths) && !plan.dryRun
    ensures var (w', error) := RunStagedUpgrade(w, faults, plan);
            && Truthful(w, w', error.Some?, Upgradable(w.disk, w.records, plan), faults)
            && (error.None? ==> BothNew(w, w', plan))
  {
    var (w1, refused) := PolicyCheck(w, faults, plan);
    CheckReports(w, faults, plan);
    UpgradeIsAtomic(w, faults, plan);
    if refused.None? {
      SwapIsTruthful(w1, faults, plan);
      QuietStart(w, w1, StagedSwap(w1, faults, plan).0);
    }
  }

  // At some path is what was adopted, under the plan's tag.
  predicate Adopted(w: World, disk: Disk, plan: Plan, adopt: Path, path: Path) {
    Adoptable(w.disk, adopt) && path in disk && disk[path] == Bundle(plan.tag, w.disk[adopt].content)
  }

  // Without edits the bundle that a success leaves live is the adopted one.
  lemma AdoptedIsLive(w: World, faults: Faults, plan: Plan)
    requires Apart(plan.paths) && !plan.dryRun && plan.prepareEdits == 0 && plan.finalizeEdits == 0
    ensures var (w', error) := RunStagedUpgrade(w, faults, plan);
            error.None? ==> Adopted(w, w'.disk, plan, Trim(plan.adopt), plan.paths.app)
  {
    var (w1, refused) := PolicyCheck(w, faults, plan);
    if refused.None? && Trim(plan.adopt) != "" && TryStep(w1, faults).1 {
      var w2 := TryStep(w1, faults).0;
      BodyAdopts(w2, faults, plan, Trim(plan.adopt));
    }
  }

  lemma BodyAdopts(w: World, faults: Faults, plan: Plan, adopt: Path)
    requires Apart(plan.paths) && !plan.dryRun && plan.prepareEdits == 0 && plan.finalizeEdits == 0
    ensures var (w', error) := SwapBody(w, faults, plan, adopt);
            error.None? ==> Adopted(w, w'.disk, plan, adopt, plan.paths.app)
  {
    var (w1, error) := BeforeCommit(w, faults, plan, adopt);
    StageCopies(w, faults, plan, adopt);
    if error.None? {
      CommitOutcome(w1, faults, plan.paths, FinalizeOf(plan), false);
    }
  }

  lemma StageCopies(w: World, faults: Faults, plan: Plan, adopt: Path)
    requires !plan.dryRun && plan.prepareEdits == 0
    ensures var (w', error) := BeforeCommit(w, faults, plan, adopt);
            && (error.None? ==> Adopted(w, w'.disk, plan, adopt, plan.paths.staged))
            && (error.None? ==> forall q | q != plan.paths.staged :: q in w'.disk <==> q in w.disk)
  {
    var w1 := TryStep(w, faults).0;
    CopyReports(w1, faults, adopt, plan.paths.staged, plan.tag);
  }

  // A dry run reports success exactly when the policy is known, there is a path to adopt, and
  // the device comparison and the finalization, its first and last steps, do not fail.
  lemma DryRunReports(w: World, faults: Faults, plan: Plan)
    requires plan.dryRun
    ensures var (w', error) := RunStagedUpgrade(w, faults, plan);
            && (error.None? ==>
                  && !plan.policy.PolicyOther? && Trim(plan.adopt) != ""
                  && |w'.trace| > |w.trace| + 1
                  && w'.trace[|w.trace|].mark == Tried && w'.trace[|w'.trace| - 1].mark == Tried)
            && (Quiet(faults) ==> (error.None? <==> !plan.policy.PolicyOther? && Trim(plan.adopt) != ""))
  {
    if !plan.policy.PolicyOther? {
      var adopt := Trim(plan.adopt);
      var (w1, compared) := TryStep(w, faults);
      if adopt != "" && compared {
        DryBody(w1, faults, plan, adopt);
        RemoveReports(w1, faults, plan.paths.staged);
      }
    }
  }

  lemma DryBody(w: World, faults: Faults, plan: Plan, adopt: Path)
    requires plan.dryRun && !plan.policy.PolicyOther?
    ensures SwapBody(w, faults, plan, adopt) == (w, None)
  {
    assert EditsStep(w, faults, plan.paths.staged, 0) == (w, true);
  }
}

// A staged upgrade from policy check to patch record (internal/upgrade/upgrade.go:274-328,
// internal/bundlemutate/bundlemutate.go:76-158, internal/patch/patch_staged.go): the bundle
// and the state file change together or not at all.

module StagedUpgrade {
  import opened Text
  import opened FileWorld
  import opened BundleSwap

  datatype Policy = PolicyDefer | PolicyClose | PolicyOther(code: int)

  datatype UpgradeError =
    | UnknownPolicy | AppRunning | CloseFailed
    | AdoptPathMissing | DeviceCompareFailed | StageFailed | PrepareFailed
    | CommitFailed(problems: Problems)
    | FinalizeFailed

  // One upgrade: where the extracted bundle is, how many edits preparing the staged copy
  // and finalizing the live bundle take, and the record the finalization writes.
  datatype Plan = Plan(paths: Paths, adopt: Path, tag: nat, policy: Policy, dryRun: bool,
                       prepareEdits: nat, finalizeEdits: nat, write: RecordWrite)

  function FinalizeOf(plan: Plan): Verify {
    Verify(plan.finalizeEdits, Some(plan.write))
  }

  // Mutate's check before it calls back.
  function PolicyCheck(w: World, faults: Faults, plan: Plan): (World, Option<UpgradeError>) {
    if plan.policy.PolicyOther? then (w, Some(UnknownPolicy))
    else if plan.dryRun then (w, None)
    else
      var (w1, passed) := PolicyStep(w, faults);
      (w1, if passed then None else if plan.policy == PolicyDefer then Some(AppRunning) else Some(CloseFailed))
  }

  function StageBundle(w: World, faults: Faults, plan: Plan, adopt: Path): (World, bool) {
    if plan.dryRun then (w, true)
    else
      var (w1, made) := TryStep(w, faults);
      if !made then (w1, false) else CopyStep(w1, faults, adopt, plan.paths.staged, plan.tag)
  }

  // Staging, preparing and re-checking: all that comes before the commit.
  function BeforeCommit(w: World, faults: Faults, plan: Plan, adopt: Path): (World, Option<UpgradeError>) {
    var (w1, staged) := StageBundle(w, faults, plan, adopt);
    if !staged then (w1, Some(StageFailed))
    else
      var (w2, prepared) := EditsStep(w1, faults, plan.paths.staged, if plan.dryRun then 0 else plan.prepareEdits);
      if !prepared then (w2, Some(PrepareFailed)) else PolicyCheck(w2, faults, plan)
  }

  function SwapBody(w: World, faults: Faults, plan: Plan, adopt: Path): (World, Option<UpgradeError>) {
    var (w1, error) := BeforeCommit(w, faults, plan, adopt);
    if error.Some? then (w1, error)
    else
      var (w2, problems) := CommitSwap(w1, faults, plan.paths, FinalizeOf(plan), plan.dryRun);
      (w2, if problems == [] then None else Some(CommitFailed(problems)))
  }

  function StagedSwap(w: World, faults: Faults, plan: Plan): (World, Option<UpgradeError>) {
    if Trim(plan.adopt) == "" then (w, Some(AdoptPathMissing))
    else
      var (w1, compared) := TryStep(w, faults);
      if !compared then (w1, Some(DeviceCompareFailed))
      else
        var (w2, error) := SwapBody(w1, faults, plan, Trim(plan.adopt));
        // The deferred cleanupStagingRoot, whose failure is only logged.
        (RemoveAllStep(w2, faults, plan.paths.staged).0, error)
  }

  // A dry run ends with the finalization that a real run makes of the live bundle before it
  // commits. In a dry run it may fail, and changes nothing.
  function DryFinalize(w: World, faults: Faults): (World, Option<UpgradeError>) {
    var (w1, ok) := TryStep(w, faults);
    (w1, if ok then None else Some(FinalizeFailed))
  }

  function RunStagedUpgrade(w: World, faults: Faults, plan: Plan): (World, Option<UpgradeError>) {
    var (w1, refused) := PolicyCheck(w, faults, plan);
    if refused.Some? then (w1, refused)
    else
      var (w2, error) := StagedSwap(w1, faults, plan);
      if error.Some? || !plan.dryRun then (w2, error) else DryFinalize(w2, faults)
  }

  class Upgrader {
    const fs: FileSystem
    const swapper: Swapper

    constructor (swapper: Swapper)
      ensures this.swapper == swapper && this.fs == swapper.fs
    {
      this.swapper, this.fs := swapper, swapper.fs;
    }

    method Mutate(plan: Plan) returns (error: Option<UpgradeError>)
      modifies fs
      ensures (fs.world, error) == PolicyCheck(old(fs.world), fs.faults, plan)
      ensures plan.policy.PolicyOther? <==> error == Some(UnknownPolicy)
      ensures error.Some? && !plan.policy.PolicyOther? ==>
                && !plan.dryRun && !NoneFailed(old(fs.world), fs.world)
                && error == Some(if plan.policy == PolicyDefer then AppRunning else CloseFailed)
      ensures error.None? && !plan.dryRun ==>
                |fs.world.trace| == |old(fs.world).trace| + 1
                && fs.world.trace[|fs.world.trace| - 1].mark == PolicyPassed
    {
      if plan.policy.PolicyOther? {
        return Some(UnknownPolicy);
      }
      if !plan.dryRun {
        PolicyReports(fs.world, fs.faults);
        var passed := fs.CheckPolicy();
        if !passed {
          return if plan.policy == PolicyDefer then Some(AppRunning) else Some(CloseFailed);
        }
      }
      return None;
    }

    method Stage(plan: Plan, adopt: Path) returns (ok: bool)
      modifies fs
      ensures (fs.world, ok) == StageBundle(old(fs.world), fs.faults, plan, adopt)
    {
      if plan.dryRun {
        return true;
      }
      ok := fs.Try();
      if ok {
        ok := fs.Copy(adopt, plan.paths.staged, plan.tag);
      }
    }

    method Prepare(plan: Plan) returns (ok: bool)
      modifies fs
      ensures (fs.world, ok)
              == EditsStep(old(fs.world), fs.faults, plan.paths.staged, if plan.dryRun then 0 else plan.prepareEdits)
    {
      if plan.dryRun {
        return true;
      }
      ok := true;
      var n: nat := plan.prepareEdits;
      while n > 0
        invariant ok
        invariant EditsStep(fs.world, fs.faults, plan.paths.staged, n)
                  == EditsStep(old(fs.world), fs.faults, plan.paths.staged, plan.prepareEdits)
      {
        ok := fs.Edit(plan.paths.staged);
        if !ok {
          return;
        }
        n := n - 1;
      }
    }

    method Swap(plan: Plan) returns (error: Option<UpgradeError>)
      requires swapper.fs == fs
      modifies fs
      ensures (fs.world, error) == StagedSwap(old(fs.world), fs.faults, plan)
    {
      var adopt := Trim(plan.adopt);
      if adopt == "" {
        return Some(AdoptPathMissing);
      }
      var compared := fs.Try();
      if !compared {
        return Some(DeviceCompareFailed);
      }
      error := SwapStaged(plan, adopt);
      var _ := fs.RemoveAll(plan.paths.staged);
    }

    method SwapStaged(plan: Plan, adopt: Path) returns (error: Option<UpgradeError>)
      requires swapper.fs == fs
      modifies fs
      ensures (fs.world, error) == SwapBody(old(fs.world), fs.faults, plan, adopt)
    {
      var staged := Stage(plan, adopt);
      if !staged {
        return Some(StageFailed);
      }
      var prepared := Prepare(plan);
      if !prepared {
        return Some(PrepareFailed);
      }
      error := Mutate(plan);
      if error.Some? {
        return;
      }
      var problems := swapper.Commit(plan.paths, FinalizeOf(plan), plan.dryRun);
      return if problems == [] then None else Some(CommitFailed(problems));
    }

    method Run(plan: Plan) returns (error: Option<UpgradeError>)
      requires swapper.fs == fs
      modifies fs
      ensures (fs.world, error) == RunStagedUpgrade(old(fs.world), fs.faults, plan)
    {
      error := Mutate(plan);
      if error.None? {
        error := Swap(plan);
        if error.None? && plan.dryRun {
          var ok := fs.Try();
          if !ok {
            return Some(FinalizeFailed);
          }
        }
      }
    }
  }
}

// Committing a staged bundle over the live one (internal/bundlemutate/bundlemutate.go): the
// operations as functions from world to world, and the code as methods that compute them.

module BundleSwap {
  import opened Text
  import opened FileWorld
  import StateStore

  // The live bundle's path, its ".dvc-old" neighbour, and where the new bundle is staged.
  datatype Paths = Paths(app: Path, backup: Path, staged: Path)

  predicate Apart(p: Paths) {
    p.app != p.backup && p.app != p.staged && p.backup != p.staged
  }

  // What an error return is made of. The code joins several into one error.
  datatype Problem =
    | StatStaleOld | StaleOldWithoutLive | StatLive | RemoveStaleOld
    | StatBeforeSave | SaveOld
    | InstallStaged | RestoreAfterInstall
    | VerifyFailed | RecreateStagedParent | RollBackStaged | StatFailedLive | RemoveFailedLive | RestoreLive
    | CleanUpOld

  type Problems = seq<Problem>

  // The verify callback: edits of the live bundle (hooks, seal, checks), any of which may
  // fail, then possibly the write of the target's patch record, last.
  datatype Verify = NoVerify | Verify(edits: nat, record: Option<RecordWrite>)

  datatype RecordWrite = RecordWrite(id: string, record: Record, localTeam: string)

  function EditsStep(w: World, faults: Faults, path: Path, n: nat): (World, bool)
    decreases n
  {
    if n == 0 then (w, true)
    else
      var step := EditStep(w, faults, path);
      if step.1 then EditsStep(step.0, faults, path, n - 1) else step
  }

  function VerifyStep(w: World, faults: Faults, path: Path, verify: Verify): (World, bool) {
    match verify
    case NoVerify => (w, true)
    case Verify(edits, record) =>
      var edited := EditsStep(w, faults, path, edits);
      if !edited.1 || record.None? then edited
      else
        var write := record.value;
        StateStore.UpdateStep(edited.0, faults, write.id, StateStore.Put(write.record), write.localTeam)
  }

  function PrepareOldPath(w: World, faults: Faults, p: Paths): (World, Problems) {
    var (w1, stale) := LstatStep(w, faults, p.backup);
    match stale
    case Missing => (w1, [])
    case Unknown => (w1, [StatStaleOld])
    case Exists =>
      var (w2, live) := LstatStep(w1, faults, p.app);
      match live
      case Missing => (w2, [StaleOldWithoutLive])
      case Unknown => (w2, [StatLive])
      case Exists =>
        var (w3, ok) := RemoveAllStep(w2, faults, p.backup);
        (w3, if ok then [] else [RemoveStaleOld])
  }

  // renameIfExists: whether there was something to rename, and what went wrong.
  function SaveLive(w: World, faults: Faults, p: Paths): (World, bool, Problems) {
    var (w1, live) := LstatStep(w, faults, p.app);
    match live
    case Missing => (w1, false, [])
    case Unknown => (w1, false, [StatBeforeSave])
    case Exists =>
      var (w2, ok) := RenameStep(w1, faults, p.app, p.backup);
      (w2, ok, if ok then [] else [SaveOld])
  }

  function RestoreAfterInstallFailure(w: World, faults: Faults, p: Paths, hadLive: bool): (World, Problems) {
    if !hadLive then (w, [InstallStaged])
    else
      var (w1, ok) := RenameStep(w, faults, p.backup, p.app);
      (w1, if ok then [InstallStaged] else [InstallStaged, RestoreAfterInstall])
  }

  function RestoreLiveAfterRollback(w: World, faults: Faults, p: Paths): (World, Problems) {
    var (w1, live) := LstatStep(w, faults, p.app);
    var (w2, cleared) := if live == Exists then RemoveAllStep(w1, faults, p.app) else (w1, true);
    var (w3, ok) := RenameStep(w2, faults, p.backup, p.app);
    (w3, (if live == Unknown then [StatFailedLive] else if cleared then [] else [RemoveFailedLive])
         + if ok then [] else [RestoreLive])
  }

  function RollbackCommit(w: World, faults: Faults, p: Paths, hadLive: bool): (World, Problems) {
    var (w1, made) := TryStep(w, faults);
    var (w2, moved) := RenameStep(w1, faults, p.app, p.staged);
    var problems := [VerifyFailed]
                    + (if made then [] else [RecreateStagedParent])
                    + (if moved then [] else [RollBackStaged]);
    if !hadLive then (w2, problems)
    else
      var (w3, more) := RestoreLiveAfterRollback(w2, faults, p);
      (w3, problems + more)
  }

  function FinishCommit(w: World, faults: Faults, p: Paths, hadLive: bool): (World, Problems) {
    if !hadLive then (w, [])
    else
      var (w1, ok) := RemoveAllStep(w, faults, p.backup);
      (w1, if ok then [] else [CleanUpOld])
  }

  // The part of the commit that runs once the live bundle, if any, has been set aside.
  function InstallAside(w: World, faults: Faults, p: Paths, verify: Verify, hadLive: bool): (World, Problems) {
    var (w1, installed) := RenameStep(w, faults, p.staged, p.app);
    if !installed then RestoreAfterInstallFailure(w1, faults, p, hadLive)
    else
      var (w2, verified) := VerifyStep(w1, faults, p.app, verify);
      if verified then (w2, []) else RollbackCommit(w2, faults, p, hadLive)
  }

  // CommitSwap up to the point where the new bundle is installed and verified, or to its
  // error return: the world, whether there was a live bundle, and the problems.
  function Install(w: World, faults: Faults, p: Paths, verify: Verify): (World, bool, Problems) {
    var (w1, stale) := PrepareOldPath(w, faults, p);
    if stale != [] then (w1, false, stale)
    else
      var (w2, hadLive, unsaved) := SaveLive(w1, faults, p);
      if unsaved != [] then (w2, false, unsaved)
      else
        var (w3, problems) := InstallAside(w2, faults, p, verify, hadLive);
        (w3, hadLive, problems)
  }

  function CommitSwap(w: World, faults: Faults, p: Paths, verify: Verify, dryRun: bool): (World, Problems) {
    if dryRun then (w, [])
    else
      var (w1, hadLive, problems) := Install(w, faults, p, verify);
      if problems != [] then (w1, problems) else FinishCommit(w1, faults, p, hadLive)
  }

  // The code itself. Each method runs its statements against the file system and computes
  // the function above it.
  class Swapper {
    const fs: FileSystem

    constructor (fs: FileSystem)
      ensures this.fs == fs
    {
      this.fs := fs;
    }

    method RunVerify(path: Path, verify: Verify) returns (ok: bool)
      modifies fs
      ensures (fs.world, ok) == VerifyStep(old(fs.world), fs.faults, path, verify)
    {
      if verify.NoVerify? {
        return true;
      }
      var n: nat := verify.edits;
      while n > 0
        invariant EditsStep(fs.world, fs.faults, path, n) == EditsStep(old(fs.world), fs.faults, path, verify.edits)
      {
        ok := fs.Edit(path);
        if !ok {
          return;
        }
        n := n - 1;
      }
      if verify.record.None? {
        return true;
      }
      var write := verify.record.value;
      ok := StateStore.Update(fs, write.id, StateStore.Put(write.record), write.localTeam);
    }

    method PrepareOld(p: Paths) returns (problems: Problems)
      modifies fs
      ensures (fs.world, problems) == PrepareOldPath(old(fs.world), fs.faults, p)
    {
      var stale := fs.Lstat(p.backup);
      if stale != Exists {
        return if stale == Missing then [] else [StatStaleOld];
      }
      var live := fs.Lstat(p.app);
      if live != Exists {
        return if live == Missing then [StaleOldWithoutLive] else [StatLive];
      }
      var ok := fs.RemoveAll(p.backup);
      return if ok then [] else [RemoveStaleOld];
    }

    method RenameIfExists(p: Paths) returns (hadLive: bool, problems: Problems)
      modifies fs
      ensures (fs.world, hadLive, problems) == SaveLive(old(fs.world), fs.faults, p)
    {
      var live := fs.Lstat(p.app);
      if live != Exists {
        return false, if live == Missing then [] else [StatBeforeSave];
      }
      var ok := fs.Rename(p.app, p.backup);
      return ok, if ok then [] else [SaveOld];
    }

    method RestoreInstall(p: Paths, hadLive: bool) returns (problems: Problems)
      modifies fs
      ensures (fs.world, problems) == RestoreAfterInstallFailure(old(fs.world), fs.faults, p, hadLive)
    {
      if !hadLive {
        return [InstallStaged];
      }
      var ok := fs.Rename(p.backup, p.app);
      return if ok then [InstallStaged] else [InstallStaged, RestoreAfterInstall];
    }

    method RestoreRollback(p: Paths) returns (problems: Problems)
      modifies fs
      ensures (fs.world, problems) == RestoreLiveAfterRollback(old(fs.world), fs.faults, p)
    {
      problems := [];
      var live := fs.Lstat(p.app);
      if live == Exists {
        var cleared := fs.RemoveAll(p.app);
        if !cleared {
          problems := problems + [RemoveFailedLive];
        }
      } else if live == Unknown {
        problems := problems + [StatFailedLive];
      }
      var ok := fs.Rename(p.backup, p.app);
      if !ok {
        problems := problems + [RestoreLive];
      }
      assert problems == RestoreLiveAfterRollback(old(fs.world), fs.faults, p).1;
    }

    method Rollback(p: Paths, hadLive: bool) returns (problems: Problems)
      modifies fs
      ensures (fs.world, problems) == RollbackCommit(old(fs.world), fs.faults, p, hadLive)
    {
      problems := [VerifyFailed];
      var made := fs.Try();
      if !made {
        problems := problems + [RecreateStagedParent];
      }
      var moved := fs.Rename(p.app, p.staged);
      if !moved {
        problems := problems + [RollBackStaged];
      }
      if hadLive {
        var more := RestoreRollback(p);
        problems := problems + more;
      }
      assert problems == RollbackCommit(old(fs.world), fs.faults, p, hadLive).1;
    }

    method Commit(p: Paths, verify: Verify, dryRun: bool) returns (problems: Problems)
      modifies fs
      ensures (fs.world, problems) == CommitSwap(old(fs.world), fs.faults, p, verify, dryRun)
    {
      if dryRun {
        return [];
      }
      problems := PrepareOld(p);
      if problems != [] {
        return;
      }
      var hadLive;
      hadLive, problems := RenameIfExists(p);
      if problems != [] {
        return;
      }
      var installed := fs.Rename(p.staged, p.app);
      if !installed {
        problems := RestoreInstall(p, hadLive);
        return;
      }
      var verified := RunVerify(p.app, verify);
      if !verified {
        problems := Rollback(p, hadLive);
        return;
      }
      if hadLive {
        var ok := fs.RemoveAll(p.backup);
        return if ok then [] else [CleanUpOld];
      }
    }
  }
}

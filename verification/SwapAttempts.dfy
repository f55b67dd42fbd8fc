// Commit after commit, each of them cut off wherever the process happens to stop.

module SwapAttempts {
  import opened Text
  import opened FileWorld
  import opened BundleSwap
  import opened SwapSafety

  // One attempt: what is staged for it, its faults, its verify callback, and the trace
  // entry after which the process stops (past the end: it does not).
  datatype Attempt = Attempt(tag: nat, content: nat, faults: Faults, verify: Verify, cut: nat)

  function Begin(disk: Disk, records: Records, p: Paths, a: Attempt): World {
    World(disk[p.staged := Bundle(a.tag, a.content)], records, [])
  }

  function Run(disk: Disk, records: Records, p: Paths, a: Attempt): World {
    CommitSwap(Begin(disk, records, p, a), a.faults, p, a.verify, false).0
  }

  function StopIn(w: World, cut: nat): (Disk, Records) {
    if cut < |w.trace| then (w.trace[cut].disk, w.trace[cut].records) else (w.disk, w.records)
  }

  function Stopped(disk: Disk, records: Records, p: Paths, a: Attempt): (Disk, Records) {
    StopIn(Run(disk, records, p, a), a.cut)
  }

  function After(disk: Disk, records: Records, p: Paths, attempts: seq<Attempt>): (Disk, Records) {
    if attempts == [] then (disk, records)
    else
      var before := After(disk, records, p, attempts[..|attempts| - 1]);
      Stopped(before.0, before.1, p, attempts[|attempts| - 1])
  }

  // Something is at the live path or at the backup path.
  predicate SomeNode(disk: Disk, p: Paths) {
    p.app in disk || p.backup in disk
  }

  // An intact bundle is at the live path or at the backup path.
  predicate SomeBundle(disk: Disk, p: Paths) {
    (p.app in disk && disk[p.app].Bundle?) || (p.backup in disk && disk[p.backup].Bundle?)
  }

  function NodeKept(p: Paths): Entry -> bool {
    (e: Entry) => SomeNode(e.disk, p)
  }

  function BundleKept(p: Paths): Entry -> bool {
    (e: Entry) => SomeBundle(e.disk, p)
  }

  // Removing the backup after a success never touches the live path.
  lemma FinishKeeps(w: World, faults: Faults, p: Paths, hadLive: bool)
    requires Apart(p) && p.app in w.disk
    ensures var w' := FinishCommit(w, faults, p, hadLive).0;
            && Extends(w, w') && p.app in w'.disk && w'.disk[p.app] == w.disk[p.app]
            && (forall k | |w.trace| <= k < |w'.trace| ::
                p.app in w'.trace[k].disk && w'.trace[k].disk[p.app] == w.disk[p.app])
  {}

  // A commit that finds no live bundle but a backup stops with everything as it was.
  lemma RefusalChangesNothing(w: World, faults: Faults, p: Paths, verify: Verify)
    requires Apart(p) && p.app !in w.disk && p.backup in w.disk
    ensures var (w', problems) := CommitSwap(w, faults, p, verify, false);
            && Extends(w, w') && problems != [] && w'.disk == w.disk && w'.records == w.records
            && (forall k | |w.trace| <= k < |w'.trace| ::
                w'.trace[k].disk == w.disk && w'.trace[k].records == w.records)
  {}

  // No attempt, however it is cut off, leaves both paths empty.
  lemma CommitKeepsNode(w: World, faults: Faults, p: Paths, verify: Verify)
    requires Apart(p) && SomeNode(w.disk, p)
    ensures var w' := CommitSwap(w, faults, p, verify, false).0;
            Always(w, w', NodeKept(p)) && SomeNode(w'.disk, p)
  {
    if p.app in w.disk {
      var (w1, hadLive, problems) := Install(w, faults, p, verify);
      LiveBundleSurvives(w, faults, p, verify);
      AlwaysWeaker(w, w1, Holds(p, w.disk[p.app]), NodeKept(p));
      if problems == [] {
        FinishKeeps(w1, faults, p, hadLive);
        AlwaysTrans(w, w1, FinishCommit(w1, faults, p, hadLive).0, NodeKept(p));
      }
    } else {
      RefusalChangesNothing(w, faults, p, verify);
    }
  }

  lemma {:induction false} AttemptsKeepNode(disk: Disk, records: Records, p: Paths, attempts: seq<Attempt>)
    requires Apart(p) && SomeNode(disk, p)
    ensures SomeNode(After(disk, records, p, attempts).0, p)
    ensures attempts != [] ==>
              var (before, recordsBefore) := After(disk, records, p, attempts[..|attempts| - 1]);
              forall e | e in Run(before, recordsBefore, p, attempts[|attempts| - 1]).trace :: SomeNode(e.disk, p)
  {
    if attempts != [] {
      var front, a := attempts[..|attempts| - 1], attempts[|attempts| - 1];
      AttemptsKeepNode(disk, records, p, front);
      var (before, recordsBefore) := After(disk, records, p, front);
      CommitKeepsNode(Begin(before, recordsBefore, p, a), a.faults, p, a.verify);
    }
  }

  // Where an attempt may start without endangering the last intact bundle: not with an
  // intact backup beside the debris of a live bundle.
  predicate SoundStart(disk: Disk, p: Paths) {
    SomeBundle(disk, p) && !DebrisLive(disk, p)
  }

  predicate DebrisLive(disk: Disk, p: Paths) {
    p.app in disk && disk[p.app].Debris?
  }

  lemma CommitKeepsBundle(w: World, faults: Faults, p: Paths, verify: Verify)
    requires Apart(p) && SoundStart(w.disk, p) && p.staged in w.disk && w.disk[p.staged].Bundle?
    ensures var w' := CommitSwap(w, faults, p, verify, false).0;
            Always(w, w', BundleKept(p)) && SomeBundle(w'.disk, p)
  {
    if p.app in w.disk {
      var (w1, hadLive, problems) := Install(w, faults, p, verify);
      LiveBundleSurvives(w, faults, p, verify);
      AlwaysWeaker(w, w1, Holds(p, w.disk[p.app]), BundleKept(p));
      if problems == [] {
        FinishKeeps(w1, faults, p, hadLive);
        AlwaysTrans(w, w1, FinishCommit(w1, faults, p, hadLive).0, BundleKept(p));
      }
    } else {
      RefusalChangesNothing(w, faults, p, verify);
    }
  }

  lemma BackupGoesFirst(w: World, faults: Faults, p: Paths)
    requires Apart(p) && Quiet(faults) && DebrisLive(w.disk, p) && p.backup in w.disk
    ensures var (w', problems) := PrepareOldPath(w, faults, p);
            && w.trace <= w'.trace && problems == [] && |w'.trace| == |w.trace| + 4
            && !SomeBundle(w'.trace[|w.trace| + 3].disk, p)
  {}

  lemma InstallGoesOn(w: World, faults: Faults, p: Paths, verify: Verify)
    requires Apart(p) && p.app in w.disk && PrepareOldPath(w, faults, p).1 == []
    ensures PrepareOldPath(w, faults, p).0.trace <= Install(w, faults, p, verify).0.trace
  {
    var live := w.disk[p.app];
    var w1 := PrepareOldPath(w, faults, p).0;
    PrepareHolds(w, faults, p, live);
    var (w2, hadLive, unsaved) := SaveLive(w1, faults, p);
    SaveHolds(w1, faults, p, live);
    if unsaved == [] {
      InstallHolds(w2, faults, p, verify, live);
    }
  }

  // A commit that goes on after preparing only adds to the trace.
  lemma CommitGoesOn(w: World, faults: Faults, p: Paths, verify: Verify)
    requires Apart(p) && p.app in w.disk && PrepareOldPath(w, faults, p).1 == []
    ensures PrepareOldPath(w, faults, p).0.trace <= CommitSwap(w, faults, p, verify, false).0.trace
  {
    InstallGoesOn(w, faults, p, verify);
    LiveBundleSurvives(w, faults, p, verify);
    var (w1, hadLive, problems) := Install(w, faults, p, verify);
    if problems == [] {
      FinishKeeps(w1, faults, p, hadLive);
    }
  }

  // In the state with this number neither path holds an intact bundle.
  ghost predicate LostAt(w: World, p: Paths, k: nat) {
    k < |w.trace| && !SomeBundle(w.trace[k].disk, p)
  }

  // prepareOldPath asks only whether something is at the live path: beside debris it
  // removes an intact backup, though nothing has failed.
  lemma DebrisCostsTheBackup(w: World, faults: Faults, p: Paths, verify: Verify)
    requires Apart(p) && Quiet(faults) && DebrisLive(w.disk, p) && p.backup in w.disk
    ensures LostAt(CommitSwap(w, faults, p, verify, false).0, p, |w.trace| + 3)
  {
    BackupGoesFirst(w, faults, p);
    CommitGoesOn(w, faults, p, verify);
    var (w1, w') := (PrepareOldPath(w, faults, p).0, CommitSwap(w, faults, p, verify, false).0);
    assert w'.trace[|w.trace| + 3] == w1.trace[|w.trace| + 3];
  }

  lemma LostIsNotKept(w: World, w': World, p: Paths, k: nat)
    requires |w.trace| <= k && LostAt(w', p, k)
    ensures !Always(w, w', BundleKept(p))
  {
    assert !BundleKept(p)(w'.trace[k]);
  }

  const NO_FAULTS: Faults := n => Fault(false, false, false, 0)

  // So a commit keeps an intact bundle in every state, under every schedule of faults,
  // exactly when it does not start with debris at the live path.
  lemma BundleKeptExactly(w: World, p: Paths, verify: Verify)
    requires Apart(p) && p.staged in w.disk && w.disk[p.staged].Bundle?
    requires SomeBundle(w.disk, p)
    ensures (forall faults: Faults :: Always(w, CommitSwap(w, faults, p, verify, false).0, BundleKept(p)))
            <==> SoundStart(w.disk, p)
  {
    if SoundStart(w.disk, p) {
      forall faults: Faults ensures Always(w, CommitSwap(w, faults, p, verify, false).0, BundleKept(p)) {
        CommitKeepsBundle(w, faults, p, verify);
      }
    } else {
      DebrisCostsTheBackup(w, NO_FAULTS, p, verify);
      LostIsNotKept(w, CommitSwap(w, NO_FAULTS, p, verify, false).0, p, |w.trace| + 3);
    }
  }

  ghost predicate NoneBesideDebris(disk: Disk, records: Records, p: Paths, attempts: seq<Attempt>) {
    forall n | 0 <= n < |attempts| :: !DebrisLive(After(disk, records, p, attempts[..n]).0, p)
  }

  // Attempts one after the other keep an intact bundle as long as none starts beside debris.
  lemma {:induction false} AttemptsKeepBundle(disk: Disk, records: Records, p: Paths, attempts: seq<Attempt>)
    requires Apart(p) && SomeBundle(disk, p)
    requires NoneBesideDebris(disk, records, p, attempts)
    ensures SomeBundle(After(disk, records, p, attempts).0, p)
  {
    if attempts != [] {
      var front, a := attempts[..|attempts| - 1], attempts[|attempts| - 1];
      EarlierBesideNone(disk, records, p, attempts);
      AttemptsKeepBundle(disk, records, p, front);
      var (before, recordsBefore) := After(disk, records, p, front);
      AttemptKeepsBundle(before, recordsBefore, p, a);
    }
  }

  lemma EarlierBesideNone(disk: Disk, records: Records, p: Paths, attempts: seq<Attempt>)
    requires attempts != [] && NoneBesideDebris(disk, records, p, attempts)
    ensures NoneBesideDebris(disk, records, p, attempts[..|attempts| - 1])
    ensures !DebrisLive(After(disk, records, p, attempts[..|attempts| - 1]).0, p)
  {
    var front := attempts[..|attempts| - 1];
    forall n | 0 <= n < |front| ensures !DebrisLive(After(disk, records, p, front[..n]).0, p) {
      assert front[..n] == attempts[..n];
    }
  }

  lemma AttemptKeepsBundle(disk: Disk, records: Records, p: Paths, a: Attempt)
    requires Apart(p) && SomeBundle(disk, p) && !DebrisLive(disk, p)
    ensures SomeBundle(Stopped(disk, records, p, a).0, p)
  {
    CommitKeepsBundle(Begin(disk, records, p, a), a.faults, p, a.verify);
  }

  // ----- Which attempts leave debris at the live path.

  function LiveSound(p: Paths): Entry -> bool {
    (e: Entry) => !DebrisLive(e.disk, p)
  }

  // No debris is at the live path on the way from w to w', or in the end.
  ghost predicate StaysSound(w: World, w': World, p: Paths) {
    Always(w, w', LiveSound(p)) && !DebrisLive(w'.disk, p)
  }

  lemma SoundTrans(w: World, w1: World, w2: World, p: Paths)
    requires StaysSound(w, w1, p) && StaysSound(w1, w2, p)
    ensures StaysSound(w, w2, p)
  {
    AlwaysTrans(w, w1, w2, LiveSound(p));
  }

  lemma RenameStaysSound(w: World, faults: Faults, p: Paths, src: Path, dst: Path)
    requires !DebrisLive(w.disk, p) && (src in w.disk && dst == p.app ==> w.disk[src].Bundle?)
    ensures StaysSound(w, RenameStep(w, faults, src, dst).0, p)
  {}

  lemma RemoveStaysSound(w: World, faults: Faults, p: Paths)
    requires Apart(p) && !DebrisLive(w.disk, p)
    ensures StaysSound(w, RemoveAllStep(w, faults, p.backup).0, p)
  {}

  lemma PrepareStaysSound(w: World, faults: Faults, p: Paths)
    requires Apart(p) && !DebrisLive(w.disk, p)
    ensures var w' := PrepareOldPath(w, faults, p).0;
            && StaysSound(w, w', p)
            && (p.app in w'.disk <==> p.app in w.disk) && (p.app in w.disk ==> w'.disk[p.app] == w.disk[p.app])
            && (p.staged in w.disk ==> p.staged in w'.disk && w'.disk[p.staged] == w.disk[p.staged])
  {
    var w1 := LstatStep(w, faults, p.backup).0;
    var w2 := LstatStep(w1, faults, p.app).0;
    assert StaysSound(w, w1, p) && StaysSound(w, w2, p);
    RemoveStaysSound(w2, faults, p);
    SoundTrans(w, w2, RemoveAllStep(w2, faults, p.backup).0, p);
  }

  lemma SaveStaysSound(w: World, faults: Faults, p: Paths)
    requires Apart(p) && !DebrisLive(w.disk, p)
    ensures var (w', hadLive, problems) := SaveLive(w, faults, p);
            && StaysSound(w, w', p)
            && (problems == [] ==> p.app !in w'.disk && (hadLive ==> p.backup in w'.disk && w'.disk[p.backup].Bundle?))
            && (p.staged in w.disk ==> p.staged in w'.disk && w'.disk[p.staged] == w.disk[p.staged])
  {
    var w1 := LstatStep(w, faults, p.app).0;
    assert StaysSound(w, w1, p);
    RenameStaysSound(w1, faults, p, p.app, p.backup);
    SoundTrans(w, w1, RenameStep(w1, faults, p.app, p.backup).0, p);
  }

  lemma VerifyStaysSound(w: World, faults: Faults, p: Paths, verify: Verify)
    requires Apart(p) && p.app in w.disk && w.disk[p.app].Bundle?
    ensures var w' := VerifyStep(w, faults, p.app, verify).0;
            StaysSound(w, w', p)
                && (p.backup in w.disk ==> p.backup in w'.disk && w'.disk[p.backup] == w.disk[p.backup])
  {
    VerifyTouchesOnly(w, faults, p.app, verify);
  }

  lemma RestoreStaysSound(w: World, faults: Faults, p: Paths)
    requires Apart(p) && p.app !in w.disk && p.backup in w.disk && w.disk[p.backup].Bundle?
    ensures StaysSound(w, RestoreLiveAfterRollback(w, faults, p).0, p)
  {
    var (w1, found) := LstatStep(w, faults, p.app);
    assert StaysSound(w, w1, p) && found != Exists;
    RenameStaysSound(w1, faults, p, p.backup, p.app);
    SoundTrans(w, w1, RenameStep(w1, faults, p.backup, p.app).0, p);
  }

  // A rollback whose rename back to the staging area succeeds.
  lemma RollbackStaysSound(w: World, faults: Faults, p: Paths, hadLive: bool)
    requires Apart(p) && !DebrisLive(w.disk, p)
    requires hadLive ==> p.backup in w.disk && w.disk[p.backup].Bundle?
    requires RollBackStaged !in RollbackCommit(w, faults, p, hadLive).1
    ensures StaysSound(w, RollbackCommit(w, faults, p, hadLive).0, p)
  {
    var (w1, made) := TryStep(w, faults);
    var (w2, moved) := RenameStep(w1, faults, p.app, p.staged);
    assert StaysSound(w, w1, p);
    RenameStaysSound(w1, faults, p, p.app, p.staged);
    SoundTrans(w, w1, w2, p);
    assert moved;
    if hadLive {
      RestoreStaysSound(w2, faults, p);
      SoundTrans(w, w2, RestoreLiveAfterRollback(w2, faults, p).0, p);
    }
  }

  lemma AsideStaysSound(w: World, faults: Faults, p: Paths, verify: Verify, hadLive: bool)
    requires Apart(p) && p.app !in w.disk && p.staged in w.disk && w.disk[p.staged].Bundle?
    requires hadLive ==> p.backup in w.disk && w.disk[p.backup].Bundle?
    requires RollBackStaged !in InstallAside(w, faults, p, verify, hadLive).1
    ensures StaysSound(w, InstallAside(w, faults, p, verify, hadLive).0, p)
  {
    var (w1, installed) := RenameStep(w, faults, p.staged, p.app);
    RenameStaysSound(w, faults, p, p.staged, p.app);
    if installed {
      var (w2, verified) := VerifyStep(w1, faults, p.app, verify);
      VerifyStaysSound(w1, faults, p, verify);
      SoundTrans(w, w1, w2, p);
      if !verified {
        RollbackStaysSound(w2, faults, p, hadLive);
        SoundTrans(w, w2, RollbackCommit(w2, faults, p, hadLive).0, p);
      }
    } else if hadLive {
      RenameStaysSound(w1, faults, p, p.backup, p.app);
      SoundTrans(w, w1, RenameStep(w1, faults, p.backup, p.app).0, p);
    }
  }

  lemma InstallStaysSound(w: World, faults: Faults, p: Paths, verify: Verify)
    requires Apart(p) && !DebrisLive(w.disk, p) && p.staged in w.disk && w.disk[p.staged].Bundle?
    requires RollBackStaged !in Install(w, faults, p, verify).2
    ensures StaysSound(w, Install(w, faults, p, verify).0, p)
  {
    var (w1, stale) := PrepareOldPath(w, faults, p);
    PrepareStaysSound(w, faults, p);
    if stale == [] {
      var (w2, hadLive, unsaved) := SaveLive(w1, faults, p);
      SaveStaysSound(w1, faults, p);
      SoundTrans(w, w1, w2, p);
      if unsaved == [] {
        AsideStaysSound(w2, faults, p, verify, hadLive);
        SoundTrans(w, w2, InstallAside(w2, faults, p, verify, hadLive).0, p);
      }
    }
  }

  // From a start without it, a commit puts debris at the live path, in any state, only if the
  // rename of the failed bundle back to the staging area fails.
  lemma CommitStaysSound(w: World, faults: Faults, p: Paths, verify: Verify)
    requires Apart(p) && !DebrisLive(w.disk, p) && p.staged in w.disk && w.disk[p.staged].Bundle?
    requires RollBackStaged !in CommitSwap(w, faults, p, verify, false).1
    ensures StaysSound(w, CommitSwap(w, faults, p, verify, false).0, p)
  {
    var (w1, hadLive, problems) := Install(w, faults, p, verify);
    InstallStaysSound(w, faults, p, verify);
    if problems == [] && hadLive {
      RemoveStaysSound(w1, faults, p);
      SoundTrans(w, w1, RemoveAllStep(w1, faults, p.backup).0, p);
    }
  }

  // No attempt reports that rename as failed.
  ghost predicate NoneLeftInstalled(disk: Disk, records: Records, p: Paths, attempts: seq<Attempt>) {
    forall n | 0 <= n < |attempts| :: !LeftInstalled(After(disk, records, p, attempts[..n]), p, attempts[n])
  }

  predicate LeftInstalled(before: (Disk, Records), p: Paths, a: Attempt) {
    RollBackStaged in CommitSwap(Begin(before.0, before.1, p, a), a.faults, p, a.verify, false).1
  }

  // So attempts without such a report, cut off anywhere, never endanger the last intact bundle.
  lemma {:induction false} AttemptsStaySound(disk: Disk, records: Records, p: Paths, attempts: seq<Attempt>)
    requires Apart(p) && SoundStart(disk, p)
    requires NoneLeftInstalled(disk, records, p, attempts)
    ensures SoundStart(After(disk, records, p, attempts).0, p)
  {
    if attempts != [] {
      var last := |attempts| - 1;
      var front, a := attempts[..last], attempts[last];
      EarlierLeftNone(disk, records, p, attempts);
      AttemptsStaySound(disk, records, p, front);
      var (before, recordsBefore) := After(disk, records, p, front);
      AttemptKeepsBundle(before, recordsBefore, p, a);
      CommitStaysSound(Begin(before, recordsBefore, p, a), a.faults, p, a.verify);
    }
  }

  lemma EarlierLeftNone(disk: Disk, records: Records, p: Paths, attempts: seq<Attempt>)
    requires attempts != [] && NoneLeftInstalled(disk, records, p, attempts)
    ensures NoneLeftInstalled(disk, records, p, attempts[..|attempts| - 1])
  {
    var front := attempts[..|attempts| - 1];
    forall n | 0 <= n < |front| ensures !LeftInstalled(After(disk, records, p, front[..n]), p, front[n]) {
      assert front[..n] == attempts[..n] && front[n] == attempts[n];
    }
  }

  // And attempts do reach such a start: a failed verify, a rollback whose rename back to
  // the staging area fails and whose removal of the failed bundle stops half way leave
  // debris beside the good backup, and the next attempt removes the backup.
  const UNLUCKY_FAULTS: Faults := n => Fault(n == 4 || n == 6 || n == 8, true, false, 0)

  const UNLUCKY := Attempt(2, 0, UNLUCKY_FAULTS, Verify(1, None), 100)

  const RETRY := Attempt(3, 0, NO_FAULTS, NoVerify, 3)

  lemma UnluckyEndsInDebris(records: Records, p: Paths)
    requires Apart(p)
    ensures var disk := Stopped(map[p.app := Bundle(1, 0)], records, p, UNLUCKY).0;
            p.app in disk && disk[p.app] == Debris && p.backup in disk && disk[p.backup] == Bundle(1, 0)
  {
    var w := Begin(map[p.app := Bundle(1, 0)], records, p, UNLUCKY);
    var (w1, stale) := PrepareOldPath(w, UNLUCKY_FAULTS, p);
    assert stale == [] && |w1.trace| == 1;
    var (w2, hadLive, unsaved) := SaveLive(w1, UNLUCKY_FAULTS, p);
    assert hadLive && unsaved == [] && |w2.trace| == 3;
    var (w3, installed) := RenameStep(w2, UNLUCKY_FAULTS, p.staged, p.app);
    assert installed && |w3.trace| == 4;
    var (w4, verified) := VerifyStep(w3, UNLUCKY_FAULTS, p.app, Verify(1, None));
    assert !verified && |w4.trace| == 5 && w4.disk[p.app].Bundle? && w4.disk[p.backup] == Bundle(1, 0);
    RollbackToDebris(w4, p);
  }

  lemma RollbackToDebris(w: World, p: Paths)
    requires Apart(p) && |w.trace| == 5 && p.app in w.disk && p.backup in w.disk
    ensures var (w', problems) := RollbackCommit(w, UNLUCKY_FAULTS, p, true);
            && problems == [VerifyFailed, RollBackStaged, RemoveFailedLive, RestoreLive] && |w'.trace| == 10
            && w'.disk == w.disk[p.app := Debris]
  {}

  lemma AfterOneMore(disk: Disk, records: Records, p: Paths, attempts: seq<Attempt>, a: Attempt)
    ensures var (before, recordsBefore) := After(disk, records, p, attempts);
            After(disk, records, p, attempts + [a]) == Stopped(before, recordsBefore, p, a)
  {
    assert (attempts + [a])[..|attempts|] == attempts;
  }

  lemma RetryStopsAtLoss(disk: Disk, records: Records, p: Paths, a: Attempt)
    requires Apart(p) && Quiet(a.faults) && a.cut == 3 && DebrisLive(disk, p) && p.backup in disk
    ensures !SomeBundle(Stopped(disk, records, p, a).0, p)
  {
    DebrisCostsTheBackup(Begin(disk, records, p, a), a.faults, p, a.verify);
    LossStays(Run(disk, records, p, a), p, 3);
  }

  lemma LossStays(w: World, p: Paths, cut: nat)
    requires LostAt(w, p, cut)
    ensures !SomeBundle(StopIn(w, cut).0, p)
  {}

  lemma RetryLosesTheBundle(records: Records, p: Paths)
    requires Apart(p)
    ensures SomeBundle(map[p.app := Bundle(1, 0)], p)
    ensures !SomeBundle(After(map[p.app := Bundle(1, 0)], records, p, [UNLUCKY, RETRY]).0, p)
  {
    var start: Disk := map[p.app := Bundle(1, 0)];
    UnluckyEndsInDebris(records, p);
    AfterOneMore(start, records, p, [], UNLUCKY);
    AfterOneMore(start, records, p, [UNLUCKY], RETRY);
    assert [] + [UNLUCKY] == [UNLUCKY] && [UNLUCKY] + [RETRY] == [UNLUCKY, RETRY];
    var (before, recordsBefore) := Stopped(start, records, p, UNLUCKY);
    RetryStopsAtLoss(before, recordsBefore, p, RETRY);
  }
}

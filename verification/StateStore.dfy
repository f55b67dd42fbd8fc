// The patch-state file (internal/state/state.go): one load, mutate, save cycle under a lock.

module StateStore {
  import opened Text
  import opened FileWorld

  // What callers do to the record of one target: stepWriteState puts it, a hard reset drops it.
  datatype Change = Put(record: Record) | Drop

  function Changed(records: Records, id: string, change: Change): Records {
    match change
    case Put(record) => records[id := record]
    case Drop => records - {id}
  }

  // validateUnlocked: no record may carry the local signing team in its upstream requirement.
  predicate ValidRecords(records: Records, localTeam: string) {
    Trim(localTeam) == "" || forall id | id in records ::
        Find(records[id].requirement, Trim(localTeam), 0) > |records[id].requirement|
  }

  // The steps of saveUnlocked that only prepare the temporary file: make the directory,
  // create, write, close, set the mode.
  const PREPARATION_STEPS: nat := 5

  function PrepareSave(w: World, faults: Faults, n: nat): (World, bool)
    decreases n
  {
    if n == 0 then (w, true)
    else
      var step := TryStep(w, faults);
      if step.1 then PrepareSave(step.0, faults, n - 1) else step
  }

  function Save(w: World, faults: Faults, records: Records, localTeam: string): (World, bool) {
    if !ValidRecords(records, localTeam) then (w, false)
    else
      var prepared := PrepareSave(w, faults, PREPARATION_STEPS);
      if !prepared.1 then prepared else ReplaceRecordsStep(prepared.0, faults, records)
  }

  // Update: the load may fail, an empty result removes the file, any other is saved.
  function UpdateStep(w: World, faults: Faults, id: string, change: Change, localTeam: string): (World, bool) {
    var loaded := TryStep(w, faults);
    if !loaded.1 then loaded
    else
      var updated := Changed(loaded.0.records, id, change);
      if updated == map[] then ReplaceRecordsStep(loaded.0, faults, updated)
      else Save(loaded.0, faults, updated, localTeam)
  }

  method SaveUnlocked(fs: FileSystem, records: Records, localTeam: string) returns (ok: bool)
    modifies fs
    ensures (fs.world, ok) == Save(old(fs.world), fs.faults, records, localTeam)
  {
    if !ValidRecords(records, localTeam) {
      return false;
    }
    var n: nat := PREPARATION_STEPS;
    while n > 0
      invariant PrepareSave(fs.world, fs.faults, n) == PrepareSave(old(fs.world), fs.faults, PREPARATION_STEPS)
    {
      ok := fs.Try();
      if !ok {
        return;
      }
      n := n - 1;
    }
    ok := fs.ReplaceRecords(records);
  }

  method Update(fs: FileSystem, id: string, change: Change, localTeam: string) returns (ok: bool)
    modifies fs
    ensures (fs.world, ok) == UpdateStep(old(fs.world), fs.faults, id, change, localTeam)
  {
    ok := fs.Try();
    if !ok {
      return;
    }
    var updated := Changed(fs.world.records, id, change);
    if updated == map[] {
      ok := fs.ReplaceRecords(updated);
    } else {
      ok := SaveUnlocked(fs, updated, localTeam);
    }
  }

  // A step with the file as it was.
  predicate Waiting(w: World, e: Entry) {
    e.disk == w.disk && e.records == w.records && (e.mark == Tried || e.mark == Failed)
  }

  lemma {:induction false} PrepareSaveTouchesNothing(w: World, faults: Faults, n: nat)
    ensures var (w', ok) := PrepareSave(w, faults, n);
            && Extends(w, w') && w'.disk == w.disk && w'.records == w.records
            && (forall k | |w.trace| <= k < |w'.trace| :: Waiting(w, w'.trace[k]))
    decreases n
  {
    if n > 0 {
      var step := TryStep(w, faults);
      if step.1 {
        PrepareSaveTouchesNothing(step.0, faults, n - 1);
      }
    }
  }

  // Every state that was ever visible is the one before or, at the very end of a success,
  // the one after.
  ghost predicate Replaces(w: World, w': World, ok: bool, updated: Records) {
    && Extends(w, w') && w'.disk == w.disk
    && w'.records == (if ok then updated else w.records)
    && (forall k | |w.trace| <= k < |w'.trace| ::
          if ok && k == |w'.trace| - 1 then w'.trace[k] == Entry(RecordsReplaced, w.disk, updated)
          else Waiting(w, w'.trace[k]))
  }

  lemma SaveReplaces(w: World, faults: Faults, records: Records, localTeam: string)
    ensures var (w', ok) := Save(w, faults, records, localTeam);
            Replaces(w, w', ok, records) && (ok ==> ValidRecords(records, localTeam))
  {
    var (w1, prepared) := PrepareSave(w, faults, PREPARATION_STEPS);
    PrepareSaveTouchesNothing(w, faults, PREPARATION_STEPS);
    if prepared {
      ThenReplaces(w, w1, faults, records);
    }
  }

  lemma ThenReplaces(w: World, w1: World, faults: Faults, records: Records)
    requires Extends(w, w1) && w1.disk == w.disk && w1.records == w.records
    requires forall k | |w.trace| <= k < |w1.trace| :: Waiting(w, w1.trace[k])
    ensures var (w', ok) := ReplaceRecordsStep(w1, faults, records); Replaces(w, w', ok, records)
  {
    var w' := ReplaceRecordsStep(w1, faults, records).0;
    assert forall k | |w.trace| <= k < |w1.trace| :: w'.trace[k] == w1.trace[k];
  }

  lemma UpdateReplaces(w: World, faults: Faults, id: string, change: Change, localTeam: string)
    ensures var (w', ok) := UpdateStep(w, faults, id, change, localTeam);
            Replaces(w, w', ok, Changed(w.records, id, change))
  {
    var (loaded, read) := TryStep(w, faults);
    if read {
      var updated := Changed(w.records, id, change);
      var (w', ok) := UpdateStep(w, faults, id, change, localTeam);
      if updated == map[] {
        assert Replaces(loaded, w', ok, updated);
      } else {
        SaveReplaces(loaded, faults, updated, localTeam);
      }
      QuietThenReplaces(w, loaded, w', ok, updated);
    }
  }

  // An update puts or drops one target's record or fails with the file as it was, and reports
  // which; nobody ever sees anything between the two; the disk and every other target's
  // record stay.
  lemma UpdateIsAtomic(w: World, faults: Faults, id: string, change: Change, localTeam: string)
    ensures var (w', ok) := UpdateStep(w, faults, id, change, localTeam);
            && (exists updated :: Replaces(w, w', ok, updated))
            && (forall other | other != id ::
                  (other in w'.records <==> other in w.records)
                  && (other in w.records ==> w'.records[other] == w.records[other]))
            && (ok && change.Drop? ==> id !in w'.records)
            && (ok && change.Put? ==> id in w'.records && w'.records[id] == change.record)
            && (!ok ==> w'.records == w.records)
  {
    UpdateReplaces(w, faults, id, change, localTeam);
    var updated := Changed(w.records, id, change);
    assert Replaces(w, UpdateStep(w, faults, id, change, localTeam).0, UpdateStep(w, faults, id, change, localTeam).1,
                    updated);
  }

  // A team ID as validation looks for it: its text without white space around it, somewhere.
  ghost predicate Mentions(requirement: string, team: string) {
    exists i: nat :: OccursAt(requirement, Trim(team), i)
  }

  // It succeeds exactly when no step fails and what is left is empty, or no team is set up, or
  // no record on file would name the local team.
  lemma UpdateSucceedsIff(w: World, faults: Faults, id: string, change: Change, localTeam: string)
    ensures var (w', ok) := UpdateStep(w, faults, id, change, localTeam);
            && (ok <==> NoneFailed(w, w') && Acceptable(Changed(w.records, id, change), localTeam))
            && (Quiet(faults) ==> NoneFailed(w, w'))
  {
    var (loaded, read) := TryStep(w, faults);
    TryReports(w, faults);
    if read {
      var updated := Changed(w.records, id, change);
      var w' := UpdateStep(w, faults, id, change, localTeam).0;
      ValidIff(updated, localTeam);
      if updated == map[] {
        ReplaceReports(loaded, faults, updated);
      } else {
        SaveSucceedsIff(loaded, faults, updated, localTeam);
        SaveReplaces(loaded, faults, updated, localTeam);
      }
      NoneFailedTrans(w, loaded, w');
    }
  }

  ghost predicate Acceptable(records: Records, localTeam: string) {
    records == map[] || Trim(localTeam) == ""
        || forall id | id in records :: !Mentions(records[id].requirement, localTeam)
  }

  lemma ValidIff(records: Records, localTeam: string)
    ensures Acceptable(records, localTeam) <==> records == map[] || ValidRecords(records, localTeam)
  {
    forall id | id in records
      ensures Mentions(records[id].requirement, localTeam)
              <==> Find(records[id].requirement, Trim(localTeam), 0) <= |records[id].requirement|
    {
      FindsFirst(records[id].requirement, Trim(localTeam), 0);
    }
  }

  lemma {:induction false} PreparesUnlessFailed(w: World, faults: Faults, n: nat)
    ensures var (w', ok) := PrepareSave(w, faults, n);
            Extends(w, w') && (ok <==> NoneFailed(w, w')) && (Quiet(faults) ==> ok)
    decreases n
  {
    if n > 0 {
      var step := TryStep(w, faults);
      if step.1 {
        PreparesUnlessFailed(step.0, faults, n - 1);
        NoneFailedTrans(w, step.0, PrepareSave(w, faults, n).0);
      }
    }
  }

  lemma SaveSucceedsIff(w: World, faults: Faults, records: Records, localTeam: string)
    ensures var (w', ok) := Save(w, faults, records, localTeam);
            && (ok <==> NoneFailed(w, w') && ValidRecords(records, localTeam))
            && (Quiet(faults) ==> NoneFailed(w, w'))
  {
    var (w1, prepared) := PrepareSave(w, faults, PREPARATION_STEPS);
    PreparesUnlessFailed(w, faults, PREPARATION_STEPS);
    ReplaceReports(w1, faults, records);
    if prepared {
      NoneFailedTrans(w, w1, ReplaceRecordsStep(w1, faults, records).0);
    }
  }

  lemma QuietThenReplaces(w: World, w1: World, w2: World, ok: bool, updated: Records)
    requires w1 == Log(w, Tried, w.disk, w.records) && Replaces(w1, w2, ok, updated)
    requires ok ==> |w2.trace| > |w1.trace|
    ensures Replaces(w, w2, ok, updated)
  {
    assert w1.trace[|w.trace|] == Entry(Tried, w.disk, w.records);
    assert w2.trace[..|w1.trace|] == w1.trace;
  }
}

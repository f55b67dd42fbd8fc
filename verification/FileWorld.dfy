// The file system as the bundle swap sees it: bundles at paths, the patch records of the
// state file, and a trace of everything that happened. Every operation may fail; which
// ones do is given by a schedule of faults, indexed by how much has happened so far.

module FileWorld {
  type Path = string

  // A bundle carries a tag that says which installation it came from, which no edit
  // changes, and its contents. Debris is what an unfinished copy or removal leaves.
  datatype Node = Bundle(tag: nat, content: nat) | Debris

  datatype Record = Record(version: string, signIdentity: string, requirement: string)

  type Disk = map<Path, Node>

  type Records = map<string, Record>

  datatype Mark =
    | Looked
    | Renamed(src: Path, dst: Path)
    | Removing
    | Removed
    | Edited(path: Path)
    | Copying
    | Copied
    | PolicyPassed
    | RecordsReplaced
    | Tried                    // an operation without effect here that was done
    | Failed
    | EditFailed(path: Path)

  // The state after one step.
  datatype Entry = Entry(mark: Mark, disk: Disk, records: Records)

  datatype World = World(disk: Disk, records: Records, trace: seq<Entry>)

  // What the environment decides about one step: whether it fails, whether a failing
  // removal has already done damage, whether debris gives way to a rename, and what an
  // edit makes of a bundle's contents.
  datatype Fault = Fault(fails: bool, damages: bool, givesWay: bool, content: nat)

  type Faults = nat -> Fault

  datatype Found = Exists | Missing | Unknown

  function Next(w: World, faults: Faults): Fault {
    faults(|w.trace|)
  }

  function Log(w: World, mark: Mark, disk: Disk, records: Records): World {
    World(disk, records, w.trace + [Entry(mark, disk, records)])
  }

  // A step that changes neither store: it succeeds or fails.
  function TryStep(w: World, faults: Faults): (World, bool) {
    var ok := !Next(w, faults).fails;
    (Log(w, if ok then Tried else Failed, w.disk, w.records), ok)
  }

  function LstatStep(w: World, faults: Faults, path: Path): (World, Found) {
    var found := if Next(w, faults).fails then Unknown else if path in w.disk then Exists else Missing;
    (Log(w, if found == Unknown then Failed else Looked, w.disk, w.records), found)
  }

  // rename(2) on bundles: the source must be there, and a bundle at the destination stops
  // it, as a non-empty directory does.
  function RenameStep(w: World, faults: Faults, src: Path, dst: Path): (World, bool) {
    var blocked := dst in w.disk && (w.disk[dst].Bundle? || !Next(w, faults).givesWay);
    if Next(w, faults).fails || src !in w.disk || src == dst || blocked then
      (Log(w, Failed, w.disk, w.records), false)
    else
      (Log(w, Renamed(src, dst), w.disk[dst := w.disk[src]] - {src}, w.records), true)
  }

  // os.RemoveAll: no step at once. What it removes is debris before it is gone, and when
  // it fails it may have begun.
  function RemoveAllStep(w: World, faults: Faults, path: Path): (World, bool) {
    var fault := Next(w, faults);
    if fault.fails then
      (Log(w, Failed, if path in w.disk && fault.damages then w.disk[path := Debris] else w.disk, w.records), false)
    else
      var begun := Log(w, Removing, if path in w.disk then w.disk[path := Debris] else w.disk, w.records);
      (Log(begun, Removed, w.disk - {path}, w.records), true)
  }

  // A step that edits the bundle at a path in place; a failing edit may have changed it too.
  function EditStep(w: World, faults: Faults, path: Path): (World, bool) {
    var fault := Next(w, faults);
    var disk := if path in w.disk && w.disk[path].Bundle?
                then w.disk[path := w.disk[path].(content := fault.content)]
                else w.disk;
    (Log(w, if fault.fails then EditFailed(path) else Edited(path), disk, w.records), !fault.fails)
  }

  // Copying a bundle: debris at the destination until it is complete.
  function CopyStep(w: World, faults: Faults, src: Path, dst: Path, tag: nat): (World, bool) {
    var fault := Next(w, faults);
    if fault.fails || src !in w.disk || w.disk[src].Debris? then
      (Log(w, Failed, if fault.damages then w.disk[dst := Debris] else w.disk, w.records), false)
    else
      var begun := Log(w, Copying, w.disk[dst := Debris], w.records);
      (Log(begun, Copied, w.disk[dst := Bundle(tag, w.disk[src].content)], w.records), true)
  }

  // The state file is replaced by renaming a finished temporary file over it.
  function ReplaceRecordsStep(w: World, faults: Faults, records: Records): (World, bool) {
    if Next(w, faults).fails then (Log(w, Failed, w.disk, w.records), false)
    else (Log(w, RecordsReplaced, w.disk, records), true)
  }

  // A policy check that passes leaves a mark.
  function PolicyStep(w: World, faults: Faults): (World, bool) {
    if Next(w, faults).fails then (Log(w, Failed, w.disk, w.records), false)
    else (Log(w, PolicyPassed, w.disk, w.records), true)
  }

  // The file system as the code holds it.
  class FileSystem {
    var world: World
    const faults: Faults

    constructor (disk: Disk, records: Records, faults: Faults)
      ensures world == World(disk, records, []) && this.faults == faults
    {
      world, this.faults := World(disk, records, []), faults;
    }

    method Try() returns (ok: bool)
      modifies this
      ensures (world, ok) == TryStep(old(world), faults)
    {
      ok := !Next(world, faults).fails;
      world := Log(world, if ok then Tried else Failed, world.disk, world.records);
    }

    method Lstat(path: Path) returns (found: Found)
      modifies this
      ensures (world, found) == LstatStep(old(world), faults, path)
    {
      found := if Next(world, faults).fails then Unknown else if path in world.disk then Exists else Missing;
      world := Log(world, if found == Unknown then Failed else Looked, world.disk, world.records);
    }

    method Rename(src: Path, dst: Path) returns (ok: bool)
      modifies this
      ensures (world, ok) == RenameStep(old(world), faults, src, dst)
    {
      var step := RenameStep(world, faults, src, dst);
      world, ok := step.0, step.1;
    }

    method RemoveAll(path: Path) returns (ok: bool)
      modifies this
      ensures (world, ok) == RemoveAllStep(old(world), faults, path)
    {
      var step := RemoveAllStep(world, faults, path);
      world, ok := step.0, step.1;
    }

    method Edit(path: Path) returns (ok: bool)
      modifies this
      ensures (world, ok) == EditStep(old(world), faults, path)
    {
      var step := EditStep(world, faults, path);
      world, ok := step.0, step.1;
    }

    method Copy(src: Path, dst: Path, tag: nat) returns (ok: bool)
      modifies this
      ensures (world, ok) == CopyStep(old(world), faults, src, dst, tag)
    {
      var step := CopyStep(world, faults, src, dst, tag);
      world, ok := step.0, step.1;
    }

    method ReplaceRecords(records: Records) returns (ok: bool)
      modifies this
      ensures (world, ok) == ReplaceRecordsStep(old(world), faults, records)
    {
      var step := ReplaceRecordsStep(world, faults, records);
      world, ok := step.0, step.1;
    }

    method CheckPolicy() returns (ok: bool)
      modifies this
      ensures (world, ok) == PolicyStep(old(world), faults)
    {
      var step := PolicyStep(world, faults);
      world, ok := step.0, step.1;
    }
  }

  // What a run from w to w' recorded: the trace grew, and its last entry is the state.
  ghost predicate Extends(w: World, w': World) {
    && w.trace <= w'.trace
    && (|w'.trace| > |w.trace|
        ==> w'.disk == w'.trace[|w'.trace| - 1].disk && w'.records == w'.trace[|w'.trace| - 1].records)
    && (|w'.trace| == |w.trace| ==> w' == w)
  }

  lemma ExtendsTrans(w: World, w1: World, w2: World)
    requires Extends(w, w1) && Extends(w1, w2)
    ensures Extends(w, w2)
  {}

  predicate FailedMark(mark: Mark) {
    mark == Failed || mark.EditFailed?
  }

  // No step of a run from w to w' failed.
  ghost predicate NoneFailed(w: World, w': World) {
    forall k | |w.trace| <= k < |w'.trace| :: !FailedMark(w'.trace[k].mark)
  }

  lemma NoneFailedTrans(w: World, w1: World, w2: World)
    requires Extends(w, w1) && Extends(w1, w2)
    ensures NoneFailed(w, w2) <==> NoneFailed(w, w1) && NoneFailed(w1, w2)
  {
    if NoneFailed(w, w2) {
      forall k | |w.trace| <= k < |w1.trace| ensures !FailedMark(w1.trace[k].mark) {
        assert w1.trace[k] == w2.trace[k];
      }
    }
    if NoneFailed(w, w1) && NoneFailed(w1, w2) {
      forall k | |w.trace| <= k < |w2.trace| ensures !FailedMark(w2.trace[k].mark) {
        assert k < |w1.trace| ==> w1.trace[k] == w2.trace[k];
      }
    }
  }

  lemma LogReports(w: World, mark: Mark, disk: Disk, records: Records)
    ensures Extends(w, Log(w, mark, disk, records))
    ensures NoneFailed(w, Log(w, mark, disk, records)) <==> !FailedMark(mark)
  {
    var w' := Log(w, mark, disk, records);
    assert w'.trace[|w.trace|].mark == mark;
  }

  // Each step reports what its fault decides and its operands allow, and marks a failure.
  lemma TryReports(w: World, faults: Faults)
    ensures var (w', ok) := TryStep(w, faults);
            Extends(w, w') && (ok <==> NoneFailed(w, w')) && (ok <==> !Next(w, faults).fails)
  {
    LogReports(w, if Next(w, faults).fails then Failed else Tried, w.disk, w.records);
  }

  lemma LstatReports(w: World, faults: Faults, path: Path)
    ensures var (w', found) := LstatStep(w, faults, path);
            && Extends(w, w') && (found != Unknown <==> NoneFailed(w, w'))
            && (found != Unknown <==> !Next(w, faults).fails)
            && (found == Exists ==> path in w.disk) && (found == Missing ==> path !in w.disk)
  {
    LogReports(w, if Next(w, faults).fails then Failed else Looked, w.disk, w.records);
  }

  lemma RenameReports(w: World, faults: Faults, src: Path, dst: Path)
    ensures var (w', ok) := RenameStep(w, faults, src, dst);
            && Extends(w, w') && (ok <==> NoneFailed(w, w'))
            && (ok ==> !Next(w, faults).fails && src in w.disk && src != dst)
            && (!Next(w, faults).fails && src in w.disk && src != dst && dst !in w.disk ==> ok)
            && w'.disk == if ok then w.disk[dst := w.disk[src]] - {src} else w.disk
  {
    var (w', ok) := RenameStep(w, faults, src, dst);
    LogReports(w, if ok then Renamed(src, dst) else Failed, w'.disk, w.records);
  }

  lemma RemoveReports(w: World, faults: Faults, path: Path)
    ensures var (w', ok) := RemoveAllStep(w, faults, path);
            && Extends(w, w') && (ok <==> NoneFailed(w, w')) && (ok <==> !Next(w, faults).fails)
            && (ok ==> w'.disk == w.disk - {path})
            && (!ok && path in w.disk ==> path in w'.disk)
  {
    var (w', ok) := RemoveAllStep(w, faults, path);
    if ok {
      var begun := Log(w, Removing, if path in w.disk then w.disk[path := Debris] else w.disk, w.records);
      LogReports(w, Removing, begun.disk, w.records);
      LogReports(begun, Removed, w'.disk, w.records);
      NoneFailedTrans(w, begun, w');
    } else {
      LogReports(w, Failed, w'.disk, w.records);
    }
  }

  lemma EditReports(w: World, faults: Faults, path: Path)
    ensures var (w', ok) := EditStep(w, faults, path);
            Extends(w, w') && (ok <==> NoneFailed(w, w')) && (ok <==> !Next(w, faults).fails)
  {
    var (w', ok) := EditStep(w, faults, path);
    LogReports(w, if ok then Edited(path) else EditFailed(path), w'.disk, w.records);
  }

  lemma CopyReports(w: World, faults: Faults, src: Path, dst: Path, tag: nat)
    ensures var (w', ok) := CopyStep(w, faults, src, dst, tag);
            && Extends(w, w') && (ok <==> NoneFailed(w, w'))
            && (ok <==> !Next(w, faults).fails && src in w.disk && w.disk[src].Bundle?)
            && (ok ==> w'.disk == w.disk[dst := Bundle(tag, w.disk[src].content)])
  {
    var (w', ok) := CopyStep(w, faults, src, dst, tag);
    if ok {
      var begun := Log(w, Copying, w.disk[dst := Debris], w.records);
      LogReports(w, Copying, begun.disk, w.records);
      LogReports(begun, Copied, w'.disk, w.records);
      NoneFailedTrans(w, begun, w');
    } else {
      LogReports(w, Failed, w'.disk, w.records);
    }
  }

  lemma ReplaceReports(w: World, faults: Faults, records: Records)
    ensures var (w', ok) := ReplaceRecordsStep(w, faults, records);
            && Extends(w, w') && (ok <==> NoneFailed(w, w')) && (ok <==> !Next(w, faults).fails)
            && w'.records == if ok then records else w.records
  {
    var (w', ok) := ReplaceRecordsStep(w, faults, records);
    LogReports(w, if ok then RecordsReplaced else Failed, w.disk, w'.records);
  }

  lemma PolicyReports(w: World, faults: Faults)
    ensures var (w', ok) := PolicyStep(w, faults);
            Extends(w, w') && (ok <==> NoneFailed(w, w')) && (ok <==> !Next(w, faults).fails)
  {
    var (w', ok) := PolicyStep(w, faults);
    LogReports(w, if ok then PolicyPassed else Failed, w.disk, w.records);
  }

  // A schedule under which no step fails by itself.
  ghost predicate Quiet(faults: Faults) {
    forall n: nat :: !faults(n).fails
  }
}

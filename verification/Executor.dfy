// The daemon's executor (internal/daemon/executor.go): in-flight runs keyed by operation
// and target. An exact duplicate attaches, another operation on the same target is refused,
// and the two sides must agree on whether the run may be cancelled.

module ProgressEvents {
  // One progress event as it travels to subscribers. Times, log paths and counters that
  // no reader consults are not part of the value.
  datatype EventType =
    | RunStarted | TargetQueued | TargetStarted
    | StepStarted | StepDone | StepSkipped | StepFailed
    | TargetDone | RunDone

  datatype Event = Event(eventType: EventType, target: string, step: string, status: string, detail: string)
}

module Executor {
  import opened ProgressEvents
  import opened StringOrder

  datatype RunKey = RunKey(operation: string, target: string)

  datatype Decision = Start | Attach | CancellationConflict | SameTargetConflict

  // What a request meets, as a function of the runs in flight and their cancellation modes.
  function Decide(active: map<RunKey, bool>, key: RunKey, cancelable: bool): Decision {
    if key in active then
      if active[key] != cancelable then CancellationConflict else Attach
    else if exists k | k in active :: k.target == key.target then SameTargetConflict
    else Start
  }

  // No target has two runs in flight.
  ghost predicate Exclusive(keys: set<RunKey>) {
    forall j, k | j in keys && k in keys && j.target == k.target :: j == k
  }

  // Exclusion is what Decide keeps, and a request is turned away only for a reason that
  // a caller can see: every other request is served.
  lemma DecideKeepsExclusion(active: map<RunKey, bool>, key: RunKey, cancelable: bool)
    requires Exclusive(active.Keys)
    ensures Decide(active, key, cancelable) == Start <==> Exclusive(active.Keys + {key}) && key !in active
    ensures Decide(active, key, cancelable) == Attach <==> key in active && active[key] == cancelable
    ensures Decide(active, key, cancelable) == SameTargetConflict
            <==> !Exclusive(active.Keys + {key})
  {
    if key !in active && exists k :: k in active && k.target == key.target {
      var k :| k in active && k.target == key.target;
      assert k in active.Keys + {key} && key in active.Keys + {key};
    }
    if key in active {
      assert active.Keys + {key} == active.Keys;
    }
  }

  // The order in which runs are listed: by target, then by operation.
  predicate ListedBefore(a: RunKey, b: RunKey) {
    if a.target != b.target then TextLess(a.target, b.target) else TextLess(a.operation, b.operation)
  }

  lemma ListingOrder(a: RunKey, b: RunKey, c: RunKey)
    ensures a == b || ListedBefore(a, b) || ListedBefore(b, a)
    ensures ListedBefore(a, b) && ListedBefore(b, c) ==> ListedBefore(a, c)
  {
    TextOrder(a.target, b.target, c.target);
    TextOrder(a.operation, b.operation, c.operation);
  }

  // One in-flight operation with its broadcaster's history.
  class ActiveRun {
    const operation: string
    const target: string
    const cancelable: bool
    var events: seq<Event>
    var done: bool

    constructor (operation: string, target: string, cancelable: bool)
      ensures this.operation == operation && this.target == target && this.cancelable == cancelable
      ensures events == [] && !done
    {
      this.operation, this.target, this.cancelable := operation, target, cancelable;
      events, done := [], false;
    }

    function Key(): RunKey {
      RunKey(operation, target)
    }

    method Emit(event: Event)
      modifies this
      ensures events == old(events) + [event] && done == old(done)
    {
      events := events + [event];
    }

    method Finish()
      modifies this
      ensures done && events == old(events)
    {
      done := true;
    }
  }

  datatype StartError =
    | CancellationConflictError(operation: string, target: string, activeCancelable: bool, requestedCancelable: bool)
    | SameTargetConflictError(activeOperation: string, activeTarget: string, requestedOperation: string,
        requestedTarget: string)

  datatype StartResult = Running(run: ActiveRun) | Refused(error: StartError)

  class Executor {
    var runs: map<RunKey, ActiveRun>

    // Every run sits under its own key, no target has two runs in flight, and no run in
    // the map has finished.
    ghost predicate Valid()
      reads this, runs.Values
    {
      && (forall k | k in runs :: runs[k].Key() == k && !runs[k].done)
      && Exclusive(runs.Keys)
    }

    function Modes(): map<RunKey, bool>
      reads this
    {
      map k | k in runs :: runs[k].cancelable
    }

    constructor ()
      ensures Valid() && runs == map[]
    {
      runs := map[];
    }

    // The scan for a run on the same target, in whatever order the map yields.
    method SameTarget(target: string) returns (found: bool, key: RunKey)
      requires Valid()
      ensures found ==> key in runs && key.target == target
      ensures !found ==> forall k | k in runs :: k.target != target
    {
      key := RunKey("", target);
      var remaining := runs.Keys;
      while remaining != {}
        invariant remaining <= runs.Keys
        invariant forall k | k in runs && k !in remaining :: k.target != target
        decreases remaining
      {
        var k :| k in remaining;
        if runs[k].target == target {
          return true, k;
        }
        remaining := remaining - {k};
      }
      return false, key;
    }

    method StartOrAttachWithCancellation(operation: string, target: string, cancelable: bool)
        returns (result: StartResult)
      requires Valid()
      modifies this
      ensures Valid()
      ensures var key := RunKey(operation, target);
              match Decide(old(Modes()), key, cancelable)
              case Start => result.Running? && fresh(result.run) && runs == old(runs)[key := result.run]
                            && result.run.cancelable == cancelable && result.run.events == []
              case Attach => result == Running(old(runs)[key]) && runs == old(runs)
              case CancellationConflict =>
                result == Refused(CancellationConflictError(operation, target, !cancelable, cancelable))
                    && runs == old(runs)
              case SameTargetConflict =>
                && result.Refused? && result.error.SameTargetConflictError? && runs == old(runs)
                && RunKey(result.error.activeOperation, target) in runs
                && result.error == SameTargetConflictError(result.error.activeOperation, target, operation, target)
    {
      var key := RunKey(operation, target);
      DecideKeepsExclusion(Modes(), key, cancelable);
      if key in runs {
        var run := runs[key];
        if run.cancelable != cancelable {
          return Refused(CancellationConflictError(operation, target, run.cancelable, cancelable));
        }
        return Running(run);
      }
      var found, conflict := SameTarget(target);
      if found {
        return Refused(SameTargetConflictError(runs[conflict].operation, runs[conflict].target, operation, target));
      }
      assert Decide(Modes(), key, cancelable) == Start;
      var run := StartRun(operation, target, cancelable);
      return Running(run);
    }

    // Its end: a new run under its key. The goroutine of its job is a step of the run protocol.
    method StartRun(operation: string, target: string, cancelable: bool) returns (run: ActiveRun)
      requires Valid() && forall k | k in runs :: k.target != target
      modifies this
      ensures Valid() && fresh(run) && runs == old(runs)[RunKey(operation, target) := run]
      ensures run.cancelable == cancelable && run.events == []
    {
      run := new ActiveRun(operation, target, cancelable);
      runs := runs[RunKey(operation, target) := run];
    }

    // The clean-up runJob defers: clear the run from the map, then close its broadcaster.
    // The run it clears is its own.
    method CompleteRun(run: ActiveRun)
      requires Valid()
      requires run.Key() in runs && runs[run.Key()] == run
      modifies this, run
      ensures Valid() && run.done && run.events == old(run.events)
      ensures runs == map k | k in old(runs) && k != run.Key() :: old(runs)[k]
      ensures forall k | k in runs :: runs[k] != run
    {
      runs := map k | k in runs && k != run.Key() :: runs[k];
      run.Finish();
    }

    // The runs that pass the optional filters (an empty filter passes everything), in order.
    method ActiveMatching(operation: string, target: string) returns (matching: seq<ActiveRun>)
      requires Valid()
      ensures forall run :: run in matching
                            <==> && run in runs.Values
                                 && operation in {"", run.operation} && target in {"", run.target}
      ensures forall i, j | 0 <= i < j < |matching| :: matching[i].target != matching[j].target
      ensures Listed(matching)
    {
      var found := Filter(operation, target);
      matching := SortActiveRuns(found);
      forall i, j | 0 <= i < j < |matching| ensures matching[i].target != matching[j].target {
        assert matching[i] in found && matching[j] in found;
        assert matching[i].Key() in runs && matching[j].Key() in runs;
        assert ListedBefore(matching[i].Key(), matching[j].Key());
        NotBeforeItself(matching[i].Key());
      }
    }

    // Its loop over the map.
    method Filter(operation: string, target: string) returns (matching: seq<ActiveRun>)
      requires Valid()
      ensures forall run :: run in matching <==> run in runs.Values && Passes(run, operation, target)
      ensures forall i, j | 0 <= i < j < |matching| :: matching[i].Key() != matching[j].Key()
    {
      matching := [];
      var remaining := runs.Keys;
      while remaining != {}
        invariant remaining <= runs.Keys
        invariant forall run :: run in matching <==>
                    exists k :: k in runs && k !in remaining && runs[k] == run && Passes(run, operation, target)
        invariant forall i, j | 0 <= i < j < |matching| :: matching[i].Key() != matching[j].Key()
        decreases remaining
      {
        var k :| k in remaining;
        if Passes(runs[k], operation, target) {
          forall m | m in matching ensures m.Key() != k {}
          matching := matching + [runs[k]];
        }
        remaining := remaining - {k};
      }
      forall run | run in runs.Values ensures exists k :: k in runs && runs[k] == run {}
    }
  }

  predicate Passes(run: ActiveRun, operation: string, target: string) {
    (operation != "" ==> run.operation == operation) && (target != "" ==> run.target == target)
  }

  predicate Listed(runs: seq<ActiveRun>) {
    forall i, j | 0 <= i < j < |runs| :: ListedBefore(runs[i].Key(), runs[j].Key())
  }

  lemma NotBeforeItself(key: RunKey)
    ensures !ListedBefore(key, key)
  {
    TextOrder(key.operation, key.operation, key.operation);
  }

  // Where a run belongs in a listing.
  method Place(listed: seq<ActiveRun>, run: ActiveRun) returns (at: nat)
    requires Listed(listed) && forall other | other in listed :: other.Key() != run.Key()
    ensures at <= |listed|
    ensures forall i | 0 <= i < at :: ListedBefore(listed[i].Key(), run.Key())
    ensures forall i | at <= i < |listed| :: ListedBefore(run.Key(), listed[i].Key())
  {
    at := 0;
    while at < |listed| && ListedBefore(listed[at].Key(), run.Key())
      invariant at <= |listed|
      invariant forall i | 0 <= i < at :: ListedBefore(listed[i].Key(), run.Key())
    {
      at := at + 1;
    }
    if at < |listed| {
      assert listed[at] in listed;
      forall i | at <= i < |listed| ensures ListedBefore(run.Key(), listed[i].Key()) {
        ListingOrder(run.Key(), listed[at].Key(), listed[i].Key());
      }
    }
  }

  lemma Placed(listed: seq<ActiveRun>, at: nat, run: ActiveRun)
    requires Listed(listed) && at <= |listed|
    requires forall i | 0 <= i < at :: ListedBefore(listed[i].Key(), run.Key())
    requires forall i | at <= i < |listed| :: ListedBefore(run.Key(), listed[i].Key())
    ensures Listed(listed[..at] + [run] + listed[at..])
    ensures forall other :: other in listed[..at] + [run] + listed[at..] <==> other in listed || other == run
  {
    assert listed == listed[..at] + listed[at..];
  }

  // sortActiveRuns, of runs with different keys.
  method SortActiveRuns(runs: seq<ActiveRun>) returns (sorted: seq<ActiveRun>)
    requires forall i, j | 0 <= i < j < |runs| :: runs[i].Key() != runs[j].Key()
    ensures Listed(sorted) && |sorted| == |runs| && forall run :: run in sorted <==> run in runs
    ensures forall i, j | 0 <= i < j < |sorted| ::
              TextLess(sorted[i].target, sorted[j].target)
              || (sorted[i].target == sorted[j].target && TextLess(sorted[i].operation, sorted[j].operation))
  {
    sorted := [];
    for i := 0 to |runs|
      invariant Listed(sorted) && |sorted| == i && forall run :: run in sorted <==> run in runs[..i]
    {
      var at := Place(sorted, runs[i]);
      Placed(sorted, at, runs[i]);
      assert runs[..i + 1] == runs[..i] + [runs[i]];
      sorted := sorted[..at] + [runs[i]] + sorted[at..];
    }
  }
}

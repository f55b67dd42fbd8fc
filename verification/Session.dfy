// Output sessions and the replay of a daemon run onto a client's session
// (internal/clioutput/session.go, internal/daemon/operationjob.go and client.go,
// internal/clispec/render.go), and the verdicts the updater's tick reads from a run's
// stream (internal/daemon/tick.go).

module Session {
  import opened Text
  import opened ProgressEvents

  // What an operation does with its progress sink.
  datatype Call =
    | Step(detail: string)
    | Skip(detail: string)
    | Fail(detail: string)
    | SetOutcome(outcome: string, detail: string)

  datatype Terminal = Terminal(status: string, detail: string)

  const OUTCOME_FAILED := "failed"

  function Marker(eventType: EventType, target: string, status: string, detail: string): seq<Event> {
    [Event(StepStarted, target, "", "running", detail), Event(eventType, target, "", status, detail)]
  }

  function CallEvents(target: string, call: Call): seq<Event> {
    match call
    case Step(detail) => Marker(StepDone, target, "ok", detail)
    case Skip(detail) => Marker(StepSkipped, target, "skipped", detail)
    case Fail(detail) => Marker(StepFailed, target, "failed", detail)
    case SetOutcome(_, _) => []
  }

  function CallsEvents(target: string, calls: seq<Call>): seq<Event> {
    if calls == [] then [] else CallsEvents(target, calls[..|calls| - 1]) + CallEvents(target, calls[|calls| - 1])
  }

  // The outcome on record after the calls: the last one set.
  function Recorded(calls: seq<Call>): Option<Terminal> {
    if calls == [] then None
    else
      match calls[|calls| - 1]
      case SetOutcome(outcome, detail) => Some(Terminal(outcome, detail))
      case _ => Recorded(calls[..|calls| - 1])
  }

  // A session's outcome map after the calls on one target.
  function Outcomes(target: string, calls: seq<Call>): map<string, Terminal> {
    match Recorded(calls)
    case None => map[]
    case Some(terminal) => map[target := terminal]
  }

  // The status and detail EmitTargetDone settles on.
  function Settled(outcomes: map<string, Terminal>, target: string, runErr: Option<string>): Terminal {
    match runErr
    case Some(message) => Terminal(OUTCOME_FAILED, Trim(message))
    case None => if target in outcomes then outcomes[target] else Terminal("ok", "")
  }

  function TerminalOf(calls: seq<Call>, runErr: Option<string>): Terminal {
    match runErr
    case Some(message) => Terminal(OUTCOME_FAILED, Trim(message))
    case None => if Recorded(calls).Some? then Recorded(calls).value else Terminal("ok", "")
  }

  function DoneEvent(target: string, terminal: Terminal): seq<Event> {
    [Event(TargetDone, target, "", terminal.status, terminal.detail)]
  }

  function Opening(target: string): seq<Event> {
    [Event(RunStarted, target, "", "", ""), Event(TargetStarted, target, "", "running", "")]
  }

  function FailureEvents(target: string, runErr: Option<string>): seq<Event> {
    match runErr
    case None => []
    case Some(message) => [Event(StepFailed, target, "operation_failed", "failed", Trim(message))]
  }

  function RunDoneStatus(runErr: Option<string>): string {
    if runErr.Some? then "failed" else "ok"
  }

  // Everything one session emits for one operation on one target.
  function SessionEvents(target: string, calls: seq<Call>, runErr: Option<string>): seq<Event> {
    Opening(target) + CallsEvents(target, calls) + FailureEvents(target, runErr)
        + DoneEvent(target, TerminalOf(calls, runErr))
    + [Event(RunDone, "", "", RunDoneStatus(runErr), "")]
  }

  class Session {
    var emitted: seq<Event>
    var outcomes: map<string, Terminal>

    constructor (target: string)
      ensures emitted == [Event(RunStarted, target, "", "", "")] && outcomes == map[]
    {
      emitted, outcomes := [Event(RunStarted, target, "", "", "")], map[];
    }

    method Emit(event: Event)
      modifies this`emitted
      ensures emitted == old(emitted) + [event]
    {
      emitted := emitted + [event];
    }

    method OpenTargetLog(target: string)
      modifies this`emitted
      ensures emitted == old(emitted) + [Event(TargetStarted, target, "", "running", "")]
    {
      Emit(Event(TargetStarted, target, "", "running", ""));
    }

    // The methods of a target's progress sink.
    method Progress(target: string, call: Call)
      modifies this
      ensures emitted == old(emitted) + CallEvents(target, call)
      ensures outcomes == if call.SetOutcome? then old(outcomes)[target := Terminal(call.outcome, call.detail)]
              else old(outcomes)
      ensures call.Step? ==> emitted == old(emitted) + [Event(StepStarted, target, "", "running", call.detail),
                                                        Event(StepDone, target, "", "ok", call.detail)]
      ensures call.Skip? ==> emitted == old(emitted) + [Event(StepStarted, target, "", "running", call.detail),
                                                        Event(StepSkipped, target, "", "skipped", call.detail)]
      ensures call.Fail? ==> emitted == old(emitted) + [Event(StepStarted, target, "", "running", call.detail),
                                                        Event(StepFailed, target, "", "failed", call.detail)]
      ensures call.SetOutcome? ==> emitted == old(emitted)
    {
      match call
      case SetOutcome(outcome, detail) => outcomes := outcomes[target := Terminal(outcome, detail)];
      case Step(detail) => EmitMarker(target, StepDone, "ok", detail);
      case Skip(detail) => EmitMarker(target, StepSkipped, "skipped", detail);
      case Fail(detail) => EmitMarker(target, StepFailed, "failed", detail);
    }

    method EmitMarker(target: string, eventType: EventType, status: string, detail: string)
      modifies this`emitted
      ensures emitted == old(emitted) + Marker(eventType, target, status, detail)
    {
      Emit(Event(StepStarted, target, "", "running", detail));
      Emit(Event(eventType, target, "", status, detail));
    }

    method EmitStepFailed(target: string, detail: string)
      modifies this`emitted
      ensures emitted == old(emitted) + FailureEvents(target, Some(detail))
    {
      Emit(Event(StepFailed, target, "operation_failed", "failed", Trim(detail)));
    }

    method EmitTargetDone(target: string, runErr: Option<string>)
      modifies this`emitted
      ensures emitted == old(emitted) + DoneEvent(target, Settled(outcomes, target, runErr))
    {
      var status, detail := "ok", "";
      if runErr.Some? {
        status, detail := OUTCOME_FAILED, Trim(runErr.value);
      } else if target in outcomes {
        status, detail := outcomes[target].status, outcomes[target].detail;
      }
      assert Terminal(status, detail) == Settled(outcomes, target, runErr);
      Emit(Event(TargetDone, target, "", status, detail));
    }

    method Close(runErr: Option<string>)
      modifies this`emitted
      ensures emitted == old(emitted) + [Event(RunDone, "", "", RunDoneStatus(runErr), "")]
    {
      Emit(Event(RunDone, "", "", RunDoneStatus(runErr), ""));
    }

    // finishRun on the daemon, and the tail of runOperation on the client.
    method FinishRun(target: string, runErr: Option<string>)
      modifies this`emitted
      ensures emitted == old(emitted) + FailureEvents(target, runErr)
              + DoneEvent(target, Settled(outcomes, target, runErr))
                         + [Event(RunDone, "", "", RunDoneStatus(runErr), "")]
      ensures runErr.Some? ==>
                emitted == old(emitted) + [Event(StepFailed, target, "operation_failed", "failed", Trim(runErr.value)),
                                           Event(TargetDone, target, "", "failed", Trim(runErr.value)),
                                           Event(RunDone, "", "", "failed", "")]
      ensures runErr.None? && target !in outcomes ==>
                emitted == old(emitted) + [Event(TargetDone, target, "", "ok", ""), Event(RunDone, "", "", "ok", "")]
      ensures runErr.None? && target in outcomes ==>
                emitted == old(emitted) + [Event(TargetDone, target, "", outcomes[target].status,
                                                 outcomes[target].detail),
                                           Event(RunDone, "", "", "ok", "")]
    {
      if runErr.Some? {
        EmitStepFailed(target, runErr.value);
      }
      EmitTargetDone(target, runErr);
      Close(runErr);
    }
  }

  // The daemon's job for one operation: calls and runErr are what the operation does.
  method OperationJob(target: string, calls: seq<Call>, runErr: Option<string>) returns (session: Session)
    ensures session.emitted == SessionEvents(target, calls, runErr)
  {
    session := new Session(target);
    session.OpenTargetLog(target);
    for i := 0 to |calls|
      invariant Logged(target, calls[..i], session.emitted, session.outcomes)
    {
      ghost var emitted, outcomes := session.emitted, session.outcomes;
      session.Progress(target, calls[i]);
      LogOne(target, calls, i, emitted, outcomes, session.emitted, session.outcomes);
    }
    assert calls[..|calls|] == calls;
    session.FinishRun(target, runErr);
  }

  // What a session holds after some calls.
  predicate Logged(target: string, calls: seq<Call>, emitted: seq<Event>, outcomes: map<string, Terminal>) {
    emitted == Opening(target) + CallsEvents(target, calls) && outcomes == Outcomes(target, calls)
  }

  lemma LogOne(target: string, calls: seq<Call>, i: nat, emitted: seq<Event>, outcomes: map<string, Terminal>,
               emitted': seq<Event>, outcomes': map<string, Terminal>)
    requires i < |calls| && Logged(target, calls[..i], emitted, outcomes)
    requires emitted' == emitted + CallEvents(target, calls[i])
    requires outcomes' == if calls[i].SetOutcome? then outcomes[target := Terminal(calls[i].outcome, calls[i].detail)]
             else outcomes
    ensures Logged(target, calls[..i + 1], emitted', outcomes')
  {
    assert calls[..i + 1] == calls[..i] + [calls[i]];
    OneMoreCall(target, calls[..i], calls[i]);
  }

  // The call on the client's sink that one streamed event turns into.
  function EventCall(event: Event): Option<Call> {
    match event.eventType
    case StepDone => Some(Step(event.detail))
    case StepSkipped => Some(Skip(event.detail))
    case StepFailed => Some(Fail(event.detail))
    case TargetDone => if event.status == OUTCOME_FAILED then None else Some(SetOutcome(event.status, event.detail))
    case _ => None
  }

  // The failure that one streamed event reports.
  function EventFailure(event: Event): Option<string> {
    if event.eventType == TargetDone && event.status == OUTCOME_FAILED then Some(event.detail) else None
  }

  function ReplayCalls(stream: seq<Event>): seq<Call> {
    if stream == [] then []
    else
      var before := ReplayCalls(stream[..|stream| - 1]);
      var call := EventCall(stream[|stream| - 1]);
      if call.Some? then before + [call.value] else before
  }

  function ReplayFailure(stream: seq<Event>): Option<string> {
    if stream == [] then None
    else
      var failure := EventFailure(stream[|stream| - 1]);
      if failure.Some? then failure else ReplayFailure(stream[..|stream| - 1])
  }

  // What applying one event does to a session.
  predicate Applied(target: string, event: Event, emitted: seq<Event>, outcomes: map<string, Terminal>,
                    emitted': seq<Event>, outcomes': map<string, Terminal>) {
    match EventCall(event)
    case None => emitted' == emitted && outcomes' == outcomes
    case Some(call) =>
      && emitted' == emitted + CallEvents(target, call)
      && outcomes' == if call.SetOutcome? then outcomes[target := Terminal(call.outcome, call.detail)] else outcomes
  }

  // What a session holds when some stream has been replayed onto it.
  predicate Replayed(target: string, stream: seq<Event>, emitted: seq<Event>, outcomes: map<string, Terminal>) {
    Logged(target, ReplayCalls(stream), emitted, outcomes)
  }

  // Replays one event; returns the failure detail of a failed terminal event.
  method ApplyProgressEvent(event: Event, target: string, session: Session) returns (failure: Option<string>)
    modifies session
    ensures failure == EventFailure(event)
    ensures Applied(target, event, old(session.emitted), old(session.outcomes), session.emitted, session.outcomes)
  {
    failure := None;
    match event.eventType
    case StepDone => session.Progress(target, Step(event.detail));
    case StepSkipped => session.Progress(target, Skip(event.detail));
    case StepFailed => session.Progress(target, Fail(event.detail));
    case TargetDone =>
      if event.status == OUTCOME_FAILED {
        return Some(event.detail);
      }
      session.Progress(target, SetOutcome(event.status, event.detail));
    case _ =>
  }

  // How receiving a stream ends: cleanly, or with an error.
  datatype Ending = EndOfStream | Broken(message: string)

  // The error that renderOperationStream returns.
  function ClientFailure(stream: seq<Event>, ending: Ending): Option<string> {
    match ending
    case Broken(message) => Some("receive progress event: " + message)
    case EndOfStream => ReplayFailure(stream)
  }

  // The client's run of one operation: open a session, replay the stream onto it, finish.
  // A stream that breaks ends the run with the receive error, whatever it has carried before.
  method RunOperation(target: string, stream: seq<Event>, ending: Ending)
      returns (session: Session, runErr: Option<string>)
    ensures runErr == ClientFailure(stream, ending)
    ensures session.emitted == SessionEvents(target, ReplayCalls(stream), runErr)
  {
    session := new Session(target);
    session.OpenTargetLog(target);
    runErr := None;
    for i := 0 to |stream|
      invariant runErr == ReplayFailure(stream[..i])
      invariant Replayed(target, stream[..i], session.emitted, session.outcomes)
    {
      ghost var emitted, outcomes := session.emitted, session.outcomes;
      var failure := ApplyProgressEvent(stream[i], target, session);
      ReplayOne(target, stream, i, emitted, outcomes, session.emitted, session.outcomes);
      if failure.Some? {
        runErr := failure;
      }
    }
    assert stream[..|stream|] == stream;
    if ending.Broken? {
      runErr := Some("receive progress event: " + ending.message);
    }
    session.FinishRun(target, runErr);
  }

  lemma ReplayOne(target: string, stream: seq<Event>, i: nat, emitted: seq<Event>, outcomes: map<string, Terminal>,
                  emitted': seq<Event>, outcomes': map<string, Terminal>)
    requires i < |stream| && Replayed(target, stream[..i], emitted, outcomes)
    requires Applied(target, stream[i], emitted, outcomes, emitted', outcomes')
    ensures Replayed(target, stream[..i + 1], emitted', outcomes')
    ensures ReplayFailure(stream[..i + 1]) == if EventFailure(stream[i]).Some? then EventFailure(stream[i])
            else ReplayFailure(stream[..i])
  {
    ReplayStep(stream, i);
    if EventCall(stream[i]).Some? {
      OneMoreCall(target, ReplayCalls(stream[..i]), EventCall(stream[i]).value);
    }
  }

  lemma ReplayStep(stream: seq<Event>, i: nat)
    requires i < |stream|
    ensures ReplayCalls(stream[..i + 1])
            == if EventCall(stream[i]).Some? then ReplayCalls(stream[..i]) + [EventCall(stream[i]).value]
               else ReplayCalls(stream[..i])
    ensures ReplayFailure(stream[..i + 1]) == if EventFailure(stream[i]).Some? then EventFailure(stream[i])
            else ReplayFailure(stream[..i])
  {
    assert stream[..i + 1][..i] == stream[..i];
  }

  lemma OneMoreCall(target: string, calls: seq<Call>, call: Call)
    ensures Opening(target) + CallsEvents(target, calls + [call])
            == Opening(target) + CallsEvents(target, calls) + CallEvents(target, call)
    ensures Outcomes(target, calls + [call])
            == if call.SetOutcome? then map[target := Terminal(call.outcome, call.detail)] else Outcomes(target, calls)
  {
    assert (calls + [call])[..|calls|] == calls;
  }

  // The tick's reading of an app upgrade: some terminal event says the run deferred itself.
  method ReadDeferred(target: string, stream: seq<Event>) returns (deferred: bool)
    ensures deferred <==> SaysDeferred(target, stream)
    ensures deferred
            <==> exists event | event in stream ::
              && event.eventType == TargetDone && event.target == target && event.status == "skipped"
              && HasPrefix(Trim(event.detail), "deferred:")
  {
    deferred := false;
    for i := 0 to |stream|
      invariant deferred <==> exists event :: event in stream[..i] && DeferredEvent(target, event)
    {
      if DeferredEvent(target, stream[i]) {
        deferred := true;
        assert stream[i] in stream[..i + 1];
      }
    }
  }

  ghost predicate SaysDeferred(target: string, stream: seq<Event>) {
    exists event :: event in stream && DeferredEvent(target, event)
  }

  predicate DeferredEvent(target: string, event: Event) {
    event.eventType == TargetDone && event.target == target && event.status == "skipped"
        && HasPrefix(Trim(event.detail), "deferred:")
  }

  // The tick's reading of a CLI upgrade: the last terminal event decides.
  method ReadCompleted(target: string, stream: seq<Event>) returns (verdict: bool)
    ensures verdict <==> SaysCompleted(target, stream)
    ensures verdict
            <==> exists k | 0 <= k < |stream| ::
              && stream[k].eventType == TargetDone && stream[k].target == target && stream[k].status != "failed"
              && forall j | k < j < |stream| :: stream[j].eventType == TargetDone ==> stream[j].target != target
  {
    var completed, failed := false, false;
    ghost var last: nat := 0;
    for i := 0 to |stream|
      invariant completed <==> exists k :: 0 <= k < i && DoneFor(target, stream[k])
      invariant completed
                ==> last < i && DoneFor(target, stream[last]) && failed == (stream[last].status == OUTCOME_FAILED)
      invariant completed ==> forall j | last < j < i :: !DoneFor(target, stream[j])
    {
      if DoneFor(target, stream[i]) {
        completed := true;
        failed := stream[i].status == OUTCOME_FAILED;
        last := i;
      }
    }
    if completed {
      assert LastDone(target, stream, last);
      assert forall k: nat :: LastDone(target, stream, k) ==> k == last;
    }
    return completed && !failed;
  }

  predicate DoneFor(target: string, event: Event) {
    event.eventType == TargetDone && event.target == target
  }

  ghost predicate SaysCompleted(target: string, stream: seq<Event>) {
    exists k: nat :: LastDone(target, stream, k) && stream[k].status != OUTCOME_FAILED
  }

  // Position k holds the last terminal event for the target.
  predicate LastDone(target: string, stream: seq<Event>, k: nat) {
    k < |stream| && DoneFor(target, stream[k]) && forall j | k < j < |stream| :: !DoneFor(target, stream[j])
  }
}

// What the client's replay preserves of a daemon run: the terminal outcome, the steps of a
// successful run, and exactly when a cut or eventless stream misleads it.

module SessionReplay {
  import opened Text
  import opened ProgressEvents
  import opened Session

  // Step-level events: what applyProgressEvent maps.
  predicate IsStep(event: Event) {
    event.eventType == StepStarted || event.eventType == StepDone || event.eventType == StepSkipped
        || event.eventType == StepFailed
  }

  function StepsOf(events: seq<Event>): seq<Event> {
    if events == [] then []
    else
      var rest := StepsOf(events[..|events| - 1]);
      if IsStep(events[|events| - 1]) then rest + [events[|events| - 1]] else rest
  }

  lemma {:induction false} StepsOfConcat(a: seq<Event>, b: seq<Event>)
    ensures StepsOf(a + b) == StepsOf(a) + StepsOf(b)
  {
    if b == [] {
      assert a + b == a;
    } else {
      assert (a + b)[..|a + b| - 1] == a + b[..|b| - 1];
      StepsOfConcat(a, b[..|b| - 1]);
    }
  }

  lemma {:induction false} ReplayConcat(a: seq<Event>, b: seq<Event>)
    ensures ReplayCalls(a + b) == ReplayCalls(a) + ReplayCalls(b)
    ensures ReplayFailure(a + b) == if ReplayFailure(b).Some? then ReplayFailure(b) else ReplayFailure(a)
  {
    if b == [] {
      assert a + b == a;
    } else {
      assert (a + b)[..|a + b| - 1] == a + b[..|b| - 1];
      ReplayConcat(a, b[..|b| - 1]);
    }
  }

  lemma ReplayOfOne(event: Event)
    ensures ReplayCalls([event]) == match EventCall(event) case None => [] case Some(call) => [call]
    ensures ReplayFailure([event]) == EventFailure(event)
  {
    assert [event][..0] == [];
    assert forall call: Call :: [] + [call] == [call];
  }

  lemma ReplayOfTwo(first: Event, second: Event)
    requires EventCall(first).None? && EventFailure(first).None?
    ensures ReplayCalls([first, second]) == ReplayCalls([second])
    ensures ReplayFailure([first, second]) == ReplayFailure([second])
  {
    ReplayOfOne(first);
    ReplayOfOne(second);
    ReplayConcat([first], [second]);
    assert [first] + [second] == [first, second];
  }

  lemma StepsOfOne(event: Event)
    ensures StepsOf([event]) == if IsStep(event) then [event] else []
  {
    assert [event][..0] == [];
  }

  lemma StepsOfTwo(first: Event, second: Event)
    ensures StepsOf([first, second]) == StepsOf([first]) + StepsOf([second])
  {
    StepsOfConcat([first], [second]);
    assert [first] + [second] == [first, second];
  }

  // The calls that leave a mark in the stream.
  function Milestones(calls: seq<Call>): seq<Call> {
    if calls == [] then []
    else
      var rest := Milestones(calls[..|calls| - 1]);
      if calls[|calls| - 1].SetOutcome? then rest else rest + [calls[|calls| - 1]]
  }

  // Replaying the events of some calls makes the milestones among them again, and no failure.
  lemma {:induction false} ReplayCallsEvents(target: string, calls: seq<Call>)
    ensures ReplayCalls(CallsEvents(target, calls)) == Milestones(calls)
    ensures ReplayFailure(CallsEvents(target, calls)).None?
  {
    if calls != [] {
      var front, last := calls[..|calls| - 1], calls[|calls| - 1];
      ReplayCallsEvents(target, front);
      ReplayConcat(CallsEvents(target, front), CallEvents(target, last));
      ReplayCallEvents(target, last);
    }
  }

  lemma ReplayCallEvents(target: string, call: Call)
    ensures ReplayCalls(CallEvents(target, call)) == if call.SetOutcome? then [] else [call]
    ensures ReplayFailure(CallEvents(target, call)).None?
  {
    if !call.SetOutcome? {
      var events := CallEvents(target, call);
      assert events == [events[0], events[1]];
      ReplayOfTwo(events[0], events[1]);
      ReplayOfOne(events[1]);
    }
  }

  lemma {:induction false} MilestonesKeepEvents(target: string, calls: seq<Call>)
    ensures CallsEvents(target, Milestones(calls)) == CallsEvents(target, calls)
    ensures Recorded(Milestones(calls)).None?
  {
    if calls != [] {
      var front, last := calls[..|calls| - 1], calls[|calls| - 1];
      MilestonesKeepEvents(target, front);
      if !last.SetOutcome? {
        assert (Milestones(front) + [last])[..|Milestones(front)|] == Milestones(front);
      }
    }
  }

  // The stream up to, and without, its terminal event.
  function BeforeDone(target: string, calls: seq<Call>, runErr: Option<string>): seq<Event> {
    Opening(target) + CallsEvents(target, calls) + FailureEvents(target, runErr)
  }

  lemma ReplayOpening(target: string)
    ensures ReplayCalls(Opening(target)) == [] && ReplayFailure(Opening(target)).None?
  {
    var opening := Opening(target);
    ReplayOfTwo(opening[0], opening[1]);
    ReplayOfOne(opening[1]);
    assert opening == [opening[0], opening[1]];
  }

  function FailureCalls(runErr: Option<string>): seq<Call> {
    match runErr
    case None => []
    case Some(message) => [Fail(Trim(message))]
  }

  lemma ReplayFailureEvents(target: string, runErr: Option<string>)
    ensures ReplayCalls(FailureEvents(target, runErr)) == FailureCalls(runErr)
    ensures ReplayFailure(FailureEvents(target, runErr)).None?
  {
    if runErr.Some? {
      ReplayOfOne(FailureEvents(target, runErr)[0]);
    }
  }

  lemma ReplayBeforeDone(target: string, calls: seq<Call>, runErr: Option<string>)
    ensures ReplayCalls(BeforeDone(target, calls, runErr)) == Milestones(calls) + FailureCalls(runErr)
    ensures ReplayFailure(BeforeDone(target, calls, runErr)).None?
  {
    var opening, body := Opening(target), CallsEvents(target, calls);
    ReplayOpening(target);
    ReplayCallsEvents(target, calls);
    ReplayConcat(opening, body);
    assert [] + Milestones(calls) == Milestones(calls);
    ReplayConcat(opening + body, FailureEvents(target, runErr));
    ReplayFailureEvents(target, runErr);
  }

  // The calls and the failure that the client makes of a whole daemon stream.
  lemma ReplayWhole(target: string, calls: seq<Call>, runErr: Option<string>)
    ensures var stream := SessionEvents(target, calls, runErr);
            var terminal := TerminalOf(calls, runErr);
            && ReplayFailure(stream) == (if terminal.status == OUTCOME_FAILED then Some(terminal.detail) else None)
            && ReplayCalls(stream) == ReplayCalls(BeforeDone(target, calls, runErr))
                 + if terminal.status == OUTCOME_FAILED then [] else [SetOutcome(terminal.status, terminal.detail)]
  {
    var terminal := TerminalOf(calls, runErr);
    var done := DoneEvent(target, terminal);
    var closing := [Event(RunDone, "", "", RunDoneStatus(runErr), "")];
    var before := BeforeDone(target, calls, runErr);
    ReplayBeforeDone(target, calls, runErr);
    ReplayConcat(before, done);
    ReplayConcat(before + done, closing);
    ReplayOfOne(done[0]);
    ReplayOfOne(closing[0]);
  }

  // The client's terminal outcome of whatever it was streamed.
  function ClientTerminal(stream: seq<Event>): Terminal {
    TerminalOf(ReplayCalls(stream), ReplayFailure(stream))
  }

  // A client that got the whole stream ends with the daemon's status, always, and with the
  // daemon's detail except in one case: an operation that recorded the outcome failed
  // without returning an error, with white space around the detail.
  lemma ReplayPreservesTerminal(target: string, calls: seq<Call>, runErr: Option<string>)
    ensures var client := ClientTerminal(SessionEvents(target, calls, runErr));
            var daemon := TerminalOf(calls, runErr);
            && client.status == daemon.status
            && client.detail == (if daemon.status == OUTCOME_FAILED then Trim(daemon.detail) else daemon.detail)
            && (client == daemon <==> runErr.Some? || daemon.status != OUTCOME_FAILED || Trimmed(daemon.detail))
  {
    ReplayWhole(target, calls, runErr);
    var stream := SessionEvents(target, calls, runErr);
    var daemon := TerminalOf(calls, runErr);
    TrimFixes(daemon.detail);
    if runErr.Some? {
      TrimIdempotent(runErr.value);
      TrimFixes(Trim(runErr.value));
    }
    if daemon.status != OUTCOME_FAILED {
      assert ReplayCalls(stream)[|ReplayCalls(stream)| - 1] == SetOutcome(daemon.status, daemon.detail);
    }
  }

  // The run_done status agrees exactly when a failed status comes with an error.
  lemma ReplayPreservesRunStatus(target: string, calls: seq<Call>, runErr: Option<string>)
    ensures RunDoneStatus(ReplayFailure(SessionEvents(target, calls, runErr))) == RunDoneStatus(runErr)
            <==> runErr.Some? || TerminalOf(calls, runErr).status != OUTCOME_FAILED
  {
    ReplayWhole(target, calls, runErr);
  }

  // A successful run's replay emits the very events of the daemon's own session: same
  // steps, same order, same ending.
  lemma SuccessfulReplayIsExact(target: string, calls: seq<Call>)
    requires TerminalOf(calls, None).status != OUTCOME_FAILED
    ensures var stream := SessionEvents(target, calls, None);
            SessionEvents(target, ReplayCalls(stream), ReplayFailure(stream)) == stream
  {
    var stream := SessionEvents(target, calls, None);
    var terminal := TerminalOf(calls, None);
    ReplayWhole(target, calls, None);
    ReplayBeforeDone(target, calls, None);
    var client := Milestones(calls) + [SetOutcome(terminal.status, terminal.detail)];
    assert Milestones(calls) + [] == Milestones(calls);
    assert ReplayCalls(stream) == client;
    assert client[..|client| - 1] == Milestones(calls);
    MilestonesKeepEvents(target, calls);
    assert CallsEvents(target, client) == CallsEvents(target, calls) + [];
    assert CallsEvents(target, client) == CallsEvents(target, calls);
  }

  // A failed run is replayed with the operation's failure marked twice: once as an echo of
  // the daemon's own marker, once as the client's.
  lemma FailedReplaySteps(target: string, calls: seq<Call>, message: string)
    ensures var stream := SessionEvents(target, calls, Some(message));
            StepsOf(SessionEvents(target, ReplayCalls(stream), ReplayFailure(stream)))
            == CallsEvents(target, calls) + Marker(StepFailed, target, "failed", Trim(message))
                + FailureEvents(target, Some(message))
  {
    var stream := SessionEvents(target, calls, Some(message));
    var detail := Trim(message);
    ReplayWhole(target, calls, Some(message));
    ReplayBeforeDone(target, calls, Some(message));
    assert ReplayCalls(stream) == Milestones(calls) + [Fail(detail)];
    assert ReplayFailure(stream) == Some(detail);
    FailEcho(target, calls, detail);
    SessionSteps(target, ReplayCalls(stream), Some(detail));
    TrimIdempotent(message);
  }

  lemma FailEcho(target: string, calls: seq<Call>, detail: string)
    ensures CallsEvents(target, Milestones(calls) + [Fail(detail)])
            == CallsEvents(target, calls) + Marker(StepFailed, target, "failed", detail)
  {
    assert (Milestones(calls) + [Fail(detail)])[..|Milestones(calls)|] == Milestones(calls);
    MilestonesKeepEvents(target, calls);
  }

  lemma {:induction false} CallsAreSteps(target: string, calls: seq<Call>)
    ensures StepsOf(CallsEvents(target, calls)) == CallsEvents(target, calls)
  {
    if calls != [] {
      var front, last := calls[..|calls| - 1], calls[|calls| - 1];
      CallsAreSteps(target, front);
      StepsOfConcat(CallsEvents(target, front), CallEvents(target, last));
      CallIsSteps(target, last);
    }
  }

  lemma CallIsSteps(target: string, call: Call)
    ensures StepsOf(CallEvents(target, call)) == CallEvents(target, call)
  {
    if !call.SetOutcome? {
      var events := CallEvents(target, call);
      StepsOfTwo(events[0], events[1]);
      StepsOfOne(events[0]);
      StepsOfOne(events[1]);
      assert events == [events[0], events[1]];
    }
  }

  lemma FailureIsStep(target: string, runErr: Option<string>)
    ensures StepsOf(FailureEvents(target, runErr)) == FailureEvents(target, runErr)
  {
    if runErr.Some? {
      StepsOfOne(FailureEvents(target, runErr)[0]);
    }
  }

  lemma OpeningHasNoSteps(target: string)
    ensures StepsOf(Opening(target)) == []
  {
    var opening := Opening(target);
    StepsOfTwo(opening[0], opening[1]);
    StepsOfOne(opening[0]);
    StepsOfOne(opening[1]);
    assert opening == [opening[0], opening[1]];
  }

  lemma SessionSteps(target: string, calls: seq<Call>, runErr: Option<string>)
    ensures StepsOf(SessionEvents(target, calls, runErr)) == CallsEvents(target, calls) + FailureEvents(target, runErr)
  {
    var opening, body, failure := Opening(target), CallsEvents(target, calls), FailureEvents(target, runErr);
    var done := DoneEvent(target, TerminalOf(calls, runErr));
    var closing := [Event(RunDone, "", "", RunDoneStatus(runErr), "")];
    OpeningHasNoSteps(target);
    StepsOfOne(done[0]);
    StepsOfOne(closing[0]);
    CallsAreSteps(target, calls);
    FailureIsStep(target, runErr);
    InnerSteps(opening, body, failure, done, closing);
  }

  lemma InnerSteps(a: seq<Event>, b: seq<Event>, c: seq<Event>, d: seq<Event>, e: seq<Event>)
    requires StepsOf(a) == [] && StepsOf(b) == b && StepsOf(c) == c && StepsOf(d) == [] && StepsOf(e) == []
    ensures StepsOf(a + b + c + d + e) == b + c
  {
    NoneThenSteps(a, b);
    StepsOfConcat(a + b, c);
    StepsThenNone(a + b + c, d);
    StepsThenNone(a + b + c + d, e);
  }

  lemma NoneThenSteps(a: seq<Event>, b: seq<Event>)
    requires StepsOf(a) == [] && StepsOf(b) == b
    ensures StepsOf(a + b) == b
  {
    StepsOfConcat(a, b);
    assert [] + b == b;
  }

  lemma StepsThenNone(a: seq<Event>, b: seq<Event>)
    requires StepsOf(b) == []
    ensures StepsOf(a + b) == StepsOf(a)
  {
    StepsOfConcat(a, b);
    assert StepsOf(a) + [] == StepsOf(a);
  }

  // What the client concludes from any part of a stream, however receiving it ends.
  function ClientConclusion(stream: seq<Event>, ending: Ending): Terminal {
    TerminalOf(ReplayCalls(stream), ClientFailure(stream, ending))
  }

  // A stream that ends early. With a clean end, as when a job fails while it sets up its
  // session and logs, the client is right about the terminal outcome exactly when the terminal
  // event got through unharmed or the daemon's outcome was a bare ok: otherwise it reports ok
  // for a run that was not. With a receive error it always reports that error as a failure, so
  // it is right about the status exactly when the run did fail, and about the whole outcome
  // only if the run failed in these very words.
  lemma CutStreamTerminal(target: string, calls: seq<Call>, runErr: Option<string>, n: nat, ending: Ending)
    requires n <= |SessionEvents(target, calls, runErr)|
    ensures var whole := SessionEvents(target, calls, runErr);
            var client := ClientConclusion(whole[..n], ending);
            var daemon := TerminalOf(calls, runErr);
            if ending.Broken? then
              && client == Terminal(OUTCOME_FAILED, Trim("receive progress event: " + ending.message))
              && (client.status == daemon.status <==> daemon.status == OUTCOME_FAILED)
            else if n <= |BeforeDone(target, calls, runErr)| then
              client == Terminal("ok", "") && (client == daemon <==> daemon == Terminal("ok", ""))
            else
              && client == ClientTerminal(whole)
              && (client == daemon <==> runErr.Some? || daemon.status != OUTCOME_FAILED || Trimmed(daemon.detail))
  {
    if ending.EndOfStream? {
      if n <= |BeforeDone(target, calls, runErr)| {
        CutBeforeDone(target, calls, runErr, n);
      } else {
        CutAfterDone(target, calls, runErr, n);
        ReplayPreservesTerminal(target, calls, runErr);
      }
    }
  }

  lemma CutBeforeDone(target: string, calls: seq<Call>, runErr: Option<string>, n: nat)
    requires n <= |BeforeDone(target, calls, runErr)|
    ensures ClientTerminal(SessionEvents(target, calls, runErr)[..n]) == Terminal("ok", "")
  {
    NoOutcomeBeforeDone(target, calls, runErr);
    QuietPrefix(BeforeDone(target, calls, runErr), n);
    BeforeDoneStarts(target, calls, runErr, n);
  }

  lemma BeforeDoneStarts(target: string, calls: seq<Call>, runErr: Option<string>, n: nat)
    requires n <= |BeforeDone(target, calls, runErr)|
    ensures n <= |SessionEvents(target, calls, runErr)|
    ensures SessionEvents(target, calls, runErr)[..n] == BeforeDone(target, calls, runErr)[..n]
  {
    assert BeforeDone(target, calls, runErr) <= SessionEvents(target, calls, runErr);
  }

  lemma QuietPrefix(before: seq<Event>, n: nat)
    requires n <= |before| && Recorded(ReplayCalls(before)).None? && ReplayFailure(before).None?
    ensures ClientTerminal(before[..n]) == Terminal("ok", "")
  {
    assert before == before[..n] + before[n..];
    ReplayConcat(before[..n], before[n..]);
    RecordedPrefix(ReplayCalls(before[..n]), ReplayCalls(before[n..]));
  }

  lemma CutAfterDone(target: string, calls: seq<Call>, runErr: Option<string>, n: nat)
    requires |BeforeDone(target, calls, runErr)| < n <= |SessionEvents(target, calls, runErr)|
    ensures ClientTerminal(SessionEvents(target, calls, runErr)[..n])
            == ClientTerminal(SessionEvents(target, calls, runErr))
  {
    var stream := SessionEvents(target, calls, runErr);
    var cut := stream[..n];
    if n < |stream| {
      var closing := [Event(RunDone, "", "", RunDoneStatus(runErr), "")];
      assert stream == cut + closing;
      ReplayConcat(cut, closing);
      ReplayOfOne(closing[0]);
      assert ReplayCalls(cut) + [] == ReplayCalls(cut);
    } else {
      assert cut == stream;
    }
  }

  lemma {:induction false} RecordedPrefix(a: seq<Call>, b: seq<Call>)
    requires Recorded(a + b).None?
    ensures Recorded(a).None?
  {
    if b == [] {
      assert a + b == a;
    } else {
      assert (a + b)[..|a + b| - 1] == a + b[..|b| - 1];
      RecordedPrefix(a, b[..|b| - 1]);
    }
  }

  lemma NoOutcomeBeforeDone(target: string, calls: seq<Call>, runErr: Option<string>)
    ensures Recorded(ReplayCalls(BeforeDone(target, calls, runErr))).None?
    ensures ReplayFailure(BeforeDone(target, calls, runErr)).None?
  {
    ReplayBeforeDone(target, calls, runErr);
    MilestonesKeepEvents(target, calls);
    if runErr.Some? {
      var calls' := Milestones(calls) + [Fail(Trim(runErr.value))];
      assert calls'[..|calls'| - 1] == Milestones(calls);
    } else {
      assert Milestones(calls) + [] == Milestones(calls);
    }
  }

  // What the tick's readers make of an operation job's stream: an app upgrade counts as
  // deferred exactly when the operation returned no error and recorded a skip that says
  // so, a CLI upgrade as completed exactly when its terminal status is not failed.
  lemma VerdictsOfJob(target: string, calls: seq<Call>, runErr: Option<string>)
    ensures var stream := SessionEvents(target, calls, runErr);
            var terminal := TerminalOf(calls, runErr);
            && (SaysDeferred(target, stream)
                <==> runErr.None? && terminal.status == "skipped" && HasPrefix(Trim(terminal.detail), "deferred:"))
            && (SaysCompleted(target, stream) <==> terminal.status != OUTCOME_FAILED)
  {
    var stream := SessionEvents(target, calls, runErr);
    var before := BeforeDone(target, calls, runErr);
    var terminal := TerminalOf(calls, runErr);
    forall k | 0 <= k < |stream|
      ensures DoneFor(target, stream[k]) <==> k == |before|
    {
      if k < |before| {
        assert stream[k] == before[k];
        NoDoneBefore(target, calls, runErr, k);
      }
    }
    assert stream[|before|] == DoneEvent(target, terminal)[0];
    assert LastDone(target, stream, |before|);
    assert stream[|before|] in stream;
  }

  lemma NoDoneBefore(target: string, calls: seq<Call>, runErr: Option<string>, k: nat)
    requires k < |BeforeDone(target, calls, runErr)|
    ensures BeforeDone(target, calls, runErr)[k].eventType != TargetDone
  {
    if 2 <= k < 2 + |CallsEvents(target, calls)| {
      assert BeforeDone(target, calls, runErr)[k] == CallsEvents(target, calls)[k - 2];
      CallsHaveNoDone(target, calls, k - 2);
    }
  }

  lemma {:induction false} CallsHaveNoDone(target: string, calls: seq<Call>, k: nat)
    requires k < |CallsEvents(target, calls)|
    ensures CallsEvents(target, calls)[k].eventType != TargetDone
  {
    var front := CallsEvents(target, calls[..|calls| - 1]);
    if k < |front| {
      CallsHaveNoDone(target, calls[..|calls| - 1], k);
    }
  }
}

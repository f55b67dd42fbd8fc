// What the run protocol guarantees over every behaviour: exclusion per target, ordered and
// complete delivery, no lost wake-up, draining, and the meaning of a merged stream's end.

module RunGuarantees {
  import opened ProgressEvents
  import opened Executor
  import opened RunProtocol
  import opened RunHistory
  import Session

  // No two runs of one target are in flight at once, so two jobs for one target never
  // execute at once; and no finished broadcaster is reachable from the map.
  lemma OneRunPerTarget(states: seq<State>, actions: seq<Action>, n: nat)
    requires Behaviour(states, actions) && n < |states|
    ensures var s := states[n];
            && (forall q, r | 0 <= q < r < |s.runs| && Undeleted(s.runs[q].phase) && Undeleted(s.runs[r].phase) ::
                  s.runs[q].key.target != s.runs[r].key.target)
            && (forall k | k in s.active :: s.active[k] < |s.runs| && !s.runs[s.active[k]].done)
  {
    ReachableInv(states, actions, n);
    var s := states[n];
    forall q: nat, r: nat | q < r < |s.runs| && Undeleted(s.runs[q].phase) && Undeleted(s.runs[r].phase)
      ensures s.runs[q].key.target != s.runs[r].key.target
    {
      assert RunOk(s, q) && RunOk(s, r);
    }
    forall k | k in s.active
      ensures !s.runs[s.active[k]].done
    {
      assert RunOk(s, s.active[k]);
    }
  }

  // The delete that a returned job defers removes its own run and nothing else: every other
  // undeleted run, a later run of the same target included, stays reachable under its key.
  lemma DeleteRemovesOwnRun(states: seq<State>, actions: seq<Action>, n: nat, r: nat)
    requires Behaviour(states, actions) && n < |actions| && actions[n] == Delete(r)
    ensures r < |states[n].runs|
    ensures var (s, t) := (states[n], states[n + 1]);
            && s.runs[r].key in s.active && s.active[s.runs[r].key] == r
            && t.active == s.active - {s.runs[r].key}
            && (forall q | 0 <= q < |t.runs| && Undeleted(t.runs[q].phase) ::
                t.runs[q].key in t.active && t.active[t.runs[q].key] == q)
  {
    ReachableInv(states, actions, n);
    ReachableInv(states, actions, n + 1);
    var t := states[n + 1];
    assert StepAt(states, actions, n) && RunOk(states[n], r);
    forall q: nat | q < |t.runs| && Undeleted(t.runs[q].phase)
      ensures t.runs[q].key in t.active && t.active[t.runs[q].key] == q
    {
      assert RunOk(t, q);
    }
  }

  // Every subscriber has been sent a prefix of what its run's job has emitted; a stream that
  // ended because the run finished was sent all of it; a sleeper misses nothing and has its
  // wake-up coming: the run is live, and its context is live or about to broadcast.
  lemma DeliveryAndWakeUp(states: seq<State>, actions: seq<Action>, n: nat, i: nat)
    requires Behaviour(states, actions) && n < |states| && i < |states[n].subs|
    ensures states[n].subs[i].run < |states[n].runs|
    ensures var sub := states[n].subs[i];
            var emitted := Emitted(actions[..n], sub.run);
            && sub.sent <= emitted
            && (sub.pc == Ended(RunFinished) ==> Finish(sub.run) in actions[..n] && sub.sent == emitted)
            && (sub.pc == Waiting ==>
                  sub.sent == emitted && Finish(sub.run) !in actions[..n] && (sub.cancelled ==> sub.after == Pending))
  {
    ReachableInv(states, actions, n);
    RunIsTold(states, actions, n, states[n].subs[i].run);
    assert SubOk(states[n], i);
  }

  // Restricted to one member, a merged stream is a prefix of that member's run. Once the
  // group has closed with its caller still connected, every member got its whole run
  // exactly when no send failed; and an error return means that some member did not.
  lemma MergedDelivery(states: seq<State>, actions: seq<Action>, n: nat, g: nat)
    requires Behaviour(states, actions) && n < |states| && g < |states[n].groups|
    ensures WellFormed(states[n])
    ensures forall i | 0 <= i < |states[n].subs| && states[n].subs[i].membership == Member(g) ::
              && Through(states[n].groups[g].log, i) <= states[n].runs[states[n].subs[i].run].events
              && states[n].runs[states[n].subs[i].run].events == Emitted(actions[..n], states[n].subs[i].run)
    ensures states[n].groups[g].verdict != StillOpen && !states[n].groups[g].callerCancelled ==>
              (!states[n].groups[g].failed <==> CompleteForAll(states[n], g))
    ensures states[n].groups[g].verdict == ClosedError ==> !CompleteForAll(states[n], g)
  {
    ReachableInv(states, actions, n);
    var s := states[n];
    assert GroupOk(s, g);
    forall i: nat | i < |s.subs| && s.subs[i].membership == Member(g)
      ensures Through(s.groups[g].log, i) <= s.runs[s.subs[i].run].events
      ensures s.runs[s.subs[i].run].events == Emitted(actions[..n], s.subs[i].run)
      ensures s.groups[g].verdict != StillOpen && !s.groups[g].callerCancelled && !s.groups[g].failed
              ==> CompleteFor(s, g, i)
    {
      assert SubOk(s, i);
      RunIsTold(states, actions, n, s.subs[i].run);
    }
    if s.groups[g].failed {
      var m :| FailedMember(s, g, m);
      assert SubOk(s, m) && !CompleteFor(s, g, m);
    }
  }

  ghost predicate CompleteFor(s: State, g: nat, i: nat)
    requires WellFormed(s) && g < |s.groups| && i < |s.subs|
  {
    s.runs[s.subs[i].run].done && Through(s.groups[g].log, i) == s.runs[s.subs[i].run].events
  }

  ghost predicate CompleteForAll(s: State, g: nat)
    requires WellFormed(s) && g < |s.groups|
  {
    forall i | 0 <= i < |s.subs| && s.subs[i].membership == Member(g) :: CompleteFor(s, g, i)
  }

  // A nil return from streamActiveRuns does not mean that every send succeeded: when the
  // failing goroutine has already finished, select may take the closed doneCh instead of
  // the buffered error. The behaviour below ends so: two runs share a sender, the first
  // run's only event fails to send, and the group closes with nil.

  const KEY_A := RunKey("upgrade", "a")
  const KEY_B := RunKey("upgrade", "b")
  const PROGRESS := Event(StepDone, "a", "", "ok", "")

  function RunA(mutex: Mutex): Run { Run(KEY_A, false, Executing, [PROGRESS], false, mutex) }

  function RunB(mutex: Mutex): Run { Run(KEY_B, false, Executing, [], false, mutex) }

  function Watcher(run: nat, index: nat, pc: Pc, cancelled: bool, after: AfterFunc, reported: bool): Sub {
    Sub(run, Member(0), index, [], pc, cancelled, after, reported)
  }

  function Shared(runs: seq<Run>, first: Sub, second: Sub, failed: bool, verdict: Verdict): State {
    State(runs, map[KEY_A := 0, KEY_B := 1], [first, second], [Group([], failed, false, verdict)])
  }

  const FRESH := Watcher(1, 0, WantLock, false, Armed, false)
  const TOLD := Watcher(1, 0, WantLock, true, Pending, false)
  const REPORTED := Watcher(0, 1, Ended(SendFailed), true, Stopped, true)

  function SharedStates(): seq<State> {
    [ Shared([RunA(Free), RunB(Free)], Watcher(0, 0, WantLock, false, Armed, false), FRESH, false, StillOpen),
      Shared([RunA(HeldBy(0)), RunB(Free)], Watcher(0, 0, AtTop, false, Armed, false), FRESH, false, StillOpen),
      Shared([RunA(Free), RunB(Free)], Watcher(0, 1, Holding(PROGRESS), false, Armed, false), FRESH, false, StillOpen),
      Shared([RunA(Free), RunB(Free)], Watcher(0, 1, Cleared(PROGRESS), false, Armed, false), FRESH, false, StillOpen),
      Shared([RunA(Free), RunB(Free)], Watcher(0, 1, Ended(SendFailed), false, Stopped, false), FRESH, false,
          StillOpen),
      Shared([RunA(Free), RunB(Free)], REPORTED, TOLD, true, StillOpen),
      Shared([RunA(Free), RunB(HeldBy(1))], REPORTED, TOLD.(pc := AtTop), true, StillOpen),
      Shared([RunA(Free), RunB(Free)], REPORTED, TOLD.(pc := Ended(Detached)), true, StillOpen),
      Shared([RunA(Free), RunB(Free)], REPORTED, TOLD.(pc := Ended(Detached)), true, ClosedNil) ]
  }

  function SharedActions(): seq<Action> {
    [Acquire(0), Take(0), CheckContext(0), SendError(0), Report(0), Acquire(1), Conclude(1), Close(0, ClosedNil)]
  }

  function OpeningStates(): seq<State> {
    [ INITIAL,
      State([Run(KEY_A, false, Executing, [], false, Free)], map[KEY_A := 0], [], []),
      State([Run(KEY_A, false, Executing, [], false, Free), RunB(Free)], map[KEY_A := 0, KEY_B := 1], [], []),
      State([RunA(Free), RunB(Free)], map[KEY_A := 0, KEY_B := 1], [], []) ]
  }

  function OpeningActions(): seq<Action> {
    [StartOrAttach(KEY_A, false), StartOrAttach(KEY_B, false), Emit(0, PROGRESS), WatchTogether([0, 1], false)]
  }

  lemma OpeningStarts()
    ensures Step(OpeningStates()[0], StartOrAttach(KEY_A, false), OpeningStates()[1])
    ensures Step(OpeningStates()[1], StartOrAttach(KEY_B, false), OpeningStates()[2])
  {
    assert KEY_A.target == "a" && KEY_B.target == "b";
    assert Decide(Modes(OpeningStates()[1]), KEY_B, false) == Start;
  }

  lemma OpeningEmit()
    ensures Step(OpeningStates()[2], Emit(0, PROGRESS), OpeningStates()[3])
  {
    assert OpeningStates()[2].runs[0].events + [PROGRESS] == [PROGRESS];
    assert Woken([], 0) == [];
  }

  lemma OpeningWatch()
    ensures Step(OpeningStates()[3], WatchTogether([0, 1], false), SharedStates()[0])
  {
    assert Apply(OpeningStates()[3], WatchTogether([0, 1], false)).subs == SharedStates()[0].subs;
  }

  lemma FirstTakes()
    ensures Step(SharedStates()[0], SharedActions()[0], SharedStates()[1])
    ensures Step(SharedStates()[1], SharedActions()[1], SharedStates()[2])
  {
    assert Apply(SharedStates()[0], Acquire(0)) == SharedStates()[1];
    assert Apply(SharedStates()[1], Take(0)) == SharedStates()[2];
  }

  lemma FirstFails()
    ensures Step(SharedStates()[2], SharedActions()[2], SharedStates()[3])
    ensures Step(SharedStates()[3], SharedActions()[3], SharedStates()[4])
  {
    assert Apply(SharedStates()[2], CheckContext(0)) == SharedStates()[3];
    assert Apply(SharedStates()[3], SendError(0)) == SharedStates()[4];
  }

  lemma FirstReports()
    ensures Step(SharedStates()[4], SharedActions()[4], SharedStates()[5])
  {
    assert Apply(SharedStates()[4], Report(0)).subs == SharedStates()[5].subs;
  }

  lemma SecondDetaches()
    ensures Step(SharedStates()[5], SharedActions()[5], SharedStates()[6])
    ensures Step(SharedStates()[6], SharedActions()[6], SharedStates()[7])
  {
    assert Apply(SharedStates()[5], Acquire(1)) == SharedStates()[6];
    assert Apply(SharedStates()[6], Conclude(1)) == SharedStates()[7];
  }

  lemma GroupCloses()
    ensures Step(SharedStates()[7], SharedActions()[7], SharedStates()[8])
  {
    assert Apply(SharedStates()[7], Close(0, ClosedNil)) == SharedStates()[8];
  }

  lemma SharedRun()
    ensures Chain(Step, SharedStates(), SharedActions())
  {
    FirstTakes();
    FirstFails();
    FirstReports();
    SecondDetaches();
    GroupCloses();
  }

  lemma OpeningRun()
    ensures Chain(Step, OpeningStates() + [SharedStates()[0]], OpeningActions())
  {
    OpeningStarts();
    OpeningEmit();
    OpeningWatch();
  }

  // Two stretches of a behaviour, one after the other.
  ghost predicate Chain<S, A>(step: (S, A, S) -> bool, states: seq<S>, actions: seq<A>) {
    |states| == |actions| + 1 && forall n | 0 <= n < |actions| :: step(states[n], actions[n], states[n + 1])
  }

  lemma JoinedChain<S, A>(step: (S, A, S) -> bool, before: seq<S>, after: seq<S>, opening: seq<A>, closing: seq<A>)
    requires after != [] && Chain(step, before + [after[0]], opening) && Chain(step, after, closing)
    ensures Chain(step, before + after, opening + closing)
  {
    var states, actions := before + after, opening + closing;
    forall n | 0 <= n < |actions| ensures step(states[n], actions[n], states[n + 1]) {
      if n < |opening| {
        var first := before + [after[0]];
        assert step(first[n], opening[n], first[n + 1]);
      } else {
        var m := n - |opening|;
        assert step(after[m], closing[m], after[m + 1]);
      }
    }
  }

  lemma NilReturnMayHideFailure() returns (states: seq<State>, actions: seq<Action>)
    ensures Behaviour(states, actions)
    ensures var end := states[|actions|];
            && WellFormed(end) && |end.groups| == 1 && |end.runs| > 0
            && end.groups[0].verdict == ClosedNil && end.groups[0].failed && !end.groups[0].callerCancelled
            && end.groups[0].log == [] && end.runs[0].events == [PROGRESS]
            && |end.subs| > 0 && end.subs[0].run == 0 && end.subs[0].membership == Member(0) && end.subs[0].sent == []
  {
    states, actions := OpeningStates() + SharedStates(), OpeningActions() + SharedActions();
    OpeningRun();
    SharedRun();
    JoinedChain(Step, OpeningStates(), SharedStates(), OpeningActions(), SharedActions());
    assert Chain(Step, states, actions);
    forall n | 0 <= n < |actions| ensures StepAt(states, actions, n) {
      assert Step(states[n], actions[n], states[n + 1]);
    }
    SharedEnd();
  }

  lemma SharedEnd()
    ensures var end := SharedStates()[8];
            && WellFormed(end) && |end.groups| == 1 && |end.runs| > 0
            && end.groups[0].verdict == ClosedNil && end.groups[0].failed && !end.groups[0].callerCancelled
            && end.groups[0].log == [] && end.runs[0].events == [PROGRESS]
            && |end.subs| > 0 && end.subs[0].run == 0 && end.subs[0].membership == Member(0) && end.subs[0].sent == []
  {}

  // What never changes under a subscriber or a run as a behaviour goes on.
  ghost predicate Later(s: State, t: State) {
    && |s.runs| <= |t.runs| && |s.subs| <= |t.subs|
    && (forall r | 0 <= r < |s.runs| :: RunLater(s.runs[r], t.runs[r]))
    && (forall i | 0 <= i < |s.subs| :: SubLater(s.subs[i], t.subs[i]))
  }

  ghost predicate RunLater(run: Run, now: Run) {
    now.key == run.key && run.events <= now.events && (run.done ==> now.done && now.events == run.events)
  }

  ghost predicate SubLater(sub: Sub, now: Sub) {
    && now.run == sub.run && sub.sent <= now.sent
    && (sub.pc.Ended? ==> now.pc == sub.pc && now.sent == sub.sent)
    && (sub.cancelled ==> now.cancelled && Committed(now) <= Committed(sub))
  }

  // Events sent, counting one that has already passed its context check.
  function Committed(sub: Sub): nat {
    |sub.sent| + if sub.pc.Cleared? then 1 else 0
  }

  lemma StepKeepsRun(s: State, a: Action, r: nat)
    requires Inv(s) && Enabled(s, a) && r < |s.runs|
    ensures r < |Apply(s, a).runs| && RunLater(s.runs[r], Apply(s, a).runs[r])
  {
    assert RunOk(s, r);
  }

  // The steps a subscriber takes itself.
  predicate OwnStep(a: Action, i: nat) {
    a == Acquire(i) || a == Take(i) || a == CheckContext(i) || a == SendOk(i) || a == SendError(i)
        || a == Conclude(i) || a == Sleep(i)
  }

  // What any other step does to it at most: it is woken, cancelled, or its failure reported.
  predicate Swept(sub: Sub, now: Sub) {
    && now.run == sub.run && now.index == sub.index && now.sent == sub.sent
    && (now.pc == sub.pc || (sub.pc == Waiting && now.pc == WantLock))
    && (sub.cancelled ==> now.cancelled)
  }

  // Steps that wake or cancel subscribers.
  predicate Sweeping(a: Action) {
    a.Emit? || a.Finish? || a.RunAfterFunc? || a.Report? || a.CancelCaller? || a.Cancel?
  }

  lemma SweepSweeps(s: State, a: Action, i: nat)
    requires WellFormed(s) && Enabled(s, a) && i < |s.subs| && Sweeping(a)
    ensures i < |Apply(s, a).subs| && Swept(s.subs[i], Apply(s, a).subs[i])
  {}

  lemma BystanderStays(s: State, a: Action, i: nat)
    requires WellFormed(s) && Enabled(s, a) && i < |s.subs| && !Sweeping(a) && !OwnStep(a, i)
    ensures i < |Apply(s, a).subs| && Apply(s, a).subs[i] == s.subs[i]
  {}

  lemma OtherStepSweeps(s: State, a: Action, i: nat)
    requires WellFormed(s) && Enabled(s, a) && i < |s.subs| && !OwnStep(a, i)
    ensures i < |Apply(s, a).subs| && Swept(s.subs[i], Apply(s, a).subs[i])
  {
    if Sweeping(a) {
      SweepSweeps(s, a, i);
    } else {
      BystanderStays(s, a, i);
    }
  }

  // Its own steps: a send,
  lemma SendKeepsSub(s: State, i: nat)
    requires WellFormed(s) && Enabled(s, SendOk(i))
    ensures i < |DoSendOk(s, i).subs| && SubLater(s.subs[i], DoSendOk(s, i).subs[i])
  {}

  // a conclusion,
  lemma ConclusionKeepsSub(s: State, i: nat)
    requires WellFormed(s) && Enabled(s, Conclude(i))
    ensures i < |DoConclude(s, i).subs| && SubLater(s.subs[i], DoConclude(s, i).subs[i])
  {}

  // and those that leave what it was sent alone.
  lemma QuietKeepsSub(s: State, a: Action, i: nat)
    requires WellFormed(s) && Enabled(s, a) && i < |s.subs| && OwnStep(a, i) && !a.SendOk? && !a.Conclude?
    ensures i < |Apply(s, a).subs| && SubLater(s.subs[i], Apply(s, a).subs[i])
  {}

  lemma OwnStepKeepsSub(s: State, a: Action, i: nat)
    requires WellFormed(s) && Enabled(s, a) && i < |s.subs| && OwnStep(a, i)
    ensures i < |Apply(s, a).subs| && SubLater(s.subs[i], Apply(s, a).subs[i])
  {
    match a
    case SendOk(_) => SendKeepsSub(s, i);
    case Conclude(_) => ConclusionKeepsSub(s, i);
    case _ => QuietKeepsSub(s, a, i);
  }

  lemma StepKeepsSub(s: State, a: Action, i: nat)
    requires Inv(s) && Enabled(s, a) && i < |s.subs|
    ensures i < |Apply(s, a).subs| && SubLater(s.subs[i], Apply(s, a).subs[i])
  {
    if OwnStep(a, i) {
      OwnStepKeepsSub(s, a, i);
    } else {
      OtherStepSweeps(s, a, i);
    }
  }

  lemma StepIsLater(s: State, a: Action)
    requires Inv(s) && Enabled(s, a)
    ensures Later(s, Apply(s, a))
  {
    forall r: nat | r < |s.runs| ensures r < |Apply(s, a).runs| && RunLater(s.runs[r], Apply(s, a).runs[r]) {
      StepKeepsRun(s, a, r);
    }
    forall i: nat | i < |s.subs| ensures i < |Apply(s, a).subs| && SubLater(s.subs[i], Apply(s, a).subs[i]) {
      StepKeepsSub(s, a, i);
    }
    assert |s.runs| <= |Apply(s, a).runs| by {
      if |s.runs| > 0 { StepKeepsRun(s, a, |s.runs| - 1); }
    }
    assert |s.subs| <= |Apply(s, a).subs| by {
      if |s.subs| > 0 { StepKeepsSub(s, a, |s.subs| - 1); }
    }
  }

  lemma NextIsLater(states: seq<State>, actions: seq<Action>, n: nat)
    requires Behaviour(states, actions) && n < |actions|
    ensures Later(states[n], states[n + 1])
  {
    ReachableInv(states, actions, n);
    assert StepAt(states, actions, n);
    StepIsLater(states[n], actions[n]);
  }

  lemma LaterSelf(s: State)
    ensures Later(s, s)
  {}

  lemma LaterTrans(s: State, t: State, u: State)
    requires Later(s, t) && Later(t, u)
    ensures Later(s, u)
  {
    forall r | 0 <= r < |s.runs| ensures RunLater(s.runs[r], u.runs[r]) {
      assert RunLater(s.runs[r], t.runs[r]) && RunLater(t.runs[r], u.runs[r]);
    }
    forall i | 0 <= i < |s.subs| ensures SubLater(s.subs[i], u.subs[i]) {
      assert SubLater(s.subs[i], t.subs[i]) && SubLater(t.subs[i], u.subs[i]);
    }
  }

  lemma {:induction false} BehaviourIsLater(states: seq<State>, actions: seq<Action>, n: nat, m: nat)
    requires Behaviour(states, actions) && n <= m < |states|
    ensures Later(states[n], states[m])
    decreases m
  {
    if n < m {
      BehaviourIsLater(states, actions, n, m - 1);
      NextIsLater(states, actions, m - 1);
      LaterTrans(states[n], states[m - 1], states[m]);
    } else {
      LaterSelf(states[n]);
    }
  }

  // A subscriber whose context is cancelled is sent at most one more event, however long
  // the run goes on.
  lemma CancelledSubscriberDetaches(states: seq<State>, actions: seq<Action>, n: nat, m: nat, i: nat)
    requires Behaviour(states, actions) && n <= m < |states|
    requires i < |states[n].subs| && states[n].subs[i].cancelled
    ensures i < |states[m].subs| && |states[m].subs[i].sent| <= |states[n].subs[i].sent| + 1
  {
    BehaviourIsLater(states, actions, n, m);
  }

  // A reader whose stream has ended, and neither because it was cancelled nor because its
  // sender failed; or one that saw the run finish, cancelled or not.
  predicate ReadToEnd(sub: Sub) {
    sub.pc == Ended(RunFinished) || (sub.pc.Ended? && !sub.cancelled && sub.pc != Ended(SendFailed))
  }

  lemma ReadToEndIsWhole(states: seq<State>, actions: seq<Action>, n: nat, i: nat)
    requires Behaviour(states, actions) && n < |states| && i < |states[n].subs| && ReadToEnd(states[n].subs[i])
    ensures var sub := states[n].subs[i];
            && sub.run < |states[n].runs| && states[n].runs[sub.run].done && sub.sent == states[n].runs[sub.run].events
  {
    ReachableInv(states, actions, n);
    assert SubOk(states[n], i);
  }

  // A lone watcher has its run's stream to itself (streamActiveRuns of one run): a nil return
  // that is not a cancellation means that the whole history was sent.
  lemma LoneNilIsWhole(states: seq<State>, actions: seq<Action>, n: nat, i: nat)
    requires Behaviour(states, actions) && n < |states| && i < |states[n].subs|
    requires var sub := states[n].subs[i];
             sub.membership == Alone && sub.pc.Ended? && sub.pc.why != SendFailed && !sub.cancelled
    ensures var sub := states[n].subs[i];
            && sub.run < |states[n].runs| && states[n].runs[sub.run].done && sub.sent == states[n].runs[sub.run].events
            && sub.sent == Emitted(actions[..n], sub.run)
  {
    ReadToEndIsWhole(states, actions, n, i);
    RunIsTold(states, actions, n, states[n].subs[i].run);
  }

  // What streamActiveRuns has returned nil for, to a caller who is still there.
  ghost predicate NilReturned(s: State, sub: Sub) {
    match sub.membership
    case Alone => sub.pc.Ended? && sub.pc.why != SendFailed && !sub.cancelled
    case Member(g) => g < |s.groups| && s.groups[g].verdict == ClosedNil && !s.groups[g].callerCancelled
  }

  // A nil return with part of a run unsent, from one run or from several sharing a sender.
  ghost predicate NilHides(s: State, i: nat, shared: bool) {
    && i < |s.subs| && s.subs[i].run < |s.runs|
    && s.subs[i].membership.Member? == shared
    && NilReturned(s, s.subs[i]) && s.subs[i].sent != s.runs[s.subs[i].run].events
  }

  // A nil return can hide an incomplete delivery exactly when the sender is shared.
  lemma NilHidesIffShared(shared: bool)
    ensures (exists states, actions, i :: Behaviour(states, actions) && NilHides(states[|actions|], i, shared))
            <==> shared
  {
    if shared {
      var states, actions := NilReturnMayHideFailure();
      assert NilHides(states[|actions|], 0, true);
    }
    forall states, actions, i: nat | Behaviour(states, actions) && NilHides(states[|actions|], i, shared)
      ensures shared
    {
      if !shared {
        LoneNilIsWhole(states, actions, |actions|, i);
      }
    }
  }

  // Any two such readers of one run, whenever each attached or ended, were sent the same
  // events, and come to the same verdicts.
  lemma ReadersAgree(states: seq<State>, actions: seq<Action>, n: nat, m: nat, i: nat, j: nat, target: string)
    requires Behaviour(states, actions) && n <= m < |states|
    requires i < |states[n].subs| && ReadToEnd(states[n].subs[i])
    requires j < |states[m].subs| && ReadToEnd(states[m].subs[j])
    requires states[n].subs[i].run == states[m].subs[j].run
    ensures states[n].subs[i].sent == states[m].subs[j].sent
    ensures Session.SaysDeferred(target, states[n].subs[i].sent) == Session.SaysDeferred(target, states[m].subs[j].sent)
    ensures Session.SaysCompleted(target, states[n].subs[i].sent)
            == Session.SaysCompleted(target, states[m].subs[j].sent)
  {
    BehaviourIsLater(states, actions, n, m);
    ReadToEndIsWhole(states, actions, n, i);
    ReadToEndIsWhole(states, actions, m, j);
    assert RunLater(states[n].runs[states[n].subs[i].run], states[m].runs[states[n].subs[i].run]);
  }

  // How many own steps a subscriber of a finished run still needs at most.
  function Rank(sub: Sub, events: nat): int {
    if sub.pc.Ended? then 0
    else 4 * (events - sub.index)
         + match sub.pc
           case Holding(_) => 4
           case Cleared(_) => 3
           case AtTop => 1
           case _ => 2
  }

  ghost predicate CanMove(s: State, j: nat, run: nat)
    requires WellFormed(s)
  {
    j < |s.subs| && s.subs[j].run == run && exists a :: OwnStep(a, j) && Enabled(s, a)
  }

  // A finished run drains. Its subscribers' own steps each bring their stream nearer to
  // its end, nothing else moves a stream back, and as long as a stream is open somebody
  // can move: the subscriber itself, or whoever holds the mutex it wants.
  lemma FinishedRunDrains(states: seq<State>, actions: seq<Action>, n: nat, i: nat)
    requires Behaviour(states, actions) && n < |states| && i < |states[n].subs|
    requires WellFormed(states[n]) && states[n].runs[states[n].subs[i].run].done
    ensures var sub := states[n].subs[i];
            && 0 <= Rank(sub, |states[n].runs[sub.run].events|)
            && (!sub.pc.Ended? ==> exists j :: CanMove(states[n], j, sub.run))
    ensures n < |actions| ==> i < |states[n + 1].subs| && states[n].subs[i].run < |states[n + 1].runs|
    ensures n < |actions| ==>
              var total := |states[n].runs[states[n].subs[i].run].events|;
              && |states[n + 1].runs[states[n].subs[i].run].events| == total
              && Rank(states[n + 1].subs[i], total) <= Rank(states[n].subs[i], total)
              && (OwnStep(actions[n], i) ==> Rank(states[n + 1].subs[i], total) < Rank(states[n].subs[i], total))
  {
    ReachableInv(states, actions, n);
    var s := states[n];
    assert SubOk(s, i);
    if !s.subs[i].pc.Ended? {
      SomebodyCanMove(s, i);
    }
    if n < |actions| {
      assert StepAt(states, actions, n);
      StepIsLater(s, actions[n]);
      assert RunLater(s.runs[s.subs[i].run], states[n + 1].runs[s.subs[i].run]);
      if OwnStep(actions[n], i) {
        OwnStepLowersRank(s, actions[n], i);
      } else {
        OtherStepKeepsRank(s, actions[n], i);
      }
    }
  }

  lemma SomebodyCanMove(s: State, i: nat)
    requires Inv(s) && i < |s.subs| && s.runs[s.subs[i].run].done && !s.subs[i].pc.Ended?
    ensures exists j :: CanMove(s, j, s.subs[i].run)
  {
    var run := s.runs[s.subs[i].run];
    assert SubOk(s, i) && RunOk(s, s.subs[i].run);
    var j := if s.subs[i].pc == WantLock && run.mutex.HeldBy? then run.mutex.sub else i;
    assert SubOk(s, j);
    var pc := s.subs[j].pc;
    var a := if pc == WantLock then Acquire(j)
             else if pc.Holding? then CheckContext(j)
             else if pc.Cleared? then SendOk(j)
             else if s.subs[j].index < |run.events| then Take(j)
             else Conclude(j);
    assert OwnStep(a, j) && Enabled(s, a);
    assert CanMove(s, j, s.subs[i].run);
  }

  lemma OwnStepLowersRank(s: State, a: Action, i: nat)
    requires Inv(s) && Enabled(s, a) && i < |s.subs| && s.runs[s.subs[i].run].done && OwnStep(a, i)
    ensures var total := |s.runs[s.subs[i].run].events|;
            |Apply(s, a).subs| == |s.subs| && Rank(Apply(s, a).subs[i], total) < Rank(s.subs[i], total)
  {
    assert SubOk(s, i);
  }

  lemma OtherStepKeepsRank(s: State, a: Action, i: nat)
    requires Inv(s) && Enabled(s, a) && i < |s.subs| && !OwnStep(a, i) && s.runs[s.subs[i].run].done
    ensures var total := |s.runs[s.subs[i].run].events|;
            i < |Apply(s, a).subs| && Rank(Apply(s, a).subs[i], total) <= Rank(s.subs[i], total)
  {
    OtherStepSweeps(s, a, i);
  }
}

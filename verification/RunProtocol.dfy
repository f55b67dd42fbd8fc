// The daemon's run protocol as a state machine: the executor's jobs, one condition-variable
// broadcaster per run, any number of subscribers, and subscribers grouped behind one sender
// (internal/daemon/executor.go, broadcaster.go, updater_rpc.go).
//
// One step is one section that the daemon runs under a mutex, or one action outside any
// mutex: reading a context, calling send, a context being cancelled. A subscriber keeps the
// broadcaster's mutex between finding nothing to send and going to sleep, so the mutex has
// an explicit holder.

module RunProtocol {
  import opened ProgressEvents
  import opened Executor

  // A job executes, returns, is deleted from the executor's map, and is then finished.
  datatype Phase = Executing | Returned | Deleted | Finished

  datatype Mutex = Free | HeldBy(sub: nat)

  datatype Run = Run(key: RunKey, cancelable: bool, phase: Phase, events: seq<Event>, done: bool, mutex: Mutex)

  datatype Ending = RunFinished | Detached | SendFailed

  datatype Pc =
    | WantLock                 // about to lock the broadcaster
    | AtTop                    // holds the mutex, at the head of the loop
    | Holding(event: Event)    // released the mutex with an event in hand
    | Cleared(event: Event)    // saw a live context, about to call send
    | AboutToWait              // holds the mutex, saw a live context, about to wait
    | Waiting                  // asleep on the condition variable
    | Ended(why: Ending)

  // The callback that context.AfterFunc registers: it broadcasts once the context is cancelled.
  datatype AfterFunc = Armed | Pending | Fired | Stopped

  datatype Membership = Alone | Member(group: nat)

  datatype Sub = Sub(run: nat, membership: Membership, index: nat, sent: seq<Event>, pc: Pc,
                     cancelled: bool, after: AfterFunc, reported: bool)

  datatype Verdict = StillOpen | ClosedNil | ClosedError

  // Several subscribers sharing one sender (those whose membership names the group): the
  // merged log tags each event with the subscriber it came through, failed says whether
  // errCh holds an error.
  datatype Group = Group(log: seq<(nat, Event)>, failed: bool, callerCancelled: bool, verdict: Verdict)

  datatype State = State(runs: seq<Run>, active: map<RunKey, nat>, subs: seq<Sub>, groups: seq<Group>)

  datatype Action =
    | StartOrAttach(key: RunKey, cancelable: bool)
    | Emit(run: nat, event: Event)
    | JobReturn(run: nat)
    | Delete(run: nat)
    | Finish(run: nat)
    | Watch(run: nat, cancelled: bool)
    | WatchTogether(members: seq<nat>, cancelled: bool)
    | Acquire(sub: nat)
    | Take(sub: nat)
    | CheckContext(sub: nat)
    | SendOk(sub: nat)
    | SendError(sub: nat)
    | Conclude(sub: nat)
    | Sleep(sub: nat)
    | Cancel(sub: nat)
    | RunAfterFunc(sub: nat)
    | Report(sub: nat)
    | CancelCaller(group: nat)
    | Close(group: nat, verdict: Verdict)

  const INITIAL := State([], map[], [], [])

  function NewSub(run: nat, membership: Membership, cancelled: bool): Sub {
    Sub(run, membership, 0, [], WantLock, cancelled, if cancelled then Pending else Armed, false)
  }

  predicate Undeleted(phase: Phase) {
    phase == Executing || phase == Returned
  }

  function Modes(s: State): map<RunKey, bool>
    requires forall k | k in s.active :: s.active[k] < |s.runs|
  {
    map k | k in s.active :: s.runs[s.active[k]].cancelable
  }

  // cond.Broadcast: every sleeper of the run goes back to wanting the mutex.
  function Woken(subs: seq<Sub>, run: nat): (woken: seq<Sub>)
    ensures |woken| == |subs|
  {
    seq(|subs|, i requires 0 <= i < |subs| =>
      if subs[i].run == run && subs[i].pc == Waiting then subs[i].(pc := WantLock) else subs[i])
  }

  function ContextCancelled(sub: Sub): Sub {
    sub.(cancelled := true, after := if sub.after == Armed then Pending else sub.after)
  }

  // Cancelling the context that the members of a group share.
  function GroupCancelled(subs: seq<Sub>, group: nat): (cancelled: seq<Sub>)
    ensures |cancelled| == |subs|
  {
    seq(|subs|, i requires 0 <= i < |subs| =>
      if subs[i].membership == Member(group) then ContextCancelled(subs[i]) else subs[i])
  }

  // Returning from stream runs the deferred stop, which only a callback not yet started obeys.
  function EndSub(sub: Sub, why: Ending): Sub {
    sub.(pc := Ended(why), after := if sub.after == Armed then Stopped else sub.after)
  }

  predicate LockFree(s: State, run: nat) {
    run < |s.runs| && s.runs[run].mutex == Free
  }

  predicate AtPc(s: State, sub: nat, pc: Pc) {
    sub < |s.subs| && s.subs[sub].pc == pc
  }

  ghost predicate WellFormed(s: State) {
    && (forall k | k in s.active :: s.active[k] < |s.runs|)
    && (forall i | 0 <= i < |s.subs| :: s.subs[i].run < |s.runs|)
    && (forall i | 0 <= i < |s.subs| && s.subs[i].membership.Member? :: s.subs[i].membership.group < |s.groups|)
  }

  // The goroutine around a member's stream has finished.
  predicate MemberDone(sub: Sub) {
    sub.pc.Ended? && (sub.pc.why == SendFailed ==> sub.reported)
  }

  ghost predicate Enabled(s: State, a: Action)
    requires WellFormed(s)
  {
    match a
    case StartOrAttach(key, cancelable) => true
    case Emit(r, event) => LockFree(s, r) && s.runs[r].phase == Executing
    case JobReturn(r) => r < |s.runs| && s.runs[r].phase == Executing
    case Delete(r) => r < |s.runs| && s.runs[r].phase == Returned
    case Finish(r) => LockFree(s, r) && s.runs[r].phase == Deleted
    case Watch(r, cancelled) => r < |s.runs|
    case WatchTogether(members, cancelled) =>
      && (forall i | 0 <= i < |members| :: members[i] < |s.runs|)
      && (forall i, j | 0 <= i < j < |members| :: members[i] != members[j])
    case Acquire(i) => AtPc(s, i, WantLock) && LockFree(s, s.subs[i].run)
    case Take(i) => AtPc(s, i, AtTop) && s.subs[i].index < |s.runs[s.subs[i].run].events|
    case CheckContext(i) => i < |s.subs| && s.subs[i].pc.Holding?
    case SendOk(i) => i < |s.subs| && s.subs[i].pc.Cleared?
    case SendError(i) => i < |s.subs| && s.subs[i].pc.Cleared?
    case Conclude(i) => AtPc(s, i, AtTop) && s.subs[i].index >= |s.runs[s.subs[i].run].events|
    case Sleep(i) => AtPc(s, i, AboutToWait)
    case Cancel(i) => i < |s.subs| && s.subs[i].membership == Alone
    case RunAfterFunc(i) => i < |s.subs| && s.subs[i].after == Pending && LockFree(s, s.subs[i].run)
    case Report(i) => AtPc(s, i, Ended(SendFailed)) && !s.subs[i].reported && s.subs[i].membership.Member?
    case CancelCaller(g) => g < |s.groups|
    case Close(g, verdict) =>
      && g < |s.groups| && s.groups[g].verdict == StillOpen
      && (forall m | 0 <= m < |s.subs| && s.subs[m].membership == Member(g) :: MemberDone(s.subs[m]))
      // select picks either ready case: the closed doneCh, or errCh when it holds an error.
      && (verdict == ClosedNil || (verdict == ClosedError && s.groups[g].failed))
  }

  // Step functions, one per action, so that a proof looks at one action at a time.

  function DoStart(s: State, key: RunKey, cancelable: bool): State
    requires forall k | k in s.active :: s.active[k] < |s.runs|
  {
    if Decide(Modes(s), key, cancelable) == Start then
      s.(runs := s.runs + [Run(key, cancelable, Executing, [], false, Free)], active := s.active[key := |s.runs|])
    else
      s
  }

  function DoConclude(s: State, i: nat): State
    requires i < |s.subs| && s.subs[i].run < |s.runs|
  {
    var sub := s.subs[i];
    var run := s.runs[sub.run];
    var released := s.runs[sub.run := run.(mutex := Free)];
    if run.done then
      s.(runs := released, subs := s.subs[i := EndSub(sub, RunFinished)])
    else if sub.cancelled then
      s.(runs := released, subs := s.subs[i := EndSub(sub, Detached)])
    else
      s.(subs := s.subs[i := sub.(pc := AboutToWait)])
  }

  function DoSendOk(s: State, i: nat): State
    requires i < |s.subs| && s.subs[i].pc.Cleared?
    requires s.subs[i].membership.Member? ==> s.subs[i].membership.group < |s.groups|
  {
    var sub := s.subs[i];
    var subs := s.subs[i := sub.(sent := sub.sent + [sub.pc.event], pc := WantLock)];
    match sub.membership
    case Alone => s.(subs := subs)
    case Member(g) =>
      s.(subs := subs, groups := s.groups[g := s.groups[g].(log := s.groups[g].log + [(i, sub.pc.event)])])
  }

  function DoAfterFunc(s: State, i: nat): State
    requires i < |s.subs|
  {
    var woken := Woken(s.subs, s.subs[i].run);
    s.(subs := woken[i := woken[i].(after := Fired)])
  }

  function DoWatchTogether(s: State, members: seq<nat>, cancelled: bool): State {
    // streamActiveRuns hands a single run's stream the caller's own context and sender.
    if |members| == 1 then
      s.(subs := s.subs + [NewSub(members[0], Alone, cancelled)])
    else
      s.(subs := s.subs
          + seq(|members|, i requires 0 <= i < |members| => NewSub(members[i], Member(|s.groups|), cancelled)),
         groups := s.groups + [Group([], false, cancelled, StillOpen)])
  }

  function Apply(s: State, a: Action): State
    requires WellFormed(s) && Enabled(s, a)
  {
    match a
    case StartOrAttach(key, cancelable) => DoStart(s, key, cancelable)
    case Emit(r, event) =>
      s.(runs := s.runs[r := s.runs[r].(events := s.runs[r].events + [event])], subs := Woken(s.subs, r))
    case JobReturn(r) => s.(runs := s.runs[r := s.runs[r].(phase := Returned)])
    case Delete(r) =>
      s.(runs := s.runs[r := s.runs[r].(phase := Deleted)], active := map k | k in s.active && k != s.runs[r].key ::
          s.active[k])
    case Finish(r) =>
      s.(runs := s.runs[r := s.runs[r].(phase := Finished, done := true)], subs := Woken(s.subs, r))
    case Watch(r, cancelled) => s.(subs := s.subs + [NewSub(r, Alone, cancelled)])
    case WatchTogether(members, cancelled) => DoWatchTogether(s, members, cancelled)
    case Acquire(i) =>
      s.(runs := s.runs[s.subs[i].run := s.runs[s.subs[i].run].(mutex := HeldBy(i))],
         subs := s.subs[i := s.subs[i].(pc := AtTop)])
    case Take(i) =>
      var run := s.runs[s.subs[i].run];
      s.(runs := s.runs[s.subs[i].run := run.(mutex := Free)],
         subs := s.subs[i := s.subs[i].(index := s.subs[i].index + 1, pc := Holding(run.events[s.subs[i].index]))])
    case CheckContext(i) =>
      s.(subs := s.subs[i := if s.subs[i].cancelled then EndSub(s.subs[i], Detached)
          else s.subs[i].(pc := Cleared(s.subs[i].pc.event))])
    case SendOk(i) => DoSendOk(s, i)
    case SendError(i) => s.(subs := s.subs[i := EndSub(s.subs[i], SendFailed)])
    case Conclude(i) => DoConclude(s, i)
    case Sleep(i) =>
      s.(runs := s.runs[s.subs[i].run := s.runs[s.subs[i].run].(mutex := Free)],
          subs := s.subs[i := s.subs[i].(pc := Waiting)])
    case Cancel(i) => s.(subs := s.subs[i := ContextCancelled(s.subs[i])])
    case RunAfterFunc(i) => DoAfterFunc(s, i)
    case Report(i) =>
      var g := s.subs[i].membership.group;
      s.(subs := GroupCancelled(s.subs[i := s.subs[i].(reported := true)], g),
          groups := s.groups[g := s.groups[g].(failed := true)])
    case CancelCaller(g) =>
      s.(subs := GroupCancelled(s.subs, g), groups := s.groups[g := s.groups[g].(callerCancelled := true)])
    case Close(g, verdict) => s.(groups := s.groups[g := s.groups[g].(verdict := verdict)])
  }

  // What a subscriber has been sent, against its run's history.
  ghost predicate DeliveryOk(sub: Sub, run: Run) {
    && sub.index <= |run.events|
    && match sub.pc
       case Holding(e) => sub.index > 0 && e == run.events[sub.index - 1] && sub.sent == run.events[..sub.index - 1]
       case Cleared(e) => sub.index > 0 && e == run.events[sub.index - 1] && sub.sent == run.events[..sub.index - 1]
       case Ended(RunFinished) => run.done && sub.sent == run.events
       case Ended(Detached) => sub.sent <= run.events
       case Ended(SendFailed) => sub.sent <= run.events && |sub.sent| < |run.events|
       case _ => sub.sent == run.events[..sub.index]
  }

  // A subscriber that sleeps, or is about to, has nothing to send and will be woken.
  ghost predicate WakeOk(sub: Sub, run: Run) {
    && (!sub.cancelled ==> sub.after == Armed || sub.after == Stopped)
    && (sub.after == Armed ==> !sub.cancelled)
    && (sub.after == Stopped ==> sub.pc.Ended?)
    && (sub.pc == Ended(Detached) ==> sub.cancelled)
    && (sub.pc == AboutToWait || sub.pc == Waiting ==>
          sub.index == |run.events| && !run.done && (sub.cancelled ==> sub.after == Pending))
  }

  predicate HoldsMutex(pc: Pc) {
    pc == AtTop || pc == AboutToWait
  }

  // The part of a merged log that came through one subscriber.
  function Through(log: seq<(nat, Event)>, i: nat): seq<Event> {
    if log == [] then []
    else
      var rest := Through(log[..|log| - 1], i);
      if log[|log| - 1].0 == i then rest + [log[|log| - 1].1] else rest
  }

  // A member against its group: the log carries exactly what it sent, and its context is
  // cancelled exactly when the caller's is or after a failure.
  ghost predicate MemberOk(sub: Sub, i: nat, group: Group) {
    && Through(group.log, i) == sub.sent
    && (sub.cancelled <==> group.callerCancelled || group.failed)
    && (sub.reported ==> group.failed)
    && (group.verdict != StillOpen ==> MemberDone(sub))
  }

  ghost predicate SubOk(s: State, i: nat)
    requires WellFormed(s) && i < |s.subs|
  {
    var sub := s.subs[i];
    var run := s.runs[sub.run];
    && DeliveryOk(sub, run)
    && WakeOk(sub, run)
    && (HoldsMutex(sub.pc) <==> run.mutex == HeldBy(i))
    && (sub.membership.Member? ==> MemberOk(sub, i, s.groups[sub.membership.group]))
  }

  ghost predicate RunOk(s: State, r: nat)
    requires WellFormed(s) && r < |s.runs|
  {
    var run := s.runs[r];
    && (run.done <==> run.phase == Finished)
    && (Undeleted(run.phase) <==> run.key in s.active && s.active[run.key] == r)
    && (run.mutex.HeldBy? ==> run.mutex.sub < |s.subs| && s.subs[run.mutex.sub].run == r)
  }

  ghost predicate MapOk(s: State)
    requires WellFormed(s)
  {
    && Exclusive(s.active.Keys)
    && (forall k | k in s.active :: s.runs[s.active[k]].key == k)
  }

  ghost predicate FailedMember(s: State, g: nat, m: nat) {
    m < |s.subs| && s.subs[m].membership == Member(g) && s.subs[m].pc == Ended(SendFailed)
  }

  ghost predicate GroupOk(s: State, g: nat)
    requires g < |s.groups|
  {
    var group := s.groups[g];
    && (group.failed ==> exists m :: FailedMember(s, g, m))
    && (group.verdict == ClosedError ==> group.failed)
    && (forall j | 0 <= j < |group.log| :: group.log[j].0 < |s.subs|)
  }

  ghost predicate Inv(s: State) {
    && WellFormed(s)
    && MapOk(s)
    && (forall r | 0 <= r < |s.runs| :: RunOk(s, r))
    && (forall i | 0 <= i < |s.subs| :: SubOk(s, i))
    && (forall g | 0 <= g < |s.groups| :: GroupOk(s, g))
  }

  // Endings are final: whatever else a step does, a group's failed member stays failed.
  lemma GroupsKept(s: State, t: State)
    requires forall g | 0 <= g < |s.groups| :: GroupOk(s, g)
    requires |t.groups| == |s.groups| && |s.subs| <= |t.subs|
    requires forall i | 0 <= i < |s.subs| && s.subs[i].pc.Ended? ::
               t.subs[i].pc == s.subs[i].pc && t.subs[i].membership == s.subs[i].membership
    requires forall g | 0 <= g < |t.groups| :: GroupStep(s, t, g)
    ensures forall g | 0 <= g < |t.groups| :: GroupOk(t, g)
  {
    forall g: nat | g < |t.groups| ensures GroupOk(t, g) {
      assert GroupOk(s, g) && GroupStep(s, t, g);
      if s.groups[g].failed {
        var m :| FailedMember(s, g, m);
        assert FailedMember(t, g, m);
      }
    }
  }

  ghost predicate GroupStep(s: State, t: State, g: nat)
    requires g < |s.groups| && g < |t.groups|
  {
    var (before, after) := (s.groups[g], t.groups[g]);
    && (after.failed ==> before.failed || exists m :: FailedMember(t, g, m))
    && (before.failed ==> after.failed)
    && (after.verdict == before.verdict || (after.verdict == ClosedError ==> after.failed))
    && (after.log == before.log || exists entry: (nat, Event) ::
        entry.0 < |t.subs| && after.log == before.log + [entry])
  }

  ghost predicate SubStep(s: State, k: nat, moved: Sub, mutex: Mutex)
    requires WellFormed(s)
  {
    && k < |s.subs| && !s.subs[k].pc.Ended?
    && SameIdentity(moved, s.subs[k])
    && DeliveryOk(moved, s.runs[moved.run]) && WakeOk(moved, s.runs[moved.run])
    && (HoldsMutex(moved.pc) <==> mutex == HeldBy(k))
    && var held := s.runs[moved.run].mutex;
       mutex == held || (held == Free && mutex == HeldBy(k)) || (held == HeldBy(k) && mutex == Free)
  }

  lemma SubStepSub(s: State, k: nat, moved: Sub, mutex: Mutex, i: nat)
    requires WellFormed(s) && SubStep(s, k, moved, mutex) && i < |s.subs| && SubOk(s, i) && SubOk(s, k)
    ensures var t := s.(runs := s.runs[moved.run := s.runs[moved.run].(mutex := mutex)], subs := s.subs[k := moved]);
            WellFormed(t) && SubOk(t, i)
  {
    if i == k {
      MovedSubOk(s, k, moved, mutex);
    } else {
      OtherSubOk(s, k, moved, mutex, i);
    }
  }

  lemma MovedSubOk(s: State, k: nat, moved: Sub, mutex: Mutex)
    requires WellFormed(s) && SubStep(s, k, moved, mutex) && SubOk(s, k)
    ensures var t := s.(runs := s.runs[moved.run := s.runs[moved.run].(mutex := mutex)], subs := s.subs[k := moved]);
            WellFormed(t) && SubOk(t, k)
  {}

  lemma OtherSubOk(s: State, k: nat, moved: Sub, mutex: Mutex, i: nat)
    requires WellFormed(s) && SubStep(s, k, moved, mutex) && i < |s.subs| && SubOk(s, i) && i != k
    ensures var t := s.(runs := s.runs[moved.run := s.runs[moved.run].(mutex := mutex)], subs := s.subs[k := moved]);
            WellFormed(t) && SubOk(t, i)
  {}

  // A step that moves one live subscriber and at most takes or releases its run's mutex,
  // without sending anything.
  lemma SubStepKeeps(s: State, k: nat, moved: Sub, mutex: Mutex)
    requires Inv(s) && SubStep(s, k, moved, mutex)
    ensures Inv(s.(runs := s.runs[moved.run := s.runs[moved.run].(mutex := mutex)], subs := s.subs[k := moved]))
  {
    var t := s.(runs := s.runs[moved.run := s.runs[moved.run].(mutex := mutex)], subs := s.subs[k := moved]);
    assert WellFormed(t);
    forall r: nat | r < |t.runs| ensures RunOk(t, r) {
      assert RunOk(s, r);
    }
    forall i: nat | i < |t.subs| ensures SubOk(t, i) {
      SubStepSub(s, k, moved, mutex, i);
    }
    GroupsKept(s, t);
  }

  predicate SameIdentity(moved: Sub, sub: Sub) {
    && moved.run == sub.run && moved.membership == sub.membership && moved.sent == sub.sent
    && moved.cancelled == sub.cancelled && moved.reported == sub.reported
  }

  // Appending to a run's history, or finishing it, while its mutex is free.
  lemma BroadcastKeeps(s: State, x: nat, after: Run)
    requires Inv(s) && LockFree(s, x)
    requires var run := s.runs[x];
             after.key == run.key && after.mutex == Free && run.events <= after.events && !run.done
             && (after.done ==> after.events == run.events)
             && (after.done <==> after.phase == Finished) && (Undeleted(after.phase) <==> Undeleted(run.phase))
    ensures Inv(s.(runs := s.runs[x := after], subs := Woken(s.subs, x)))
  {
    var t := s.(runs := s.runs[x := after], subs := Woken(s.subs, x));
    assert WellFormed(t);
    forall r: nat | r < |t.runs| ensures RunOk(t, r) {
      assert RunOk(s, r);
    }
    forall i: nat | i < |t.subs| ensures SubOk(t, i) {
      assert RunOk(s, s.subs[i].run);
      BroadcastSub(s, x, after, i);
    }
    GroupsKept(s, t);
  }

  lemma BroadcastSub(s: State, x: nat, after: Run, i: nat)
    requires WellFormed(s) && LockFree(s, x) && i < |s.subs| && SubOk(s, i)
    requires after.mutex == Free && s.runs[x].events <= after.events && !s.runs[x].done
    requires after.done ==> after.events == s.runs[x].events
    ensures var t := s.(runs := s.runs[x := after], subs := Woken(s.subs, x));
            WellFormed(t) && SubOk(t, i)
  {
    var t := s.(runs := s.runs[x := after], subs := Woken(s.subs, x));
    var sub := s.subs[i];
    assert sub.run == x ==> !HoldsMutex(sub.pc);
    assert DeliveryOk(t.subs[i], t.runs[sub.run]);
  }

  lemma NewRunKeeps(s: State, run: Run)
    requires Inv(s) && run == Run(run.key, run.cancelable, Executing, [], false, Free)
    requires run.key !in s.active && Exclusive(s.active.Keys + {run.key})
    ensures Inv(s.(runs := s.runs + [run], active := s.active[run.key := |s.runs|]))
  {
    var t := s.(runs := s.runs + [run], active := s.active[run.key := |s.runs|]);
    assert t.active.Keys == s.active.Keys + {run.key};
    assert WellFormed(t) && MapOk(t);
    forall r: nat | r < |t.runs| ensures RunOk(t, r) {
      assert r < |s.runs| ==> RunOk(s, r);
    }
    forall i: nat | i < |t.subs| ensures SubOk(t, i) {
      assert SubOk(s, i);
    }
    GroupsKept(s, t);
  }

  lemma StartOrAttachKeeps(s: State, key: RunKey, cancelable: bool)
    requires Inv(s)
    ensures Inv(DoStart(s, key, cancelable))
  {
    DecideKeepsExclusion(Modes(s), key, cancelable);
    assert Modes(s).Keys == s.active.Keys;
    if Decide(Modes(s), key, cancelable) == Start {
      NewRunKeeps(s, Run(key, cancelable, Executing, [], false, Free));
    }
  }

  // Moving a run between phases,
  lemma ReturnKeeps(s: State, x: nat)
    requires Inv(s) && Enabled(s, JobReturn(x))
    ensures Inv(Apply(s, JobReturn(x)))
  {
    var t := Apply(s, JobReturn(x));
    assert RunOk(s, x) && WellFormed(t) && MapOk(t);
    forall r: nat | r < |t.runs| ensures RunOk(t, r) {
      assert RunOk(s, r);
    }
    forall i: nat | i < |t.subs| ensures SubOk(t, i) {
      SubOkKept(s, t, i);
    }
    GroupsKept(s, t);
  }

  // and deleting its key when it leaves the map.
  lemma DeleteKeeps(s: State, x: nat)
    requires Inv(s) && Enabled(s, Delete(x))
    ensures Inv(Apply(s, Delete(x)))
  {
    var t := Apply(s, Delete(x));
    assert RunOk(s, x) && WellFormed(t) && MapOk(t);
    forall r: nat | r < |t.runs| ensures RunOk(t, r) {
      assert RunOk(s, r);
    }
    forall i: nat | i < |t.subs| ensures SubOk(t, i) {
      SubOkKept(s, t, i);
    }
    GroupsKept(s, t);
  }

  lemma SubOkKept(s: State, t: State, i: nat)
    requires WellFormed(s) && WellFormed(t) && i < |s.subs| && SubOk(s, i)
    requires t.subs == s.subs && t.groups == s.groups && |t.runs| == |s.runs|
    requires var (run, now) := (s.runs[s.subs[i].run], t.runs[s.subs[i].run]);
             now.events == run.events && now.done == run.done && now.mutex == run.mutex
    ensures SubOk(t, i)
  {}

  lemma NewSubOk(s: State, t: State, i: nat)
    requires WellFormed(s) && WellFormed(t) && t.runs == s.runs && s.subs <= t.subs && s.groups <= t.groups
    requires i < |t.subs| && (i < |s.subs| ==> SubOk(s, i))
    requires RunOk(s, t.subs[i].run)
    requires i >= |s.subs| ==>
               var sub := t.subs[i];
               && sub == NewSub(sub.run, sub.membership, sub.cancelled)
               && (sub.membership.Member?
                   ==> t.groups[sub.membership.group] == Group([], false, sub.cancelled, StillOpen))
    ensures SubOk(t, i)
  {}

  lemma WatchKeeps(s: State, a: Action)
    requires Inv(s) && Enabled(s, a) && (a.Watch? || a.WatchTogether?)
    ensures Inv(Apply(s, a))
  {
    var t := Apply(s, a);
    assert WellFormed(t);
    forall r: nat | r < |t.runs| ensures RunOk(t, r) {
      assert RunOk(s, r);
    }
    forall i: nat | i < |t.subs| ensures SubOk(t, i) {
      assert RunOk(s, t.subs[i].run);
      assert i < |s.subs| ==> SubOk(s, i);
      NewSubOk(s, t, i);
    }
    forall g: nat | g < |t.groups| ensures GroupOk(t, g) {
      if g < |s.groups| {
        OldGroupOk(s, t, g);
      }
    }
  }

  lemma OldGroupOk(s: State, t: State, g: nat)
    requires g < |s.groups| && GroupOk(s, g)
    requires s.subs <= t.subs && s.groups <= t.groups
    ensures GroupOk(t, g)
  {
    if s.groups[g].failed {
      var m :| FailedMember(s, g, m);
      assert FailedMember(t, g, m);
    }
  }

  lemma SendOkSub(s: State, k: nat, i: nat)
    requires WellFormed(s) && Enabled(s, SendOk(k)) && i < |s.subs|
    requires SubOk(s, k) && SubOk(s, i)
    ensures WellFormed(DoSendOk(s, k)) && SubOk(DoSendOk(s, k), i)
  {
    var sub := s.subs[i];
    if sub.membership.Member? {
      LogGrows(s.groups[sub.membership.group].log, k, s.subs[k].pc.event, i);
    }
  }

  lemma SendOkKeeps(s: State, k: nat)
    requires Inv(s) && Enabled(s, SendOk(k))
    ensures Inv(DoSendOk(s, k))
  {
    var t := DoSendOk(s, k);
    forall i: nat | i < |t.subs| ensures SubOk(t, i) {
      SendOkSub(s, k, i);
    }
    assert WellFormed(t);
    forall r: nat | r < |t.runs| ensures RunOk(t, r) {
      assert RunOk(s, r);
    }
    GroupsKept(s, t);
  }

  lemma LogGrows(log: seq<(nat, Event)>, k: nat, event: Event, i: nat)
    ensures Through(log + [(k, event)], i) == if i == k then Through(log, i) + [event] else Through(log, i)
  {
    assert (log + [(k, event)])[..|log|] == log;
  }

  lemma AfterFuncSub(s: State, k: nat, i: nat)
    requires WellFormed(s) && k < |s.subs| && s.subs[k].after == Pending && LockFree(s, s.subs[k].run)
    requires i < |s.subs| && SubOk(s, i)
    ensures WellFormed(DoAfterFunc(s, k)) && SubOk(DoAfterFunc(s, k), i)
  {
    var woken := Woken(s.subs, s.subs[k].run)[i];
    assert DoAfterFunc(s, k).subs[i] == if i == k then woken.(after := Fired) else woken;
    assert s.subs[i].run == s.subs[k].run ==> !HoldsMutex(s.subs[i].pc);
  }

  lemma AfterFuncKeeps(s: State, k: nat)
    requires Inv(s) && Enabled(s, RunAfterFunc(k))
    ensures Inv(Apply(s, RunAfterFunc(k)))
  {
    var t := Apply(s, RunAfterFunc(k));
    assert WellFormed(t);
    forall r: nat | r < |t.runs| ensures RunOk(t, r) {
      assert RunOk(s, r);
    }
    forall i: nat | i < |t.subs| ensures SubOk(t, i) {
      AfterFuncSub(s, k, i);
    }
    GroupsKept(s, t);
  }

  lemma CancelKeeps(s: State, k: nat)
    requires Inv(s) && Enabled(s, Cancel(k))
    ensures Inv(Apply(s, Cancel(k)))
  {
    var t := Apply(s, Cancel(k));
    assert WellFormed(t);
    forall r: nat | r < |t.runs| ensures RunOk(t, r) {
      assert RunOk(s, r);
    }
    forall i: nat | i < |t.subs| ensures SubOk(t, i) {
      assert SubOk(s, i);
    }
    GroupsKept(s, t);
  }

  // A group's context is cancelled, by its caller or after subscriber k reported a failure.
  ghost predicate GroupCancel(s: State, h: nat, group: Group, subs: seq<Sub>, k: nat) {
    && h < |s.groups|
    && group.log == s.groups[h].log && group.verdict == s.groups[h].verdict
    && (s.groups[h].failed ==> group.failed) && (s.groups[h].callerCancelled ==> group.callerCancelled)
    && (group.callerCancelled || group.failed)
    && (group.failed && !s.groups[h].failed ==> FailedMember(s, h, k))
    && |subs| == |s.subs|
    && (forall i | 0 <= i < |s.subs| :: subs[i] == s.subs[i]
         || (i == k && group.failed && FailedMember(s, h, k) && subs[i] == s.subs[i].(reported := true)))
  }

  lemma GroupCancelSub(s: State, h: nat, group: Group, subs: seq<Sub>, k: nat, i: nat)
    requires WellFormed(s) && GroupCancel(s, h, group, subs, k)
    requires i < |s.subs| && SubOk(s, i)
    ensures var t := s.(subs := GroupCancelled(subs, h), groups := s.groups[h := group]);
            WellFormed(t) && SubOk(t, i)
  {
    var sub := s.subs[i];
    if sub.membership == Member(h) {
      MemberCancelled(sub, subs[i], i, s.groups[h], group);
    }
  }

  lemma MemberCancelled(sub: Sub, now: Sub, i: nat, before: Group, group: Group)
    requires MemberOk(sub, i, before)
    requires group.log == before.log && group.verdict == before.verdict && (group.callerCancelled || group.failed)
    requires before.failed ==> group.failed
    requires now == sub || (group.failed && now == sub.(reported := true))
    ensures MemberOk(ContextCancelled(now), i, group)
  {}

  lemma GroupCancelKeeps(s: State, h: nat, group: Group, subs: seq<Sub>, k: nat)
    requires Inv(s) && GroupCancel(s, h, group, subs, k)
    ensures Inv(s.(subs := GroupCancelled(subs, h), groups := s.groups[h := group]))
  {
    var t := s.(subs := GroupCancelled(subs, h), groups := s.groups[h := group]);
    assert WellFormed(t);
    forall r: nat | r < |t.runs| ensures RunOk(t, r) {
      assert RunOk(s, r);
    }
    forall i: nat | i < |t.subs| ensures SubOk(t, i) {
      GroupCancelSub(s, h, group, subs, k, i);
    }
    if group.failed && !s.groups[h].failed {
      assert FailedMember(t, h, k);
    }
    GroupsKept(s, t);
  }

  lemma CloseKeeps(s: State, h: nat, verdict: Verdict)
    requires Inv(s) && Enabled(s, Close(h, verdict))
    ensures Inv(Apply(s, Close(h, verdict)))
  {
    var t := Apply(s, Close(h, verdict));
    assert WellFormed(t);
    forall r: nat | r < |t.runs| ensures RunOk(t, r) {
      assert RunOk(s, r);
    }
    forall i: nat | i < |t.subs| ensures SubOk(t, i) {
      assert SubOk(s, i);
    }
    GroupsKept(s, t);
  }

  lemma StepKeepsInv(s: State, a: Action)
    requires Inv(s) && Enabled(s, a)
    ensures Inv(Apply(s, a))
  {
    match a
    case StartOrAttach(key, cancelable) => StartOrAttachKeeps(s, key, cancelable);
    case Emit(x, event) =>
      assert RunOk(s, x);
      BroadcastKeeps(s, x, s.runs[x].(events := s.runs[x].events + [event]));
    case Finish(x) =>
      assert RunOk(s, x);
      BroadcastKeeps(s, x, s.runs[x].(phase := Finished, done := true));
    case JobReturn(x) => ReturnKeeps(s, x);
    case Delete(x) => DeleteKeeps(s, x);
    case Watch(_, _) => WatchKeeps(s, a);
    case WatchTogether(_, _) => WatchKeeps(s, a);
    case SendOk(k) => SendOkKeeps(s, k);
    case RunAfterFunc(k) => AfterFuncKeeps(s, k);
    case Cancel(k) => CancelKeeps(s, k);
    case Report(k) =>
      var g := s.subs[k].membership.group;
      GroupCancelKeeps(s, g, s.groups[g].(failed := true), s.subs[k := s.subs[k].(reported := true)], k);
    case CancelCaller(g) => GroupCancelKeeps(s, g, s.groups[g].(callerCancelled := true), s.subs, |s.subs|);
    case Close(g, verdict) => CloseKeeps(s, g, verdict);
    case Acquire(_) => LockStepKeeps(s, a);
    case Take(_) => LockStepKeeps(s, a);
    case Sleep(_) => LockStepKeeps(s, a);
    case _ => LoopStepKeeps(s, a);
  }

  lemma LockStepKeeps(s: State, a: Action)
    requires Inv(s) && Enabled(s, a)
    requires a.Acquire? || a.Take? || a.Sleep?
    ensures Inv(Apply(s, a))
  {
    match a
    case Acquire(k) => AcquireKeeps(s, k);
    case Take(k) => TakeKeeps(s, k);
    case Sleep(k) => SleepKeeps(s, k);
  }

  lemma AcquireKeeps(s: State, k: nat)
    requires Inv(s) && Enabled(s, Acquire(k))
    ensures Inv(Apply(s, Acquire(k)))
  {
    assert SubOk(s, k) && RunOk(s, s.subs[k].run);
    SubStepKeeps(s, k, s.subs[k].(pc := AtTop), HeldBy(k));
  }

  lemma TakeKeeps(s: State, k: nat)
    requires Inv(s) && Enabled(s, Take(k))
    ensures Inv(Apply(s, Take(k)))
  {
    assert SubOk(s, k) && RunOk(s, s.subs[k].run);
    var event := s.runs[s.subs[k].run].events[s.subs[k].index];
    SubStepKeeps(s, k, s.subs[k].(index := s.subs[k].index + 1, pc := Holding(event)), Free);
  }

  lemma SleepKeeps(s: State, k: nat)
    requires Inv(s) && Enabled(s, Sleep(k))
    ensures Inv(Apply(s, Sleep(k)))
  {
    assert SubOk(s, k) && RunOk(s, s.subs[k].run);
    SubStepKeeps(s, k, s.subs[k].(pc := Waiting), Free);
  }

  lemma LoopStepKeeps(s: State, a: Action)
    requires Inv(s) && Enabled(s, a)
    requires a.CheckContext? || a.SendError? || a.Conclude?
    ensures Inv(Apply(s, a))
  {
    if a.Conclude? {
      ConcludeKeeps(s, a.sub);
    } else {
      var k := a.sub;
      var t := Apply(s, a);
      var r := s.subs[k].run;
      assert SubOk(s, k) && RunOk(s, r);
      SubStepKeeps(s, k, t.subs[k], s.runs[r].mutex);
      assert s.runs == s.runs[r := s.runs[r].(mutex := s.runs[r].mutex)];
    }
  }

  lemma ConcludeKeeps(s: State, k: nat)
    requires Inv(s) && Enabled(s, Conclude(k))
    ensures Inv(DoConclude(s, k))
  {
    var t := DoConclude(s, k);
    var r := s.subs[k].run;
    assert SubOk(s, k) && RunOk(s, r);
    SubStepKeeps(s, k, t.subs[k], t.runs[r].mutex);
    assert t.runs == s.runs[r := s.runs[r].(mutex := t.runs[r].mutex)];
  }
}

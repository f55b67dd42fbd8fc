// What cancellation guarantees: a cancelled subscriber's stream ends, and after a failed send
// a merged stream can close.

module RunCancellation {
  import opened RunProtocol
  import opened RunHistory
  import opened RunGuarantees

  // How many steps a cancelled subscriber still needs at most.
  function CancelRank(sub: Sub): nat {
    match sub.pc
    case Ended(_) => 0
    case Holding(_) => 1
    case AtTop => 2
    case WantLock => 3
    case Waiting => 4
    case Cleared(_) => 4
    case AboutToWait => 5
  }

  // A step of the subscriber, or of the callback that wakes it.
  predicate StepFor(a: Action, i: nat) {
    OwnStep(a, i) || a == RunAfterFunc(i)
  }

  lemma OwnStepLowersCancelRank(s: State, a: Action, i: nat)
    requires Inv(s) && Enabled(s, a) && i < |s.subs| && s.subs[i].cancelled && OwnStep(a, i)
    ensures |Apply(s, a).subs| == |s.subs| && CancelRank(Apply(s, a).subs[i]) < CancelRank(s.subs[i])
  {
    assert SubOk(s, i);
  }

  lemma OtherStepKeepsCancelRank(s: State, a: Action, i: nat)
    requires Inv(s) && Enabled(s, a) && i < |s.subs| && !OwnStep(a, i)
    ensures i < |Apply(s, a).subs| && CancelRank(Apply(s, a).subs[i]) <= CancelRank(s.subs[i])
    ensures s.subs[i].pc == Waiting && a == RunAfterFunc(i) ==> CancelRank(Apply(s, a).subs[i]) < CancelRank(s.subs[i])
  {
    OtherStepSweeps(s, a, i);
  }

  ghost predicate CanStep(s: State, j: nat, run: nat)
    requires WellFormed(s)
  {
    j < |s.subs| && s.subs[j].run == run && exists a :: StepFor(a, j) && Enabled(s, a)
  }

  // The holder of a mutex can give it up.
  lemma HolderCanStep(s: State, j: nat)
    requires Inv(s) && j < |s.subs| && HoldsMutex(s.subs[j].pc)
    ensures CanStep(s, j, s.subs[j].run)
  {
    var sub := s.subs[j];
    var a := if sub.pc == AboutToWait then Sleep(j)
             else if sub.index < |s.runs[sub.run].events| then Take(j)
             else Conclude(j);
    assert StepFor(a, j) && Enabled(s, a);
  }

  // Somebody can step for a cancelled subscriber whose stream is open: it itself, the callback
  // that wakes it, or whoever holds the mutex that either wants.
  lemma CancelledCanStep(s: State, i: nat)
    requires Inv(s) && i < |s.subs| && s.subs[i].cancelled && !s.subs[i].pc.Ended?
    ensures exists j :: CanStep(s, j, s.subs[i].run)
  {
    var sub := s.subs[i];
    var run := s.runs[sub.run];
    assert SubOk(s, i) && RunOk(s, sub.run);
    if HoldsMutex(sub.pc) {
      HolderCanStep(s, i);
    } else if (sub.pc == WantLock || sub.pc == Waiting) && run.mutex.HeldBy? {
      assert SubOk(s, run.mutex.sub);
      HolderCanStep(s, run.mutex.sub);
    } else {
      var a := if sub.pc == WantLock then Acquire(i)
               else if sub.pc == Waiting then RunAfterFunc(i)
               else if sub.pc.Holding? then CheckContext(i)
               else SendOk(i);
      assert StepFor(a, i) && Enabled(s, a);
      assert CanStep(s, i, sub.run);
    }
  }

  // A cancelled subscriber's stream ends: its own steps and its wake-up each bring it nearer to
  // its end, nothing moves it back, it stays cancelled, and somebody can always step for it.
  lemma CancelledStreamEnds(states: seq<State>, actions: seq<Action>, n: nat, i: nat)
    requires Behaviour(states, actions) && n < |states| && i < |states[n].subs| && states[n].subs[i].cancelled
    ensures WellFormed(states[n])
    ensures !states[n].subs[i].pc.Ended? ==> exists j :: CanStep(states[n], j, states[n].subs[i].run)
    ensures n < |actions| ==>
              && i < |states[n + 1].subs| && states[n + 1].subs[i].cancelled
              && CancelRank(states[n + 1].subs[i]) <= CancelRank(states[n].subs[i])
              && (OwnStep(actions[n], i) || (actions[n] == RunAfterFunc(i) && states[n].subs[i].pc == Waiting) ==>
                    CancelRank(states[n + 1].subs[i]) < CancelRank(states[n].subs[i]))
  {
    ReachableInv(states, actions, n);
    if !states[n].subs[i].pc.Ended? {
      CancelledCanStep(states[n], i);
    }
    if n < |actions| {
      assert StepAt(states, actions, n);
      StepKeepsSub(states[n], actions[n], i);
      if OwnStep(actions[n], i) {
        OwnStepLowersCancelRank(states[n], actions[n], i);
      } else {
        OtherStepKeepsCancelRank(states[n], actions[n], i);
      }
    }
  }

  // A member that its group still waits for, and for which somebody can step.
  ghost predicate Awaited(s: State, g: nat, m: nat)
    requires WellFormed(s)
  {
    && m < |s.subs| && s.subs[m].membership == Member(g) && !MemberDone(s.subs[m])
    && (Enabled(s, Report(m)) || exists j :: CanStep(s, j, s.subs[m].run))
  }

  // After a failed send every member's context is cancelled, so that every stream ends; and the
  // group can close, with the error or without, as soon as no member is awaited.
  lemma FailedGroupCloses(states: seq<State>, actions: seq<Action>, n: nat, g: nat)
    requires Behaviour(states, actions) && n < |states| && g < |states[n].groups|
    requires states[n].groups[g].failed && states[n].groups[g].verdict == StillOpen
    ensures WellFormed(states[n])
    ensures forall m | 0 <= m < |states[n].subs| && states[n].subs[m].membership == Member(g) ::
            states[n].subs[m].cancelled
    ensures (Enabled(states[n], Close(g, ClosedError)) && Enabled(states[n], Close(g, ClosedNil)))
            || exists m :: Awaited(states[n], g, m)
  {
    ReachableInv(states, actions, n);
    var s := states[n];
    forall m: nat | m < |s.subs| && s.subs[m].membership == Member(g)
      ensures s.subs[m].cancelled
      ensures !MemberDone(s.subs[m]) ==> Awaited(s, g, m)
    {
      assert SubOk(s, m);
      if !s.subs[m].pc.Ended? {
        CancelledCanStep(s, m);
      }
    }
  }
}

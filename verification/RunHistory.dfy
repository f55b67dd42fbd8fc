// The behaviours of the run protocol, and what a state says of the actions that led to it: a
// run's history is what its job emitted, its phase is what has happened to it, and a request
// starts a run exactly when its target is free.

module RunHistory {
  import opened ProgressEvents
  import opened Executor
  import opened RunProtocol

  ghost predicate Step(s: State, a: Action, t: State) {
    WellFormed(s) && Enabled(s, a) && t == Apply(s, a)
  }

  ghost predicate StepAt(states: seq<State>, actions: seq<Action>, n: nat)
    requires |states| == |actions| + 1 && n < |actions|
  {
    Step(states[n], actions[n], states[n + 1])
  }

  ghost predicate Behaviour(states: seq<State>, actions: seq<Action>) {
    && |states| == |actions| + 1
    && states[0] == INITIAL
    && (forall n | 0 <= n < |actions| :: StepAt(states, actions, n))
  }

  lemma {:induction false} ReachableInv(states: seq<State>, actions: seq<Action>, n: nat)
    requires Behaviour(states, actions) && n < |states|
    ensures Inv(states[n])
  {
    if n > 0 {
      ReachableInv(states, actions, n - 1);
      assert StepAt(states, actions, n - 1);
      StepKeepsInv(states[n - 1], actions[n - 1]);
    }
  }

  // The events that the job of one run emitted, in order.
  function Emitted(actions: seq<Action>, r: nat): seq<Event> {
    if actions == [] then []
    else
      var before, last := Emitted(actions[..|actions| - 1], r), actions[|actions| - 1];
      if last.Emit? && last.run == r then before + [last.event] else before
  }

  // A run as the actions so far tell it.
  ghost predicate Told(run: Run, actions: seq<Action>, r: nat) {
    && run.events == Emitted(actions, r)
    && (run.phase == Executing <==> JobReturn(r) !in actions)
    && (Undeleted(run.phase) <==> Delete(r) !in actions)
    && (run.done <==> Finish(r) in actions)
  }

  // No action so far has been about a run.
  ghost predicate Untold(actions: seq<Action>, r: nat) {
    Emitted(actions, r) == [] && JobReturn(r) !in actions && Delete(r) !in actions && Finish(r) !in actions
  }

  lemma OneMoreEmitted(actions: seq<Action>, a: Action, r: nat)
    ensures Emitted(actions + [a], r)
            == if a.Emit? && a.run == r then Emitted(actions, r) + [a.event] else Emitted(actions, r)
  {
    assert (actions + [a])[..|actions|] == actions;
  }

  lemma StepTells(s: State, a: Action, r: nat, actions: seq<Action>)
    requires Inv(s) && Enabled(s, a) && r < |s.runs| && Told(s.runs[r], actions, r)
    ensures r < |Apply(s, a).runs| && Told(Apply(s, a).runs[r], actions + [a], r)
  {
    OneMoreEmitted(actions, a, r);
    assert RunOk(s, r);
    SameRunElse(s, a, r);
  }

  // Only its own actions change what is told of a run.
  predicate About(a: Action, r: nat) {
    (a.Emit? && a.run == r) || a == JobReturn(r) || a == Delete(r) || a == Finish(r)
  }

  lemma SameRunElse(s: State, a: Action, r: nat)
    requires WellFormed(s) && Enabled(s, a) && r < |s.runs|
    ensures r < |Apply(s, a).runs|
    ensures !About(a, r) ==>
              var (run, now) := (s.runs[r], Apply(s, a).runs[r]);
              now.events == run.events && now.phase == run.phase && now.done == run.done
  {}

  lemma NewRunTold(s: State, a: Action, actions: seq<Action>)
    requires WellFormed(s) && Enabled(s, a) && Untold(actions, |s.runs|) && |Apply(s, a).runs| > |s.runs|
    ensures Told(Apply(s, a).runs[|s.runs|], actions + [a], |s.runs|)
  {
    OneMoreEmitted(actions, a, |s.runs|);
  }

  lemma StillUntold(s: State, a: Action, r: nat, actions: seq<Action>)
    requires WellFormed(s) && Enabled(s, a) && r >= |s.runs| && Untold(actions, r)
    ensures Untold(actions + [a], r)
  {
    OneMoreEmitted(actions, a, r);
  }

  // In every reachable state the history of a run is what its job has emitted, and its phase
  // is what has happened to it.
  lemma {:induction false} RunIsTold(states: seq<State>, actions: seq<Action>, n: nat, r: nat)
    requires Behaviour(states, actions) && n < |states|
    ensures if r < |states[n].runs| then Told(states[n].runs[r], actions[..n], r) else Untold(actions[..n], r)
  {
    if n > 0 {
      var s, a := states[n - 1], actions[n - 1];
      RunIsTold(states, actions, n - 1, r);
      ReachableInv(states, actions, n - 1);
      assert StepAt(states, actions, n - 1);
      assert actions[..n] == actions[..n - 1] + [a];
      RunTold(s, a, r, actions[..n - 1]);
    }
  }

  lemma RunTold(s: State, a: Action, r: nat, actions: seq<Action>)
    requires Inv(s) && Enabled(s, a)
    requires if r < |s.runs| then Told(s.runs[r], actions, r) else Untold(actions, r)
    ensures if r < |Apply(s, a).runs| then Told(Apply(s, a).runs[r], actions + [a], r) else Untold(actions + [a], r)
  {
    if r < |s.runs| {
      StepTells(s, a, r, actions);
    } else {
      StillUntold(s, a, r, actions);
      RunsGrowByOne(s, a);
      if r < |Apply(s, a).runs| {
        NewRunTold(s, a, actions);
      }
    }
  }

  lemma RunsGrowByOne(s: State, a: Action)
    requires WellFormed(s) && Enabled(s, a)
    ensures |s.runs| <= |Apply(s, a).runs| <= |s.runs| + 1
  {}

  // ----- Requests.

  ghost predicate Busy(s: State, target: string) {
    exists r | 0 <= r < |s.runs| :: Undeleted(s.runs[r].phase) && s.runs[r].key.target == target
  }

  // A request starts a run with its key and its cancellation mode exactly when no run of its
  // target is left; else nothing changes.
  lemma RequestServed(states: seq<State>, actions: seq<Action>, n: nat, key: RunKey, cancelable: bool)
    requires Behaviour(states, actions) && n < |actions| && actions[n] == StartOrAttach(key, cancelable)
    ensures var (s, t) := (states[n], states[n + 1]);
            t == if Busy(s, key.target) then s
                 else s.(runs := s.runs + [Run(key, cancelable, Executing, [], false, Free)],
                         active := s.active[key := |s.runs|])
  {
    var s := states[n];
    ReachableInv(states, actions, n);
    assert StepAt(states, actions, n);
    BusyIs(s, key.target);
    assert Decide(Modes(s), key, cancelable) == Start <==> !Busy(s, key.target);
  }

  lemma BusyIs(s: State, target: string)
    requires Inv(s)
    ensures Busy(s, target) <==> exists k :: k in s.active && k.target == target
  {
    if r :| 0 <= r < |s.runs| && Undeleted(s.runs[r].phase) && s.runs[r].key.target == target {
      assert RunOk(s, r);
      assert s.runs[r].key in s.active;
    }
    if k :| k in s.active && k.target == target {
      assert RunOk(s, s.active[k]);
    }
  }

  // ----- Subscribers and groups.

  // The action that makes subscriber i of a run.
  ghost predicate Joins(s: State, a: Action, i: nat, run: nat, membership: Membership, cancelled: bool) {
    match a
    case Watch(r, c) => i == |s.subs| && run == r && membership == Alone && cancelled == c
    case WatchTogether(members, c) =>
      && |s.subs| <= i < |s.subs| + |members| && run == members[i - |s.subs|]
      && membership == (if |members| == 1 then Alone else Member(|s.groups|)) && cancelled == c
    case _ => false
  }

  // A subscriber as the actions so far tell it, from its start with a live or cancelled context.
  predicate SubTold(sub: Sub, actions: seq<Action>, i: nat, cancelled: bool) {
    && (sub.membership == Alone ==> (sub.cancelled <==> cancelled || Cancel(i) in actions))
    && (sub.reported <==> Report(i) in actions)
  }

  predicate SubUntold(actions: seq<Action>, i: nat) {
    Cancel(i) !in actions && Report(i) !in actions
  }

  lemma StepTellsSub(s: State, a: Action, i: nat, actions: seq<Action>, cancelled: bool)
    requires WellFormed(s) && Enabled(s, a) && i < |s.subs| && SubTold(s.subs[i], actions, i, cancelled)
    ensures i < |Apply(s, a).subs| && SubTold(Apply(s, a).subs[i], actions + [a], i, cancelled)
    ensures Apply(s, a).subs[i].run == s.subs[i].run && Apply(s, a).subs[i].membership == s.subs[i].membership
  {
    SameSubElse(s, a, i);
  }

  // What one action changes of a subscriber that is told.
  predicate SubChange(sub: Sub, now: Sub, a: Action, i: nat) {
    && now.run == sub.run && now.membership == sub.membership
    && (now.reported <==> sub.reported || a == Report(i))
    && (sub.membership == Alone ==> (now.cancelled <==> sub.cancelled || a == Cancel(i)))
  }

  predicate CancelsGroup(a: Action) {
    a.Report? || a.CancelCaller?
  }

  lemma GroupCancelTells(s: State, a: Action, i: nat)
    requires WellFormed(s) && Enabled(s, a) && i < |s.subs| && CancelsGroup(a)
    ensures i < |Apply(s, a).subs| && SubChange(s.subs[i], Apply(s, a).subs[i], a, i)
  {}

  predicate MovesLoop(a: Action) {
    a.Acquire? || a.Take? || a.CheckContext? || a.SendOk? || a.SendError? || a.Conclude? || a.Sleep?
  }

  lemma LoopTells(s: State, a: Action, i: nat)
    requires WellFormed(s) && Enabled(s, a) && i < |s.subs| && MovesLoop(a)
    ensures i < |Apply(s, a).subs| && SubChange(s.subs[i], Apply(s, a).subs[i], a, i)
  {}

  lemma OtherTells(s: State, a: Action, i: nat)
    requires WellFormed(s) && Enabled(s, a) && i < |s.subs| && !CancelsGroup(a) && !MovesLoop(a)
    ensures i < |Apply(s, a).subs| && SubChange(s.subs[i], Apply(s, a).subs[i], a, i)
  {}

  lemma SameSubElse(s: State, a: Action, i: nat)
    requires WellFormed(s) && Enabled(s, a) && i < |s.subs|
    ensures i < |Apply(s, a).subs| && SubChange(s.subs[i], Apply(s, a).subs[i], a, i)
  {
    if CancelsGroup(a) {
      GroupCancelTells(s, a, i);
    } else if MovesLoop(a) {
      LoopTells(s, a, i);
    } else {
      OtherTells(s, a, i);
    }
  }

  lemma NewSubTold(s: State, a: Action, i: nat, actions: seq<Action>) returns (cancelled: bool)
    requires WellFormed(s) && Enabled(s, a) && SubUntold(actions, i) && |s.subs| <= i < |Apply(s, a).subs|
    ensures var sub := Apply(s, a).subs[i];
            SubTold(sub, actions + [a], i, cancelled) && Joins(s, a, i, sub.run, sub.membership, cancelled)
  {
    cancelled := (a.Watch? || a.WatchTogether?) && a.cancelled;
  }

  lemma {:induction false} NotYetTold(states: seq<State>, actions: seq<Action>, n: nat, i: nat)
    requires Behaviour(states, actions) && n < |states| && i >= |states[n].subs|
    ensures SubUntold(actions[..n], i)
  {
    if n > 0 {
      var s, a := states[n - 1], actions[n - 1];
      assert StepAt(states, actions, n - 1);
      SubsStay(s, a);
      NotYetTold(states, actions, n - 1, i);
      assert actions[..n] == actions[..n - 1] + [a];
    }
  }

  lemma SubsStay(s: State, a: Action)
    requires WellFormed(s) && Enabled(s, a)
    ensures |s.subs| <= |Apply(s, a).subs|
  {}

  // Every subscriber joined by one action, which decided its run and whom it shares a sender
  // with; a lone one is cancelled exactly if it joined so or its context was cancelled since.
  lemma {:induction false} SubIsTold(states: seq<State>, actions: seq<Action>, n: nat, i: nat)
      returns (m: nat, cancelled: bool)
    requires Behaviour(states, actions) && n < |states| && i < |states[n].subs|
    ensures m < n && Joins(states[m], actions[m], i, states[n].subs[i].run, states[n].subs[i].membership, cancelled)
    ensures SubTold(states[n].subs[i], actions[..n], i, cancelled)
  {
    var s, a := states[n - 1], actions[n - 1];
    assert StepAt(states, actions, n - 1);
    assert actions[..n] == actions[..n - 1] + [a];
    if i < |s.subs| {
      m, cancelled := SubIsTold(states, actions, n - 1, i);
      StepTellsSub(s, a, i, actions[..n - 1], cancelled);
    } else {
      NotYetTold(states, actions, n - 1, i);
      m := n - 1;
      cancelled := NewSubTold(s, a, i, actions[..n - 1]);
    }
  }

  // What has happened to a group stays with it: its caller's cancellation and its verdict.
  lemma {:induction false} GroupIsTold(states: seq<State>, actions: seq<Action>, n: nat, g: nat)
    requires Behaviour(states, actions) && n < |states| && g < |states[n].groups|
    ensures CancelCaller(g) in actions[..n] ==> states[n].groups[g].callerCancelled
    ensures forall verdict | verdict != StillOpen ::
              states[n].groups[g].verdict == verdict <==> Close(g, verdict) in actions[..n]
  {
    var s, a := states[n - 1], actions[n - 1];
    assert StepAt(states, actions, n - 1);
    assert actions[..n] == actions[..n - 1] + [a];
    if g < |s.groups| {
      GroupIsTold(states, actions, n - 1, g);
      SameGroupElse(s, a, g);
    } else {
      NoGroupYet(states, actions, n - 1, g);
    }
  }

  lemma SameGroupElse(s: State, a: Action, g: nat)
    requires WellFormed(s) && Enabled(s, a) && g < |s.groups|
    ensures g < |Apply(s, a).groups|
    ensures var (group, now) := (s.groups[g], Apply(s, a).groups[g]);
            && (now.callerCancelled <==> group.callerCancelled || a == CancelCaller(g))
            && (if a.Close? && a.group == g then group.verdict == StillOpen && now.verdict == a.verdict
                else now.verdict == group.verdict)
  {}

  lemma {:induction false} NoGroupYet(states: seq<State>, actions: seq<Action>, n: nat, g: nat)
    requires Behaviour(states, actions) && n < |states| && g >= |states[n].groups|
    ensures CancelCaller(g) !in actions[..n] && forall verdict :: Close(g, verdict) !in actions[..n]
  {
    if n > 0 {
      var s, a := states[n - 1], actions[n - 1];
      assert StepAt(states, actions, n - 1);
      GroupsStay(s, a);
      NoGroupYet(states, actions, n - 1, g);
      assert actions[..n] == actions[..n - 1] + [a];
    }
  }

  lemma GroupsStay(s: State, a: Action)
    requires WellFormed(s) && Enabled(s, a)
    ensures |s.groups| <= |Apply(s, a).groups|
  {}
}

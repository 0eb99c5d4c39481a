/** The asynchronous task runner of `drex_app.py`: one task at a time, cooperative cancellation, and one
    completion event per accepted task.

    The class has one method per critical section of the manager's lock; the step system interleaves them with
    the worker and with the screens that share the manager's cancellation event. */
module TaskManager {

  datatype TaskState = Idle | Validating | Queued | Running | Verifying | Finalizing | Success | Failed | Cancelled
    | Timeout | DeviceDisconnected

  predicate Active(s: TaskState) { s.Validating? || s.Queued? || s.Running? || s.Verifying? || s.Finalizing? }

  datatype Event = StateChanged(state: TaskState) | Finished(task: nat, failed: bool) | CancelSignalled

  datatype Manager = Manager(state: TaskState, current: nat, cancelSet: bool, events: seq<Event>)

  function SubmitEffect(m: Manager, task: nat): (Manager, bool) {
    if Active(m.state) then (m, false) else (Manager(Queued, task, false, m.events + [StateChanged(Queued)]), true)
  }

  function StartEffect(m: Manager): Manager { m.(state := Running, events := m.events + [StateChanged(Running)]) }

  function FinalState(m: Manager, failed: bool): TaskState {
    if m.cancelSet then Cancelled else if failed then Failed else Success
  }

  function FinishEffect(m: Manager, task: nat, failed: bool): Manager {
    m.(state := FinalState(m, failed),
       events := m.events + [StateChanged(FinalState(m, failed)), Finished(task, failed)])
  }

  function CancelEffect(m: Manager): (Manager, bool) {
    if Active(m.state) then (m.(cancelSet := true, events := m.events + [CancelSignalled]), true) else (m, false)
  }

  /** What the effects do, state by state: a cancelled task ends cancelled even when it raised, and the completion
      event follows the state change. */
  lemma EffectsMean(m: Manager, task: nat, failed: bool)
    ensures var active := m.state in {Validating, Queued, Running, Verifying, Finalizing};
      && SubmitEffect(m, task) ==
           (if active then (m, false) else (Manager(Queued, task, false, m.events + [StateChanged(Queued)]), true))
      && CancelEffect(m) ==
           (if active then (Manager(m.state, m.current, true, m.events + [CancelSignalled]), true) else (m, false))
    ensures StartEffect(m) == Manager(Running, m.current, m.cancelSet, m.events + [StateChanged(Running)])
    ensures var end := FinishEffect(m, task, failed);
      && (m.cancelSet ==> end.state == Cancelled)
      && (!m.cancelSet && failed ==> end.state == Failed)
      && (!m.cancelSet && !failed ==> end.state == Success)
      && end.events == m.events + [StateChanged(end.state), Finished(task, failed)]
      && end.current == m.current && end.cancelSet == m.cancelSet
  {}

  class DrexTaskManager {
    var events: seq<Event>
    var state: TaskState
    var currentTask: nat
    var cancelEvent: bool

    function View(): Manager
      reads this
    {
      Manager(state, currentTask, cancelEvent, events)
    }

    constructor ()
      ensures View() == Manager(Idle, 0, false, [])
    {
      events, state, currentTask, cancelEvent := [], Idle, 0, false;
    }

    method IsActive() returns (active: bool)
      ensures active == Active(state)
    {
      active := state == Validating || state == Queued || state == Running || state == Verifying || state == Finalizing;
    }

    method SetState(newState: TaskState)
      modifies `state, `events
      ensures View() == old(View()).(state := newState, events := old(events) + [StateChanged(newState)])
    {
      state := newState;
      events := events + [StateChanged(newState)];
    }

    /** On success the caller has handed a worker to the pool. */
    method SubmitTask(task: nat) returns (accepted: bool)
      modifies this
      ensures (View(), accepted) == SubmitEffect(old(View()), task)
    {
      var active := IsActive();
      if active {
        return false;
      }
      currentTask := task;
      cancelEvent := false;
      SetState(Queued);
      return true;
    }

    method WorkerStarts()
      modifies this
      ensures View() == StartEffect(old(View()))
    {
      SetState(Running);
    }

    method WorkerFinishes(task: nat, failed: bool)
      modifies this
      ensures View() == FinishEffect(old(View()), task, failed)
    {
      if cancelEvent {
        SetState(Cancelled);
      } else if failed {
        SetState(Failed);
      } else {
        SetState(Success);
      }
      events := events + [Finished(task, failed)];
    }

    method Cancel() returns (accepted: bool)
      modifies this
      ensures (View(), accepted) == CancelEffect(old(View()))
    {
      var active := IsActive();
      if active {
        cancelEvent := true;
        events := events + [CancelSignalled];
      }
      return active;
    }
  }

  // ---------- The step system ----------

  /** `waiting` are the accepted tasks whose worker has not started, `running` those whose worker has; `accepted`
      counts the tasks taken so far, which number them. */
  datatype System = System(manager: Manager, waiting: multiset<nat>, running: multiset<nat>, accepted: nat)

  datatype Step =
    | Submit
    | WorkerStarts(task: nat)
    | WorkerFinishes(task: nat, failed: bool)
    | Cancel
    | ScreenClearsCancel
    | ScreenSetsCancel

  const INITIAL := System(Manager(Idle, 0, false, []), multiset{}, multiset{}, 0)

  predicate Enabled(s: System, step: Step) {
    match step
    case WorkerStarts(task) => task in s.waiting
    case WorkerFinishes(task, _) => task in s.running
    case _ => true
  }

  /** The screens touch the shared event directly: they clear it before they submit and set it when the user
      cancels, in either case whether or not a task is active. */
  function Apply(s: System, step: Step): System
    requires Enabled(s, step)
  {
    match step
    case Submit =>
      var (m, ok) := SubmitEffect(s.manager, s.accepted);
      if ok then s.(manager := m, waiting := s.waiting + multiset{s.accepted}, accepted := s.accepted + 1) else s
    case WorkerStarts(task) =>
      s.(manager := StartEffect(s.manager), waiting := s.waiting - multiset{task},
         running := s.running + multiset{task})
    case WorkerFinishes(task, failed) =>
      s.(manager := FinishEffect(s.manager, task, failed), running := s.running - multiset{task})
    case Cancel => s.(manager := CancelEffect(s.manager).0)
    case ScreenClearsCancel => s.(manager := s.manager.(cancelSet := false))
    case ScreenSetsCancel => s.(manager := s.manager.(cancelSet := true))
  }

  predicate CanRun(s: System, steps: seq<Step>)
    decreases |steps|
  {
    steps == [] || (Enabled(s, steps[0]) && CanRun(Apply(s, steps[0]), steps[1..]))
  }

  function Run(s: System, steps: seq<Step>): System
    requires CanRun(s, steps)
    decreases |steps|
  {
    if steps == [] then s else Run(Apply(s, steps[0]), steps[1..])
  }

  /** How often `task` was reported finished. */
  function TimesFinished(events: seq<Event>, task: nat): nat {
    if events == [] then 0
    else
      var last := events[|events| - 1];
      TimesFinished(events[..|events| - 1], task) + if last.Finished? && last.task == task then 1 else 0
  }

  /** One worker while the manager is active, none otherwise; every accepted task is in the hands of a worker or
      has been reported finished, once. */
  ghost predicate Inv(s: System) {
    && |s.waiting + s.running| == (if Active(s.manager.state) then 1 else 0)
    && (s.waiting != multiset{} ==> s.manager.state == Queued)
    && (s.running != multiset{} ==> s.manager.state == Running)
    && (forall t: nat :: AccountedFor(s, t))
  }

  predicate AccountedFor(s: System, t: nat) {
    TimesFinished(s.manager.events, t) + s.waiting[t] + s.running[t] == if t < s.accepted then 1 else 0
  }

  lemma EventAdds(events: seq<Event>, e: Event, t: nat)
    ensures TimesFinished(events + [e], t) == TimesFinished(events, t) + if e.Finished? && e.task == t then 1 else 0
  {
    assert (events + [e])[..|events|] == events;
  }

  lemma FinishAdds(events: seq<Event>, change: Event, task: nat, failed: bool, t: nat)
    requires change.StateChanged?
    ensures TimesFinished(events + [change, Finished(task, failed)], t)
         == TimesFinished(events, t) + if task == t then 1 else 0
  {
    EventAdds(events, change, t);
    EventAdds(events + [change], Finished(task, failed), t);
    assert events + [change] + [Finished(task, failed)] == events + [change, Finished(task, failed)];
  }

  lemma StepKeeps(s: System, step: Step)
    requires Inv(s) && Enabled(s, step)
    ensures Inv(Apply(s, step))
  {
    forall t: nat ensures AccountedFor(Apply(s, step), t) {
      assert AccountedFor(s, t);
      StepAccounts(s, step, t);
    }
    StepWorkers(s, step);
  }

  lemma FinishAccounts(s: System, task: nat, failed: bool, t: nat)
    requires AccountedFor(s, t) && Enabled(s, WorkerFinishes(task, failed))
    ensures AccountedFor(Apply(s, WorkerFinishes(task, failed)), t)
  {
    hide TimesFinished, Active, FinalState;
    FinishAdds(s.manager.events, StateChanged(FinalState(s.manager, failed)), task, failed, t);
  }

  lemma StepAccounts(s: System, step: Step, t: nat)
    requires AccountedFor(s, t) && Enabled(s, step)
    ensures AccountedFor(Apply(s, step), t)
  {
    hide TimesFinished, Active, FinalState;
    var events := s.manager.events;
    match step {
      case Submit => EventAdds(events, StateChanged(Queued), t);
      case WorkerStarts(_) => EventAdds(events, StateChanged(Running), t);
      case WorkerFinishes(task, failed) => FinishAccounts(s, task, failed, t);
      case Cancel => EventAdds(events, CancelSignalled, t);
      case ScreenClearsCancel =>
      case ScreenSetsCancel =>
    }
  }

  lemma StepWorkers(s: System, step: Step)
    requires Inv(s) && Enabled(s, step)
    ensures var next := Apply(s, step);
      && |next.waiting + next.running| == (if Active(next.manager.state) then 1 else 0)
      && (next.waiting != multiset{} ==> next.manager.state == Queued)
      && (next.running != multiset{} ==> next.manager.state == Running)
  {
    match step {
      case WorkerStarts(task) => OnlyOne(s.waiting, s.running, task);
      case WorkerFinishes(task, _) => OnlyOne(s.running, s.waiting, task);
      case _ =>
    }
  }

  lemma OnlyOne(a: multiset<nat>, b: multiset<nat>, task: nat)
    requires |a + b| <= 1 && task in a
    ensures a == multiset{task} && b == multiset{}
  {
    assert a == multiset{task} + (a - multiset{task});
  }

  lemma {:induction false} RunKeeps(s: System, steps: seq<Step>)
    requires Inv(s) && CanRun(s, steps)
    ensures Inv(Run(s, steps))
    decreases |steps|
  {
    if steps != [] {
      StepKeeps(s, steps[0]);
      RunKeeps(Apply(s, steps[0]), steps[1..]);
    }
  }

  /** In every interleaving there is at most one worker, and no task is ever reported finished twice; when the
      manager is inactive every accepted task has been reported exactly once. */
  lemma RunsFinishOnce(steps: seq<Step>)
    requires CanRun(INITIAL, steps)
    ensures var s := Run(INITIAL, steps);
      && |s.waiting| + |s.running| <= 1
      && (forall t: nat :: TimesFinished(s.manager.events, t) <= 1)
      && (!Active(s.manager.state) ==> forall t: nat :: t < s.accepted ==> TimesFinished(s.manager.events, t) == 1)
  {
    RunKeeps(INITIAL, steps);
    var s := Run(INITIAL, steps);
    assert |s.waiting + s.running| == |s.waiting| + |s.running|;
    forall t: nat ensures TimesFinished(s.manager.events, t) <= 1
                  ensures !Active(s.manager.state) && t < s.accepted ==> TimesFinished(s.manager.events, t) == 1 {
      assert AccountedFor(s, t);
      if !Active(s.manager.state) { assert s.waiting + s.running == multiset{}; }
    }
  }

  // ---------- Cancellation ----------

  predicate Raises(step: Step) { step.Cancel? || step.ScreenSetsCancel? }

  /** Is the cancel signal up after these steps of one task's life?  The last of them that touches it decides. */
  function SignalAfter(up: bool, steps: seq<Step>): bool {
    if steps == [] then up
    else
      var last := steps[|steps| - 1];
      if Raises(last) then true
      else if last.ScreenClearsCancel? then false
      else SignalAfter(up, steps[..|steps| - 1])
  }

  predicate NoFinish(steps: seq<Step>) { forall i :: 0 <= i < |steps| ==> !steps[i].WorkerFinishes? }

  lemma {:induction false} SignalFromFront(up: bool, steps: seq<Step>)
    requires steps != []
    ensures SignalAfter(up, steps)
         == SignalAfter(if Raises(steps[0]) then true else if steps[0].ScreenClearsCancel? then false else up,
                        steps[1..])
    decreases |steps|
  {
    if |steps| > 1 {
      var front := steps[..|steps| - 1];
      SignalFromFront(up, front);
      assert steps[1..][..|steps| - 2] == front[1..];
    }
  }

  lemma {:induction false} SignalIsTracked(s: System, steps: seq<Step>)
    requires Inv(s) && Active(s.manager.state) && CanRun(s, steps) && NoFinish(steps)
    ensures Active(Run(s, steps).manager.state)
    ensures Run(s, steps).manager.cancelSet == SignalAfter(s.manager.cancelSet, steps)
    decreases |steps|
  {
    if steps != [] {
      StepKeeps(s, steps[0]);
      SignalIsTracked(Apply(s, steps[0]), steps[1..]);
      SignalFromFront(s.manager.cancelSet, steps);
    }
  }

  /** A task ends as cancelled exactly when the last thing done to the shared event in its life was to set it,
      through the manager or by a screen.  `steps` is the whole life of one task, from its submission to just
      before it finishes; what happened to the event before that has no influence. */
  lemma EndsCancelledIff(s: System, steps: seq<Step>, task: nat, failed: bool)
    requires Inv(s) && !Active(s.manager.state) && CanRun(s, [Submit] + steps) && NoFinish(steps)
    requires Enabled(Run(s, [Submit] + steps), WorkerFinishes(task, failed))
    ensures var final := Apply(Run(s, [Submit] + steps), WorkerFinishes(task, failed)).manager.state;
      final == Cancelled <==> SignalAfter(false, steps)
  {
    var all := [Submit] + steps;
    assert all[1..] == steps;
    StepKeeps(s, Submit);
    SignalIsTracked(Apply(s, Submit), steps);
  }

  /** An accepted cancellation is lost when a screen goes on to start another task: it clears the event first, and
      its submission is then refused because the first task is still active, which ends in success. */
  lemma ClearedCancellationIsLost(s: System, task: nat)
    requires s.manager.state == Running && task in s.running
    ensures var steps := [Cancel, ScreenClearsCancel, Submit, WorkerFinishes(task, false)];
      && CancelEffect(s.manager).1
      && CanRun(s, steps) && Run(s, steps).manager.state == Success && Run(s, steps).accepted == s.accepted
  {
    var s1 := Apply(s, Cancel);
    var s2 := Apply(s1, ScreenClearsCancel);
    RunStep(s2, [Submit, WorkerFinishes(task, false)]);
    RunStep(s1, [ScreenClearsCancel, Submit, WorkerFinishes(task, false)]);
    RunStep(s, [Cancel, ScreenClearsCancel, Submit, WorkerFinishes(task, false)]);
  }

  lemma RunStep(s: System, steps: seq<Step>)
    requires steps != [] && Enabled(s, steps[0])
    ensures CanRun(s, steps) == CanRun(Apply(s, steps[0]), steps[1..])
    ensures CanRun(s, steps) ==> Run(s, steps) == Run(Apply(s, steps[0]), steps[1..])
  {}
}

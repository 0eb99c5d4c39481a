/** The launch protocol around the registry, as interleaved atomic steps: duplicate check, target lock,
    registration, submission, worker updates, release, cancellation requests, and process restarts.

    Check, lock and registration are separate steps, so any number of other launches may run between them. */
module JobProtocol {
  import opened Basics
  import opened Jobs

  /** Where one launch stands.  `Aborted` is a handler that raised between locking and submitting. */
  datatype Pc = Checked | Refused | Locked | Registered | Working | Finishing | Finished | Aborted

  /** `engine` is the text a scan request names its engine with. */
  datatype Launch = Launch(pc: Pc, target: string, fingerprint: string, caseId: string, sanitization: bool,
                           engine: string)

  /** `cancelled` is a history variable: the jobs for which a cancellation request was accepted. */
  datatype System = System(reg: RegistryState, launches: map<JobId, Launch>, cancelled: set<JobId>)

  /** Target normalisation, the normalised target a fingerprint was computed from, and the texts that pass for
      digits but are no number, such as a superscript two. */
  datatype Env = Env(norm: string -> string, targetOf: string -> string, digitsButNoNumber: string -> bool)

  /** Does the handler raise between locking and registering?  A scan reads its engine as a number there. */
  predicate Raises(env: Env, l: Launch) { !l.sanitization && env.digitsButNoNumber(l.engine) }

  datatype Step =
    | CheckFingerprint(id: JobId, launch: Launch)
    | Acquire(id: JobId)
    | Register(id: JobId)
    | MarkQueued(id: JobId)
    | Submit(id: JobId)
    | WorkerUpdate(id: JobId, change: Change, swallowed: bool)
    | WorkerReturn(id: JobId, change: Change)
    | WorkerFails(id: JobId)
    | Release(id: JobId)
    | Cancel(id: JobId)
    | Restart

  const NO_CHANGE := Change(None, None, None, None, None)

  predicate At(s: System, id: JobId, pc: Pc) {
    id in s.launches && s.launches[id].pc == pc
  }

  predicate Enabled(env: Env, s: System, step: Step) {
    match step
    case CheckFingerprint(id, launch) =>
      // job ids are fresh random numbers
      && id != "" && id !in s.launches && id !in s.reg.disk && id !in s.reg.jobs
      // both endpoints have a case by now
      && launch.pc == Checked && launch.caseId != "" && env.targetOf(launch.fingerprint) == env.norm(launch.target)
      && !ActiveWithFingerprint(s.reg.jobs, launch.fingerprint)
    case Acquire(id) => At(s, id, Checked)
    case Register(id) => At(s, id, Locked)
    case MarkQueued(id) => At(s, id, Registered) && s.launches[id].sanitization
    case Submit(id) => At(s, id, Registered)
    case WorkerUpdate(id, change, swallowed) => At(s, id, Working)
    // a worker only returns right behind an update to Completed or Cancelled that went through
    case WorkerReturn(id, change) =>
      At(s, id, Working) && change.status in {Some(Completed), Some(Cancelled)}
      && UpdateEffect(env.norm, s.reg, id, change).1.Done?
    case WorkerFails(id) => At(s, id, Working)
    case Release(id) => At(s, id, Finishing)
    case Cancel(id) => true
    case Restart => true
  }

  function Move(s: System, id: JobId, pc: Pc, reg: RegistryState): System
    requires id in s.launches
  {
    s.(reg := reg, launches := s.launches[id := s.launches[id].(pc := pc)])
  }

  /** The worker's exception handler: try to record the failure, whatever comes of it. */
  function Fail(env: Env, s: System, id: JobId, reg: RegistryState): System
    requires id in s.launches
  {
    var change := NO_CHANGE.(status := Some(Failed), phase := Some("FAILED"));
    Move(s, id, Finishing, UpdateEffect(env.norm, reg, id, change).0)
  }

  function Perform(env: Env, s: System, step: Step): System
    requires Enabled(env, s, step)
  {
    match step
    case CheckFingerprint(id, launch) => s.(launches := s.launches[id := launch])
    case Acquire(id) =>
      var (reg, acquired) := AcquireEffect(s.reg, env.norm(s.launches[id].target), id);
      Move(s, id, if acquired then Locked else Refused, reg)
    case Register(id) =>
      var l := s.launches[id];
      if Raises(env, l) then Move(s, id, Aborted, s.reg)
      else Move(s, id, Registered,
                CreateEffect(s.reg, id, NewJob(l.caseId, l.target, Some(l.fingerprint), l.sanitization)))
    case MarkQueued(id) =>
      var (reg, outcome) :=
        UpdateEffect(env.norm, s.reg, id, NO_CHANGE.(status := Some(Queued), phase := Some("QUEUED")));
      Move(s, id, if outcome.Done? then Registered else Aborted, reg)
    case Submit(id) => Move(s, id, Working, s.reg)
    case WorkerUpdate(id, change, swallowed) =>
      var (reg, outcome) := UpdateEffect(env.norm, s.reg, id, change);
      if outcome.Done? || swallowed then Move(s, id, Working, reg) else Fail(env, s, id, reg)
    case WorkerReturn(id, change) => Move(s, id, Finishing, UpdateEffect(env.norm, s.reg, id, change).0)
    case WorkerFails(id) => Fail(env, s, id, s.reg)
    case Release(id) => Move(s, id, Finished, ReleaseEffect(s.reg, env.norm(s.launches[id].target), id))
    case Cancel(id) =>
      var (reg, outcome) := CancelEffect(env.norm, s.reg, id);
      s.(reg := reg, cancelled := if outcome.Done? then s.cancelled + {id} else s.cancelled)
    case Restart => System(RestartEffect(s.reg), map[], s.cancelled)
  }

  // ---------- The registry half of the invariant ----------

  predicate HoldsLock(env: Env, r: RegistryState, id: JobId, target: string) {
    env.norm(target) in r.locks && r.locks[env.norm(target)] == id
  }

  predicate Agree(memory: Job, disk: Job) {
    memory.status == disk.status && memory.target == disk.target && memory.fingerprint == disk.fingerprint
  }

  /** Memory and disk agree on every status, an active job holds its target's lock, and records that are
      only on disk are terminal. */
  ghost predicate RegistryInv(env: Env, r: RegistryState) {
    && (forall id <- r.jobs :: id in r.disk && Agree(r.jobs[id], r.disk[id]))
    && (forall id <- r.jobs :: Active(r.jobs[id].status) ==> HoldsLock(env, r, id, r.jobs[id].target))
    && (forall id <- r.disk :: id !in r.jobs ==> Terminal(r.disk[id].status))
  }

  /** How one operation may change the recorded status of a job. */
  predicate StatusMoves(from: Status, to: Status) {
    from == to || to in Allowed(from)
  }

  ghost predicate OnlyTouches(r: RegistryState, q: RegistryState, id: JobId) {
    && (forall x :: x != id ==> (x in r.jobs <==> x in q.jobs) && (x in r.disk <==> x in q.disk))
    && (forall x <- r.jobs :: x != id ==> q.jobs[x] == r.jobs[x])
    && (forall x <- r.disk :: x != id ==> q.disk[x] == r.disk[x])
    && (forall t <- q.locks :: t in r.locks && q.locks[t] == r.locks[t])
    && (forall t <- r.locks :: t !in q.locks ==> r.locks[t] == id)
  }

  lemma UpdateTouches(env: Env, r: RegistryState, id: JobId, c: Change)
    ensures OnlyTouches(r, UpdateEffect(env.norm, r, id, c).0, id)
  {}

  /** The record of the updated job, in memory and on disk, before and behind an update. */
  ghost predicate RecordMoves(r: RegistryState, q: RegistryState, id: JobId)
    requires id in r.disk
  {
    && id in q.disk && id in q.jobs && Agree(q.jobs[id], q.disk[id])
    && q.disk[id].target == r.disk[id].target && q.disk[id].fingerprint == r.disk[id].fingerprint
    && StatusMoves(r.disk[id].status, q.disk[id].status)
  }

  lemma UpdateMoves(env: Env, r: RegistryState, id: JobId, c: Change)
    requires id in r.disk && (id in r.jobs ==> Agree(r.jobs[id], r.disk[id]))
    ensures var (q, outcome) := UpdateEffect(env.norm, r, id, c);
      && RecordMoves(r, q, id) && !outcome.NotFound?
      && (outcome.Illegal? ==> c.status.Some? && q.disk == r.disk && q.locks == r.locks
                               && Refuses(r.disk[id].status, c.status.value))
      && (outcome.Done? && c.status.Some? ==> q.disk[id].status == Effective(r.disk[id].status, c.status.value))
      && (outcome.Done? && c.status.None? ==> q.disk[id].status == r.disk[id].status)
      && (Active(q.disk[id].status) ==> q.locks == r.locks && Active(r.disk[id].status))
  {}

  lemma InvFromTouch(env: Env, r: RegistryState, q: RegistryState, id: JobId)
    requires RegistryInv(env, r) && OnlyTouches(r, q, id)
    requires id in r.disk && RecordMoves(r, q, id)
    requires Active(q.disk[id].status) ==> q.locks == r.locks && Active(r.disk[id].status)
    ensures RegistryInv(env, q)
  {
    forall x <- q.jobs
      ensures x in q.disk && Agree(q.jobs[x], q.disk[x])
      ensures Active(q.jobs[x].status) ==> HoldsLock(env, q, x, q.jobs[x].target)
    {
      if x != id {
        assert q.jobs[x] == r.jobs[x];
      } else if Active(q.jobs[x].status) {
        assert id in r.jobs;
        assert HoldsLock(env, r, id, r.jobs[id].target);
      }
    }
  }

  lemma UpdateKeeps(env: Env, r: RegistryState, id: JobId, c: Change)
    requires RegistryInv(env, r)
    ensures RegistryInv(env, UpdateEffect(env.norm, r, id, c).0)
    ensures id !in r.disk ==> UpdateEffect(env.norm, r, id, c) == (r, NotFound)
  {
    if id in r.disk {
      UpdateTouches(env, r, id, c);
      UpdateMoves(env, r, id, c);
      InvFromTouch(env, r, UpdateEffect(env.norm, r, id, c).0, id);
    }
  }

  lemma TouchesCompose(r: RegistryState, m: RegistryState, q: RegistryState, id: JobId)
    requires OnlyTouches(r, m, id) && OnlyTouches(m, q, id)
    ensures OnlyTouches(r, q, id)
  {}

  /** The registry a cancellation request hands to `update_job`: token set, and a queued job's lock freed. */
  function BeforeCancelUpdate(env: Env, r: RegistryState, id: JobId): RegistryState {
    var l := Loaded(r, id);
    var signalled := l.(tokens := l.tokens + {id});
    if id in l.jobs && l.jobs[id].status == Queued && l.jobs[id].target != ""
    then ReleaseEffect(signalled, env.norm(l.jobs[id].target), id) else signalled
  }

  function CancelChange(s: Status): Change {
    if s == Queued then StatusChange(Cancelled, "CANCELLED") else StatusChange(Cancelling, "CANCELLING")
  }

  lemma CancelIsUpdate(env: Env, r: RegistryState, id: JobId)
    ensures var m := BeforeCancelUpdate(env, r, id);
      && OnlyTouches(r, m, id) && m.disk == r.disk
      && (id in m.jobs && id in r.jobs ==> m.jobs[id] == r.jobs[id])
      && (id in m.jobs && id !in r.jobs ==> id in r.disk && m.jobs[id] == r.disk[id])
      && (id in r.disk ==> id in m.jobs)
      && (id in m.jobs && m.jobs[id].status != Queued ==> m.locks == r.locks)
    ensures var m := BeforeCancelUpdate(env, r, id);
      CancelEffect(env.norm, r, id) ==
        if id !in m.jobs then (r, NotFound)
        else if m.jobs[id].status in {Queued, Running}
        then UpdateEffect(env.norm, m, id, CancelChange(m.jobs[id].status))
        else if m.jobs[id].status in {Cancelling, Cancelled} then (m, Done(m.jobs[id]))
        else (m, Illegal)
  {}

  lemma CancelTouches(env: Env, r: RegistryState, id: JobId)
    ensures OnlyTouches(r, CancelEffect(env.norm, r, id).0, id)
  {
    var m := BeforeCancelUpdate(env, r, id);
    CancelIsUpdate(env, r, id);
    if id in m.jobs && m.jobs[id].status in {Queued, Running} {
      var c := CancelChange(m.jobs[id].status);
      UpdateTouches(env, m, id, c);
      TouchesCompose(r, m, UpdateEffect(env.norm, m, id, c).0, id);
    }
  }

  /** A cancellation request is refused exactly for unknown jobs and for jobs in a terminal state other than
      `Cancelled`; an accepted one leaves the job `Cancelling` or `Cancelled`. */
  lemma CancelMoves(env: Env, r: RegistryState, id: JobId)
    requires id in r.disk && (id in r.jobs ==> Agree(r.jobs[id], r.disk[id]))
    ensures var (q, outcome) := CancelEffect(env.norm, r, id);
      && RecordMoves(r, q, id)
      && (outcome.Done? <==> Active(r.disk[id].status) || r.disk[id].status == Cancelled)
      && (outcome.Done? ==> q.disk[id].status in {Cancelling, Cancelled})
      && (!outcome.Done? ==> q.disk == r.disk && q.locks == r.locks)
      && (Active(q.disk[id].status) ==> q.locks == r.locks && Active(r.disk[id].status))
  {
    var m := BeforeCancelUpdate(env, r, id);
    CancelIsUpdate(env, r, id);
    if m.jobs[id].status in {Queued, Running} {
      UpdateMoves(env, m, id, CancelChange(m.jobs[id].status));
    }
  }

  lemma CancelKeeps(env: Env, r: RegistryState, id: JobId)
    requires RegistryInv(env, r)
    ensures RegistryInv(env, CancelEffect(env.norm, r, id).0)
    ensures id !in r.disk ==> CancelEffect(env.norm, r, id) == (r, NotFound)
  {
    if id in r.disk {
      CancelTouches(env, r, id);
      CancelMoves(env, r, id);
      InvFromTouch(env, r, CancelEffect(env.norm, r, id).0, id);
    }
  }

  lemma RestartKeeps(env: Env, r: RegistryState)
    ensures RegistryInv(env, RestartEffect(r))
  {
    forall id <- r.disk ensures Terminal(Reconciled(r.disk[id]).status) {
      ActiveOrTerminal(r.disk[id].status);
    }
  }

  lemma ActiveOrTerminal(s: Status)
    ensures Active(s) <==> !Terminal(s)
  {
    match s {
      case Queued => case Running => case Cancelling => case Completed => case Failed =>
      case Cancelled => case Interrupted => case DeviceDisconnected => case VerificationFailed =>
    }
  }

  // ---------- The invariant of the whole system ----------

  /** What each program counter promises about the launch's job and lock. */
  predicate LaunchOk(env: Env, r: RegistryState, id: JobId, l: Launch) {
    && id != "" && env.targetOf(l.fingerprint) == env.norm(l.target)
    && (l.pc in {Checked, Refused, Locked} ==> id !in r.disk && id !in r.jobs)
    && (l.pc == Locked ==> HoldsLock(env, r, id, l.target))
    && (l.pc in {Registered, Working, Finishing, Finished} ==> id in r.jobs)
    && (id in r.jobs ==> r.jobs[id].target == l.target && r.jobs[id].fingerprint == Some(l.fingerprint))
    && (id in r.jobs <==> id in r.disk)
    && (l.pc == Registered ==> r.jobs[id].status in {Queued, Cancelled})
    && (l.pc in {Finishing, Finished, Aborted} && id in r.jobs ==> Terminal(r.jobs[id].status))
  }

  /** A lock belongs to a launch between locking and releasing, or to one that raised in between. */
  predicate OwnerOk(env: Env, launches: map<JobId, Launch>, target: string, id: JobId) {
    id in launches && env.norm(launches[id].target) == target
    && launches[id].pc in {Locked, Registered, Working, Finishing, Aborted}
  }

  predicate NeverCompletes(s: Status) { s in {Cancelling, Cancelled, Failed, DeviceDisconnected, Interrupted} }

  ghost predicate Inv(env: Env, s: System) {
    && RegistryInv(env, s.reg)
    && (forall id <- s.launches :: LaunchOk(env, s.reg, id, s.launches[id]))
    && (forall t <- s.reg.locks :: OwnerOk(env, s.launches, t, s.reg.locks[t]))
    && (forall id <- s.reg.jobs :: Active(s.reg.jobs[id].status) ==> id in s.launches)
    && (forall id <- s.cancelled :: id in s.reg.disk && NeverCompletes(s.reg.disk[id].status))
  }

  /** No two active jobs work on one normalised target. */
  lemma NoSharedTarget(env: Env, s: System, x: JobId, y: JobId)
    requires Inv(env, s) && x in s.reg.jobs && y in s.reg.jobs && x != y
    requires Active(s.reg.jobs[x].status) && Active(s.reg.jobs[y].status)
    ensures env.norm(s.reg.jobs[x].target) != env.norm(s.reg.jobs[y].target)
    ensures s.reg.jobs[x].fingerprint != s.reg.jobs[y].fingerprint
  {
    assert HoldsLock(env, s.reg, x, s.reg.jobs[x].target);
    assert HoldsLock(env, s.reg, y, s.reg.jobs[y].target);
    assert LaunchOk(env, s.reg, x, s.launches[x]) && LaunchOk(env, s.reg, y, s.launches[y]);
  }

  /** A finished or refused launch holds no lock. */
  lemma FinishedHoldsNothing(env: Env, s: System, id: JobId, t: string)
    requires Inv(env, s) && id in s.launches && s.launches[id].pc in {Checked, Refused, Finished}
    ensures t in s.reg.locks ==> s.reg.locks[t] != id
  {
    if t in s.reg.locks { assert OwnerOk(env, s.launches, t, s.reg.locks[t]); }
  }

  /** How recorded statuses may move in one step of the system. */
  ghost predicate StatusesMove(s: System, q: System, step: Step) {
    forall id <- s.reg.disk :: id in q.reg.disk
      && (StatusMoves(s.reg.disk[id].status, q.reg.disk[id].status)
          || (step.Restart? && Active(s.reg.disk[id].status) && q.reg.disk[id].status == Interrupted))
  }

  predicate PcMoves(from: Pc, to: Pc) {
    from == to || (from in {Registered, Working} && to in {Registered, Working, Finishing, Aborted})
  }

  /** The shape shared by all steps that change one job through `update_job` or `cancel_job`. */
  ghost predicate ChangesOne(env: Env, s: System, q: System, id: JobId) {
    && id in s.reg.disk && RegistryInv(env, q.reg)
    && OnlyTouches(s.reg, q.reg, id) && RecordMoves(s.reg, q.reg, id)
    && (Active(q.reg.disk[id].status) ==> Active(s.reg.disk[id].status))
    && q.launches.Keys == s.launches.Keys
    && (forall x <- s.launches :: x != id ==> q.launches[x] == s.launches[x])
    && (id in s.launches ==> LaunchOk(env, q.reg, id, q.launches[id]) && q.launches[id].target == s.launches[id].target
                             && PcMoves(s.launches[id].pc, q.launches[id].pc))
    && s.cancelled <= q.cancelled <= s.cancelled + {id}
    && (id in q.cancelled ==> NeverCompletes(q.reg.disk[id].status))
  }

  lemma OtherLaunchesStayOk(env: Env, s: System, q: System, id: JobId, x: JobId)
    requires Inv(env, s) && ChangesOne(env, s, q, id) && x in q.launches
    ensures LaunchOk(env, q.reg, x, q.launches[x])
  {
    if x != id {
      assert LaunchOk(env, s.reg, x, s.launches[x]);
      if q.launches[x].pc == Locked {
        assert env.norm(q.launches[x].target) in q.reg.locks;
      }
    }
  }

  lemma LocksStayOwned(env: Env, s: System, q: System, id: JobId, t: string)
    requires Inv(env, s) && ChangesOne(env, s, q, id) && t in q.reg.locks
    ensures OwnerOk(env, q.launches, t, q.reg.locks[t])
  {
    assert OwnerOk(env, s.launches, t, s.reg.locks[t]);
  }

  lemma ActiveJobsStayLaunched(env: Env, s: System, q: System, id: JobId, x: JobId)
    requires Inv(env, s) && ChangesOne(env, s, q, id) && x in q.reg.jobs && Active(q.reg.jobs[x].status)
    ensures x in q.launches
  {
    if x == id {
      ActiveOrTerminal(s.reg.disk[id].status);
      assert id in s.reg.jobs;
    }
  }

  lemma RecordStatuses(env: Env, s: System, q: System, id: JobId, step: Step)
    requires Inv(env, s) && ChangesOne(env, s, q, id)
    ensures StatusesMove(s, q, step)
    ensures forall x <- q.cancelled :: x in q.reg.disk && NeverCompletes(q.reg.disk[x].status)
  {
    hide LaunchOk, OwnerOk, RegistryInv, Agree, PcMoves;
  }

  lemma RecordStep(env: Env, s: System, q: System, id: JobId, step: Step)
    requires Inv(env, s) && ChangesOne(env, s, q, id)
    ensures Inv(env, q) && StatusesMove(s, q, step)
  {
    RecordStatuses(env, s, q, id, step);
    hide LaunchOk, OwnerOk, RegistryInv, RecordMoves, OnlyTouches, StatusesMove, PcMoves;
    forall x <- q.launches ensures LaunchOk(env, q.reg, x, q.launches[x]) {
      OtherLaunchesStayOk(env, s, q, id, x);
    }
    forall t <- q.reg.locks ensures OwnerOk(env, q.launches, t, q.reg.locks[t]) {
      LocksStayOwned(env, s, q, id, t);
    }
    forall x <- q.reg.jobs | Active(q.reg.jobs[x].status) ensures x in q.launches {
      ActiveJobsStayLaunched(env, s, q, id, x);
    }
  }

  // ---------- One lemma per step ----------

  /** The shape of the steps that write no job record: one launch moves, and only its own locks change. */
  ghost predicate MovesOne(env: Env, s: System, q: System, id: JobId) {
    && q.reg.jobs == s.reg.jobs && q.reg.disk == s.reg.disk && q.cancelled == s.cancelled
    && (forall x <- s.launches :: x in q.launches && (x != id ==> q.launches[x] == s.launches[x]))
    && (forall x <- q.launches :: x != id ==> x in s.launches)
    && id in q.launches && LaunchOk(env, q.reg, id, q.launches[id])
    && LocksMove(env, s, q, id)
    && (id in s.reg.jobs ==> Terminal(s.reg.jobs[id].status) || q.reg.locks == s.reg.locks)
  }

  ghost predicate LocksMove(env: Env, s: System, q: System, id: JobId) {
    && (forall t <- s.reg.locks :: s.reg.locks[t] != id ==> t in q.reg.locks && q.reg.locks[t] == s.reg.locks[t])
    && (forall t <- q.reg.locks :: q.reg.locks[t] != id ==> t in s.reg.locks && s.reg.locks[t] == q.reg.locks[t])
    && (forall t <- q.reg.locks :: q.reg.locks[t] == id ==> OwnerOk(env, q.launches, t, id))
  }

  lemma MovesOneLaunches(env: Env, s: System, q: System, id: JobId, x: JobId)
    requires Inv(env, s) && MovesOne(env, s, q, id) && x in q.launches
    ensures LaunchOk(env, q.reg, x, q.launches[x])
  {
    if x != id {
      assert LaunchOk(env, s.reg, x, s.launches[x]);
    }
  }

  lemma MovesOneLocks(env: Env, s: System, q: System, id: JobId, t: string)
    requires Inv(env, s) && MovesOne(env, s, q, id) && t in q.reg.locks
    ensures OwnerOk(env, q.launches, t, q.reg.locks[t])
  {
    if q.reg.locks[t] != id {
      assert OwnerOk(env, s.launches, t, s.reg.locks[t]);
    }
  }

  lemma MovesOneActive(env: Env, s: System, q: System, id: JobId, x: JobId)
    requires Inv(env, s) && MovesOne(env, s, q, id) && x in q.reg.jobs && Active(q.reg.jobs[x].status)
    ensures x in q.launches && HoldsLock(env, q.reg, x, q.reg.jobs[x].target)
  {
    ActiveOrTerminal(q.reg.jobs[x].status);
    assert HoldsLock(env, s.reg, x, s.reg.jobs[x].target);
  }

  lemma LocalStep(env: Env, s: System, q: System, id: JobId, step: Step)
    requires Inv(env, s) && MovesOne(env, s, q, id)
    ensures Inv(env, q) && StatusesMove(s, q, step)
  {
    forall x <- q.launches ensures LaunchOk(env, q.reg, x, q.launches[x]) {
      MovesOneLaunches(env, s, q, id, x);
    }
    forall t <- q.reg.locks ensures OwnerOk(env, q.launches, t, q.reg.locks[t]) {
      MovesOneLocks(env, s, q, id, t);
    }
    forall x <- q.reg.jobs | Active(q.reg.jobs[x].status)
      ensures x in q.launches && HoldsLock(env, q.reg, x, q.reg.jobs[x].target)
    {
      MovesOneActive(env, s, q, id, x);
    }
  }

  /** The locks a launch may own are those of its own target. */
  lemma OwnLocks(env: Env, s: System, id: JobId, t: string)
    requires Inv(env, s) && t in s.reg.locks && s.reg.locks[t] == id
    ensures OwnerOk(env, s.launches, t, id)
  {}

  lemma CheckKeeps(env: Env, s: System, step: Step)
    requires Inv(env, s) && step.CheckFingerprint? && Enabled(env, s, step)
    ensures Inv(env, Perform(env, s, step)) && StatusesMove(s, Perform(env, s, step), step)
  {
    var q := Perform(env, s, step);
    forall t <- s.reg.locks ensures s.reg.locks[t] != step.id {
      assert OwnerOk(env, s.launches, t, s.reg.locks[t]);
    }
    LocalStep(env, s, q, step.id, step);
  }

  lemma AcquireLocks(env: Env, s: System, id: JobId)
    requires Inv(env, s) && Enabled(env, s, Acquire(id))
    ensures LocksMove(env, s, Perform(env, s, Acquire(id)), id)
  {
    var target := env.norm(s.launches[id].target);
    forall t <- s.reg.locks ensures s.reg.locks[t] != id && s.reg.locks[t] != "" {
      OwnLocks(env, s, s.reg.locks[t], t);
      assert LaunchOk(env, s.reg, s.reg.locks[t], s.launches[s.reg.locks[t]]);
    }
  }

  lemma AcquireKeeps(env: Env, s: System, id: JobId)
    requires Inv(env, s) && Enabled(env, s, Acquire(id))
    ensures Inv(env, Perform(env, s, Acquire(id))) && StatusesMove(s, Perform(env, s, Acquire(id)), Acquire(id))
  {
    assert LaunchOk(env, s.reg, id, s.launches[id]);
    AcquireLocks(env, s, id);
    LocalStep(env, s, Perform(env, s, Acquire(id)), id, Acquire(id));
  }

  lemma ReleaseLocks(env: Env, s: System, id: JobId)
    requires Inv(env, s) && Enabled(env, s, Release(id))
    ensures LocksMove(env, s, Perform(env, s, Release(id)), id)
  {
    forall t <- s.reg.locks | s.reg.locks[t] == id ensures t == env.norm(s.launches[id].target) {
      OwnLocks(env, s, id, t);
    }
  }

  lemma ReleaseKeeps(env: Env, s: System, id: JobId)
    requires Inv(env, s) && Enabled(env, s, Release(id))
    ensures Inv(env, Perform(env, s, Release(id))) && StatusesMove(s, Perform(env, s, Release(id)), Release(id))
  {
    assert LaunchOk(env, s.reg, id, s.launches[id]);
    ReleaseLocks(env, s, id);
    LocalStep(env, s, Perform(env, s, Release(id)), id, Release(id));
  }

  lemma SubmitKeeps(env: Env, s: System, id: JobId)
    requires Inv(env, s) && Enabled(env, s, Submit(id))
    ensures Inv(env, Perform(env, s, Submit(id))) && StatusesMove(s, Perform(env, s, Submit(id)), Submit(id))
  {
    assert LaunchOk(env, s.reg, id, s.launches[id]);
    forall t <- s.reg.locks | s.reg.locks[t] == id ensures t == env.norm(s.launches[id].target) {
      OwnLocks(env, s, id, t);
    }
    LocalStep(env, s, Perform(env, s, Submit(id)), id, Submit(id));
  }

  lemma AbortKeeps(env: Env, s: System, id: JobId, step: Step)
    requires Inv(env, s) && id in s.launches && s.launches[id].pc == Locked
    ensures Inv(env, Move(s, id, Aborted, s.reg)) && StatusesMove(s, Move(s, id, Aborted, s.reg), step)
  {
    assert LaunchOk(env, s.reg, id, s.launches[id]);
    forall t <- s.reg.locks | s.reg.locks[t] == id ensures t == env.norm(s.launches[id].target) {
      OwnLocks(env, s, id, t);
    }
    LocalStep(env, s, Move(s, id, Aborted, s.reg), id, step);
  }

  lemma RegisterLaunches(env: Env, s: System, id: JobId, x: JobId)
    requires Inv(env, s) && Enabled(env, s, Register(id)) && x in s.launches && !Raises(env, s.launches[id])
    ensures var q := Perform(env, s, Register(id)); x in q.launches && LaunchOk(env, q.reg, x, q.launches[x])
  {
    assert LaunchOk(env, s.reg, id, s.launches[id]);
    assert LaunchOk(env, s.reg, x, s.launches[x]);
  }

  lemma RegisterRegistry(env: Env, s: System, id: JobId)
    requires Inv(env, s) && Enabled(env, s, Register(id)) && !Raises(env, s.launches[id])
    ensures RegistryInv(env, Perform(env, s, Register(id)).reg)
  {
    assert LaunchOk(env, s.reg, id, s.launches[id]);
  }

  lemma RegisterKeeps(env: Env, s: System, id: JobId)
    requires Inv(env, s) && Enabled(env, s, Register(id))
    ensures Inv(env, Perform(env, s, Register(id))) && StatusesMove(s, Perform(env, s, Register(id)), Register(id))
  {
    var q := Perform(env, s, Register(id));
    assert LaunchOk(env, s.reg, id, s.launches[id]);
    if Raises(env, s.launches[id]) {
      AbortKeeps(env, s, id, Register(id));
    } else {
      RegisterRegistry(env, s, id);
      forall t <- q.reg.locks ensures OwnerOk(env, q.launches, t, q.reg.locks[t]) {
        OwnLocks(env, s, s.reg.locks[t], t);
      }
      forall x <- q.launches ensures LaunchOk(env, q.reg, x, q.launches[x]) {
        RegisterLaunches(env, s, id, x);
      }
    }
  }

  /** A job that is being cancelled never becomes `Completed`: a completion request turns into a cancellation. */
  lemma CancelledStaysUncompleted(env: Env, r: RegistryState, id: JobId, c: Change)
    requires id in r.disk && (id in r.jobs ==> Agree(r.jobs[id], r.disk[id])) && NeverCompletes(r.disk[id].status)
    ensures NeverCompletes(UpdateEffect(env.norm, r, id, c).0.disk[id].status)
  {
    UpdateMoves(env, r, id, c);
  }

  /** What the invariant says about one job's record. */
  lemma RecordFacts(env: Env, s: System, id: JobId)
    requires Inv(env, s)
    ensures RegistryInv(env, s.reg)
    ensures id in s.reg.jobs ==> id in s.reg.disk && Agree(s.reg.jobs[id], s.reg.disk[id])
    ensures id in s.cancelled ==> id in s.reg.disk && NeverCompletes(s.reg.disk[id].status)
  {}

  /** A launch that moves on to `pc` while the registry becomes `reg`. */
  lemma MoveChangesOne(env: Env, s: System, id: JobId, pc: Pc, reg: RegistryState)
    requires id in s.launches && id in s.reg.disk && RegistryInv(env, reg)
    requires OnlyTouches(s.reg, reg, id) && RecordMoves(s.reg, reg, id)
    requires Active(reg.disk[id].status) ==> Active(s.reg.disk[id].status)
    requires LaunchOk(env, reg, id, s.launches[id].(pc := pc)) && PcMoves(s.launches[id].pc, pc)
    requires id in s.cancelled ==> NeverCompletes(reg.disk[id].status)
    ensures ChangesOne(env, s, Move(s, id, pc, reg), id)
  {
    hide RegistryInv, OnlyTouches, RecordMoves, LaunchOk, PcMoves, NeverCompletes;
  }

  lemma UpdateChangesOne(env: Env, s: System, id: JobId, c: Change, pc: Pc)
    requires RegistryInv(env, s.reg) && id in s.launches && id in s.reg.disk
    requires id in s.reg.jobs ==> Agree(s.reg.jobs[id], s.reg.disk[id])
    requires id in s.cancelled ==> NeverCompletes(s.reg.disk[id].status)
    requires LaunchOk(env, UpdateEffect(env.norm, s.reg, id, c).0, id, s.launches[id].(pc := pc))
    requires PcMoves(s.launches[id].pc, pc)
    ensures ChangesOne(env, s, Move(s, id, pc, UpdateEffect(env.norm, s.reg, id, c).0), id)
  {
    hide UpdateEffect, RegistryInv, OnlyTouches, RecordMoves, LaunchOk, PcMoves, Agree, ChangesOne, NeverCompletes;
    UpdateKeeps(env, s.reg, id, c);
    UpdateTouches(env, s.reg, id, c);
    UpdateMoves(env, s.reg, id, c);
    if id in s.cancelled { CancelledStaysUncompleted(env, s.reg, id, c); }
    MoveChangesOne(env, s, id, pc, UpdateEffect(env.norm, s.reg, id, c).0);
  }

  /** An update of the launch's own job, the launch moving on to `pc`. */
  lemma UpdateStep(env: Env, s: System, id: JobId, c: Change, pc: Pc, step: Step)
    requires Inv(env, s) && id in s.launches && s.launches[id].pc in {Registered, Working}
    requires pc == Registered ==> c.status == Some(Queued) && s.launches[id].pc == Registered
                                  && UpdateEffect(env.norm, s.reg, id, c).1.Done?
    requires pc in {Finishing, Aborted} ==> TerminalAfter(env, s.reg, id, c)
    requires pc in {Registered, Working, Finishing, Aborted}
    ensures var q := Move(s, id, pc, UpdateEffect(env.norm, s.reg, id, c).0);
            Inv(env, q) && StatusesMove(s, q, step)
  {
    assert LaunchOk(env, s.reg, id, s.launches[id]);
    RecordFacts(env, s, id);
    hide Inv, UpdateEffect, RegistryInv, LaunchOk, StatusesMove, Agree, ChangesOne, NeverCompletes, TerminalAfter;
    UpdatedLaunch(env, s, id, c, pc);
    UpdateChangesOne(env, s, id, c, pc);
    RecordStep(env, s, Move(s, id, pc, UpdateEffect(env.norm, s.reg, id, c).0), id, step);
  }

  predicate TerminalAfter(env: Env, r: RegistryState, id: JobId, c: Change) {
    var q := UpdateEffect(env.norm, r, id, c).0;
    id in q.disk && Terminal(q.disk[id].status)
  }

  lemma UpdatedLaunch(env: Env, s: System, id: JobId, c: Change, pc: Pc)
    requires RegistryInv(env, s.reg) && id in s.launches && LaunchOk(env, s.reg, id, s.launches[id])
    requires s.launches[id].pc in {Registered, Working} && pc in {Registered, Working, Finishing, Aborted}
    requires pc == Registered ==> c.status == Some(Queued) && s.launches[id].pc == Registered
                                  && UpdateEffect(env.norm, s.reg, id, c).1.Done?
    requires pc in {Finishing, Aborted} ==> TerminalAfter(env, s.reg, id, c)
    ensures LaunchOk(env, UpdateEffect(env.norm, s.reg, id, c).0, id, s.launches[id].(pc := pc))
  {
    UpdateMoves(env, s.reg, id, c);
  }

  // ---------- The outcomes of the protocol's updates ----------

  /** Marking a registered job `Queued` only fails when it was cancelled in between. */
  lemma MarkQueuedOutcome(env: Env, s: System, id: JobId, c: Change)
    requires Inv(env, s) && At(s, id, Registered) && c.status == Some(Queued)
    ensures var outcome := UpdateEffect(env.norm, s.reg, id, c).1;
            outcome.Done? || TerminalAfter(env, s.reg, id, c)
  {
    assert LaunchOk(env, s.reg, id, s.launches[id]);
    UpdateMoves(env, s.reg, id, c);
  }

  /** Recording a failure fails itself only on a job that is already terminal. */
  lemma FailureIsTerminal(env: Env, r: RegistryState, id: JobId, c: Change)
    requires id in r.disk && (id in r.jobs ==> Agree(r.jobs[id], r.disk[id])) && c.status == Some(Failed)
    ensures TerminalAfter(env, r, id, c)
  {
    UpdateMoves(env, r, id, c);
  }

  lemma ReturnIsTerminal(env: Env, r: RegistryState, id: JobId, c: Change)
    requires id in r.disk && (id in r.jobs ==> Agree(r.jobs[id], r.disk[id]))
    requires c.status in {Some(Completed), Some(Cancelled)} && UpdateEffect(env.norm, r, id, c).1.Done?
    ensures TerminalAfter(env, r, id, c)
  {
    UpdateMoves(env, r, id, c);
  }

  lemma ReturnedIsTerminal(env: Env, s: System, id: JobId, c: Change)
    requires Inv(env, s) && Enabled(env, s, WorkerReturn(id, c))
    ensures TerminalAfter(env, s.reg, id, c)
  {
    assert LaunchOk(env, s.reg, id, s.launches[id]);
    hide UpdateEffect, TerminalAfter;
    ReturnIsTerminal(env, s.reg, id, c);
  }

  lemma FailKeeps(env: Env, s: System, id: JobId, step: Step)
    requires Inv(env, s) && At(s, id, Working)
    ensures Inv(env, Fail(env, s, id, s.reg)) && StatusesMove(s, Fail(env, s, id, s.reg), step)
  {
    assert LaunchOk(env, s.reg, id, s.launches[id]);
    var c := NO_CHANGE.(status := Some(Failed), phase := Some("FAILED"));
    FailureIsTerminal(env, s.reg, id, c);
    UpdateStep(env, s, id, c, Finishing, step);
  }

  lemma WorkerUpdateKeeps(env: Env, s: System, step: Step)
    requires Inv(env, s) && step.WorkerUpdate? && Enabled(env, s, step)
    ensures Inv(env, Perform(env, s, step)) && StatusesMove(s, Perform(env, s, step), step)
  {
    UpdateStep(env, s, step.id, step.change, Working, step);
    var outcome := UpdateEffect(env.norm, s.reg, step.id, step.change).1;
    if !outcome.Done? && !step.swallowed {
      RejectedUpdateKeeps(env, s, step.id, step.change, step);
    }
  }

  lemma RejectedUpdateKeeps(env: Env, s: System, id: JobId, c: Change, step: Step)
    requires Inv(env, s) && At(s, id, Working) && !UpdateEffect(env.norm, s.reg, id, c).1.Done?
    requires Inv(env, Move(s, id, Working, UpdateEffect(env.norm, s.reg, id, c).0))
    ensures var q := Fail(env, s, id, UpdateEffect(env.norm, s.reg, id, c).0);
            Inv(env, q) && StatusesMove(s, q, step)
  {
    var m := Move(s, id, Working, UpdateEffect(env.norm, s.reg, id, c).0);
    assert LaunchOk(env, s.reg, id, s.launches[id]);
    UpdateMoves(env, s.reg, id, c);
    FailKeeps(env, m, id, step);
    FailIgnoresPc(env, s, id, m.reg);
    StatusesCompose(s, m, Fail(env, m, id, m.reg), step);
  }

  lemma FailIgnoresPc(env: Env, s: System, id: JobId, reg: RegistryState)
    requires id in s.launches
    ensures Fail(env, s, id, reg) == Fail(env, Move(s, id, Working, reg), id, reg)
  {
    var m := Move(s, id, Working, reg);
    var l := s.launches[id].(pc := Finishing);
    assert m.launches[id := l] == s.launches[id := l];
  }

  /** A rejected update leaves the recorded status alone, so a following one is a single move. */
  lemma StatusesCompose(s: System, m: System, q: System, step: Step)
    requires m.reg.disk == s.reg.disk && StatusesMove(m, q, step)
    ensures StatusesMove(s, q, step)
  {}

  lemma CancelChangesOne(env: Env, s: System, id: JobId)
    requires RegistryInv(env, s.reg) && id in s.reg.disk
    requires id in s.reg.jobs ==> Agree(s.reg.jobs[id], s.reg.disk[id])
    requires id in s.cancelled ==> NeverCompletes(s.reg.disk[id].status)
    requires id in s.launches ==> LaunchOk(env, CancelEffect(env.norm, s.reg, id).0, id, s.launches[id])
    ensures ChangesOne(env, s, Perform(env, s, Cancel(id)), id)
  {
    hide CancelEffect, OnlyTouches, LaunchOk, RegistryInv, Agree;
    CancelKeeps(env, s.reg, id);
    CancelTouches(env, s.reg, id);
    CancelMoves(env, s.reg, id);
  }

  lemma CancelRequestKeeps(env: Env, s: System, id: JobId)
    requires Inv(env, s)
    ensures Inv(env, Perform(env, s, Cancel(id))) && StatusesMove(s, Perform(env, s, Cancel(id)), Cancel(id))
  {
    RecordFacts(env, s, id);
    hide Inv, CancelEffect, LaunchOk, RegistryInv, Agree, ChangesOne, NeverCompletes, StatusesMove, Perform;
    if id in s.reg.disk {
      if id in s.launches { CancelledLaunch(env, s, id); }
      CancelChangesOne(env, s, id);
      RecordStep(env, s, Perform(env, s, Cancel(id)), id, Cancel(id));
    } else {
      UnknownCancelled(env, s, id);
    }
  }

  lemma UnknownCancelled(env: Env, s: System, id: JobId)
    requires RegistryInv(env, s.reg) && id !in s.reg.disk
    ensures Perform(env, s, Cancel(id)) == s && StatusesMove(s, s, Cancel(id))
  {
    CancelKeeps(env, s.reg, id);
  }

  lemma CancelledLaunch(env: Env, s: System, id: JobId)
    requires Inv(env, s) && id in s.reg.disk && id in s.launches
    ensures LaunchOk(env, CancelEffect(env.norm, s.reg, id).0, id, s.launches[id])
  {
    assert LaunchOk(env, s.reg, id, s.launches[id]);
    CancelMoves(env, s.reg, id);
  }

  lemma RestartStepKeeps(env: Env, s: System)
    requires Inv(env, s)
    ensures Inv(env, Perform(env, s, Restart)) && StatusesMove(s, Perform(env, s, Restart), Restart)
  {
    RestartKeeps(env, s.reg);
    var q := Perform(env, s, Restart);
    forall id <- s.cancelled ensures id in q.reg.disk && NeverCompletes(q.reg.disk[id].status) {
      assert NeverCompletes(s.reg.disk[id].status);
    }
  }

  /** Every step keeps the invariant, and moves recorded statuses along the transition table only. */
  lemma StepKeeps(env: Env, s: System, step: Step)
    requires Inv(env, s) && Enabled(env, s, step)
    ensures Inv(env, Perform(env, s, step)) && StatusesMove(s, Perform(env, s, step), step)
    ensures s.cancelled <= Perform(env, s, step).cancelled
  {
    hide Inv, UpdateEffect, CancelEffect, ReleaseEffect, AcquireEffect, CreateEffect, StatusesMove, TerminalAfter;
    match step {
      case CheckFingerprint(_, _) => CheckKeeps(env, s, step);
      case Acquire(id) => AcquireKeeps(env, s, id);
      case Register(id) => RegisterKeeps(env, s, id);
      case MarkQueued(id) =>
        var c := NO_CHANGE.(status := Some(Queued), phase := Some("QUEUED"));
        MarkQueuedOutcome(env, s, id, c);
        UpdateStep(env, s, id, c, if UpdateEffect(env.norm, s.reg, id, c).1.Done? then Registered else Aborted, step);
      case Submit(id) => SubmitKeeps(env, s, id);
      case WorkerUpdate(_, _, _) => WorkerUpdateKeeps(env, s, step);
      case WorkerReturn(id, c) =>
        ReturnedIsTerminal(env, s, id, c);
        UpdateStep(env, s, id, c, Finishing, step);
      case WorkerFails(id) => FailKeeps(env, s, id, step);
      case Release(id) => ReleaseKeeps(env, s, id);
      case Cancel(id) => CancelRequestKeeps(env, s, id);
      case Restart => RestartStepKeeps(env, s);
    }
  }

  // ---------- Whole runs ----------

  /** A process that has just started on the records of an earlier one. */
  ghost predicate Init(s: System) {
    exists before :: s == System(RestartEffect(before), map[], {})
  }

  ghost predicate IsRun(env: Env, run: seq<System>, steps: seq<Step>) {
    && |run| == |steps| + 1 && Init(run[0])
    && forall i :: 0 <= i < |steps| ==> Enabled(env, run[i], steps[i]) && run[i + 1] == Perform(env, run[i], steps[i])
  }

  lemma {:induction false} RunKeeps(env: Env, run: seq<System>, steps: seq<Step>, i: nat)
    requires IsRun(env, run, steps) && i < |run|
    ensures Inv(env, run[i])
  {
    if i == 0 {
      var before :| run[0] == System(RestartEffect(before), map[], {});
      RestartKeeps(env, before);
    } else {
      RunKeeps(env, run, steps, i - 1);
      StepKeeps(env, run[i - 1], steps[i - 1]);
    }
  }

  predicate BothActive(r: RegistryState, x: JobId, y: JobId) {
    x in r.jobs && y in r.jobs && x != y && Active(r.jobs[x].status) && Active(r.jobs[y].status)
  }

  /** In every reachable state, every active job holds the lock on its normalised target, so no two active
      jobs share a target or a fingerprint; and memory and disk record the same status. */
  lemma RunsAreSafe(env: Env, run: seq<System>, steps: seq<Step>, i: nat)
    requires IsRun(env, run, steps) && i < |run|
    ensures forall x <- run[i].reg.jobs :: Active(run[i].reg.jobs[x].status) ==>
              HoldsLock(env, run[i].reg, x, run[i].reg.jobs[x].target)
    ensures forall x, y | BothActive(run[i].reg, x, y) ::
              env.norm(run[i].reg.jobs[x].target) != env.norm(run[i].reg.jobs[y].target)
              && run[i].reg.jobs[x].fingerprint != run[i].reg.jobs[y].fingerprint
    ensures forall x <- run[i].reg.jobs :: x in run[i].reg.disk
              && run[i].reg.jobs[x].status == run[i].reg.disk[x].status
  {
    RunKeeps(env, run, steps, i);
    forall x, y | BothActive(run[i].reg, x, y)
      ensures env.norm(run[i].reg.jobs[x].target) != env.norm(run[i].reg.jobs[y].target)
      ensures run[i].reg.jobs[x].fingerprint != run[i].reg.jobs[y].fingerprint
    {
      NoSharedTarget(env, run[i], x, y);
    }
  }

  /** A terminal status never changes again, through any further steps and restarts. */
  lemma {:induction false} TerminalIsForever(env: Env, run: seq<System>, steps: seq<Step>, i: nat, j: nat, id: JobId)
    requires IsRun(env, run, steps) && i <= j < |run|
    requires id in run[i].reg.disk && Terminal(run[i].reg.disk[id].status)
    ensures id in run[j].reg.disk && run[j].reg.disk[id].status == run[i].reg.disk[id].status
    decreases j
  {
    hide Perform, Enabled, Inv, Init;
    if i < j {
      TerminalIsForever(env, run, steps, i, j - 1, id);
      RunKeeps(env, run, steps, j - 1);
      StepKeeps(env, run[j - 1], steps[j - 1]);
      ActiveOrTerminal(run[j - 1].reg.disk[id].status);
    }
  }

  /** A job whose cancellation is accepted at some step is not `Completed` at any later time. */
  lemma AcceptedCancelNeverCompletes(env: Env, run: seq<System>, steps: seq<Step>, i: nat, j: nat, id: JobId)
    requires IsRun(env, run, steps) && i < j < |run|
    requires steps[i] == Cancel(id) && CancelEffect(env.norm, run[i].reg, id).1.Done?
    ensures id in run[j].reg.disk && run[j].reg.disk[id].status != Completed
  {
    hide CancelEffect, UpdateEffect, Inv;
    assert run[i + 1] == Perform(env, run[i], steps[i]);
    assert id in run[i + 1].cancelled;
    hide Perform, Enabled;
    CancelledGrows(env, run, steps, i + 1, j);
    CancelledIsNotCompleted(env, run, steps, j, id);
  }

  lemma CancelledIsNotCompleted(env: Env, run: seq<System>, steps: seq<Step>, j: nat, id: JobId)
    requires IsRun(env, run, steps) && j < |run| && id in run[j].cancelled
    ensures id in run[j].reg.disk && run[j].reg.disk[id].status != Completed
  {
    hide Perform, Enabled;
    RunKeeps(env, run, steps, j);
  }

  lemma {:induction false} CancelledGrows(env: Env, run: seq<System>, steps: seq<Step>, i: nat, j: nat)
    requires IsRun(env, run, steps) && i <= j < |run|
    ensures run[i].cancelled <= run[j].cancelled
    decreases j
  {
    hide Perform, Enabled, Inv, Init, StatusesMove;
    if i < j {
      CancelledGrows(env, run, steps, i, j - 1);
      RunKeeps(env, run, steps, j - 1);
      StepKeeps(env, run[j - 1], steps[j - 1]);
    }
  }

  // ---------- Locks left behind ----------

  predicate Settled(pc: Pc) { pc in {Checked, Refused, Finished, Aborted} }

  /** The lock on `t` belongs to a launch that raised behind it. */
  predicate LeftBehind(s: System, t: string) {
    t in s.reg.locks && At(s, s.reg.locks[t], Aborted)
  }

  /** A launch that raises behind its lock leaves it. */
  lemma RaisingLeavesLock(env: Env, s: System, id: JobId)
    requires Inv(env, s) && At(s, id, Locked) && Raises(env, s.launches[id])
    ensures LeftBehind(Perform(env, s, Register(id)), env.norm(s.launches[id].target))
  {
    assert LaunchOk(env, s.reg, id, s.launches[id]);
  }

  /** Other jobs keep their records and their locks, and get no new ones. */
  ghost predicate KeepsOthers(r: RegistryState, q: RegistryState, id: JobId) {
    && (forall t <- r.locks :: r.locks[t] != id ==> t in q.locks && q.locks[t] == r.locks[t])
    && (forall t <- q.locks :: q.locks[t] != id ==> t in r.locks && r.locks[t] == q.locks[t])
    && (forall x :: x != id ==> (x in r.jobs <==> x in q.jobs))
    && (forall x <- r.jobs :: x != id ==> q.jobs[x] == r.jobs[x])
  }

  /** And so do other launches. */
  ghost predicate LeavesOthers(s: System, q: System, id: JobId) {
    && KeepsOthers(s.reg, q.reg, id)
    && (forall x :: x != id ==> (x in s.launches <==> x in q.launches))
    && (forall x <- s.launches :: x != id ==> q.launches[x] == s.launches[x])
  }

  lemma TouchedKeepsOthers(r: RegistryState, q: RegistryState, id: JobId)
    requires OnlyTouches(r, q, id)
    ensures KeepsOthers(r, q, id)
  {}

  lemma UpdateKeepsOthers(env: Env, r: RegistryState, id: JobId, c: Change)
    ensures KeepsOthers(r, UpdateEffect(env.norm, r, id, c).0, id)
  {
    hide UpdateEffect, OnlyTouches, KeepsOthers;
    UpdateTouches(env, r, id, c);
    TouchedKeepsOthers(r, UpdateEffect(env.norm, r, id, c).0, id);
  }

  lemma KeepsOthersTwice(r: RegistryState, m: RegistryState, q: RegistryState, id: JobId)
    requires KeepsOthers(r, m, id) && KeepsOthers(m, q, id)
    ensures KeepsOthers(r, q, id)
  {}

  lemma MoveLeavesOthers(s: System, id: JobId, pc: Pc, reg: RegistryState)
    requires id in s.launches && KeepsOthers(s.reg, reg, id)
    ensures LeavesOthers(s, Move(s, id, pc, reg), id)
  {
    hide KeepsOthers;
  }

  /** A cancellation request takes no lock from a job that is terminal or not recorded. */
  lemma CancelKeepsLock(env: Env, r: RegistryState, id: JobId, t: string)
    requires t in r.locks
    requires if r.locks[t] in r.jobs then Terminal(r.jobs[r.locks[t]].status) else r.locks[t] !in r.disk
    ensures var q := CancelEffect(env.norm, r, id).0; t in q.locks && q.locks[t] == r.locks[t]
  {
    if r.locks[t] != id {
      hide CancelEffect;
      CancelTouches(env, r, id);
    }
  }

  /** In particular not from a launch that was aborted. */
  lemma CancelKeepsLeftBehind(env: Env, s: System, id: JobId, t: string)
    requires Inv(env, s) && LeftBehind(s, t)
    ensures LeftBehind(Perform(env, s, Cancel(id)), t)
  {
    var owner := s.reg.locks[t];
    assert LaunchOk(env, s.reg, owner, s.launches[owner]);
    hide Inv, CancelEffect;
    CancelKeepsLock(env, s.reg, id, t);
  }

  lemma FailLeavesOthers(env: Env, s: System, id: JobId, reg: RegistryState)
    requires id in s.launches && KeepsOthers(s.reg, reg, id)
    ensures LeavesOthers(s, Fail(env, s, id, reg), id)
  {
    hide UpdateEffect, KeepsOthers, LeavesOthers;
    var q := Fail(env, s, id, reg).reg;
    UpdateKeepsOthers(env, reg, id, NO_CHANGE.(status := Some(Failed), phase := Some("FAILED")));
    KeepsOthersTwice(s.reg, reg, q, id);
    MoveLeavesOthers(s, id, Finishing, q);
  }

  /** The steps that write no job record, or a new one. */
  lemma LocalLeavesOthers(env: Env, s: System, step: Step)
    requires Inv(env, s) && Enabled(env, s, step)
    requires step.CheckFingerprint? || step.Acquire? || step.Register? || step.Submit? || step.Release?
    ensures LeavesOthers(s, Perform(env, s, step), step.id) && !At(s, step.id, Aborted)
  {
    hide Inv, OwnerOk;
    if step.Acquire? { AcquireLocks(env, s, step.id); }
    if step.Release? { ReleaseLocks(env, s, step.id); }
  }

  lemma CancelLeavesOthers(env: Env, s: System, id: JobId)
    ensures LeavesOthers(s, Perform(env, s, Cancel(id)), id)
  {
    hide CancelEffect, OnlyTouches, KeepsOthers;
    CancelTouches(env, s.reg, id);
    TouchedKeepsOthers(s.reg, CancelEffect(env.norm, s.reg, id).0, id);
  }

  /** The launch a step moves: not one that was aborted, and no other. */
  lemma StepLeavesOthers(env: Env, s: System, step: Step)
    requires Inv(env, s) && Enabled(env, s, step) && !step.Restart?
    ensures LeavesOthers(s, Perform(env, s, step), step.id)
    ensures !step.Cancel? ==> !At(s, step.id, Aborted)
  {
    hide UpdateEffect, Inv, Fail, OwnerOk, LeavesOthers, KeepsOthers;
    match step {
      case Cancel(id) => CancelLeavesOthers(env, s, id);
      case MarkQueued(id) =>
        var c := NO_CHANGE.(status := Some(Queued), phase := Some("QUEUED"));
        UpdateKeepsOthers(env, s.reg, id, c);
        MoveLeavesOthers(s, id, Perform(env, s, step).launches[id].pc, UpdateEffect(env.norm, s.reg, id, c).0);
      case WorkerUpdate(id, c, _) =>
        UpdateKeepsOthers(env, s.reg, id, c);
        MoveLeavesOthers(s, id, Working, UpdateEffect(env.norm, s.reg, id, c).0);
        FailLeavesOthers(env, s, id, UpdateEffect(env.norm, s.reg, id, c).0);
      case WorkerReturn(id, c) =>
        UpdateKeepsOthers(env, s.reg, id, c);
        MoveLeavesOthers(s, id, Finishing, UpdateEffect(env.norm, s.reg, id, c).0);
      case WorkerFails(id) =>
        NothingTouched(s.reg, id);
        FailLeavesOthers(env, s, id, s.reg);
      case _ => LocalLeavesOthers(env, s, step);
    }
  }

  lemma NothingTouched(r: RegistryState, id: JobId)
    ensures KeepsOthers(r, r, id)
  {}

  lemma StepKeepsLeftBehind(env: Env, s: System, step: Step, t: string)
    requires Inv(env, s) && Enabled(env, s, step) && LeftBehind(s, t) && !step.Restart?
    ensures LeftBehind(Perform(env, s, step), t)
  {
    hide Inv, Perform, Enabled;
    if step.Cancel? {
      CancelKeepsLeftBehind(env, s, step.id, t);
    } else {
      StepLeavesOthers(env, s, step);
    }
  }

  lemma {:induction false} LeftBehindUntilRestart(env: Env, run: seq<System>, steps: seq<Step>, i: nat, j: nat,
                                                  t: string)
    requires IsRun(env, run, steps) && i <= j < |run| && LeftBehind(run[i], t)
    requires forall k :: i <= k < j ==> !steps[k].Restart?
    ensures LeftBehind(run[j], t)
    decreases j
  {
    hide LeftBehind, Perform, Enabled;
    if i < j {
      LeftBehindUntilRestart(env, run, steps, i, j - 1, t);
      RunKeeps(env, run, steps, j - 1);
      StepKeepsLeftBehind(env, run[j - 1], steps[j - 1], t);
    }
  }

  /** A lock left behind stays until the process restarts: every later launch on that target is refused. */
  lemma LeftBehindRefuses(env: Env, run: seq<System>, steps: seq<Step>, i: nat, j: nat, t: string)
    requires IsRun(env, run, steps) && i <= j < |steps| && LeftBehind(run[i], t)
    requires forall k :: i <= k < j ==> !steps[k].Restart?
    requires steps[j].Acquire? && env.norm(run[j].launches[steps[j].id].target) == t
    ensures At(run[j + 1], steps[j].id, Refused)
  {
    LeftBehindUntilRestart(env, run, steps, i, j, t);
    RunKeeps(env, run, steps, j);
    var owner := run[j].reg.locks[t];
    assert LaunchOk(env, run[j].reg, owner, run[j].launches[owner]);
  }

  // ---------- Which launches leave their lock ----------

  /** A scan that raises behind its lock never reaches the code that frees it, and cancelling frees no lock of a job
      without a target. */
  predicate Leaves(env: Env, l: Launch) { Raises(env, l) || l.target == "" }

  /** What a launch that raised or whose job was cancelled before it was submitted still holds. */
  ghost predicate LockKept(env: Env, r: RegistryState, id: JobId, l: Launch) {
    && (l.pc == Aborted ==> (HoldsLock(env, r, id, l.target) <==> Leaves(env, l)))
    && (l.pc == Registered ==> !Raises(env, l))
    && (l.pc == Registered && id in r.jobs && r.jobs[id].status == Cancelled ==>
          (HoldsLock(env, r, id, l.target) <==> l.target == ""))
  }

  ghost predicate LocksKept(env: Env, s: System) {
    forall id <- s.launches :: LockKept(env, s.reg, id, s.launches[id])
  }

  lemma OthersLockKept(env: Env, s: System, q: System, id: JobId, x: JobId)
    requires LeavesOthers(s, q, id) && LocksKept(env, s) && x in q.launches && x != id
    ensures LockKept(env, q.reg, x, q.launches[x])
  {
    assert LockKept(env, s.reg, x, s.launches[x]);
  }

  lemma RegisterKept(env: Env, s: System, id: JobId)
    requires Inv(env, s) && Enabled(env, s, Register(id))
    ensures var q := Perform(env, s, Register(id)); LockKept(env, q.reg, id, q.launches[id])
  {
    assert LaunchOk(env, s.reg, id, s.launches[id]);
  }

  /** Marking fails on a cancelled job only, and leaves its lock as it is. */
  lemma MarkQueuedKept(env: Env, s: System, id: JobId)
    requires Inv(env, s) && LocksKept(env, s) && Enabled(env, s, MarkQueued(id))
    ensures var q := Perform(env, s, MarkQueued(id)); LockKept(env, q.reg, id, q.launches[id])
  {
    assert LaunchOk(env, s.reg, id, s.launches[id]) && LockKept(env, s.reg, id, s.launches[id]);
    RecordFacts(env, s, id);
    UpdateMoves(env, s.reg, id, NO_CHANGE.(status := Some(Queued), phase := Some("QUEUED")));
    hide Inv, UpdateEffect, LocksKept, HoldsLock, RegistryInv;
  }

  /** Cancelling a queued job frees its lock unless it has no target; cancelling it again changes no lock. */
  lemma CancelFrees(env: Env, r: RegistryState, id: JobId)
    requires id in r.jobs && id in r.disk && r.jobs[id].status in {Queued, Cancelled}
    requires r.jobs[id].status == Queued ==> HoldsLock(env, r, id, r.jobs[id].target)
    ensures var q := CancelEffect(env.norm, r, id).0;
      && id in q.jobs && q.jobs[id].status == Cancelled
      && if r.jobs[id].status == Cancelled then q.locks == r.locks
         else HoldsLock(env, q, id, r.jobs[id].target) <==> r.jobs[id].target == ""
  {}

  lemma CancelKept(env: Env, s: System, id: JobId)
    requires Inv(env, s) && LocksKept(env, s) && id in s.launches
    ensures var q := Perform(env, s, Cancel(id)); LockKept(env, q.reg, id, q.launches[id])
  {
    var l := s.launches[id];
    assert LaunchOk(env, s.reg, id, l) && LockKept(env, s.reg, id, l);
    if l.pc == Aborted {
      AbortedCancelKept(env, s, id);
    } else if l.pc == Registered {
      RecordFacts(env, s, id);
      if s.reg.jobs[id].status == Queued { ActiveHolds(env, s, id); }
      hide Inv, CancelEffect;
      CancelFrees(env, s.reg, id);
    }
  }

  lemma ActiveHolds(env: Env, s: System, id: JobId)
    requires Inv(env, s) && id in s.reg.jobs && s.reg.jobs[id].status == Queued
    ensures HoldsLock(env, s.reg, id, s.reg.jobs[id].target)
  {}

  lemma AbortedCancelKept(env: Env, s: System, id: JobId)
    requires Inv(env, s) && At(s, id, Aborted)
    ensures CancelEffect(env.norm, s.reg, id).0.locks == s.reg.locks
  {
    assert LaunchOk(env, s.reg, id, s.launches[id]);
  }

  lemma OwnLockKept(env: Env, s: System, step: Step)
    requires Inv(env, s) && LocksKept(env, s) && Enabled(env, s, step) && !step.Restart?
    ensures var q := Perform(env, s, step);
      step.id in q.launches ==> LockKept(env, q.reg, step.id, q.launches[step.id])
  {
    hide Inv, LocksKept, UpdateEffect, CancelEffect, HoldsLock;
    match step {
      case Register(id) => RegisterKept(env, s, id);
      case MarkQueued(id) => MarkQueuedKept(env, s, id);
      case Cancel(id) => if id in s.launches { CancelKept(env, s, id); }
      case _ =>
    }
  }

  lemma StepKeepsLocks(env: Env, s: System, step: Step)
    requires Inv(env, s) && LocksKept(env, s) && Enabled(env, s, step)
    ensures LocksKept(env, Perform(env, s, step))
  {
    var q := Perform(env, s, step);
    if !step.Restart? {
      hide Inv, Perform, Enabled, LockKept, LeavesOthers;
      StepLeavesOthers(env, s, step);
      forall x <- q.launches ensures LockKept(env, q.reg, x, q.launches[x]) {
        if x == step.id {
          OwnLockKept(env, s, step);
        } else {
          OthersLockKept(env, s, q, step.id, x);
        }
      }
    }
  }

  lemma {:induction false} RunKeepsLocks(env: Env, run: seq<System>, steps: seq<Step>, i: nat)
    requires IsRun(env, run, steps) && i < |run|
    ensures LocksKept(env, run[i])
  {
    hide Perform, Enabled, LockKept;
    if i > 0 {
      RunKeepsLocks(env, run, steps, i - 1);
      RunKeeps(env, run, steps, i - 1);
      StepKeepsLocks(env, run[i - 1], steps[i - 1]);
    }
  }

  /** In every reachable state an aborted launch holds its lock if and only if it is a scan whose engine is no
      number, or has no target. */
  lemma AbortedHoldsLockIff(env: Env, run: seq<System>, steps: seq<Step>, i: nat, id: JobId)
    requires IsRun(env, run, steps) && i < |run| && At(run[i], id, Aborted)
    ensures HoldsLock(env, run[i].reg, id, run[i].launches[id].target) <==> Leaves(env, run[i].launches[id])
  {
    RunKeepsLocks(env, run, steps, i);
    assert LockKept(env, run[i].reg, id, run[i].launches[id]);
  }

  /** An aborted launch on `t` of one of the two kinds that leave their lock. */
  predicate LeftOn(env: Env, s: System, t: string, id: JobId) {
    At(s, id, Aborted) && Leaves(env, s.launches[id]) && env.norm(s.launches[id].target) == t
  }

  /** Once every launch is settled, the locks held are exactly those that such launches left. */
  lemma SettledLocksIff(env: Env, run: seq<System>, steps: seq<Step>, i: nat, t: string)
    requires IsRun(env, run, steps) && i < |run|
    requires forall id <- run[i].launches :: Settled(run[i].launches[id].pc)
    ensures t in run[i].reg.locks <==> exists id :: LeftOn(env, run[i], t, id)
    ensures t in run[i].reg.locks ==> LeftBehind(run[i], t) && LeftOn(env, run[i], t, run[i].reg.locks[t])
  {
    var s := run[i];
    RunKeeps(env, run, steps, i);
    if t in s.reg.locks {
      var owner := s.reg.locks[t];
      assert OwnerOk(env, s.launches, t, owner);
      AbortedHoldsLockIff(env, run, steps, i, owner);
      assert LeftOn(env, s, t, owner);
    }
    if id :| LeftOn(env, s, t, id) {
      AbortedHoldsLockIff(env, run, steps, i, id);
    }
  }

  /** Marking a cancelled job `Queued` fails and changes no lock. */
  lemma RequeueingFails(env: Env, r: RegistryState, id: JobId)
    requires id in r.jobs && r.jobs[id].status == Cancelled
    ensures var (q, outcome) :=
        UpdateEffect(env.norm, r, id, NO_CHANGE.(status := Some(Queued), phase := Some("QUEUED")));
      outcome.Illegal? && q.locks == r.locks
  {}

  /** A sanitization without a target, cancelled between its registration and the update that marks it queued: the
      update raises and the lock stays. */
  lemma EmptyTargetLeavesLock(env: Env, s: System, id: JobId)
    requires Inv(env, s) && At(s, id, Registered) && s.launches[id].sanitization && s.launches[id].target == ""
    requires s.reg.jobs[id].status == Queued
    ensures var c := Perform(env, s, Cancel(id));
      Enabled(env, c, MarkQueued(id)) && LeftBehind(Perform(env, c, MarkQueued(id)), env.norm(""))
  {
    assert LaunchOk(env, s.reg, id, s.launches[id]);
    ActiveHolds(env, s, id);
    hide Inv, CancelEffect, UpdateEffect, LaunchOk;
    CancelFrees(env, s.reg, id);
    RequeueingFails(env, CancelEffect(env.norm, s.reg, id).0, id);
  }

  // ---------- An ordinary launch goes through ----------

  /** No restart, and for this launch no cancellation, no failure, and a worker that asks for `Running` on its way and
      for `Completed` at its end. */
  predicate Undisturbed(step: Step, id: JobId) {
    match step
    case Restart => false
    case Cancel(x) => x != id
    case WorkerFails(x) => x != id
    case WorkerUpdate(x, c, _) => x == id ==> c.status in {None, Some(Running)}
    case WorkerReturn(x, c) => x == id ==> c.status == Some(Completed)
    case _ => true
  }

  predicate OnTrack(env: Env, s: System, id: JobId) {
    && id in s.launches
    && match s.launches[id].pc
       case Locked => !Raises(env, s.launches[id])
       case Registered => id in s.reg.jobs && s.reg.jobs[id].status == Queued
       case Working => id in s.reg.jobs && s.reg.jobs[id].status in {Queued, Running}
       case Finishing => id in s.reg.jobs && s.reg.jobs[id].status == Completed
       case Finished => id in s.reg.jobs && s.reg.jobs[id].status == Completed
       case _ => false
  }

  /** Every update such a launch asks for is accepted. */
  lemma TrackedUpdate(env: Env, s: System, id: JobId, c: Change)
    requires Inv(env, s) && OnTrack(env, s, id) && s.launches[id].pc in {Registered, Working}
    requires c.status in {None, Some(Running)} || (c.status == Some(Queued) && s.launches[id].pc == Registered)
    ensures var (q, outcome) := UpdateEffect(env.norm, s.reg, id, c);
      && outcome.Done? && id in q.jobs
      && q.jobs[id].status == if c.status == None then s.reg.jobs[id].status else c.status.value
  {
    if c.status.Some? {
      UpdateMeans(env.norm, s.reg, id, c);
    } else {
      UpdateKeepsStatus(env, s.reg, id, c);
    }
    hide UpdateEffect, Inv;
  }

  lemma UpdateKeepsStatus(env: Env, r: RegistryState, id: JobId, c: Change)
    requires id in r.jobs && c.status == None
    ensures var (q, outcome) := UpdateEffect(env.norm, r, id, c);
      outcome.Done? && id in q.jobs && q.jobs[id].status == r.jobs[id].status
  {}

  lemma OwnStepOnTrack(env: Env, s: System, step: Step)
    requires Inv(env, s) && Enabled(env, s, step) && !step.Restart?
    requires Undisturbed(step, step.id) && OnTrack(env, s, step.id)
    ensures OnTrack(env, Perform(env, s, step), step.id)
  {
    hide Inv, UpdateEffect;
    match step {
      case MarkQueued(id) => TrackedUpdate(env, s, id, NO_CHANGE.(status := Some(Queued), phase := Some("QUEUED")));
      case WorkerUpdate(id, c, _) => TrackedUpdate(env, s, id, c);
      case WorkerReturn(id, c) => UpdateMeans(env.norm, s.reg, id, c);
      case _ =>
    }
  }

  lemma StepOnTrack(env: Env, s: System, step: Step, id: JobId)
    requires Inv(env, s) && Enabled(env, s, step) && Undisturbed(step, id) && OnTrack(env, s, id)
    ensures OnTrack(env, Perform(env, s, step), id)
  {
    hide Inv, Perform, Enabled;
    if step.id == id {
      OwnStepOnTrack(env, s, step);
    } else {
      StepLeavesOthers(env, s, step);
    }
  }

  lemma {:induction false} StaysOnTrack(env: Env, run: seq<System>, steps: seq<Step>, i: nat, j: nat, id: JobId)
    requires IsRun(env, run, steps) && i <= j < |run| && OnTrack(env, run[i], id)
    requires forall k :: i <= k < j ==> Undisturbed(steps[k], id)
    ensures OnTrack(env, run[j], id)
    decreases j
  {
    hide OnTrack, Perform, Enabled, Undisturbed;
    if i < j {
      StaysOnTrack(env, run, steps, i, j - 1, id);
      RunKeeps(env, run, steps, j - 1);
      StepOnTrack(env, run[j - 1], steps[j - 1], id);
    }
  }

  /** However its steps are interleaved with those of others: a launch that has its lock, is not disturbed and
      finishes is recorded as completed, in memory and on disk, and holds no lock any more. */
  lemma UndisturbedCompletes(env: Env, run: seq<System>, steps: seq<Step>, i: nat, j: nat, id: JobId)
    requires IsRun(env, run, steps) && i <= j < |run| && At(run[i], id, Locked) && !Raises(env, run[i].launches[id])
    requires (forall k :: i <= k < j ==> Undisturbed(steps[k], id)) && At(run[j], id, Finished)
    ensures id in run[j].reg.jobs && run[j].reg.jobs[id].status == Completed
    ensures id in run[j].reg.disk && run[j].reg.disk[id].status == Completed
    ensures forall t <- run[j].reg.locks :: run[j].reg.locks[t] != id
  {
    StaysOnTrack(env, run, steps, i, j, id);
    RunKeeps(env, run, steps, j);
    RecordFacts(env, run[j], id);
    forall t <- run[j].reg.locks ensures run[j].reg.locks[t] != id {
      FinishedHoldsNothing(env, run[j], id, t);
    }
    hide Inv;
  }

  function Asking(status: Status): Change { NO_CHANGE.(status := Some(status)) }

  /** The states behind the steps of a launch that has its lock. */
  function AfterSubmit(env: Env, s: System, id: JobId): System
    requires At(s, id, Locked) && !Raises(env, s.launches[id])
  {
    Perform(env, Perform(env, s, Register(id)), Submit(id))
  }

  /** And it can finish: registering, submitting, asking for `Running`, returning with `Completed` and releasing are
      possible one after the other, and then the target is free. */
  lemma LaunchCanFinish(env: Env, s: System, id: JobId)
    requires Inv(env, s) && At(s, id, Locked) && !Raises(env, s.launches[id])
    ensures var s2 := AfterSubmit(env, s, id);
      && Enabled(env, s2, WorkerUpdate(id, Asking(Running), false))
      && var s3 := Perform(env, s2, WorkerUpdate(id, Asking(Running), false));
      && Enabled(env, s3, WorkerReturn(id, Asking(Completed)))
      && var s4 := Perform(env, s3, WorkerReturn(id, Asking(Completed)));
      && Enabled(env, s4, Release(id))
      && var s5 := Perform(env, s4, Release(id));
      && id in s5.reg.jobs && s5.reg.jobs[id].status == Completed
      && env.norm(s.launches[id].target) !in s5.reg.locks
  {
    hide Inv, UpdateEffect, OnTrack;
    var s1 := Perform(env, s, Register(id));
    OnTrackAt(env, s, id);
    StepKeeps(env, s, Register(id));
    OwnStepOnTrack(env, s, Register(id));
    var s2 := AfterSubmit(env, s, id);
    StepKeeps(env, s1, Submit(id));
    OwnStepOnTrack(env, s1, Submit(id));
    WorkerCanFinish(env, s2, id);
  }

  lemma OnTrackAt(env: Env, s: System, id: JobId)
    requires At(s, id, Locked) && !Raises(env, s.launches[id])
    ensures OnTrack(env, s, id)
  {}

  lemma WorkerCanFinish(env: Env, s: System, id: JobId)
    requires Inv(env, s) && OnTrack(env, s, id) && At(s, id, Working)
    ensures var s3 := Perform(env, s, WorkerUpdate(id, Asking(Running), false));
      && Enabled(env, s3, WorkerReturn(id, Asking(Completed)))
      && var s4 := Perform(env, s3, WorkerReturn(id, Asking(Completed)));
      && Enabled(env, s4, Release(id))
      && var s5 := Perform(env, s4, Release(id));
      && id in s5.reg.jobs && s5.reg.jobs[id].status == Completed
      && env.norm(s.launches[id].target) !in s5.reg.locks
  {
    hide Inv, UpdateEffect, OnTrack, LaunchOk;
    var update := WorkerUpdate(id, Asking(Running), false);
    var s3 := Perform(env, s, update);
    TrackedUpdate(env, s, id, Asking(Running));
    StepKeeps(env, s, update);
    UpdateMeans(env.norm, s3.reg, id, Asking(Completed));
    ReturnFreesLock(env, s3, id);
  }

  /** A running job holds its lock; completing it and releasing its target leave the target free. */
  lemma ReturnFreesLock(env: Env, s: System, id: JobId)
    requires Inv(env, s) && At(s, id, Working) && id in s.reg.jobs && s.reg.jobs[id].status == Running
    ensures UpdateEffect(env.norm, s.reg, id, Asking(Completed)).1.Done?
    ensures var completed := UpdateEffect(env.norm, s.reg, id, Asking(Completed)).0;
      var q := ReleaseEffect(completed, env.norm(s.launches[id].target), id);
      id in q.jobs && q.jobs[id].status == Completed && env.norm(s.launches[id].target) !in q.locks
  {
    assert LaunchOk(env, s.reg, id, s.launches[id]);
    assert HoldsLock(env, s.reg, id, s.reg.jobs[id].target);
    hide Inv, UpdateEffect;
    UpdateMeans(env.norm, s.reg, id, Asking(Completed));
    UpdateWrites(env.norm, s.reg, id, Asking(Completed));
  }
}

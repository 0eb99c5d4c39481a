/** The durable job registry of `drex_server.py`: job records in memory and on disk, target locks and
    cancellation tokens.  Every public method runs under one re-entrant lock, so it is one atomic step;
    its effect is a function of the registry's state, and the class below computes that function. */
module Jobs {
  import opened Basics

  type JobId = string

  datatype Status =
    | Queued | Running | Cancelling
    | Completed | Failed | Cancelled | Interrupted | DeviceDisconnected | VerificationFailed

  predicate Active(s: Status) { s in {Queued, Running, Cancelling} }

  predicate Terminal(s: Status) {
    s in {Completed, Failed, Cancelled, Interrupted, DeviceDisconnected, VerificationFailed}
  }

  function Allowed(from: Status): set<Status> {
    match from
    case Queued => {Running, Cancelled, Interrupted, Failed}
    case Running => {Completed, Failed, Cancelling, Cancelled, DeviceDisconnected, VerificationFailed, Interrupted}
    case Cancelling => {Cancelled, Failed, DeviceDisconnected}
    case _ => {}
  }

  datatype Job = Job(caseId: string, target: string, fingerprint: Option<string>, status: Status, phase: string,
                     processedBytes: int, totalBytes: int, cancellationRequested: bool)

  /** The arguments of one `update_job` call; `None` leaves a field alone. */
  datatype Change = Change(status: Option<Status>, phase: Option<string>, processedBytes: Option<int>,
                           totalBytes: Option<int>, cancellationRequested: Option<bool>)

  datatype Outcome = Done(job: Job) | NotFound | Illegal

  /** `tokens` holds the ids whose cancellation event is set. */
  datatype RegistryState = RegistryState(jobs: map<JobId, Job>, disk: map<JobId, Job>, locks: map<string, JobId>,
                                         tokens: set<JobId>)

  // ---------- The effect of each operation ----------

  function NonNegative(x: int): int { if x < 0 then 0 else x }

  function Get<T>(o: Option<T>, default: T): T { match o case Some(v) => v case None => default }

  /** The fields that are written before the requested transition is checked. */
  function WithProgress(j: Job, c: Change): Job {
    j.(phase := Get(c.phase, j.phase),
       processedBytes := if c.processedBytes.Some? then NonNegative(c.processedBytes.value) else j.processedBytes,
       totalBytes := if c.totalBytes.Some? then NonNegative(c.totalBytes.value) else j.totalBytes,
       cancellationRequested := Get(c.cancellationRequested, j.cancellationRequested))
  }

  /** Completing a job that is being cancelled cancels it. */
  function Effective(current: Status, requested: Status): Status {
    if current == Cancelling && requested == Completed then Cancelled else requested
  }

  predicate Refuses(current: Status, requested: Status) {
    requested != current
    && (Terminal(current)
        || (Effective(current, requested) != current && Effective(current, requested) !in Allowed(current)))
  }

  function Unlocked(locks: map<string, JobId>, target: string, id: JobId): map<string, JobId> {
    if target in locks && locks[target] == id then locks - {target} else locks
  }

  function AcquireEffect(r: RegistryState, target: string, id: JobId): (RegistryState, bool) {
    if target in r.locks && r.locks[target] != "" && r.locks[target] != id then (r, false)
    else (r.(locks := r.locks[target := id]), true)
  }

  function ReleaseEffect(r: RegistryState, target: string, id: JobId): RegistryState {
    r.(locks := Unlocked(r.locks, target, id))
  }

  function NewJob(caseId: string, target: string, fingerprint: Option<string>, sanitization: bool): Job {
    Job(caseId, target, fingerprint, Queued, if sanitization then "PRECHECK" else "QUEUED", 0, 0, false)
  }

  function CreateEffect(r: RegistryState, id: JobId, job: Job): RegistryState {
    r.(jobs := r.jobs[id := job], disk := r.disk[id := job], tokens := r.tokens - {id})
  }

  /** Brings a job that is only on disk back into memory. */
  function Loaded(r: RegistryState, id: JobId): RegistryState {
    if id !in r.jobs && id in r.disk then r.(jobs := r.jobs[id := r.disk[id]]) else r
  }

  function UpdateEffect(norm: string -> string, r: RegistryState, id: JobId, c: Change): (RegistryState, Outcome) {
    var l := Loaded(r, id);
    if id !in l.jobs then (r, NotFound) else
      var job := WithProgress(l.jobs[id], c);
      if c.status.Some? && Refuses(job.status, c.status.value) then (l.(jobs := l.jobs[id := job]), Illegal) else
        var next := if c.status.Some? then job.(status := Effective(job.status, c.status.value)) else job;
        var locks := if c.status.Some? && Terminal(next.status) && job.target != ""
                     then Unlocked(l.locks, norm(job.target), id) else l.locks;
        (RegistryState(l.jobs[id := next], l.disk[id := next], locks, l.tokens), Done(next))
  }

  function StatusChange(s: Status, phase: string): Change {
    Change(Some(s), Some(phase), None, None, Some(true))
  }

  function CancelEffect(norm: string -> string, r: RegistryState, id: JobId): (RegistryState, Outcome) {
    var l := Loaded(r, id);
    if id !in l.jobs then (r, NotFound) else
      var job, signalled := l.jobs[id], l.(tokens := l.tokens + {id});
      match job.status
      case Queued =>
        var freed := if job.target != "" then ReleaseEffect(signalled, norm(job.target), id) else signalled;
        UpdateEffect(norm, freed, id, StatusChange(Cancelled, "CANCELLED"))
      case Running => UpdateEffect(norm, signalled, id, StatusChange(Cancelling, "CANCELLING"))
      case Cancelling => (signalled, Done(job))
      case Cancelled => (signalled, Done(job))
      case _ => (signalled, Illegal)
  }

  function Reconciled(job: Job): Job {
    if Active(job.status) then job.(status := Interrupted) else job
  }

  function ReconcileEffect(disk: map<JobId, Job>): map<JobId, Job> {
    map id | id in disk :: Reconciled(disk[id])
  }

  /** A new process starts with the disk records only, and reconciles them. */
  function RestartEffect(r: RegistryState): RegistryState {
    RegistryState(map[], ReconcileEffect(r.disk), map[], {})
  }

  predicate ActiveWithFingerprint(jobs: map<JobId, Job>, fingerprint: string) {
    exists id <- jobs :: jobs[id].fingerprint == Some(fingerprint) && Active(jobs[id].status)
  }

  // ---------- What the operations do, status by status ----------

  /** The record of a job, wherever it is. */
  function RecordOf(r: RegistryState, id: JobId): Job
    requires id in r.jobs || id in r.disk
  {
    if id in r.jobs then r.jobs[id] else r.disk[id]
  }

  /** Which requested status is accepted from which current one, and what is recorded then. */
  lemma UpdateMeans(norm: string -> string, r: RegistryState, id: JobId, c: Change)
    requires (id in r.jobs || id in r.disk) && c.status.Some?
    ensures var (q, outcome) := UpdateEffect(norm, r, id, c);
      var current, requested := RecordOf(r, id).status, c.status.value;
      && (current == Queued ==>
            (outcome.Done? <==> requested in {Queued, Running, Cancelled, Interrupted, Failed}))
      && (current == Running ==>
            (outcome.Done? <==> requested in {Running, Completed, Failed, Cancelling, Cancelled, DeviceDisconnected,
                                              VerificationFailed, Interrupted}))
      && (current == Cancelling ==>
            (outcome.Done? <==> requested in {Cancelling, Completed, Cancelled, Failed, DeviceDisconnected}))
      && (current in {Completed, Failed, Cancelled, Interrupted, DeviceDisconnected, VerificationFailed} ==>
            (outcome.Done? <==> requested == current))
      && (!outcome.Done? ==> outcome.Illegal? && q.disk == r.disk && q.locks == r.locks && id in q.jobs
                             && q.jobs[id].status == current)
      && (outcome.Done? ==>
            && id in q.jobs && id in q.disk && q.jobs[id] == q.disk[id] == outcome.job
            && q.jobs[id].status == if current == Cancelling && requested == Completed then Cancelled else requested)
  {}

  /** What else an accepted update does: it overwrites the fields it is given, negative counts as 0, keeps the others,
      and on a final status frees the lock the job holds on its target. */
  lemma UpdateWrites(norm: string -> string, r: RegistryState, id: JobId, c: Change)
    requires (id in r.jobs || id in r.disk) && UpdateEffect(norm, r, id, c).1.Done?
    ensures var q := UpdateEffect(norm, r, id, c).0;
      var before, after := RecordOf(r, id), RecordOf(q, id);
      && after.caseId == before.caseId && after.target == before.target && after.fingerprint == before.fingerprint
      && after.phase == (match c.phase case Some(p) => p case None => before.phase)
      && after.processedBytes == (match c.processedBytes case Some(n) => (if n > 0 then n else 0)
                                  case None => before.processedBytes)
      && after.totalBytes == (match c.totalBytes case Some(n) => (if n > 0 then n else 0)
                              case None => before.totalBytes)
      && after.cancellationRequested ==
           (match c.cancellationRequested case Some(b) => b case None => before.cancellationRequested)
      && (c.status.None? ==> after.status == before.status && q.locks == r.locks)
      && (c.status.Some? ==>
            q.locks == if after.status !in {Queued, Running, Cancelling} && before.target != ""
                          && norm(before.target) in r.locks && r.locks[norm(before.target)] == id
                       then r.locks - {norm(before.target)} else r.locks)
  {}

  /** A cancellation request: refused for unknown jobs and for those that ended otherwise, and in all other cases the
      job's cancellation event is set. */
  lemma CancelMeans(norm: string -> string, r: RegistryState, id: JobId)
    ensures var (q, outcome) := CancelEffect(norm, r, id);
      if id !in r.jobs && id !in r.disk then outcome.NotFound? && q == r
      else
        var before, after := RecordOf(r, id), RecordOf(q, id);
        && q.tokens == r.tokens + {id}
        && (outcome.Done? <==> before.status in {Queued, Running, Cancelling, Cancelled})
        && after.status == (if before.status == Queued then Cancelled
                            else if before.status == Running then Cancelling else before.status)
        && (before.status in {Queued, Running} ==> after.cancellationRequested && after == q.disk[id])
        && (before.status !in {Queued, Running} ==> after == before && q.disk == r.disk)
        && q.locks == if before.status == Queued && before.target != "" && norm(before.target) in r.locks
                         && r.locks[norm(before.target)] == id
                      then r.locks - {norm(before.target)} else r.locks
  {}

  /** The lock on a target is given to whoever asks while no other job holds it, and taken back from its holder only. */
  lemma LocksMean(r: RegistryState, target: string, id: JobId)
    ensures var (q, acquired) := AcquireEffect(r, target, id);
      && (acquired <==> !(target in r.locks && r.locks[target] != "" && r.locks[target] != id))
      && q == (if acquired then r.(locks := r.locks[target := id]) else r)
    ensures ReleaseEffect(r, target, id) ==
      if target in r.locks && r.locks[target] == id then r.(locks := r.locks - {target}) else r
  {}

  /** A new record, what creating it writes, and what a restart makes of the records on disk. */
  lemma RecordsMean(r: RegistryState, id: JobId, caseId: string, target: string, fingerprint: Option<string>,
                    sanitization: bool, job: Job)
    ensures var created := NewJob(caseId, target, fingerprint, sanitization);
      && created.status == Queued && created.phase == (if sanitization then "PRECHECK" else "QUEUED")
      && created.caseId == caseId && created.target == target && created.fingerprint == fingerprint
      && created.processedBytes == created.totalBytes == 0 && !created.cancellationRequested
    ensures var q := CreateEffect(r, id, job);
      && q.jobs == r.jobs[id := job] && q.disk == r.disk[id := job] && q.locks == r.locks
      && q.tokens == r.tokens - {id}
    ensures Reconciled(job) == if job.status in {Queued, Running, Cancelling} then job.(status := Interrupted) else job
  {}

  // ---------- The class ----------

  class JobRegistry {
    const norm: string -> string
    var jobs: map<JobId, Job>
    var disk: map<JobId, Job>
    var targetLocks: map<string, JobId>
    var cancelTokens: set<JobId>

    function View(): RegistryState
      reads this
    {
      RegistryState(jobs, disk, targetLocks, cancelTokens)
    }

    /** A process starts on whatever records an earlier one left. */
    constructor (norm: string -> string, records: map<JobId, Job>)
      ensures this.norm == norm && View() == RegistryState(map[], records, map[], {})
    {
      this.norm := norm;
      jobs, disk, targetLocks, cancelTokens := map[], records, map[], {};
    }

    method AcquireTargetLock(target: string, id: JobId) returns (acquired: bool)
      modifies this
      ensures (View(), acquired) == AcquireEffect(old(View()), norm(target), id)
    {
      var key := norm(target);
      if key in targetLocks && targetLocks[key] != "" && targetLocks[key] != id {
        return false;
      }
      targetLocks := targetLocks[key := id];
      return true;
    }

    method ReleaseTargetLock(target: string, id: JobId)
      modifies this
      ensures View() == ReleaseEffect(old(View()), norm(target), id)
    {
      var key := norm(target);
      if key in targetLocks && targetLocks[key] == id {
        targetLocks := targetLocks - {key};
      }
    }

    method FindActiveByFingerprint(fingerprint: string) returns (found: Option<JobId>)
      ensures found.None? <==> !ActiveWithFingerprint(jobs, fingerprint)
      ensures found.Some? ==> found.value in jobs
      ensures found.Some? ==> jobs[found.value].fingerprint == Some(fingerprint) && Active(jobs[found.value].status)
    {
      if id :| id in jobs && jobs[id].fingerprint == Some(fingerprint) && Active(jobs[id].status) {
        return Some(id);
      }
      return None;
    }

    method CreateJob(id: JobId, job: Job)
      modifies this
      ensures View() == CreateEffect(old(View()), id, job)
    {
      jobs := jobs[id := job];
      cancelTokens := cancelTokens - {id};
      disk := disk[id := job];
    }

    method Load(id: JobId) returns (found: bool)
      modifies this`jobs
      ensures View() == Loaded(old(View()), id) && found == (id in jobs)
    {
      if id !in jobs && id in disk {
        jobs := jobs[id := disk[id]];
      }
      found := id in jobs;
    }

    method UpdateJob(id: JobId, c: Change) returns (outcome: Outcome)
      modifies this
      ensures (View(), outcome) == UpdateEffect(norm, old(View()), id, c)
    {
      var found := Load(id);
      if !found {
        return NotFound;
      }
      var job := WithProgress(jobs[id], c);
      jobs := jobs[id := job];
      if c.status.Some? {
        var status := c.status.value;
        if Terminal(job.status) && status != job.status {
          return Illegal;
        }
        if job.status == Cancelling && status == Completed {
          status := Cancelled;
        }
        if status != job.status && status !in Allowed(job.status) {
          return Illegal;
        }
        job := job.(status := status);
        jobs := jobs[id := job];
        if Terminal(status) && job.target != "" {
          ReleaseTargetLock(job.target, id);
        }
      }
      assert jobs == Loaded(old(View()), id).jobs[id := job];
      disk := disk[id := job];
      return Done(job);
    }

    method CancelJob(id: JobId) returns (outcome: Outcome)
      modifies this
      ensures (View(), outcome) == CancelEffect(norm, old(View()), id)
    {
      var found := Load(id);
      if !found {
        return NotFound;
      }
      var job := jobs[id];
      cancelTokens := cancelTokens + {id};
      match job.status {
        case Queued =>
          if job.target != "" {
            ReleaseTargetLock(job.target, id);
          }
          outcome := UpdateJob(id, StatusChange(Cancelled, "CANCELLED"));
        case Running =>
          outcome := UpdateJob(id, StatusChange(Cancelling, "CANCELLING"));
        case Cancelling => outcome := Done(job);
        case Cancelled => outcome := Done(job);
        case _ => outcome := Illegal;
      }
    }

    /** One pass over the job files; returns how many were rewritten. */
    method ReconcileStartup() returns (count: nat)
      modifies this`disk
      ensures disk == ReconcileEffect(old(disk))
      ensures count == |set id | id in old(disk) && Active(old(disk)[id].status)|
    {
      count := 0;
      var left := disk.Keys;
      ghost var before := disk;
      ghost var rewritten: set<JobId> := {};
      while left != {}
        invariant left <= before.Keys && disk.Keys == before.Keys
        invariant rewritten == set id | id in before.Keys - left && Active(before[id].status)
        invariant count == |rewritten|
        invariant forall id <- before :: disk[id] == if id in left then before[id] else Reconciled(before[id])
      {
        var id :| id in left;
        if Active(disk[id].status) {
          disk := disk[id := disk[id].(status := Interrupted)];
          count := count + 1;
          rewritten := rewritten + {id};
        }
        left := left - {id};
      }
      assert rewritten == set id | id in before && Active(before[id].status);
      assert disk == ReconcileEffect(before);
    }
  }
}

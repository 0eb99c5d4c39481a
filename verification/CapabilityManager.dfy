/** The asynchronous capability manager of `drex_app.py`: a cache, single-flight probes per drive, and
    fan-out to every listener that subscribed while a probe was under way.

    The class has one method per critical section of the manager's lock; the step system below interleaves
    them with the submissions, probes and notifications that happen outside the lock. */
module CapabilityManager {
  import opened Basics

  type Key = string
  type Caps = map<string, string>

  /** One subscription; `key` is the drive it asks about. */
  datatype Listener = Listener(id: nat, key: Key)

  datatype Cached = Cached(time: int, caps: Caps)

  datatype Answer = FromCache(caps: Caps) | Attached | StartProbe

  datatype ManagerState = ManagerState(cache: map<Key, Cached>, pending: map<Key, seq<Listener>>)

  predicate Fresh(cache: map<Key, Cached>, key: Key, now: int, ttl: int) {
    key in cache && now - cache[key].time < ttl
  }

  function RequestEffect(m: ManagerState, l: Listener, force: bool, now: int, ttl: int): (ManagerState, Answer) {
    if !force && Fresh(m.cache, l.key, now, ttl) then (m, FromCache(m.cache[l.key].caps))
    else if l.key in m.pending then (m.(pending := m.pending[l.key := m.pending[l.key] + [l]]), Attached)
    else (m.(pending := m.pending[l.key := [l]]), StartProbe)
  }

  function CompleteEffect(m: ManagerState, key: Key, now: int, caps: Caps): (ManagerState, seq<Listener>) {
    (ManagerState(m.cache[key := Cached(now, caps)], m.pending - {key}),
     if key in m.pending then m.pending[key] else [])
  }

  /** Which cached drives an invalidation hits: all, those of one path, or one drive. */
  datatype Scope = Everything | Path(path: string) | Drive(key: Key)

  predicate Hits(scope: Scope, key: Key) {
    match scope
    case Everything => true
    case Path(path) => path + "|" <= key || key == path
    case Drive(k) => key == k
  }

  function InvalidateEffect(m: ManagerState, scope: Scope): ManagerState {
    m.(cache := map k | k in m.cache && !Hits(scope, k) :: m.cache[k])
  }

  class CapabilityManager {
    const ttl: int
    var cache: map<Key, Cached>
    var pendingListeners: map<Key, seq<Listener>>

    function View(): ManagerState
      reads this
    {
      ManagerState(cache, pendingListeners)
    }

    constructor (ttl: int)
      ensures this.ttl == ttl && View() == ManagerState(map[], map[])
    {
      this.ttl := ttl;
      cache, pendingListeners := map[], map[];
    }

    method GetCached(key: Key, now: int) returns (found: bool, caps: Caps)
      ensures found <==> Fresh(cache, key, now, ttl)
      ensures found ==> caps == cache[key].caps
    {
      found, caps := false, map[];
      if key in cache && now - cache[key].time < ttl {
        return true, cache[key].caps;
      }
    }

    /** The locked part of an asynchronous request; on `StartProbe` the caller submits a worker. */
    method Request(l: Listener, force: bool, now: int) returns (answer: Answer)
      modifies this
      ensures (View(), answer) == RequestEffect(old(View()), l, force, now, ttl)
    {
      if !force && l.key in cache {
        var entry := cache[l.key];
        if now - entry.time < ttl {
          return FromCache(entry.caps);
        }
      }
      if l.key in pendingListeners {
        pendingListeners := pendingListeners[l.key := pendingListeners[l.key] + [l]];
        return Attached;
      }
      pendingListeners := pendingListeners[l.key := [l]];
      return StartProbe;
    }

    /** The locked part of a worker: publish the result and take the listeners. */
    method Complete(key: Key, now: int, caps: Caps) returns (listeners: seq<Listener>)
      modifies this
      ensures (View(), listeners) == CompleteEffect(old(View()), key, now, caps)
    {
      cache := cache[key := Cached(now, caps)];
      listeners := if key in pendingListeners then pendingListeners[key] else [];
      pendingListeners := pendingListeners - {key};
    }

    method Invalidate(scope: Scope)
      modifies this
      ensures View() == InvalidateEffect(old(View()), scope)
    {
      match scope {
        case Everything => cache := map[];
        case Path(path) => cache := map k | k in cache && !(path + "|" <= k || k == path) :: cache[k];
        case Drive(key) => cache := cache - {key};
      }
    }
  }

  // ---------- The step system ----------

  /** `owed` are the drives whose requester has left the lock but not yet submitted the worker, `probing` those
      with a submitted worker that has not completed, `delivering` the listeners taken by completed workers. */
  datatype System = System(manager: ManagerState, owed: multiset<Key>, probing: multiset<Key>,
                           delivering: multiset<Listener>, notified: multiset<Listener>, subscribed: set<Listener>)

  datatype Step =
    | Request(l: Listener, force: bool, now: int)
    | SubmitWorker(key: Key)
    | WorkerCompletes(key: Key, now: int, caps: Caps)
    | Notify(l: Listener)
    | ProbeSynchronously(key: Key, now: int, caps: Caps)
    | Invalidate(scope: Scope)

  predicate Enabled(s: System, step: Step) {
    match step
    case Request(l, _, _) => l !in s.subscribed
    case SubmitWorker(key) => key in s.owed
    case WorkerCompletes(key, _, _) => key in s.probing
    case Notify(l) => l in s.delivering
    case ProbeSynchronously(_, _, _) => true
    case Invalidate(_) => true
  }

  function Perform(ttl: int, s: System, step: Step): System
    requires Enabled(s, step)
  {
    match step
    case Request(l, force, now) =>
      var (m, answer) := RequestEffect(s.manager, l, force, now, ttl);
      var t := s.(manager := m, subscribed := s.subscribed + {l});
      (match answer
       case FromCache(_) => t.(notified := t.notified + multiset{l})
       case Attached => t
       case StartProbe => t.(owed := t.owed + multiset{l.key}))
    case SubmitWorker(key) => s.(owed := s.owed - multiset{key}, probing := s.probing + multiset{key})
    case WorkerCompletes(key, now, caps) =>
      var (m, listeners) := CompleteEffect(s.manager, key, now, caps);
      s.(manager := m, probing := s.probing - multiset{key}, delivering := s.delivering + multiset(listeners))
    case Notify(l) => s.(delivering := s.delivering - multiset{l}, notified := s.notified + multiset{l})
    case ProbeSynchronously(key, now, caps) =>
      s.(manager := s.manager.(cache := s.manager.cache[key := Cached(now, caps)]))
    case Invalidate(scope) => s.(manager := InvalidateEffect(s.manager, scope))
  }

  /** How often a listener waits for its drive's probe. */
  function Waiting(pending: map<Key, seq<Listener>>, l: Listener): nat {
    if l.key in pending then multiset(pending[l.key])[l] else 0
  }

  /** A drive has listeners waiting exactly when one probe for it is outstanding, and never more than one is. */
  ghost predicate SingleFlight(s: System) {
    forall key :: s.owed[key] + s.probing[key] == if key in s.manager.pending then 1 else 0
  }

  /** Every subscription is in exactly one place: waiting, taken, or notified. */
  ghost predicate Conserved(s: System) {
    && (forall l :: Waiting(s.manager.pending, l) + s.delivering[l] + s.notified[l]
                 == if l in s.subscribed then 1 else 0)
    && (forall key <- s.manager.pending :: forall l <- s.manager.pending[key] :: l.key == key)
  }

  ghost predicate Inv(s: System) { SingleFlight(s) && Conserved(s) }

  /** Subscribing appends `l` to its own drive's list, and to no other. */
  lemma RequestWaits(m: ManagerState, l: Listener, force: bool, now: int, ttl: int, x: Listener)
    ensures var (q, answer) := RequestEffect(m, l, force, now, ttl);
            Waiting(q.pending, x) == Waiting(m.pending, x) + if x == l && !answer.FromCache? then 1 else 0
  {}

  lemma RequestKeepsKeys(m: ManagerState, l: Listener, force: bool, now: int, ttl: int)
    requires forall key <- m.pending :: forall x <- m.pending[key] :: x.key == key
    ensures var q := RequestEffect(m, l, force, now, ttl).0;
            forall key <- q.pending :: forall x <- q.pending[key] :: x.key == key
  {}

  lemma RequestKeepsFlights(ttl: int, s: System, l: Listener, force: bool, now: int)
    requires SingleFlight(s) && Enabled(s, Request(l, force, now))
    ensures SingleFlight(Perform(ttl, s, Request(l, force, now)))
  {}

  lemma RequestConserves(ttl: int, s: System, l: Listener, force: bool, now: int)
    requires Inv(s) && Enabled(s, Request(l, force, now))
    ensures Inv(Perform(ttl, s, Request(l, force, now)))
  {
    var q := Perform(ttl, s, Request(l, force, now));
    RequestKeepsKeys(s.manager, l, force, now, ttl);
    RequestKeepsFlights(ttl, s, l, force, now);
    forall x
      ensures Waiting(q.manager.pending, x) + q.delivering[x] + q.notified[x] == if x in q.subscribed then 1 else 0
    {
      RequestWaits(s.manager, l, force, now, ttl, x);
      assert Waiting(s.manager.pending, x) + s.delivering[x] + s.notified[x] == if x in s.subscribed then 1 else 0;
    }
  }

  lemma CompletionConserves(ttl: int, s: System, key: Key, now: int, caps: Caps)
    requires Inv(s) && Enabled(s, WorkerCompletes(key, now, caps))
    ensures Inv(Perform(ttl, s, WorkerCompletes(key, now, caps)))
  {
    var q := Perform(ttl, s, WorkerCompletes(key, now, caps));
    assert s.owed[key] + s.probing[key] == 1 && key in s.manager.pending;
    forall x
      ensures Waiting(q.manager.pending, x) + q.delivering[x] + q.notified[x] == if x in q.subscribed then 1 else 0
    {
      assert Waiting(s.manager.pending, x) + s.delivering[x] + s.notified[x] == if x in s.subscribed then 1 else 0;
      if x.key != key && x in s.manager.pending[key] { assert false; }
    }
  }

  lemma StepKeeps(ttl: int, s: System, step: Step)
    requires Inv(s) && Enabled(s, step)
    ensures Inv(Perform(ttl, s, step))
  {
    match step {
      case Request(l, force, now) => RequestConserves(ttl, s, l, force, now);
      case WorkerCompletes(key, now, caps) => CompletionConserves(ttl, s, key, now, caps);
      case _ =>
    }
  }

  const INITIAL := System(ManagerState(map[], map[]), multiset{}, multiset{}, multiset{}, multiset{}, {})

  ghost predicate IsRun(ttl: int, run: seq<System>, steps: seq<Step>) {
    && |run| == |steps| + 1 && run[0] == INITIAL
    && forall i :: 0 <= i < |steps| ==> Enabled(run[i], steps[i]) && run[i + 1] == Perform(ttl, run[i], steps[i])
  }

  lemma {:induction false} RunKeeps(ttl: int, run: seq<System>, steps: seq<Step>, i: nat)
    requires IsRun(ttl, run, steps) && i < |run|
    ensures Inv(run[i])
  {
    if i > 0 {
      RunKeeps(ttl, run, steps, i - 1);
      StepKeeps(ttl, run[i - 1], steps[i - 1]);
    }
  }

  /** In every reachable state: at most one probe per drive is outstanding; a listener that waits has one under
      way for its own drive; nobody is notified twice or without having subscribed; and once nothing is
      outstanding, everybody has been notified. */
  lemma RunsNotifyOnce(ttl: int, run: seq<System>, steps: seq<Step>, i: nat)
    requires IsRun(ttl, run, steps) && i < |run|
    ensures forall key :: run[i].owed[key] + run[i].probing[key] <= 1
    ensures forall l <- run[i].subscribed :: run[i].notified[l] == 0 && l !in run[i].delivering ==>
              run[i].owed[l.key] + run[i].probing[l.key] == 1
    ensures forall l :: run[i].notified[l] <= if l in run[i].subscribed then 1 else 0
    ensures run[i].owed == multiset{} && run[i].probing == multiset{} && run[i].delivering == multiset{} ==>
              forall l <- run[i].subscribed :: run[i].notified[l] == 1
  {
    RunKeeps(ttl, run, steps, i);
    var s := run[i];
    forall l ensures s.notified[l] <= if l in s.subscribed then 1 else 0 {
      assert Waiting(s.manager.pending, l) + s.delivering[l] + s.notified[l] == if l in s.subscribed then 1 else 0;
    }
    forall l <- s.subscribed
      ensures s.notified[l] == 0 && l !in s.delivering ==> s.owed[l.key] + s.probing[l.key] == 1
      ensures s.owed == multiset{} && s.probing == multiset{} && s.delivering == multiset{} ==> s.notified[l] == 1
    {
      assert Waiting(s.manager.pending, l) + s.delivering[l] + s.notified[l] == 1;
      assert s.owed[l.key] + s.probing[l.key] == if l.key in s.manager.pending then 1 else 0;
    }
  }

  // ---------- What the cache answers ----------

  predicate Publishes(step: Step, key: Key) {
    (step.WorkerCompletes? || step.ProbeSynchronously?) && step.key == key
  }

  /** The last result published for `key`, unless an invalidation has hit the drive since. */
  function LastPublished(steps: seq<Step>, key: Key): Option<Cached> {
    if steps == [] then None
    else
      var last := steps[|steps| - 1];
      if Publishes(last, key) then Some(Cached(last.now, last.caps))
      else if last.Invalidate? && Hits(last.scope, key) then None
      else LastPublished(steps[..|steps| - 1], key)
  }

  function Entry(cache: map<Key, Cached>, key: Key): Option<Cached> {
    if key in cache then Some(cache[key]) else None
  }

  lemma StepPublishes(ttl: int, s: System, step: Step, key: Key)
    requires Enabled(s, step)
    ensures Entry(Perform(ttl, s, step).manager.cache, key) ==
      if Publishes(step, key) then Some(Cached(step.now, step.caps))
      else if step.Invalidate? && Hits(step.scope, key) then None
      else Entry(s.manager.cache, key)
  {}

  lemma {:induction false} CacheHoldsLastPublished(ttl: int, run: seq<System>, steps: seq<Step>, i: nat, key: Key)
    requires IsRun(ttl, run, steps) && i < |run|
    ensures Entry(run[i].manager.cache, key) == LastPublished(steps[..i], key)
  {
    if i > 0 {
      CacheHoldsLastPublished(ttl, run, steps, i - 1, key);
      StepPublishes(ttl, run[i - 1], steps[i - 1], key);
      assert steps[..i][..i - 1] == steps[..i - 1];
    }
  }

  /** In every run the cache answers exactly while the last result published for the drive is younger than the
      time to live and was not invalidated, and it answers with that result; so does a request that is not forced. */
  lemma CachedIsLastPublished(ttl: int, run: seq<System>, steps: seq<Step>, i: nat, l: Listener, now: int)
    requires IsRun(ttl, run, steps) && i < |run|
    ensures var m, last := run[i].manager, LastPublished(steps[..i], l.key);
      && (Fresh(m.cache, l.key, now, ttl) <==> last.Some? && now - last.value.time < ttl)
      && (Fresh(m.cache, l.key, now, ttl) ==> m.cache[l.key] == last.value)
      && (RequestEffect(m, l, false, now, ttl).1.FromCache? <==> last.Some? && now - last.value.time < ttl)
      && (RequestEffect(m, l, false, now, ttl).1.FromCache? ==>
            RequestEffect(m, l, false, now, ttl) == (m, FromCache(last.value.caps)))
      && !RequestEffect(m, l, true, now, ttl).1.FromCache?
  {
    CacheHoldsLastPublished(ttl, run, steps, i, l.key);
  }

  /** What an invalidation drops: everything, the entries of a device path, or one entry; listeners stay. */
  lemma InvalidateMeans(m: ManagerState, path: string, drive: Key)
    ensures InvalidateEffect(m, Everything) == m.(cache := map[])
    ensures InvalidateEffect(m, Drive(drive)) == m.(cache := m.cache - {drive})
    ensures var q := InvalidateEffect(m, Path(path));
      && q.pending == m.pending
      && (forall k :: k in q.cache <==>
            k in m.cache && k != path && !(|k| > |path| && k[..|path|] == path && k[|path|] == '|'))
      && (forall k <- q.cache :: q.cache[k] == m.cache[k])
  {
    assert InvalidateEffect(m, Drive(drive)).cache == m.cache - {drive};
    forall k ensures path + "|" <= k <==> |k| > |path| && k[..|path|] == path && k[|path|] == '|' {
      if |k| > |path| { assert k[..|path| + 1] == k[..|path|] + [k[|path|]]; }
      if path + "|" <= k { assert k[|path|] == (path + "|")[|path|]; }
    }
  }

  /** A request that is not answered from the cache joins the listeners of a probe under way, or is the first of one. */
  lemma RequestMeans(m: ManagerState, l: Listener, now: int, ttl: int)
    ensures RequestEffect(m, l, true, now, ttl) ==
      if l.key in m.pending then (m.(pending := m.pending[l.key := m.pending[l.key] + [l]]), Attached)
      else (m.(pending := m.pending[l.key := [l]]), StartProbe)
    ensures RequestEffect(m, l, false, now, ttl) ==
      if l.key in m.cache && now - m.cache[l.key].time < ttl then (m, FromCache(m.cache[l.key].caps))
      else RequestEffect(m, l, true, now, ttl)
  {}

  // ---------- Progress ----------

  predicate IsWorkerStep(step: Step) { step.SubmitWorker? || step.WorkerCompletes? || step.Notify? }

  ghost predicate Smaller(q: System, s: System) {
    var a, b := 2 * |q.owed| + |q.probing|, 2 * |s.owed| + |s.probing|;
    a < b || (a == b && |q.delivering| < |s.delivering|)
  }

  /** Without new requests the workers run dry: every worker step makes the system smaller, and while a
      subscriber is still to be notified, some worker step can be taken. */
  lemma WorkersRunDry(ttl: int, s: System, step: Step)
    requires Inv(s)
    ensures Enabled(s, step) && IsWorkerStep(step) ==> Smaller(Perform(ttl, s, step), s)
    ensures forall l <- s.subscribed :: s.notified[l] == 0 ==>
              l.key in s.owed || l.key in s.probing || l in s.delivering
  {
    forall l <- s.subscribed | s.notified[l] == 0 ensures l.key in s.owed || l.key in s.probing || l in s.delivering {
      assert Waiting(s.manager.pending, l) + s.delivering[l] + s.notified[l] == 1;
      assert s.owed[l.key] + s.probing[l.key] == if l.key in s.manager.pending then 1 else 0;
    }
  }
}

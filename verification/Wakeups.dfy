/** Deferred wake-ups (pkg/watcher/manager.go, pending_work.go): concurrent handlers ask for a
    reconcile at a deadline, requests are coalesced per policy, and one worker serves the queue.

    The client-go workqueue is an assumption about the environment, written out as `WorkQueue`: a
    dirty set, a processing set, a FIFO, and a delay heap that keeps the earliest ready time of a key. */
module Wakeups {
  // ---------- The workqueue ----------

  datatype WorkQueue = WorkQueue(fifo: seq<string>, dirty: set<string>, processing: set<string>, heap: map<string, int>)

  function Add(q: WorkQueue, k: string): WorkQueue {
    if k in q.dirty then q
    else if k in q.processing then q.(dirty := q.dirty + {k})
    else q.(dirty := q.dirty + {k}, fifo := q.fifo + [k])
  }

  /** Delays that are not positive add at once. */
  function AddAfter(q: WorkQueue, now: int, k: string, d: int): WorkQueue {
    if d <= 0 then Add(q, k)
    else if k in q.heap && q.heap[k] <= now + d then q
    else q.(heap := q.heap[k := now + d])
  }

  function Fire(q: WorkQueue, k: string): WorkQueue {
    Add(q.(heap := q.heap - {k}), k)
  }

  function Get(q: WorkQueue): WorkQueue
    requires q.fifo != []
  {
    var k := q.fifo[0];
    q.(fifo := q.fifo[1..], dirty := q.dirty - {k}, processing := q.processing + {k})
  }

  function Done(q: WorkQueue, k: string): WorkQueue {
    q.(processing := q.processing - {k}, fifo := if k in q.dirty then q.fifo + [k] else q.fifo)
  }

  // ---------- Coalescing ----------

  /** The new map, and whether the request is accepted: no earlier-or-equal deadline is recorded. */
  function Coalesce(m: map<string, int>, k: string, deadline: int): (map<string, int>, bool) {
    if k in m && m[k] <= deadline then (m, false) else (m[k := deadline], true)
  }

  class PendingWorkMap {
    var m: map<string, int>

    constructor ()
      ensures m == map[]
    {
      m := map[];
    }

    method ShouldEnqueueAfter(policy: string, deadline: int) returns (accepted: bool)
      modifies this
      ensures (m, accepted) == Coalesce(old(m), policy, deadline)
      ensures policy in m && m[policy] <= deadline
      ensures accepted <==> policy !in old(m) || deadline < old(m)[policy]
    {
      if policy in m && !(m[policy] > deadline) {
        return false;
      }
      m := m[policy := deadline];
      accepted := true;
    }

    method Clear(policy: string)
      modifies this
      ensures m == old(m) - {policy}
    {
      m := m - {policy};
    }
  }

  datatype ReconcileResult = Succeeded | UnknownPolicy | Failed

  class Manager {
    const pendingWork: PendingWorkMap
    var workqueue: WorkQueue
    var inFlight: int

    constructor ()
      ensures workqueue == WorkQueue([], {}, {}, map[]) && inFlight == 0
      ensures fresh(pendingWork) && pendingWork.m == map[]
    {
      pendingWork := new PendingWorkMap();
      workqueue, inFlight := WorkQueue([], {}, {}, map[]), 0;
    }

    method Enqueue(policyName: string)
      modifies this`workqueue
      ensures workqueue == Add(old(workqueue), policyName)
    {
      workqueue := Add(workqueue, policyName);
    }

    /** `readAt` is the clock when the deadline is computed, `armAt` the clock when AddAfter runs. */
    method EnqueueAfter(policyName: string, d: int, readAt: int, armAt: int)
      modifies this`workqueue, pendingWork
      ensures pendingWork.m == Coalesce(old(pendingWork.m), policyName, readAt + d).0
      ensures workqueue == if Coalesce(old(pendingWork.m), policyName, readAt + d).1
                           then AddAfter(old(workqueue), armAt, policyName, d) else old(workqueue)
    {
      var deadline := readAt + d;
      var accepted := pendingWork.ShouldEnqueueAfter(policyName, deadline);
      if accepted {
        workqueue := AddAfter(workqueue, armAt, policyName, d);
      }
    }

    /** One tick of the periodic resync: every policy is queued, or already is, and nothing else changes. */
    method ResyncTick(policies: seq<string>)
      modifies this`workqueue
      ensures workqueue.dirty == old(workqueue).dirty + set n | n in policies
      ensures workqueue.processing == old(workqueue).processing && workqueue.heap == old(workqueue).heap
      ensures old(workqueue).fifo <= workqueue.fifo
      ensures forall n :: n in policies && n !in old(workqueue).processing && n !in old(workqueue).dirty ==>
                n in workqueue.fifo
    {
      for i := 0 to |policies|
        invariant workqueue.dirty == old(workqueue).dirty + set n | n in policies[..i]
        invariant workqueue.processing == old(workqueue).processing && workqueue.heap == old(workqueue).heap
        invariant old(workqueue).fifo <= workqueue.fifo
        invariant forall n :: n in policies[..i] && n !in old(workqueue).processing && n !in old(workqueue).dirty ==>
                    n in workqueue.fifo
      {
        assert policies[..i + 1] == policies[..i] + [policies[i]];
        Enqueue(policies[i]);
      }
      assert policies[..|policies|] == policies;
    }

    /** One worker turn, without interleaving; `result` is what the reconcile returns and `backoff`
        the delay that the rate limiter picks.  False only after a shutdown. */
    method ProcessNextItem(shutdown: bool, result: ReconcileResult, now: int, backoff: int) returns (more: bool)
      requires shutdown || workqueue.fifo != []
      modifies this, pendingWork
      ensures more == !shutdown
      ensures shutdown ==> workqueue == old(workqueue) && pendingWork.m == old(pendingWork.m)
      ensures inFlight == old(inFlight)
      ensures !shutdown ==>
                var k := old(workqueue).fifo[0];
                var taken := Get(old(workqueue));
                && pendingWork.m == old(pendingWork.m) - {k}
                && workqueue == Done(if result == Failed then AddAfter(taken, now, k, backoff) else taken, k)
    {
      if shutdown {
        return false;
      }
      var key := workqueue.fifo[0];
      workqueue := Get(workqueue);
      pendingWork.Clear(key);
      inFlight := inFlight + 1;
      if result == Failed {
        workqueue := AddAfter(workqueue, now, key, backoff);
      }
      inFlight := inFlight - 1;
      workqueue := Done(workqueue, key);
      more := true;
    }
  }

  // ---------- The protocol, step by step ----------

  /** A handler thread inside EnqueueAfter: the deadline readAt + delay is computed, then accepted. */
  datatype Handler = Requested(key: string, readAt: int, delay: int) | Accepted(key: string, readAt: int, delay: int)

  /** The worker inside processNextItem. */
  datatype Worker = Waiting | Dequeued(key: string) | Cleared(key: string) | Running(key: string)

  datatype System = System(
    now: int,
    pending: map<string, int>,
    queue: WorkQueue,
    handlers: map<int, Handler>,
    worker: Worker)

  datatype Action =
    | Tick(d: nat)
    | Request(h: int, key: string, delay: int)
    | Decide(h: int)
    | Arm(h: int)
    | Enqueue(key: string)
    | RetryLater(key: string, delay: int)
    | HeapFires(key: string)
    | Take
    | ClearPending
    | StartReconcile
    | FinishReconcile

  /** A handler is never in flight for longer than `latency`. */
  predicate Enabled(s: System, a: Action, latency: nat) {
    match a
    case Tick(d) => forall h :: h in s.handlers ==> s.now + d <= s.handlers[h].readAt + latency
    case Request(h, _, delay) => h !in s.handlers && delay > 0
    case Decide(h) => h in s.handlers && s.handlers[h].Requested?
    case Arm(h) => h in s.handlers && s.handlers[h].Accepted?
    case Enqueue(_) => true
    case RetryLater(_, _) => true
    case HeapFires(k) => k in s.queue.heap && s.queue.heap[k] <= s.now
    case Take => s.worker == Waiting && s.queue.fifo != []
    case ClearPending => s.worker.Dequeued?
    case StartReconcile => s.worker.Cleared?
    case FinishReconcile => s.worker.Running?
  }

  function Act(s: System, a: Action, latency: nat): System
    requires Enabled(s, a, latency)
  {
    match a
    case Tick(d) => s.(now := s.now + d)
    case Request(h, k, delay) => s.(handlers := s.handlers[h := Requested(k, s.now, delay)])
    case Decide(h) =>
      var t := s.handlers[h];
      var (m, accepted) := Coalesce(s.pending, t.key, t.readAt + t.delay);
      s.(pending := m,
         handlers := if accepted then s.handlers[h := Accepted(t.key, t.readAt, t.delay)] else s.handlers - {h})
    case Arm(h) =>
      var t := s.handlers[h];
      s.(queue := AddAfter(s.queue, s.now, t.key, t.delay), handlers := s.handlers - {h})
    case Enqueue(k) => s.(queue := Add(s.queue, k))
    case RetryLater(k, delay) => s.(queue := AddAfter(s.queue, s.now, k, delay))
    case HeapFires(k) => s.(queue := Fire(s.queue, k))
    case Take => s.(worker := Dequeued(s.queue.fifo[0]), queue := Get(s.queue))
    case ClearPending => s.(worker := Cleared(s.worker.key), pending := s.pending - {s.worker.key})
    case StartReconcile => s.(worker := Running(s.worker.key))
    case FinishReconcile => s.(worker := Waiting, queue := Done(s.queue, s.worker.key))
  }

  function Initial(now: int): System {
    System(now, map[], WorkQueue([], {}, {}, map[]), map[], Waiting)
  }

  ghost predicate Execution(states: seq<System>, actions: seq<Action>, latency: nat) {
    && |states| == |actions| + 1
    && states[0] == Initial(states[0].now)
    && forall i :: 0 <= i < |actions| ==>
         Enabled(states[i], actions[i], latency) && states[i + 1] == Act(states[i], actions[i], latency)
  }

  /** The methods are these steps in a row: a request, its decision and, if accepted, its arming. */
  lemma EnqueueAfterIsSteps(s: System, h: int, k: string, delay: int, latency: nat)
    requires h !in s.handlers && delay > 0
    ensures Enabled(s, Request(h, k, delay), latency)
    ensures var s1 := Act(s, Request(h, k, delay), latency);
            && Enabled(s1, Decide(h), latency)
            && var s2 := Act(s1, Decide(h), latency); var (m, accepted) := Coalesce(s.pending, k, s.now + delay);
               && s2.pending == m && (h in s2.handlers <==> accepted)
               && (accepted ==> Enabled(s2, Arm(h), latency))
               && (if accepted then Act(s2, Arm(h), latency) else s2)
                  == s.(pending := m, queue := if accepted then AddAfter(s.queue, s.now, k, delay) else s.queue)
  {
    assert s.handlers[h := Requested(k, s.now, delay)] - {h} == s.handlers;
    assert s.handlers[h := Accepted(k, s.now, delay)] - {h} == s.handlers;
    assert s.handlers[h := Requested(k, s.now, delay)][h := Accepted(k, s.now, delay)]
        == s.handlers[h := Accepted(k, s.now, delay)];
  }

  /** A worker turn: take, clear, reconcile, back off on a failure, and finish. */
  lemma ProcessNextItemIsSteps(s: System, failed: bool, backoff: int, latency: nat)
    requires s.worker == Waiting && s.queue.fifo != []
    ensures var k := s.queue.fifo[0];
            var s3 := Act(Act(Act(s, Take, latency), ClearPending, latency), StartReconcile, latency);
            var s4 := if failed then Act(s3, RetryLater(k, backoff), latency) else s3;
            && s3.worker == Running(k)
            && Act(s4, FinishReconcile, latency)
               == s.(pending := s.pending - {k},
                     queue := Done(if failed then AddAfter(Get(s.queue), s.now, k, backoff) else Get(s.queue), k))
  {
  }

  // ---------- No deadline is lost ----------

  /** Handler `h` has an accepted request for `k` no later than `d`, and will arm it. */
  predicate WillArm(s: System, h: int, k: string, d: int) {
    && h in s.handlers && s.handlers[h].Accepted? && s.handlers[h].key == k
    && s.handlers[h].readAt + s.handlers[h].delay <= d
  }

  /** A wake-up of `k`, no later than `d` plus the handler latency, that survives until the recorded
      deadline is cleared. */
  ghost predicate Armed(s: System, k: string, d: int, latency: nat) {
    || (exists h :: WillArm(s, h, k, d))
    || (k in s.queue.heap && s.queue.heap[k] <= d + latency)
    || k in s.queue.dirty
    || s.worker == Dequeued(k)
  }

  /** A wake-up of `k` whose reconcile is still to start. */
  ghost predicate Outstanding(s: System, k: string, d: int, latency: nat) {
    Armed(s, k, d, latency) || s.worker == Cleared(k)
  }

  /** A key in progress is the worker's; a dirty key waits in the FIFO unless it is in progress. */
  ghost predicate QueueConsistent(s: System) {
    && (forall k :: k in s.queue.processing <==> !s.worker.Waiting? && k == s.worker.key)
    && (forall k :: k in s.queue.fifo <==> k in s.queue.dirty && k !in s.queue.processing)
    && (forall i, j :: 0 <= i < j < |s.queue.fifo| ==> s.queue.fifo[i] != s.queue.fifo[j])
  }

  predicate HandlersInTime(s: System, latency: nat) {
    forall h :: h in s.handlers ==>
      s.handlers[h].delay > 0 && s.handlers[h].readAt <= s.now <= s.handlers[h].readAt + latency
  }

  ghost predicate Invariant(s: System, latency: nat) {
    && QueueConsistent(s)
    && HandlersInTime(s, latency)
    && (forall k :: k in s.pending ==> Armed(s, k, s.pending[k], latency))
  }

  lemma HandlersStay(s: System, a: Action, latency: nat)
    requires HandlersInTime(s, latency) && Enabled(s, a, latency)
    ensures HandlersInTime(Act(s, a, latency), latency)
  {
    hide Add, AddAfter, Fire, Get, Done;
  }

  lemma AddStays(s: System, k: string)
    requires QueueConsistent(s)
    ensures QueueConsistent(s.(queue := Add(s.queue, k)))
  {
    var f := s.queue.fifo + [k];
    assert forall x :: x in f <==> x in s.queue.fifo || x == k;
  }

  lemma TakeStays(s: System, latency: nat)
    requires QueueConsistent(s) && Enabled(s, Take, latency)
    ensures QueueConsistent(Act(s, Take, latency))
  {
    assert s.queue.fifo == [s.queue.fifo[0]] + s.queue.fifo[1..];
  }

  lemma DoneStays(s: System, latency: nat)
    requires QueueConsistent(s) && Enabled(s, FinishReconcile, latency)
    ensures QueueConsistent(Act(s, FinishReconcile, latency))
  {
    var f := s.queue.fifo + [s.worker.key];
    assert forall x :: x in f <==> x in s.queue.fifo || x == s.worker.key;
  }

  /** Consistency looks at the FIFO, the two sets and the worker's key only. */
  lemma SameQueueStays(s: System, s': System)
    requires QueueConsistent(s) && s'.queue.(heap := s.queue.heap) == s.queue
    requires s'.worker.Waiting? == s.worker.Waiting? && (!s.worker.Waiting? ==> s'.worker.key == s.worker.key)
    ensures QueueConsistent(s')
  {
  }

  lemma QueueStays(s: System, a: Action, latency: nat)
    requires QueueConsistent(s) && HandlersInTime(s, latency) && Enabled(s, a, latency)
    ensures QueueConsistent(Act(s, a, latency)) && HandlersInTime(Act(s, a, latency), latency)
  {
    HandlersStay(s, a, latency);
    hide QueueConsistent, HandlersInTime;
    var s' := Act(s, a, latency);
    match a
    case Enqueue(k) => AddStays(s, k);
    case HeapFires(k) =>
      SameQueueStays(s, s.(queue := s.queue.(heap := s.queue.heap - {k})));
      AddStays(s.(queue := s.queue.(heap := s.queue.heap - {k})), k);
    case RetryLater(k, delay) => if delay <= 0 { AddStays(s, k); } else { SameQueueStays(s, s'); }
    case Take => TakeStays(s, latency);
    case FinishReconcile => DoneStays(s, latency);
    case Arm(h) => ArmStays(s, h, latency);
    case _ => SameQueueStays(s, s');
  }

  lemma ArmStays(s: System, h: int, latency: nat)
    requires QueueConsistent(s) && Enabled(s, Arm(h), latency)
    ensures QueueConsistent(Act(s, Arm(h), latency))
  {
    hide QueueConsistent;
    var t, s' := s.handlers[h], Act(s, Arm(h), latency);
    if t.delay <= 0 {
      AddStays(s, t.key);
      SameQueueStays(s.(queue := Add(s.queue, t.key)), s');
    } else {
      SameQueueStays(s, s');
    }
  }

  /** A wake-up is lost only by starting the reconcile it stands for. */
  lemma ArmedStays(s: System, a: Action, latency: nat, k: string, d: int)
    requires QueueConsistent(s) && HandlersInTime(s, latency) && Enabled(s, a, latency)
    requires Armed(s, k, d, latency)
    ensures Armed(Act(s, a, latency), k, d, latency) || (a == ClearPending && s.worker == Dequeued(k))
  {
    var s' := Act(s, a, latency);
    if h :| WillArm(s, h, k, d) {
      if a == Arm(h) {
        assert k in s'.queue.heap && s'.queue.heap[k] <= d + latency;
      } else {
        assert WillArm(s', h, k, d);
      }
    }
  }

  lemma OutstandingStays(s: System, a: Action, latency: nat, k: string, d: int)
    requires QueueConsistent(s) && HandlersInTime(s, latency) && Enabled(s, a, latency)
    requires Outstanding(s, k, d, latency)
    ensures Outstanding(Act(s, a, latency), k, d, latency) || (a == StartReconcile && s.worker == Cleared(k))
  {
    if Armed(s, k, d, latency) { ArmedStays(s, a, latency, k, d); }
  }

  /** After a decision the key has a wake-up for the decided deadline, whether it was accepted or
      coalesced into an earlier one. */
  lemma DecisionIsArmed(s: System, h: int, latency: nat)
    requires Invariant(s, latency) && Enabled(s, Decide(h), latency)
    ensures var t := s.handlers[h]; var s' := Act(s, Decide(h), latency);
            && Armed(s', t.key, t.readAt + t.delay, latency)
            && t.key in s'.pending && Armed(s', t.key, s'.pending[t.key], latency)
  {
    var t, s' := s.handlers[h], Act(s, Decide(h), latency);
    var d := t.readAt + t.delay;
    if Coalesce(s.pending, t.key, d).1 {
      assert WillArm(s', h, t.key, d);
    } else {
      ArmedStays(s, Decide(h), latency, t.key, s.pending[t.key]);
      ArmedLater(s', t.key, s.pending[t.key], d, latency);
    }
  }

  lemma ArmedLater(s: System, k: string, d: int, d': int, latency: nat)
    requires Armed(s, k, d, latency) && d <= d'
    ensures Armed(s, k, d', latency)
  {
    if h :| WillArm(s, h, k, d) { assert WillArm(s, h, k, d'); }
  }

  lemma InvariantStays(s: System, a: Action, latency: nat)
    requires Invariant(s, latency) && Enabled(s, a, latency)
    ensures Invariant(Act(s, a, latency), latency)
  {
    var s' := Act(s, a, latency);
    QueueStays(s, a, latency);
    if a.Decide? { DecisionIsArmed(s, a.h, latency); }
    forall k | k in s'.pending ensures Armed(s', k, s'.pending[k], latency) {
      if !(a.Decide? && k == s.handlers[a.h].key) { ArmedStays(s, a, latency, k, s.pending[k]); }
    }
  }

  lemma {:induction false} InvariantHolds(states: seq<System>, actions: seq<Action>, latency: nat, i: nat)
    requires Execution(states, actions, latency) && i < |states|
    ensures Invariant(states[i], latency)
  {
    if i == 0 {
    } else {
      InvariantHolds(states, actions, latency, i - 1);
      InvariantStays(states[i - 1], actions[i - 1], latency);
      assert states[(i - 1) + 1] == Act(states[i - 1], actions[i - 1], latency);
    }
  }

  lemma StepOf(states: seq<System>, actions: seq<Action>, latency: nat, i: nat)
    requires Execution(states, actions, latency) && i < |actions|
    ensures Enabled(states[i], actions[i], latency) && states[i + 1] == Act(states[i], actions[i], latency)
    ensures Invariant(states[i], latency) && QueueConsistent(states[i]) && HandlersInTime(states[i], latency)
  {
    InvariantHolds(states, actions, latency, i);
  }

  lemma DecisionIsOutstanding(s: System, h: int, latency: nat)
    requires Invariant(s, latency) && Enabled(s, Decide(h), latency)
    ensures var t := s.handlers[h]; Outstanding(Act(s, Decide(h), latency), t.key, t.readAt + t.delay, latency)
  {
    DecisionIsArmed(s, h, latency);
  }

  /** Between the decisions i and j a reconcile of `k` started. */
  ghost predicate StartedBetween(states: seq<System>, actions: seq<Action>, i: nat, j: nat, k: string)
    requires |states| == |actions| + 1 && j <= |actions|
  {
    exists m :: i < m < j && actions[m] == StartReconcile && states[m].worker == Cleared(k)
  }

  /** In every execution, under every interleaving: a deadline that a handler decided on at step i,
      accepted or coalesced, has an outstanding wake-up no later than the deadline plus the handler
      latency, until a reconcile of its policy starts. */
  lemma {:induction false} NoLostDeadline(states: seq<System>, actions: seq<Action>, latency: nat, i: nat, j: nat)
    requires Execution(states, actions, latency) && i < j <= |actions| && actions[i].Decide?
    ensures Enabled(states[i], actions[i], latency)
    ensures var t := states[i].handlers[actions[i].h];
            || StartedBetween(states, actions, i, j, t.key)
            || Outstanding(states[j], t.key, t.readAt + t.delay, latency)
  {
    StepOf(states, actions, latency, i); StepOf(states, actions, latency, j - 1);
    var t := states[i].handlers[actions[i].h];
    hide Enabled, Execution, Act, Outstanding, Armed, Invariant, QueueConsistent, HandlersInTime;
    if j == i + 1 {
      DecisionIsOutstanding(states[i], actions[i].h, latency);
    } else {
      NoLostDeadline(states, actions, latency, i, j - 1);
      if Outstanding(states[j - 1], t.key, t.readAt + t.delay, latency) {
        OutstandingStays(states[j - 1], actions[j - 1], latency, t.key, t.readAt + t.delay);
      }
    }
  }

  /** Once the deadline and the latency have passed, the wake-up no longer depends on any handler:
      the heap entry is due, or the key is in the worker's FIFO or hands. */
  lemma DeadlineComesDue(states: seq<System>, actions: seq<Action>, latency: nat, i: nat, j: nat)
    requires Execution(states, actions, latency) && i < j <= |actions| && actions[i].Decide?
    requires Enabled(states[i], actions[i], latency)
    requires var t := states[i].handlers[actions[i].h];
             states[j].now >= t.readAt + t.delay + latency && !StartedBetween(states, actions, i, j, t.key)
    ensures var s, k := states[j], states[i].handlers[actions[i].h].key;
            || Enabled(s, HeapFires(k), latency)
            || k in s.queue.fifo
            || (!s.worker.Waiting? && s.worker.key == k)
  {
    NoLostDeadline(states, actions, latency, i, j);
    InvariantHolds(states, actions, latency, j);
  }

  // ---------- Which deadlines get a wake-up of their own ----------

  /** A pending deadline makes the decision drop a request for `d`. */
  predicate PendingBy(s: System, k: string, d: int) {
    k in s.pending && s.pending[k] <= d
  }

  /** An entry of the delay heap makes AddAfter drop a wake-up for `d`. */
  predicate HeldBefore(s: System, k: string, d: int) {
    k in s.queue.heap && s.queue.heap[k] < d
  }

  /** The delay heap holds a wake-up that comes at `d` or later. */
  predicate HeldFrom(s: System, k: string, d: int) {
    k in s.queue.heap && s.queue.heap[k] >= d
  }

  predicate Reuses(a: Action, h: int) {
    a == Arm(h) || (a.Request? && a.h == h)
  }

  ghost predicate NotReused(actions: seq<Action>, i: int, j: int)
    requires 0 <= i < j <= |actions| && actions[i].Decide?
  {
    forall m :: i < m < j ==> !Reuses(actions[m], actions[i].h)
  }

  /** Step `j` arms the request that step `i` decided on. */
  ghost predicate ArmStep(actions: seq<Action>, i: int, j: int) {
    0 <= i < j < |actions| && actions[i].Decide? && actions[j] == Arm(actions[i].h) && NotReused(actions, i, j)
  }

  /** The decided request is gone when a pending deadline dropped it, and otherwise waits to be armed. */
  lemma {:induction false} HandlerStays(states: seq<System>, actions: seq<Action>, latency: nat, i: nat, j: nat)
    requires Execution(states, actions, latency) && i < j <= |actions| && actions[i].Decide? && NotReused(actions, i, j)
    requires Enabled(states[i], actions[i], latency)
    ensures var h := actions[i].h; var t := states[i].handlers[h];
            if PendingBy(states[i], t.key, t.readAt + t.delay) then h !in states[j].handlers
            else h in states[j].handlers && states[j].handlers[h] == Accepted(t.key, t.readAt, t.delay)
  {
    assert states[(j - 1) + 1] == Act(states[j - 1], actions[j - 1], latency);
    if j == i + 1 {
    } else {
      HandlerStays(states, actions, latency, i, j - 1);
      assert !Reuses(actions[j - 1], actions[i].h);
      assert Enabled(states[j - 1], actions[j - 1], latency);
    }
  }

  lemma FirstReuse(actions: seq<Action>, i: nat, j: nat, n: nat) returns (m: nat)
    requires i < j <= n <= |actions| && actions[i].Decide? && NotReused(actions, i, j)
    ensures j <= m <= n && NotReused(actions, i, m) && (m == n || Reuses(actions[m], actions[i].h))
    decreases n - j
  {
    if j == n || Reuses(actions[j], actions[i].h) {
      m := j;
    } else {
      m := FirstReuse(actions, i, j + 1, n);
    }
  }

  /** Once the handler has had its time, the request was armed exactly when the decision accepted it. */
  lemma ArmedIffAccepted(states: seq<System>, actions: seq<Action>, latency: nat, i: nat, n: nat)
    requires Execution(states, actions, latency) && i < n <= |actions| && actions[i].Decide?
    requires Enabled(states[i], actions[i], latency)
    requires states[n].now > states[i].handlers[actions[i].h].readAt + latency
    ensures var t := states[i].handlers[actions[i].h];
            !PendingBy(states[i], t.key, t.readAt + t.delay) <==> exists j :: i < j < n && ArmStep(actions, i, j)
  {
    var t := states[i].handlers[actions[i].h];
    if j :| i < j < n && ArmStep(actions, i, j) {
      HandlerStays(states, actions, latency, i, j);
      assert Enabled(states[j], actions[j], latency);
    } else {
      var m := FirstReuse(actions, i, i + 1, n);
      HandlerStays(states, actions, latency, i, m);
      InvariantHolds(states, actions, latency, m);
      if m < n {
        assert Enabled(states[m], actions[m], latency);
        assert actions[m] == Arm(actions[i].h) ==> ArmStep(actions, i, m);
      }
    }
  }

  /** Arming leaves a wake-up at the request's own deadline or later exactly when the heap held no
      earlier one. */
  lemma ArmHoldsIff(states: seq<System>, actions: seq<Action>, latency: nat, i: nat, j: nat)
    requires Execution(states, actions, latency) && ArmStep(actions, i, j) && Enabled(states[i], actions[i], latency)
    ensures var t := states[i].handlers[actions[i].h]; var d := t.readAt + t.delay;
            HeldFrom(states[j + 1], t.key, d) <==> !HeldBefore(states[j], t.key, d)
  {
    HandlerStays(states, actions, latency, i, j);
    InvariantHolds(states, actions, latency, j);
    assert Enabled(states[j], actions[j], latency) && states[j + 1] == Act(states[j], actions[j], latency);
  }

  /** A requested deadline gets a wake-up of its own, at the deadline or later, exactly when no
      earlier-or-equal deadline was pending at the decision and no earlier one was in the delay heap
      when it was armed. */
  lemma OwnWakeUpIff(states: seq<System>, actions: seq<Action>, latency: nat, i: nat, n: nat)
    requires Execution(states, actions, latency) && i < n <= |actions| && actions[i].Decide?
    requires Enabled(states[i], actions[i], latency)
    requires states[n].now > states[i].handlers[actions[i].h].readAt + latency
    ensures var t := states[i].handlers[actions[i].h]; var d := t.readAt + t.delay;
            (exists j :: i < j < n && ArmStep(actions, i, j) && HeldFrom(states[j + 1], t.key, d)) <==>
            && !PendingBy(states[i], t.key, d)
            && forall j :: i < j < n && ArmStep(actions, i, j) ==> !HeldBefore(states[j], t.key, d)
  {
    ArmedIffAccepted(states, actions, latency, i, n);
    forall j: nat | i < j < n && ArmStep(actions, i, j) { ArmHoldsIff(states, actions, latency, i, j); }
    forall j, m | i < j < n && i < m < n && ArmStep(actions, i, j) && ArmStep(actions, i, m) ensures j == m {
      ArmStepIsUnique(actions, i, j, m);
    }
  }

  /** A later request or a back-off of the same policy is armed for a time before `d`. */
  predicate Replaces(s: System, a: Action, k: string, d: int) {
    match a
    case Arm(h) => h in s.handlers && s.handlers[h].key == k && s.now + s.handlers[h].delay < d
    case RetryLater(key, delay) => key == k && delay > 0 && s.now + delay < d
    case _ => false
  }

  /** The wake-up fires, at `d` or later, or an earlier one of the same policy replaces it. */
  predicate EndsWakeUp(s: System, a: Action, k: string, d: int) {
    (a == HeapFires(k) && s.now >= d) || Replaces(s, a, k, d)
  }

  lemma HeldStep(s: System, a: Action, latency: nat, k: string, d: int)
    requires Enabled(s, a, latency) && HeldFrom(s, k, d)
    ensures HeldFrom(Act(s, a, latency), k, d) || EndsWakeUp(s, a, k, d)
  {
  }

  /** Such a wake-up stays in the heap until it fires, at `d` or later, unless a request or a back-off
      of the same policy for an earlier time replaces it. */
  lemma {:induction false} OwnWakeUpStays(
      states: seq<System>, actions: seq<Action>, latency: nat, k: string, d: int, j: nat, n: nat)
    requires Execution(states, actions, latency) && j <= n <= |actions| && HeldFrom(states[j], k, d)
    ensures HeldFrom(states[n], k, d) || exists m :: j <= m < n && EndsWakeUp(states[m], actions[m], k, d)
  {
    hide Enabled, HeldFrom, EndsWakeUp;
    if j == n {
    } else {
      OwnWakeUpStays(states, actions, latency, k, d, j, n - 1);
      assert states[(n - 1) + 1] == Act(states[n - 1], actions[n - 1], latency);
      if HeldFrom(states[n - 1], k, d) {
        HeldStep(states[n - 1], actions[n - 1], latency, k, d);
      }
    }
  }

  ghost predicate NotFired(actions: seq<Action>, k: string, b: int, n: int)
    requires 0 <= b <= n <= |actions|
  {
    forall m :: b <= m < n ==> actions[m] != HeapFires(k)
  }

  /** From step `b` on, until the heap fires for `k`, it holds a wake-up at `d` or later. */
  ghost predicate KeptUntilFired(states: seq<System>, actions: seq<Action>, k: string, d: int, b: int, n: int)
    requires 0 <= b <= n <= |actions| && |states| == |actions| + 1
  {
    forall m :: b <= m <= n && NotFired(actions, k, b, m) ==> HeldFrom(states[m], k, d)
  }

  /** From step `b` on, until the heap fires for `k`, nothing earlier replaces its wake-up. */
  ghost predicate NotReplaced(states: seq<System>, actions: seq<Action>, k: string, d: int, b: int, n: int)
    requires 0 <= b <= n <= |actions| && |states| == |actions| + 1
  {
    forall m :: b <= m < n && NotFired(actions, k, b, m) ==> !Replaces(states[m], actions[m], k, d)
  }

  lemma ReplacedIsLost(s: System, a: Action, latency: nat, k: string, d: int)
    requires Enabled(s, a, latency) && HandlersInTime(s, latency) && HeldFrom(s, k, d) && Replaces(s, a, k, d)
    ensures a != HeapFires(k) && !HeldFrom(Act(s, a, latency), k, d)
  {
  }

  lemma UntilFiredNext(states: seq<System>, actions: seq<Action>, k: string, d: int, b: nat, n: nat)
    requires b < n <= |actions| && |states| == |actions| + 1
    ensures NotFired(actions, k, b, n) <==> NotFired(actions, k, b, n - 1) && actions[n - 1] != HeapFires(k)
    ensures KeptUntilFired(states, actions, k, d, b, n) <==>
              && KeptUntilFired(states, actions, k, d, b, n - 1)
              && (NotFired(actions, k, b, n) ==> HeldFrom(states[n], k, d))
    ensures NotReplaced(states, actions, k, d, b, n) <==>
              && NotReplaced(states, actions, k, d, b, n - 1)
              && (NotFired(actions, k, b, n - 1) ==> !Replaces(states[n - 1], actions[n - 1], k, d))
  {
    hide HeldFrom, Replaces;
  }

  lemma {:induction false} KeptIff(
      states: seq<System>, actions: seq<Action>, latency: nat, k: string, d: int, b: nat, n: nat)
    requires Execution(states, actions, latency) && b <= n <= |actions| && HeldFrom(states[b], k, d)
    ensures KeptUntilFired(states, actions, k, d, b, n) <==> NotReplaced(states, actions, k, d, b, n)
  {
    if n == b {
    } else {
      StepOf(states, actions, latency, n - 1);
      UntilFiredNext(states, actions, k, d, b, n);
      assert |states| == |actions| + 1;
      hide Enabled, HeldFrom, Replaces, HandlersInTime, Execution, Act, NotFired, NotReplaced;
      KeptIff(states, actions, latency, k, d, b, n - 1);
      var s, a := states[n - 1], actions[n - 1];
      if NotFired(actions, k, b, n - 1) && HeldFrom(s, k, d) {
        if Replaces(s, a, k, d) { ReplacedIsLost(s, a, latency, k, d); } else { HeldStep(s, a, latency, k, d); }
      }
    }
  }

  /** The whole life of a requested deadline: the heap holds a wake-up at or after it from the arming
      until it fires, exactly when the pending map and the heap both let the request pass and no
      earlier request or back-off replaces it first. */
  lemma OwnWakeUpKeptIff(states: seq<System>, actions: seq<Action>, latency: nat, i: nat, n: nat)
    requires Execution(states, actions, latency) && i < n <= |actions| && actions[i].Decide?
    requires Enabled(states[i], actions[i], latency)
    requires states[n].now > states[i].handlers[actions[i].h].readAt + latency
    ensures var t := states[i].handlers[actions[i].h]; var d := t.readAt + t.delay;
            (exists j ::
              i < j < n && ArmStep(actions, i, j) && KeptUntilFired(states, actions, t.key, d, j + 1, n)) <==>
            && !PendingBy(states[i], t.key, d)
            && forall j :: i < j < n && ArmStep(actions, i, j) ==>
                 !HeldBefore(states[j], t.key, d) && NotReplaced(states, actions, t.key, d, j + 1, n)
  {
    var t := states[i].handlers[actions[i].h];
    var d := t.readAt + t.delay;
    ArmedIffAccepted(states, actions, latency, i, n);
    hide Enabled, Execution, PendingBy, HeldBefore, HeldFrom, NotReplaced, ArmStep;
    forall j: nat | i < j < n && ArmStep(actions, i, j)
      ensures KeptUntilFired(states, actions, t.key, d, j + 1, n) <==>
              !HeldBefore(states[j], t.key, d) && NotReplaced(states, actions, t.key, d, j + 1, n)
    {
      ArmHoldsIff(states, actions, latency, i, j);
      assert NotFired(actions, t.key, j + 1, j + 1);
      if HeldFrom(states[j + 1], t.key, d) { KeptIff(states, actions, latency, t.key, d, j + 1, n); }
    }
    forall j: nat, m: nat | i < j < n && i < m < n && ArmStep(actions, i, j) && ArmStep(actions, i, m) ensures j == m {
      ArmStepIsUnique(actions, i, j, m);
    }
  }

  lemma ArmStepIsUnique(actions: seq<Action>, i: int, j: int, m: int)
    requires ArmStep(actions, i, j) && ArmStep(actions, i, m)
    ensures j == m
  {
    assert Reuses(actions[j], actions[i].h) && Reuses(actions[m], actions[i].h);
  }

  /** When such a wake-up fires, the deadline has come. */
  lemma KeptFiresInTime(
      states: seq<System>, actions: seq<Action>, latency: nat, k: string, d: int, b: nat, n: nat, m: nat)
    requires Execution(states, actions, latency) && b <= m < n <= |actions|
    requires KeptUntilFired(states, actions, k, d, b, n) && actions[m] == HeapFires(k) && NotFired(actions, k, b, m)
    ensures states[m].now >= d
  {
    assert Enabled(states[m], actions[m], latency) && HeldFrom(states[m], k, d);
  }

  // ---------- What the two tests give up ----------

  /** Nothing anywhere will wake the worker for `k`. */
  ghost predicate Asleep(s: System, k: string) {
    && k !in s.queue.heap && k !in s.queue.dirty && k !in s.queue.fifo
    && s.worker == Waiting
    && forall h :: h in s.handlers ==> s.handlers[h].key != k
  }

  /** Three requests of one policy, for the deadlines 10, 20 and 30, and an immediate enqueue before the
      third; `i` steps into the scenario. */
  function Scenario(k: string, i: nat): System
    requires i <= 19
  {
    var idle, taken, due := WorkQueue([], {}, {}, map[]), WorkQueue([], {}, {k}, map[]), map[k := 10];
    var held := WorkQueue([], {}, {}, due);
    match i
    case 0 => Initial(0)
    case 1 => System(0, map[], idle, map[0 := Requested(k, 0, 10)], Waiting)
    case 2 => System(0, due, idle, map[0 := Accepted(k, 0, 10)], Waiting)
    case 3 => System(0, due, held, map[], Waiting)
    case 4 => System(0, due, held, map[1 := Requested(k, 0, 20)], Waiting)
    case 5 => System(0, due, held, map[], Waiting)
    case 6 => System(0, due, WorkQueue([k], {k}, {}, due), map[], Waiting)
    case 7 => System(0, due, WorkQueue([], {}, {k}, due), map[], Dequeued(k))
    case 8 => System(0, map[], WorkQueue([], {}, {k}, due), map[], Cleared(k))
    case 9 => System(0, map[], WorkQueue([], {}, {k}, due), map[], Running(k))
    case 10 => System(0, map[], held, map[], Waiting)
    case 11 => System(0, map[], held, map[2 := Requested(k, 0, 30)], Waiting)
    case 12 => System(0, map[k := 30], held, map[2 := Accepted(k, 0, 30)], Waiting)
    case 13 => System(0, map[k := 30], held, map[], Waiting)
    case 14 => System(10, map[k := 30], held, map[], Waiting)
    case 15 => System(10, map[k := 30], WorkQueue([k], {k}, {}, map[]), map[], Waiting)
    case 16 => System(10, map[k := 30], taken, map[], Dequeued(k))
    case 17 => System(10, map[], taken, map[], Cleared(k))
    case 18 => System(10, map[], taken, map[], Running(k))
    case 19 => System(10, map[], idle, map[], Waiting)
  }

  function ScenarioActions(k: string): (actions: seq<Action>)
    ensures |actions| == 19
  {
    [Request(0, k, 10), Decide(0), Arm(0), Request(1, k, 20), Decide(1),
     Enqueue(k), Take, ClearPending, StartReconcile, FinishReconcile, Request(2, k, 30), Decide(2), Arm(2),
     Tick(10), HeapFires(k), Take, ClearPending, StartReconcile, FinishReconcile]
  }

  lemma FirstSteps(k: string, i: nat)
    requires i < 5
    ensures var s, a := Scenario(k, i), ScenarioActions(k)[i]; Enabled(s, a, 0) && Scenario(k, i + 1) == Act(s, a, 0)
  {
    hide Add, Fire, Get, Done;
    match i
    case 0 => case 1 => case 2 => case 3 => case 4 =>
  }

  lemma MiddleSteps(k: string, i: nat)
    requires 5 <= i < 10
    ensures var s, a := Scenario(k, i), ScenarioActions(k)[i]; Enabled(s, a, 0) && Scenario(k, i + 1) == Act(s, a, 0)
  {
    match i
    case 5 => case 6 => case 7 => case 8 => case 9 =>
  }

  lemma LastSteps(k: string, i: nat)
    requires 10 <= i < 19
    ensures var s, a := Scenario(k, i), ScenarioActions(k)[i]; Enabled(s, a, 0) && Scenario(k, i + 1) == Act(s, a, 0)
  {
    match i
    case 10 => case 11 => case 12 => case 13 => case 14 => case 15 => case 16 => case 17 => case 18 =>
  }

  lemma ScenarioRuns(k: string) returns (states: seq<System>, actions: seq<Action>)
    ensures Execution(states, actions, 0) && actions == ScenarioActions(k)
    ensures forall i :: 0 <= i < 20 ==> states[i] == Scenario(k, i)
  {
    states := seq(20, i requires 0 <= i < 20 => Scenario(k, i));
    actions := ScenarioActions(k);
    forall i | 0 <= i < 19
      ensures Enabled(states[i], actions[i], 0) && states[i + 1] == Act(states[i], actions[i], 0)
    {
      if i < 5 { FirstSteps(k, i); } else if i < 10 { MiddleSteps(k, i); } else { LastSteps(k, i); }
      assert states[i] == Scenario(k, i) && states[i + 1] == Scenario(k, i + 1);
    }
  }

  /** Either test alone makes a later deadline vanish: in this execution the request for 20 is dropped
      by the pending deadline, the request for 30 is accepted and then swallowed by the delay heap,
      and the policy is asleep after its reconcile at 10. */
  lemma LaterDeadlineIsForgotten(k: string) returns (states: seq<System>, actions: seq<Action>)
    ensures Execution(states, actions, 0)
    ensures |actions| == 19
    ensures actions[4] == Decide(1) && states[4].handlers == map[1 := Requested(k, 0, 20)]
    ensures PendingBy(states[4], k, 20)
    ensures actions[12] == Arm(2) && states[12].handlers == map[2 := Accepted(k, 0, 30)]
    ensures HeldBefore(states[12], k, 30)
    ensures states[19].now < 20 && Asleep(states[19], k)
  {
    states, actions := ScenarioRuns(k);
    assert states[4] == Scenario(k, 4) && states[12] == Scenario(k, 12) && states[19] == Scenario(k, 19);
    assert Asleep(states[19], k);
  }
}

/** Runs of the closed loop, the invariant of every reachable Queue, and what one reconcile does to
    the ledger. */
module Runs {
  import opened Prelude
  import opened Api
  import opened Encoding
  import opened StateMachine
  import opened QueueLedger
  import opened Reconciler
  import opened HashCollisions
  import Rfc3339

  predicate StepAllowed(s: Step) {
    match s
    case OperatorEdit(e) => EditIsUnowned(e)
    case ForeignAffinity(_) => false
    case _ => true
  }

  ghost predicate AllApart(ps: set<SpillPolicy>) {
    forall p, p' :: p in ps && p' in ps ==> TellApart(p, p')
  }

  /** The policies name the same Queue, as successive versions of one policy do. */
  ghost predicate OneQueue(ps: set<SpillPolicy>) {
    forall p, p' :: p in ps && p' in ps ==> p.queueName == p'.queueName
  }

  /** One policy, whatever its names contain, and any policies whose names have no comma, qualify. */
  lemma ApartWhen(ps: set<SpillPolicy>)
    requires || (forall p, p' :: p in ps && p' in ps ==> p == p')
             || (forall p :: p in ps ==> GoodName(p.dedicated) && GoodName(p.overflow))
    ensures AllApart(ps)
  {
    forall p, p' | p in ps && p' in ps ensures TellApart(p, p') {
      if p == p' { SelfTellsApart(p); } else { GoodNamesTellApart(p, p'); }
    }
  }

  /** The clock is at least a second past Go's zero time and before the year 10000. */
  predicate ClockInRange(now: int) {
    SECOND <= now && Rfc3339.Writable(now)
  }

  /** A Queue that carries none of the controller's annotations, or no Queue at all. */
  predicate Fresh(q: Option<Queue>) {
    OwnedPart(q).annotations == map[]
  }

  /** A run: each step acts on the world that the steps before it left. */
  datatype Run = Run(env: Env, start: World, steps: seq<Step>) {

    function At(i: nat): World
      requires i <= |steps|
    {
      if i == 0 then start else After(env, true, At(i - 1), steps[i - 1])
    }

    /** The same steps when every reconcile applies. */
    function AtUngated(i: nat): World
      requires i <= |steps|
    {
      if i == 0 then start else After(env, false, AtUngated(i - 1), steps[i - 1])
    }

    /** The policies that the reconciles of the run work under. */
    function Policies(): set<SpillPolicy> {
      set i | 0 <= i < |steps| && steps[i].Reconcile? :: steps[i].policy
    }

    /** The reconciles serve one Queue, nobody else writes owned fields, and the clock is in range. */
    ghost predicate Sound() {
      && CollisionFree(env.sha)
      && OneQueue(Policies())
      && Fresh(start.queue)
      && ClockInRange(start.now)
      && forall i :: 0 <= i < |steps| ==> StepAllowed(steps[i]) && ClockInRange(At(i + 1).now)
    }

    /** Moreover, the hash can tell the policies apart. */
    ghost predicate Valid() {
      Sound() && AllApart(Policies())
    }

    function Ledger(i: nat): QueueLedger.Ledger
      requires i <= |steps|
    {
      QueueState(At(i).queue)
    }

    predicate IsReconcile(i: nat)
      requires i < |steps|
    {
      steps[i].Reconcile?
    }

    /** Step `i` is a reconcile that returned no error. */
    predicate Completed(i: nat)
      requires i < |steps|
    {
      steps[i].Reconcile? && !ReconcileOnce(env, true, At(i), steps[i].policy, steps[i].seen, steps[i].fault).1
    }

    /** Step `i` is a reconcile whose decision is in force afterwards: the gate closed or the write
        landed.  Every completed reconcile is one. */
    predicate TookEffect(i: nat)
      requires i < |steps|
    {
      && steps[i].Reconcile?
      && steps[i].fault != BuildFails
      && (steps[i].fault != WriteRefused || GateCloses(env, At(i), steps[i].policy, steps[i].seen))
    }

    /** The condition that reconcile `i` saw, for the state it found. */
    predicate SawCondition(i: nat)
      requires i < |steps| && IsReconcile(i)
    {
      Condition(Ledger(i).state, steps[i].policy, steps[i].seen)
    }

    function TransitionAt(i: nat): Transition
      requires i < |steps| && IsReconcile(i)
    {
      NextState(env.rnd, SnapshotOf(steps[i].policy, At(i).now, At(i).queue, steps[i].seen))
    }
  }

  // ---------- The invariant of reachable Queues ----------

  ghost predicate WrittenFor(sha: string -> string, q: Option<Queue>, p: SpillPolicy, state: State, since: int) {
    Rfc3339.Writable(since) && OwnedPart(q) == OwnedFor(sha, p, state, since)
  }

  /** The stored hash is absent, or is the hash of the stored state, affinity and stamp under one of
      the policies `ps`; the stamp is a whole second that is not in the future. */
  ghost predicate Reachable(sha: string -> string, ps: set<SpillPolicy>, w: World) {
    && (Fresh(w.queue) || exists p, state, since :: p in ps && WrittenFor(sha, w.queue, p, state, since))
    && 0 <= QueueState(w.queue).since <= w.now
    && QueueState(w.queue).since % SECOND == 0
  }

  lemma FreshLedger(q: Option<Queue>)
    requires Fresh(q)
    ensures QueueState(q) == QueueLedger.Ledger(Steady, 0, "")
  {
    LedgerIsOwned(q);
  }

  lemma WritableUpTo(t: int, now: int)
    requires 0 <= t <= now && Rfc3339.Writable(now)
    ensures Rfc3339.Writable(t)
  {
  }

  lemma FloorFacts(t: int)
    requires t >= 0
    ensures 0 <= Rfc3339.FloorSecond(t) <= t < Rfc3339.FloorSecond(t) + SECOND
    ensures Rfc3339.FloorSecond(t) % SECOND == 0
    ensures t >= SECOND ==> Rfc3339.FloorSecond(t) >= SECOND
    ensures t % SECOND == 0 ==> Rfc3339.FloorSecond(t) == t
    ensures Rfc3339.FloorSecond(0) == 0
  {
  }

  /** Owned fields with equal hashes are equal. */
  lemma HashDeterminesOwned(
      sha: string -> string, p: SpillPolicy, s: State, t: int, p': SpillPolicy, s': State, t': int)
    requires CollisionFree(sha) && TellApart(p, p') && Rfc3339.Writable(t) && Rfc3339.Writable(t')
    requires HashFor(sha, p, s, t) == HashFor(sha, p', s', t')
    ensures OwnedFor(sha, p, s, t) == OwnedFor(sha, p', s', t')
  {
    hide LexLe, Preimage, Rfc3339.Format, Rfc3339.Writable;
    AfterPrefix(HASH_PREFIX, sha(TextFor(p, s, t)), sha(TextFor(p', s', t')));
    assert TextFor(p, s, t) == TextFor(p', s', t');
    SameSince(t, t');
    assert MaterializeQueue(p, s, t).annotations == MaterializeQueue(p', s', t').annotations;
  }

  lemma StampOfTransition(rnd: real -> real, s: Snapshot)
    requires 0 <= s.conditionSince <= s.observedAt && s.conditionSince % SECOND == 0 && s.observedAt >= SECOND
    ensures var t := NextState(rnd, s).conditionSince; 0 <= t <= s.observedAt && (t == 0 || t >= SECOND)
  {
    var t := NextState(rnd, s).conditionSince;
    assert t == 0 || t == s.observedAt || t == s.conditionSince;
  }

  /** The transition's stamp is off, or a second the clock has reached. */
  lemma TransitionStamp(env: Env, w: World, p: SpillPolicy, seen: Observation)
    requires 0 <= QueueState(w.queue).since <= w.now && QueueState(w.queue).since % SECOND == 0 && ClockInRange(w.now)
    ensures var t := NextState(env.rnd, SnapshotOf(p, w.now, w.queue, seen));
            0 <= t.conditionSince <= w.now && Rfc3339.Writable(t.conditionSince)
            && (t.conditionSince == 0 || t.conditionSince >= SECOND)
  {
    var s := SnapshotOf(p, w.now, w.queue, seen);
    StampOfTransition(env.rnd, s);
    WritableUpTo(NextState(env.rnd, s).conditionSince, w.now);
  }

  lemma HashIsNotEmpty(sha: string -> string, s: State, a: Option<NodeGroupAffinity>, t: int)
    ensures DecisionHash(sha, s, a, t) != ""
  {
    assert |DecisionHash(sha, s, a, t)| >= |HASH_PREFIX| > 0;
  }

  /** A closed gate means that the Queue already is what the decision would write. */
  lemma ClosedGate(env: Env, ps: set<SpillPolicy>, w: World, p: SpillPolicy, seen: Observation)
    requires CollisionFree(env.sha) && AllApart(ps) && p in ps && Reachable(env.sha, ps, w) && ClockInRange(w.now)
    requires GateCloses(env, w, p, seen)
    ensures var t := NextState(env.rnd, SnapshotOf(p, w.now, w.queue, seen));
            w.queue.Some? && OwnedPart(w.queue) == OwnedFor(env.sha, p, t.nextState, t.conditionSince)
  {
    var s := SnapshotOf(p, w.now, w.queue, seen);
    var t := NextState(env.rnd, s);
    DecisionOwns(env, s);
    HashIsNotEmpty(env.sha, t.nextState, Some(NodeGroupAffinityFor(p, t.nextState)), t.conditionSince);
    if Fresh(w.queue) { FreshLedger(w.queue); }
    var p', s', t' :| p' in ps && WrittenFor(env.sha, w.queue, p', s', t');
    LedgerIsOwned(w.queue);
    LedgerRoundTrip(env.sha, p', s', t');
    TransitionStamp(env, w, p, seen);
    HashDeterminesOwned(env.sha, p, t.nextState, t.conditionSince, p', s', t');
  }

  /** A write makes the owned fields those of the decision. */
  lemma LandedWrite(env: Env, w: World, p: SpillPolicy, seen: Observation)
    ensures var t := NextState(env.rnd, SnapshotOf(p, w.now, w.queue, seen));
            var q' := Some(ServerSideApply(w.queue, PayloadOf(DecisionIn(env, w, p, seen))));
            && OwnedPart(q') == OwnedFor(env.sha, p, t.nextState, t.conditionSince)
            && UnownedPart(q') == UnownedPart(w.queue)
  {
    var s := SnapshotOf(p, w.now, w.queue, seen);
    var t := NextState(env.rnd, s);
    DecisionOwns(env, s);
    LedgerRoundTrip(env.sha, p, t.nextState, t.conditionSince);
    ApplyParts(w.queue, Evaluate(env, s));
  }

  /** Owned fields of a transition keep the invariant and read back as the transition, with the
      stamp cut to a whole second. */
  lemma OwnedIsReachable(
      sha: string -> string, ps: set<SpillPolicy>, w: World, p: SpillPolicy, state: State, since: int)
    requires p in ps && Rfc3339.Writable(since) && 0 <= since <= w.now
    requires OwnedPart(w.queue) == OwnedFor(sha, p, state, since)
    ensures Reachable(sha, ps, w)
    ensures QueueState(w.queue).state == state && QueueState(w.queue).since == Rfc3339.FloorSecond(since)
  {
    LedgerIsOwned(w.queue);
    LedgerRoundTrip(sha, p, state, since);
    FloorFacts(since);
    assert WrittenFor(sha, w.queue, p, state, since);
  }

  /** A reconcile that takes effect leaves the ledger of its transition. */
  lemma EffectOnLedger(r: Run, i: nat)
    requires r.Valid() && i < |r.steps| && r.TookEffect(i) && Reachable(r.env.sha, r.Policies(), r.At(i))
    ensures Reachable(r.env.sha, r.Policies(), r.At(i + 1))
    ensures r.Ledger(i + 1).state == r.TransitionAt(i).nextState
    ensures r.Ledger(i + 1).since == Rfc3339.FloorSecond(r.TransitionAt(i).conditionSince)
    ensures var t := r.TransitionAt(i).conditionSince; 0 <= t <= r.At(i).now && (t == 0 || t >= SECOND)
    ensures OwnedPart(r.At(i + 1).queue)
         == OwnedFor(r.env.sha, r.steps[i].policy, r.TransitionAt(i).nextState, r.TransitionAt(i).conditionSince)
  {
    ClockAt(r, i);
    var w, p, seen := r.At(i), r.steps[i].policy, r.steps[i].seen;
    assert p in r.Policies();
    TransitionStamp(r.env, w, p, seen);
    if GateCloses(r.env, w, p, seen) {
      ClosedGate(r.env, r.Policies(), w, p, seen);
    } else {
      LandedWrite(r.env, w, p, seen);
    }
    var t := r.TransitionAt(i);
    OwnedIsReachable(r.env.sha, r.Policies(), r.At(i + 1), p, t.nextState, t.conditionSince);
  }

  lemma ClockAt(r: Run, i: nat)
    requires r.Valid() && i <= |r.steps|
    ensures ClockInRange(r.At(i).now)
  {
    if i > 0 { assert ClockInRange(r.At((i - 1) + 1).now); }
  }

  /** Steps that are not effective reconciles leave the owned fields alone. */
  lemma NoEffectOnOwned(r: Run, i: nat)
    requires i < |r.steps| && StepAllowed(r.steps[i]) && !r.TookEffect(i)
    ensures OwnedPart(r.At(i + 1).queue) == OwnedPart(r.At(i).queue)
    ensures r.Ledger(i + 1) == r.Ledger(i)
    ensures r.At(i).now <= r.At(i + 1).now
  {
    if r.steps[i].OperatorEdit? { EditParts(r.At(i).queue, r.steps[i].edit); }
    LedgerIsOwned(r.At(i).queue); LedgerIsOwned(r.At(i + 1).queue);
  }

  lemma StartReachable(r: Run)
    requires r.Valid()
    ensures Reachable(r.env.sha, r.Policies(), r.At(0))
  {
    FreshLedger(r.start.queue);
  }

  lemma StepReachable(r: Run, i: nat)
    requires r.Valid() && i < |r.steps| && Reachable(r.env.sha, r.Policies(), r.At(i))
    ensures Reachable(r.env.sha, r.Policies(), r.At(i + 1))
  {
    hide Run.At, GateCloses, QueueState, Reachable;
    assert StepAllowed(r.steps[i]);
    if r.TookEffect(i) {
      EffectOnLedger(r, i);
    } else {
      NoEffectOnOwned(r, i);
      KeepsReachable(r.env.sha, r.Policies(), r.At(i), r.At(i + 1));
    }
  }

  /** Every Queue of every run satisfies the invariant. */
  lemma {:induction false} AllReachable(r: Run, i: nat)
    requires r.Valid() && i <= |r.steps|
    ensures Reachable(r.env.sha, r.Policies(), r.At(i))
  {
    hide Run.At, Reachable;
    if i == 0 {
      StartReachable(r);
    } else {
      AllReachable(r, i - 1);
      StepReachable(r, i - 1);
    }
  }

  lemma KeepsReachable(sha: string -> string, ps: set<SpillPolicy>, w: World, w': World)
    requires Reachable(sha, ps, w) && OwnedPart(w'.queue) == OwnedPart(w.queue) && w.now <= w'.now
    ensures Reachable(sha, ps, w')
  {
    LedgerIsOwned(w.queue); LedgerIsOwned(w'.queue);
    if !Fresh(w.queue) {
      var p, state, since :| p in ps && WrittenFor(sha, w.queue, p, state, since);
      assert WrittenFor(sha, w'.queue, p, state, since);
    }
  }

  /** The ledger after any step, in terms of the ledger before it. */
  lemma LedgerStep(r: Run, i: nat)
    requires r.Valid() && i < |r.steps|
    ensures r.At(i).now <= r.At(i + 1).now && r.At(i).now >= SECOND
    ensures !r.TookEffect(i) ==> r.Ledger(i + 1) == r.Ledger(i)
    ensures r.TookEffect(i) ==>
              var t := r.TransitionAt(i);
              && r.Ledger(i + 1).state == t.nextState
              && r.Ledger(i + 1).since == Rfc3339.FloorSecond(t.conditionSince)
              && 0 <= t.conditionSince <= r.At(i).now == r.At(i + 1).now
    ensures r.Ledger(i).since % SECOND == 0 && 0 <= r.Ledger(i).since <= r.At(i).now
  {
    AllReachable(r, i);
    ClockAt(r, i);
    if r.TookEffect(i) { EffectOnLedger(r, i); } else { assert StepAllowed(r.steps[i]); NoEffectOnOwned(r, i); }
  }

  lemma StartLedger(r: Run)
    requires r.Valid()
    ensures r.Ledger(0) == QueueLedger.Ledger(Steady, 0, "")
  {
    FreshLedger(r.start.queue);
  }

  lemma {:induction false} ClockAdvances(r: Run, i: nat, j: nat)
    requires i <= j <= |r.steps|
    ensures r.At(i).now <= r.At(j).now
  {
    if i == j {
    } else {
      ClockAdvances(r, i, j - 1);
    }
  }

  /** A run of policies for one Queue is sound if it starts without a Queue, nobody else writes owned
      fields, and the clock starts and ends in range. */
  lemma RunIsSound(r: Run)
    requires CollisionFree(r.env.sha) && OneQueue(r.Policies()) && r.start.queue == None
    requires forall i :: 0 <= i < |r.steps| ==> StepAllowed(r.steps[i])
    requires ClockInRange(r.start.now) && ClockInRange(r.At(|r.steps|).now)
    ensures r.Sound()
  {
    assert r.At(0) == r.start;
    hide Run.At, Rfc3339.Writable;
    forall i: nat | i <= |r.steps| ensures ClockInRange(r.At(i).now) {
      ClockAdvances(r, 0, i);
      ClockAdvances(r, i, |r.steps|);
      WritableUpTo(r.At(i).now, r.At(|r.steps|).now);
    }
  }

  /** Under one policy it is valid. */
  lemma OnePolicyRunIsValid(r: Run, p: SpillPolicy)
    requires CollisionFree(r.env.sha) && r.start.queue == None
    requires forall i :: 0 <= i < |r.steps| ==> StepAllowed(r.steps[i])
    requires forall i :: 0 <= i < |r.steps| && r.steps[i].Reconcile? ==> r.steps[i].policy == p
    requires ClockInRange(r.start.now) && ClockInRange(r.At(|r.steps|).now)
    ensures r.Valid()
  {
    hide Run.At, Rfc3339.Writable;
    assert forall q :: q in r.Policies() ==> q == p;
    ApartWhen(r.Policies());
    RunIsSound(r);
  }
}

/** What becomes of owned fields that someone else writes (docs/design.md:197 promises their repair): the
    affinity over whole runs; state, stamp and hash at the next reconcile. */
module Drift {
  import opened Prelude
  import opened Api
  import opened Encoding
  import opened StateMachine
  import opened QueueLedger
  import opened Reconciler
  import opened HashCollisions
  import opened Runs
  import opened HashGate
  import Rfc3339

  // ---------- Drift of the affinity ----------

  /** The same run without the writes of the affinity that someone else made. */
  function WithoutDrift(r: Run): Run {
    r.(steps := seq(|r.steps|, i requires 0 <= i < |r.steps| => Undrifted(r.steps[i])))
  }

  /** Step `i` writes the affinity of its decision. */
  predicate Lands(r: Run, i: nat)
    requires i < |r.steps|
  {
    && r.IsReconcile(i) && r.steps[i].fault != BuildFails && r.steps[i].fault != WriteRefused
    && !GateCloses(r.env, r.At(i), r.steps[i].policy, r.steps[i].seen)
  }

  /** Worlds that differ in the affinity of the Queue only. */
  predicate SameButAffinity(w: World, w': World) {
    && w.now == w'.now && w.applies == w'.applies
    && (w.queue.Some? <==> w'.queue.Some?)
    && (w.queue.Some? ==> w.queue.value.(affinity := None) == w'.queue.value.(affinity := None))
  }

  /** Nothing but a write that lands looks at the affinity, and that one overwrites it. */
  lemma AffinityIsNotRead(env: Env, w: World, w': World, s: Step)
    requires SameButAffinity(w, w') && !s.ForeignAffinity?
    ensures SameButAffinity(After(env, true, w, s), After(env, true, w', s))
    ensures s.Reconcile? ==>
              && DecisionIn(env, w, s.policy, s.seen) == DecisionIn(env, w', s.policy, s.seen)
              && (GateCloses(env, w, s.policy, s.seen) <==> GateCloses(env, w', s.policy, s.seen))
    ensures var lands := s.Reconcile? && s.fault != BuildFails && s.fault != WriteRefused
                         && !GateCloses(env, w', s.policy, s.seen);
            && (lands ==>
                  After(env, true, w, s).queue.Some?
                  && AffinityOf(After(env, true, w, s)) == AffinityOf(After(env, true, w', s)))
            && (!lands ==> AffinityOf(After(env, true, w, s)) == AffinityOf(w))
    ensures w.queue.Some? ==> After(env, true, w, s).queue.Some?
  {
    hide Evaluate;
    if s.Reconcile? {
      assert SnapshotOf(s.policy, w.now, w.queue, s.seen) == SnapshotOf(s.policy, w'.now, w'.queue, s.seen);
    }
  }

  function Undrifted(s: Step): Step {
    if s.ForeignAffinity? then Tick(0) else s
  }

  lemma DriftStep(env: Env, w: World, w': World, s: Step)
    requires SameButAffinity(w, w')
    ensures SameButAffinity(After(env, true, w, s), After(env, true, w', Undrifted(s)))
  {
    hide ReconcileOnce;
    if s.ForeignAffinity? {
    } else {
      AffinityIsNotRead(env, w, w', s);
    }
  }

  /** A foreign write of the affinity changes nothing else, ever: not a decision, not the number of
      Apply calls, not the rest of the Queue. */
  lemma {:induction false} DriftIsInvisible(r: Run, i: nat)
    requires i <= |r.steps|
    ensures SameButAffinity(r.At(i), WithoutDrift(r).At(i))
  {
    hide After, SameButAffinity;
    if i == 0 {
      SameWorld(r.start);
    } else {
      DriftIsInvisible(r, i - 1);
      DriftStep(r.env, r.At(i - 1), WithoutDrift(r).At(i - 1), r.steps[i - 1]);
    }
  }

  lemma SameWorld(w: World)
    ensures SameButAffinity(w, w)
  {
  }

  /** Between the steps k and n, nobody else writes the affinity. */
  predicate NoDriftBetween(r: Run, k: nat, n: nat)
    requires n <= |r.steps|
  {
    forall m :: k < m < n ==> !r.steps[m].ForeignAffinity?
  }

  ghost predicate LandsBetween(r: Run, k: nat, n: nat)
    requires n <= |r.steps|
  {
    exists m :: k < m < n && Lands(r, m)
  }

  lemma LandsBetweenNext(r: Run, k: nat, n: nat)
    requires k + 1 < n <= |r.steps|
    ensures LandsBetween(r, k, n) <==> LandsBetween(r, k, n - 1) || Lands(r, n - 1)
  {
  }

  /** One more step after the drift: it lands and overwrites the affinity, or leaves it. */
  lemma DriftNext(r: Run, m: nat)
    requires m < |r.steps| && !r.steps[m].ForeignAffinity? && r.At(m).queue.Some?
    ensures r.At(m + 1).queue.Some?
    ensures var quiet := WithoutDrift(r);
            if Lands(quiet, m) then AffinityOf(r.At(m + 1)) == AffinityOf(quiet.At(m + 1))
            else AffinityOf(r.At(m + 1)) == AffinityOf(r.At(m))
                 && AffinityOf(quiet.At(m + 1)) == AffinityOf(quiet.At(m))
  {
    hide ReconcileOnce, GateCloses, SameButAffinity, AffinityOf;
    var quiet := WithoutDrift(r);
    DriftIsInvisible(r, m);
    SameWorld(quiet.At(m));
    AffinityIsNotRead(r.env, r.At(m), quiet.At(m), r.steps[m]);
    AffinityIsNotRead(r.env, quiet.At(m), quiet.At(m), r.steps[m]);
    assert quiet.steps[m] == r.steps[m];
  }

  lemma NothingLandsAtOnce(r: Run, k: nat)
    requires k < |r.steps|
    ensures !LandsBetween(r, k, k + 1)
  {
  }

  lemma DriftStarts(r: Run, k: nat)
    requires k < |r.steps| && r.steps[k].ForeignAffinity? && r.At(k).queue.Some?
    ensures r.At(k + 1).queue.Some? && AffinityOf(r.At(k + 1)) == r.steps[k].affinity
  {
    hide ReconcileOnce;
    assert r.At(k + 1) == After(r.env, true, r.At(k), r.steps[k]);
  }

  /** A foreign affinity stays until the first later write, which puts back what would be there. */
  lemma {:induction false} DriftLasts(r: Run, k: nat, n: nat)
    requires k < n <= |r.steps| && r.steps[k].ForeignAffinity? && r.At(k).queue.Some? && NoDriftBetween(r, k, n)
    ensures var quiet := WithoutDrift(r);
            && r.At(n).queue.Some?
            && AffinityOf(r.At(n)) == if LandsBetween(quiet, k, n) then AffinityOf(quiet.At(n)) else r.steps[k].affinity
  {
    hide Run.At, Lands, LandsBetween, AffinityOf;
    if n == k + 1 {
      DriftStarts(r, k);
      NothingLandsAtOnce(WithoutDrift(r), k);
    } else {
      DriftLasts(r, k, n - 1);
      DriftNext(r, n - 1);
      LandsBetweenNext(WithoutDrift(r), k, n);
    }
  }

  /** In an error-free run: the first reconcile, a changed condition, or a flip. */
  predicate Writes(r: Run, i: nat)
    requires i < |r.steps|
  {
    && r.IsReconcile(i)
    && (LastSeen(r, i) == None || ConditionChanged(r, i) || r.Ledger(i + 1).state != r.Ledger(i).state)
  }

  lemma {:induction false} SeenSince(r: Run, m: nat, n: nat)
    requires m < n <= |r.steps| && r.IsReconcile(m)
    ensures LastSeen(r, n).Some?
  {
    if n == m + 1 {
    } else {
      SeenSince(r, m, n - 1);
      SeenStays(r, n - 1);
    }
  }

  /** When an affinity that someone else wrote at step k is right again at step n: exactly when it was
      right for the state at n to begin with, or a reconcile in between was the first, saw another
      condition than the one before, or flipped.  Reconciles alone never repair it. */
  lemma DriftIsRepairedWhen(r: Run, k: nat, n: nat, p: SpillPolicy)
    requires WithoutDrift(r).Valid() && ErrorFree(WithoutDrift(r), p)
    requires k < n <= |r.steps| && r.steps[k].ForeignAffinity? && r.At(k).queue.Some? && NoDriftBetween(r, k, n)
    ensures var quiet := WithoutDrift(r);
            var right := Some(NodeGroupAffinityFor(p, r.Ledger(n).state));
            AffinityOf(r.At(n)) == right <==> r.steps[k].affinity == right || exists m :: k < m < n && Writes(quiet, m)
  {
    hide Run.At, GateCloses, LastSeen, QueueState;
    var quiet := WithoutDrift(r);
    DriftLasts(r, k, n);
    DriftIsInvisible(r, n);
    SameLedger(r.At(n), quiet.At(n));
    forall m: nat | k < m < n && quiet.IsReconcile(m) ensures Lands(quiet, m) <==> Writes(quiet, m) {
      WritesWhen(quiet, m, p);
    }
    if m :| k < m < n && Lands(quiet, m) {
      assert Writes(quiet, m);
      SeenSince(quiet, m, n);
      RightOnceSeen(quiet, n, p);
    } else {
      assert forall m :: k < m < n ==> !Writes(quiet, m);
    }
  }

  lemma SameLedger(w: World, w': World)
    requires SameButAffinity(w, w')
    ensures QueueState(w.queue) == QueueState(w'.queue)
  {
  }

  lemma RightOnceSeen(r: Run, n: nat, p: SpillPolicy)
    requires r.Valid() && n <= |r.steps| && ErrorFree(r, p) && LastSeen(r, n).Some?
    ensures AffinityOf(r.At(n)) == Some(NodeGroupAffinityFor(p, r.Ledger(n).state))
  {
    hide Run.At, QueueState, LastSeen;
    LedgerMirrorsLast(r, n, p);
    HashIsNotEmpty(r.env.sha, r.Ledger(n).state, Some(NodeGroupAffinityFor(p, r.Ledger(n).state)), r.Ledger(n).since);
    if Fresh(r.At(n).queue) { FreshLedger(r.At(n).queue); }
    AffinityFollowsState(r, n, p);
  }

  /** A run in which the drift is not repaired: reconcile, drift, and reconcile again as often as one
      likes, with nothing to do. */
  function DriftRun(env: Env, p: SpillPolicy, calm: Observation, a: Option<NodeGroupAffinity>, now: int, k: nat): Run {
    Run(env, World(now, None, 0),
        [Reconcile(p, calm, NoFault), ForeignAffinity(a)] + seq(k, _ => Reconcile(p, calm, NoFault)))
  }

  /** As long as no reconcile sees the Steady condition, nothing changes. */
  lemma {:induction false} CalmStays(r: Run, i: nat, p: SpillPolicy)
    requires r.Valid() && i <= |r.steps| && ErrorFree(r, p)
    requires forall j :: 0 <= j < |r.steps| && r.IsReconcile(j) ==> !Condition(Steady, p, r.steps[j].seen)
    ensures r.Ledger(i).state == Steady && LastSeen(r, i) != Some(true)
  {
    hide Run.At, GateCloses, QueueState, Rfc3339.FloorSecond;
    if i == 0 {
      StartLedger(r);
    } else {
      CalmStays(r, i - 1, p);
      LedgerStep(r, i - 1);
    }
  }

  /** Without a Queue the gate is open. */
  lemma MissingQueueOpensGate(env: Env, w: World, p: SpillPolicy, seen: Observation)
    requires w.queue == None
    ensures !GateCloses(env, w, p, seen)
  {
    var s := SnapshotOf(p, w.now, w.queue, seen);
    DecisionOwns(env, s);
    var t := NextState(env.rnd, s);
    HashIsNotEmpty(env.sha, t.nextState, Some(NodeGroupAffinityFor(p, t.nextState)), t.conditionSince);
  }

  lemma FirstReconcileWrites(r: Run, p: SpillPolicy, calm: Observation)
    requires |r.steps| > 0 && r.start.queue == None && r.steps[0] == Reconcile(p, calm, NoFault)
    ensures r.At(1).queue.Some?
  {
    hide GateCloses, Evaluate;
    MissingQueueOpensGate(r.env, r.start, p, calm);
    assert r.At(1) == After(r.env, true, r.At(0), r.steps[0]);
  }

  lemma {:induction false} ClockStands(r: Run, i: nat)
    requires i <= |r.steps| && forall j :: 0 <= j < |r.steps| ==> r.steps[j].Reconcile? || r.steps[j] == Tick(0)
    ensures r.At(i).now == r.start.now
  {
    hide GateCloses, DecisionIn;
    if i == 0 {
    } else {
      ClockStands(r, i - 1);
    }
  }

  lemma QuietRunSteps(env: Env, p: SpillPolicy, calm: Observation, a: Option<NodeGroupAffinity>, now: int, k: nat)
    ensures var r := DriftRun(env, p, calm, a, now, k); var quiet := WithoutDrift(r);
            && |r.steps| == |quiet.steps| == k + 2 && r.env == quiet.env == env
            && r.start == quiet.start == World(now, None, 0)
            && r.steps[0] == Reconcile(p, calm, NoFault) && r.steps[1] == ForeignAffinity(a)
            && (forall i :: 0 <= i < k + 2 ==>
                  quiet.steps[i] == Reconcile(p, calm, NoFault) || quiet.steps[i] == Tick(0))
            && (forall i :: 2 <= i < k + 2 ==> r.steps[i] == Reconcile(p, calm, NoFault))
  {
  }

  lemma DriftRunIsValid(env: Env, p: SpillPolicy, calm: Observation, a: Option<NodeGroupAffinity>, now: int, k: nat)
    requires CollisionFree(env.sha) && ClockInRange(now)
    ensures var r := DriftRun(env, p, calm, a, now, k);
            WithoutDrift(r).Valid() && ErrorFree(WithoutDrift(r), p) && r.At(1).queue.Some?
  {
    hide Rfc3339.Writable, Run.At, Run.Valid, DriftRun, WithoutDrift;
    QuietRunSteps(env, p, calm, a, now, k);
    var r := DriftRun(env, p, calm, a, now, k);
    ClockStands(WithoutDrift(r), |r.steps|);
    OnePolicyRunIsValid(WithoutDrift(r), p);
    FirstReconcileWrites(r, p, calm);
  }

  /** However many reconciles follow, the wrong affinity is still there. */
  lemma DriftSurvives(env: Env, p: SpillPolicy, calm: Observation, a: Option<NodeGroupAffinity>, now: int, k: nat)
    requires CollisionFree(env.sha) && ClockInRange(now) && !Condition(Steady, p, calm)
    ensures var r := DriftRun(env, p, calm, a, now, k);
            && |r.steps| == k + 2 && WithoutDrift(r).Valid()
            && AffinityOf(r.At(k + 2)) == a && r.Ledger(k + 2).state == Steady
  {
    hide Run.At, GateCloses, QueueState, Run.Valid;
    var r := DriftRun(env, p, calm, a, now, k);
    var quiet := WithoutDrift(r);
    DriftRunIsValid(env, p, calm, a, now, k);
    DriftLasts(r, 1, k + 2);
    DriftIsInvisible(r, k + 2);
    SameLedger(r.At(k + 2), quiet.At(k + 2));
    CalmStays(quiet, k + 2, p);
    forall m: nat | 1 < m < k + 2 ensures !Lands(quiet, m) {
      CalmStays(quiet, m, p); CalmStays(quiet, m + 1, p);
      SeenSince(quiet, 0, m);
      WritesWhen(quiet, m, p);
    }
  }

  // ---------- Drift of the ledger ----------

  /** Someone else changed state or stamp and left the hash, which was current: the next reconcile never
      puts them back.  It either adopts what it finds and goes on from there, or, when that leads where
      the Queue had been, leaves the changed ledger as it is. */
  lemma LedgerDriftIsAdopted(env: Env, w: World, p: SpillPolicy, seen: Observation, l: Ledger)
    requires CollisionFree(env.sha) && ClockInRange(w.now) && HashIsCurrent(env.sha, p, l)
    requires Rfc3339.Writable(l.since) && l.since % SECOND == 0
    requires var found := QueueState(w.queue);
             && found.hash == l.hash && (found.state != l.state || found.since != l.since)
             && Rfc3339.Writable(found.since) && (found.since == 0 || found.since >= SECOND)
    ensures var after := QueueState(ReconcileOnce(env, true, w, p, seen, NoFault).0.queue);
            after.state != l.state || after.since != l.since
  {
    hide Rfc3339.Writable, HashFor, QueueState, ReconcileOnce, Condition, CooldownFor, Evaluate, Rfc3339.FloorSecond;
    var t := NextState(env.rnd, SnapshotOf(p, w.now, w.queue, seen));
    ZeroIsWritable();
    DecidedHash(env, w, p, seen);
    assert GateCloses(env, w, p, seen) <==> DecisionIn(env, w, p, seen).hash == QueueState(w.queue).hash;
    hide GateCloses;
    OwnHashIff(env.sha, p, t.nextState, t.conditionSince, l.state, l.since);
    FloorOfWhole(l.since);
    FloorIsZero(t.conditionSince);
    LedgerAfter(env, w, p, seen);
  }

  /** A reconcile without a fault leaves the transition's ledger, or everything as it was. */
  lemma LedgerAfter(env: Env, w: World, p: SpillPolicy, seen: Observation)
    requires Rfc3339.Writable(NextState(env.rnd, SnapshotOf(p, w.now, w.queue, seen)).conditionSince)
    ensures var t := NextState(env.rnd, SnapshotOf(p, w.now, w.queue, seen));
            var after := ReconcileOnce(env, true, w, p, seen, NoFault).0.queue;
            if GateCloses(env, w, p, seen) then after == w.queue
            else QueueState(after).state == t.nextState
                 && QueueState(after).since == Rfc3339.FloorSecond(t.conditionSince)
  {
    hide Rfc3339.Writable, NextState, Rfc3339.FloorSecond, OwnedFor, DecodeAnnotations;
    var t := NextState(env.rnd, SnapshotOf(p, w.now, w.queue, seen));
    if !GateCloses(env, w, p, seen) {
      LandedWrite(env, w, p, seen);
      LedgerIsOwned(ReconcileOnce(env, true, w, p, seen, NoFault).0.queue);
      LedgerRoundTrip(env.sha, p, t.nextState, t.conditionSince);
    }
  }

  lemma ZeroIsWritable()
    ensures Rfc3339.Writable(0)
  {
  }

  lemma DecidedHash(env: Env, w: World, p: SpillPolicy, seen: Observation)
    ensures var t := NextState(env.rnd, SnapshotOf(p, w.now, w.queue, seen));
            DecisionIn(env, w, p, seen).hash == HashFor(env.sha, p, t.nextState, t.conditionSince)
  {
    DecisionOwns(env, SnapshotOf(p, w.now, w.queue, seen));
  }

  lemma FloorOfWhole(t: int)
    requires t % SECOND == 0
    ensures Rfc3339.FloorSecond(t) == t
  {
  }

  lemma FloorIsZero(t: int)
    requires t == 0 || t >= SECOND
    ensures Rfc3339.FloorSecond(t) == 0 <==> t == 0
  {
  }

  function WithHash(w: World, h: string): World {
    match w.queue
    case Some(q) => w.(queue := Some(q.(annotations := q.annotations[HASH_KEY := h])))
    case None => w
  }

  lemma ForgedLedger(w: World, h: string)
    requires w.queue.Some?
    ensures QueueState(WithHash(w, h).queue) == QueueState(w.queue).(hash := h)
    ensures WithHash(w, h).queue.value.annotations - OWNED_KEYS == w.queue.value.annotations - OWNED_KEYS
  {
    OwnedKeysDiffer();
    var a := w.queue.value.annotations;
    assert Lookup(a[HASH_KEY := h], STATE_KEY) == Lookup(a, STATE_KEY);
    assert Lookup(a[HASH_KEY := h], SINCE_KEY) == Lookup(a, SINCE_KEY);
    assert Lookup(a[HASH_KEY := h], HASH_KEY) == h;
  }

  lemma EvaluateIgnoresHash(env: Env, s: Snapshot, h: string)
    ensures Evaluate(env, s.(decisionHash := h)) == Evaluate(env, s)
  {
    hide DecisionHash, MaterializeQueue;
    assert NextState(env.rnd, s.(decisionHash := h)) == NextState(env.rnd, s);
  }

  lemma HashIsNotDecided(env: Env, w: World, p: SpillPolicy, seen: Observation, h: string)
    requires w.queue.Some?
    ensures DecisionIn(env, WithHash(w, h), p, seen) == DecisionIn(env, w, p, seen)
    ensures GateCloses(env, WithHash(w, h), p, seen) <==> DecisionIn(env, w, p, seen).hash == h
    ensures ReconcileOnce(env, false, WithHash(w, h), p, seen, NoFault).0.queue
         == ReconcileOnce(env, false, w, p, seen, NoFault).0.queue
  {
    hide Evaluate, QueueState;
    ForgedLedger(w, h);
    EvaluateIgnoresHash(env, SnapshotOf(p, w.now, w.queue, seen), h);
  }

  lemma SameHashSameQueue(w: World, h: string)
    requires w.queue.Some? && h != "" && h == QueueState(w.queue).hash
    ensures WithHash(w, h) == w
  {
    assert HASH_KEY in w.queue.value.annotations;
    assert w.queue.value.annotations[HASH_KEY := h] == w.queue.value.annotations;
  }

  /** The owned fields show, beside the hash, all that goes into it. */
  lemma OwnedShowsHash(sha: string -> string, p: SpillPolicy, s: State, t: int, p': SpillPolicy, s': State, t': int)
    requires Rfc3339.Writable(t) && Rfc3339.Writable(t')
    requires OwnedFor(sha, p, s, t).annotations - {HASH_KEY} == OwnedFor(sha, p', s', t').annotations - {HASH_KEY}
    requires OwnedFor(sha, p, s, t).affinity == OwnedFor(sha, p', s', t').affinity
    ensures HashFor(sha, p, s, t) == HashFor(sha, p', s', t')
  {
    hide Rfc3339.Format, Rfc3339.Writable, Preimage, LexLe, NodeGroupAffinityFor, StateName;
    OwnedKeysDiffer();
    var a, a' := OwnedFor(sha, p, s, t).annotations, OwnedFor(sha, p', s', t').annotations;
    var b := a - {HASH_KEY};
    assert StateName(s) == a[STATE_KEY] == b[STATE_KEY] == a'[STATE_KEY] == StateName(s');
    StateRoundTrip(s); StateRoundTrip(s');
    assert SINCE_KEY in a <==> SINCE_KEY in b;
    assert SINCE_KEY in a' <==> SINCE_KEY in b;
    if SINCE_KEY in b { assert a[SINCE_KEY] == b[SINCE_KEY] == a'[SINCE_KEY]; }
    assert FormatSince(t) == FormatSince(t');
    SinceInHash(sha, s, Some(NodeGroupAffinityFor(p, s)), t, t');
  }

  lemma SinceInHash(sha: string -> string, s: State, a: Option<NodeGroupAffinity>, t: int, t': int)
    requires FormatSince(t) == FormatSince(t')
    ensures DecisionHash(sha, s, a, t) == DecisionHash(sha, s, a, t')
  {
  }

  /** A hash that was forged to that of the coming decision suppresses a write that changes the Queue. */
  lemma SuppressedWrite(env: Env, ps: set<SpillPolicy>, w: World, p: SpillPolicy, seen: Observation, h: string)
    requires p in ps && Reachable(env.sha, ps, w) && ClockInRange(w.now) && w.queue.Some?
    requires h == DecisionIn(env, w, p, seen).hash != QueueState(w.queue).hash
    ensures WithHash(w, h).queue != ReconcileOnce(env, true, w, p, seen, NoFault).0.queue
  {
    hide Rfc3339.Writable, OwnedFor, HashFor, QueueState, NextState, OwnedPart, WithHash, Evaluate, Reachable;
    var t := NextState(env.rnd, SnapshotOf(p, w.now, w.queue, seen));
    LandedWrite(env, w, p, seen);
    ReachableStamp(env.sha, ps, w);
    TransitionStamp(env, w, p, seen);
    DecidedHash(env, w, p, seen);
    HashChangesHash(w, h);
    if OwnedPart(WithHash(w, h).queue) == OwnedFor(env.sha, p, t.nextState, t.conditionSince) {
      OwnedHasState(env.sha, p, t.nextState, t.conditionSince);
      var p', s', t' := WrittenBy(env.sha, ps, w);
      OwnedShowsHash(env.sha, p, t.nextState, t.conditionSince, p', s', t');
    }
  }

  lemma ReachableStamp(sha: string -> string, ps: set<SpillPolicy>, w: World)
    requires Reachable(sha, ps, w)
    ensures 0 <= QueueState(w.queue).since <= w.now && QueueState(w.queue).since % SECOND == 0
  {
  }

  lemma WrittenBy(sha: string -> string, ps: set<SpillPolicy>, w: World) returns (p: SpillPolicy, s: State, t: int)
    requires Reachable(sha, ps, w) && !Fresh(w.queue)
    ensures p in ps && Rfc3339.Writable(t) && OwnedPart(w.queue) == OwnedFor(sha, p, s, t)
    ensures QueueState(w.queue).hash == HashFor(sha, p, s, t)
  {
    hide OwnedFor, Rfc3339.Writable, DecodeAnnotations;
    p, s, t :| p in ps && WrittenFor(sha, w.queue, p, s, t);
    LedgerIsOwned(w.queue);
    LedgerRoundTrip(sha, p, s, t);
    AffinityOwned(sha, p, s, t);
  }

  lemma AffinityOwned(sha: string -> string, p: SpillPolicy, s: State, t: int)
    ensures OwnedFor(sha, p, s, t).affinity == Some(NodeGroupAffinityFor(p, s))
  {
  }

  lemma HashChangesHash(w: World, h: string)
    requires w.queue.Some?
    ensures OwnedPart(WithHash(w, h).queue).annotations - {HASH_KEY} == OwnedPart(w.queue).annotations - {HASH_KEY}
    ensures OwnedPart(WithHash(w, h).queue).affinity == OwnedPart(w.queue).affinity
    ensures Fresh(w.queue) ==> STATE_KEY !in OwnedPart(WithHash(w, h).queue).annotations
  {
    OwnedKeysDiffer();
    assert Fresh(w.queue) ==> STATE_KEY !in OwnedOf(w.queue.value.annotations);
  }

  lemma OwnedHasState(sha: string -> string, p: SpillPolicy, s: State, t: int)
    ensures STATE_KEY in OwnedFor(sha, p, s, t).annotations
    ensures HASH_KEY in OwnedFor(sha, p, s, t).annotations
    ensures OwnedFor(sha, p, s, t).annotations[HASH_KEY] == HashFor(sha, p, s, t)
  {
    OwnedKeysDiffer();
  }

  /** Someone else changed the hash: the next reconcile leaves what it would have left anyway, unless the
      new hash happens to be that of the coming decision and so suppresses a write that is due. */
  lemma HashDriftIsRepairedIff(env: Env, ps: set<SpillPolicy>, w: World, p: SpillPolicy, seen: Observation, h: string)
    requires CollisionFree(env.sha) && AllApart(ps) && p in ps && Reachable(env.sha, ps, w) && ClockInRange(w.now)
    requires w.queue.Some?
    ensures ReconcileOnce(env, true, WithHash(w, h), p, seen, NoFault).0.queue
         == ReconcileOnce(env, true, w, p, seen, NoFault).0.queue
       <==> h != DecisionIn(env, w, p, seen).hash || h == QueueState(w.queue).hash
  {
    hide Reachable, Evaluate, OwnedFor, Rfc3339.Writable;
    HashIsNotDecided(env, w, p, seen, h);
    GatedReconcileRefines(env, ps, w, p, seen, NoFault);
    if h == DecisionIn(env, w, p, seen).hash {
      DecisionOwns(env, SnapshotOf(p, w.now, w.queue, seen));
      if h == QueueState(w.queue).hash { SameHashSameQueue(w, h); } else { SuppressedWrite(env, ps, w, p, seen, h); }
    }
  }
}

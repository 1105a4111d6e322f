/** What the hash gate and field ownership promise over whole runs: the gate changes nothing but the
    number of writes, that number is exact, the affinity follows the state, and operators and
    controller do not disturb each other. */
module HashGate {
  import opened Prelude
  import opened Api
  import opened Encoding
  import opened StateMachine
  import opened QueueLedger
  import opened Reconciler
  import opened HashCollisions
  import opened Runs
  import opened CooldownGuarantees
  import Rfc3339

  // ---------- The gate is a refinement ----------

  /** On a reachable Queue, a gated reconcile leaves the very Queue that applying would leave. */
  lemma GatedReconcileRefines(
      env: Env, ps: set<SpillPolicy>, w: World, p: SpillPolicy, seen: Observation, fault: Fault)
    requires CollisionFree(env.sha) && AllApart(ps) && p in ps && Reachable(env.sha, ps, w) && ClockInRange(w.now)
    ensures ReconcileOnce(env, true, w, p, seen, fault).0.queue == ReconcileOnce(env, false, w, p, seen, fault).0.queue
  {
    if GateCloses(env, w, p, seen) {
      ClosedGate(env, ps, w, p, seen);
      var s := SnapshotOf(p, w.now, w.queue, seen);
      DecisionOwns(env, s);
      LedgerRoundTrip(env.sha, p, NextState(env.rnd, s).nextState, NextState(env.rnd, s).conditionSince);
      ApplyIsIdempotent(w.queue.value, Evaluate(env, s));
    }
  }

  /** What a reconcile does to the Queue does not depend on how often Apply was called before. */
  lemma AppliesDoNotMatter(env: Env, gated: bool, w: World, w': World, s: Step)
    requires w.now == w'.now && w.queue == w'.queue
    ensures After(env, gated, w, s).now == After(env, gated, w', s).now
    ensures After(env, gated, w, s).queue == After(env, gated, w', s).queue
  {
    hide Evaluate, QueueState, ServerSideApply, EditQueue;
  }

  /** Skipping the writes that the gate skips changes no Queue of any run. */
  lemma {:induction false} GateRefines(r: Run, i: nat)
    requires r.Valid() && i <= |r.steps|
    ensures r.At(i).now == r.AtUngated(i).now && r.At(i).queue == r.AtUngated(i).queue
  {
    if i == 0 {
    } else {
      GateRefines(r, i - 1);
      var s := r.steps[i - 1];
      AppliesDoNotMatter(r.env, false, r.At(i - 1), r.AtUngated(i - 1), s);
      if s.Reconcile? {
        AllReachable(r, i - 1);
        ClockAt(r, i - 1);
        assert s.policy in r.Policies();
        GatedReconcileRefines(r.env, r.Policies(), r.At(i - 1), s.policy, s.seen, s.fault);
      }
    }
  }

  // ---------- The number of writes ----------

  ghost predicate ErrorFree(r: Run, p: SpillPolicy) {
    forall i :: 0 <= i < |r.steps| && r.IsReconcile(i) ==> r.steps[i].policy == p && r.steps[i].fault == NoFault
  }

  /** The condition that the last reconcile before step `i` saw. */
  function LastSeen(r: Run, i: nat): Option<bool>
    requires i <= |r.steps|
  {
    if i == 0 then None
    else if r.IsReconcile(i - 1) then Some(r.SawCondition(i - 1))
    else LastSeen(r, i - 1)
  }

  /** Step `i` is a reconcile that saw another condition than the one before it. */
  predicate ConditionChanged(r: Run, i: nat)
    requires i < |r.steps|
  {
    r.IsReconcile(i) && LastSeen(r, i).Some? && LastSeen(r, i).value != r.SawCondition(i)
  }

  /** How often two consecutive reconciles before step `i` saw different conditions. */
  function ConditionChanges(r: Run, i: nat): nat
    requires i <= |r.steps|
  {
    if i == 0 then 0 else
    ConditionChanges(r, i - 1) + (if ConditionChanged(r, i - 1) then 1 else 0)
  }

  /** Under one policy, hashes agree exactly when state and whole-second stamp do. */
  lemma OwnHashIff(sha: string -> string, p: SpillPolicy, s: State, t: int, s': State, t': int)
    requires CollisionFree(sha) && Rfc3339.Writable(t) && Rfc3339.Writable(t')
    ensures HashFor(sha, p, s, t) == HashFor(sha, p, s', t') <==>
              s == s' && (t == 0 <==> t' == 0) && Rfc3339.FloorSecond(t) == Rfc3339.FloorSecond(t')
  {
    hide LexLe, Rfc3339.Format, Rfc3339.Writable, AffinityText;
    SelfTellsApart(p);
    SameSince(t, t');
    AfterPrefix(HASH_PREFIX, sha(TextFor(p, s, t)), sha(TextFor(p, s', t')));
  }

  /** The hash on the Queue is that of its own state and stamp under `p`. */
  predicate HashIsCurrent(sha: string -> string, p: SpillPolicy, l: Ledger) {
    l.hash == HashFor(sha, p, l.state, l.since)
  }

  lemma HashOfFloor(sha: string -> string, s: State, a: Option<NodeGroupAffinity>, t: int)
    requires Rfc3339.Writable(t) && (t == 0 || t >= SECOND)
    ensures DecisionHash(sha, s, a, t) == DecisionHash(sha, s, a, Rfc3339.FloorSecond(t))
  {
    Rfc3339.Reformat(t);
    if t >= SECOND { FloorFacts(t); } else { FloorFacts(0); }
  }

  lemma AppliedLedger(r: Run, i: nat, p: SpillPolicy)
    requires r.Valid() && i < |r.steps| && r.TookEffect(i) && r.steps[i].policy == p
    ensures HashIsCurrent(r.env.sha, p, r.Ledger(i + 1))
  {
    AllReachable(r, i);
    ClockAt(r, i);
    EffectOnLedger(r, i);
    var t := r.TransitionAt(i);
    WritableUpTo(t.conditionSince, r.At(i).now);
    LedgerIsOwned(r.At(i + 1).queue);
    LedgerRoundTrip(r.env.sha, p, t.nextState, t.conditionSince);
    HashOfFloor(r.env.sha, t.nextState, Some(NodeGroupAffinityFor(p, t.nextState)), t.conditionSince);
  }

  /** Between reconciles the ledger mirrors the last one: nothing yet, or a current hash and a timer
      that runs exactly when the last condition was true. */
  lemma {:induction false} LedgerMirrorsLast(r: Run, i: nat, p: SpillPolicy)
    requires r.Valid() && i <= |r.steps| && ErrorFree(r, p)
    ensures LastSeen(r, i) == None ==> r.Ledger(i) == QueueLedger.Ledger(Steady, 0, "")
    ensures LastSeen(r, i).Some? ==>
              HashIsCurrent(r.env.sha, p, r.Ledger(i)) && (r.Ledger(i).since != 0 <==> LastSeen(r, i).value)
  {
    hide Run.At, GateCloses, QueueState, HashIsCurrent;
    if i == 0 {
      StartLedger(r);
    } else {
      LedgerMirrorsLast(r, i - 1, p);
      LedgerStep(r, i - 1);
      if r.IsReconcile(i - 1) {
        AppliedLedger(r, i - 1, p);
        StampIffCondition(r, i - 1);
      }
    }
  }

  lemma StampIffCondition(r: Run, i: nat)
    requires r.Valid() && i < |r.steps| && r.TookEffect(i)
    ensures r.Ledger(i + 1).since != 0 <==> r.SawCondition(i)
    ensures r.TransitionAt(i).conditionSince == 0 || r.TransitionAt(i).conditionSince >= SECOND
  {
    hide Run.At, GateCloses, QueueState, Rfc3339.FloorSecond;
    LedgerStep(r, i);
    AllReachable(r, i);
    EffectOnLedger(r, i);
    FloorFacts(r.TransitionAt(i).conditionSince);
  }

  /** One reconcile writes exactly when it is the first, its condition differs from the last one, or
      it flips; the last two exclude each other. */
  lemma WritesWhen(r: Run, i: nat, p: SpillPolicy)
    requires r.Valid() && i < |r.steps| && r.IsReconcile(i) && ErrorFree(r, p)
    ensures var flips := r.Ledger(i + 1).state != r.Ledger(i).state;
            var changes := ConditionChanged(r, i);
            && (GateCloses(r.env, r.At(i), p, r.steps[i].seen) <==> LastSeen(r, i).Some? && !changes && !flips)
            && !(flips && (changes || LastSeen(r, i) == None))
  {
    LedgerMirrorsLast(r, i, p);
    LedgerStep(r, i);
    StampIffCondition(r, i);
    ClockAt(r, i);
    assert StepAllowed(r.steps[i]);
    var l, t := r.Ledger(i), r.TransitionAt(i);
    var h := DecisionIn(r.env, r.At(i), p, r.steps[i].seen).hash;
    DecisionOwns(r.env, SnapshotOf(p, r.At(i).now, r.At(i).queue, r.steps[i].seen));
    assert h == HashFor(r.env.sha, p, t.nextState, t.conditionSince);
    if LastSeen(r, i).Some? {
      WritableUpTo(t.conditionSince, r.At(i).now); WritableUpTo(l.since, r.At(i).now);
      OwnHashIff(r.env.sha, p, t.nextState, t.conditionSince, l.state, l.since);
      GateByLedger(r.env.rnd, SnapshotOf(p, r.At(i).now, r.At(i).queue, r.steps[i].seen));
    } else {
      HashIsNotEmpty(r.env.sha, t.nextState, Some(NodeGroupAffinityFor(p, t.nextState)), t.conditionSince);
    }
  }

  /** A transition keeps state and stamp exactly when the timer already says what the condition says
      and no flip is due. */
  lemma GateByLedger(rnd: real -> real, s: Snapshot)
    requires 0 <= s.conditionSince <= s.observedAt && s.conditionSince % SECOND == 0 && s.observedAt >= SECOND
    ensures var t := NextState(rnd, s); var c := Condition(s.currentState, s.policy, s.seen);
            && (t.nextState == s.currentState && (t.conditionSince == 0 <==> s.conditionSince == 0)
                && Rfc3339.FloorSecond(t.conditionSince) == Rfc3339.FloorSecond(s.conditionSince)
                <==> (s.conditionSince != 0 <==> c) && !t.fired)
            && (t.fired <==> t.nextState != s.currentState)
            && (t.fired ==> c && s.conditionSince != 0)
  {
  }

  lemma AppliesAt(r: Run, i: nat, p: SpillPolicy)
    requires i <= |r.steps| && ErrorFree(r, p)
    ensures i == 0 ==> r.At(i).applies == r.start.applies
    ensures i > 0 ==>
              var writes := r.IsReconcile(i - 1) && !GateCloses(r.env, r.At(i - 1), p, r.steps[i - 1].seen);
              r.At(i).applies == r.At(i - 1).applies + if writes then 1 else 0
    ensures i > 0 && r.IsReconcile(i - 1) ==> r.TookEffect(i - 1)
  {
  }

  lemma CountSteps(r: Run, i: nat)
    requires 0 < i <= |r.steps|
    ensures LastSeen(r, i) == if r.IsReconcile(i - 1) then Some(r.SawCondition(i - 1)) else LastSeen(r, i - 1)
    ensures ConditionChanges(r, i) == ConditionChanges(r, i - 1) + if ConditionChanged(r, i - 1) then 1 else 0
  {
  }

  /** The Apply calls of one step. */
  lemma WritesOfStep(r: Run, i: nat, p: SpillPolicy)
    requires r.Valid() && 0 < i <= |r.steps| && ErrorFree(r, p)
    ensures r.At(i).applies == r.At(i - 1).applies
                            + (if LastSeen(r, i).Some? && LastSeen(r, i - 1) == None then 1 else 0)
                            + (ConditionChanges(r, i) - ConditionChanges(r, i - 1))
                            + (if r.Ledger(i).state != r.Ledger(i - 1).state then 1 else 0)
  {
    hide Run.At, Run.Ledger, Run.TransitionAt, Run.SawCondition, GateCloses, Rfc3339.FloorSecond;
    hide LastSeen, ConditionChanges;
    AppliesAt(r, i, p);
    CountSteps(r, i);
    if r.IsReconcile(i - 1) {
      WritesWhen(r, i - 1, p);
    } else {
      LedgerStep(r, i - 1);
    }
  }

  /** Apply calls of an error-free run: one, plus one for every change of the condition between
      consecutive reconciles, plus one for every flip. */
  lemma {:induction false} WriteCount(r: Run, i: nat, p: SpillPolicy)
    requires r.Valid() && i <= |r.steps| && ErrorFree(r, p)
    ensures r.At(i).applies == r.start.applies
                            + (if LastSeen(r, i).Some? then 1 else 0) + ConditionChanges(r, i) + Flips(r, 0, i)
  {
    CountsStart(r);
    hide Run.At, Run.Ledger, Run.Valid, ErrorFree, LastSeen, ConditionChanges;
    if i == 0 {
    } else {
      WriteCount(r, i - 1, p);
      WritesOfStep(r, i, p);
      SeenStays(r, i - 1);
    }
  }

  lemma CountsStart(r: Run)
    ensures r.At(0).applies == r.start.applies && LastSeen(r, 0) == None && ConditionChanges(r, 0) == 0
  {
  }

  lemma SeenStays(r: Run, i: nat)
    requires i < |r.steps|
    ensures LastSeen(r, i).Some? ==> LastSeen(r, i + 1).Some?
  {
  }

  // ---------- The affinity follows the state ----------

  lemma StartFresh(r: Run)
    requires r.Valid()
    ensures Fresh(r.At(0).queue)
  {
  }

  /** Once the controller has written, the Queue admits the overflow group exactly in Spill, and then
      prefers the dedicated one. */
  lemma {:induction false} AffinityFollowsState(r: Run, i: nat, p: SpillPolicy)
    requires r.Valid() && i <= |r.steps|
    requires forall j :: 0 <= j < |r.steps| && r.IsReconcile(j) ==> r.steps[j].policy == p
    ensures Fresh(r.At(i).queue) ||
            OwnedPart(r.At(i).queue).affinity == Some(
              if r.Ledger(i).state == Spill then NodeGroupAffinity([p.dedicated, p.overflow], [p.dedicated])
              else NodeGroupAffinity([p.dedicated], []))
  {
    hide Run.At, GateCloses, QueueState, DecisionHash, Reachable;
    if i == 0 {
      StartFresh(r);
    } else {
      AffinityFollowsState(r, i - 1, p);
      AllReachable(r, i - 1);
      assert StepAllowed(r.steps[i - 1]);
      if r.TookEffect(i - 1) { EffectOnLedger(r, i - 1); } else { NoEffectOnOwned(r, i - 1); }
    }
  }

  // ---------- Operators and controller ----------

  function Unedited(s: Step): Step {
    if s.OperatorEdit? then Tick(0) else s
  }

  /** The same run with every operator edit replaced by an idle step. */
  function WithoutEdits(r: Run): Run {
    r.(steps := seq(|r.steps|, i requires 0 <= i < |r.steps| => Unedited(r.steps[i])))
  }

  /** The unowned fields when only the operator's edits happen. */
  function EditsOnly(r: Run, i: nat): Unowned
    requires i <= |r.steps|
  {
    if i == 0 then UnownedPart(r.start.queue)
    else if r.steps[i - 1].OperatorEdit? then EditUnowned(EditsOnly(r, i - 1), r.steps[i - 1].edit)
    else EditsOnly(r, i - 1)
  }

  /** Worlds that agree on clock, owned fields and Apply calls decide alike and stay alike. */
  lemma ReconcileReadsOwned(env: Env, w: World, w': World, p: SpillPolicy, seen: Observation, fault: Fault)
    requires w.now == w'.now && w.applies == w'.applies && OwnedPart(w.queue) == OwnedPart(w'.queue)
    ensures DecisionIn(env, w, p, seen) == DecisionIn(env, w', p, seen)
    ensures var (a, e) := ReconcileOnce(env, true, w, p, seen, fault);
            var (a', e') := ReconcileOnce(env, true, w', p, seen, fault);
            && e == e' && a.now == a'.now && a.applies == a'.applies && OwnedPart(a.queue) == OwnedPart(a'.queue)
            && UnownedPart(a.queue) == UnownedPart(w.queue)
  {
    hide Evaluate, NextState, OwnedFor;
    LedgerIsOwned(w.queue); LedgerIsOwned(w'.queue);
    assert SnapshotOf(p, w.now, w.queue, seen) == SnapshotOf(p, w'.now, w'.queue, seen);
    LandedWrite(env, w, p, seen); LandedWrite(env, w', p, seen);
  }

  /** Edits of unowned fields, anywhere in a run, change no write, no decision and no owned field,
      and every unowned field keeps what the operator last put there. */
  lemma {:induction false} EditsDoNotInterfere(r: Run, i: nat)
    requires i <= |r.steps| && forall j :: 0 <= j < |r.steps| ==> StepAllowed(r.steps[j])
    ensures var quiet := WithoutEdits(r);
            && |quiet.steps| == |r.steps|
            && r.At(i).now == quiet.At(i).now
            && r.At(i).applies == quiet.At(i).applies
            && OwnedPart(r.At(i).queue) == OwnedPart(quiet.At(i).queue)
            && (forall p, seen :: DecisionIn(r.env, r.At(i), p, seen) == DecisionIn(r.env, quiet.At(i), p, seen))
    ensures UnownedPart(r.At(i).queue) == EditsOnly(r, i)
  {
    var quiet := WithoutEdits(r);
    if i == 0 {
    } else {
      EditsDoNotInterfere(r, i - 1);
      var s, w, w' := r.steps[i - 1], r.At(i - 1), quiet.At(i - 1);
      match s
      case Reconcile(p, seen, fault) => ReconcileReadsOwned(r.env, w, w', p, seen, fault);
      case OperatorEdit(e) => EditParts(w.queue, e);
      case _ =>
    }
    forall p, seen ensures DecisionIn(r.env, r.At(i), p, seen) == DecisionIn(r.env, quiet.At(i), p, seen) {
      ReconcileReadsOwned(r.env, r.At(i), quiet.At(i), p, seen, NoFault);
    }
  }
}

/** What the gate does when a policy is replaced by another version for the same Queue: it is a refinement
    exactly when the hash can tell the versions apart. */
module PolicyVersions {
  import opened Prelude
  import opened Api
  import opened Encoding
  import opened StateMachine
  import opened QueueLedger
  import opened Reconciler
  import opened HashCollisions
  import opened Runs
  import opened CooldownGuarantees
  import opened HashGate
  import opened Registry
  import Rfc3339

  /** The first `n` steps of a run. */
  function Prefix(r: Run, n: nat): Run
    requires n <= |r.steps|
  {
    r.(steps := r.steps[..n])
  }

  lemma {:induction false} PrefixAt(r: Run, n: nat, i: nat)
    requires i <= n <= |r.steps|
    ensures Prefix(r, n).At(i) == r.At(i) && Prefix(r, n).AtUngated(i) == r.AtUngated(i)
  {
    hide After;
    if i == 0 {
    } else {
      PrefixAt(r, n, i - 1);
    }
  }

  /** On a Queue that was written in Spill under `p`, a reconcile under a policy that the hash cannot tell
      apart from `p` closes the gate, although applying would change the affinity. */
  lemma CollidingStep(env: Env, w: World, p: SpillPolicy, p': SpillPolicy, busy: Observation)
    requires !TellApart(p, p') && OwnedPart(w.queue) == OwnedFor(env.sha, p, Spill, 0) && busy.overflowPods != 0
    ensures ReconcileOnce(env, true, w, p', busy, NoFault).0 == w
    ensures AffinityOf(w) == Some(NodeGroupAffinityFor(p, Spill)) != Some(NodeGroupAffinityFor(p', Spill))
    ensures AffinityOf(ReconcileOnce(env, false, w, p', busy, NoFault).0) == Some(NodeGroupAffinityFor(p', Spill))
  {
    hide LexLe, TextFor, AffinityText, TellApart;
    TellApartExactly(p, p');
    SameTextExactly(p, Spill, 0, p', Spill, 0);
    LedgerIsOwned(w.queue);
    LedgerRoundTrip(env.sha, p, Spill, 0);
    DecisionOwns(env, SnapshotOf(p', w.now, w.queue, busy));
    assert HashFor(env.sha, p, Spill, 0) == HashFor(env.sha, p', Spill, 0) by { SameTextSameHash(env.sha, p, p'); }
    LandedWrite(env, w, p', busy);
  }

  lemma SameTextSameHash(sha: string -> string, p: SpillPolicy, p': SpillPolicy)
    requires TextFor(p, Spill, 0) == TextFor(p', Spill, 0)
    ensures HashFor(sha, p, Spill, 0) == HashFor(sha, p', Spill, 0)
  {
  }

  ghost predicate GateIsInvisible(r: Run) {
    forall i :: 0 <= i <= |r.steps| ==> r.At(i).queue == r.AtUngated(i).queue
  }

  ghost predicate RunsUnder(r: Run, p: SpillPolicy, p': SpillPolicy) {
    r.Sound() && r.Policies() <= {p, p'}
  }

  /** A new Queue spills under `p` and its timer is switched off; then the controller restarts with `p'`
      in place of `p`. */
  function SwitchRun(env: Env, p: SpillPolicy, p': SpillPolicy, on: Observation, busy: Observation): Run {
    Run(env, World(SECOND, None, 0), ReachSpill(p, on, busy) + [Restart, Reconcile(p', busy, NoFault)])
  }

  lemma SwitchClock(env: Env, p: SpillPolicy, p': SpillPolicy, on: Observation, busy: Observation)
    ensures var r := SwitchRun(env, p, p', on, busy);
            && r.At(5).now == r.At(6).now == SECOND + NotNegative(p.thresholds.timeOn)
            && r.At(5) == r.At(4)
            && r.At(6) == ReconcileOnce(env, true, r.At(5), p', busy, NoFault).0
            && r.AtUngated(6) == ReconcileOnce(env, false, r.AtUngated(5), p', busy, NoFault).0
  {
    hide ReconcileOnce;
    var r := SwitchRun(env, p, p', on, busy);
    AfterReconcile(r, 0); AfterTick(r, 1); AfterReconcile(r, 2); AfterReconcile(r, 3); AfterReconcile(r, 5);
    assert r.steps[4] == Restart && r.steps[5] == Reconcile(p', busy, NoFault);
    assert r.At(5) == After(env, true, r.At(4), r.steps[4]);
  }

  lemma SwitchSteps(env: Env, p: SpillPolicy, p': SpillPolicy, on: Observation, busy: Observation)
    ensures var r := SwitchRun(env, p, p', on, busy);
            && |r.steps| == 6 && r.steps[..4] == ReachSpill(p, on, busy)
            && r.steps[4] == Restart && r.steps[5] == Reconcile(p', busy, NoFault)
            && r.env == env && r.start == World(SECOND, None, 0)
            && (forall i :: 0 <= i < 6 ==> StepAllowed(r.steps[i]))
            && (forall i :: 0 <= i < 5 && r.steps[i].Reconcile? ==> r.steps[i].policy == p)
  {
  }

  /** Up to the restart it is a valid run under `p`. */
  lemma BeforeSwitchIsValid(env: Env, p: SpillPolicy, p': SpillPolicy, on: Observation, busy: Observation)
    requires CollisionFree(env.sha) && ClockInRange(SECOND + NotNegative(p.thresholds.timeOn))
    ensures |SwitchRun(env, p, p', on, busy).steps| == 6 && Prefix(SwitchRun(env, p, p', on, busy), 5).Valid()
  {
    hide Run.At, Run.AtUngated, Rfc3339.Writable, SwitchRun, ReachSpill;
    SwitchSteps(env, p, p', on, busy);
    SwitchClock(env, p, p', on, busy);
    var r := SwitchRun(env, p, p', on, busy);
    PrefixAt(r, 5, 5);
    WritableUpTo(SECOND, SECOND + NotNegative(p.thresholds.timeOn));
    OnePolicyRunIsValid(Prefix(r, 5), p);
  }

  lemma SpillWritten(r: Run, p: SpillPolicy, on: Observation, busy: Observation)
    requires r.Valid() && |r.steps| >= 4 && r.steps[..4] == ReachSpill(p, on, busy)
    requires Condition(Steady, p, on) && busy.overflowPods != 0
    ensures OwnedPart(r.At(4).queue) == OwnedFor(r.env.sha, p, Spill, 0)
  {
    hide Run.At, Run.Valid, Run.TookEffect, Run.TransitionAt, OwnedFor, OwnedPart, QueueState, Reachable;
    assert r.steps[3] == r.steps[..4][3];
    ReachesSpill(r, p, on, busy);
    AllReachable(r, 3);
    EffectOnLedger(r, 3);
  }

  /** It leaves the Queue as `p` wants it in Spill, with the gate as without. */
  lemma BeforeSwitch(env: Env, p: SpillPolicy, p': SpillPolicy, on: Observation, busy: Observation)
    requires CollisionFree(env.sha) && ClockInRange(SECOND + NotNegative(p.thresholds.timeOn))
    requires Condition(Steady, p, on) && busy.overflowPods != 0
    ensures var r := SwitchRun(env, p, p', on, busy);
            && r.At(5).queue == r.AtUngated(5).queue
            && OwnedPart(r.At(5).queue) == OwnedFor(env.sha, p, Spill, 0)
  {
    hide Run.At, Run.AtUngated, Run.Valid, Rfc3339.Writable, OwnedFor, OwnedPart, QueueState, SwitchRun, ReconcileOnce;
    SwitchSteps(env, p, p', on, busy);
    SwitchClock(env, p, p', on, busy);
    BeforeSwitchIsValid(env, p, p', on, busy);
    var r := SwitchRun(env, p, p', on, busy);
    PrefixAt(r, 5, 5); PrefixAt(r, 5, 4);
    assert Prefix(r, 5).steps[..4] == ReachSpill(p, on, busy);
    hide ReachSpill;
    SpillWritten(Prefix(r, 5), p, on, busy);
    GateRefines(Prefix(r, 5), 5);
  }

  lemma SwitchIsSound(env: Env, p: SpillPolicy, p': SpillPolicy, on: Observation, busy: Observation)
    requires CollisionFree(env.sha) && p.queueName == p'.queueName
    requires ClockInRange(SECOND + NotNegative(p.thresholds.timeOn))
    ensures RunsUnder(SwitchRun(env, p, p', on, busy), p, p')
  {
    hide Run.At, Run.AtUngated, Rfc3339.Writable, SwitchRun, ReachSpill;
    SwitchSteps(env, p, p', on, busy);
    SwitchClock(env, p, p', on, busy);
    var r := SwitchRun(env, p, p', on, busy);
    WritableUpTo(SECOND, SECOND + NotNegative(p.thresholds.timeOn));
    assert r.Policies() <= {p, p'};
    RunIsSound(r);
  }

  /** Between policies that the hash cannot tell apart, the gate is not a refinement: this run, in which
      `p'` replaces `p`, ends with the affinity of `p`. */
  lemma CollisionDefeatsGate(env: Env, p: SpillPolicy, p': SpillPolicy, on: Observation, busy: Observation)
    requires CollisionFree(env.sha) && p.queueName == p'.queueName && !TellApart(p, p')
    requires Condition(Steady, p, on) && busy.overflowPods != 0
    requires ClockInRange(SECOND + NotNegative(p.thresholds.timeOn))
    ensures var r := SwitchRun(env, p, p', on, busy);
            && RunsUnder(r, p, p') && |r.steps| == 6 && r.steps[5] == Reconcile(p', busy, NoFault)
            && AffinityOf(r.At(6)) == Some(NodeGroupAffinityFor(p, Spill)) != Some(NodeGroupAffinityFor(p', Spill))
            && AffinityOf(r.AtUngated(6)) == Some(NodeGroupAffinityFor(p', Spill))
  {
    hide Run.At, Run.AtUngated, RunsUnder, Rfc3339.Writable, TellApart, SwitchRun, OwnedFor, ReconcileOnce;
    SwitchSteps(env, p, p', on, busy);
    SwitchClock(env, p, p', on, busy);
    SwitchIsSound(env, p, p', on, busy);
    BeforeSwitch(env, p, p', on, busy);
    var r := SwitchRun(env, p, p', on, busy);
    CollidingStep(env, r.At(5), p, p', busy);
    CollidingStep(env, r.AtUngated(5), p, p', busy);
  }

  /** The gate is a refinement of all runs under two versions of a policy exactly when the hash can tell
      them apart.  (A policy whose wait does not fit into the calendar never spills.) */
  lemma GateRefinesIff(p: SpillPolicy, p': SpillPolicy)
    requires p.queueName == p'.queueName && ClockInRange(SECOND + NotNegative(p.thresholds.timeOn))
    ensures TellApart(p, p') <==> forall r: Run :: RunsUnder(r, p, p') ==> GateIsInvisible(r)
  {
    hide TellApart, Run.Sound, Rfc3339.Writable, NodeGroupAffinityFor, SwitchRun, Run.At, Run.AtUngated, Run.Policies;
    if TellApart(p, p') {
      forall r: Run | RunsUnder(r, p, p') ensures GateIsInvisible(r) {
        PairIsApart(p, p');
        forall i: nat | i <= |r.steps| ensures r.At(i).queue == r.AtUngated(i).queue {
          GateRefines(r, i);
        }
      }
    } else {
      var env, on, busy := SomeEnv(p);
      CollisionDefeatsGate(env, p, p', on, busy);
      var r := SwitchRun(env, p, p', on, busy);
      assert r.At(6).queue != r.AtUngated(6).queue;
    }
  }

  lemma PairIsApart(p: SpillPolicy, p': SpillPolicy)
    requires TellApart(p, p')
    ensures AllApart({p, p'})
  {
    hide TextFor, NodeGroupAffinityFor, FormatSince;
    SelfTellsApart(p); SelfTellsApart(p');
  }

  lemma SomeEnv(p: SpillPolicy) returns (env: Env, on: Observation, busy: Observation)
    ensures CollisionFree(env.sha) && Condition(Steady, p, on) && busy.overflowPods != 0
  {
    env := Env((s: string) => s, (x: real) => x);
    on := Observation(0, 0, 0, 0, 0, 0, true, 0, 0);
    busy := Observation(0, 0, 0, 0, 0, 1, false, 0, 0);
  }

  /** Two configurations, each accepted, between which the gate leaves the wrong affinity. */
  lemma AcceptedVersionsDefeatGate(ds: Defaults) returns (raw: RawConfig, raw': RawConfig, r: Run)
    requires ValidDefaults(BuildDefaults(ds)) && ClockInRange(SECOND + ds.thresholds.timeOn)
    ensures raw.defaults == raw'.defaults == ds && |raw.policies| == |raw'.policies| == 1
    ensures ValidConfig(raw) && ValidConfig(raw')
    ensures RunsUnder(r, OnlyPolicy(raw), OnlyPolicy(raw'))
    ensures |r.steps| == 6 && r.steps[5].Reconcile? && r.steps[5].policy == OnlyPolicy(raw')
    ensures AffinityOf(r.At(6)) != AffinityOf(r.AtUngated(6)) == Some(NodeGroupAffinityFor(OnlyPolicy(raw'), Spill))
  {
    hide TellApart, RunsUnder, Run.At, Run.AtUngated, SwitchRun, ValidConfig, BuildPolicy, Rfc3339.Writable;
    raw, raw' := AcceptedVersionsCollide(ds);
    var p, p' := OnlyPolicy(raw), OnlyPolicy(raw');
    var env, on, busy := SomeEnv(p);
    CollisionDefeatsGate(env, p, p', on, busy);
    r := SwitchRun(env, p, p', on, busy);
  }
}

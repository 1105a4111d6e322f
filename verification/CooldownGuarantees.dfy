/** What the cooldown promises over whole runs: no premature flip, a bounded response and a bound on
    flapping, despite crashes, failed writes and stamps cut to whole seconds. */
module CooldownGuarantees {
  import opened Prelude
  import opened Api
  import opened Encoding
  import opened StateMachine
  import opened QueueLedger
  import opened Reconciler
  import opened Runs
  import Rfc3339

  // ---------- No premature flip ----------

  /** Reconcile `a` starts the wait of state `x`: it saw the condition of `x` come true, or it
      flipped into `x`. */
  ghost predicate StartsWait(r: Run, a: nat, x: State)
    requires a < |r.steps|
  {
    && r.TookEffect(a)
    && (|| (r.Ledger(a).state == x && r.Ledger(a).since == 0 && r.SawCondition(a))
        || (r.Ledger(a).state != x && r.Ledger(a + 1).state == x))
  }

  /** Every reconcile of steps a+1 .. i-1 that took effect found state `x` and saw its condition. */
  ghost predicate HeldBetween(r: Run, a: nat, i: nat, x: State)
    requires i <= |r.steps|
  {
    forall j :: a < j < i && r.TookEffect(j) ==> r.Ledger(j).state == x && r.SawCondition(j)
  }

  ghost predicate TimerStartedAt(r: Run, a: nat, i: nat)
    requires a < i <= |r.steps|
  {
    && StartsWait(r, a, r.Ledger(i).state)
    && r.Ledger(i).since == Rfc3339.FloorSecond(r.At(a).now)
    && HeldBetween(r, a, i, r.Ledger(i).state)
  }

  /** A running timer was started by a reconcile of this run, and its condition held ever since. */
  lemma {:induction false} TimerHasStart(r: Run, i: nat) returns (a: nat)
    requires r.Valid() && i <= |r.steps| && r.Ledger(i).since != 0
    ensures a < i && TimerStartedAt(r, a, i)
  {
    hide Run.At, GateCloses, QueueState, SwitchBackCooldown, Rfc3339.FloorSecond;
    StartLedger(r);
    LedgerStep(r, i - 1);
    if r.TookEffect(i - 1) && (r.Ledger(i - 1).since == 0 || r.TransitionAt(i - 1).fired) {
      a := i - 1;
      FloorFacts(r.At(a).now);
    } else {
      a := TimerHasStart(r, i - 1);
      FloorFacts(r.Ledger(i - 1).since);
      assert r.TookEffect(i - 1) ==> r.SawCondition(i - 1);
    }
  }

  /** A flip out of state x at reconcile `i` has an earlier reconcile `a` that started the wait for x
      more than the cooldown minus one second before, and every reconcile since then that took
      effect, the flipping one included, saw the condition of x. */
  lemma NoPrematureFlip(r: Run, i: nat) returns (a: nat)
    requires r.Valid() && i < |r.steps| && r.IsReconcile(i) && r.steps[i].fault != BuildFails
    requires r.TransitionAt(i).fired
    ensures var x, p := r.Ledger(i).state, r.steps[i].policy;
            && a < i
            && StartsWait(r, a, x)
            && r.At(i).now - r.At(a).now > CooldownFor(r.env.rnd, p, x) - SECOND
            && HeldBetween(r, a, i, x) && r.SawCondition(i)
            && r.TransitionAt(i).nextState != x
  {
    LedgerStep(r, i);
    a := TimerHasStart(r, i);
    ClockAt(r, a);
    FloorFacts(r.At(a).now);
  }

  // ---------- The slack is exact ----------

  /** The least whole number of nanoseconds that is more than a cooldown minus one second. */
  function Earliest(cooldown: int): nat {
    if cooldown >= SECOND then cooldown - SECOND + 1 else 0
  }

  function WholeSeconds(d: int): (w: nat)
    ensures w >= d && w % SECOND == 0
  {
    if d <= 0 then 0 else (d + SECOND - 1) / SECOND * SECOND
  }

  /** A run that leaves state `x` as early as can be: a wait that starts in the last nanosecond of a
      second, and a reconcile at the earliest time afterwards.  `on` is what reconciles see in Steady,
      `off` what they see in Spill. */
  function EarlyRun(env: Env, p: SpillPolicy, x: State, on: Observation, off: Observation): Run {
    var timeOn := p.thresholds.timeOn;
    Run(env, World(2 * SECOND - 1, None, 0),
        if x == Steady then
          [Reconcile(p, on, NoFault), Tick(Earliest(timeOn)), Reconcile(p, on, NoFault)]
        else
          [Reconcile(p, on, NoFault), Tick(WholeSeconds(timeOn)), Reconcile(p, on, NoFault),
           Tick(Earliest(CooldownFor(env.rnd, p, Spill))), Reconcile(p, off, NoFault)])
  }

  lemma ClockStarts(r: Run)
    ensures r.At(0) == r.start
  {
  }

  lemma AfterTick(r: Run, i: nat)
    requires i < |r.steps| && r.steps[i].Tick?
    ensures r.At(i + 1).now == r.At(i).now + r.steps[i].d && r.Ledger(i + 1) == r.Ledger(i)
  {
  }

  lemma AfterReconcile(r: Run, i: nat)
    requires i < |r.steps| && r.steps[i].Reconcile? && r.steps[i].fault == NoFault
    ensures r.At(i + 1).now == r.At(i).now && r.TookEffect(i)
  {
  }

  /** A wait for `x` that reconcile `a` started in the last nanosecond of a second ends as early as the
      slack allows. */
  lemma WaitEndsEarly(r: Run, a: nat, x: State, p: SpillPolicy)
    requires r.Valid() && a + 2 < |r.steps|
    requires r.steps[a + 2].Reconcile? && r.steps[a + 2].fault == NoFault && r.steps[a + 2].policy == p
    requires Condition(x, p, r.steps[a + 2].seen)
    requires r.steps[a + 1] == Tick(Earliest(CooldownFor(r.env.rnd, p, x)))
    requires r.At(a + 1).now == r.At(a).now && r.Ledger(a + 1).state == x
    requires r.Ledger(a + 1).since == r.At(a).now - (SECOND - 1) > 0
    ensures r.Ledger(a + 2).state == x && r.TransitionAt(a + 2).fired && r.Ledger(a + 3).state == FlipState(x)
    ensures r.At(a + 2).now - r.At(a).now == Earliest(CooldownFor(r.env.rnd, p, x))
  {
    hide Run.At, GateCloses, QueueState, SwitchBackCooldown, Rfc3339.FloorSecond;
    AfterTick(r, a + 1);
    AfterReconcile(r, a + 2);
    LedgerStep(r, a + 2);
  }

  lemma EarlyRunIsValid(env: Env, p: SpillPolicy, x: State, on: Observation, off: Observation)
    requires CollisionFree(env.sha)
    requires var r := EarlyRun(env, p, x, on, off); ClockInRange(r.At(|r.steps|).now)
    ensures EarlyRun(env, p, x, on, off).Valid()
  {
    var r := EarlyRun(env, p, x, on, off);
    ClockStarts(r);
    hide Run.At, Rfc3339.Writable;
    ClockAdvances(r, 0, |r.steps|);
    WritableUpTo(r.At(0).now, r.At(|r.steps|).now);
    OnePolicyRunIsValid(r, p);
  }

  /** The slack of NoPrematureFlip is exact, for both states and every cooldown: under every policy
      whose conditions hold there is a run whose flip comes at the earliest time that the theorem
      leaves open. */
  lemma SlackIsAttained(env: Env, p: SpillPolicy, x: State, on: Observation, off: Observation) returns (a: nat)
    requires CollisionFree(env.sha) && Condition(Steady, p, on) && Condition(Spill, p, off)
    requires var r := EarlyRun(env, p, x, on, off); ClockInRange(r.At(|r.steps|).now)
    ensures var r := EarlyRun(env, p, x, on, off);
            && r.Valid() && a + 3 == |r.steps| && StartsWait(r, a, x)
            && r.TransitionAt(a + 2).fired && r.Ledger(a + 2).state == x && r.Ledger(a + 3).state == FlipState(x)
            && r.At(a + 2).now - r.At(a).now == Earliest(CooldownFor(env.rnd, p, x))
  {
    hide Run.At, GateCloses, QueueState, SwitchBackCooldown, Rfc3339.FloorSecond;
    var r := EarlyRun(env, p, x, on, off);
    EarlyRunIsValid(env, p, x, on, off);
    StartLedger(r); ClockStarts(r);
    AfterReconcile(r, 0); LedgerStep(r, 0);
    FloorOfLast(2 * SECOND - 1);
    AfterTick(r, 1);
    if x == Steady {
      a := 0;
    } else {
      a := 2;
      AfterReconcile(r, 2); LedgerStep(r, 2);
      FloorOfLast(r.At(2).now);
    }
    WaitEndsEarly(r, a, x, p);
  }

  lemma FloorOfLast(t: int)
    requires t >= 0 && t % SECOND == SECOND - 1
    ensures Rfc3339.FloorSecond(t) == t - (SECOND - 1)
  {
  }

  /** A reconcile returns no error exactly when its snapshot was built and the gate closed or the write
      was confirmed; then it took effect, so the guarantee covers it. */
  lemma CompletedTookEffect(r: Run, i: nat)
    requires i < |r.steps|
    ensures r.Completed(i) <==>
              && r.IsReconcile(i) && r.steps[i].fault != BuildFails
              && (r.steps[i].fault == NoFault || GateCloses(r.env, r.At(i), r.steps[i].policy, r.steps[i].seen))
    ensures r.Completed(i) ==> r.TookEffect(i)
  {
  }

  // ---------- Bounded response ----------

  ghost predicate NoneCompleted(r: Run, i: nat, j: nat)
    requires j <= |r.steps|
  {
    forall m :: i <= m < j ==> !r.Completed(m)
  }

  /** Between steps k and n, no stretch without a completed reconcile lasts longer than `gap`. */
  ghost predicate CompletedWithin(r: Run, k: nat, n: nat, gap: int)
    requires n <= |r.steps|
  {
    forall i: nat, j: nat :: k <= i <= j <= n && NoneCompleted(r, i, j) ==> r.At(j).now - r.At(i).now <= gap
  }

  /** Between steps k and n, every snapshot shows the condition of `x`, under cooldowns of at most `wait`. */
  ghost predicate ConditionStays(r: Run, k: nat, n: nat, x: State, wait: int)
    requires n <= |r.steps|
  {
    forall i :: k <= i < n && r.IsReconcile(i) && r.steps[i].fault != BuildFails ==>
      Condition(x, r.steps[i].policy, r.steps[i].seen) && CooldownFor(r.env.rnd, r.steps[i].policy, x) <= wait
  }

  ghost predicate StaysIn(r: Run, k: nat, n: nat, x: State)
    requires n <= |r.steps|
  {
    forall m :: k <= m <= n ==> r.Ledger(m).state == x
  }

  lemma ReconcilesAreInstant(r: Run, i: nat)
    requires i < |r.steps| && r.At(i).now < r.At(i + 1).now
    ensures !r.Completed(i)
  {
  }

  lemma FirstCompleted(r: Run, i: nat, n: nat) returns (j: nat)
    requires i <= n <= |r.steps|
    ensures i <= j <= n && NoneCompleted(r, i, j) && (j == n || r.Completed(j))
    decreases n - i
  {
    hide Run.At, Run.Completed;
    if i == n || r.Completed(i) {
      j := i;
    } else {
      j := FirstCompleted(r, i + 1, n);
    }
  }

  /** The first step at which the clock has reached `t`. */
  lemma {:induction false} FirstReaching(r: Run, k: nat, n: nat, t: int) returns (b: nat)
    requires k <= n <= |r.steps| && r.At(k).now < t <= r.At(n).now
    ensures k < b <= n && r.At(b - 1).now < t <= r.At(b).now
    decreases n - k
  {
    if r.At(k + 1).now >= t { b := k + 1; } else { b := FirstReaching(r, k + 1, n, t); }
  }

  /** Once running, the timer keeps its start as long as the state and its condition stay. */
  lemma {:induction false} TimerRuns(r: Run, a: nat, m: nat, x: State, wait: int)
    requires r.Valid() && a < m <= |r.steps| && r.TookEffect(a)
    requires StaysIn(r, a, m, x) && ConditionStays(r, a, m, x, wait)
    ensures 0 < r.Ledger(m).since <= r.At(a).now
  {
    hide Run.At, GateCloses, QueueState, SwitchBackCooldown, Rfc3339.FloorSecond;
    LedgerStep(r, m - 1);
    if m - 1 > a {
      TimerRuns(r, a, m - 1, x, wait);
      FloorFacts(r.Ledger(m - 1).since);
    } else {
      FloorFacts(r.At(a).now);
      FloorFacts(r.Ledger(a).since);
    }
  }

  /** A completed reconcile flips once its timer has run for the cooldown. */
  lemma LateReconcileFlips(r: Run, a: nat, j: nat, n: nat, x: State, wait: int)
    requires r.Valid() && a < j < n <= |r.steps| && r.TookEffect(a) && r.Completed(j)
    requires StaysIn(r, a, j, x) && ConditionStays(r, a, n, x, wait)
    requires r.At(j).now >= r.At(a).now + wait
    ensures r.Ledger(j + 1).state != x
  {
    hide Run.At, GateCloses, QueueState, SwitchBackCooldown, Rfc3339.FloorSecond;
    TimerRuns(r, a, j, x, wait);
    LedgerStep(r, j);
    CompletedTookEffect(r, j);
    assert CooldownFor(r.env.rnd, r.steps[j].policy, x) <= wait;
    assert r.TransitionAt(j).fired;
  }

  /** A completed reconcile within one gap of the start, and one within a gap of the deadline. */
  lemma TwoCompleted(r: Run, k: nat, n: nat, wait: int, gap: int) returns (a: nat, j: nat)
    requires k <= n <= |r.steps| && wait > 0 && gap >= 0 && CompletedWithin(r, k, n, gap)
    requires r.At(n).now >= r.At(k).now + wait + 2 * gap
    ensures k <= a < j < n && r.Completed(a) && r.Completed(j)
    ensures r.At(a).now <= r.At(k).now + gap && r.At(j).now >= r.At(k).now + gap + wait
  {
    hide Run.At, Run.Completed;
    a := FirstCompleted(r, k, n);
    assert r.At(a).now <= r.At(k).now + gap;
    var b := FirstReaching(r, a, n, r.At(k).now + gap + wait);
    ReconcilesAreInstant(r, b - 1);
    j := FirstCompleted(r, b, n);
    assert NoneCompleted(r, b - 1, j);
    ClockAdvances(r, b, j);
  }

  /** If the condition of state x stays true from step k on and completed reconciles are never more
      than `gap` apart, the Queue has left x within the cooldown plus twice the gap. */
  lemma BoundedResponse(r: Run, k: nat, n: nat, x: State, wait: int, gap: int)
    requires r.Valid() && k <= n <= |r.steps| && wait > 0 && gap >= 0
    requires ConditionStays(r, k, n, x, wait) && CompletedWithin(r, k, n, gap)
    requires r.At(n).now >= r.At(k).now + wait + 2 * gap
    ensures exists m :: k <= m <= n && r.Ledger(m).state != x
  {
    hide Run.At, Run.Valid, Run.Completed, QueueState, CompletedWithin;
    var a, j := TwoCompleted(r, k, n, wait, gap);
    if StaysIn(r, k, j, x) {
      CompletedTookEffect(r, a);
      LateReconcileFlips(r, a, j, n, x, wait);
    }
  }

  // ---------- The bound is exact ----------

  function NotNegative(d: int): nat {
    if d < 0 then 0 else d
  }

  /** Four steps that leave a new Queue in Spill with the timer off: the wait of Steady passes, the Queue
      flips, and then the overflow pool is busy. */
  function ReachSpill(p: SpillPolicy, on: Observation, busy: Observation): seq<Step> {
    [Reconcile(p, on, NoFault), Tick(NotNegative(p.thresholds.timeOn)), Reconcile(p, on, NoFault),
     Reconcile(p, busy, NoFault)]
  }

  lemma ReachesSpill(r: Run, p: SpillPolicy, on: Observation, busy: Observation)
    requires r.Valid() && |r.steps| >= 4 && r.steps[..4] == ReachSpill(p, on, busy)
    requires Condition(Steady, p, on) && !Condition(Spill, p, busy)
    ensures r.Ledger(4).state == Spill && r.Ledger(4).since == 0
    ensures r.At(4).now == r.start.now + NotNegative(p.thresholds.timeOn)
    ensures r.TookEffect(3) && r.TransitionAt(3).nextState == Spill && r.TransitionAt(3).conditionSince == 0
  {
    hide Run.At, GateCloses, QueueState, SwitchBackCooldown, Rfc3339.FloorSecond;
    assert forall i :: 0 <= i < 4 ==> r.steps[i] == r.steps[..4][i];
    StartLedger(r); ClockStarts(r);
    AfterReconcile(r, 0); LedgerStep(r, 0); FloorFacts(r.At(0).now);
    AfterTick(r, 1);
    AfterReconcile(r, 2); LedgerStep(r, 2); FloorFacts(r.At(2).now);
    AfterReconcile(r, 3); LedgerStep(r, 3); FloorFacts(0);
  }

  /** Step `i` of the slowest schedule: the first reconcile comes `gap` late, then one comes every
      nanosecond until the last nanosecond of the wait, and then none for another `gap`. */
  function SlowStep(p: SpillPolicy, seen: Observation, wait: nat, gap: nat, i: nat): Step {
    if i == 0 || i == 2 * wait then Tick(gap)
    else if i % 2 == 1 then Reconcile(p, seen, NoFault)
    else Tick(1)
  }

  /** From step `k` on, the run follows the slowest schedule, and the first reconcile falls on a whole
      second. */
  ghost predicate SlowFrom(r: Run, k: nat, x: State, p: SpillPolicy, seen: Observation, wait: nat, gap: nat) {
    && |r.steps| == k + 2 * wait + 1 && wait > 0 && gap > 0
    && (forall i: nat :: i <= 2 * wait ==> r.steps[k + i] == SlowStep(p, seen, wait, gap, i))
    && Condition(x, p, seen) && CooldownFor(r.env.rnd, p, x) == wait
    && r.Ledger(k).state == x && r.Ledger(k).since == 0
    && (r.At(k).now + gap) % SECOND == 0
  }

  /** The time that has passed after `i` steps of the schedule, the last one excluded. */
  function SlowTime(gap: nat, i: nat): nat {
    if i == 0 then 0 else gap + (i - 1) / 2
  }

  lemma {:induction false} SlowStays(
      r: Run, k: nat, x: State, p: SpillPolicy, seen: Observation, wait: nat, gap: nat, i: nat)
    requires r.Valid() && SlowFrom(r, k, x, p, seen, wait, gap) && i <= 2 * wait
    ensures r.At(k + i).now == r.At(k).now + SlowTime(gap, i) && r.Ledger(k + i).state == x
    ensures r.Ledger(k + i).since == if i < 2 then 0 else r.At(k).now + gap
  {
    hide Run.At, GateCloses, QueueState, SwitchBackCooldown, Rfc3339.FloorSecond, Run.Valid;
    if i == 0 {
    } else {
      SlowStays(r, k, x, p, seen, wait, gap, i - 1);
      var m := k + (i - 1);
      assert r.steps[m] == SlowStep(p, seen, wait, gap, i - 1);
      if (i - 1) % 2 == 1 {
        AfterReconcile(r, m);
        LedgerStep(r, m);
        ClockAt(r, k);
        FloorFacts(r.At(k).now + gap);
      } else {
        AfterTick(r, m);
      }
    }
  }

  lemma SlowIsOdd(r: Run, k: nat, x: State, p: SpillPolicy, seen: Observation, wait: nat, gap: nat, m: nat)
    requires SlowFrom(r, k, x, p, seen, wait, gap) && k <= m <= k + 2 * wait
    ensures r.IsReconcile(m) <==> (m - k) % 2 == 1
    ensures r.IsReconcile(m) ==> r.steps[m] == Reconcile(p, seen, NoFault) && r.Completed(m)
    ensures 0 <= r.At(m + 1).now - r.At(m).now <= gap
  {
    hide Run.At, GateCloses, QueueState, SwitchBackCooldown;
    assert r.steps[k + (m - k)] == SlowStep(p, seen, wait, gap, m - k);
    if (m - k) % 2 == 1 { AfterReconcile(r, m); NoFaultCompletes(r, m); } else { AfterTick(r, m); }
  }

  lemma NoFaultCompletes(r: Run, i: nat)
    requires i < |r.steps| && r.steps[i].Reconcile? && r.steps[i].fault == NoFault
    ensures r.Completed(i)
  {
  }

  lemma OneIsOdd(m: int)
    ensures m % 2 == 1 || (m + 1) % 2 == 1
  {
  }

  /** Of two consecutive steps one is a completed reconcile. */
  lemma SlowPair(r: Run, k: nat, x: State, p: SpillPolicy, seen: Observation, wait: nat, gap: nat, m: nat)
    requires SlowFrom(r, k, x, p, seen, wait, gap) && k <= m < k + 2 * wait
    ensures r.Completed(m) || r.Completed(m + 1)
  {
    SlowIsOdd(r, k, x, p, seen, wait, gap, m); SlowIsOdd(r, k, x, p, seen, wait, gap, m + 1);
    OneIsOdd(m - k);
  }

  lemma SlowGap(
      r: Run, k: nat, x: State, p: SpillPolicy, seen: Observation, wait: nat, gap: nat, i: nat, j: nat)
    requires SlowFrom(r, k, x, p, seen, wait, gap) && k <= i <= j <= |r.steps| && NoneCompleted(r, i, j)
    ensures r.At(j).now - r.At(i).now <= gap
  {
    assert |r.steps| == k + 2 * wait + 1 && gap > 0;
    hide Run.At, Run.Completed, SlowFrom;
    if i < j {
      SlowIsOdd(r, k, x, p, seen, wait, gap, i);
      if i + 1 < j { SlowPair(r, k, x, p, seen, wait, gap, i); }
    }
  }

  lemma SlowGaps(r: Run, k: nat, x: State, p: SpillPolicy, seen: Observation, wait: nat, gap: nat)
    requires SlowFrom(r, k, x, p, seen, wait, gap)
    ensures CompletedWithin(r, k, k + 2 * wait + 1, gap)
  {
    var n := k + 2 * wait + 1;
    assert |r.steps| == n;
    hide Run.At, Run.Completed, SlowFrom;
    forall i: nat, j: nat | k <= i <= j <= n && NoneCompleted(r, i, j) ensures r.At(j).now - r.At(i).now <= gap {
      SlowGap(r, k, x, p, seen, wait, gap, i, j);
    }
  }

  /** BoundedResponse is exact: in the slowest schedule the Queue is still in state `x` one nanosecond
      before the cooldown and twice the gap have passed. */
  lemma ResponseIsAttained(r: Run, k: nat, x: State, p: SpillPolicy, seen: Observation, wait: nat, gap: nat)
    requires r.Valid() && SlowFrom(r, k, x, p, seen, wait, gap)
    ensures var n := k + 2 * wait + 1;
            && ConditionStays(r, k, n, x, wait) && CompletedWithin(r, k, n, gap)
            && r.At(n).now == r.At(k).now + wait + 2 * gap - 1
            && StaysIn(r, k, n, x)
  {
    hide Run.At, Run.Completed, GateCloses, QueueState, SwitchBackCooldown, Run.Valid;
    var n := k + 2 * wait + 1;
    SlowGaps(r, k, x, p, seen, wait, gap);
    forall i | k <= i < n && r.IsReconcile(i) ensures r.steps[i] == Reconcile(p, seen, NoFault) {
      SlowIsOdd(r, k, x, p, seen, wait, gap, i);
    }
    SlowStays(r, k, x, p, seen, wait, gap, 2 * wait);
    assert r.steps[k + 2 * wait] == SlowStep(p, seen, wait, gap, 2 * wait);
    AfterTick(r, k + 2 * wait);
    forall m: nat | k <= m < n ensures r.Ledger(m).state == x {
      SlowStays(r, k, x, p, seen, wait, gap, m - k);
    }
  }

  function LeadIn(p: SpillPolicy, x: State, on: Observation, busy: Observation): seq<Step> {
    if x == Steady then [] else ReachSpill(p, on, busy)
  }

  function SlowSteps(p: SpillPolicy, seen: Observation, wait: nat, gap: nat): seq<Step> {
    seq(2 * wait + 1, i requires 0 <= i < 2 * wait + 1 => SlowStep(p, seen, wait, gap, i))
  }

  /** A run that reaches state `x` with the timer off and then follows the slowest schedule.  Its clock
      starts such that the first reconcile of the schedule falls on a whole second. */
  function SlowRun(env: Env, p: SpillPolicy, x: State, on: Observation, busy: Observation, off: Observation, gap: nat)
    : Run
    requires CooldownFor(env.rnd, p, x) > 0
  {
    var lead := gap + if x == Steady then 0 else NotNegative(p.thresholds.timeOn);
    var seen := if x == Steady then on else off;
    Run(env, World(2 * SECOND - lead % SECOND, None, 0),
        LeadIn(p, x, on, busy) + SlowSteps(p, seen, CooldownFor(env.rnd, p, x), gap))
  }

  predicate TickOrServes(s: Step, p: SpillPolicy) {
    s.Tick? || (s.Reconcile? && s.policy == p)
  }

  lemma SlowRunIsValid(
      env: Env, p: SpillPolicy, x: State, on: Observation, busy: Observation, off: Observation, gap: nat)
    requires CollisionFree(env.sha) && CooldownFor(env.rnd, p, x) > 0
    requires var r := SlowRun(env, p, x, on, busy, off, gap); ClockInRange(r.At(|r.steps|).now)
    ensures SlowRun(env, p, x, on, busy, off, gap).Valid()
  {
    var r := SlowRun(env, p, x, on, busy, off, gap);
    ClockStarts(r);
    hide Run.At, Rfc3339.Writable, SwitchBackCooldown;
    forall i | 0 <= i < |r.steps| ensures TickOrServes(r.steps[i], p) {
      var lead := LeadIn(p, x, on, busy);
      if i < |lead| { assert r.steps[i] == lead[i]; } else { assert r.steps[i].Tick? || r.steps[i].Reconcile?; }
    }
    ClockAdvances(r, 0, |r.steps|);
    WritableUpTo(r.At(0).now, r.At(|r.steps|).now);
    assert forall i :: 0 <= i < |r.steps| ==> TickOrServes(r.steps[i], p) && StepAllowed(r.steps[i]);
    OnePolicyRunIsValid(r, p);
  }

  lemma SlowRunReaches(
      env: Env, p: SpillPolicy, x: State, on: Observation, busy: Observation, off: Observation, gap: nat)
    requires gap > 0 && CooldownFor(env.rnd, p, x) > 0
    requires Condition(Steady, p, on) && !Condition(Spill, p, busy) && Condition(Spill, p, off)
    requires SlowRun(env, p, x, on, busy, off, gap).Valid()
    ensures var r, k := SlowRun(env, p, x, on, busy, off, gap), |LeadIn(p, x, on, busy)|;
            && r.env == env && |r.steps| == k + 2 * CooldownFor(env.rnd, p, x) + 1
            && SlowFrom(r, k, x, p, if x == Steady then on else off, CooldownFor(env.rnd, p, x), gap)
  {
    hide Run.At, Run.Valid, QueueState, SwitchBackCooldown;
    var r := SlowRun(env, p, x, on, busy, off, gap);
    ClockStarts(r);
    if x == Steady {
      StartLedger(r);
    } else {
      assert r.steps[..4] == ReachSpill(p, on, busy);
      ReachesSpill(r, p, on, busy);
    }
  }

  /** The bound cooldown + 2 * gap cannot be lowered by a nanosecond, for either state, any cooldown and
      any gap: some run keeps the state up to there although its condition stays true. */
  lemma ResponseBoundIsExact(
      env: Env, p: SpillPolicy, x: State, on: Observation, busy: Observation, off: Observation, gap: nat)
    returns (r: Run, k: nat)
    requires CollisionFree(env.sha) && gap > 0 && CooldownFor(env.rnd, p, x) > 0
    requires Condition(Steady, p, on) && !Condition(Spill, p, busy) && Condition(Spill, p, off)
    requires var q := SlowRun(env, p, x, on, busy, off, gap); ClockInRange(q.At(|q.steps|).now)
    ensures r.env == env && r.Valid() && k < |r.steps|
    ensures var n, wait := |r.steps|, CooldownFor(env.rnd, p, x);
            && ConditionStays(r, k, n, x, wait) && CompletedWithin(r, k, n, gap)
            && r.At(n).now == r.At(k).now + wait + 2 * gap - 1
            && StaysIn(r, k, n, x)
  {
    hide Run.At, Run.Valid, SlowFrom, SwitchBackCooldown, ConditionStays, CompletedWithin, StaysIn, SlowRun;
    r := SlowRun(env, p, x, on, busy, off, gap);
    k := |LeadIn(p, x, on, busy)|;
    SlowRunIsValid(env, p, x, on, busy, off, gap);
    SlowRunReaches(env, p, x, on, busy, off, gap);
    ResponseIsAttained(r, k, x, p, if x == Steady then on else off, CooldownFor(env.rnd, p, x), gap);
  }

  // ---------- Flapping ----------

  /** How often the persisted state changed in steps b .. i-1. */
  function Flips(r: Run, b: nat, i: nat): nat
    requires b <= i <= |r.steps|
    decreases i - b
  {
    if i == b then 0
    else Flips(r, b, i - 1) + if r.Ledger(i).state != r.Ledger(i - 1).state then 1 else 0
  }

  /** The run starts here, or step b-1 flipped the state. */
  ghost predicate FlipPoint(r: Run, b: nat)
    requires b <= |r.steps|
  {
    b == 0 || r.Ledger(b).state != r.Ledger(b - 1).state
  }

  /** Every policy of the run waits at least `on` in Steady and `off` in Spill. */
  ghost predicate WaitsAtLeast(r: Run, on: int, off: int) {
    forall i :: 0 <= i < |r.steps| && r.IsReconcile(i) ==>
      CooldownFor(r.env.rnd, r.steps[i].policy, Steady) >= on && CooldownFor(r.env.rnd, r.steps[i].policy, Spill) >= off
  }

  /** The time that `f` flips take at least, leaving state `x` first. */
  function FlipBudget(f: nat, x: State, on: int, off: int): int
    decreases f
  {
    if f == 0 then 0
    else (if x == Steady then on else off) - SECOND + FlipBudget(f - 1, FlipState(x), on, off)
  }

  /** One more flip at the end, out of the state that the parity determines. */
  lemma {:induction false} FlipBudgetGrows(f: nat, x: State, on: int, off: int)
    ensures FlipBudget(f + 1, x, on, off)
         == FlipBudget(f, x, on, off) + (if (x == Steady) == (f % 2 == 0) then on else off) - SECOND
  {
    if f == 0 {
    } else {
      FlipBudgetGrows(f - 1, FlipState(x), on, off);
    }
  }

  lemma {:induction false} RoundTripBudget(k: nat, x: State, on: int, off: int)
    ensures FlipBudget(2 * k, x, on, off) == k * (on + off - 2 * SECOND)
  {
    if k == 0 {
    } else {
      RoundTripBudget(k - 1, x, on, off);
    }
  }

  /** The sum of the first `f` cooldowns, the one of state `x` first. */
  function WaitBudget(f: nat, x: State, on: int, off: int): int {
    FlipBudget(f, x, on, off) + f * SECOND
  }

  lemma WaitBudgetGrows(f: nat, x: State, on: int, off: int)
    ensures WaitBudget(f + 1, x, on, off)
         == WaitBudget(f, x, on, off) + if (x == Steady) == (f % 2 == 0) then on else off
  {
    FlipBudgetGrows(f, x, on, off);
  }

  lemma {:induction false} WaitBudgetIsWhole(f: nat, x: State, on: int, off: int)
    requires on % SECOND == 0 && off % SECOND == 0
    ensures WaitBudget(f, x, on, off) % SECOND == 0
  {
    if f == 0 {
    } else {
      WaitBudgetIsWhole(f - 1, x, on, off);
      WaitBudgetGrows(f - 1, x, on, off);
      hide WaitBudget;
      WholeSum(WaitBudget(f - 1, x, on, off), if (x == Steady) == ((f - 1) % 2 == 0) then on else off);
    }
  }

  lemma WholeSum(a: int, b: int)
    requires a % SECOND == 0 && b % SECOND == 0
    ensures (a + b) % SECOND == 0
  {
  }

  lemma FloorKeepsBound(t: int, whole: int)
    requires whole % SECOND == 0
    ensures t >= whole ==> Rfc3339.FloorSecond(t) >= whole
  {
  }

  /** Flips alternate, and the f-th one, or a timer started after it, comes after the budget. */
  lemma {:induction false} FlipsTakeTime(r: Run, b: nat, i: nat, on: int, off: int)
    requires r.Valid() && b <= i <= |r.steps| && FlipPoint(r, b) && WaitsAtLeast(r, on, off)
    ensures var f, x := Flips(r, b, i), r.Ledger(b).state;
            && (r.Ledger(i).state == x <==> f % 2 == 0)
            && (f > 0 ==> r.At(i).now > r.At(b).now + FlipBudget(f, x, on, off))
            && (r.Ledger(i).since != 0 ==> r.Ledger(i).since + SECOND > r.At(b).now + FlipBudget(f, x, on, off))
    decreases i - b
  {
    hide Run.At, Run.Valid, GateCloses, QueueState, SwitchBackCooldown, Rfc3339.FloorSecond;
    if i == b {
      if b == 0 { StartLedger(r); } else { LedgerStep(r, b - 1); FloorFacts(r.At(b - 1).now); }
    } else {
      FlipsTakeTime(r, b, i - 1, on, off);
      LedgerStep(r, i - 1);
      ClockAdvances(r, b, i - 1);
      FlipBudgetGrows(Flips(r, b, i - 1), r.Ledger(b).state, on, off);
      FloorFacts(r.At(i - 1).now);
      FloorFacts(r.Ledger(i - 1).since);
    }
  }

  /** The whole second of step `b`, plus the cooldowns of the flips since then. */
  function Pace(r: Run, b: nat, i: nat, on: int, off: int): int
    requires b <= i <= |r.steps|
  {
    Rfc3339.FloorSecond(r.At(b).now) + WaitBudget(Flips(r, b, i), r.Ledger(b).state, on, off)
  }

  lemma PaceStarts(r: Run, b: nat, on: int, off: int)
    requires r.Valid() && b <= |r.steps|
    ensures Pace(r, b, b, on, off) == Rfc3339.FloorSecond(r.At(b).now) <= r.At(b).now
  {
    ClockAt(r, b);
    FloorFacts(r.At(b).now);
  }

  lemma PaceGrows(r: Run, b: nat, i: nat, on: int, off: int)
    requires r.Valid() && b < i <= |r.steps| && FlipPoint(r, b) && WaitsAtLeast(r, on, off)
    ensures Pace(r, b, i, on, off) == Pace(r, b, i - 1, on, off)
              + if r.Ledger(i).state == r.Ledger(i - 1).state then 0
                else if r.Ledger(i - 1).state == Steady then on else off
  {
    hide Run.At, QueueState, Run.Valid, FlipPoint, Rfc3339.FloorSecond, WaitBudget, WaitsAtLeast;
    FlipsTakeTime(r, b, i - 1, on, off);
    WaitBudgetGrows(Flips(r, b, i - 1), r.Ledger(b).state, on, off);
  }

  lemma PaceIsWhole(r: Run, b: nat, i: nat, on: int, off: int)
    requires r.Valid() && b <= i <= |r.steps| && on % SECOND == 0 && off % SECOND == 0
    ensures Pace(r, b, i, on, off) % SECOND == 0
  {
    hide Run.At, Rfc3339.FloorSecond, WaitBudget;
    ClockAt(r, b);
    FloorFacts(r.At(b).now);
    WaitBudgetIsWhole(Flips(r, b, i), r.Ledger(b).state, on, off);
    WholeSum(Rfc3339.FloorSecond(r.At(b).now), WaitBudget(Flips(r, b, i), r.Ledger(b).state, on, off));
  }

  /** With whole-second cooldowns, the f-th flip and every timer started after it come no earlier than
      the cooldowns sum up to: what truncation loses does not accumulate. */
  lemma {:induction false} FlipsKeepPace(r: Run, b: nat, i: nat, on: int, off: int)
    requires r.Valid() && b <= i <= |r.steps| && FlipPoint(r, b) && WaitsAtLeast(r, on, off)
    requires on % SECOND == 0 && off % SECOND == 0
    ensures r.At(i).now >= Pace(r, b, i, on, off)
    ensures r.Ledger(i).since != 0 ==> r.Ledger(i).since >= Pace(r, b, i, on, off)
    decreases i - b
  {
    hide Run.At, GateCloses, QueueState, SwitchBackCooldown, Rfc3339.FloorSecond, Pace;
    if i == b {
      PaceStarts(r, b, on, off);
      if b == 0 { StartLedger(r); } else { LedgerStep(r, b - 1); FloorFacts(r.At(b - 1).now); }
    } else {
      FlipsKeepPace(r, b, i - 1, on, off);
      LedgerStep(r, i - 1);
      PaceGrows(r, b, i, on, off);
      PaceIsWhole(r, b, i - 1, on, off); PaceIsWhole(r, b, i, on, off);
      FloorKeepsBound(r.At(i - 1).now, Pace(r, b, i - 1, on, off));
      FloorKeepsBound(r.At(i - 1).now, Pace(r, b, i, on, off));
      FloorFacts(r.Ledger(i - 1).since);
    }
  }

  lemma {:induction false} FlipsReach(r: Run, b: nat, i: nat, f: nat) returns (m: nat)
    requires b <= i <= |r.steps| && f <= Flips(r, b, i)
    ensures b <= m <= i && Flips(r, b, m) == f
    decreases i - b
  {
    hide Run.At;
    if Flips(r, b, i) == f { m := i; } else { m := FlipsReach(r, b, i - 1, f); }
  }

  /** k round trips between Steady and Spill, counted from the start of the run or from any flip,
      take more than k times both cooldowns minus two seconds. */
  lemma FlapBound(r: Run, b: nat, i: nat, k: nat, on: int, off: int)
    requires r.Valid() && b <= i <= |r.steps| && FlipPoint(r, b) && WaitsAtLeast(r, on, off)
    requires k > 0 && Flips(r, b, i) >= 2 * k
    ensures r.At(i).now - r.At(b).now > k * (on + off - 2 * SECOND)
  {
    var m := FlipsReach(r, b, i, 2 * k);
    FlipsTakeTime(r, b, m, on, off);
    RoundTripBudget(k, r.Ledger(b).state, on, off);
    ClockAdvances(r, m, i);
  }

  /** With whole-second cooldowns, k round trips take at least k times both of them, less what the
      start lies after its whole second. */
  lemma WholeFlapBound(r: Run, b: nat, i: nat, k: nat, on: int, off: int)
    requires r.Valid() && b <= i <= |r.steps| && FlipPoint(r, b) && WaitsAtLeast(r, on, off)
    requires on % SECOND == 0 && off % SECOND == 0 && k > 0 && Flips(r, b, i) >= 2 * k
    ensures r.At(i).now - Rfc3339.FloorSecond(r.At(b).now) >= k * (on + off)
  {
    hide Run.At, Rfc3339.FloorSecond;
    var m := FlipsReach(r, b, i, 2 * k);
    FlipsKeepPace(r, b, m, on, off);
    RoundTripBudget(k, r.Ledger(b).state, on, off);
    ClockAdvances(r, m, i);
  }
}

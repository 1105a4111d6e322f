/** The evaluator (pkg/evaluator/state_machine.go, evaluator.go): the cooldown machine and the
    decision it produces.

    Two library facts are parameters, bundled in `Env`: sha256, and the rounding of float64
    arithmetic, which only the switch-back cooldown uses. */
module StateMachine {
  import opened Prelude
  import opened Api
  import opened Encoding
  import Rfc3339

  datatype Env = Env(sha: string -> string, rnd: real -> real)

  /** What a snapshot aggregates from the cluster: everything a decision reads beside the Queue. */
  datatype Observation = Observation(
    demandCPU: int, demandMemory: int, demandEstimatedPGs: int,
    maxCPU: int, maxMemory: int,
    overflowPods: int,
    autoscalerExhausted: bool,
    stalestPendingFor: int, stalePendingPods: int)

  datatype Snapshot = Snapshot(
    policy: SpillPolicy,
    observedAt: int,
    currentState: State,
    conditionSince: int,
    decisionHash: string,
    seen: Observation)

  datatype Transition = Transition(nextState: State, conditionSince: int, fired: bool)

  /** The controller-owned part of the target Queue. */
  datatype DesiredQueue = DesiredQueue(name: string, annotations: map<string, string>, affinity: NodeGroupAffinity)

  datatype Decision = Decision(
    policy: SpillPolicy,
    from: State,
    to: State,
    trigger: Trigger,
    desired: DesiredQueue,
    hash: string,
    observedAt: int,
    inputs: Observation,
    timeInState: int)

  // ---------- The machine ----------

  function InstantCondition(state: State, p: SpillPolicy, o: Observation): (bool, Trigger) {
    match state
    case Spill =>
      if o.overflowPods == 0 then (true, Switchback) else (false, NoTrigger)
    case Steady =>
      if o.autoscalerExhausted then (true, AutoscalerExhausted)
      else if p.thresholds.timePendingMax > 0 && o.stalestPendingFor > p.thresholds.timePendingMax then
        (true, StalePending)
      else (false, NoTrigger)
  }

  predicate Condition(state: State, p: SpillPolicy, o: Observation) {
    InstantCondition(state, p, o).0
  }

  /** Conversion of a float to an integer drops the fraction. */
  function Truncate(x: real): (r: int)
    ensures x >= 0.0 ==> r as real <= x < r as real + 1.0
    ensures x <= 0.0 ==> r as real - 1.0 < x <= r as real
  {
    if x >= 0.0 then x.Floor else -(-x).Floor
  }

  function Times(x: real, y: real): real {
    x * y
  }

  function ScaleDuration(rnd: real -> real, d: int, factor: real): int {
    var base := rnd(d as real);
    Truncate(rnd(Times(base, factor)))
  }

  /** TimeOff * (1 + hysteresis), in float64. */
  function SwitchBackCooldown(rnd: real -> real, timeOff: int, hysteresis: real): int {
    ScaleDuration(rnd, timeOff, rnd(1.0 + hysteresis))
  }

  function CooldownFor(rnd: real -> real, p: SpillPolicy, state: State): int {
    match state
    case Spill => SwitchBackCooldown(rnd, p.thresholds.timeOff, p.thresholds.hysteresis)
    case Steady => p.thresholds.timeOn
  }

  function FlipState(s: State): State {
    match s
    case Spill => Steady
    case Steady => Spill
  }

  function NextState(rnd: real -> real, s: Snapshot): Transition {
    if Condition(s.currentState, s.policy, s.seen) then
      if s.conditionSince != 0 then
        if s.observedAt - s.conditionSince >= CooldownFor(rnd, s.policy, s.currentState) then
          Transition(FlipState(s.currentState), s.observedAt, true)
        else
          Transition(s.currentState, s.conditionSince, false)
      else
        Transition(s.currentState, s.observedAt, false)
    else
      Transition(s.currentState, 0, false)
  }

  function NodeGroupAffinityFor(p: SpillPolicy, state: State): NodeGroupAffinity {
    match state
    case Spill => NodeGroupAffinity([p.dedicated, p.overflow], [p.dedicated])
    case Steady => NodeGroupAffinity([p.dedicated], [])
  }

  function MaterializeQueue(p: SpillPolicy, state: State, since: int): DesiredQueue {
    var base := map[STATE_KEY := StateName(state)];
    DesiredQueue(
      p.queueName,
      if since == 0 then base else base[SINCE_KEY := Rfc3339.Format(since)],
      NodeGroupAffinityFor(p, state))
  }

  function TriggerFor(s: Snapshot, t: Transition): Trigger {
    if !t.fired then NoTrigger else InstantCondition(s.currentState, s.policy, s.seen).1
  }

  /** Never negative, even when the stamp lies in the future. */
  function TimeInState(s: Snapshot): (d: int)
    ensures d >= 0
    ensures s.conditionSince != 0 && s.conditionSince <= s.observedAt ==> s.conditionSince + d == s.observedAt
    ensures s.conditionSince == 0 || s.conditionSince > s.observedAt ==> d == 0
  {
    if s.conditionSince == 0 || s.observedAt < s.conditionSince then 0 else s.observedAt - s.conditionSince
  }

  function Evaluate(env: Env, s: Snapshot): Decision {
    var t := NextState(env.rnd, s);
    var bare := MaterializeQueue(s.policy, t.nextState, t.conditionSince);
    var hash := DecisionHash(env.sha, t.nextState, Some(bare.affinity), t.conditionSince);
    Decision(
      s.policy, s.currentState, t.nextState, TriggerFor(s, t),
      bare.(annotations := bare.annotations[HASH_KEY := hash]),
      hash, s.observedAt, s.seen, TimeInState(s))
  }

  /** A decision carries a trigger exactly when it changes the state, and the trigger names what
      justified the change: the autoscaler wins over stale pods, and only a drained overflow pool
      leads back. */
  lemma TriggerJustifiesFlip(env: Env, s: Snapshot)
    ensures var d := Evaluate(env, s);
            && d.policy == s.policy && d.from == s.currentState && d.observedAt == s.observedAt && d.inputs == s.seen
            && (s.conditionSince == 0 ==> d.timeInState == 0)
            && (0 != s.conditionSince <= s.observedAt ==> s.conditionSince + d.timeInState == s.observedAt)
            && (d.trigger != NoTrigger <==> d.to != d.from)
            && (d.trigger == AutoscalerExhausted ==> d.from == Steady && s.seen.autoscalerExhausted)
            && (d.trigger == StalePending ==>
                  d.from == Steady && !s.seen.autoscalerExhausted
                  && s.seen.stalestPendingFor > s.policy.thresholds.timePendingMax)
            && (d.trigger == Switchback ==> d.from == Spill && s.seen.overflowPods == 0)
  {
    var t := NextState(env.rnd, s);
    assert t.fired ==> Condition(s.currentState, s.policy, s.seen);
  }

  // ---------- The switch-back cooldown ----------

  const TWO_53 := 0x20_0000_0000_0000
  const TWO_63 := 0x8000_0000_0000_0000

  ghost predicate KeepsOrder(rnd: real -> real, x: real, y: real) {
    x <= y ==> rnd(x) <= rnd(y)
  }

  ghost predicate KeepsInteger(rnd: real -> real, n: int) {
    rnd(n as real) == n as real
  }

  ghost predicate KeepsFloat(rnd: real -> real, x: real) {
    rnd(rnd(x)) == rnd(x) && rnd(2.0 * rnd(x)) == 2.0 * rnd(x)
  }

  /** What is needed of float64 rounding: it is monotone, keeps the integers up to 2^53, and keeps
      every float and its double, within the range of a Duration. */
  ghost predicate Rounding(rnd: real -> real) {
    && (forall x, y :: KeepsOrder(rnd, x, y))
    && (forall n :: 0 <= n <= TWO_53 ==> KeepsInteger(rnd, n))
    && (forall x :: 0.0 <= x <= TWO_63 as real ==> KeepsFloat(rnd, x))
  }

  /** Exact arithmetic is such a rounding, and an accurate one. */
  lemma ExactRounding()
    ensures Rounding((x: real) => x) && Accurate((x: real) => x)
  {
    var id := (x: real) => x;
    forall x: real, y: real ensures KeepsOrder(id, x, y) {}
    forall n: int ensures KeepsInteger(id, n) {}
    forall x: real ensures KeepsFloat(id, x) {}
    forall x: real | x >= 1.0 ensures KeepsClose(id, x) {}
  }

  lemma ScaleBounds(base: real, f: real, x: real)
    requires base >= 0.0 && 1.0 <= f <= 2.0 && x == base * f
    ensures base <= x <= 2.0 * base
  {
    assert x - base == base * (f - 1.0) >= 0.0;
    assert 2.0 * base - x == base * (2.0 - f) >= 0.0;
  }

  lemma ScaleMonotone(base: real, f: real, f': real, x: real, x': real)
    requires base >= 0.0 && 0.0 <= f <= f' && x == base * f && x' == base * f'
    ensures 0.0 <= x <= x'
  {
    assert x' - x == base * (f' - f) >= 0.0;
  }

  lemma RoundMonotone(rnd: real -> real, x: real, y: real)
    requires Rounding(rnd) && 0.0 <= x <= y
    ensures 0.0 <= rnd(x) <= rnd(y) && Truncate(rnd(x)) <= Truncate(rnd(y))
  {
    SmallIntegersKept(rnd);
    assert KeepsOrder(rnd, 0.0, x) && KeepsOrder(rnd, x, y);
  }

  lemma SmallIntegersKept(rnd: real -> real)
    requires Rounding(rnd)
    ensures rnd(0.0) == 0.0 && rnd(1.0) == 1.0 && rnd(2.0) == 2.0
  {
    assert KeepsInteger(rnd, 0) && KeepsInteger(rnd, 1) && KeepsInteger(rnd, 2);
  }

  lemma RoundedScale(rnd: real -> real, base: real, x: real)
    requires Rounding(rnd) && 0.0 <= base <= x <= 2.0 * base && rnd(base) == base && rnd(2.0 * base) == 2.0 * base
    ensures Truncate(base) <= Truncate(rnd(x)) <= Truncate(2.0 * base)
  {
    RoundMonotone(rnd, base, x);
    RoundMonotone(rnd, x, 2.0 * base);
  }

  /** The switch-back cooldown lies between the (rounded) TimeOff and its double, and is the rounded
      TimeOff when there is no hysteresis.  Up to 2^53 ns, TimeOff itself is not rounded. */
  lemma SwitchBackBounds(rnd: real -> real, timeOff: int, h: real)
    requires Rounding(rnd) && 0 < timeOff <= TWO_63 && 0.0 <= h <= 1.0
    ensures var c := SwitchBackCooldown(rnd, timeOff, h);
            && Truncate(rnd(timeOff as real)) <= c <= Truncate(2.0 * rnd(timeOff as real))
            && (h == 0.0 ==> c == Truncate(rnd(timeOff as real)))
            && (timeOff <= TWO_53 ==> timeOff <= c <= 2 * timeOff)
            && (timeOff <= TWO_53 && h == 0.0 ==> c == timeOff)
            && (timeOff <= TWO_53 && h == 1.0 ==> c == 2 * timeOff)
  {
    var base, f := rnd(timeOff as real), rnd(1.0 + h);
    SmallIntegersKept(rnd);
    assert KeepsFloat(rnd, timeOff as real);
    assert timeOff <= TWO_53 ==> KeepsInteger(rnd, timeOff);
    RoundMonotone(rnd, 0.0, timeOff as real);
    RoundMonotone(rnd, 1.0, 1.0 + h);
    RoundMonotone(rnd, 1.0 + h, 2.0);
    var x := Times(base, f);
    ScaleBounds(base, f, x);
    RoundedScale(rnd, base, x);
    if h == 0.0 { assert f == 1.0 && x == base; }
    if h == 1.0 { assert f == 2.0 && x == 2.0 * base; }
  }

  lemma ScaleDurationMonotone(rnd: real -> real, d: int, f: real, f': real)
    requires Rounding(rnd) && d >= 0 && 0.0 <= f <= f'
    ensures ScaleDuration(rnd, d, f) <= ScaleDuration(rnd, d, f')
  {
    var base := rnd(d as real);
    RoundMonotone(rnd, 0.0, d as real);
    var x, x' := Times(base, f), Times(base, f');
    ScaleMonotone(base, f, f', x, x');
    RoundMonotone(rnd, x, x');
  }

  /** More hysteresis never shortens the cooldown. */
  lemma SwitchBackMonotone(rnd: real -> real, timeOff: int, h: real, h': real)
    requires Rounding(rnd) && timeOff >= 0 && 0.0 <= h <= h'
    ensures SwitchBackCooldown(rnd, timeOff, h) <= SwitchBackCooldown(rnd, timeOff, h')
  {
    RoundMonotone(rnd, 0.0, 1.0 + h);
    RoundMonotone(rnd, 1.0 + h, 1.0 + h');
    ScaleDurationMonotone(rnd, timeOff, rnd(1.0 + h), rnd(1.0 + h'));
  }

  /** A rounded value is off by at most one part in 2^53, half a unit in the last place. */
  ghost predicate KeepsClose(rnd: real -> real, x: real) {
    x * (TWO_53 - 1) as real <= rnd(x) * TWO_53 as real <= x * (TWO_53 + 1) as real
  }

  /** This is what float64 keeps of normal numbers; far below 1 it may round to zero. */
  ghost predicate Accurate(rnd: real -> real) {
    forall x :: 1.0 <= x <= TWO_63 as real ==> KeepsClose(rnd, x)
  }

  lemma ScaleError(base: real, f: real, g: real)
    requires 0.0 <= base <= TWO_53 as real && -2.0 <= (f - g) * TWO_53 as real <= 2.0
    ensures base * g - 2.0 <= base * f <= base * g + 2.0
  {
    var e := (f - g) * TWO_53 as real;
    var share := base / TWO_53 as real;
    assert 0.0 <= share <= 1.0;
    assert base * f - base * g == share * e;
    ShareBounds(share, e);
  }

  lemma ShareBounds(share: real, e: real)
    requires 0.0 <= share <= 1.0 && -2.0 <= e <= 2.0
    ensures -2.0 <= share * e <= 2.0
  {
    if e >= 0.0 {
      ScaleMonotone(e, share, 1.0, e * share, e * 1.0);
    } else {
      ScaleMonotone(-e, share, 1.0, -e * share, -e * 1.0);
      assert -e * share == -(share * e);
    }
  }

  /** With float64 accuracy the cooldown misses TimeOff * (1 + hysteresis) by less than five nanoseconds. */
  lemma SwitchBackIsNear(rnd: real -> real, timeOff: int, h: real)
    requires Rounding(rnd) && Accurate(rnd) && 0 < timeOff <= TWO_53 && 0.0 <= h <= 1.0
    ensures var c, exact := SwitchBackCooldown(rnd, timeOff, h) as real, timeOff as real * (1.0 + h);
            exact - 5.0 < c <= exact + 4.0
  {
    hide Rounding, Accurate;
    var base, f := timeOff as real, rnd(1.0 + h);
    RoundedParts(rnd, timeOff, h);
    ScaleError(base, f, 1.0 + h);
    var x := Times(base, f);
    ScaleBounds(base, f, x);
    RoundedNear(rnd, x);
  }

  lemma RoundedParts(rnd: real -> real, timeOff: int, h: real)
    requires Rounding(rnd) && Accurate(rnd) && 0 < timeOff <= TWO_53 && 0.0 <= h <= 1.0
    ensures rnd(timeOff as real) == timeOff as real
    ensures 1.0 <= rnd(1.0 + h) <= 2.0 && -2.0 <= (rnd(1.0 + h) - (1.0 + h)) * TWO_53 as real <= 2.0
  {
    SmallIntegersKept(rnd);
    assert KeepsInteger(rnd, timeOff) && KeepsClose(rnd, 1.0 + h);
    RoundMonotone(rnd, 1.0, 1.0 + h);
    RoundMonotone(rnd, 1.0 + h, 2.0);
  }

  lemma NearBy(x: real, y: real)
    requires 0.0 <= x <= 2.0 * TWO_53 as real
    requires -x <= (y - x) * TWO_53 as real <= x
    ensures x - 2.0 <= y <= x + 2.0
  {
  }

  lemma TruncatedNear(y: real)
    requires y >= 0.0
    ensures y - 1.0 < Truncate(y) as real <= y
  {
  }

  lemma RoundedNear(rnd: real -> real, x: real)
    requires Rounding(rnd) && Accurate(rnd) && 1.0 <= x <= 2.0 * TWO_53 as real
    ensures x - 2.0 <= rnd(x) <= x + 2.0 && rnd(x) - 1.0 < Truncate(rnd(x)) as real <= rnd(x)
  {
    assert KeepsClose(rnd, x);
    RoundMonotone(rnd, 0.0, x);
    hide Rounding, Accurate, Truncate;
    NearBy(x, rnd(x));
    TruncatedNear(rnd(x));
  }
}

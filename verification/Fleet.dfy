/** All Queues of a controller together: policies for different Queues share the clock and the API server.
    Each Queue lives in a run of its own, so whatever is proved of runs holds of every Queue of a fleet;
    and under an accepted configuration every Queue is served by the one entry that names it. */
module Fleet {
  import opened Prelude
  import opened Api
  import opened Encoding
  import opened StateMachine
  import opened QueueLedger
  import opened Reconciler
  import opened Runs
  import opened HashGate
  import opened Registry
  import Rfc3339

  datatype FleetStep =
    | Elapse(d: nat)
    | Serve(policy: SpillPolicy, seen: Observation, fault: Fault)
    | RestartAll
    | EditOf(queue: string, edit: Edit)

  datatype FleetWorld = FleetWorld(now: int, server: Server)

  function FleetAfter(env: Env, w: FleetWorld, s: FleetStep): FleetWorld {
    match s
    case Elapse(d) => w.(now := w.now + d)
    case Serve(p, seen, fault) => w.(server := ReconcileOn(env, true, w.server, w.now, p, seen, fault).0)
    case RestartAll => w
    case EditOf(name, e) =>
      w.(server := w.server.(
        queues := w.server.queues[name := EditQueue(FindQueue(w.server.queues, name), e)]))
  }

  datatype FleetRun = FleetRun(env: Env, start: FleetWorld, steps: seq<FleetStep>) {

    function At(i: nat): FleetWorld
      requires i <= |steps|
    {
      if i == 0 then start else FleetAfter(env, At(i - 1), steps[i - 1])
    }
  }

  // ---------- One run for each Queue ----------

  /** What a step of the fleet is for the Queue `name`. */
  function StepOf(s: FleetStep, name: string): Step {
    match s
    case Elapse(d) => Tick(d)
    case Serve(p, seen, fault) => if p.queueName == name then Reconcile(p, seen, fault) else Tick(0)
    case RestartAll => Restart
    case EditOf(queue, e) => if queue == name then OperatorEdit(e) else Tick(0)
  }

  function ViewAt(w: FleetWorld, name: string): World {
    ViewOf(w.server, w.now, name)
  }

  function Lane(f: FleetRun, name: string): Run {
    Run(f.env, ViewAt(f.start, name), seq(|f.steps|, i requires 0 <= i < |f.steps| => StepOf(f.steps[i], name)))
  }

  lemma LaneStep(env: Env, w: FleetWorld, s: FleetStep, name: string)
    ensures ViewAt(FleetAfter(env, w, s), name) == After(env, true, ViewAt(w, name), StepOf(s, name))
  {
    hide ReconcileOn, ReconcileOnce;
    if s.Serve? {
      ReconcileServesItsQueue(env, true, w.server, w.now, s.policy, s.seen, s.fault, name);
    }
  }

  /** Each Queue of a fleet takes the steps of its own run, undisturbed by all others. */
  lemma {:induction false} LanesAreRuns(f: FleetRun, name: string, i: nat)
    requires i <= |f.steps|
    ensures ViewAt(f.At(i), name) == Lane(f, name).At(i)
  {
    hide FleetAfter, After, ViewAt;
    if i == 0 {
    } else {
      LanesAreRuns(f, name, i - 1);
      LaneStep(f.env, f.At(i - 1), f.steps[i - 1], name);
    }
  }

  // ---------- Under an accepted configuration ----------

  /** The fleet serves the policies of a registry, operators edit what is theirs, the Queue `name` starts
      without the controller's annotations, and the clock is in range. */
  ghost predicate Serves(f: FleetRun, reg: PolicyRegistry, name: string) {
    && CollisionFree(f.env.sha)
    && Fresh(FindQueue(f.start.server.queues, name))
    && (forall i: nat :: i <= |f.steps| ==> ClockInRange(f.At(i).now))
    && (forall i :: 0 <= i < |f.steps| && f.steps[i].Serve? ==> f.steps[i].policy in reg.policies)
    && (forall i :: 0 <= i < |f.steps| && f.steps[i].EditOf? ==> EditIsUnowned(f.steps[i].edit))
  }

  /** Only one policy of an accepted registry serves a Queue. */
  lemma OnePolicyPerQueue(reg: PolicyRegistry, p: SpillPolicy, q: SpillPolicy)
    requires Accepted(reg) && p in reg.policies && q in reg.policies && p.queueName == q.queueName
    ensures p == q
  {
    hide Indexed;
    IndexAgreesWithList(reg, p, p.queueName); IndexAgreesWithList(reg, q, p.queueName);
  }

  /** The run of a Queue that a policy of the registry names is valid, and under that policy only. */
  lemma LaneIsValid(f: FleetRun, reg: PolicyRegistry, p: SpillPolicy)
    requires Accepted(reg) && p in reg.policies && Serves(f, reg, p.queueName)
    ensures Lane(f, p.queueName).Valid()
    ensures var r := Lane(f, p.queueName);
            forall j :: 0 <= j < |r.steps| && r.IsReconcile(j) ==> r.steps[j].policy == p
  {
    hide Accepted, Run.At, FleetRun.At, Rfc3339.Writable;
    var r := Lane(f, p.queueName);
    forall j: nat | j < |r.steps| && r.steps[j].Reconcile? ensures r.steps[j].policy == p {
      OnePolicyPerQueue(reg, p, f.steps[j].policy);
    }
    assert forall q :: q in r.Policies() ==> q == p;
    ApartWhen(r.Policies());
    forall i: nat | i <= |r.steps| ensures r.At(i).now == f.At(i).now { LanesAreRuns(f, p.queueName, i); }
    FleetStart(f, p.queueName);
    forall i: nat | i < |r.steps| ensures StepAllowed(r.steps[i]) && ClockInRange(r.At(i + 1).now) {}
  }

  lemma FleetStart(f: FleetRun, name: string)
    ensures f.At(0) == f.start && Lane(f, name).start == ViewAt(f.start, name)
  {
  }

  /** From the configuration to the Queue: in every run of an accepted configuration, the Queue that an
      entry names requires the entry's dedicated group, and in Spill its overflow group too, where it
      prefers the dedicated one; as long as the controller has not written it, it has no annotations. */
  lemma ConfiguredAffinity(f: FleetRun, reg: PolicyRegistry, raw: RawConfig, i: nat, n: nat)
    requires Accepted(reg) && MadeFrom(reg, raw) && i < |raw.policies| && n <= |f.steps|
    requires Serves(f, reg, raw.policies[i].queueName)
    ensures var e := raw.policies[i]; var q := FindQueue(f.At(n).server.queues, e.queueName);
            || Fresh(q)
            || (q.Some? && q.value.affinity == Some(
                  if QueueState(q).state == Spill then NodeGroupAffinity([e.dedicated, e.overflow], [e.dedicated])
                  else NodeGroupAffinity([e.dedicated], [])))
  {
    hide Accepted, Run.At, FleetRun.At, Run.Valid, Serves, QueueState;
    var p := reg.policies[i];
    LaneIsValid(f, reg, p);
    AffinityFollowsState(Lane(f, p.queueName), n, p);
    LanesAreRuns(f, p.queueName, n);
  }
}

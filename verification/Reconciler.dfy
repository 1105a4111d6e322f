/** One reconcile (pkg/reconcile/reconciler.go) against the Queue it reads and writes, and the steps
    of which runs are made. */
module Reconciler {
  import opened Prelude
  import opened Api
  import opened StateMachine
  import opened QueueLedger

  /** What can go wrong: the snapshot cannot be built, the API server refuses the write, or the
      write lands but its reply is lost (also the effect of a crash right after the write). */
  datatype Fault = NoFault | BuildFails | WriteRefused | ReplyLost

  /** The clock, the one Queue of the policy, and the number of Apply calls so far. */
  datatype World = World(now: int, queue: Option<Queue>, applies: nat)

  function AffinityOf(w: World): Option<NodeGroupAffinity> {
    if w.queue.Some? then w.queue.value.affinity else None
  }

  function DecisionIn(env: Env, w: World, p: SpillPolicy, seen: Observation): Decision {
    Evaluate(env, SnapshotOf(p, w.now, w.queue, seen))
  }

  predicate GateCloses(env: Env, w: World, p: SpillPolicy, seen: Observation) {
    DecisionIn(env, w, p, seen).hash == QueueState(w.queue).hash
  }

  /** The world after a reconcile, and whether it returned an error; `gated` is false for the
      reference that always applies. */
  function ReconcileOnce(env: Env, gated: bool, w: World, p: SpillPolicy, seen: Observation, fault: Fault)
    : (World, bool)
  {
    if fault == BuildFails then (w, true)
    else if gated && GateCloses(env, w, p, seen) then (w, false)
    else
      var after := Some(ServerSideApply(w.queue, PayloadOf(DecisionIn(env, w, p, seen))));
      (World(w.now, if fault == WriteRefused then w.queue else after, w.applies + 1), fault != NoFault)
  }

  // ---------- The server of all Queues ----------

  /** Every Queue by its name, and the number of Apply calls for each name so far. */
  datatype Server = Server(queues: map<string, Queue>, applies: map<string, nat>)

  function AppliesOf(s: Server, name: string): nat {
    if name in s.applies then s.applies[name] else 0
  }

  function ServerAfterApply(s: Server, cfg: Payload, fault: Fault): Server {
    Server(
      if fault == WriteRefused then s.queues
      else s.queues[cfg.name := ServerSideApply(FindQueue(s.queues, cfg.name), cfg)],
      s.applies[cfg.name := AppliesOf(s, cfg.name) + 1])
  }

  /** A reconcile on the server: it reads the Queue that the policy names and writes the one that the
      payload names. */
  function ReconcileOn(env: Env, gated: bool, s: Server, now: int, p: SpillPolicy, seen: Observation, fault: Fault)
    : (Server, bool)
  {
    var q := FindQueue(s.queues, p.queueName);
    var d := Evaluate(env, SnapshotOf(p, now, q, seen));
    if fault == BuildFails then (s, true)
    else if gated && d.hash == QueueState(q).hash then (s, false)
    else (ServerAfterApply(s, PayloadOf(d), fault), fault != NoFault)
  }

  function ViewOf(s: Server, now: int, name: string): World {
    World(now, FindQueue(s.queues, name), AppliesOf(s, name))
  }

  /** The payload names the policy's Queue. */
  lemma PayloadNamesQueue(env: Env, s: Snapshot)
    ensures PayloadOf(Evaluate(env, s)).name == s.policy.queueName
  {
  }

  /** A reconcile reads and writes exactly the Queue that its policy names: there it is the step that
      runs are made of, and every other Queue and its count of Apply calls stay as they are. */
  lemma ReconcileServesItsQueue(
      env: Env, gated: bool, s: Server, now: int, p: SpillPolicy, seen: Observation, fault: Fault, name: string)
    ensures var (s', e) := ReconcileOn(env, gated, s, now, p, seen, fault);
            if name == p.queueName then
              (ViewOf(s', now, name), e) == ReconcileOnce(env, gated, ViewOf(s, now, name), p, seen, fault)
            else
              FindQueue(s'.queues, name) == FindQueue(s.queues, name) && AppliesOf(s', name) == AppliesOf(s, name)
  {
    PayloadNamesQueue(env, SnapshotOf(p, now, FindQueue(s.queues, p.queueName), seen));
    hide Evaluate, ServerSideApply, QueueState;
  }

  // ---------- The code ----------

  class ApiServer {
    var queues: map<string, Queue>
    var applies: map<string, nat>

    constructor (queues: map<string, Queue>)
      ensures Contents() == Server(queues, map[])
    {
      this.queues, applies := queues, map[];
    }

    function Contents(): Server
      reads this
    {
      Server(queues, applies)
    }

    /** Action.Apply; `fault` is the environment's choice. */
    method Apply(cfg: Payload, fault: Fault) returns (failed: bool)
      modifies this
      ensures Contents() == ServerAfterApply(old(Contents()), cfg, fault)
      ensures failed <==> fault != NoFault
    {
      applies := applies[cfg.name := (if cfg.name in applies then applies[cfg.name] else 0) + 1];
      if fault == WriteRefused {
        return true;
      }
      queues := queues[cfg.name := ServerSideApply(FindQueue(queues, cfg.name), cfg)];
      failed := fault != NoFault;
    }
  }

  class PolicyReconciler {
    const env: Env
    const policy: SpillPolicy
    const api: ApiServer

    constructor (env: Env, policy: SpillPolicy, api: ApiServer)
      ensures this.env == env && this.policy == policy && this.api == api
    {
      this.env, this.policy, this.api := env, policy, api;
    }

    method Build(now: int, seen: Observation, fault: Fault) returns (snap: Option<Snapshot>)
      ensures snap == if fault == BuildFails then None
                      else Some(SnapshotOf(policy, now, FindQueue(api.queues, policy.queueName), seen))
    {
      if fault == BuildFails {
        return None;
      }
      var queue := FindQueue(api.queues, policy.queueName);
      snap := Some(SnapshotOf(policy, now, queue, seen));
    }

    /** The Queue of the policy takes the step that runs are made of; all others stay as they are. */
    method ReconcilePolicy(now: int, seen: Observation, fault: Fault) returns (failed: bool)
      modifies api
      ensures (api.Contents(), failed) == ReconcileOn(env, true, old(api.Contents()), now, policy, seen, fault)
      ensures (ViewOf(api.Contents(), now, policy.queueName), failed)
           == ReconcileOnce(env, true, ViewOf(old(api.Contents()), now, policy.queueName), policy, seen, fault)
      ensures forall name :: name != policy.queueName ==>
                FindQueue(api.queues, name) == FindQueue(old(api.queues), name)
    {
      forall name { ReconcileServesItsQueue(env, true, api.Contents(), now, policy, seen, fault, name); }
      hide Evaluate, ServerSideApply, QueueState, ReconcileOnce;
      var snap := Build(now, seen, fault);
      if snap == None {
        return true;
      }
      var d := Evaluate(env, snap.value);
      if d.hash == snap.value.decisionHash {
        return false;
      }
      var cfg := QueueApplyConfiguration(d);
      failed := api.Apply(cfg, fault);
    }
  }

  // ---------- Steps ----------

  /** Operators write every Queue field except the controller's. */
  datatype Edit =
    | SetAnnotation(key: string, value: string)
    | DropAnnotation(key: string)
    | SetCapability(capability: map<string, int>)
    | SetOther(key: string, value: string)

  predicate EditIsUnowned(e: Edit) {
    (e.SetAnnotation? || e.DropAnnotation?) ==> e.key !in OWNED_KEYS
  }

  function EditUnowned(u: Unowned, e: Edit): Unowned {
    match e
    case SetAnnotation(k, v) => u.(annotations := u.annotations[k := v])
    case DropAnnotation(k) => u.(annotations := u.annotations - {k})
    case SetCapability(c) => u.(capability := c)
    case SetOther(k, v) => u.(other := u.other[k := v])
  }

  /** An edit of a missing Queue creates it. */
  function EditQueue(q: Option<Queue>, e: Edit): Queue {
    var live := if q.Some? then q.value else Queue(map[], None, map[], map[]);
    match e
    case SetAnnotation(k, v) => live.(annotations := live.annotations[k := v])
    case DropAnnotation(k) => live.(annotations := live.annotations - {k})
    case SetCapability(c) => live.(capability := c)
    case SetOther(k, v) => live.(other := live.other[k := v])
  }

  lemma EditParts(q: Option<Queue>, e: Edit)
    requires EditIsUnowned(e)
    ensures var q' := Some(EditQueue(q, e));
            OwnedPart(q') == OwnedPart(q) && UnownedPart(q') == EditUnowned(UnownedPart(q), e)
  {
    var q' := Some(EditQueue(q, e));
    assert OwnedPart(q').annotations == OwnedPart(q).annotations;
    assert UnownedPart(q').annotations == EditUnowned(UnownedPart(q), e).annotations;
  }

  /** `Restart` loses the process memory, which holds nothing of the loop.  `ForeignAffinity` is a write
      of the owned affinity by someone else; a missing Queue has none. */
  datatype Step =
    | Tick(d: nat)
    | Reconcile(policy: SpillPolicy, seen: Observation, fault: Fault)
    | Restart
    | OperatorEdit(edit: Edit)
    | ForeignAffinity(affinity: Option<NodeGroupAffinity>)

  function After(env: Env, gated: bool, w: World, s: Step): World {
    match s
    case Tick(d) => w.(now := w.now + d)
    case Reconcile(p, seen, fault) => ReconcileOnce(env, gated, w, p, seen, fault).0
    case Restart => w
    case OperatorEdit(e) => w.(queue := Some(EditQueue(w.queue, e)))
    case ForeignAffinity(a) => w.(queue := if w.queue.Some? then Some(w.queue.value.(affinity := a)) else None)
  }
}

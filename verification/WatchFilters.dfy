/** The update handlers of the PodGroup, Node and Queue watches (pkg/watcher/podgroup_watch.go,
    node_watch.go, queue_watch.go): which policies they enqueue, and why the updates they drop cannot
    change anyone's decision; and the handler of autoscaler events (pod_event_watch.go), which can drop
    an event that does. */
module WatchFilters {
  import opened Prelude
  import opened Api
  import opened StateMachine
  import opened QueueLedger
  import opened Registry
  import opened Snapshots
  import opened SnapshotMeaning
  import opened StalePending

  const SPILL_PREFIX := "spill.example.com/"

  /** The policy that owns a queue, as a list of at most one name. */
  function Owner(reg: PolicyRegistry, queue: string): seq<string> {
    match PolicyByQueue(reg, queue)
    case Some(p) => [p.name]
    case None => []
  }

  predicate PodGroupChanged(prior: PodGroup, next: PodGroup) {
    || prior.queue != next.queue || prior.phase != next.phase
    || prior.minMember != next.minMember || prior.minResources != next.minResources
  }

  function PodGroupTargets(reg: PolicyRegistry, prior: PodGroup, next: PodGroup): seq<string> {
    if !PodGroupChanged(prior, next) then []
    else (if prior.queue != next.queue then Owner(reg, prior.queue) else []) + Owner(reg, next.queue)
  }

  function ReadyStatus(cs: seq<NodeCondition>): string {
    if cs == [] then "Unknown" else if cs[0].kind == "Ready" then cs[0].status else ReadyStatus(cs[1..])
  }

  predicate NodeSupplyChanged(prior: Node, next: Node) {
    || prior.unschedulable != next.unschedulable || prior.allocatable != next.allocatable
    || ReadyStatus(prior.conditions) != ReadyStatus(next.conditions) || prior.taints != next.taints
  }

  function ForValue(reg: PolicyRegistry, v: string): seq<string> {
    if v == "" then [] else PoliciesForNodeGroup(reg, v)
  }

  function NodeTargets(reg: PolicyRegistry, key: string, prior: Node, next: Node): seq<string> {
    var oldVal, newVal := Lookup(prior.labels, key), Lookup(next.labels, key);
    if oldVal != newVal then ForValue(reg, oldVal) + ForValue(reg, newVal)
    else if NodeSupplyChanged(prior, next) then ForValue(reg, newVal)
    else []
  }

  function SpillOnly(m: map<string, string>): map<string, string> {
    map k | k in m && SPILL_PREFIX <= k :: m[k]
  }

  predicate QueueChanged(prior: Queue, next: Queue) {
    || prior.affinity != next.affinity || prior.capability != next.capability
    || SpillOnly(prior.annotations) != SpillOnly(next.annotations)
  }

  function QueueTargets(reg: PolicyRegistry, name: string, prior: Queue, next: Queue): seq<string> {
    if QueueChanged(prior, next) then Owner(reg, name) else []
  }

  /** The pod of that namespace and name in the informer store. */
  function FindPod(ps: seq<Pod>, namespace: string, name: string): Option<Pod> {
    if ps == [] then None
    else if ps[0].namespace == namespace && ps[0].name == name then Some(ps[0])
    else FindPod(ps[1..], namespace, name)
  }

  /** The policy of the pod of that key, as the handler resolves it. */
  function ResolveKey(reg: PolicyRegistry, c: Cluster, namespace: string, name: string): Option<string> {
    match FindPod(c.pods, namespace, name)
    case None => None
    case Some(pod) => ResolvePodToPolicy(reg, c.podGroups, pod)
  }

  predicate IsExhaustedReason(reason: string) {
    reason == "NotTriggerScaleUp" || reason == "FailedScaling"
  }

  function EventTargets(reg: PolicyRegistry, c: Cluster, e: Event): seq<string> {
    if !IsExhaustedReason(e.reason) || e.involvedKind != "Pod" then [] else
    match ResolveKey(reg, c, e.involvedNamespace, e.involvedName)
    case None => []
    case Some(name) => [name]
  }

  // ---------- The handlers ----------

  class Handlers {
    const policies: RegistryStore
    const nodeGroupKey: string
    var enqueued: seq<string>
    var deferred: seq<(string, int)>

    constructor (policies: RegistryStore, nodeGroupKey: string)
      ensures this.policies == policies && this.nodeGroupKey == nodeGroupKey && enqueued == [] && deferred == []
    {
      this.policies, this.nodeGroupKey, enqueued, deferred := policies, nodeGroupKey, [], [];
    }

    method Enqueue(name: string)
      modifies this`enqueued
      ensures enqueued == old(enqueued) + [name]
    {
      enqueued := enqueued + [name];
    }

    method EnqueueOwner(queue: string)
      modifies this`enqueued
      ensures enqueued == old(enqueued) + Owner(policies.registry, queue)
    {
      var p := PolicyByQueue(policies.registry, queue);
      if p.Some? {
        Enqueue(p.value.name);
      }
    }

    method OnPodGroupUpdate(prior: PodGroup, next: PodGroup)
      modifies this`enqueued
      ensures enqueued == old(enqueued) + PodGroupTargets(policies.registry, prior, next)
    {
      if !PodGroupChanged(prior, next) {
        return;
      }
      if prior.queue != next.queue {
        EnqueueOwner(prior.queue);
      }
      EnqueueOwner(next.queue);
    }

    method EnqueueForValue(v: string)
      modifies this`enqueued
      ensures enqueued == old(enqueued) + ForValue(policies.registry, v)
    {
      if v == "" {
        return;
      }
      var names := PoliciesForNodeGroup(policies.registry, v);
      for i := 0 to |names|
        invariant enqueued == old(enqueued) + names[..i]
      {
        Enqueue(names[i]);
      }
    }

    method OnNodeUpdate(prior: Node, next: Node)
      modifies this`enqueued
      ensures enqueued == old(enqueued) + NodeTargets(policies.registry, nodeGroupKey, prior, next)
    {
      var oldVal, newVal := Lookup(prior.labels, nodeGroupKey), Lookup(next.labels, nodeGroupKey);
      if oldVal != newVal {
        EnqueueForValue(oldVal);
        EnqueueForValue(newVal);
        return;
      }
      if NodeSupplyChanged(prior, next) {
        EnqueueForValue(newVal);
      }
    }

    method FilterSpillAnnotations(m: map<string, string>) returns (out: map<string, string>)
      ensures out == SpillOnly(m)
    {
      out := map[];
      var todo := m.Keys;
      while todo != {}
        invariant todo <= m.Keys
        invariant out == map k | k in m && k !in todo && SPILL_PREFIX <= k :: m[k]
      {
        var k :| k in todo;
        if SPILL_PREFIX <= k {
          out := out[k := m[k]];
        }
        todo := todo - {k};
      }
    }

    method OnQueueUpdate(name: string, prior: Queue, next: Queue)
      modifies this`enqueued
      ensures enqueued == old(enqueued) + QueueTargets(policies.registry, name, prior, next)
    {
      var a := FilterSpillAnnotations(prior.annotations);
      var b := FilterSpillAnnotations(next.annotations);
      if prior.affinity == next.affinity && prior.capability == next.capability && a == b {
        return;
      }
      EnqueueOwner(name);
    }

    method EnqueueAfter(name: string, delay: int)
      modifies this`deferred
      ensures deferred == old(deferred) + [(name, delay)]
    {
      deferred := deferred + [(name, delay)];
    }

    /** The handler of pod events; `groups` is the PodGroup store. */
    method OnPodEvent(groups: seq<PodGroup>, pod: Pod, now: int)
      modifies this`enqueued, this`deferred
      ensures var a := CheckStalePending(policies.registry, groups, pod, now);
              && enqueued == old(enqueued) + (if a.EnqueueNow? then [a.policy] else [])
              && deferred == old(deferred) + (if a.EnqueueLater? then [(a.policy, a.delay)] else [])
    {
      var policyName := ResolvePodToPolicy(policies.registry, groups, pod);
      if policyName == None {
        return;
      }
      var pending := PodScheduledFalseTransitionTime(pod);
      if pending == 0 {
        return;
      }
      var policy := PolicyByName(policies.registry, policyName.value);
      if policy == None {
        return;
      }
      var elapsed, threshold := now - pending, policy.value.thresholds.timePendingMax;
      if elapsed >= threshold {
        Enqueue(policyName.value);
        return;
      }
      EnqueueAfter(policyName.value, threshold - elapsed + SECOND);
    }

    /** `c` holds the informer stores. */
    method OnEventAdd(c: Cluster, e: Event)
      modifies this`enqueued
      ensures enqueued == old(enqueued) + EventTargets(policies.registry, c, e)
    {
      if e.reason != "NotTriggerScaleUp" && e.reason != "FailedScaling" {
        return;
      }
      if e.involvedKind != "Pod" {
        return;
      }
      var pod := FindPod(c.pods, e.involvedNamespace, e.involvedName);
      if pod == None {
        return;
      }
      var policyName := ResolvePodToPolicy(policies.registry, c.podGroups, pod.value);
      if policyName.Some? {
        Enqueue(policyName.value);
      }
    }
  }

  // ---------- Which policies an update enqueues, in the objects' own fields ----------

  lemma OwnerIs(reg: PolicyRegistry, p: SpillPolicy, queue: string)
    requires Accepted(reg) && p in reg.policies
    ensures p.name in Owner(reg, queue) <==> p.queueName == queue
  {
    hide Indexed;
    IndexAgreesWithList(reg, p, queue);
    if PolicyByQueue(reg, queue).Some? {
      var q := PolicyByQueue(reg, queue).value;
      IndexAgreesWithList(reg, q, queue);
      IndexAgreesWithList(reg, p, p.name); IndexAgreesWithList(reg, q, p.name);
    }
  }

  /** A PodGroup update enqueues the policies of the old and of the new queue, on a change of queue,
      phase or minimum only. */
  lemma PodGroupEnqueuesIff(reg: PolicyRegistry, prior: PodGroup, next: PodGroup, p: SpillPolicy)
    requires Accepted(reg) && p in reg.policies
    ensures p.name in PodGroupTargets(reg, prior, next) <==>
              && (prior.queue != next.queue || prior.phase != next.phase || prior.minMember != next.minMember
                  || prior.minResources != next.minResources)
              && (p.queueName == prior.queue || p.queueName == next.queue)
    ensures multiset(PodGroupTargets(reg, prior, next))[p.name] <= 1
  {
    OwnerIs(reg, p, prior.queue); OwnerIs(reg, p, next.queue);
    OwnerOnce(reg, prior.queue, p.name); OwnerOnce(reg, next.queue, p.name);
    hide Accepted, Owner;
    var a := if prior.queue != next.queue then Owner(reg, prior.queue) else [];
    assert multiset(a + Owner(reg, next.queue)) == multiset(a) + multiset(Owner(reg, next.queue));
  }

  lemma OwnerOnce(reg: PolicyRegistry, queue: string, name: string)
    ensures multiset(Owner(reg, queue))[name] <= 1
    ensures name in multiset(Owner(reg, queue)) <==> name in Owner(reg, queue)
  {
  }

  /** The status of the first Ready condition is `status`, or there is none and it is "Unknown". */
  ghost predicate ReadyIs(cs: seq<NodeCondition>, status: string) {
    || (exists i :: 0 <= i < |cs| && cs[i] == NodeCondition("Ready", status)
                    && forall j :: 0 <= j < i ==> cs[j].kind != "Ready")
    || (status == "Unknown" && forall i :: 0 <= i < |cs| ==> cs[i].kind != "Ready")
  }

  lemma {:induction false} ReadyStatusIs(cs: seq<NodeCondition>, status: string)
    ensures ReadyIs(cs, status) <==> ReadyStatus(cs) == status
  {
    if cs == [] {
    } else if cs[0].kind == "Ready" {
      assert cs[0] == NodeCondition("Ready", cs[0].status);
    } else {
      var rest := cs[1..];
      ReadyStatusIs(rest, status);
      assert forall i :: 0 < i < |cs| ==> cs[i] == rest[i - 1];
      if i :| 0 <= i < |rest| && rest[i] == NodeCondition("Ready", status)
              && forall j :: 0 <= j < i ==> rest[j].kind != "Ready"
      {
        assert cs[i + 1] == NodeCondition("Ready", status);
      }
      if i :| 0 <= i < |cs| && cs[i] == NodeCondition("Ready", status)
              && forall j :: 0 <= j < i ==> cs[j].kind != "Ready"
      {
        assert rest[i - 1] == NodeCondition("Ready", status);
        assert forall j :: 0 <= j < i - 1 ==> rest[j] == cs[j + 1];
      }
    }
  }

  /** What decides about supply: cordon, allocatable resources, taints and readiness. */
  ghost predicate SupplyDiffers(prior: Node, next: Node) {
    || prior.unschedulable != next.unschedulable || prior.allocatable != next.allocatable || prior.taints != next.taints
    || !exists status :: ReadyIs(prior.conditions, status) && ReadyIs(next.conditions, status)
  }

  lemma SupplyDiffersIs(prior: Node, next: Node)
    ensures NodeSupplyChanged(prior, next) <==> SupplyDiffers(prior, next)
  {
    forall status { ReadyStatusIs(prior.conditions, status); }
    forall status { ReadyStatusIs(next.conditions, status); }
    assert ReadyIs(prior.conditions, ReadyStatus(prior.conditions));
  }

  predicate Uses(p: SpillPolicy, value: string) {
    value != "" && (p.dedicated == value || p.overflow == value)
  }

  function LabelOf(n: Node, key: string): string {
    if key in n.labels then n.labels[key] else ""
  }

  lemma ForValueIs(reg: PolicyRegistry, p: SpillPolicy, value: string)
    requires Accepted(reg) && p in reg.policies
    ensures p.name in ForValue(reg, value) <==> Uses(p, value)
  {
    NodeGroupIndexAgrees(reg, p, value);
  }

  /** A Node update enqueues the users of both groups on a relabel, and otherwise those of its group when
      the supply differs. */
  lemma NodeEnqueuesIff(reg: PolicyRegistry, key: string, prior: Node, next: Node, p: SpillPolicy)
    requires Accepted(reg) && p in reg.policies
    ensures p.name in NodeTargets(reg, key, prior, next) <==>
              if LabelOf(prior, key) != LabelOf(next, key) then
                Uses(p, LabelOf(prior, key)) || Uses(p, LabelOf(next, key))
              else SupplyDiffers(prior, next) && Uses(p, LabelOf(next, key))
  {
    ForValueIs(reg, p, LabelOf(prior, key)); ForValueIs(reg, p, LabelOf(next, key));
    SupplyDiffersIs(prior, next);
    hide Accepted, ForValue, NodeSupplyChanged, SupplyDiffers;
  }

  /** Some annotation under the controller's prefix was added, removed or changed. */
  ghost predicate SpillDiffers(a: map<string, string>, b: map<string, string>) {
    exists k :: "spill.example.com/" <= k && ((k in a) != (k in b) || (k in a && k in b && a[k] != b[k]))
  }

  lemma SpillDiffersIs(a: map<string, string>, b: map<string, string>)
    ensures SpillOnly(a) != SpillOnly(b) <==> SpillDiffers(a, b)
  {
    if !SpillDiffers(a, b) {
      forall k ensures k in SpillOnly(a) <==> k in SpillOnly(b) {
        assert SPILL_PREFIX <= k ==> ((k in a) == (k in b));
      }
      assert SpillOnly(a) == SpillOnly(b);
    } else {
      var k :| "spill.example.com/" <= k && ((k in a) != (k in b) || (k in a && k in b && a[k] != b[k]));
      assert (k in SpillOnly(a)) == (k in a) && (k in SpillOnly(b)) == (k in b);
      assert k in a ==> SpillOnly(a)[k] == a[k];
      assert k in b ==> SpillOnly(b)[k] == b[k];
    }
  }

  /** A Queue update enqueues the policy of the Queue when its affinity, its capability or one of the
      prefixed annotations differs. */
  lemma QueueEnqueuesIff(reg: PolicyRegistry, name: string, prior: Queue, next: Queue, p: SpillPolicy)
    requires Accepted(reg) && p in reg.policies
    ensures p.name in QueueTargets(reg, name, prior, next) <==>
              && p.queueName == name
              && (prior.affinity != next.affinity || prior.capability != next.capability
                  || SpillDiffers(prior.annotations, next.annotations))
  {
    OwnerIs(reg, p, name);
    SpillDiffersIs(prior.annotations, next.annotations);
    hide Accepted, Owner, SpillDiffers, SpillOnly;
  }

  /** Pod `i` is what the store holds under that key. */
  ghost predicate FirstPodOfKey(ps: seq<Pod>, i: int, namespace: string, name: string) {
    && 0 <= i < |ps| && ps[i].namespace == namespace && ps[i].name == name
    && forall j :: 0 <= j < i ==> ps[j].namespace != namespace || ps[j].name != name
  }

  lemma {:induction false} FindPodIs(ps: seq<Pod>, namespace: string, name: string)
    ensures FindPod(ps, namespace, name) == None <==> forall i :: !FirstPodOfKey(ps, i, namespace, name)
    ensures forall i :: FirstPodOfKey(ps, i, namespace, name) ==> FindPod(ps, namespace, name) == Some(ps[i])
  {
    if ps == [] {
    } else if ps[0].namespace == namespace && ps[0].name == name {
      assert FirstPodOfKey(ps, 0, namespace, name);
    } else {
      FindPodIs(ps[1..], namespace, name);
      forall i | FirstPodOfKey(ps, i, namespace, name) ensures FirstPodOfKey(ps[1..], i - 1, namespace, name) {}
      forall i | FirstPodOfKey(ps[1..], i, namespace, name) ensures FirstPodOfKey(ps, i + 1, namespace, name) {}
    }
  }

  lemma ResolvesTo(reg: PolicyRegistry, store: seq<PodGroup>, pod: Pod, p: SpillPolicy)
    requires Accepted(reg) && p in reg.policies
    ensures ResolvePodToPolicy(reg, store, pod) == Some(p.name) <==> OnQueue(store, pod, p.queueName)
  {
    hide Indexed, GroupName, FindGroup, OnQueue;
    OnQueueIs(store, pod, p.queueName);
    var f := FindGroup(store, pod.namespace, GroupName(pod));
    if f.Some? { OwnerIs(reg, p, f.value.queue); }
  }

  /** An event enqueues the policy on whose queue the involved pod's group is, if it says that scaling for
      the pod failed. */
  lemma EventEnqueuesIff(reg: PolicyRegistry, c: Cluster, e: Event, p: SpillPolicy)
    requires Accepted(reg) && p in reg.policies
    ensures p.name in EventTargets(reg, c, e) <==>
              && (e.reason == "NotTriggerScaleUp" || e.reason == "FailedScaling") && e.involvedKind == "Pod"
              && exists i :: FirstPodOfKey(c.pods, i, e.involvedNamespace, e.involvedName)
                             && OnQueue(c.podGroups, c.pods[i], p.queueName)
  {
    hide Accepted, ResolvePodToPolicy, OnQueue;
    FindPodIs(c.pods, e.involvedNamespace, e.involvedName);
    if i :| FirstPodOfKey(c.pods, i, e.involvedNamespace, e.involvedName) {
      ResolvesTo(reg, c.podGroups, c.pods[i], p);
    }
  }

  // ---------- Soundness ----------

  lemma OwnerIsExact(reg: PolicyRegistry, p: SpillPolicy, queue: string)
    requires Accepted(reg) && p in reg.policies && p.name !in Owner(reg, queue)
    ensures p.queueName != queue
  {
    IndexAgreesWithList(reg, p, queue);
  }

  /** Groups that a decision cannot tell apart. */
  predicate GroupsAlike(g: PodGroup, h: PodGroup) {
    g.name == h.name && g.queue == h.queue && g.phase == h.phase && g.minResources == h.minResources
  }

  /** Replacing the last group by one that is alike, or by another that is not the policy's either,
      changes nothing. */
  lemma LastGroup(rest: seq<PodGroup>, g: PodGroup, h: PodGroup, queue: string, pods: seq<Pod>)
    requires GroupsAlike(g, h) || (!OfQueue(queue)(g) && !OfQueue(queue)(h))
    ensures var gs, hs := PolicyPodGroups(rest + [g], queue), PolicyPodGroups(rest + [h], queue);
            && GroupNames(gs) == GroupNames(hs)
            && (forall r :: Demand(gs, pods, r) == Demand(hs, pods, r))
            && Sum(Undeclared(), gs) == Sum(Undeclared(), hs)
  {
    FilterLast(OfQueue(queue), rest, g); FilterLast(OfQueue(queue), rest, h);
    var kept := PolicyPodGroups(rest, queue);
    if OfQueue(queue)(g) {
      SumConcat(Undeclared(), kept, [g]); SumConcat(Undeclared(), kept, [h]);
      assert [g][1..] == [] && [h][1..] == [];
      forall r ensures Demand(kept + [g], pods, r) == Demand(kept + [h], pods, r) {
        SumConcat(GroupDemand(pods, r), kept, [g]); SumConcat(GroupDemand(pods, r), kept, [h]);
      }
      assert GroupNames(kept + [g]) == GroupNames(kept) + {g.name};
      assert GroupNames(kept + [h]) == GroupNames(kept) + {h.name};
    }
  }

  lemma SameGroupsSameView(c: Cluster, d: Cluster, key: string, p: SpillPolicy, now: int)
    requires c.pods == d.pods && c.nodes == d.nodes && c.events == d.events
    requires var gs, hs := PolicyPodGroups(c.podGroups, p.queueName), PolicyPodGroups(d.podGroups, p.queueName);
             && GroupNames(gs) == GroupNames(hs)
             && (forall r :: Demand(gs, PolicyPods(c.pods, gs), r) == Demand(hs, PolicyPods(c.pods, gs), r))
             && Sum(Undeclared(), gs) == Sum(Undeclared(), hs)
    ensures Observe(c, key, p, now) == Observe(d, key, p, now)
  {
  }

  /** A PodGroup update that does not enqueue a policy leaves its decision unchanged.  The caches may
      list their contents in any order before and after; `rest` are the other groups. */
  lemma PodGroupFilterSound(
      env: Env, reg: PolicyRegistry, c: Cluster, d: Cluster, rest: seq<PodGroup>, prior: PodGroup, next: PodGroup,
      p: SpillPolicy, now: int)
    requires Accepted(reg) && p in reg.policies
    requires prior.namespace == next.namespace && prior.name == next.name
    requires SameContents(c, c.(podGroups := rest + [prior])) && SameContents(d, c.(podGroups := rest + [next]))
    requires p.name !in PodGroupTargets(reg, prior, next)
    ensures BuildFor(c, reg.defaults.nodeGroupLabelKey, p, now) == BuildFor(d, reg.defaults.nodeGroupLabelKey, p, now)
    ensures Evaluate(env, BuildFor(c, reg.defaults.nodeGroupLabelKey, p, now))
         == Evaluate(env, BuildFor(d, reg.defaults.nodeGroupLabelKey, p, now))
  {
    hide Indexed, Evaluate, Observe, QueueState;
    var key := reg.defaults.nodeGroupLabelKey;
    var c', d' := c.(podGroups := rest + [prior]), c.(podGroups := rest + [next]);
    OrderIndependence(env, c, c', key, p, now); OrderIndependence(env, d, d', key, p, now);
    if PodGroupChanged(prior, next) {
      OwnerIsExact(reg, p, next.queue);
      if prior.queue != next.queue { OwnerIsExact(reg, p, prior.queue); }
    }
    LastGroup(rest, prior, next, p.queueName, PolicyPods(c.pods, PolicyPodGroups(c'.podGroups, p.queueName)));
    SameGroupsSameView(c', d', key, p, now);
  }

  lemma NotReferenced(reg: PolicyRegistry, p: SpillPolicy, v: string)
    requires Accepted(reg) && p in reg.policies && p.name !in ForValue(reg, v)
    ensures v == "" || (v != p.dedicated && v != p.overflow)
  {
    if v != "" { NodeGroupIndexAgrees(reg, p, v); }
  }

  /** Replacing the last node by one of the same name that the policy's pools treat alike. */
  lemma LastNode(rest: seq<Node>, n: Node, m: Node, key: string, group: string)
    requires n.name == m.name && InPool(key, group)(n) == InPool(key, group)(m)
    requires InPool(key, group)(n) ==> n.allocatable == m.allocatable
    ensures NodeNames(Filter(InPool(key, group), rest + [n])) == NodeNames(Filter(InPool(key, group), rest + [m]))
    ensures forall r :: Sum(AllocatableOf(r), Filter(InPool(key, group), rest + [n]))
                     == Sum(AllocatableOf(r), Filter(InPool(key, group), rest + [m]))
  {
    var kept := Filter(InPool(key, group), rest);
    FilterLast(InPool(key, group), rest, n); FilterLast(InPool(key, group), rest, m);
    if InPool(key, group)(n) {
      forall r ensures Sum(AllocatableOf(r), kept + [n]) == Sum(AllocatableOf(r), kept + [m]) {
        SumConcat(AllocatableOf(r), kept, [n]); SumConcat(AllocatableOf(r), kept, [m]);
      }
      assert forall x :: x in kept + [n] <==> x in kept || x == n;
      assert forall x :: x in kept + [m] <==> x in kept || x == m;
      assert NodeNames(kept + [n]) == NodeNames(kept) + (if n.name != "" then {n.name} else {});
      assert NodeNames(kept + [m]) == NodeNames(kept) + (if m.name != "" then {m.name} else {});
    }
  }

  lemma SameNodesSameView(c: Cluster, d: Cluster, key: string, p: SpillPolicy, now: int)
    requires c.pods == d.pods && c.podGroups == d.podGroups && c.events == d.events
    requires NodeNames(OverflowNodes(c.nodes, key, p)) == NodeNames(OverflowNodes(d.nodes, key, p))
    requires forall r :: Sum(AllocatableOf(r), DedicatedNodes(c.nodes, key, p))
                      == Sum(AllocatableOf(r), DedicatedNodes(d.nodes, key, p))
    ensures Observe(c, key, p, now) == Observe(d, key, p, now)
  {
  }

  /** A Node update that does not enqueue a policy leaves its decision unchanged. */
  lemma NodeFilterSound(
      env: Env, reg: PolicyRegistry, c: Cluster, d: Cluster, rest: seq<Node>, prior: Node, next: Node,
      p: SpillPolicy, now: int)
    requires Accepted(reg) && p in reg.policies && prior.name == next.name
    requires SameContents(c, c.(nodes := rest + [prior])) && SameContents(d, c.(nodes := rest + [next]))
    requires p.name !in NodeTargets(reg, reg.defaults.nodeGroupLabelKey, prior, next)
    ensures BuildFor(c, reg.defaults.nodeGroupLabelKey, p, now) == BuildFor(d, reg.defaults.nodeGroupLabelKey, p, now)
    ensures Evaluate(env, BuildFor(c, reg.defaults.nodeGroupLabelKey, p, now))
         == Evaluate(env, BuildFor(d, reg.defaults.nodeGroupLabelKey, p, now))
  {
    hide Indexed, Evaluate, Observe, QueueState;
    var key := reg.defaults.nodeGroupLabelKey;
    var c', d' := c.(nodes := rest + [prior]), c.(nodes := rest + [next]);
    OrderIndependence(env, c, c', key, p, now); OrderIndependence(env, d, d', key, p, now);
    var oldVal, newVal := Lookup(prior.labels, key), Lookup(next.labels, key);
    if oldVal != newVal {
      NotReferenced(reg, p, oldVal); NotReferenced(reg, p, newVal);
    } else if NodeSupplyChanged(prior, next) {
      NotReferenced(reg, p, newVal);
    }
    LastNode(rest, prior, next, key, p.dedicated);
    LastNode(rest, prior, next, key, p.overflow);
    SameNodesSameView(c', d', key, p, now);
  }

  lemma OwnedKeysAreSpill()
    ensures forall k :: k in OWNED_KEYS ==> SPILL_PREFIX <= k
  {
    assert STATE_KEY[..18] == SPILL_PREFIX && SINCE_KEY[..18] == SPILL_PREFIX && HASH_KEY[..18] == SPILL_PREFIX;
  }

  lemma SameSpillSameLedger(a: map<string, string>, b: map<string, string>)
    requires SpillOnly(a) == SpillOnly(b)
    ensures DecodeAnnotations(a) == DecodeAnnotations(b)
  {
    OwnedKeysAreSpill();
    forall k | k in OWNED_KEYS ensures Lookup(a, k) == Lookup(b, k) {
      assert k in a <==> k in SpillOnly(a);
      assert k in b <==> k in SpillOnly(b);
    }
    assert Lookup(a, STATE_KEY) == Lookup(b, STATE_KEY);
    assert Lookup(a, SINCE_KEY) == Lookup(b, SINCE_KEY);
    assert Lookup(a, HASH_KEY) == Lookup(b, HASH_KEY);
  }

  /** A Queue update that does not enqueue a policy leaves its decision unchanged. */
  lemma QueueFilterSound(
      env: Env, reg: PolicyRegistry, c: Cluster, d: Cluster, name: string, prior: Queue, next: Queue,
      p: SpillPolicy, now: int)
    requires Accepted(reg) && p in reg.policies
    requires name in c.queues && c.queues[name] == prior && SameContents(d, c.(queues := c.queues[name := next]))
    requires p.name !in QueueTargets(reg, name, prior, next)
    ensures BuildFor(c, reg.defaults.nodeGroupLabelKey, p, now) == BuildFor(d, reg.defaults.nodeGroupLabelKey, p, now)
    ensures Evaluate(env, BuildFor(c, reg.defaults.nodeGroupLabelKey, p, now))
         == Evaluate(env, BuildFor(d, reg.defaults.nodeGroupLabelKey, p, now))
  {
    hide Indexed, Evaluate;
    var key := reg.defaults.nodeGroupLabelKey;
    var d' := c.(queues := c.queues[name := next]);
    OrderIndependence(env, d, d', key, p, now);
    if QueueChanged(prior, next) {
      OwnerIsExact(reg, p, name);
    } else {
      SameSpillSameLedger(prior.annotations, next.annotations);
    }
    assert Observe(c, key, p, now) == Observe(d', key, p, now);
  }

  // ---------- Autoscaler events ----------

  function WithEvent(c: Cluster, e: Event): Cluster {
    c.(events := c.events + [e])
  }

  /** The key belongs to a pod that the handler resolves to `p`. */
  predicate IsOurs(reg: PolicyRegistry, c: Cluster, p: SpillPolicy, namespace: string, name: string) {
    ResolveKey(reg, c, namespace, name) == Some(p.name)
  }

  lemma ExhaustedNext(events: seq<Event>, e: Event, names: set<string>)
    ensures Exhausted(events + [e], names) <==> Exhausted(events, names) || IsExhaustion(e, names)
  {
    assert e in events + [e];
    assert forall x :: x in events + [e] <==> x in events || x == e;
  }

  /** What adding one event does to what a policy sees. */
  lemma EventEffect(c: Cluster, e: Event, key: string, p: SpillPolicy, now: int)
    ensures var o, o' := Observe(c, key, p, now), Observe(WithEvent(c, e), key, p, now);
            && o' == o.(autoscalerExhausted := o'.autoscalerExhausted)
            && (o.autoscalerExhausted <==> Exhausted(c.events, PodNames(PodsOf(c, p))))
            && (o'.autoscalerExhausted <==> o.autoscalerExhausted || IsExhaustion(e, PodNames(PodsOf(c, p))))
  {
    ExhaustedNext(c.events, e, PodNames(PodsOf(c, p)));
  }

  /** An event that does not enqueue a policy leaves what it sees alone exactly when the policy was
      reported before, or the event is no exhaustion event about a pod with the bare name of a policy
      pod. */
  lemma EventFilterSoundWhen(env: Env, reg: PolicyRegistry, c: Cluster, e: Event, p: SpillPolicy, now: int)
    requires p.name !in EventTargets(reg, c, e)
    ensures var key, names := reg.defaults.nodeGroupLabelKey, PodNames(PodsOf(c, p));
            var harmless := Exhausted(c.events, names) || !IsExhaustion(e, names);
            && (Observe(c, key, p, now) == Observe(WithEvent(c, e), key, p, now) <==> harmless)
            && (harmless ==>
                  Evaluate(env, BuildFor(c, key, p, now)) == Evaluate(env, BuildFor(WithEvent(c, e), key, p, now)))
  {
    hide Evaluate, PodsOf;
    EventEffect(c, e, reg.defaults.nodeGroupLabelKey, p, now);
  }

  /** Every one of these pod keys with the bare name of a policy pod resolves to the policy. */
  ghost predicate KeysAreOurs(reg: PolicyRegistry, c: Cluster, p: SpillPolicy, keys: set<(string, string)>) {
    forall k :: k in keys && k.1 in PodNames(PodsOf(c, p)) ==> IsOurs(reg, c, p, k.0, k.1)
  }

  /** Events about these keys that do not enqueue the policy change nothing for it. */
  ghost predicate EventFilterSound(
    reg: PolicyRegistry, c: Cluster, key: string, p: SpillPolicy, now: int, keys: set<(string, string)>)
  {
    forall e: Event :: (e.involvedNamespace, e.involvedName) in keys && p.name !in EventTargets(reg, c, e) ==>
      Observe(c, key, p, now) == Observe(WithEvent(c, e), key, p, now)
  }

  /** As long as the policy has not been reported, the event handler is a sound filter for it exactly
      when no key that is foreign or resolves to nobody carries the bare name of one of its pods: for
      any set of keys, listed or not. */
  lemma EventFilterSoundIff(
      reg: PolicyRegistry, c: Cluster, key: string, p: SpillPolicy, now: int, keys: set<(string, string)>)
    requires !Exhausted(c.events, PodNames(PodsOf(c, p)))
    ensures EventFilterSound(reg, c, key, p, now, keys) <==> KeysAreOurs(reg, c, p, keys)
  {
    hide PodsOf, ResolveKey, Observe;
    if KeysAreOurs(reg, c, p, keys) {
      forall e: Event | (e.involvedNamespace, e.involvedName) in keys && p.name !in EventTargets(reg, c, e)
        ensures Observe(c, key, p, now) == Observe(WithEvent(c, e), key, p, now)
      {
        EventEffect(c, e, key, p, now);
      }
    } else {
      var k :| k in keys && k.1 in PodNames(PodsOf(c, p)) && !IsOurs(reg, c, p, k.0, k.1);
      var e := Event("FailedScaling", "Pod", k.0, k.1);
      EventEffect(c, e, key, p, now);
      assert (e.involvedNamespace, e.involvedName) in keys;
      assert IsExhaustion(e, PodNames(PodsOf(c, p)));
    }
  }

  lemma ResolvesToNobody(reg: PolicyRegistry, p: SpillPolicy)
    ensures EventTargets(reg, Namesakes(p, []), ForeignReport()) == []
  {
    GroupsOfNamesakes();
    var c := Namesakes(p, []);
    assert c.pods[1..] == [ForeignPod()];
    assert FindPod(c.pods, "ns-b", "x") == Some(ForeignPod());
  }

  lemma ReportNames(c: Cluster, p: SpillPolicy)
    requires OurPod() in PodsOf(c, p)
    ensures IsExhaustion(ForeignReport(), PodNames(PodsOf(c, p)))
  {
    assert OurPod().name in PodNames(PodsOf(c, p));
  }

  lemma CalmBefore(p: SpillPolicy, key: string, now: int)
    requires p.thresholds.timePendingMax > 0
    ensures !Condition(Steady, p, Observe(Namesakes(p, []), key, p, now))
  {
    OnlyOurs(p, []);
    ReportOfNamesake(now, p.thresholds.timePendingMax);
    hide PodsOf, Observe, Condition, IsExhaustion, Overdue, OurPod, ForeignPod;
    SpillDueInPods(Namesakes(p, []), key, p, now);
  }

  lemma DueAfter(c: Cluster, e: Event, p: SpillPolicy, key: string, now: int)
    requires IsExhaustion(e, PodNames(PodsOf(c, p)))
    ensures Condition(Steady, p, Observe(WithEvent(c, e), key, p, now))
  {
    EventEffect(c, e, key, p, now);
  }

  /** An event that reaches nobody and yet makes a Steady Queue due to spill, under every accepted
      registry and policy. */
  lemma MissedEvent(reg: PolicyRegistry, p: SpillPolicy, now: int) returns (c: Cluster, e: Event)
    requires Accepted(reg) && p in reg.policies
    ensures EventTargets(reg, c, e) == [] && EventsAboutListed([e], c.pods)
    ensures !Condition(Steady, p, Observe(c, reg.defaults.nodeGroupLabelKey, p, now))
    ensures Condition(Steady, p, Observe(WithEvent(c, e), reg.defaults.nodeGroupLabelKey, p, now))
  {
    hide Indexed, PodsOf, Observe, Condition, IsExhaustion, Involves, OurPod, ForeignPod, ForeignReport, EventTargets;
    assert p.thresholds.timePendingMax > 0 by { assert ValidPolicy(p); }
    c, e := Namesakes(p, []), ForeignReport();
    ResolvesToNobody(reg, p);
    OnlyOurs(p, []);
    ReportOfNamesake(now, p.thresholds.timePendingMax);
    assert ForeignPod() in c.pods;
    CalmBefore(p, reg.defaults.nodeGroupLabelKey, now);
    ReportNames(c, p);
    DueAfter(c, e, p, reg.defaults.nodeGroupLabelKey, now);
  }
}

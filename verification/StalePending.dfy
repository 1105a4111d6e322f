/** The stale-pending trigger (pkg/watcher/pod_event_watch.go): what a pod event arms, and that the
    reconcile it arms finds the spill condition. */
module StalePending {
  import opened Prelude
  import opened Api
  import opened StateMachine
  import opened Registry
  import opened Snapshots
  import opened SnapshotMeaning

  /** The PodGroup of that namespace and name in the informer store. */
  function FindGroup(gs: seq<PodGroup>, namespace: string, name: string): Option<PodGroup> {
    if gs == [] then None
    else if gs[0].namespace == namespace && gs[0].name == name then Some(gs[0])
    else FindGroup(gs[1..], namespace, name)
  }

  function ResolvePodToPolicy(reg: PolicyRegistry, store: seq<PodGroup>, pod: Pod): Option<string> {
    if GroupName(pod) == "" then None else
    match FindGroup(store, pod.namespace, GroupName(pod))
    case None => None
    case Some(g) =>
      match PolicyByQueue(reg, g.queue)
      case None => None
      case Some(p) => Some(p.name)
  }

  /** The transition time of the first PodScheduled=False condition, or the zero time. */
  function FalseTransitionTime(conditions: seq<PodCondition>): int {
    if conditions == [] then 0
    else if IsUnscheduled(conditions[0]) then conditions[0].lastTransition
    else FalseTransitionTime(conditions[1..])
  }

  method PodScheduledFalseTransitionTime(pod: Pod) returns (t: int)
    ensures t == FalseTransitionTime(pod.conditions)
  {
    var cs := pod.conditions;
    for i := 0 to |cs|
      invariant FalseTransitionTime(cs) == FalseTransitionTime(cs[i..])
    {
      assert cs[i..][0] == cs[i] && cs[i..][1..] == cs[i + 1..];
      if cs[i].kind == "PodScheduled" && cs[i].status == "False" {
        return cs[i].lastTransition;
      }
    }
    t := 0;
  }

  datatype Arming = Nothing | EnqueueNow(policy: string) | EnqueueLater(policy: string, delay: int)

  function CheckStalePending(reg: PolicyRegistry, store: seq<PodGroup>, pod: Pod, now: int): Arming {
    match ResolvePodToPolicy(reg, store, pod)
    case None => Nothing
    case Some(name) =>
      var pending := FalseTransitionTime(pod.conditions);
      if pending == 0 then Nothing else
      match PolicyByName(reg, name)
      case None => Nothing
      case Some(p) =>
        var elapsed := now - pending;
        if elapsed >= p.thresholds.timePendingMax then EnqueueNow(name)
        else EnqueueLater(name, p.thresholds.timePendingMax - elapsed + SECOND)
  }

  /** The handler and the snapshot look at the same condition. */
  lemma {:induction false} SameCondition(conditions: seq<PodCondition>, now: int)
    requires FalseTransitionTime(conditions) != 0
    ensures var t := FalseTransitionTime(conditions);
            UnschedulableFor(conditions, now) == Some(if now < t then 0 else now - t)
  {
    if conditions == [] || IsUnscheduled(conditions[0]) {
    } else {
      SameCondition(conditions[1..], now);
    }
  }

  // ---------- When the handler arms, in the objects' own fields ----------

  /** Group `i` is what the store holds under that key. */
  ghost predicate FirstOfKey(gs: seq<PodGroup>, i: int, namespace: string, name: string) {
    && 0 <= i < |gs| && gs[i].namespace == namespace && gs[i].name == name
    && forall j :: 0 <= j < i ==> gs[j].namespace != namespace || gs[j].name != name
  }

  lemma {:induction false} FindGroupIs(gs: seq<PodGroup>, namespace: string, name: string)
    ensures FindGroup(gs, namespace, name) == None <==> forall i :: !FirstOfKey(gs, i, namespace, name)
    ensures forall i :: FirstOfKey(gs, i, namespace, name) ==> FindGroup(gs, namespace, name) == Some(gs[i])
  {
    if gs == [] {
    } else if gs[0].namespace == namespace && gs[0].name == name {
      assert FirstOfKey(gs, 0, namespace, name);
    } else {
      FindGroupIs(gs[1..], namespace, name);
      forall i | FirstOfKey(gs, i, namespace, name) ensures FirstOfKey(gs[1..], i - 1, namespace, name) {}
      forall i | FirstOfKey(gs[1..], i, namespace, name) ensures FirstOfKey(gs, i + 1, namespace, name) {}
    }
  }

  lemma {:induction false} TransitionIs(cs: seq<PodCondition>)
    ensures forall i :: FirstFalse(cs, i) ==> FalseTransitionTime(cs) == cs[i].lastTransition
    ensures FalseTransitionTime(cs) != 0 ==> exists i :: FirstFalse(cs, i)
  {
    if cs == [] {
    } else if cs[0].kind == "PodScheduled" && cs[0].status == "False" {
      assert FirstFalse(cs, 0);
    } else {
      TransitionIs(cs[1..]);
      forall i | FirstFalse(cs, i) ensures FirstFalse(cs[1..], i - 1) {}
      forall i | FirstFalse(cs[1..], i) ensures FirstFalse(cs, i + 1) {}
    }
  }

  /** The pod has been unschedulable since `t`. */
  ghost predicate PendingSince(pod: Pod, t: int) {
    t != 0 && exists k :: FirstFalse(pod.conditions, k) && pod.conditions[k].lastTransition == t
  }

  /** The store holds a group of the pod's namespace and group name, and it is on that queue. */
  ghost predicate OnQueue(store: seq<PodGroup>, pod: Pod, queue: string) {
    exists i :: 0 <= i < |store| && FirstOfKey(store, i, pod.namespace, store[i].name)
      && NamesGroup(pod, store[i].name) && store[i].queue == queue
  }

  /** The pod event concerns policy `p`: the pod's group is on its queue, and the pod is pending since `t`. */
  ghost predicate Concerns(reg: PolicyRegistry, store: seq<PodGroup>, pod: Pod, p: SpillPolicy, t: int) {
    p in reg.policies && OnQueue(store, pod, p.queueName) && PendingSince(pod, t)
  }

  lemma OnQueueIs(store: seq<PodGroup>, pod: Pod, queue: string)
    ensures OnQueue(store, pod, queue) <==>
              && GroupName(pod) != ""
              && var f := FindGroup(store, pod.namespace, GroupName(pod)); f.Some? && f.value.queue == queue
  {
    FindGroupIs(store, pod.namespace, GroupName(pod));
    forall name | name != "" { GroupNameIs(pod, name); }
    if GroupName(pod) != "" && FindGroup(store, pod.namespace, GroupName(pod)).Some? {
      var i :| FirstOfKey(store, i, pod.namespace, GroupName(pod));
    }
  }

  lemma PendingSinceIs(pod: Pod, t: int)
    ensures PendingSince(pod, t) <==> FalseTransitionTime(pod.conditions) == t != 0
  {
    TransitionIs(pod.conditions);
  }

  /** The whole answer of the handler: a pod event that concerns a policy arms it, at once from the
      threshold on and otherwise for one second after the threshold; and no other event arms anything. */
  lemma CheckStalePendingIs(reg: PolicyRegistry, store: seq<PodGroup>, pod: Pod, now: int)
    requires Accepted(reg)
    ensures forall p, t :: Concerns(reg, store, pod, p, t) ==>
              CheckStalePending(reg, store, pod, now) ==
              if now >= t + p.thresholds.timePendingMax then EnqueueNow(p.name)
              else EnqueueLater(p.name, t + p.thresholds.timePendingMax + 1_000_000_000 - now)
    ensures CheckStalePending(reg, store, pod, now) == Nothing <==> forall p, t :: !Concerns(reg, store, pod, p, t)
  {
    forall p, t | Concerns(reg, store, pod, p, t)
      ensures CheckStalePending(reg, store, pod, now) ==
              if now >= t + p.thresholds.timePendingMax then EnqueueNow(p.name)
              else EnqueueLater(p.name, t + p.thresholds.timePendingMax + 1_000_000_000 - now)
    {
      ArmsWhenConcerned(reg, store, pod, now, p, t);
    }
    if CheckStalePending(reg, store, pod, now) != Nothing { var p, t := ConcernedWhenArmed(reg, store, pod, now); }
  }

  lemma ArmsWhenConcerned(reg: PolicyRegistry, store: seq<PodGroup>, pod: Pod, now: int, p: SpillPolicy, t: int)
    requires Accepted(reg) && Concerns(reg, store, pod, p, t)
    ensures CheckStalePending(reg, store, pod, now) ==
            if now >= t + p.thresholds.timePendingMax then EnqueueNow(p.name)
            else EnqueueLater(p.name, t + p.thresholds.timePendingMax + 1_000_000_000 - now)
  {
    hide Accepted, GroupName, FindGroup, FalseTransitionTime, PendingSince, OnQueue;
    OnQueueIs(store, pod, p.queueName); PendingSinceIs(pod, t);
    IndexAgreesWithList(reg, p, p.queueName); IndexAgreesWithList(reg, p, p.name);
  }

  lemma ConcernedWhenArmed(reg: PolicyRegistry, store: seq<PodGroup>, pod: Pod, now: int)
    returns (p: SpillPolicy, t: int)
    requires Accepted(reg) && CheckStalePending(reg, store, pod, now) != Nothing
    ensures Concerns(reg, store, pod, p, t)
  {
    hide Accepted, GroupName, FindGroup, FalseTransitionTime, PendingSince, OnQueue;
    var g := FindGroup(store, pod.namespace, GroupName(pod)).value;
    p, t := PolicyByQueue(reg, g.queue).value, FalseTransitionTime(pod.conditions);
    IndexAgreesWithList(reg, p, g.queue);
    OnQueueIs(store, pod, p.queueName); PendingSinceIs(pod, t);
  }

  // ---------- What the armed reconcile finds ----------

  /** Later the pod, as then listed, still belongs to the policy and has been unschedulable since `t`;
      everything else about it, its group and the cluster may have changed. */
  ghost predicate StillPending(c: Cluster, p: SpillPolicy, seen: Pod, t: int) {
    seen in c.pods && Belongs(c, p, seen) && PendingSince(seen, t)
  }

  lemma LateWhen(pod: Pod, t: int, now: int, limit: int)
    requires PendingSince(pod, t) && limit > 0
    ensures LateBy(pod, now, limit) <==> now > t + limit
  {
    var k :| FirstFalse(pod.conditions, k) && pod.conditions[k].lastTransition == t;
    forall i | FirstFalse(pod.conditions, i) ensures i == k {}
  }

  lemma AcceptedLimit(reg: PolicyRegistry, p: SpillPolicy)
    requires Accepted(reg) && p in reg.policies
    ensures p.thresholds.timePendingMax > 0
  {
    assert ValidPolicy(p);
  }

  /** A deferred wake-up finds its condition.  The handler arms it below the threshold, for one second
      after it; from then on, as long as the pod stays pending, the reconciled policy counts the pod as
      its own and sees the Steady condition. */
  lemma WakeUpFindsCondition(
      reg: PolicyRegistry, store: seq<PodGroup>, pod: Pod, p: SpillPolicy, t: int, armedAt: int,
      after: Cluster, seen: Pod, later: int)
    requires Accepted(reg) && Concerns(reg, store, pod, p, t) && armedAt < t + p.thresholds.timePendingMax
    requires StillPending(after, p, seen, t) && later >= t + p.thresholds.timePendingMax + 1_000_000_000
    ensures var a := CheckStalePending(reg, store, pod, armedAt);
            && a.EnqueueLater? && a.policy == p.name
            && armedAt + a.delay == t + p.thresholds.timePendingMax + 1_000_000_000
    ensures PolicyByName(reg, p.name) == Some(p) && seen in PodsOf(after, p)
    ensures Condition(Steady, p, Observe(after, reg.defaults.nodeGroupLabelKey, p, later))
  {
    hide Indexed, Observe, Condition, PodsOf, Concerns, LateBy, PendingSince, Belongs, CheckStalePending;
    assert p in reg.policies by { ConcernsListed(reg, store, pod, p, t); }
    ArmsWhenConcerned(reg, store, pod, armedAt, p, t);
    IndexAgreesWithList(reg, p, p.name);
    AcceptedLimit(reg, p);
    PodsOfAre(after, p, seen);
    LateWhen(seen, t, later, p.thresholds.timePendingMax);
    SpillDueExactlyWhen(after, reg.defaults.nodeGroupLabelKey, p, later);
  }

  lemma ConcernsListed(reg: PolicyRegistry, store: seq<PodGroup>, pod: Pod, p: SpillPolicy, t: int)
    requires Concerns(reg, store, pod, p, t)
    ensures p in reg.policies
  {
  }

  /** The handler enqueues at once from "at least the threshold" on, the condition wants "more than":
      after an immediate enqueue a reconcile sees the condition exactly when it runs strictly later
      than the threshold, or the autoscaler reported, or another pod of the policy is overdue. */
  lemma ImmediateEnqueueMayBeEarly(
      reg: PolicyRegistry, store: seq<PodGroup>, pod: Pod, p: SpillPolicy, t: int, now: int,
      after: Cluster, seen: Pod, later: int)
    requires Accepted(reg) && Concerns(reg, store, pod, p, t) && now >= t + p.thresholds.timePendingMax
    requires StillPending(after, p, seen, t)
    ensures CheckStalePending(reg, store, pod, now) == EnqueueNow(p.name) && PolicyByName(reg, p.name) == Some(p)
    ensures Condition(Steady, p, Observe(after, reg.defaults.nodeGroupLabelKey, p, later)) <==>
              || later > t + p.thresholds.timePendingMax
              || Reported(after, p)
              || exists other :: other in after.pods && other != seen && Belongs(after, p, other)
                   && LateBy(other, later, p.thresholds.timePendingMax)
  {
    hide Indexed, Observe, Condition, Concerns, LateBy, PendingSince, Belongs, CheckStalePending, Reported;
    assert p in reg.policies by { ConcernsListed(reg, store, pod, p, t); }
    ArmsWhenConcerned(reg, store, pod, now, p, t);
    IndexAgreesWithList(reg, p, p.name);
    AcceptedLimit(reg, p);
    LateWhen(seen, t, later, p.thresholds.timePendingMax);
    SpillDueExactlyWhen(after, reg.defaults.nodeGroupLabelKey, p, later);
  }

  /** A cluster with one group of the policy and one pod in it, pending since instant 1. */
  function LoneCluster(p: SpillPolicy, pod: Pod): Cluster {
    Cluster([PodGroup("ns", "g", p.queueName, "Inqueue", 1, None)], [pod], [], [], map[])
  }

  function LonePod(): Pod {
    Pod("ns", "x", map[GROUP_KEY := "g"], "", "Pending", [PodCondition("PodScheduled", "False", 1)], [])
  }

  lemma LonePodConcerns(reg: PolicyRegistry, p: SpillPolicy)
    requires p in reg.policies
    ensures var c := LoneCluster(p, LonePod());
            Concerns(reg, c.podGroups, LonePod(), p, 1) && StillPending(c, p, LonePod(), 1) && !Reported(c, p)
  {
    var c, pod := LoneCluster(p, LonePod()), LonePod();
    assert FirstFalse(pod.conditions, 0);
    assert FirstOfKey(c.podGroups, 0, "ns", "g") && NamesGroup(pod, "g");
    assert c.podGroups[0] in c.podGroups && Counts(c.podGroups[0], p.queueName);
  }

  /** Below the threshold, whatever time has elapsed, some pod event arms a deferred wake-up. */
  lemma DeferredAtEveryAge(reg: PolicyRegistry, p: SpillPolicy, elapsed: int)
    requires Accepted(reg) && p in reg.policies && elapsed < p.thresholds.timePendingMax
    ensures CheckStalePending(reg, LoneCluster(p, LonePod()).podGroups, LonePod(), 1 + elapsed)
         == EnqueueLater(p.name, p.thresholds.timePendingMax - elapsed + 1_000_000_000)
  {
    hide Accepted, Concerns, CheckStalePending, LonePod;
    LonePodConcerns(reg, p);
    ArmsWhenConcerned(reg, LoneCluster(p, LonePod()).podGroups, LonePod(), 1 + elapsed, p, 1);
  }

  /** The early case exists under every accepted registry and policy: a lone pod that has been
      unschedulable for just the threshold makes the handler enqueue the policy, and the reconcile at
      that instant does not see the condition. */
  lemma EarlyEnqueue(reg: PolicyRegistry, p: SpillPolicy) returns (c: Cluster, pod: Pod, now: int)
    requires Accepted(reg) && p in reg.policies
    ensures CheckStalePending(reg, c.podGroups, pod, now) == EnqueueNow(p.name)
    ensures pod in c.pods && Belongs(c, p, pod)
    ensures !Condition(Steady, p, Observe(c, reg.defaults.nodeGroupLabelKey, p, now))
  {
    hide Accepted, Concerns, CheckStalePending, LonePod, Observe, Condition, Reported, Belongs, PendingSince;
    c, pod, now := LoneCluster(p, LonePod()), LonePod(), 1 + p.thresholds.timePendingMax;
    LonePodConcerns(reg, p);
    assert forall q :: q in c.pods ==> q == pod;
    ImmediateEnqueueMayBeEarly(reg, c.podGroups, pod, p, 1, now, c, pod, now);
  }
}

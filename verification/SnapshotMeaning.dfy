/** What a snapshot means, in the objects' own fields: a reference definition beside the functions that
    follow the builder, and the proof that they agree. */
module SnapshotMeaning {
  import opened Prelude
  import opened Api
  import opened StateMachine
  import opened Registry
  import opened Snapshots

  // ---------- Membership ----------

  /** The pod's group annotation; the second key counts only if the first is missing or empty. */
  predicate NamesGroup(pod: Pod, name: string) {
    var volcano, kube := "volcano.sh/group-name", "scheduling.k8s.io/group-name";
    && name != ""
    && (|| (volcano in pod.annotations && pod.annotations[volcano] == name)
        || ((volcano !in pod.annotations || pod.annotations[volcano] == "")
            && kube in pod.annotations && pod.annotations[kube] == name))
  }

  lemma GroupNameIs(pod: Pod, name: string)
    requires name != ""
    ensures GroupName(pod) == name <==> NamesGroup(pod, name)
  {
  }

  predicate Counts(g: PodGroup, queueName: string) {
    g.queue == queueName && g.phase != "Completed"
  }

  /** Some uncompleted group of the policy's queue, in whatever namespace, bears the pod's group name. */
  ghost predicate Belongs(c: Cluster, p: SpillPolicy, pod: Pod) {
    exists g :: g in c.podGroups && Counts(g, p.queueName) && NamesGroup(pod, g.name)
  }

  lemma PolicyPodGroupsAre(all: seq<PodGroup>, queueName: string, g: PodGroup)
    ensures multiset(PolicyPodGroups(all, queueName))[g] == if Counts(g, queueName) then multiset(all)[g] else 0
    ensures g in PolicyPodGroups(all, queueName) <==> g in all && Counts(g, queueName)
  {
    FilterCounts(OfQueue(queueName), all, g);
    FilterMember(OfQueue(queueName), all, g);
  }

  lemma PolicyPodsAre(all: seq<Pod>, gs: seq<PodGroup>, pod: Pod)
    ensures InGroups(GroupNames(gs))(pod) <==> exists g :: g in gs && NamesGroup(pod, g.name)
    ensures multiset(PolicyPods(all, gs))[pod]
         == if exists g :: g in gs && NamesGroup(pod, g.name) then multiset(all)[pod] else 0
    ensures pod in PolicyPods(all, gs) <==> pod in all && exists g :: g in gs && NamesGroup(pod, g.name)
  {
    FilterCounts(InGroups(GroupNames(gs)), all, pod);
    FilterMember(InGroups(GroupNames(gs)), all, pod);
    forall g | g in gs && g.name != "" ensures GroupName(pod) == g.name <==> NamesGroup(pod, g.name) {
      GroupNameIs(pod, g.name);
    }
    if g :| g in gs && NamesGroup(pod, g.name) { assert g.name in GroupNames(gs); }
  }

  /** The pods of a policy are the listed pods that belong to it, as often as they are listed. */
  lemma PodsOfAre(c: Cluster, p: SpillPolicy, pod: Pod)
    ensures multiset(PodsOf(c, p))[pod] == if Belongs(c, p, pod) then multiset(c.pods)[pod] else 0
    ensures pod in PodsOf(c, p) <==> pod in c.pods && Belongs(c, p, pod)
    ensures InGroups(GroupNames(PolicyPodGroups(c.podGroups, p.queueName)))(pod) <==> Belongs(c, p, pod)
  {
    var gs := PolicyPodGroups(c.podGroups, p.queueName);
    PolicyPodsAre(c.pods, gs, pod);
    forall g { PolicyPodGroupsAre(c.podGroups, p.queueName, g); }
    assert Belongs(c, p, pod) <==> exists g :: g in gs && NamesGroup(pod, g.name);
  }

  // ---------- Pools ----------

  predicate Labelled(n: Node, key: string, value: string) {
    key != "" && value != "" && key in n.labels && n.labels[key] == value
  }

  lemma InPoolIs(n: Node, key: string, value: string)
    ensures InPool(key, value)(n) <==> Labelled(n, key, value)
  {
  }

  /** The pod is placed on a listed node of the overflow group; a policy without a second group has none. */
  ghost predicate Spilled(c: Cluster, key: string, p: SpillPolicy, pod: Pod) {
    p.dedicated != p.overflow
    && exists n :: n in c.nodes && Labelled(n, key, p.overflow) && n.name == pod.nodeName && n.name != ""
  }

  lemma OnNodeIs(c: Cluster, key: string, p: SpillPolicy, pod: Pod)
    ensures OnNode(NodeNames(OverflowNodes(c.nodes, key, p)))(pod) == if Spilled(c, key, p, pod) then 1 else 0
  {
    forall n { FilterMember(InPool(key, p.overflow), c.nodes, n); }
    forall n ensures n in OverflowNodes(c.nodes, key, p)
                <==> p.dedicated != p.overflow && n in c.nodes && Labelled(n, key, p.overflow) {
      InPoolIs(n, key, p.overflow);
    }
    if n :| n in c.nodes && Labelled(n, key, p.overflow) && n.name == pod.nodeName && n.name != ""
            && p.dedicated != p.overflow
    {
      assert n in OverflowNodes(c.nodes, key, p);
    }
  }

  // ---------- Pending pods ----------

  /** Condition `i` is the first PodScheduled=False condition. */
  ghost predicate FirstFalse(cs: seq<PodCondition>, i: int) {
    && 0 <= i < |cs| && cs[i].kind == "PodScheduled" && cs[i].status == "False"
    && forall j :: 0 <= j < i ==> cs[j].kind != "PodScheduled" || cs[j].status != "False"
  }

  /** How long such a condition has lasted: nothing without a stamp or with one in the future. */
  function Lasted(cond: PodCondition, now: int): int {
    if cond.lastTransition == 0 || cond.lastTransition > now then 0 else now - cond.lastTransition
  }

  lemma {:induction false} UnschedulableIs(cs: seq<PodCondition>, now: int)
    ensures UnschedulableFor(cs, now) == None <==> forall i :: !FirstFalse(cs, i)
    ensures forall i :: FirstFalse(cs, i) ==> UnschedulableFor(cs, now) == Some(Lasted(cs[i], now))
  {
    if cs == [] {
    } else if cs[0].kind == "PodScheduled" && cs[0].status == "False" {
      assert FirstFalse(cs, 0);
    } else {
      UnschedulableIs(cs[1..], now);
      forall i | FirstFalse(cs, i) ensures FirstFalse(cs[1..], i - 1) {}
      forall i | FirstFalse(cs[1..], i) ensures FirstFalse(cs, i + 1) {}
    }
  }

  /** The pod has been unschedulable for more than `limit`. */
  ghost predicate LateBy(pod: Pod, now: int, limit: int) {
    exists i :: FirstFalse(pod.conditions, i) && Lasted(pod.conditions[i], now) > limit
  }

  lemma LateIs(pod: Pod, now: int, limit: int)
    ensures Overdue(pod, now, limit) <==> LateBy(pod, now, limit)
    ensures Breaches(now, limit)(pod) == if LateBy(pod, now, limit) then 1 else 0
  {
    UnschedulableIs(pod.conditions, now);
  }

  // ---------- The conditions ----------

  /** Some event says that scaling failed for a pod with the name of a pod that belongs to the policy. */
  ghost predicate Reported(c: Cluster, p: SpillPolicy) {
    exists e, pod :: e in c.events && pod in c.pods && Belongs(c, p, pod)
      && (e.reason == "NotTriggerScaleUp" || e.reason == "FailedScaling")
      && e.involvedKind == "Pod" && e.involvedName == pod.name && pod.name != ""
  }

  lemma ReportedIs(c: Cluster, p: SpillPolicy)
    ensures NameReported(c.events, PodsOf(c, p)) <==> Reported(c, p)
  {
    hide PodsOf;
    forall pod { PodsOfAre(c, p, pod); }
    if e, pod :| e in c.events && pod in PodsOf(c, p) && pod.name != "" && IsExhaustion(e, {pod.name}) {
      assert pod in c.pods && Belongs(c, p, pod) && e.involvedName == pod.name;
    }
  }

  /** Switch-back is due exactly when no pod that belongs to the policy is left on the overflow pool. */
  lemma DrainedExactlyWhen(c: Cluster, key: string, p: SpillPolicy, now: int)
    ensures Condition(Spill, p, Observe(c, key, p, now))
       <==> forall pod :: pod in c.pods && Belongs(c, p, pod) ==> !Spilled(c, key, p, pod)
  {
    var pods := PodsOf(c, p);
    var f := OnNode(NodeNames(OverflowNodes(c.nodes, key, p)));
    forall pod ensures f(pod) == if Spilled(c, key, p, pod) then 1 else 0 { OnNodeIs(c, key, p, pod); }
    forall pod { PodsOfAre(c, p, pod); }
    assert Observe(c, key, p, now).overflowPods == Sum(f, pods);
    hide PodsOf, Spilled, Belongs, Observe, OnNode;
    CountIsZero(f, pods);
    assert forall pod :: f(pod) == 0 <==> !Spilled(c, key, p, pod);
  }

  /** Spilling is due exactly when scaling up was reported to fail for a pod with the name of one that
      belongs to the policy, or, with a positive threshold, one has been unschedulable for longer. */
  lemma SpillDueExactlyWhen(c: Cluster, key: string, p: SpillPolicy, now: int)
    ensures Condition(Steady, p, Observe(c, key, p, now)) <==>
              || Reported(c, p)
              || (p.thresholds.timePendingMax > 0 && exists pod ::
                    pod in c.pods && Belongs(c, p, pod) && LateBy(pod, now, p.thresholds.timePendingMax))
  {
    SpillDueInPods(c, key, p, now);
    ReportedIs(c, p);
    hide PodsOf, Observe, Condition, NameReported, Overdue, LateBy, Belongs, Reported;
    forall pod { PodsOfAre(c, p, pod); }
    forall pod { LateIs(pod, now, p.thresholds.timePendingMax); }
  }

  // ---------- The aggregates ----------

  function AmountOf(r: Resources, name: string): int {
    if name in r then r[name] else 0
  }

  /** Some amount of the declared minimum is not zero. */
  ghost predicate HasMinimum(g: PodGroup) {
    g.minResources.Some? && exists r :: r in g.minResources.value && g.minResources.value[r] != 0
  }

  ghost function CapacityOf(r: string, key: string, p: SpillPolicy): Node -> int {
    (n: Node) => if Labelled(n, key, p.dedicated) then AmountOf(n.allocatable, r) else 0
  }

  ghost function SpilledOne(c: Cluster, key: string, p: SpillPolicy): Pod -> int {
    (pod: Pod) => if Belongs(c, p, pod) && Spilled(c, key, p, pod) then 1 else 0
  }

  ghost function LateOne(c: Cluster, p: SpillPolicy, now: int): Pod -> int {
    (pod: Pod) => if Belongs(c, p, pod) && LateBy(pod, now, p.thresholds.timePendingMax) then 1 else 0
  }

  ghost function NoMinimumOne(p: SpillPolicy): PodGroup -> int {
    (g: PodGroup) => if Counts(g, p.queueName) && !HasMinimum(g) then 1 else 0
  }

  ghost function MinimumOf(r: string, p: SpillPolicy): PodGroup -> int {
    (g: PodGroup) => if Counts(g, p.queueName) && HasMinimum(g) then AmountOf(g.minResources.value, r) else 0
  }

  /** An uncompleted group of the policy without a minimum that bears the pod's group name. */
  ghost function Sheltering(p: SpillPolicy, pod: Pod): PodGroup -> int {
    (g: PodGroup) => if Counts(g, p.queueName) && !HasMinimum(g) && NamesGroup(pod, g.name) then 1 else 0
  }

  function ContainerAmount(r: string): Resources -> int {
    (c: Resources) => AmountOf(c, r)
  }

  /** What a pod that is not finished requests, once for each such group. */
  ghost function RequestOf(c: Cluster, r: string, p: SpillPolicy): Pod -> int {
    (pod: Pod) =>
      if pod.phase == "Succeeded" || pod.phase == "Failed" then 0
      else Scaled(Sum(Sheltering(p, pod), c.podGroups), Sum(ContainerAmount(r), pod.requests))
  }

  ghost function DemandMeant(c: Cluster, r: string, p: SpillPolicy): int {
    Sum(MinimumOf(r, p), c.podGroups) + Sum(RequestOf(c, r, p), c.pods)
  }

  lemma CapacityMeans(c: Cluster, key: string, p: SpillPolicy, r: string)
    ensures Sum(AllocatableOf(r), DedicatedNodes(c.nodes, key, p)) == Sum(CapacityOf(r, key, p), c.nodes)
  {
    forall n { InPoolIs(n, key, p.dedicated); }
    SumOfFilter(AllocatableOf(r), InPool(key, p.dedicated), CapacityOf(r, key, p), c.nodes);
  }

  lemma PodCountsMean(c: Cluster, key: string, p: SpillPolicy, now: int)
    ensures Sum(OnNode(NodeNames(OverflowNodes(c.nodes, key, p))), PodsOf(c, p)) == Sum(SpilledOne(c, key, p), c.pods)
    ensures Sum(Breaches(now, p.thresholds.timePendingMax), PodsOf(c, p)) == Sum(LateOne(c, p, now), c.pods)
  {
    var ours := InGroups(GroupNames(PolicyPodGroups(c.podGroups, p.queueName)));
    var f, g := OnNode(NodeNames(OverflowNodes(c.nodes, key, p))), Breaches(now, p.thresholds.timePendingMax);
    hide OnNode, Breaches, Spilled, Belongs, LateBy, InGroups;
    forall pod { OnNodeIs(c, key, p, pod); }
    forall pod { PodsOfAre(c, p, pod); }
    forall pod { LateIs(pod, now, p.thresholds.timePendingMax); }
    SumOfFilter(f, ours, SpilledOne(c, key, p), c.pods);
    SumOfFilter(g, ours, LateOne(c, p, now), c.pods);
  }

  lemma MinimumMeans(c: Cluster, p: SpillPolicy, r: string)
    ensures var gs := PolicyPodGroups(c.podGroups, p.queueName);
            && Sum(DeclaredDemand(r), gs) == Sum(MinimumOf(r, p), c.podGroups)
            && Sum(Undeclared(), gs) == Sum(NoMinimumOne(p), c.podGroups)
  {
    SumOfFilter(DeclaredDemand(r), OfQueue(p.queueName), MinimumOf(r, p), c.podGroups);
    SumOfFilter(Undeclared(), OfQueue(p.queueName), NoMinimumOne(p), c.podGroups);
  }

  lemma ShelteringMeans(c: Cluster, p: SpillPolicy, pod: Pod)
    ensures TimesNamed(PolicyPodGroups(c.podGroups, p.queueName), pod) == Sum(Sheltering(p, pod), c.podGroups)
    ensures !Belongs(c, p, pod) ==> Sum(Sheltering(p, pod), c.podGroups) == 0
  {
    forall g: PodGroup | g.name != "" { GroupNameIs(pod, g.name); }
    if GroupName(pod) == "" || !Belongs(c, p, pod) { SumOfZeros(Sheltering(p, pod), c.podGroups); }
    if GroupName(pod) != "" {
      SumOfFilter(UndeclaredOf(GroupName(pod)), OfQueue(p.queueName), Sheltering(p, pod), c.podGroups);
    }
  }

  lemma RequestMeans(c: Cluster, p: SpillPolicy, r: string, pod: Pod)
    ensures RequestOf(c, r, p)(pod)
         == if Belongs(c, p, pod) then WeightedRequest(PolicyPodGroups(c.podGroups, p.queueName), r)(pod) else 0
  {
    ShelteringMeans(c, p, pod);
    SumSame(ContainerAmount(r), ContainerRequest(r), pod.requests);
    hide Belongs, Sheltering, TimesNamed;
    var x := PodRequest(r)(pod);
    assert Scaled(0, x) == 0 && Scaled(TimesNamed(PolicyPodGroups(c.podGroups, p.queueName), pod), 0) == 0;
    assert Scaled(0, Sum(ContainerAmount(r), pod.requests)) == 0;
  }

  lemma DemandMeans(c: Cluster, p: SpillPolicy, r: string)
    ensures Demand(PolicyPodGroups(c.podGroups, p.queueName), PodsOf(c, p), r) == DemandMeant(c, r, p)
  {
    var gs := PolicyPodGroups(c.podGroups, p.queueName);
    DemandExactly(gs, PodsOf(c, p), r);
    MinimumMeans(c, p, r);
    hide RequestOf, WeightedRequest, Belongs, Demand, InGroups;
    forall pod { PodsOfAre(c, p, pod); }
    forall pod { RequestMeans(c, p, r, pod); }
    SumOfFilter(WeightedRequest(gs, r), InGroups(GroupNames(gs)), RequestOf(c, r, p), c.pods);
  }

  /** The longest time that a pod of the policy has been unschedulable, or 0. */
  lemma StalestMeans(c: Cluster, key: string, p: SpillPolicy, now: int)
    ensures var d := Observe(c, key, p, now).stalestPendingFor;
            && d >= 0
            && (forall pod, i :: pod in c.pods && Belongs(c, p, pod) && FirstFalse(pod.conditions, i) ==>
                  Lasted(pod.conditions[i], now) <= d)
            && (d == 0 || exists pod, i :: pod in c.pods && Belongs(c, p, pod) && FirstFalse(pod.conditions, i)
                            && Lasted(pod.conditions[i], now) == d)
  {
    assert Observe(c, key, p, now).stalestPendingFor == Largest(PendingFor(now), PodsOf(c, p));
    hide Observe;
    LargestIs(PendingFor(now), PodsOf(c, p));
    forall pod: Pod { UnschedulableIs(pod.conditions, now); }
    forall pod { PodsOfAre(c, p, pod); }
    hide PodsOf, Belongs, UnschedulableFor;
    var d := Largest(PendingFor(now), PodsOf(c, p));
    forall pod, i | pod in c.pods && Belongs(c, p, pod) && FirstFalse(pod.conditions, i)
      ensures Lasted(pod.conditions[i], now) <= d
    {
      assert PendingFor(now)(pod) == Lasted(pod.conditions[i], now);
    }
    if d != 0 {
      var pod :| pod in PodsOf(c, p) && PendingFor(now)(pod) == d;
      var i :| FirstFalse(pod.conditions, i);
    }
  }

  /** Every number of an observation but the one above, and its flag, in the objects' own fields. */
  lemma ObserveMeans(c: Cluster, key: string, p: SpillPolicy, now: int)
    ensures var o := Observe(c, key, p, now);
            && o.demandCPU == DemandMeant(c, "cpu", p) && o.demandMemory == DemandMeant(c, "memory", p)
            && o.demandEstimatedPGs == Sum(NoMinimumOne(p), c.podGroups)
            && o.maxCPU == Sum(CapacityOf("cpu", key, p), c.nodes)
            && o.maxMemory == Sum(CapacityOf("memory", key, p), c.nodes)
            && o.overflowPods == Sum(SpilledOne(c, key, p), c.pods)
            && (o.autoscalerExhausted <==> Reported(c, p))
            && o.stalePendingPods == Sum(LateOne(c, p, now), c.pods)
  {
    hide DemandMeant, NoMinimumOne, CapacityOf, SpilledOne, LateOne, Reported, Demand, AllocatableOf, OnNode, Breaches;
    DemandMeans(c, p, "cpu"); DemandMeans(c, p, "memory");
    MinimumMeans(c, p, "cpu");
    CapacityMeans(c, key, p, "cpu"); CapacityMeans(c, key, p, "memory");
    PodCountsMean(c, key, p, now);
    FlagMeans(c, p);
  }

  lemma FlagMeans(c: Cluster, p: SpillPolicy)
    ensures Exhausted(c.events, PodNames(PodsOf(c, p))) <==> Reported(c, p)
  {
    ReportedIs(c, p);
    hide PodsOf, Reported;
    var pods := PodsOf(c, p);
    if e :| e in c.events && IsExhaustion(e, PodNames(pods)) {
      var pod :| pod in pods && pod.name != "" && pod.name == e.involvedName;
      assert IsExhaustion(e, {pod.name});
    }
    if e, pod :| e in c.events && pod in pods && pod.name != "" && IsExhaustion(e, {pod.name}) {
      assert IsExhaustion(e, PodNames(pods));
    }
  }
}

/** The snapshot (pkg/snapshot/builder.go, demand.go, supply.go, stale_pending.go): what it reads from
    the informer caches, as functions of the listed objects, and the loops that compute it.

    Quantities are numbers: their display format is not modelled.  Lists hold no nil entries. */
module Snapshots {
  import opened Prelude
  import opened Api
  import opened StateMachine
  import opened QueueLedger
  import opened Registry

  const GROUP_KEY := "volcano.sh/group-name"
  const KUBE_GROUP_KEY := "scheduling.k8s.io/group-name"

  type Resources = map<string, int>

  datatype PodCondition = PodCondition(kind: string, status: string, lastTransition: int)

  datatype Pod = Pod(
    namespace: string, name: string,
    annotations: map<string, string>,
    nodeName: string,
    phase: string,
    conditions: seq<PodCondition>,
    requests: seq<Resources>)

  datatype PodGroup = PodGroup(
    namespace: string, name: string,
    queue: string,
    phase: string,
    minMember: int,
    minResources: Option<Resources>)

  datatype NodeCondition = NodeCondition(kind: string, status: string)

  datatype Node = Node(
    name: string,
    labels: map<string, string>,
    allocatable: Resources,
    unschedulable: bool,
    conditions: seq<NodeCondition>,
    taints: seq<string>)

  datatype Event = Event(reason: string, involvedKind: string, involvedNamespace: string, involvedName: string)

  /** What the informer caches list, in no particular order. */
  datatype Cluster = Cluster(
    podGroups: seq<PodGroup>, pods: seq<Pod>, nodes: seq<Node>, events: seq<Event>, queues: map<string, Queue>)

  function Quantity(r: Resources, name: string): int {
    if name in r then r[name] else 0
  }

  // ---------- Membership ----------

  function GroupName(p: Pod): string {
    if Lookup(p.annotations, GROUP_KEY) != "" then Lookup(p.annotations, GROUP_KEY)
    else Lookup(p.annotations, KUBE_GROUP_KEY)
  }

  predicate IsTerminal(p: Pod) {
    p.phase == "Succeeded" || p.phase == "Failed"
  }

  function OfQueue(queueName: string): PodGroup -> bool {
    (g: PodGroup) => g.queue == queueName && g.phase != "Completed"
  }

  function PolicyPodGroups(all: seq<PodGroup>, queueName: string): seq<PodGroup> {
    Filter(OfQueue(queueName), all)
  }

  function GroupNames(gs: seq<PodGroup>): set<string> {
    set g | g in gs :: g.name
  }

  function InGroups(names: set<string>): Pod -> bool {
    (p: Pod) => GroupName(p) != "" && GroupName(p) in names
  }

  function PolicyPods(all: seq<Pod>, gs: seq<PodGroup>): seq<Pod> {
    Filter(InGroups(GroupNames(gs)), all)
  }

  /** The pods that count as the policy's. */
  function PodsOf(c: Cluster, p: SpillPolicy): seq<Pod> {
    PolicyPods(c.pods, PolicyPodGroups(c.podGroups, p.queueName))
  }

  function InPool(key: string, group: string): Node -> bool {
    (n: Node) => key != "" && Lookup(n.labels, key) != "" && Lookup(n.labels, key) == group
  }

  function DedicatedNodes(all: seq<Node>, key: string, p: SpillPolicy): seq<Node> {
    Filter(InPool(key, p.dedicated), all)
  }

  /** A node that matches both groups counts as dedicated. */
  function OverflowNodes(all: seq<Node>, key: string, p: SpillPolicy): seq<Node> {
    if p.overflow == p.dedicated then [] else Filter(InPool(key, p.overflow), all)
  }

  // ---------- Aggregates ----------

  predicate Declares(g: PodGroup) {
    g.minResources.Some? && exists r :: r in g.minResources.value && g.minResources.value[r] != 0
  }

  function ContainerRequest(r: string): Resources -> int {
    (c: Resources) => Quantity(c, r)
  }

  /** What a pod asks for, as far as it counts for the group `name`. */
  function LiveRequest(name: string, r: string): Pod -> int {
    (p: Pod) =>
      if GroupName(p) != "" && GroupName(p) == name && !IsTerminal(p) then Sum(ContainerRequest(r), p.requests) else 0
  }

  function GroupDemand(pods: seq<Pod>, r: string): PodGroup -> int {
    (g: PodGroup) => if Declares(g) then Quantity(g.minResources.value, r) else Sum(LiveRequest(g.name, r), pods)
  }

  /** The demand of resource `r`: declared minimum resources, or the requests of live pods. */
  function Demand(gs: seq<PodGroup>, pods: seq<Pod>, r: string): int {
    Sum(GroupDemand(pods, r), gs)
  }

  function Undeclared(): PodGroup -> int {
    (g: PodGroup) => if Declares(g) then 0 else 1
  }

  function NodeNames(ns: seq<Node>): set<string> {
    set n | n in ns && n.name != "" :: n.name
  }

  function OnNode(names: set<string>): Pod -> int {
    (p: Pod) => if p.nodeName != "" && p.nodeName in names then 1 else 0
  }

  function AllocatableOf(r: string): Node -> int {
    (n: Node) => Quantity(n.allocatable, r)
  }

  function IsUnscheduled(c: PodCondition): bool {
    c.kind == "PodScheduled" && c.status == "False"
  }

  /** How long the first PodScheduled=False condition has lasted. */
  function UnschedulableFor(conditions: seq<PodCondition>, now: int): Option<int> {
    if conditions == [] then None
    else if !IsUnscheduled(conditions[0]) then UnschedulableFor(conditions[1..], now)
    else if conditions[0].lastTransition == 0 || now < conditions[0].lastTransition then Some(0)
    else Some(now - conditions[0].lastTransition)
  }

  function PendingFor(now: int): Pod -> int {
    (p: Pod) => match UnschedulableFor(p.conditions, now) case Some(d) => d case None => 0
  }

  function Breaches(now: int, threshold: int): Pod -> int {
    (p: Pod) => match UnschedulableFor(p.conditions, now) case Some(d) => if d > threshold then 1 else 0 case None => 0
  }

  function PodNames(pods: seq<Pod>): set<string> {
    set p | p in pods && p.name != "" :: p.name
  }

  /** The scan compares bare names: the namespace of the involved pod is not looked at. */
  predicate IsExhaustion(e: Event, names: set<string>) {
    && (e.reason == "NotTriggerScaleUp" || e.reason == "FailedScaling")
    && e.involvedKind == "Pod" && e.involvedName in names
  }

  predicate Exhausted(events: seq<Event>, names: set<string>) {
    exists e :: e in events && IsExhaustion(e, names)
  }

  /** Everything that a decision reads from the cluster beside the Queue. */
  function Observe(c: Cluster, key: string, p: SpillPolicy, now: int): Observation {
    var gs := PolicyPodGroups(c.podGroups, p.queueName);
    var pods := PolicyPods(c.pods, gs);
    var dedicated := DedicatedNodes(c.nodes, key, p);
    Observation(
      Demand(gs, pods, "cpu"), Demand(gs, pods, "memory"), Sum(Undeclared(), gs),
      Sum(AllocatableOf("cpu"), dedicated), Sum(AllocatableOf("memory"), dedicated),
      Sum(OnNode(NodeNames(OverflowNodes(c.nodes, key, p))), pods),
      Exhausted(c.events, PodNames(pods)),
      Largest(PendingFor(now), pods), Sum(Breaches(now, p.thresholds.timePendingMax), pods))
  }

  function BuildFor(c: Cluster, key: string, p: SpillPolicy, now: int): Snapshot {
    SnapshotOf(p, now, FindQueue(c.queues, p.queueName), Observe(c, key, p, now))
  }

  /** None for a name that the registry does not know. */
  function Build(reg: PolicyRegistry, c: Cluster, policyName: string, now: int): Option<Snapshot> {
    match PolicyByName(reg, policyName)
    case Some(p) => Some(BuildFor(c, reg.defaults.nodeGroupLabelKey, p, now))
    case None => None
  }

  // ---------- Order independence ----------

  ghost predicate SameContents(c: Cluster, d: Cluster) {
    && Permuted(c.podGroups, d.podGroups) && Permuted(c.pods, d.pods)
    && Permuted(c.nodes, d.nodes) && Permuted(c.events, d.events)
    && c.queues == d.queues
  }

  lemma DemandPermuted(gs: seq<PodGroup>, hs: seq<PodGroup>, pods: seq<Pod>, qods: seq<Pod>, r: string)
    requires Permuted(gs, hs) && Permuted(pods, qods)
    ensures Demand(gs, pods, r) == Demand(hs, qods, r)
  {
    SumPermuted(GroupDemand(pods, r), gs, hs);
    forall g | g in hs ensures GroupDemand(pods, r)(g) == GroupDemand(qods, r)(g) {
      SumPermuted(LiveRequest(g.name, r), pods, qods);
    }
    SumSame(GroupDemand(pods, r), GroupDemand(qods, r), hs);
  }

  lemma MembersPermuted(c: Cluster, d: Cluster, key: string, p: SpillPolicy)
    requires SameContents(c, d)
    ensures var gs, hs := PolicyPodGroups(c.podGroups, p.queueName), PolicyPodGroups(d.podGroups, p.queueName);
            && Permuted(gs, hs)
            && Permuted(PolicyPods(c.pods, gs), PolicyPods(d.pods, hs))
            && Permuted(DedicatedNodes(c.nodes, key, p), DedicatedNodes(d.nodes, key, p))
            && Permuted(OverflowNodes(c.nodes, key, p), OverflowNodes(d.nodes, key, p))
  {
    var gs, hs := PolicyPodGroups(c.podGroups, p.queueName), PolicyPodGroups(d.podGroups, p.queueName);
    FilterPermuted(OfQueue(p.queueName), c.podGroups, d.podGroups);
    SameMembers(gs, hs);
    assert GroupNames(gs) == GroupNames(hs);
    FilterPermuted(InGroups(GroupNames(gs)), c.pods, d.pods);
    FilterPermuted(InPool(key, p.dedicated), c.nodes, d.nodes);
    FilterPermuted(InPool(key, p.overflow), c.nodes, d.nodes);
  }

  /** The order in which the listers return objects does not matter to any decision. */
  lemma OrderIndependence(env: Env, c: Cluster, d: Cluster, key: string, p: SpillPolicy, now: int)
    requires SameContents(c, d)
    ensures Observe(c, key, p, now) == Observe(d, key, p, now)
    ensures Evaluate(env, BuildFor(c, key, p, now)) == Evaluate(env, BuildFor(d, key, p, now))
  {
    MembersPermuted(c, d, key, p);
    hide Evaluate, Demand, Exhausted, PolicyPodGroups, PolicyPods, DedicatedNodes, OverflowNodes;
    var gs, hs := PolicyPodGroups(c.podGroups, p.queueName), PolicyPodGroups(d.podGroups, p.queueName);
    var pods, qods := PolicyPods(c.pods, gs), PolicyPods(d.pods, hs);
    DemandPermuted(gs, hs, pods, qods, "cpu"); DemandPermuted(gs, hs, pods, qods, "memory");
    SumPermuted(Undeclared(), gs, hs);
    NodeSumsPermuted(c, d, key, p, pods, qods);
    PodSumsPermuted(c, d, pods, qods, now, p.thresholds.timePendingMax);
    assert Observe(c, key, p, now) == Observe(d, key, p, now);
  }

  lemma NodeSumsPermuted(c: Cluster, d: Cluster, key: string, p: SpillPolicy, pods: seq<Pod>, qods: seq<Pod>)
    requires SameContents(c, d) && Permuted(pods, qods)
    ensures forall r :: Sum(AllocatableOf(r), DedicatedNodes(c.nodes, key, p))
                     == Sum(AllocatableOf(r), DedicatedNodes(d.nodes, key, p))
    ensures Sum(OnNode(NodeNames(OverflowNodes(c.nodes, key, p))), pods)
         == Sum(OnNode(NodeNames(OverflowNodes(d.nodes, key, p))), qods)
  {
    MembersPermuted(c, d, key, p);
    forall r { SumPermuted(AllocatableOf(r), DedicatedNodes(c.nodes, key, p), DedicatedNodes(d.nodes, key, p)); }
    SameMembers(OverflowNodes(c.nodes, key, p), OverflowNodes(d.nodes, key, p));
    assert NodeNames(OverflowNodes(c.nodes, key, p)) == NodeNames(OverflowNodes(d.nodes, key, p));
    SumPermuted(OnNode(NodeNames(OverflowNodes(c.nodes, key, p))), pods, qods);
  }

  lemma PodSumsPermuted(c: Cluster, d: Cluster, pods: seq<Pod>, qods: seq<Pod>, now: int, threshold: int)
    requires SameContents(c, d) && Permuted(pods, qods)
    ensures Exhausted(c.events, PodNames(pods)) == Exhausted(d.events, PodNames(qods))
    ensures Largest(PendingFor(now), pods) == Largest(PendingFor(now), qods)
    ensures Sum(Breaches(now, threshold), pods) == Sum(Breaches(now, threshold), qods)
  {
    SameMembers(pods, qods); SameMembers(c.events, d.events);
    assert PodNames(pods) == PodNames(qods);
    LargestPermuted(PendingFor(now), pods, qods);
    SumPermuted(Breaches(now, threshold), pods, qods);
  }

  // ---------- The conditions, in cluster terms ----------

  lemma {:induction false} CountIsZero<T>(f: T -> int, s: seq<T>)
    requires forall x :: x in s ==> f(x) == 0 || f(x) == 1
    ensures Sum(f, s) >= 0
    ensures Sum(f, s) == 0 <==> forall x :: x in s ==> f(x) == 0
  {
    if s == [] {
    } else {
      assert s == [s[0]] + s[1..] && s[0] in s;
      CountIsZero(f, s[1..]);
    }
  }

  /** Some exhaustion event involves a pod with the bare name of a policy pod. */
  ghost predicate NameReported(events: seq<Event>, pods: seq<Pod>) {
    exists e, pod :: e in events && pod in pods && pod.name != "" && IsExhaustion(e, {pod.name})
  }

  ghost predicate Overdue(pod: Pod, now: int, limit: int) {
    UnschedulableFor(pod.conditions, now).Some? && UnschedulableFor(pod.conditions, now).value > limit
  }

  lemma SpillDueInPods(c: Cluster, key: string, p: SpillPolicy, now: int)
    ensures Condition(Steady, p, Observe(c, key, p, now))
       <==> (var pods := PodsOf(c, p);
             || NameReported(c.events, pods)
             || (p.thresholds.timePendingMax > 0
                 && exists pod :: pod in pods && Overdue(pod, now, p.thresholds.timePendingMax)))
  {
    var pods := PodsOf(c, p);
    LargestIs(PendingFor(now), pods);
    forall pod | p.thresholds.timePendingMax > 0
      ensures PendingFor(now)(pod) > p.thresholds.timePendingMax <==> Overdue(pod, now, p.thresholds.timePendingMax) {}
    if e :| e in c.events && IsExhaustion(e, PodNames(pods)) {
      var pod :| pod in pods && pod.name != "" && pod.name == e.involvedName;
      assert IsExhaustion(e, {pod.name});
    }
    if e, pod :| e in c.events && pod in pods && pod.name != "" && IsExhaustion(e, {pod.name}) {
      assert IsExhaustion(e, PodNames(pods));
    }
  }

  // ---------- Whose exhaustion it is ----------

  predicate Involves(e: Event, pod: Pod) {
    e.involvedNamespace == pod.namespace && e.involvedName == pod.name
  }

  /** An exhaustion event is really about a pod of `pods`. */
  ghost predicate PodReported(events: seq<Event>, pods: seq<Pod>) {
    exists e, pod :: e in events && pod in pods && Involves(e, pod) && IsExhaustion(e, PodNames(pods))
  }

  /** Events about pods are about pods that exist. */
  ghost predicate EventsAboutListed(events: seq<Event>, all: seq<Pod>) {
    forall e :: e in events && e.involvedKind == "Pod" ==> exists pod :: pod in all && Involves(e, pod)
  }

  predicate SameKey(p: Pod, q: Pod) {
    p.namespace == q.namespace && p.name == q.name
  }

  /** A pod of another owner bears the name of a policy pod, in a namespace where the policy has no
      pod of that name. */
  ghost predicate HasNamesake(all: seq<Pod>, pods: seq<Pod>) {
    exists q :: q in all && q.name in PodNames(pods) && forall p :: p in pods ==> !SameKey(p, q)
  }

  /** The exhaustion flag means a pod of the policy under every set of events about existing pods,
      exactly when no foreign pod bears the name of a policy pod. */
  lemma ExhaustionIsOursIff(all: seq<Pod>, pods: seq<Pod>)
    ensures !HasNamesake(all, pods) <==>
            forall events: seq<Event> :: EventsAboutListed(events, all) ==>
              (Exhausted(events, PodNames(pods)) <==> PodReported(events, pods))
  {
    if q :| q in all && q.name in PodNames(pods) && forall p :: p in pods ==> !SameKey(p, q) {
      var events := ForeignEvent(all, pods, q);
      assert EventsAboutListed(events, all) && Exhausted(events, PodNames(pods)) && !PodReported(events, pods);
    } else {
      forall events: seq<Event> | EventsAboutListed(events, all)
        ensures Exhausted(events, PodNames(pods)) <==> PodReported(events, pods)
      {
        if e :| e in events && IsExhaustion(e, PodNames(pods)) {
          var q :| q in all && Involves(e, q);
          var p :| p in pods && SameKey(p, q);
          assert Involves(e, p);
        }
      }
    }
  }

  /** One event about a foreign pod of a policy pod's name raises the flag for the policy. */
  lemma ForeignEvent(all: seq<Pod>, pods: seq<Pod>, q: Pod) returns (events: seq<Event>)
    requires q in all && q.name in PodNames(pods) && forall p :: p in pods ==> !SameKey(p, q)
    ensures EventsAboutListed(events, all) && Exhausted(events, PodNames(pods)) && !PodReported(events, pods)
  {
    var e := Event("FailedScaling", "Pod", q.namespace, q.name);
    events := [e];
    assert Involves(e, q) && e in events && IsExhaustion(e, PodNames(pods));
  }

  // Two pods of one name, of which only the first belongs to a group of the policy.

  function OurPod(): Pod {
    Pod("ns-a", "x", map[GROUP_KEY := "g"], "", "Pending", [], [])
  }

  function ForeignPod(): Pod {
    Pod("ns-b", "x", map[], "", "Pending", [], [])
  }

  function Namesakes(p: SpillPolicy, events: seq<Event>): Cluster {
    Cluster([PodGroup("ns-a", "g", p.queueName, "Running", 1, None)], [OurPod(), ForeignPod()], [], events, map[])
  }

  lemma GroupsOfNamesakes()
    ensures GroupName(OurPod()) == "g" && GroupName(ForeignPod()) == ""
  {
  }

  lemma OnlyOurs(p: SpillPolicy, events: seq<Event>)
    ensures forall pod :: pod in PodsOf(Namesakes(p, events), p) <==> pod == OurPod()
  {
    GroupsOfNamesakes();
    hide GroupName;
    var c := Namesakes(p, events);
    var g := c.podGroups[0];
    FilterMember(OfQueue(p.queueName), c.podGroups, g);
    var gs := PolicyPodGroups(c.podGroups, p.queueName);
    assert g.name in GroupNames(gs);
    forall pod ensures pod in PodsOf(c, p) <==> pod == OurPod() {
      FilterMember(InGroups(GroupNames(gs)), c.pods, pod);
    }
  }

  function ForeignReport(): Event {
    Event("FailedScaling", "Pod", "ns-b", "x")
  }

  lemma ReportOfNamesake(now: int, limit: int)
    ensures IsExhaustion(ForeignReport(), {OurPod().name}) && OurPod().name != ""
    ensures Involves(ForeignReport(), ForeignPod()) && !Involves(ForeignReport(), OurPod())
    ensures !Overdue(OurPod(), now, limit)
  {
  }

  /** A Steady Queue spills for the pod of another namespace: nothing but a foreign event is there. */
  lemma ForeignEventSpills(p: SpillPolicy, key: string, now: int) returns (c: Cluster)
    requires p.thresholds.timePendingMax > 0
    ensures Condition(Steady, p, Observe(c, key, p, now))
    ensures EventsAboutListed(c.events, c.pods) && !PodReported(c.events, PodsOf(c, p))
    ensures forall pod :: pod in PodsOf(c, p) ==> !Overdue(pod, now, p.thresholds.timePendingMax)
  {
    c := Namesakes(p, [ForeignReport()]);
    OnlyOurs(p, [ForeignReport()]);
    ReportOfNamesake(now, p.thresholds.timePendingMax);
    hide PodsOf, Observe, Condition, IsExhaustion, Overdue, Involves, OurPod, ForeignPod, ForeignReport;
    assert ForeignReport() in c.events && ForeignPod() in c.pods && OurPod() in PodsOf(c, p);
    SpillDueInPods(c, key, p, now);
  }

  // ---------- Demand ----------

  function DeclaredDemand(r: string): PodGroup -> int {
    (g: PodGroup) => if Declares(g) then Quantity(g.minResources.value, r) else 0
  }

  /** What a pod asks for; a finished pod asks for nothing. */
  function PodRequest(r: string): Pod -> int {
    (p: Pod) => if IsTerminal(p) then 0 else Sum(ContainerRequest(r), p.requests)
  }

  /** Counts the undeclared groups of that name. */
  function UndeclaredOf(name: string): PodGroup -> int {
    (g: PodGroup) => if g.name == name && !Declares(g) then 1 else 0
  }

  function TimesNamed(gs: seq<PodGroup>, p: Pod): int {
    if GroupName(p) == "" then 0 else Sum(UndeclaredOf(GroupName(p)), gs)
  }

  function Scaled(n: int, x: int): int {
    n * x
  }

  /** A pod's request, once for every undeclared group of its name. */
  function WeightedRequest(gs: seq<PodGroup>, r: string): Pod -> int {
    (p: Pod) => Scaled(TimesNamed(gs, p), PodRequest(r)(p))
  }

  /** A pod's request, once if some undeclared group has its name. */
  function RequestOnce(gs: seq<PodGroup>, r: string): Pod -> int {
    (p: Pod) => if TimesNamed(gs, p) > 0 then PodRequest(r)(p) else 0
  }

  /** Demand is the declared resources plus the request of every live pod, as often as an undeclared
      group has the pod's group name. */
  lemma {:induction false} DemandExactly(gs: seq<PodGroup>, pods: seq<Pod>, r: string)
    ensures Demand(gs, pods, r) == Sum(DeclaredDemand(r), gs) + Sum(WeightedRequest(gs, r), pods)
  {
    if gs == [] {
      forall p ensures WeightedRequest(gs, r)(p) == 0 {
        assert TimesNamed(gs, p) == 0;
        assert Scaled(0, PodRequest(r)(p)) == 0;
      }
      SumOfZeros(WeightedRequest(gs, r), pods);
    } else {
      var g, rest := gs[0], gs[1..];
      DemandExactly(rest, pods, r);
      forall p { TimesNamedNext(g, rest, p, r); }
      assert gs == [g] + rest;
      if Declares(g) {
        SumSame(WeightedRequest(gs, r), WeightedRequest(rest, r), pods);
      } else {
        SumAdds(LiveRequest(g.name, r), WeightedRequest(rest, r), WeightedRequest(gs, r), pods);
      }
    }
  }

  lemma TimesNamedNext(g: PodGroup, rest: seq<PodGroup>, p: Pod, r: string)
    ensures WeightedRequest([g] + rest, r)(p)
         == (if Declares(g) then 0 else LiveRequest(g.name, r)(p)) + WeightedRequest(rest, r)(p)
  {
    assert ([g] + rest)[1..] == rest;
    var n, x := TimesNamed(rest, p), PodRequest(r)(p);
    assert TimesNamed([g] + rest, p) == n + if IsUndeclaredOf(g, p) then 1 else 0;
    assert Scaled(n + 1, x) == Scaled(n, x) + x;
  }

  /** Two undeclared groups have the pod's group name. */
  ghost predicate SharedByTwo(gs: seq<PodGroup>, p: Pod) {
    exists i, j :: 0 <= i < j < |gs| && IsUndeclaredOf(gs[i], p) && IsUndeclaredOf(gs[j], p)
  }

  predicate IsUndeclaredOf(g: PodGroup, p: Pod) {
    !Declares(g) && g.name == GroupName(p) != ""
  }

  lemma {:induction false} NamedAtAll(gs: seq<PodGroup>, p: Pod)
    ensures TimesNamed(gs, p) >= 0
    ensures TimesNamed(gs, p) > 0 <==> exists i :: 0 <= i < |gs| && IsUndeclaredOf(gs[i], p)
  {
    if gs == [] {
    } else {
      NamedAtAll(gs[1..], p);
      assert forall i :: 0 < i < |gs| ==> gs[i] == gs[1..][i - 1];
      if i :| 0 <= i < |gs[1..]| && IsUndeclaredOf(gs[1..][i], p) { assert IsUndeclaredOf(gs[i + 1], p); }
    }
  }

  lemma {:induction false} NamedTwice(gs: seq<PodGroup>, p: Pod)
    ensures TimesNamed(gs, p) > 1 <==> SharedByTwo(gs, p)
  {
    if gs == [] {
    } else {
      NamedAtAll(gs[1..], p);
      NamedTwice(gs[1..], p);
      assert forall i :: 0 < i < |gs| ==> gs[i] == gs[1..][i - 1];
      if i, j :| 0 <= i < j < |gs[1..]| && IsUndeclaredOf(gs[1..][i], p) && IsUndeclaredOf(gs[1..][j], p) {
        assert IsUndeclaredOf(gs[i + 1], p) && IsUndeclaredOf(gs[j + 1], p);
      }
      if i :| IsUndeclaredOf(gs[0], p) && 0 <= i < |gs[1..]| && IsUndeclaredOf(gs[1..][i], p) {
        assert IsUndeclaredOf(gs[0], p) && IsUndeclaredOf(gs[i + 1], p);
      }
    }
  }

  /** No container requests a negative amount. */
  ghost predicate NaturalRequests(pods: seq<Pod>, r: string) {
    forall p, c :: p in pods && c in p.requests ==> Quantity(c, r) >= 0
  }

  lemma {:induction false} SumOfNaturals<T>(f: T -> int, s: seq<T>)
    requires forall x :: x in s ==> f(x) >= 0
    ensures Sum(f, s) >= 0
  {
    if s == [] {
    } else {
      assert s[0] in s;
      SumOfNaturals(f, s[1..]);
    }
  }

  /** A sum that dominates another one equals it exactly when every summand does. */
  lemma {:induction false} SumDominates<T>(f: T -> int, g: T -> int, s: seq<T>)
    requires forall x :: x in s ==> f(x) >= g(x)
    ensures Sum(f, s) >= Sum(g, s)
    ensures Sum(f, s) == Sum(g, s) <==> forall x :: x in s ==> f(x) == g(x)
  {
    if s == [] {
    } else {
      assert s == [s[0]] + s[1..] && s[0] in s;
      SumDominates(f, g, s[1..]);
    }
  }

  lemma WeightAgainstOnce(gs: seq<PodGroup>, p: Pod, r: string)
    ensures var w, o := WeightedRequest(gs, r)(p), RequestOnce(gs, r)(p);
            && (w == o <==> PodRequest(r)(p) == 0 || !SharedByTwo(gs, p))
            && (PodRequest(r)(p) >= 0 ==> w >= o)
  {
    NamedAtAll(gs, p);
    NamedTwice(gs, p);
    var n, x := TimesNamed(gs, p), PodRequest(r)(p);
    ScaledFacts(n, x);
  }

  lemma ScaledFacts(n: int, x: int)
    requires n >= 0
    ensures Scaled(n, x) == (if n > 0 then x else 0) <==> x == 0 || n <= 1
    ensures x >= 0 ==> Scaled(n, x) >= if n > 0 then x else 0
  {
    assert Scaled(n, x) - x == (n - 1) * x;
    if n > 1 && x != 0 { assert (n - 1) * x != 0; }
  }

  /** Demand counts every live pod of an undeclared group once, if no live pod that requests the
      resource is shared by two undeclared groups; and, as requests are never negative, only then. */
  lemma DemandCountsPodsOnceIff(gs: seq<PodGroup>, pods: seq<Pod>, r: string)
    ensures var once := Demand(gs, pods, r) == Sum(DeclaredDemand(r), gs) + Sum(RequestOnce(gs, r), pods);
            var unshared := forall p :: p in pods && PodRequest(r)(p) != 0 ==> !SharedByTwo(gs, p);
            && (unshared ==> once)
            && (NaturalRequests(pods, r) && once ==> unshared)
  {
    var w, o := WeightedRequest(gs, r), RequestOnce(gs, r);
    DemandExactly(gs, pods, r);
    forall p { WeightAgainstOnce(gs, p, r); }
    if forall p :: p in pods && PodRequest(r)(p) != 0 ==> !SharedByTwo(gs, p) {
      SumSame(w, o, pods);
    } else if NaturalRequests(pods, r) {
      forall p | p in pods ensures w(p) >= o(p) { SumOfNaturals(ContainerRequest(r), p.requests); }
      SumDominates(w, o, pods);
    }
  }

  lemma {:induction false} SumOfZeros<T>(f: T -> int, s: seq<T>)
    requires forall x :: x in s ==> f(x) == 0
    ensures Sum(f, s) == 0
  {
    if s == [] {
    } else {
      assert s[0] in s;
      SumOfZeros(f, s[1..]);
    }
  }

  /** Two groups of one name, in different namespaces, count a pod twice: the snapshot matches pods by
      the bare group name. */
  lemma SharedNameCountsTwice(p: Pod, g: PodGroup, h: PodGroup, r: string)
    requires !Declares(g) && !Declares(h) && g.name == h.name == GroupName(p) != "" && !IsTerminal(p)
    ensures Demand([g, h], [p], r) == 2 * Sum(ContainerRequest(r), p.requests)
  {
    assert [g, h][1..] == [h] && [h][1..] == [] && [p][1..] == [];
    assert Sum(LiveRequest(g.name, r), [p]) == Sum(ContainerRequest(r), p.requests);
    assert Sum(GroupDemand([p], r), [h]) == Sum(ContainerRequest(r), p.requests);
  }
}

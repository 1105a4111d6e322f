/** The loops of the snapshot builder (pkg/snapshot), each proved against the function of
    `Snapshots` that says what it computes. */
module SnapshotLoops {
  import opened Prelude
  import opened Api
  import opened StateMachine
  import opened QueueLedger
  import opened Registry
  import opened Snapshots
  import opened SnapshotMeaning

  // ---------- Membership ----------

  method ListPolicyPodGroups(all: seq<PodGroup>, queueName: string) returns (out: seq<PodGroup>)
    ensures out == PolicyPodGroups(all, queueName)
    ensures forall g ::
              multiset(out)[g] == if g.queue == queueName && g.phase != "Completed" then multiset(all)[g] else 0
  {
    forall g { PolicyPodGroupsAre(all, queueName, g); }
    out := [];
    for i := 0 to |all|
      invariant out == PolicyPodGroups(all[..i], queueName)
    {
      FilterPrefix(OfQueue(queueName), all, i);
      var g := all[i];
      if g.queue != queueName { continue; }
      if g.phase == "Completed" { continue; }
      out := out + [g];
    }
    assert all[..|all|] == all;
  }

  method CollectGroupNames(gs: seq<PodGroup>) returns (names: set<string>)
    ensures names == GroupNames(gs)
  {
    names := {};
    for i := 0 to |gs|
      invariant names == GroupNames(gs[..i])
    {
      assert gs[..i + 1] == gs[..i] + [gs[i]];
      names := names + {gs[i].name};
    }
    assert gs[..|gs|] == gs;
  }

  method ListPolicyPods(all: seq<Pod>, gs: seq<PodGroup>) returns (out: seq<Pod>)
    ensures out == PolicyPods(all, gs)
    ensures forall pod :: pod in out <==> pod in all && exists g :: g in gs && NamesGroup(pod, g.name)
  {
    forall pod { PolicyPodsAre(all, gs, pod); }
    out := [];
    if gs == [] {
      NoGroupsNoPods(all);
      return;
    }
    var names := CollectGroupNames(gs);
    for i := 0 to |all|
      invariant out == Filter(InGroups(names), all[..i])
    {
      FilterPrefix(InGroups(names), all, i);
      var name := GroupName(all[i]);
      if name == "" { continue; }
      if name !in names { continue; }
      out := out + [all[i]];
    }
    assert all[..|all|] == all;
  }

  lemma {:induction false} NoGroupsNoPods(all: seq<Pod>)
    ensures PolicyPods(all, []) == []
  {
    assert GroupNames([]) == {};
    if all == [] {
    } else {
      NoGroupsNoPods(all[1..]);
    }
  }

  lemma PoolsAre(nodes: seq<Node>, key: string, p: SpillPolicy)
    ensures forall n :: n in DedicatedNodes(nodes, key, p) <==> n in nodes && Labelled(n, key, p.dedicated)
    ensures forall n :: n in OverflowNodes(nodes, key, p)
                   <==> n in nodes && Labelled(n, key, p.overflow) && p.dedicated != p.overflow
  {
    forall n { FilterMember(InPool(key, p.dedicated), nodes, n); }
    forall n { FilterMember(InPool(key, p.overflow), nodes, n); }
    forall n { InPoolIs(n, key, p.dedicated); }
    forall n { InPoolIs(n, key, p.overflow); }
  }

  method SplitNodesByGroup(nodes: seq<Node>, key: string, p: SpillPolicy)
    returns (dedicated: seq<Node>, overflow: seq<Node>)
    ensures dedicated == DedicatedNodes(nodes, key, p) && overflow == OverflowNodes(nodes, key, p)
    ensures forall n :: n in dedicated <==> n in nodes && Labelled(n, key, p.dedicated)
    ensures forall n :: n in overflow <==> n in nodes && Labelled(n, key, p.overflow) && p.dedicated != p.overflow
  {
    PoolsAre(nodes, key, p);
    dedicated, overflow := [], [];
    if key == "" {
      NoKeyNoNodes(nodes, p.dedicated); NoKeyNoNodes(nodes, p.overflow);
      return;
    }
    for i := 0 to |nodes|
      invariant dedicated == DedicatedNodes(nodes[..i], key, p) && overflow == OverflowNodes(nodes[..i], key, p)
    {
      FilterPrefix(InPool(key, p.dedicated), nodes, i);
      FilterPrefix(InPool(key, p.overflow), nodes, i);
      var n := nodes[i];
      if key !in n.labels || n.labels[key] == "" { continue; }
      var v := n.labels[key];
      if v == p.dedicated {
        dedicated := dedicated + [n];
      } else if v == p.overflow {
        overflow := overflow + [n];
      }
    }
    assert nodes[..|nodes|] == nodes;
  }

  lemma {:induction false} NoKeyNoNodes(nodes: seq<Node>, group: string)
    ensures Filter(InPool("", group), nodes) == []
  {
    if nodes == [] {
    } else {
      NoKeyNoNodes(nodes[1..], group);
    }
  }

  // ---------- Supply ----------

  method NodeNameSet(ns: seq<Node>) returns (names: set<string>)
    ensures names == NodeNames(ns)
  {
    names := {};
    for i := 0 to |ns|
      invariant names == NodeNames(ns[..i])
    {
      assert ns[..i + 1] == ns[..i] + [ns[i]];
      if ns[i].name == "" { continue; }
      names := names + {ns[i].name};
    }
    assert ns[..|ns|] == ns;
  }

  method PodNameSet(ps: seq<Pod>) returns (names: set<string>)
    ensures names == PodNames(ps)
  {
    names := {};
    for i := 0 to |ps|
      invariant names == PodNames(ps[..i])
    {
      assert ps[..i + 1] == ps[..i] + [ps[i]];
      if ps[i].name == "" { continue; }
      names := names + {ps[i].name};
    }
    assert ps[..|ps|] == ps;
  }

  method CountPodsOnNodes(pods: seq<Pod>, names: set<string>) returns (n: int)
    ensures n == Sum(OnNode(names), pods)
  {
    n := 0;
    if names == {} {
      SumOfZeros(OnNode(names), pods);
      return;
    }
    for i := 0 to |pods|
      invariant n == Sum(OnNode(names), pods[..i])
    {
      SumPrefix(OnNode(names), pods, i);
      if pods[i].nodeName == "" { continue; }
      if pods[i].nodeName in names {
        n := n + 1;
      }
    }
    assert pods[..|pods|] == pods;
  }

  /** A resource total that addResources accumulates into. */
  class ResourceTotal {
    var amounts: Resources

    constructor ()
      ensures amounts == map[]
    {
      amounts := map[];
    }

    method AddResources(src: Resources)
      modifies this
      ensures forall r :: Quantity(amounts, r) == Quantity(old(amounts), r) + Quantity(src, r)
    {
      var todo := src.Keys;
      ghost var done: set<string> := {};
      while todo != {}
        invariant todo <= src.Keys && done == src.Keys - todo
        invariant forall r :: Quantity(amounts, r) == Quantity(old(amounts), r) + if r in done then src[r] else 0
      {
        var name :| name in todo;
        amounts := amounts[name := Quantity(amounts, name) + src[name]];
        todo := todo - {name};
        done := done + {name};
      }
    }
  }

  method SumAllocatable(ns: seq<Node>) returns (total: Resources)
    ensures forall r :: Quantity(total, r) == Sum(AllocatableOf(r), ns)
  {
    var t := new ResourceTotal();
    for i := 0 to |ns|
      invariant forall r :: Quantity(t.amounts, r) == Sum(AllocatableOf(r), ns[..i])
    {
      forall r { SumPrefix(AllocatableOf(r), ns, i); }
      t.AddResources(ns[i].allocatable);
    }
    assert ns[..|ns|] == ns;
    total := t.amounts;
  }

  method AutoscalerExhausted(events: seq<Event>, names: set<string>) returns (found: bool)
    ensures found == Exhausted(events, names)
  {
    if names == {} {
      return false;
    }
    for i := 0 to |events|
      invariant forall k :: 0 <= k < i ==> !IsExhaustion(events[k], names)
    {
      var e := events[i];
      if e.reason != "NotTriggerScaleUp" && e.reason != "FailedScaling" { continue; }
      if e.involvedKind != "Pod" { continue; }
      if e.involvedName in names {
        assert IsExhaustion(e, names);
        return true;
      }
    }
    found := false;
  }

  // ---------- Stale pods ----------

  method FindUnschedulable(conditions: seq<PodCondition>, now: int) returns (d: Option<int>)
    ensures d == UnschedulableFor(conditions, now)
    ensures d == None <==> forall i :: !FirstFalse(conditions, i)
    ensures forall i :: FirstFalse(conditions, i) ==> d == Some(Lasted(conditions[i], now))
  {
    UnschedulableIs(conditions, now);
    for i := 0 to |conditions|
      invariant UnschedulableFor(conditions, now) == UnschedulableFor(conditions[i..], now)
    {
      var c := conditions[i];
      assert conditions[i..][0] == c && conditions[i..][1..] == conditions[i + 1..];
      if c.kind != "PodScheduled" || c.status != "False" { continue; }
      if c.lastTransition == 0 {
        return Some(0);
      }
      if now - c.lastTransition < 0 {
        return Some(0);
      }
      return Some(now - c.lastTransition);
    }
    d := None;
  }

  lemma LargestPrefix<T>(f: T -> int, s: seq<T>, i: nat)
    requires i < |s|
    ensures Largest(f, s[..i + 1]) == if f(s[i]) > Largest(f, s[..i]) then f(s[i]) else Largest(f, s[..i])
  {
    LargestIs(f, s[..i]); LargestIs(f, s[..i + 1]);
    assert s[..i + 1] == s[..i] + [s[i]];
    assert forall x :: x in s[..i + 1] <==> x in s[..i] || x == s[i];
  }

  lemma {:induction false} UnschedulableIsNatural(conditions: seq<PodCondition>, now: int)
    ensures UnschedulableFor(conditions, now).Some? ==> UnschedulableFor(conditions, now).value >= 0
  {
    if conditions == [] {
    } else {
      UnschedulableIsNatural(conditions[1..], now);
    }
  }

  method ScanStalePending(pods: seq<Pod>, now: int, threshold: int) returns (stalest: int, breaching: int)
    ensures stalest == Largest(PendingFor(now), pods) && breaching == Sum(Breaches(now, threshold), pods)
  {
    stalest, breaching := 0, 0;
    for i := 0 to |pods|
      invariant stalest == Largest(PendingFor(now), pods[..i]) && breaching == Sum(Breaches(now, threshold), pods[..i])
    {
      LargestPrefix(PendingFor(now), pods, i);
      LargestIs(PendingFor(now), pods[..i]);
      SumPrefix(Breaches(now, threshold), pods, i);
      var d := FindUnschedulable(pods[i].conditions, now);
      if d == None { continue; }
      if d.value > stalest {
        stalest := d.value;
      }
      if d.value > threshold {
        breaching := breaching + 1;
      }
    }
    assert pods[..|pods|] == pods;
  }

  // ---------- Demand ----------

  function OfGroup(name: string): Pod -> bool {
    (p: Pod) => GroupName(p) != "" && GroupName(p) == name
  }

  ghost predicate IndexedPods(m: map<string, seq<Pod>>, pods: seq<Pod>) {
    forall n :: (if n in m then m[n] else []) == Filter(OfGroup(n), pods)
  }

  method IndexPodsByGroupName(pods: seq<Pod>) returns (out: map<string, seq<Pod>>)
    ensures IndexedPods(out, pods)
  {
    out := map[];
    for i := 0 to |pods|
      invariant IndexedPods(out, pods[..i])
    {
      forall n { FilterPrefix(OfGroup(n), pods, i); }
      var name := GroupName(pods[i]);
      if name != "" {
        out := out[name := (if name in out then out[name] else []) + [pods[i]]];
      }
    }
    assert pods[..|pods|] == pods;
  }

  datatype DemandSource = FromSpec | FromPods | FromNone

  lemma {:induction false} GroupRequests(pods: seq<Pod>, name: string, r: string)
    ensures Sum(LiveRequest(name, r), pods) == Sum(LiveRequest(name, r), Filter(OfGroup(name), pods))
  {
    if pods == [] {
    } else {
      var rest := Filter(OfGroup(name), pods[1..]);
      GroupRequests(pods[1..], name, r);
      assert ([pods[0]] + rest)[1..] == rest;
    }
  }

  method IsZeroResources(rl: Resources) returns (zero: bool)
    ensures zero <==> forall r :: r in rl ==> rl[r] == 0
  {
    var todo := rl.Keys;
    while todo != {}
      invariant todo <= rl.Keys
      invariant forall r :: r in rl && r !in todo ==> rl[r] == 0
    {
      var name :| name in todo;
      if rl[name] != 0 {
        return false;
      }
      todo := todo - {name};
    }
    zero := true;
  }

  /** The contribution of one group, and where it comes from. */
  method PerPodGroupDemand(g: PodGroup, byGroup: map<string, seq<Pod>>, ghost pods: seq<Pod>)
    returns (contrib: Resources, used: DemandSource)
    requires IndexedPods(byGroup, pods)
    ensures used == FromSpec <==> Declares(g)
    ensures forall r :: Quantity(contrib, r) == GroupDemand(pods, r)(g)
    ensures used == FromNone ==> contrib == map[]
  {
    if g.minResources.Some? {
      var zero := IsZeroResources(g.minResources.value);
      if !zero {
        return g.minResources.value, FromSpec;
      }
    }
    var mine := if g.name in byGroup then byGroup[g.name] else [];
    forall r { GroupRequests(pods, g.name, r); }
    if mine == [] {
      return map[], FromNone;
    }
    forall p | p in mine ensures OfGroup(g.name)(p) { FilterMember(OfGroup(g.name), pods, p); }
    var sum, any := SumPodRequests(mine, g.name);
    if !any {
      return map[], FromNone;
    }
    contrib, used := sum, FromPods;
  }

  /** The inner loop over one pod's containers; false when none of them requests anything. */
  method AddPodRequests(total: ResourceTotal, p: Pod) returns (any: bool)
    modifies total
    ensures forall r :: Quantity(total.amounts, r)
                     == Quantity(old(total.amounts), r) + Sum(ContainerRequest(r), p.requests)
    ensures !any ==> total.amounts == old(total.amounts)
  {
    any := false;
    for c := 0 to |p.requests|
      invariant forall r :: Quantity(total.amounts, r)
                         == Quantity(old(total.amounts), r) + Sum(ContainerRequest(r), p.requests[..c])
      invariant !any ==> total.amounts == old(total.amounts)
    {
      forall r { SumPrefix(ContainerRequest(r), p.requests, c); }
      if |p.requests[c]| == 0 { continue; }
      any := true;
      total.AddResources(p.requests[c]);
    }
    assert p.requests[..|p.requests|] == p.requests;
  }

  method SumPodRequests(mine: seq<Pod>, name: string) returns (sum: Resources, any: bool)
    requires forall p :: p in mine ==> OfGroup(name)(p)
    ensures forall r :: Quantity(sum, r) == Sum(LiveRequest(name, r), mine)
    ensures !any ==> sum == map[]
  {
    var total := new ResourceTotal();
    any := false;
    for i := 0 to |mine|
      invariant forall r :: Quantity(total.amounts, r) == Sum(LiveRequest(name, r), mine[..i])
      invariant !any ==> total.amounts == map[]
    {
      forall r { SumPrefix(LiveRequest(name, r), mine, i); }
      var p := mine[i];
      assert p in mine && OfGroup(name)(p);
      assert forall r :: LiveRequest(name, r)(p) == if IsTerminal(p) then 0 else Sum(ContainerRequest(r), p.requests);
      hide LiveRequest, ContainerRequest, OfGroup, Quantity;
      if IsTerminal(p) { continue; }
      var some := AddPodRequests(total, p);
      any := any || some;
    }
    assert mine[..|mine|] == mine;
    sum := total.amounts;
  }

  /** The aggregated demand, and how many groups did not declare theirs. */
  method ComputeDemand(gs: seq<PodGroup>, pods: seq<Pod>) returns (demand: Resources, estimated: int)
    ensures forall r :: Quantity(demand, r) == Demand(gs, pods, r)
    ensures estimated == Sum(Undeclared(), gs)
  {
    var total := new ResourceTotal();
    estimated := 0;
    var byOwner := IndexPodsByGroupName(pods);
    for i := 0 to |gs|
      invariant forall r :: Quantity(total.amounts, r) == Demand(gs[..i], pods, r)
      invariant estimated == Sum(Undeclared(), gs[..i])
    {
      forall r { SumPrefix(GroupDemand(pods, r), gs, i); }
      SumPrefix(Undeclared(), gs, i);
      var contrib, used := PerPodGroupDemand(gs[i], byOwner, pods);
      match used {
        case FromSpec =>
          total.AddResources(contrib);
        case FromPods =>
          estimated := estimated + 1;
          total.AddResources(contrib);
        case FromNone =>
          estimated := estimated + 1;
      }
    }
    assert gs[..|gs|] == gs;
    demand := total.amounts;
  }

  // ---------- Build ----------

  /** The whole snapshot, or None for an unknown policy. */
  method BuildSnapshot(reg: PolicyRegistry, c: Cluster, policyName: string, now: int) returns (snap: Option<Snapshot>)
    ensures snap == Build(reg, c, policyName, now)
  {
    var found := PolicyByName(reg, policyName);
    if found == None {
      return None;
    }
    var p := found.value;
    var gs := ListPolicyPodGroups(c.podGroups, p.queueName);
    var pods := ListPolicyPods(c.pods, gs);
    var dedicated, overflow := SplitNodesByGroup(c.nodes, reg.defaults.nodeGroupLabelKey, p);
    var demand, estimated := ComputeDemand(gs, pods);
    var overflowNames := NodeNameSet(overflow);
    var overflowPods := CountPodsOnNodes(pods, overflowNames);
    var stalest, breaching := ScanStalePending(pods, now, p.thresholds.timePendingMax);
    var names := PodNameSet(pods);
    var exhausted := AutoscalerExhausted(c.events, names);
    var capacity := SumAllocatable(dedicated);
    var seen := Observation(
      Quantity(demand, "cpu"), Quantity(demand, "memory"), estimated,
      Quantity(capacity, "cpu"), Quantity(capacity, "memory"),
      overflowPods, exhausted, stalest, breaching);
    assert seen == Observe(c, reg.defaults.nodeGroupLabelKey, p, now);
    snap := Some(SnapshotOf(p, now, FindQueue(c.queues, p.queueName), seen));
  }
}

/** Policies and their indexes (pkg/config/registry.go), validation (validation.go), construction from
    decoded configuration (config.go) and hot reload (pkg/watcher/configmap_watch.go). */
module Registry {
  import opened Prelude
  import opened Api
  import opened StateMachine

  datatype Defaults = Defaults(nodeGroupLabelKey: string, action: string, resyncPeriod: int, thresholds: Thresholds)

  datatype PolicyRegistry = PolicyRegistry(
    defaults: Defaults,
    policies: seq<SpillPolicy>,
    byName: map<string, SpillPolicy>,
    byQueue: map<string, SpillPolicy>,
    byNodeGroup: map<string, seq<string>>)

  // ---------- Indexes ----------

  function NamesFor(m: map<string, seq<string>>, v: string): seq<string> {
    if v in m then m[v] else []
  }

  ghost predicate Distinct(s: seq<string>) {
    forall i, j :: 0 <= i < j < |s| ==> s[i] != s[j]
  }

  predicate References(p: SpillPolicy, v: string) {
    v != "" && (p.dedicated == v || p.overflow == v)
  }

  /** The names of the policies that use node group `v`, in order. */
  function NamesReferencing(ps: seq<SpillPolicy>, v: string): seq<string> {
    if ps == [] then []
    else NamesReferencing(ps[..|ps| - 1], v) + if References(ps[|ps| - 1], v) then [ps[|ps| - 1].name] else []
  }

  // The two keys of a policy.

  function NameOf(p: SpillPolicy): string {
    p.name
  }

  function QueueOf(p: SpillPolicy): string {
    p.queueName
  }

  ghost predicate IsLast(key: SpillPolicy -> string, ps: seq<SpillPolicy>, i: int, n: string) {
    0 <= i < |ps| && key(ps[i]) == n && forall j :: i < j < |ps| ==> key(ps[j]) != n
  }

  /** Every key that is not empty maps to the last entry that has it. */
  ghost predicate IndexedBy(key: SpillPolicy -> string, m: map<string, SpillPolicy>, ps: seq<SpillPolicy>) {
    && (forall n :: n in m ==> n != "" && exists i :: IsLast(key, ps, i, n) && m[n] == ps[i])
    && (forall i :: 0 <= i < |ps| && key(ps[i]) != "" ==> key(ps[i]) in m)
  }

  ghost predicate IndexedByGroup(m: map<string, seq<string>>, ps: seq<SpillPolicy>) {
    forall v :: NamesFor(m, v) == NamesReferencing(ps, v)
  }

  ghost predicate Indexed(r: PolicyRegistry) {
    && IndexedBy(NameOf, r.byName, r.policies)
    && IndexedBy(QueueOf, r.byQueue, r.policies)
    && IndexedByGroup(r.byNodeGroup, r.policies)
  }

  lemma NamesReferencingPrefix(ps: seq<SpillPolicy>, i: nat, v: string)
    requires i < |ps|
    ensures NamesReferencing(ps[..i + 1], v)
         == NamesReferencing(ps[..i], v) + if References(ps[i], v) then [ps[i].name] else []
  {
    assert ps[..i + 1][..i] == ps[..i];
  }

  lemma IndexGrows(key: SpillPolicy -> string, m: map<string, SpillPolicy>, ps: seq<SpillPolicy>, i: nat)
    requires i < |ps| && IndexedBy(key, m, ps[..i])
    ensures IndexedBy(key, if key(ps[i]) != "" then m[key(ps[i]) := ps[i]] else m, ps[..i + 1])
  {
    var m' := if key(ps[i]) != "" then m[key(ps[i]) := ps[i]] else m;
    var qs := ps[..i + 1];
    forall n | n in m' ensures n != "" && exists k :: IsLast(key, qs, k, n) && m'[n] == qs[k] {
      if n == key(ps[i]) {
        assert IsLast(key, qs, i, n);
      } else {
        var k :| IsLast(key, ps[..i], k, n) && m[n] == ps[..i][k];
        assert IsLast(key, qs, k, n);
      }
    }
    forall k | 0 <= k < |qs| && key(qs[k]) != "" ensures key(qs[k]) in m' {
      if k < i { assert key(ps[..i][k]) in m; }
    }
  }

  function AddName(m: map<string, seq<string>>, v: string, n: string): map<string, seq<string>> {
    m[v := NamesFor(m, v) + [n]]
  }

  /** The index with the groups of one more policy. */
  function AddGroups(m: map<string, seq<string>>, p: SpillPolicy): map<string, seq<string>> {
    var m1 := if p.dedicated != "" then AddName(m, p.dedicated, p.name) else m;
    if p.overflow != "" && p.overflow != p.dedicated then AddName(m1, p.overflow, p.name) else m1
  }

  lemma GroupsAdded(m: map<string, seq<string>>, p: SpillPolicy, v: string)
    ensures NamesFor(AddGroups(m, p), v) == NamesFor(m, v) + if References(p, v) then [p.name] else []
  {
  }

  lemma GroupIndexGrows(m: map<string, seq<string>>, ps: seq<SpillPolicy>, i: nat)
    requires i < |ps| && IndexedByGroup(m, ps[..i])
    ensures IndexedByGroup(AddGroups(m, ps[i]), ps[..i + 1])
  {
    hide AddGroups, NamesReferencing, References, NamesFor;
    forall v ensures NamesFor(AddGroups(m, ps[i]), v) == NamesReferencing(ps[..i + 1], v) {
      NamesReferencingPrefix(ps, i, v);
      GroupsAdded(m, ps[i], v);
      assert NamesFor(m, v) == NamesReferencing(ps[..i], v);
    }
  }

  method NewPolicyRegistry(defaults: Defaults, policies: seq<SpillPolicy>) returns (r: PolicyRegistry)
    ensures r.defaults == defaults && r.policies == policies && Indexed(r)
  {
    var byName: map<string, SpillPolicy>, byQueue: map<string, SpillPolicy> := map[], map[];
    var byNodeGroup: map<string, seq<string>> := map[];
    for i := 0 to |policies|
      invariant IndexedBy(NameOf, byName, policies[..i])
      invariant IndexedBy(QueueOf, byQueue, policies[..i])
      invariant IndexedByGroup(byNodeGroup, policies[..i])
    {
      hide IndexedBy, IndexedByGroup, NamesFor;
      var p := policies[i];
      IndexGrows(NameOf, byName, policies, i);
      IndexGrows(QueueOf, byQueue, policies, i);
      GroupIndexGrows(byNodeGroup, policies, i);
      if p.name != "" {
        byName := byName[p.name := p];
      }
      if p.queueName != "" {
        byQueue := byQueue[p.queueName := p];
      }
      if p.dedicated != "" {
        byNodeGroup := byNodeGroup[p.dedicated := NamesFor(byNodeGroup, p.dedicated) + [p.name]];
      }
      if p.overflow != "" && p.overflow != p.dedicated {
        byNodeGroup := byNodeGroup[p.overflow := NamesFor(byNodeGroup, p.overflow) + [p.name]];
      }
    }
    assert policies[..|policies|] == policies;
    r := PolicyRegistry(defaults, policies, byName, byQueue, byNodeGroup);
  }

  function PolicyByName(r: PolicyRegistry, name: string): Option<SpillPolicy> {
    if name in r.byName then Some(r.byName[name]) else None
  }

  function PolicyByQueue(r: PolicyRegistry, queue: string): Option<SpillPolicy> {
    if queue in r.byQueue then Some(r.byQueue[queue]) else None
  }

  function PoliciesForNodeGroup(r: PolicyRegistry, v: string): seq<string> {
    NamesFor(r.byNodeGroup, v)
  }

  // ---------- Validation ----------

  /** What can be wrong with a block of the configuration. */
  datatype Flaw =
    | NoName | NoQueueName | NoDedicated | NoOverflow | SameGroups
    | NoLabelKey | UnknownAction | BadResyncPeriod
    | BadTimeOn | BadTimeOff | BadTimePendingMax

  predicate ThresholdsHave(t: Thresholds, f: Flaw) {
    match f
    case BadTimeOn => t.timeOn <= 0
    case BadTimeOff => t.timeOff <= 0
    case BadTimePendingMax => t.timePendingMax <= 0
    case _ => false
  }

  predicate PolicyHas(p: SpillPolicy, f: Flaw) {
    match f
    case NoName => p.name == ""
    case NoQueueName => p.queueName == ""
    case NoDedicated => p.dedicated == ""
    case NoOverflow => p.overflow == ""
    case SameGroups => p.dedicated == p.overflow != ""
    case _ => ThresholdsHave(p.thresholds, f)
  }

  predicate DefaultsHave(d: Defaults, f: Flaw) {
    match f
    case NoLabelKey => d.nodeGroupLabelKey == ""
    case UnknownAction => d.action != "Nope" && d.action != "Patch"
    case BadResyncPeriod => d.resyncPeriod <= 0
    case _ => ThresholdsHave(d.thresholds, f)
  }

  predicate ValidThresholds(t: Thresholds) {
    t.timeOn > 0 && t.timeOff > 0 && t.timePendingMax > 0
  }

  predicate ValidPolicy(p: SpillPolicy) {
    && p.name != "" && p.queueName != "" && p.dedicated != "" && p.overflow != ""
    && p.dedicated != p.overflow
    && ValidThresholds(p.thresholds)
  }

  predicate ValidDefaults(d: Defaults) {
    && d.nodeGroupLabelKey != ""
    && (d.action == "Nope" || d.action == "Patch")
    && d.resyncPeriod > 0
    && ValidThresholds(d.thresholds)
  }

  /** The meaning of acceptance. */
  ghost predicate ValidRegistry(d: Defaults, ps: seq<SpillPolicy>) {
    && ValidDefaults(d)
    && (forall i :: 0 <= i < |ps| ==> ValidPolicy(ps[i]))
    && (forall i, j :: 0 <= i < j < |ps| ==> ps[i].name != ps[j].name && ps[i].queueName != ps[j].queueName)
  }

  datatype ConfigError =
    | BadDefaults(flaw: Flaw)
    | BadPolicy(index: int, flaw: Flaw)
    | DuplicateName(index: int, prior: int)
    | DuplicateQueue(index: int, prior: int)

  ghost predicate IsFirst(key: SpillPolicy -> string, ps: seq<SpillPolicy>, i: int, n: string) {
    0 <= i < |ps| && key(ps[i]) == n && forall j :: 0 <= j < i ==> key(ps[j]) != n
  }

  /** Entry `i` repeats a key that entry `k` was the first to have. */
  ghost predicate Repeats(key: SpillPolicy -> string, ps: seq<SpillPolicy>, i: int, k: int) {
    0 <= k < i < |ps| && key(ps[i]) != "" && IsFirst(key, ps, k, key(ps[i]))
  }

  /** The complete set of defects: every flaw of the defaults and of every policy, and every repeated
      name or queue with the entry that had it first. */
  ghost predicate IsDefect(e: ConfigError, d: Defaults, ps: seq<SpillPolicy>) {
    match e
    case BadDefaults(f) => DefaultsHave(d, f)
    case BadPolicy(i, f) => 0 <= i < |ps| && PolicyHas(ps[i], f)
    case DuplicateName(i, k) => Repeats(NameOf, ps, i, k)
    case DuplicateQueue(i, k) => Repeats(QueueOf, ps, i, k)
  }

  /** The keys of the first `i` entries, each with the entry that has it first. */
  ghost predicate Seen(key: SpillPolicy -> string, seen: map<string, int>, ps: seq<SpillPolicy>, i: nat)
    requires i <= |ps|
  {
    && (forall n :: n in seen ==> n != "" && 0 <= seen[n] < i && IsFirst(key, ps, seen[n], n))
    && (forall k :: 0 <= k < i && key(ps[k]) != "" ==> key(ps[k]) in seen)
  }

  lemma SeenGrows(key: SpillPolicy -> string, seen: map<string, int>, ps: seq<SpillPolicy>, i: nat)
    requires i < |ps| && Seen(key, seen, ps, i)
    ensures var n := key(ps[i]); Seen(key, if n != "" && n !in seen then seen[n := i] else seen, ps, i + 1)
  {
  }

  /** Which flaw is which. */
  lemma PolicyFlawsAre(p: SpillPolicy, f: Flaw)
    ensures PolicyHas(p, f) <==>
              || (f == NoName && p.name == "") || (f == NoQueueName && p.queueName == "")
              || (f == NoDedicated && p.dedicated == "") || (f == NoOverflow && p.overflow == "")
              || (f == SameGroups && p.dedicated == p.overflow && p.dedicated != "")
              || (f == BadTimeOn && p.thresholds.timeOn <= 0) || (f == BadTimeOff && p.thresholds.timeOff <= 0)
              || (f == BadTimePendingMax && p.thresholds.timePendingMax <= 0)
  {
  }

  lemma DefaultsFlawsAre(d: Defaults, f: Flaw)
    ensures DefaultsHave(d, f) <==>
              || (f == NoLabelKey && d.nodeGroupLabelKey == "")
              || (f == UnknownAction && d.action != "Nope" && d.action != "Patch")
              || (f == BadResyncPeriod && d.resyncPeriod <= 0)
              || (f == BadTimeOn && d.thresholds.timeOn <= 0) || (f == BadTimeOff && d.thresholds.timeOff <= 0)
              || (f == BadTimePendingMax && d.thresholds.timePendingMax <= 0)
  {
  }

  method ValidateThresholds(t: Thresholds) returns (flaws: seq<Flaw>)
    ensures forall f :: f in flaws <==> ThresholdsHave(t, f)
  {
    flaws := [];
    if t.timeOn <= 0 { flaws := flaws + [BadTimeOn]; }
    if t.timeOff <= 0 { flaws := flaws + [BadTimeOff]; }
    if t.timePendingMax <= 0 { flaws := flaws + [BadTimePendingMax]; }
  }

  method ValidatePolicy(p: SpillPolicy) returns (flaws: seq<Flaw>)
    ensures forall f :: f in flaws <==> PolicyHas(p, f)
  {
    flaws := [];
    if p.name == "" { flaws := flaws + [NoName]; }
    if p.queueName == "" { flaws := flaws + [NoQueueName]; }
    if p.dedicated == "" { flaws := flaws + [NoDedicated]; }
    if p.overflow == "" { flaws := flaws + [NoOverflow]; }
    if p.dedicated != "" && p.dedicated == p.overflow { flaws := flaws + [SameGroups]; }
    var more := ValidateThresholds(p.thresholds);
    flaws := flaws + more;
  }

  method ValidateDefaults(d: Defaults) returns (flaws: seq<Flaw>)
    ensures forall f :: f in flaws <==> DefaultsHave(d, f)
  {
    flaws := [];
    if d.nodeGroupLabelKey == "" { flaws := flaws + [NoLabelKey]; }
    if d.action != "Nope" && d.action != "Patch" { flaws := flaws + [UnknownAction]; }
    if d.resyncPeriod <= 0 { flaws := flaws + [BadResyncPeriod]; }
    var more := ValidateThresholds(d.thresholds);
    flaws := flaws + more;
  }

  /** The defects of the defaults and of entries before `i`. */
  ghost predicate DefectsBefore(errs: seq<ConfigError>, d: Defaults, ps: seq<SpillPolicy>, i: nat) {
    forall e :: e in errs <==> IsDefect(e, d, ps) && (e.BadDefaults? || e.index < i)
  }

  function OfDefaults(flaws: seq<Flaw>): seq<ConfigError> {
    seq(|flaws|, k requires 0 <= k < |flaws| => BadDefaults(flaws[k]))
  }

  function OfPolicy(i: int, flaws: seq<Flaw>): seq<ConfigError> {
    seq(|flaws|, k requires 0 <= k < |flaws| => BadPolicy(i, flaws[k]))
  }

  lemma OfDefaultsHas(flaws: seq<Flaw>)
    ensures forall e :: e in OfDefaults(flaws) <==> e.BadDefaults? && e.flaw in flaws
  {
    forall f | f in flaws ensures BadDefaults(f) in OfDefaults(flaws) {
      var k :| 0 <= k < |flaws| && flaws[k] == f;
      assert OfDefaults(flaws)[k] == BadDefaults(f);
    }
  }

  lemma OfPolicyHas(i: int, flaws: seq<Flaw>)
    ensures forall e :: e in OfPolicy(i, flaws) <==> e.BadPolicy? && e.index == i && e.flaw in flaws
  {
    forall f | f in flaws ensures BadPolicy(i, f) in OfPolicy(i, flaws) {
      var k :| 0 <= k < |flaws| && flaws[k] == f;
      assert OfPolicy(i, flaws)[k] == BadPolicy(i, f);
    }
  }

  /** The repetitions that entry `i` adds. */
  function RepeatErrors(p: SpillPolicy, i: int, seenName: map<string, int>, seenQueue: map<string, int>)
    : seq<ConfigError>
  {
    (if p.name != "" && p.name in seenName then [DuplicateName(i, seenName[p.name])] else [])
    + (if p.queueName != "" && p.queueName in seenQueue then [DuplicateQueue(i, seenQueue[p.queueName])] else [])
  }

  /** Reports every defect, and nothing else. */
  method ValidateRegistry(r: PolicyRegistry) returns (errs: seq<ConfigError>)
    ensures forall e :: e in errs <==> IsDefect(e, r.defaults, r.policies)
    ensures errs == [] <==> ValidRegistry(r.defaults, r.policies)
  {
    var ps := r.policies;
    var flaws := ValidateDefaults(r.defaults);
    OfDefaultsHas(flaws);
    errs := OfDefaults(flaws);
    var seenName: map<string, int>, seenQueue: map<string, int> := map[], map[];
    for i := 0 to |ps|
      invariant Seen(NameOf, seenName, ps, i)
      invariant Seen(QueueOf, seenQueue, ps, i)
      invariant DefectsBefore(errs, r.defaults, ps, i)
    {
      var p := ps[i];
      ghost var before, names, queues := errs, seenName, seenQueue;
      flaws := ValidatePolicy(p);
      errs := errs + OfPolicy(i, flaws);
      if p.name != "" {
        if p.name in seenName {
          errs := errs + [DuplicateName(i, seenName[p.name])];
        } else {
          seenName := seenName[p.name := i];
        }
      }
      if p.queueName != "" {
        if p.queueName in seenQueue {
          errs := errs + [DuplicateQueue(i, seenQueue[p.queueName])];
        } else {
          seenQueue := seenQueue[p.queueName := i];
        }
      }
      assert errs == before + OfPolicy(i, flaws) + RepeatErrors(p, i, names, queues);
      DefectsGrow(before, r.defaults, ps, i, flaws, names, queues);
      SeenGrows(NameOf, names, ps, i);
      SeenGrows(QueueOf, queues, ps, i);
    }
    AllDefects(errs, r.defaults, ps);
  }

  lemma FirstIsUnique(key: SpillPolicy -> string, ps: seq<SpillPolicy>, i: int, j: int, n: string)
    requires IsFirst(key, ps, i, n) && IsFirst(key, ps, j, n)
    ensures i == j
  {
  }

  lemma RepeatIsSeen(key: SpillPolicy -> string, seen: map<string, int>, ps: seq<SpillPolicy>, i: nat)
    requires i < |ps| && Seen(key, seen, ps, i)
    ensures var n := key(ps[i]); forall k :: Repeats(key, ps, i, k) <==> n != "" && n in seen && seen[n] == k
  {
    var n := key(ps[i]);
    forall k ensures Repeats(key, ps, i, k) <==> n != "" && n in seen && seen[n] == k {
      if Repeats(key, ps, i, k) {
        assert n in seen;
        FirstIsUnique(key, ps, k, seen[n], n);
      }
    }
  }

  lemma DefectsGrow(
      errs: seq<ConfigError>, d: Defaults, ps: seq<SpillPolicy>, i: nat,
      flaws: seq<Flaw>, seenName: map<string, int>, seenQueue: map<string, int>)
    requires i < |ps| && Seen(NameOf, seenName, ps, i) && Seen(QueueOf, seenQueue, ps, i)
    requires DefectsBefore(errs, d, ps, i) && forall f :: f in flaws <==> PolicyHas(ps[i], f)
    ensures DefectsBefore(errs + OfPolicy(i, flaws) + RepeatErrors(ps[i], i, seenName, seenQueue), d, ps, i + 1)
  {
    hide Seen, Repeats, OfPolicy;
    OfPolicyHas(i, flaws);
    var repeats := RepeatErrors(ps[i], i, seenName, seenQueue);
    RepeatIsSeen(NameOf, seenName, ps, i); RepeatIsSeen(QueueOf, seenQueue, ps, i);
    forall e
      ensures e in errs + OfPolicy(i, flaws) + repeats <==> IsDefect(e, d, ps) && (e.BadDefaults? || e.index < i + 1)
    {
      assert e in repeats <==> (e.DuplicateName? || e.DuplicateQueue?) && e.index == i && IsDefect(e, d, ps);
    }
  }

  lemma AllDefects(errs: seq<ConfigError>, d: Defaults, ps: seq<SpillPolicy>)
    requires DefectsBefore(errs, d, ps, |ps|)
    ensures forall e :: e in errs <==> IsDefect(e, d, ps)
    ensures errs == [] <==> ValidRegistry(d, ps)
  {
    if errs != [] {
      assert errs[0] in errs;
      DefectIsInvalid(errs[0], d, ps);
    } else if !ValidRegistry(d, ps) {
      var e := InvalidHasDefect(d, ps);
    }
  }

  lemma DefectIsInvalid(e: ConfigError, d: Defaults, ps: seq<SpillPolicy>)
    requires IsDefect(e, d, ps)
    ensures !ValidRegistry(d, ps)
  {
  }

  lemma InvalidHasFlaw(p: SpillPolicy) returns (f: Flaw)
    requires !ValidPolicy(p)
    ensures PolicyHas(p, f)
  {
    f :| f in [NoName, NoQueueName, NoDedicated, NoOverflow, SameGroups, BadTimeOn, BadTimeOff, BadTimePendingMax]
      && PolicyHas(p, f);
  }

  lemma InvalidDefaultsHaveFlaw(d: Defaults) returns (f: Flaw)
    requires !ValidDefaults(d)
    ensures DefaultsHave(d, f)
  {
    f :| f in [NoLabelKey, UnknownAction, BadResyncPeriod, BadTimeOn, BadTimeOff, BadTimePendingMax]
      && DefaultsHave(d, f);
  }

  lemma InvalidHasDefect(d: Defaults, ps: seq<SpillPolicy>) returns (e: ConfigError)
    requires !ValidRegistry(d, ps)
    ensures IsDefect(e, d, ps)
  {
    if !ValidDefaults(d) {
      var f := InvalidDefaultsHaveFlaw(d);
      e := BadDefaults(f);
    } else if i :| 0 <= i < |ps| && !ValidPolicy(ps[i]) {
      var f := InvalidHasFlaw(ps[i]);
      e := BadPolicy(i, f);
    } else {
      var i, j :| 0 <= i < j < |ps| && (ps[i].name == ps[j].name || ps[i].queueName == ps[j].queueName);
      assert ValidPolicy(ps[j]);
      if ps[i].name == ps[j].name {
        var k := FirstWith(NameOf, ps, i);
        e := DuplicateName(j, k);
      } else {
        var k := FirstWith(QueueOf, ps, i);
        e := DuplicateQueue(j, k);
      }
    }
  }

  lemma {:induction false} FirstWith(key: SpillPolicy -> string, ps: seq<SpillPolicy>, i: nat) returns (k: nat)
    requires i < |ps|
    ensures k <= i && IsFirst(key, ps, k, key(ps[i]))
  {
    if j: nat :| j < i && key(ps[j]) == key(ps[i]) { k := FirstWith(key, ps, j); } else { k := i; }
  }

  ghost predicate Accepted(r: PolicyRegistry) {
    Indexed(r) && ValidRegistry(r.defaults, r.policies)
  }

  // ---------- The indexes agree with the list ----------

  lemma IndexExact(
      key: SpillPolicy -> string, m: map<string, SpillPolicy>, ps: seq<SpillPolicy>, p: SpillPolicy, n: string)
    requires IndexedBy(key, m, ps) && forall i :: 0 <= i < |ps| ==> key(ps[i]) != ""
    requires forall i, j :: 0 <= i < j < |ps| ==> key(ps[i]) != key(ps[j])
    ensures n in m && m[n] == p <==> p in ps && key(p) == n
  {
    if p in ps {
      var i :| 0 <= i < |ps| && ps[i] == p;
      var k :| IsLast(key, ps, k, key(p)) && m[key(p)] == ps[k];
      assert i == k;
    }
  }

  /** Lookups by name and by queue return the one matching list element, or nothing if there is none. */
  lemma IndexAgreesWithList(r: PolicyRegistry, p: SpillPolicy, n: string)
    requires Accepted(r)
    ensures PolicyByName(r, n) == Some(p) <==> p in r.policies && p.name == n
    ensures PolicyByQueue(r, n) == Some(p) <==> p in r.policies && p.queueName == n
  {
    hide IndexedBy, IndexedByGroup;
    assert forall i :: 0 <= i < |r.policies| ==> ValidPolicy(r.policies[i]);
    IndexExact(NameOf, r.byName, r.policies, p, n);
    IndexExact(QueueOf, r.byQueue, r.policies, p, n);
  }

  /** The names for a node group are those of the policies that use it, each once. */
  lemma {:induction false} GroupNamesAreExact(ps: seq<SpillPolicy>, v: string)
    requires forall i, j :: 0 <= i < j < |ps| ==> ps[i].name != ps[j].name
    ensures forall n :: n in NamesReferencing(ps, v)
                   <==> exists p :: p in ps && p.name == n && v != "" && (p.dedicated == v || p.overflow == v)
    ensures Distinct(NamesReferencing(ps, v))
  {
    if ps == [] {
    } else {
      var init, last := ps[..|ps| - 1], ps[|ps| - 1];
      assert ps == init + [last];
      GroupNamesAreExact(init, v);
      assert forall p :: p in ps <==> p in init || p == last;
      assert last.name !in NamesReferencing(init, v) by {
        assert forall p :: p in init ==> p.name != last.name;
      }
    }
  }

  /** The YAML order is kept: the list is the names of the policies that pass the filter. */
  lemma {:induction false} GroupNamesInOrder(ps: seq<SpillPolicy>, v: string)
    ensures NamesReferencing(ps, v) == Names(Filter((p: SpillPolicy) => References(p, v), ps))
  {
    if ps == [] {
    } else {
      var init, last := ps[..|ps| - 1], ps[|ps| - 1];
      assert ps == init + [last];
      GroupNamesInOrder(init, v);
      FilterLast((p: SpillPolicy) => References(p, v), init, last);
      var kept := Filter((p: SpillPolicy) => References(p, v), init);
      assert References(last, v) ==> Names(kept + [last]) == Names(kept) + [last.name];
      assert !References(last, v) ==> kept + [] == kept;
    }
  }

  function Names(ps: seq<SpillPolicy>): seq<string> {
    seq(|ps|, i requires 0 <= i < |ps| => ps[i].name)
  }

  lemma NamesIdentify(ps: seq<SpillPolicy>, p: SpillPolicy)
    requires p in ps && forall i, j :: 0 <= i < j < |ps| ==> ps[i].name != ps[j].name
    ensures forall q :: q in ps && q.name == p.name ==> q == p
  {
  }

  lemma NodeGroupIndexAgrees(r: PolicyRegistry, p: SpillPolicy, v: string)
    requires Accepted(r) && p in r.policies
    ensures p.name in PoliciesForNodeGroup(r, v) <==> v != "" && (p.dedicated == v || p.overflow == v)
  {
    GroupNamesAreExact(r.policies, v);
    assert PoliciesForNodeGroup(r, v) == NamesReferencing(r.policies, v);
    NamesIdentify(r.policies, p);
  }

  // ---------- Configuration ----------

  datatype RawThresholds = RawThresholds(
    timeOn: Option<int>, timeOff: Option<int>, timePendingMax: Option<int>, hysteresis: Option<real>)

  datatype RawPolicy = RawPolicy(
    name: string, queueName: string, dedicated: string, overflow: string, thresholds: Option<RawThresholds>)

  datatype RawConfig = RawConfig(defaults: Defaults, policies: seq<RawPolicy>)

  function ClampUnit(x: real): (r: real)
    ensures (x < 0.0 ==> r == 0.0) && (0.0 <= x <= 1.0 ==> r == x) && (x > 1.0 ==> r == 1.0)
  {
    if x < 0.0 then 0.0 else if x > 1.0 then 1.0 else x
  }

  function BuildDefaults(raw: Defaults): Defaults {
    raw.(thresholds := raw.thresholds.(hysteresis := ClampUnit(raw.thresholds.hysteresis)))
  }

  function OrElse<T>(o: Option<T>, base: T): T {
    if o.Some? then o.value else base
  }

  function ThresholdsFromRaw(raw: Option<RawThresholds>, base: Thresholds): Thresholds {
    match raw
    case None => base
    case Some(t) => Thresholds(
      OrElse(t.timeOn, base.timeOn), OrElse(t.timeOff, base.timeOff), OrElse(t.timePendingMax, base.timePendingMax),
      if t.hysteresis.Some? then ClampUnit(t.hysteresis.value) else base.hysteresis)
  }

  function BuildPolicy(raw: RawPolicy, d: Defaults): SpillPolicy {
    SpillPolicy(raw.name, raw.queueName, raw.dedicated, raw.overflow, ThresholdsFromRaw(raw.thresholds, d.thresholds))
  }

  /** A value that the entry sets, or else the default. */
  ghost predicate SetOr<T>(value: T, entry: Option<T>, base: T) {
    (entry.Some? ==> value == entry.value) && (entry == None ==> value == base)
  }

  /** What the policy of an entry holds: its names, and of each threshold its own value where it sets one
      and the default otherwise; hysteresis is cut to the unit interval. */
  ghost predicate BuiltFrom(p: SpillPolicy, raw: RawPolicy, d: Defaults) {
    && p.name == raw.name && p.queueName == raw.queueName
    && p.dedicated == raw.dedicated && p.overflow == raw.overflow
    && (raw.thresholds == None ==> p.thresholds == d.thresholds)
    && (raw.thresholds.Some? ==>
          var t := raw.thresholds.value;
          && SetOr(p.thresholds.timeOn, t.timeOn, d.thresholds.timeOn)
          && SetOr(p.thresholds.timeOff, t.timeOff, d.thresholds.timeOff)
          && SetOr(p.thresholds.timePendingMax, t.timePendingMax, d.thresholds.timePendingMax)
          && (t.hysteresis == None ==> p.thresholds.hysteresis == d.thresholds.hysteresis)
          && (t.hysteresis.Some? ==> CutToUnit(p.thresholds.hysteresis, t.hysteresis.value)))
  }

  /** `r` is the point of the unit interval next to `x`. */
  predicate CutToUnit(r: real, x: real) {
    (x < 0.0 ==> r == 0.0) && (0.0 <= x <= 1.0 ==> r == x) && (x > 1.0 ==> r == 1.0)
  }

  /** The defaults are taken over, with the hysteresis cut. */
  ghost predicate DefaultsFrom(d: Defaults, raw: Defaults) {
    && d.nodeGroupLabelKey == raw.nodeGroupLabelKey && d.action == raw.action && d.resyncPeriod == raw.resyncPeriod
    && d.thresholds.timeOn == raw.thresholds.timeOn && d.thresholds.timeOff == raw.thresholds.timeOff
    && d.thresholds.timePendingMax == raw.thresholds.timePendingMax
    && CutToUnit(d.thresholds.hysteresis, raw.thresholds.hysteresis)
  }

  lemma BuildPolicyIs(raw: RawPolicy, d: Defaults)
    ensures BuiltFrom(BuildPolicy(raw, d), raw, d)
  {
  }

  /** An entry and defaults determine the policy. */
  lemma BuiltFromDetermines(p: SpillPolicy, raw: RawPolicy, d: Defaults)
    requires BuiltFrom(p, raw, d)
    ensures p == BuildPolicy(raw, d)
  {
    BuildPolicyIs(raw, d);
  }

  /** One policy per entry, in order. */
  function BuiltPolicies(raws: seq<RawPolicy>, d: Defaults): seq<SpillPolicy> {
    seq(|raws|, i requires 0 <= i < |raws| => BuildPolicy(raws[i], d))
  }

  method BuildPolicies(raws: seq<RawPolicy>, d: Defaults) returns (out: seq<SpillPolicy>)
    ensures out == BuiltPolicies(raws, d)
    ensures |out| == |raws| && forall i :: 0 <= i < |raws| ==> BuiltFrom(out[i], raws[i], d)
  {
    forall i | 0 <= i < |raws| { BuildPolicyIs(raws[i], d); }
    out := [];
    for i := 0 to |raws|
      invariant |out| == i && forall k :: 0 <= k < i ==> out[k] == BuildPolicy(raws[k], d)
    {
      out := out + [BuildPolicy(raws[i], d)];
    }
  }

  /** What a registry made from `raw` holds. */
  ghost predicate MadeFrom(r: PolicyRegistry, raw: RawConfig) {
    && DefaultsFrom(r.defaults, raw.defaults)
    && |r.policies| == |raw.policies|
    && forall i :: 0 <= i < |raw.policies| ==> BuiltFrom(r.policies[i], raw.policies[i], r.defaults)
  }

  /** It is determined by the configuration. */
  lemma MadeIsBuilt(r: PolicyRegistry, raw: RawConfig)
    requires MadeFrom(r, raw)
    ensures r.defaults == BuildDefaults(raw.defaults) && r.policies == BuiltPolicies(raw.policies, r.defaults)
  {
    forall i | 0 <= i < |raw.policies| ensures r.policies[i] == BuildPolicy(raw.policies[i], r.defaults) {
      BuiltFromDetermines(r.policies[i], raw.policies[i], r.defaults);
    }
  }

  ghost predicate ValidConfig(raw: RawConfig) {
    var d := BuildDefaults(raw.defaults);
    ValidRegistry(d, BuiltPolicies(raw.policies, d))
  }

  /** The value that is in force for an entry: its own if it has one. */
  function InForce(t: Option<RawThresholds>, own: RawThresholds -> Option<int>, base: int): int {
    if t.Some? && own(t.value).Some? then own(t.value).value else base
  }

  /** Validity in terms of the configuration's own fields. */
  lemma ValidConfigIff(raw: RawConfig)
    ensures ValidConfig(raw) <==>
              && raw.defaults.nodeGroupLabelKey != ""
              && (raw.defaults.action == "Nope" || raw.defaults.action == "Patch") && raw.defaults.resyncPeriod > 0
              && raw.defaults.thresholds.timeOn > 0 && raw.defaults.thresholds.timeOff > 0
              && raw.defaults.thresholds.timePendingMax > 0
              && (forall i :: 0 <= i < |raw.policies| ==>
                    var e, d := raw.policies[i], raw.defaults.thresholds;
                    && e.name != "" && e.queueName != "" && e.dedicated != "" && e.overflow != ""
                    && e.dedicated != e.overflow
                    && InForce(e.thresholds, (t: RawThresholds) => t.timeOn, d.timeOn) > 0
                    && InForce(e.thresholds, (t: RawThresholds) => t.timeOff, d.timeOff) > 0
                    && InForce(e.thresholds, (t: RawThresholds) => t.timePendingMax, d.timePendingMax) > 0)
              && (forall i, j :: 0 <= i < j < |raw.policies| ==>
                    raw.policies[i].name != raw.policies[j].name
                    && raw.policies[i].queueName != raw.policies[j].queueName)
  {
    var d := BuildDefaults(raw.defaults);
    var ps := BuiltPolicies(raw.policies, d);
    forall i | 0 <= i < |raw.policies|
      ensures var e, t := raw.policies[i], raw.defaults.thresholds;
              ValidPolicy(ps[i]) <==>
                && e.name != "" && e.queueName != "" && e.dedicated != "" && e.overflow != ""
                && e.dedicated != e.overflow
                && InForce(e.thresholds, (t: RawThresholds) => t.timeOn, t.timeOn) > 0
                && InForce(e.thresholds, (t: RawThresholds) => t.timeOff, t.timeOff) > 0
                && InForce(e.thresholds, (t: RawThresholds) => t.timePendingMax, t.timePendingMax) > 0
    {
    }
    assert forall i :: 0 <= i < |ps| ==>
      ps[i].name == raw.policies[i].name && ps[i].queueName == raw.policies[i].queueName;
  }

  /** Some registry exactly when the configuration is valid. */
  method Finalize(raw: RawConfig) returns (result: Option<PolicyRegistry>)
    ensures result.Some? <==> ValidConfig(raw)
    ensures result.Some? ==> MadeFrom(result.value, raw) && Accepted(result.value)
  {
    var defaults := BuildDefaults(raw.defaults);
    var policies := BuildPolicies(raw.policies, defaults);
    var r := NewPolicyRegistry(defaults, policies);
    var errs := ValidateRegistry(r);
    if errs != [] {
      return None;
    }
    result := Some(r);
  }

  /** In every accepted configuration, the wait in Steady is TimeOn, and positive; the one in Spill lies
      between TimeOff and its double. */
  lemma AcceptedCooldowns(r: PolicyRegistry, raw: RawConfig, rnd: real -> real, p: SpillPolicy)
    requires Accepted(r) && MadeFrom(r, raw) && Rounding(rnd) && p in r.policies && p.thresholds.timeOff <= TWO_53
    ensures CooldownFor(rnd, p, Steady) == p.thresholds.timeOn > 0
    ensures 0 < p.thresholds.timeOff <= CooldownFor(rnd, p, Spill) <= 2 * p.thresholds.timeOff
  {
    hide Indexed, SwitchBackCooldown, Rounding;
    var i :| 0 <= i < |r.policies| && r.policies[i] == p;
    assert ValidPolicy(r.policies[i]);
    HysteresisIsCut(p, raw.policies[i], r.defaults, raw.defaults);
    SwitchBackBounds(rnd, p.thresholds.timeOff, p.thresholds.hysteresis);
  }

  lemma HysteresisIsCut(p: SpillPolicy, raw: RawPolicy, d: Defaults, rawDefaults: Defaults)
    requires BuiltFrom(p, raw, d) && DefaultsFrom(d, rawDefaults)
    ensures 0.0 <= p.thresholds.hysteresis <= 1.0
  {
  }

  // ---------- Reload ----------

  class RegistryStore {
    var registry: PolicyRegistry

    /** Seeded with an empty registry. */
    constructor ()
      ensures registry.policies == []
    {
      registry := PolicyRegistry(Defaults("", "", 0, Thresholds(0, 0, 0, 0.0)), [], map[], map[], map[]);
    }

    /** No registry leaves the active one in place. */
    method Set(r: Option<PolicyRegistry>)
      modifies this
      ensures registry == if r.Some? then r.value else old(registry)
    {
      if r.Some? {
        registry := r.value;
      }
    }
  }

  ghost predicate NamesOneOf(n: string, ps: seq<SpillPolicy>) {
    exists i :: 0 <= i < |ps| && ps[i].name == n
  }

  /** What an accepted reload enqueues: every name of the old and of the new registry, each once. */
  ghost predicate UnionOnce(added: seq<string>, before: seq<SpillPolicy>, after: seq<SpillPolicy>) {
    Distinct(added) && forall n :: n in added <==> NamesOneOf(n, before) || NamesOneOf(n, after)
  }

  /** The configuration can be decoded, and is valid; None is one that cannot be decoded. */
  ghost predicate Acceptable(raw: Option<RawConfig>) {
    raw.Some? && ValidConfig(raw.value)
  }

  /** The active registry, and what has been enqueued so far. */
  datatype Watched = Watched(registry: PolicyRegistry, enqueued: seq<string>)

  /** One reload, fail-closed: an unacceptable configuration changes nothing and enqueues nothing. */
  ghost predicate ReloadStep(s: Watched, raw: Option<RawConfig>, s': Watched) {
    if Acceptable(raw) then
      && MadeFrom(s'.registry, raw.value) && Accepted(s'.registry)
      && s.enqueued <= s'.enqueued
      && UnionOnce(s'.enqueued[|s.enqueued|..], s.registry.policies, s'.registry.policies)
    else
      s' == s
  }

  class ConfigMapWatch {
    const store: RegistryStore
    var enqueued: seq<string>

    constructor (store: RegistryStore)
      ensures this.store == store && enqueued == []
    {
      this.store, enqueued := store, [];
    }

    method Reload(raw: Option<RawConfig>) returns (accepted: bool)
      modifies this, store
      ensures accepted <==> Acceptable(raw)
      ensures ReloadStep(
                Watched(old(store.registry), old(enqueued)), raw, Watched(store.registry, enqueued))
    {
      if raw == None {
        return false;
      }
      var loaded := Finalize(raw.value);
      if loaded == None {
        return false;
      }
      var before := store.registry.policies;
      store.Set(loaded);
      var after := store.registry.policies;
      var added := EnqueueNew([], before);
      added := EnqueueNew(added, after);
      assert before[..|before|] == before;
      enqueued := enqueued + added;
      assert enqueued[|old(enqueued)|..] == added;
      accepted := true;
    }

    /** Appends the names of `ps` that are not in `added` yet. */
    method EnqueueNew(added: seq<string>, ps: seq<SpillPolicy>) returns (out: seq<string>)
      requires Distinct(added)
      ensures Distinct(out)
      ensures forall n :: n in out <==> n in added || NamesOneOf(n, ps)
    {
      out := added;
      for i := 0 to |ps|
        invariant Distinct(out)
        invariant forall n :: n in out <==> n in added || exists k :: 0 <= k < i && ps[k].name == n
      {
        if ps[i].name !in out {
          out := out + [ps[i].name];
        }
      }
    }
  }

  /** A sequence of reloads: `states[i + 1]` is what the reload of `raws[i]` left. */
  ghost predicate Reloads(states: seq<Watched>, raws: seq<Option<RawConfig>>) {
    |states| == |raws| + 1 && forall i :: 0 <= i < |raws| ==> ReloadStep(states[i], raws[i], states[i + 1])
  }

  ghost predicate AllRejected(raws: seq<Option<RawConfig>>, i: int, j: int)
    requires 0 <= i && j <= |raws|
  {
    forall m :: i <= m < j ==> !Acceptable(raws[m])
  }

  /** The configuration `j` is the latest acceptable one before `i`. */
  ghost predicate IsLatest(raws: seq<Option<RawConfig>>, j: int, i: int)
    requires i <= |raws|
  {
    0 <= j < i && Acceptable(raws[j]) && AllRejected(raws, j + 1, i)
  }

  function Flatten(batches: seq<seq<string>>): seq<string> {
    if batches == [] then [] else Flatten(batches[..|batches| - 1]) + batches[|batches| - 1]
  }

  /** After any sequence of reloads, the active registry is the one made from the latest acceptable
      configuration, and valid, or still the initial one if there was none. */
  lemma {:induction false} ActiveIsLatestAccepted(states: seq<Watched>, raws: seq<Option<RawConfig>>, i: nat)
    requires Reloads(states, raws) && i <= |raws|
    ensures || (AllRejected(raws, 0, i) && states[i] == states[0])
            || (exists j :: IsLatest(raws, j, i)
                            && MadeFrom(states[i].registry, raws[j].value) && Accepted(states[i].registry))
  {
    if i == 0 {
    } else {
      ActiveIsLatestAccepted(states, raws, i - 1);
      assert ReloadStep(states[i - 1], raws[i - 1], states[(i - 1) + 1]);
      if Acceptable(raws[i - 1]) {
        assert IsLatest(raws, i - 1, i);
      } else if j :| IsLatest(raws, j, i - 1) && MadeFrom(states[i - 1].registry, raws[j].value) {
        assert IsLatest(raws, j, i);
      }
    }
  }

  /** What one reload enqueues. */
  ghost predicate IsBatch(s: Watched, raw: Option<RawConfig>, s': Watched, batch: seq<string>) {
    if Acceptable(raw) then UnionOnce(batch, s.registry.policies, s'.registry.policies) else batch == []
  }

  lemma BatchOfStep(s: Watched, raw: Option<RawConfig>, s': Watched) returns (batch: seq<string>)
    requires ReloadStep(s, raw, s')
    ensures IsBatch(s, raw, s', batch) && s'.enqueued == s.enqueued + batch
  {
    batch := s'.enqueued[|s.enqueued|..];
  }

  lemma FlattenNext(batches: seq<seq<string>>, batch: seq<string>)
    ensures Flatten(batches + [batch]) == Flatten(batches) + batch
  {
    assert (batches + [batch])[..|batches|] == batches;
  }

  /** What a sequence of reloads enqueued, batch by batch: nothing for a rejected configuration, and
      for an accepted one every name of the registry active just before and of the new one, once. */
  lemma {:induction false} EnqueuedByReloads(states: seq<Watched>, raws: seq<Option<RawConfig>>, i: nat)
    returns (batches: seq<seq<string>>)
    requires Reloads(states, raws) && i <= |raws|
    ensures |batches| == i && states[i].enqueued == states[0].enqueued + Flatten(batches)
    ensures forall m :: 0 <= m < i ==> IsBatch(states[m], raws[m], states[m + 1], batches[m])
  {
    if i == 0 {
      batches := [];
    } else {
      assert ReloadStep(states[i - 1], raws[i - 1], states[(i - 1) + 1]);
      hide ReloadStep, IsBatch;
      var before := EnqueuedByReloads(states, raws, i - 1);
      var batch := BatchOfStep(states[i - 1], raws[i - 1], states[(i - 1) + 1]);
      batches := before + [batch];
      FlattenNext(before, batch);
    }
  }
}

/** The ledger on the Queue: how the snapshot decodes it (pkg/snapshot/builder.go, queueState) and
    what a server-side apply writes (pkg/action/patch.go). */
module QueueLedger {
  import opened Prelude
  import opened Api
  import opened Encoding
  import opened StateMachine
  import Rfc3339

  // ---------- Reading ----------

  function DecodeState(v: string): State {
    if v == "Spill" then Spill else Steady
  }

  function DecodeTime(v: string): int {
    match Rfc3339.Parse(v)
    case Some(t) => if v == "" then 0 else t
    case None => 0
  }

  datatype Ledger = Ledger(state: State, since: int, hash: string)

  function DecodeAnnotations(m: map<string, string>): Ledger {
    Ledger(DecodeState(Lookup(m, STATE_KEY)), DecodeTime(Lookup(m, SINCE_KEY)), Lookup(m, HASH_KEY))
  }

  /** A missing Queue reads like one that was never reconciled. */
  function QueueState(q: Option<Queue>): Ledger {
    match q
    case None => Ledger(Steady, 0, "")
    case Some(queue) => DecodeAnnotations(queue.annotations)
  }

  function FindQueue(queues: map<string, Queue>, name: string): Option<Queue> {
    if name in queues then Some(queues[name]) else None
  }

  function SnapshotOf(p: SpillPolicy, now: int, q: Option<Queue>, seen: Observation): Snapshot {
    var l := QueueState(q);
    Snapshot(p, now, l.state, l.since, l.hash, seen)
  }

  // ---------- Writing ----------

  /** The apply configuration: it mentions only the fields that the controller owns. */
  datatype Payload = Payload(name: string, annotations: map<string, string>, affinity: NodeGroupAffinity)

  function OwnedOf(m: map<string, string>): map<string, string> {
    map k | k in m && k in OWNED_KEYS :: m[k]
  }

  method SpillAnnotations(src: map<string, string>) returns (out: map<string, string>)
    ensures out == OwnedOf(src)
  {
    out := map[];
    var keys := [STATE_KEY, SINCE_KEY, HASH_KEY];
    var i := 0;
    while i < |keys|
      invariant 0 <= i <= |keys|
      invariant out == map k | k in src && k in keys[..i] :: src[k]
    {
      var k := keys[i];
      if k in src {
        out := out[k := src[k]];
      }
      i := i + 1;
    }
    assert keys[..i] == keys;
  }

  function PayloadOf(d: Decision): Payload {
    Payload(
      if d.desired.name == "" then d.policy.queueName else d.desired.name,
      OwnedOf(d.desired.annotations),
      d.desired.affinity)
  }

  method QueueApplyConfiguration(d: Decision) returns (cfg: Payload)
    ensures cfg == PayloadOf(d)
    ensures cfg.name == if d.desired.name != "" then d.desired.name else d.policy.queueName
    ensures cfg.affinity == d.desired.affinity && forall k ::
              k in cfg.annotations <==>
                && k in d.desired.annotations
                && (k == "spill.example.com/state" || k == "spill.example.com/condition-since"
                    || k == "spill.example.com/decision-hash")
    ensures forall k :: k in cfg.annotations ==> cfg.annotations[k] == d.desired.annotations[k]
  {
    var name := d.desired.name;
    if name == "" {
      name := d.policy.queueName;
    }
    var annotations := SpillAnnotations(d.desired.annotations);
    cfg := Payload(name, annotations, d.desired.affinity);
  }

  /** The API server's forced server-side apply, an assumption about the environment: owned fields
      are replaced, an owned annotation missing from the payload is removed, nothing else changes,
      and a missing Queue is created. */
  function ServerSideApply(q: Option<Queue>, cfg: Payload): Queue {
    match q
    case None => Queue(cfg.annotations, Some(cfg.affinity), map[], map[])
    case Some(live) => live.(
      annotations := (live.annotations - OWNED_KEYS) + cfg.annotations,
      affinity := Some(cfg.affinity))
  }

  // ---------- Owned and unowned parts ----------

  datatype Owned = Owned(annotations: map<string, string>, affinity: Option<NodeGroupAffinity>)

  function OwnedPart(q: Option<Queue>): Owned {
    match q
    case None => Owned(map[], None)
    case Some(queue) => Owned(OwnedOf(queue.annotations), queue.affinity)
  }

  datatype Unowned = Unowned(annotations: map<string, string>, capability: map<string, int>, other: map<string, string>)

  function UnownedPart(q: Option<Queue>): Unowned {
    match q
    case None => Unowned(map[], map[], map[])
    case Some(queue) => Unowned(queue.annotations - OWNED_KEYS, queue.capability, queue.other)
  }

  /** The ledger is a function of the owned annotations. */
  lemma LedgerIsOwned(q: Option<Queue>)
    ensures QueueState(q) == DecodeAnnotations(OwnedPart(q).annotations)
  {
  }

  lemma ApplyParts(q: Option<Queue>, d: Decision)
    requires d.desired.annotations.Keys <= OWNED_KEYS
    ensures var q' := Some(ServerSideApply(q, PayloadOf(d)));
            && OwnedPart(q') == Owned(d.desired.annotations, Some(d.desired.affinity))
            && UnownedPart(q') == UnownedPart(q)
  {
    var cfg := PayloadOf(d);
    assert cfg.annotations == d.desired.annotations;
    var q' := Some(ServerSideApply(q, cfg));
    assert OwnedPart(q').annotations == d.desired.annotations;
    assert UnownedPart(q').annotations == UnownedPart(q).annotations;
  }

  /** Applying what is already there changes nothing. */
  lemma ApplyIsIdempotent(q: Queue, d: Decision)
    requires d.desired.annotations.Keys <= OWNED_KEYS
    requires OwnedPart(Some(q)) == Owned(d.desired.annotations, Some(d.desired.affinity))
    ensures ServerSideApply(Some(q), PayloadOf(d)) == q
  {
    var cfg := PayloadOf(d);
    assert cfg.annotations == OwnedOf(q.annotations);
    assert (q.annotations - OWNED_KEYS) + cfg.annotations == q.annotations;
  }

  /** An apply in the Queue's own fields: the three annotations and the affinity become those of the
      decision, every other field stays. */
  lemma ApplyExactly(q: Queue, d: Decision)
    requires d.desired.annotations.Keys <= OWNED_KEYS
    ensures var q' := ServerSideApply(Some(q), PayloadOf(d));
            && q'.affinity == Some(d.desired.affinity) && q'.capability == q.capability && q'.other == q.other
            && forall k ::
                 if k == "spill.example.com/state" || k == "spill.example.com/condition-since"
                    || k == "spill.example.com/decision-hash" then
                   (k in q'.annotations <==> k in d.desired.annotations)
                   && (k in d.desired.annotations ==> q'.annotations[k] == d.desired.annotations[k])
                 else
                   (k in q'.annotations <==> k in q.annotations)
                   && (k in q.annotations ==> q'.annotations[k] == q.annotations[k])
  {
    assert PayloadOf(d).annotations == d.desired.annotations;
  }

  /** What the annotations of a Queue mean: Spill only if the state says so, no stamp unless it can be
      read, and nothing of a missing Queue. */
  lemma LedgerIs(q: Option<Queue>)
    ensures var a: map<string, string>, l := if q.Some? then q.value.annotations else map[], QueueState(q);
            && (l.state == Spill <==> "spill.example.com/state" in a && a["spill.example.com/state"] == "Spill")
            && l.since == (if "spill.example.com/condition-since" in a
                              && Rfc3339.Parse(a["spill.example.com/condition-since"]).Some?
                           then Rfc3339.Parse(a["spill.example.com/condition-since"]).value else 0)
            && l.hash == (if "spill.example.com/decision-hash" in a then a["spill.example.com/decision-hash"] else "")
  {
    hide Rfc3339.ParseDate, Rfc3339.ParseClock, Rfc3339.ParseTail, Rfc3339.DayNumber;
    assert Rfc3339.Parse("") == None;
  }

  // ---------- Round trip ----------

  lemma StateRoundTrip(s: State)
    ensures DecodeState(StateName(s)) == s
  {
    assert |StateName(Spill)| == 5 && |StateName(Steady)| == 6;
  }

  /** The owned fields that stand for a state and a stamp under a policy. */
  function OwnedFor(sha: string -> string, p: SpillPolicy, state: State, since: int): Owned {
    var bare := MaterializeQueue(p, state, since);
    Owned(bare.annotations[HASH_KEY := DecisionHash(sha, state, Some(bare.affinity), since)], Some(bare.affinity))
  }

  /** What is written reads back as its state, its stamp cut to a whole second, and its hash; there
      is no stamp exactly when the timer is off.  A stamp past the year 9999 reads back as "off". */
  lemma LedgerRoundTrip(sha: string -> string, p: SpillPolicy, state: State, since: int)
    ensures var o := OwnedFor(sha, p, state, since);
            && o.annotations.Keys <= OWNED_KEYS
            && (SINCE_KEY in o.annotations <==> since != 0)
            && DecodeAnnotations(o.annotations)
               == Ledger(state, if Rfc3339.Writable(since) then Rfc3339.FloorSecond(since) else 0,
                         DecisionHash(sha, state, o.affinity, since))
  {
    var o := OwnedFor(sha, p, state, since);
    OwnedKeysDiffer();
    StateRoundTrip(state);
    if since != 0 {
      Rfc3339.ParseAfterFormat(since);
      assert Lookup(o.annotations, SINCE_KEY) == Rfc3339.Format(since);
    } else {
      assert Lookup(o.annotations, SINCE_KEY) == "";
    }
  }

  lemma DecisionOwns(env: Env, s: Snapshot)
    ensures var d := Evaluate(env, s); var t := NextState(env.rnd, s);
            && Owned(d.desired.annotations, Some(d.desired.affinity))
               == OwnedFor(env.sha, s.policy, t.nextState, t.conditionSince)
            && d.to == t.nextState
            && d.hash == DecisionHash(env.sha, t.nextState, Some(d.desired.affinity), t.conditionSince)
  {
  }

  /** What is written for a state and a stamp, annotation by annotation. */
  lemma OwnedIs(sha: string -> string, p: SpillPolicy, state: State, since: int)
    ensures var o := OwnedFor(sha, p, state, since); var a := o.annotations;
            && a.Keys == {"spill.example.com/state", "spill.example.com/decision-hash"}
                         + (if since == 0 then {} else {"spill.example.com/condition-since"})
            && a["spill.example.com/state"] == (if state == Spill then "Spill" else "Steady")
            && (since != 0 ==> a["spill.example.com/condition-since"] == Rfc3339.Format(since))
            && o.affinity == Some(
                 if state == Spill then NodeGroupAffinity([p.dedicated, p.overflow], [p.dedicated])
                 else NodeGroupAffinity([p.dedicated], []))
            && a["spill.example.com/decision-hash"] == DecisionHash(sha, state, o.affinity, since)
  {
    hide Rfc3339.Format, DecisionHash;
    OwnedKeysDiffer();
  }
}

/** The controller's shared vocabulary (pkg/api/types.go): states, triggers, policies, the Volcano
    Queue and the annotations the controller keeps on it. */
module Api {
  import opened Prelude

  const STATE_KEY := "spill.example.com/state"
  const SINCE_KEY := "spill.example.com/condition-since"
  const HASH_KEY := "spill.example.com/decision-hash"

  /** The three annotations that make up the persisted ledger. */
  const OWNED_KEYS: set<string> := {STATE_KEY, SINCE_KEY, HASH_KEY}

  lemma OwnedKeysDiffer()
    ensures STATE_KEY != SINCE_KEY && STATE_KEY != HASH_KEY && SINCE_KEY != HASH_KEY
  {
    assert STATE_KEY[18] == 's' && SINCE_KEY[18] == 'c' && HASH_KEY[18] == 'd';
  }

  datatype State = Steady | Spill

  function StateName(s: State): string {
    match s
    case Steady => "Steady"
    case Spill => "Spill"
  }

  datatype Trigger = NoTrigger | AutoscalerExhausted | StalePending | Switchback

  /** Durations are nanoseconds. */
  datatype Thresholds = Thresholds(timeOn: int, timeOff: int, timePendingMax: int, hysteresis: real)

  datatype SpillPolicy = SpillPolicy(
    name: string,
    queueName: string,
    dedicated: string,
    overflow: string,
    thresholds: Thresholds)

  datatype NodeGroupAffinity = NodeGroupAffinity(required: seq<string>, preferred: seq<string>)

  /** A Volcano Queue.  `affinity` is spec.affinity.nodeGroupAffinity, the only spec field the
      controller owns; `capability` and `other` stand for the fields that operators own. */
  datatype Queue = Queue(
    annotations: map<string, string>,
    affinity: Option<NodeGroupAffinity>,
    capability: map<string, int>,
    other: map<string, string>)

  function Lookup(m: map<string, string>, k: string): string {
    if k in m then m[k] else ""
  }
}

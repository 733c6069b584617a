/**
 Data of the alert engine (core-console/backend/alerts.go): compiled rules, incidents,
 and the trace of everything the engine decides to send.

 Times are nanoseconds; Unix() gives the seconds the engine stores in an incident.
 Display text that never influences a decision (title, description, threshold text) is dropped.
 */
module AlertTypes {
  import opened Wrappers

  /** Unset stands for "" and for every other string outside info/warn/crit. */
  datatype Severity = Unset | Info | Warn | Crit

  function SevWeight(s: Severity): nat {
    match s
    case Crit => 3
    case Warn => 2
    case Info => 1
    case Unset => 0
  }

  const SECOND := 1_000_000_000
  const TG_COOLDOWN := 1800 * SECOND
  const SUSTAIN_TICKS := 2
  const TRAIL_CAP := 60
  const HIST_CAP := 200
  const STORM_THRESHOLD := 6

  function Unix(now: int): int {
    now / SECOND
  }

  /** A node set: empty lists on both sides mean every node. */
  datatype Scope = Scope(nodeIds: seq<string>, regions: seq<int>) {
    predicate Matches(nodeId: string, region: int) {
      (|nodeIds| == 0 && |regions| == 0) || nodeId in nodeIds || region in regions
    }
  }

  /** A compiled rule, as reloadRules leaves it in the engine. */
  datatype Rule = Rule(
    id: string,
    severity: Severity,
    enabled: bool,
    notifyTG: bool,
    sustainSecs: int,
    muteUntil: int,
    scope: Scope,
    resolveSecs: int,
    escalateSecs: int,
    repeatSecs: int,
    suppressTG: bool,
    minSev: Severity,
    groupKey: string)
  {
    predicate Applicable(nodeId: string, region: int, nowU: int) {
      enabled && muteUntil <= nowU && scope.Matches(nodeId, region)
    }
  }

  datatype Sample = Sample(at: int, message: string)

  /**
   The serialised part of an incident: what the history page and the stored ring show.
   Ids are the decimal strings of lastSeq, kept as numbers.
   */
  datatype Record = Record(
    id: int,
    nodeId: string,
    ruleId: string,
    severity: Severity,
    message: string,
    trail: seq<Sample>,
    firedAt: int,
    resolvedAt: int,
    resolved: bool,
    acked: bool,
    ackedBy: string)

  /** The firing rule's notification policy, copied into the incident when it opens. */
  datatype Policy = Policy(
    notifyTG: bool,
    suppressTG: bool,
    minSev: Severity,
    repeatSecs: int,
    escalateSecs: int,
    groupKey: string)

  /** Notification progress of an incident; in memory only. */
  datatype Progress = Progress(tickCount: int, fireSent: bool, posted: bool, escalated: bool)

  /** One incident of one (node, rule). */
  datatype Event = Event(rec: Record, policy: Policy, tg: Progress)

  /** What one evaluator returned for one node (after the panic guard). */
  datatype Reading = Reading(firing: bool, msg: string)

  /** A scraped node with the evaluators' readings, one per compiled rule in rule order. */
  datatype NodeStatus = NodeStatus(id: string, region: int, readings: seq<Reading>)

  /** A claimed first fire waiting for the end of the tick. */
  datatype PendingFire = PendingFire(ev: Event, key: string)

  /** Everything the engine decides, in order. */
  datatype Effect =
    | Claim(key: string, id: int, at: int, escalated: bool)  // tgFireSent set, cooldown started
    | Repeat(key: string, id: int, at: int, every: int)      // RepeatSecs re-ping
    | Resolved(key: string, id: int, at: int)                // "resolved" nudge
    | Triage(batch: seq<PendingFire>, sev: Severity)         // batch handed to an asynchronous triage
    | Card(batch: seq<PendingFire>, sev: Severity)           // batch posted at once
    | TriageCard(batch: seq<PendingFire>)                    // a triage posted its card

  function Keys(g: seq<PendingFire>): (ks: seq<string>)
    ensures |ks| == |g|
    ensures forall i :: 0 <= i < |g| ==> ks[i] == g[i].key
  {
    seq(|g|, i requires 0 <= i < |g| => g[i].key)
  }

  /** Consecutive-tick counters hold no zero entries: an absent key counts as 0. */
  type Count = x: int | x > 0 witness 1

  function CountOf(m: map<string, Count>, k: string): nat {
    if k in m then m[k] else 0
  }

  function PutCount(m: map<string, Count>, k: string, n: nat): map<string, Count> {
    if n == 0 then m - {k} else m[k := n]
  }

  function Key(nodeId: string, ruleId: string): string {
    nodeId + ":" + ruleId
  }

  /** The engine's own state, as one value. */
  datatype Engine = Engine(
    notify: bool,
    pending: map<string, Count>,
    clearing: map<string, Count>,
    active: map<string, Event>,
    lastTG: map<string, int>,
    history: seq<Event>,
    lastSeq: int,
    trace: seq<Effect>)

  const EMPTY_ENGINE := Engine(false, map[], map[], map[], map[], [], 0, [])
}

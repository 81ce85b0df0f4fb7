/**
  The health-check / backoff / notification controller of docker-autoheal, as values.

  Durations and instants are integer nanoseconds (Go's `time.Duration` and
  `time.Time` read as one number); one cycle uses a single instant `now`.
  The functions here are the specification that the imperative class in
  monitor.dfy is proved against.
 */
module AutoHeal {
  import opened Wrappers
  import opened Text

  /** One entry of the backoff table (Go's `ContainerState`). */
  datatype ContainerState = ContainerState(backoff: int, lastAttempt: int)

  /** The fields of a listed container that a cycle reads. */
  datatype Container = Container(id: string, names: seq<string>, state: string, status: string)

  /** Where a container goes in one cycle. */
  datatype Verdict = Healthy | NeedsRecovery | Ignored

  /** The process start parameters the cycle reads. */
  datatype Settings = Settings(
    lockFile: string,
    webhookUrl: string,
    webhookKey: string,
    initialBackoff: int,
    maxBackoff: int)

  /** The JSON object `{key: message}` posted to the webhook. */
  datatype Payload = Payload(key: string, message: string)

  /** Go's `min` on durations. */
  function Min(a: int, b: int): (r: int)
    ensures r <= a && r <= b
    ensures r == a || r == b
  {
    if a < b then a else b
  }

  /** The backoff after one restart attempt: doubled, capped at the maximum. */
  function NextBackoff(backoff: int, maxBackoff: int): (r: int)
    ensures r <= maxBackoff && r <= 2 * backoff
    ensures r == 2 * backoff || r == maxBackoff
    ensures 0 <= backoff <= maxBackoff ==> backoff <= r
  {
    Min(backoff * 2, maxBackoff)
  }

  /** The three-way split of the container list. */
  function Classify(c: Container): Verdict
  {
    if c.state == "running" then
      if !Contains(c.status, "unhealthy") then Healthy else NeedsRecovery
    else if c.state != "exited" && c.state != "dead" then Ignored
    else NeedsRecovery
  }

  /** The key of the backoff table: the container's names joined by a space. */
  function DisplayName(c: Container): string
  {
    Join(c.names, " ")
  }

  /** The label of a restarted container in the alert message. */
  function Label(c: Container): string
  {
    DisplayName(c) + " (" + c.status + ")"
  }

  const AllClearMessage: string := ":white_check_mark: All is well"

  /** The alert text: a header line, then one indented line per label. */
  function AlertMessage(labels: seq<string>): string
  {
    ":rotating_light: Unhealthy services:\n    " + Join(labels, "\n    ")
  }

  /** Every backoff in the table lies in [initialBackoff, maxBackoff]. */
  ghost predicate Bounded(states: map<string, ContainerState>, initialBackoff: int, maxBackoff: int)
  {
    forall cn :: cn in states ==> initialBackoff <= states[cn].backoff <= maxBackoff
  }

  /**
    What the loop over the container list has built so far: the table,
    the names classified healthy, the labels of restarted containers and
    the ids handed to the restart call.
   */
  datatype Pass = Pass(
    states: map<string, ContainerState>,
    healthy: seq<string>,
    labels: seq<string>,
    restarted: seq<string>)

  /**
    One iteration of the loop for container `c`; `finishedAt` is what
    inspecting it and parsing its FinishedAt time would give (None when either
    fails), used only when `c` has no entry yet.
   */
  ghost function Visit(p: Pass, c: Container, finishedAt: Option<int>, now: int,
                       initialBackoff: int, maxBackoff: int): Pass
  {
    var cn := DisplayName(c);
    match Classify(c)
    case Ignored => p
    case Healthy => p.(healthy := p.healthy + [cn])
    case NeedsRecovery =>
      if cn !in p.states && finishedAt.None? then p
      else
        var state := if cn in p.states then p.states[cn]
                     else ContainerState(initialBackoff, finishedAt.value);
        var states := p.states[cn := state];
        if now - state.lastAttempt < state.backoff then p.(states := states)
        else Pass(states[cn := ContainerState(NextBackoff(state.backoff, maxBackoff), now)],
                  p.healthy, p.labels + [Label(c)], p.restarted + [c.id])
  }

  /** The whole loop over a container list, one Visit per container in list order. */
  ghost function Sweep(states: map<string, ContainerState>, snapshot: seq<Container>,
                       inspect: seq<Option<int>>, now: int,
                       initialBackoff: int, maxBackoff: int): Pass
    requires |inspect| == |snapshot|
    decreases |snapshot|
  {
    if |snapshot| == 0 then Pass(states, [], [], [])
    else
      var n := |snapshot| - 1;
      Visit(Sweep(states, snapshot[..n], inspect[..n], now, initialBackoff, maxBackoff),
            snapshot[n], inspect[n], now, initialBackoff, maxBackoff)
  }

  /**
    The table after cleanup: an entry goes when its name was seen healthy and
    more than the initial backoff has passed since its last attempt.
   */
  ghost function CleanedStates(states: map<string, ContainerState>, healthy: seq<string>,
                               now: int, initialBackoff: int): map<string, ContainerState>
  {
    map cn | cn in states && !(cn in healthy && now - states[cn].lastAttempt > initialBackoff)
      :: states[cn]
  }

  /** The message triggerWebhook posts, if any, given the alerting flag, the table size and the labels. */
  ghost function Message(alerting: bool, tracked: nat, labels: seq<string>): Option<string>
  {
    if |labels| == 0 then
      if !alerting || tracked > 0 then None else Some(AllClearMessage)
    else if alerting then None
    else Some(AlertMessage(labels))
  }

  /**
    The alerting flag after notification: the value triggerWebhook leaves it
    at, then the restore to true in checkHealth when the send failed while
    the flag had been true.
   */
  ghost function FlagAfter(alerting: bool, tracked: nat, labels: seq<string>, delivered: bool): bool
  {
    var m := Message(alerting, tracked, labels);
    var updated := if m.Some? then |labels| > 0 else alerting;
    var failed := m.Some? && !delivered;
    if failed && alerting then true else updated
  }

  /** What one cycle leaves behind and what it did outside. */
  datatype Outcome = Outcome(
    states: map<string, ContainerState>,
    alerting: bool,
    restarted: seq<string>,
    posted: Option<Payload>)

  /** Whether the cycle stops at once: the kill-switch file exists, or listing failed. */
  ghost predicate Halted(cfg: Settings, lockFileExists: bool, listing: Option<seq<Container>>)
  {
    (cfg.lockFile != "" && lockFileExists) || listing.None?
  }

  /**
    One call of checkHealth. `lockFileExists` is the result of the stat call,
    `listing` the container list (None on error), `inspect` the finish time
    per listed container, `delivered` whether the webhook POST would succeed.
   */
  ghost function Cycle(cfg: Settings, states: map<string, ContainerState>, alerting: bool,
                       lockFileExists: bool, listing: Option<seq<Container>>,
                       inspect: seq<Option<int>>, delivered: bool, now: int): Outcome
    requires listing.Some? ==> |inspect| == |listing.value|
  {
    if Halted(cfg, lockFileExists, listing) then Outcome(states, alerting, [], None)
    else
      var p := Sweep(states, listing.value, inspect, now, cfg.initialBackoff, cfg.maxBackoff);
      var cleaned := CleanedStates(p.states, p.healthy, now, cfg.initialBackoff);
      if cfg.webhookUrl == "" then Outcome(cleaned, alerting, p.restarted, None)
      else
        var m := Message(alerting, |cleaned|, p.labels);
        Outcome(cleaned, FlagAfter(alerting, |cleaned|, p.labels, delivered), p.restarted,
                if m.Some? then Some(Payload(cfg.webhookKey, m.value)) else None)
  }
}

/**
  What the controller promises, proved about the specification in autoheal.dfy.
 */
module HealProperties {
  import opened Wrappers
  import opened Text
  import opened AutoHeal

  // ---------------------------------------------------------------- classification

  /** `sub` is a substring of `s`, by the plain definition. */
  ghost predicate HasSubstring(s: string, sub: string)
  {
    exists k :: OccursAt(s, sub, k)
  }

  /** The three outcomes of classification, each as an if-and-only-if. */
  lemma ClassifyRule(c: Container)
    ensures Classify(c) == Healthy
            <==> c.state == "running" && !HasSubstring(c.status, "unhealthy")
    ensures Classify(c) == NeedsRecovery
            <==> (c.state == "running" && HasSubstring(c.status, "unhealthy"))
                 || c.state == "exited" || c.state == "dead"
    ensures Classify(c) == Ignored
            <==> c.state != "running" && c.state != "exited" && c.state != "dead"
  {
    ContainsIsOccurrence(c.status, "unhealthy");
  }

  // ---------------------------------------------------------------- one container

  /**
    Whether the loop restarts `c` when the table is `states`: it needs
    recovery, it has an entry or one can be made from its finish time, and the
    entry's backoff has elapsed.
   */
  ghost predicate Eligible(states: map<string, ContainerState>, c: Container, finishedAt: Option<int>,
                           now: int, initialBackoff: int)
  {
    var cn := DisplayName(c);
    && Classify(c) == NeedsRecovery
    && (cn in states || finishedAt.Some?)
    && var state := if cn in states then states[cn] else ContainerState(initialBackoff, finishedAt.value);
       now - state.lastAttempt >= state.backoff
  }

  /** A healthy or ignored container leaves the table and the labels alone; only a healthy one is remembered. */
  lemma VisitNotTroubled(p: Pass, c: Container, finishedAt: Option<int>, now: int,
                         initialBackoff: int, maxBackoff: int)
    requires Classify(c) != NeedsRecovery
    ensures var q := Visit(p, c, finishedAt, now, initialBackoff, maxBackoff);
            q.states == p.states && q.labels == p.labels && q.restarted == p.restarted
            && q.healthy == if Classify(c) == Healthy then p.healthy + [DisplayName(c)] else p.healthy
  {
  }

  /** A troubled container without an entry whose finish time is unavailable: nothing happens. */
  lemma VisitUninspectable(p: Pass, c: Container, now: int, initialBackoff: int, maxBackoff: int)
    requires Classify(c) == NeedsRecovery && DisplayName(c) !in p.states
    ensures Visit(p, c, None, now, initialBackoff, maxBackoff) == p
  {
  }

  /**
    A troubled container without an entry gets one seeded with the initial
    backoff and its finish time; it is restarted at once when that backoff has
    already passed since it finished.
   */
  lemma VisitNewEntry(p: Pass, c: Container, finishedAt: int, now: int,
                      initialBackoff: int, maxBackoff: int)
    requires Classify(c) == NeedsRecovery && DisplayName(c) !in p.states
    ensures var q := Visit(p, c, Some(finishedAt), now, initialBackoff, maxBackoff);
            var cn := DisplayName(c);
            && q.states.Keys == p.states.Keys + {cn}
            && (forall k :: k in p.states ==> q.states[k] == p.states[k])
            && q.states[cn] == (if now - finishedAt < initialBackoff
                                then ContainerState(initialBackoff, finishedAt)
                                else ContainerState(NextBackoff(initialBackoff, maxBackoff), now))
            && q.restarted == (if now - finishedAt < initialBackoff then p.restarted
                               else p.restarted + [c.id])
  {
  }

  /** A known troubled container whose backoff has not elapsed is skipped, with no change at all. */
  lemma VisitBackoffSkip(p: Pass, c: Container, finishedAt: Option<int>, now: int,
                         initialBackoff: int, maxBackoff: int)
    requires Classify(c) == NeedsRecovery && DisplayName(c) in p.states
    requires now - p.states[DisplayName(c)].lastAttempt < p.states[DisplayName(c)].backoff
    ensures Visit(p, c, finishedAt, now, initialBackoff, maxBackoff) == p
  {
  }

  /**
    A known troubled container whose backoff has elapsed is restarted: its
    entry becomes (doubled-and-capped backoff, now), its label and id are
    appended, and no other entry changes.
   */
  lemma VisitRestart(p: Pass, c: Container, finishedAt: Option<int>, now: int,
                     initialBackoff: int, maxBackoff: int)
    requires Classify(c) == NeedsRecovery && DisplayName(c) in p.states
    requires now - p.states[DisplayName(c)].lastAttempt >= p.states[DisplayName(c)].backoff
    ensures var q := Visit(p, c, finishedAt, now, initialBackoff, maxBackoff);
            var old_ := p.states[DisplayName(c)];
            && q.states == p.states[DisplayName(c) := ContainerState(NextBackoff(old_.backoff, maxBackoff), now)]
            && q.labels == p.labels + [Label(c)]
            && q.restarted == p.restarted + [c.id]
            && q.healthy == p.healthy
  {
  }

  /** A Visit appends a label and an id exactly when the container is eligible. */
  lemma VisitAppends(p: Pass, c: Container, finishedAt: Option<int>, now: int,
                     initialBackoff: int, maxBackoff: int)
    ensures var q := Visit(p, c, finishedAt, now, initialBackoff, maxBackoff);
            if Eligible(p.states, c, finishedAt, now, initialBackoff)
            then q.labels == p.labels + [Label(c)] && q.restarted == p.restarted + [c.id]
            else q.labels == p.labels && q.restarted == p.restarted
  {
  }

  // ---------------------------------------------------------------- the whole list

  /** Position `j` of the labels and restarted ids comes from container `idx[j]` of the list. */
  ghost predicate PickedFrom(p: Pass, s: seq<Container>, idx: seq<int>)
  {
    && |idx| == |p.labels| == |p.restarted|
    && (forall j :: 0 <= j < |idx| ==>
          0 <= idx[j] < |s| && p.labels[j] == Label(s[idx[j]]) && p.restarted[j] == s[idx[j]].id)
    && (forall j, j' :: 0 <= j < j' < |idx| ==> idx[j] < idx[j'])
  }

  /** Container `i` of the list is eligible when the loop reaches it. */
  ghost predicate EligibleAt(states: map<string, ContainerState>, s: seq<Container>,
                             inspect: seq<Option<int>>, now: int,
                             initialBackoff: int, maxBackoff: int, i: int)
    requires |inspect| == |s| && 0 <= i < |s|
  {
    Eligible(Sweep(states, s[..i], inspect[..i], now, initialBackoff, maxBackoff).states,
             s[i], inspect[i], now, initialBackoff)
  }

  /** Whether container `i` is eligible does not depend on the containers after it. */
  lemma EligibleAtPrefix(states: map<string, ContainerState>, s: seq<Container>,
                         inspect: seq<Option<int>>, now: int,
                         initialBackoff: int, maxBackoff: int, n: int, i: int)
    requires |inspect| == |s| && 0 <= i < n <= |s|
    ensures EligibleAt(states, s[..n], inspect[..n], now, initialBackoff, maxBackoff, i)
            == EligibleAt(states, s, inspect, now, initialBackoff, maxBackoff, i)
  {
    assert s[..n][..i] == s[..i] && inspect[..n][..i] == inspect[..i];
    assert s[..n][i] == s[i] && inspect[..n][i] == inspect[i];
  }

  /** Appending at most one picked container keeps the picking in order. */
  lemma PickedFromStep(pre: Pass, post: Pass, s: seq<Container>, before: seq<int>, picked: bool)
    requires |s| > 0 && PickedFrom(pre, s[..|s| - 1], before)
    requires picked ==> post.labels == pre.labels + [Label(s[|s| - 1])]
                        && post.restarted == pre.restarted + [s[|s| - 1].id]
    requires !picked ==> post.labels == pre.labels && post.restarted == pre.restarted
    ensures PickedFrom(post, s, if picked then before + [|s| - 1] else before)
    ensures |s| - 1 !in before
  {
    var n := |s| - 1;
    forall j | 0 <= j < |before| ensures before[j] < n && s[..n][before[j]] == s[before[j]] {
    }
  }

  /** Extending the list by one container extends the eligible positions by at most that one. */
  lemma EligibleIndexStep(states: map<string, ContainerState>, s: seq<Container>,
                          inspect: seq<Option<int>>, now: int,
                          initialBackoff: int, maxBackoff: int, before: seq<int>, eligible: bool)
    requires |inspect| == |s| && |s| > 0
    requires forall i :: 0 <= i < |s| - 1 ==>
               (i in before <==> EligibleAt(states, s[..|s| - 1], inspect[..|s| - 1], now,
                                           initialBackoff, maxBackoff, i))
    requires |s| - 1 !in before
    requires eligible == EligibleAt(states, s, inspect, now, initialBackoff, maxBackoff, |s| - 1)
    ensures forall i :: 0 <= i < |s| ==>
              (i in (if eligible then before + [|s| - 1] else before)
               <==> EligibleAt(states, s, inspect, now, initialBackoff, maxBackoff, i))
  {
    var n := |s| - 1;
    forall i | 0 <= i < n
      ensures i in (if eligible then before + [n] else before)
              <==> EligibleAt(states, s, inspect, now, initialBackoff, maxBackoff, i)
    {
      EligibleAtPrefix(states, s, inspect, now, initialBackoff, maxBackoff, n, i);
    }
  }

  /**
    The labels and restarted ids are, position by position, those of the
    eligible containers of the list, in list order: `idx` picks them out.
   */
  lemma {:induction false} SweepOrder(states: map<string, ContainerState>, s: seq<Container>,
                                      inspect: seq<Option<int>>, now: int,
                                      initialBackoff: int, maxBackoff: int)
    returns (idx: seq<int>)
    requires |inspect| == |s|
    ensures PickedFrom(Sweep(states, s, inspect, now, initialBackoff, maxBackoff), s, idx)
    ensures forall i :: 0 <= i < |s| ==>
              (i in idx <==> EligibleAt(states, s, inspect, now, initialBackoff, maxBackoff, i))
    decreases |s|
  {
    if |s| == 0 {
      idx := [];
    } else {
      var n := |s| - 1;
      var before := SweepOrder(states, s[..n], inspect[..n], now, initialBackoff, maxBackoff);
      var pre := Sweep(states, s[..n], inspect[..n], now, initialBackoff, maxBackoff);
      var post := Sweep(states, s, inspect, now, initialBackoff, maxBackoff);
      assert post == Visit(pre, s[n], inspect[n], now, initialBackoff, maxBackoff);
      VisitAppends(pre, s[n], inspect[n], now, initialBackoff, maxBackoff);
      var eligible := Eligible(pre.states, s[n], inspect[n], now, initialBackoff);
      assert eligible == EligibleAt(states, s, inspect, now, initialBackoff, maxBackoff, n);
      PickedFromStep(pre, post, s, before, eligible);
      idx := if eligible then before + [n] else before;
      EligibleIndexStep(states, s, inspect, now, initialBackoff, maxBackoff, before, eligible);
    }
  }

  /**
    Over a whole list, with the initial backoff within [0, max] and every entry
    bounded: entries stay bounded, none is dropped, and no backoff decreases.
   */
  lemma {:induction false} SweepBackoff(states: map<string, ContainerState>, s: seq<Container>,
                                        inspect: seq<Option<int>>, now: int,
                                        initialBackoff: int, maxBackoff: int)
    requires |inspect| == |s|
    requires 0 <= initialBackoff <= maxBackoff && Bounded(states, initialBackoff, maxBackoff)
    ensures var q := Sweep(states, s, inspect, now, initialBackoff, maxBackoff).states;
            && Bounded(q, initialBackoff, maxBackoff)
            && states.Keys <= q.Keys
            && forall cn :: cn in states ==> states[cn].backoff <= q[cn].backoff
    decreases |s|
  {
    if |s| > 0 {
      var n := |s| - 1;
      SweepBackoff(states, s[..n], inspect[..n], now, initialBackoff, maxBackoff);
    }
  }

  /**
    The table changes only at the names of troubled containers of the list:
    every other entry is kept as it was, and every new entry belongs to a
    troubled container whose finish time was available.
   */
  lemma {:induction false} SweepFrame(states: map<string, ContainerState>, s: seq<Container>,
                                      inspect: seq<Option<int>>, now: int,
                                      initialBackoff: int, maxBackoff: int)
    requires |inspect| == |s|
    ensures var q := Sweep(states, s, inspect, now, initialBackoff, maxBackoff).states;
            && (forall cn :: cn in states && !Troubled(s, cn) ==> cn in q && q[cn] == states[cn])
            && (forall cn :: cn in q && cn !in states ==>
                  exists i :: 0 <= i < |s| && DisplayName(s[i]) == cn
                              && Classify(s[i]) == NeedsRecovery && inspect[i].Some?)
    decreases |s|
  {
    if |s| > 0 {
      var n := |s| - 1;
      SweepFrame(states, s[..n], inspect[..n], now, initialBackoff, maxBackoff);
      forall cn | Troubled(s[..n], cn) ensures Troubled(s, cn) {
        var i :| 0 <= i < n && DisplayName(s[..n][i]) == cn && Classify(s[..n][i]) == NeedsRecovery;
        assert s[..n][i] == s[i];
      }
      var pre := Sweep(states, s[..n], inspect[..n], now, initialBackoff, maxBackoff).states;
      forall cn | cn in Sweep(states, s, inspect, now, initialBackoff, maxBackoff).states && cn !in states
        ensures exists i :: 0 <= i < |s| && DisplayName(s[i]) == cn
                            && Classify(s[i]) == NeedsRecovery && inspect[i].Some?
      {
        if cn in pre {
          var i :| 0 <= i < n && DisplayName(s[..n][i]) == cn
                   && Classify(s[..n][i]) == NeedsRecovery && inspect[..n][i].Some?;
          assert s[..n][i] == s[i] && inspect[..n][i] == inspect[i];
        } else {
          assert DisplayName(s[n]) == cn;
        }
      }
    }
  }

  /** Some container of the list with display name `cn` needs recovery. */
  ghost predicate Troubled(s: seq<Container>, cn: string)
  {
    exists i :: 0 <= i < |s| && DisplayName(s[i]) == cn && Classify(s[i]) == NeedsRecovery
  }

  /** Some container of the list with display name `cn` is healthy. */
  ghost predicate SeenHealthy(s: seq<Container>, cn: string)
  {
    exists i :: 0 <= i < |s| && DisplayName(s[i]) == cn && Classify(s[i]) == Healthy
  }

  /** The healthy list holds exactly the names of the healthy containers of the list. */
  lemma {:induction false} SweepHealthy(states: map<string, ContainerState>, s: seq<Container>,
                                        inspect: seq<Option<int>>, now: int,
                                        initialBackoff: int, maxBackoff: int)
    requires |inspect| == |s|
    ensures forall cn :: cn in Sweep(states, s, inspect, now, initialBackoff, maxBackoff).healthy
                         <==> SeenHealthy(s, cn)
    decreases |s|
  {
    if |s| > 0 {
      var n := |s| - 1;
      SweepHealthy(states, s[..n], inspect[..n], now, initialBackoff, maxBackoff);
      var pre := Sweep(states, s[..n], inspect[..n], now, initialBackoff, maxBackoff);
      var h := Sweep(states, s, inspect, now, initialBackoff, maxBackoff).healthy;
      assert h == if Classify(s[n]) == Healthy then pre.healthy + [DisplayName(s[n])] else pre.healthy;
      forall cn ensures SeenHealthy(s[..n], cn) ==> SeenHealthy(s, cn) {
        if SeenHealthy(s[..n], cn) {
          var i :| 0 <= i < n && DisplayName(s[..n][i]) == cn && Classify(s[..n][i]) == Healthy;
          assert s[..n][i] == s[i];
        }
      }
      forall cn | SeenHealthy(s, cn) ensures cn in h {
        var i :| 0 <= i < |s| && DisplayName(s[i]) == cn && Classify(s[i]) == Healthy;
        if i < n {
          assert s[..n][i] == s[i];
          assert SeenHealthy(s[..n], cn);
        }
      }
    }
  }

  // ---------------------------------------------------------------- backoff schedule

  function Pow2(k: nat): nat
  {
    if k == 0 then 1 else 2 * Pow2(k - 1)
  }

  /** The backoff after `k` restart attempts from `backoff`. */
  ghost function BackoffAfter(backoff: int, maxBackoff: int, k: nat): int
  {
    if k == 0 then backoff else NextBackoff(BackoffAfter(backoff, maxBackoff, k - 1), maxBackoff)
  }

  /**
    After `k` attempts the backoff is the initial one doubled `k` times,
    capped: so attempt `k + 1` is gated by min(initial * 2^k, max).
   */
  lemma {:induction false} BackoffSchedule(initialBackoff: int, maxBackoff: int, k: nat)
    requires initialBackoff <= maxBackoff
    ensures BackoffAfter(initialBackoff, maxBackoff, k) == Min(initialBackoff * Pow2(k), maxBackoff)
  {
    if k > 0 {
      BackoffSchedule(initialBackoff, maxBackoff, k - 1);
      assert initialBackoff * Pow2(k) == 2 * (initialBackoff * Pow2(k - 1));
    }
  }

  /** With the initial backoff within [0, max], the schedule never leaves [initial, max] and never decreases. */
  lemma {:induction false} BackoffScheduleBounded(initialBackoff: int, maxBackoff: int, k: nat)
    requires 0 <= initialBackoff <= maxBackoff
    ensures initialBackoff <= BackoffAfter(initialBackoff, maxBackoff, k) <= maxBackoff
    ensures BackoffAfter(initialBackoff, maxBackoff, k) <= BackoffAfter(initialBackoff, maxBackoff, k + 1)
  {
    if k > 0 {
      BackoffScheduleBounded(initialBackoff, maxBackoff, k - 1);
    }
  }

  /** The same container visited at the given instants, one Visit per instant. */
  ghost function Revisit(p: Pass, c: Container, finishedAt: Option<int>, times: seq<int>,
                         initialBackoff: int, maxBackoff: int): Pass
    decreases |times|
  {
    if |times| == 0 then p
    else
      var n := |times| - 1;
      Visit(Revisit(p, c, finishedAt, times[..n], initialBackoff, maxBackoff),
            c, finishedAt, times[n], initialBackoff, maxBackoff)
  }

  /**
    Visiting one troubled container repeatedly from no entry: its entry's
    backoff is the schedule applied to the number of restarts issued so far,
    and each visit issues at most one restart.
   */
  lemma {:induction false} BackoffCountsAttempts(p: Pass, c: Container, finishedAt: int, times: seq<int>,
                                                 initialBackoff: int, maxBackoff: int)
    requires Classify(c) == NeedsRecovery && DisplayName(c) !in p.states && |times| > 0
    ensures var q := Revisit(p, c, Some(finishedAt), times, initialBackoff, maxBackoff);
            && |p.restarted| <= |q.restarted| <= |p.restarted| + |times|
            && DisplayName(c) in q.states
            && q.states[DisplayName(c)].backoff
               == BackoffAfter(initialBackoff, maxBackoff, |q.restarted| - |p.restarted|)
    decreases |times|
  {
    var n := |times| - 1;
    if n > 0 {
      BackoffCountsAttempts(p, c, finishedAt, times[..n], initialBackoff, maxBackoff);
    }
  }

  // ---------------------------------------------------------------- cleanup

  /** Cleanup only removes entries, so it keeps backoffs bounded. */
  lemma CleanupKeepsBounded(states: map<string, ContainerState>, healthy: seq<string>, now: int,
                            initialBackoff: int, maxBackoff: int)
    requires Bounded(states, initialBackoff, maxBackoff)
    ensures var r := CleanedStates(states, healthy, now, initialBackoff);
            Bounded(r, initialBackoff, maxBackoff) && r.Keys <= states.Keys
  {
  }

  /** Running cleanup a second time with the same names and instant removes nothing more. */
  lemma CleanupIdempotent(states: map<string, ContainerState>, healthy: seq<string>, now: int,
                          initialBackoff: int)
    ensures var r := CleanedStates(states, healthy, now, initialBackoff);
            CleanedStates(r, healthy, now, initialBackoff) == r
  {
  }

  // ---------------------------------------------------------------- notifier

  /** A labelled cycle while alerting, or a clean cycle while not alerting or still tracking: nothing is sent, the flag stays. */
  lemma NotifyQuiet(alerting: bool, tracked: nat, labels: seq<string>, delivered: bool)
    requires (|labels| > 0 && alerting) || (|labels| == 0 && (!alerting || tracked > 0))
    ensures Message(alerting, tracked, labels) == None
    ensures FlagAfter(alerting, tracked, labels, delivered) == alerting
  {
  }

  /** A clean cycle while alerting with an empty table sends the all-clear; the flag clears only if it was delivered. */
  lemma NotifyAllClear(tracked: nat, labels: seq<string>, delivered: bool)
    requires |labels| == 0 && tracked == 0
    ensures Message(true, tracked, labels) == Some(AllClearMessage)
    ensures FlagAfter(true, tracked, labels, delivered) == !delivered
  {
  }

  /**
    A labelled cycle while not alerting sends the alert listing every label,
    and the flag becomes true whether or not it was delivered.
   */
  lemma NotifyAlert(tracked: nat, labels: seq<string>, delivered: bool)
    requires |labels| > 0
    ensures Message(false, tracked, labels) == Some(AlertMessage(labels))
    ensures forall i :: 0 <= i < |labels| ==> Contains(AlertMessage(labels), labels[i])
    ensures FlagAfter(false, tracked, labels, delivered)
  {
    forall i | 0 <= i < |labels| ensures Contains(AlertMessage(labels), labels[i]) {
      AlertListsLabel(labels, i);
    }
  }

  /** The alert text contains each label. */
  lemma AlertListsLabel(labels: seq<string>, i: int)
    requires 0 <= i < |labels|
    ensures Contains(AlertMessage(labels), labels[i])
  {
    var header := ":rotating_light: Unhealthy services:\n    ";
    var body := Join(labels, "\n    ");
    var k := JoinOccurs(labels, "\n    ", i);
    assert (header + body)[|header| + k..|header| + k + |labels[i]|] == body[k..k + |labels[i]|];
    assert OccursAt(AlertMessage(labels), labels[i], |header| + k);
    ContainsIsOccurrence(AlertMessage(labels), labels[i]);
  }

  /**
    A failed alert leaves the flag set, so the next labelled cycle sends
    nothing: the episode is never reported.
   */
  lemma AlertFailureSilencesEpisode(tracked: nat, labels: seq<string>, tracked': nat, labels': seq<string>)
    requires |labels| > 0 && |labels'| > 0
    ensures Message(false, tracked, labels).Some?
    ensures FlagAfter(false, tracked, labels, false)
    ensures Message(FlagAfter(false, tracked, labels, false), tracked', labels') == None
  {
  }

  /** A failed all-clear keeps the flag, so the next clean cycle with an empty table sends it again. */
  lemma AllClearFailureRetries(tracked: nat, labels: seq<string>)
    requires |labels| == 0 && tracked == 0
    ensures Message(FlagAfter(true, tracked, labels, false), tracked, labels) == Some(AllClearMessage)
  {
  }

  /** One call of the notifier: the table size, the labels and whether a post would be delivered. */
  datatype Round = Round(tracked: nat, labels: seq<string>, delivered: bool)

  /** How many posts a run of rounds makes, starting from flag `alerting`. */
  ghost function Posts(alerting: bool, rounds: seq<Round>): nat
    decreases |rounds|
  {
    if |rounds| == 0 then 0
    else
      var r := rounds[0];
      (if Message(alerting, r.tracked, r.labels).Some? then 1 else 0)
      + Posts(FlagAfter(alerting, r.tracked, r.labels, r.delivered), rounds[1..])
  }

  /** How many of those posts are delivered. */
  ghost function Deliveries(alerting: bool, rounds: seq<Round>): nat
    decreases |rounds|
  {
    if |rounds| == 0 then 0
    else
      var r := rounds[0];
      (if Message(alerting, r.tracked, r.labels).Some? && r.delivered then 1 else 0)
      + Deliveries(FlagAfter(alerting, r.tracked, r.labels, r.delivered), rounds[1..])
  }

  /**
    Through a failure episode (every cycle either has labels or still finds
    the table non-empty, as the backoff-skipped cycles between restarts do)
    at most one message is posted, and none if already alerting.
   */
  lemma {:induction false} OneAlertPerEpisode(alerting: bool, rounds: seq<Round>)
    requires forall j :: 0 <= j < |rounds| ==> |rounds[j].labels| > 0 || rounds[j].tracked > 0
    ensures Posts(alerting, rounds) <= (if alerting then 0 else 1)
    decreases |rounds|
  {
    if |rounds| > 0 {
      var r := rounds[0];
      OneAlertPerEpisode(FlagAfter(alerting, r.tracked, r.labels, r.delivered), rounds[1..]);
    }
  }

  /**
    Through a run of clean cycles nothing is posted unless alerting, and at
    most one all-clear is delivered.
   */
  lemma {:induction false} OneAllClearPerRecovery(alerting: bool, rounds: seq<Round>)
    requires forall j :: 0 <= j < |rounds| ==> |rounds[j].labels| == 0
    ensures !alerting ==> Posts(alerting, rounds) == 0
    ensures Deliveries(alerting, rounds) <= (if alerting then 1 else 0)
    decreases |rounds|
  {
    if |rounds| > 0 {
      var r := rounds[0];
      OneAllClearPerRecovery(FlagAfter(alerting, r.tracked, r.labels, r.delivered), rounds[1..]);
    }
  }

  // ---------------------------------------------------------------- one cycle

  /** With the kill switch on or a failed listing, the cycle does nothing. */
  lemma CycleHalts(cfg: Settings, states: map<string, ContainerState>, alerting: bool,
                   lockFileExists: bool, listing: Option<seq<Container>>,
                   inspect: seq<Option<int>>, delivered: bool, now: int)
    requires (cfg.lockFile != "" && lockFileExists) || listing.None?
    requires listing.Some? ==> |inspect| == |listing.value|
    ensures Cycle(cfg, states, alerting, lockFileExists, listing, inspect, delivered, now)
            == Outcome(states, alerting, [], None)
  {
  }

  /** Without a webhook URL the flag never changes and nothing is posted. */
  lemma CycleWithoutWebhook(cfg: Settings, states: map<string, ContainerState>, alerting: bool,
                            lockFileExists: bool, listing: Option<seq<Container>>,
                            inspect: seq<Option<int>>, delivered: bool, now: int)
    requires cfg.webhookUrl == ""
    requires listing.Some? ==> |inspect| == |listing.value|
    ensures var r := Cycle(cfg, states, alerting, lockFileExists, listing, inspect, delivered, now);
            r.alerting == alerting && r.posted == None
  {
  }

  /**
    With the initial backoff within [0, max], a cycle keeps every backoff in
    [initial, max], and an entry that survives it has not had its backoff lowered.
   */
  lemma CycleBackoff(cfg: Settings, states: map<string, ContainerState>, alerting: bool,
                     lockFileExists: bool, listing: Option<seq<Container>>,
                     inspect: seq<Option<int>>, delivered: bool, now: int)
    requires listing.Some? ==> |inspect| == |listing.value|
    requires 0 <= cfg.initialBackoff <= cfg.maxBackoff
    requires Bounded(states, cfg.initialBackoff, cfg.maxBackoff)
    ensures var r := Cycle(cfg, states, alerting, lockFileExists, listing, inspect, delivered, now);
            && Bounded(r.states, cfg.initialBackoff, cfg.maxBackoff)
            && forall cn :: cn in states && cn in r.states ==> states[cn].backoff <= r.states[cn].backoff
  {
    if !Halted(cfg, lockFileExists, listing) {
      var p := Sweep(states, listing.value, inspect, now, cfg.initialBackoff, cfg.maxBackoff);
      SweepBackoff(states, listing.value, inspect, now, cfg.initialBackoff, cfg.maxBackoff);
      CleanupKeepsBounded(p.states, p.healthy, now, cfg.initialBackoff, cfg.maxBackoff);
    }
  }

  /**
    A tracked container that is listed only as healthy keeps its entry
    unchanged while no more than the initial backoff has passed since its last
    attempt, and loses it once strictly more has.
   */
  lemma CycleForgetsRecovered(cfg: Settings, states: map<string, ContainerState>, alerting: bool,
                              lockFileExists: bool, snapshot: seq<Container>,
                              inspect: seq<Option<int>>, delivered: bool, now: int, i: int)
    requires |inspect| == |snapshot|
    requires !(cfg.lockFile != "" && lockFileExists)
    requires 0 <= i < |snapshot| && Classify(snapshot[i]) == Healthy
    requires DisplayName(snapshot[i]) in states && !Troubled(snapshot, DisplayName(snapshot[i]))
    ensures var cn := DisplayName(snapshot[i]);
            var r := Cycle(cfg, states, alerting, lockFileExists, Some(snapshot), inspect, delivered, now);
            && (cn in r.states <==> now - states[cn].lastAttempt <= cfg.initialBackoff)
            && (cn in r.states ==> r.states[cn] == states[cn])
  {
    SweepFrame(states, snapshot, inspect, now, cfg.initialBackoff, cfg.maxBackoff);
    SweepHealthy(states, snapshot, inspect, now, cfg.initialBackoff, cfg.maxBackoff);
  }
}

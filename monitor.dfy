/**
  The long-lived controller (Go's `DockerAutoHeal`): its configuration, the
  backoff table and the alerting flag, and the three methods that run a cycle.
  Every fact from outside (the lock file, the container list, inspect results,
  webhook delivery) is an argument.
 */
module Monitor {
  import opened Wrappers
  import opened AutoHeal
  import HealProperties

  class DockerAutoHeal {
    const lockFile: string
    const webhookUrl: string
    const webhookKey: string
    const initialBackoff: int
    const maxBackoff: int
    var containerStates: map<string, ContainerState>
    var webhookLock: bool

    ghost function Config(): Settings
    {
      Settings(lockFile, webhookUrl, webhookKey, initialBackoff, maxBackoff)
    }

    /** A fresh controller: an empty table and the flag cleared, as `main` builds it. */
    constructor (lockFile: string, webhookUrl: string, webhookKey: string,
                 initialBackoff: int, maxBackoff: int)
      ensures Config() == Settings(lockFile, webhookUrl, webhookKey, initialBackoff, maxBackoff)
      ensures containerStates == map[] && !webhookLock
    {
      this.lockFile := lockFile;
      this.webhookUrl := webhookUrl;
      this.webhookKey := webhookKey;
      this.initialBackoff := initialBackoff;
      this.maxBackoff := maxBackoff;
      containerStates := map[];
      webhookLock := false;
    }

    /**
      One health-check cycle. Returns the ids the restart call was issued for,
      in list order, and the payload posted to the webhook, if any.
     */
    method CheckHealth(lockFileExists: bool, listing: Option<seq<Container>>,
                       inspect: seq<Option<int>>, delivered: bool, now: int)
      returns (restarted: seq<string>, posted: Option<Payload>)
      requires listing.Some? ==> |inspect| == |listing.value|
      modifies this
      ensures var r := Cycle(Config(), old(containerStates), old(webhookLock),
                             lockFileExists, listing, inspect, delivered, now);
              containerStates == r.states && webhookLock == r.alerting
              && restarted == r.restarted && posted == r.posted
      ensures 0 <= initialBackoff <= maxBackoff && Bounded(old(containerStates), initialBackoff, maxBackoff)
              ==> Bounded(containerStates, initialBackoff, maxBackoff)
    {
      restarted, posted := [], None;
      if lockFile != "" && lockFileExists {
        return;
      }
      if listing.None? {
        return;
      }
      var healthyContainers, unhealthyContainers;
      healthyContainers, unhealthyContainers, restarted := ScanContainers(listing.value, inspect, now);
      CleanupContainerStates(healthyContainers, now);
      if webhookUrl != "" {
        var lockedPreWebhook := webhookLock;
        var failed;
        failed, posted := TriggerWebhook(unhealthyContainers, delivered);
        if failed && lockedPreWebhook {
          webhookLock := true;
        }
      }
      assert 0 <= initialBackoff <= maxBackoff && Bounded(old(containerStates), initialBackoff, maxBackoff)
             ==> Bounded(containerStates, initialBackoff, maxBackoff) by {
        if 0 <= initialBackoff <= maxBackoff && Bounded(old(containerStates), initialBackoff, maxBackoff) {
          HealProperties.CycleBackoff(Config(), old(containerStates), old(webhookLock),
                                      lockFileExists, listing, inspect, delivered, now);
        }
      }
    }

    /**
      The loop of checkHealth over the container list: classifies each
      container, creates missing entries, applies the backoff test and
      restarts. Returns the healthy names, the labels of restarted containers
      and the ids restarted.
     */
    method ScanContainers(cl: seq<Container>, inspect: seq<Option<int>>, now: int)
      returns (healthyContainers: seq<string>, unhealthyContainers: seq<string>, restarted: seq<string>)
      requires |inspect| == |cl|
      modifies this`containerStates
      ensures Sweep(old(containerStates), cl, inspect, now, initialBackoff, maxBackoff)
              == Pass(containerStates, healthyContainers, unhealthyContainers, restarted)
    {
      healthyContainers, unhealthyContainers, restarted := [], [], [];
      var i := 0;
      while i < |cl|
        invariant 0 <= i <= |cl|
        invariant Sweep(old(containerStates), cl[..i], inspect[..i], now, initialBackoff, maxBackoff)
                  == Pass(containerStates, healthyContainers, unhealthyContainers, restarted)
      {
        assert cl[..i + 1][..i] == cl[..i] && inspect[..i + 1][..i] == inspect[..i];
        var c := cl[i];
        var cn := DisplayName(c);
        var verdict := Classify(c);
        if verdict == Healthy {
          healthyContainers := healthyContainers + [cn];
        } else if verdict == NeedsRecovery {
          var known := cn in containerStates;
          if known || inspect[i].Some? {
            if !known {
              containerStates := containerStates[cn := ContainerState(initialBackoff, inspect[i].value)];
            }
            var state := containerStates[cn];
            if now - state.lastAttempt >= state.backoff {
              restarted := restarted + [c.id];
              containerStates := containerStates[cn := ContainerState(Min(state.backoff * 2, maxBackoff), now)];
              unhealthyContainers := unhealthyContainers + [Label(c)];
            }
          }
        }
        i := i + 1;
      }
      assert cl[..i] == cl && inspect[..i] == inspect;
    }

    /** Forgets the entries of containers seen healthy whose grace period is over. */
    method CleanupContainerStates(healthyContainers: seq<string>, now: int)
      modifies this`containerStates
      ensures containerStates == CleanedStates(old(containerStates), healthyContainers, now, initialBackoff)
    {
      var i := 0;
      while i < |healthyContainers|
        invariant 0 <= i <= |healthyContainers|
        invariant containerStates
                  == CleanedStates(old(containerStates), healthyContainers[..i], now, initialBackoff)
      {
        var cn := healthyContainers[i];
        assert healthyContainers[..i + 1] == healthyContainers[..i] + [cn];
        if cn in containerStates && now - containerStates[cn].lastAttempt > initialBackoff {
          containerStates := containerStates - {cn};
        }
        i := i + 1;
      }
      assert healthyContainers[..i] == healthyContainers;
    }

    /**
      Decides whether to post an alert or an all-clear, updates the flag
      before posting, and reports whether a post was attempted and failed.
     */
    method TriggerWebhook(labels: seq<string>, delivered: bool) returns (failed: bool, posted: Option<Payload>)
      modifies this`webhookLock
      ensures var m := Message(old(webhookLock), |containerStates|, labels);
              posted == (if m.Some? then Some(Payload(webhookKey, m.value)) else None)
      ensures webhookLock == if posted.Some? then |labels| > 0 else old(webhookLock)
      ensures failed <==> posted.Some? && !delivered
    {
      var webhookMessage := AllClearMessage;
      if |labels| == 0 {
        if !webhookLock || |containerStates| > 0 {
          return false, None;
        }
        webhookLock := false;
      } else if webhookLock {
        return false, None;
      } else {
        webhookLock := true;
        webhookMessage := AlertMessage(labels);
      }
      posted := Some(Payload(webhookKey, webhookMessage));
      failed := !delivered;
    }
  }
}

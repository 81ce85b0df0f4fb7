/**
  A worked run of five cycles: container "web" turns unhealthy, is restarted
  twice with the backoff doubling in between, turns healthy, and is forgotten
  once the initial backoff has passed; one alert and one all-clear are posted.
  Initial backoff 10, maximum 300, every post delivered.
 */
module Scenario {
  import opened Wrappers
  import opened Text
  import opened AutoHeal

  const Cfg: Settings := Settings("", "http://hooks.example/alerts", "text", 10, 300)

  function Web(status: string): Container
  {
    Container("c1", ["/web"], "running", status)
  }

  lemma WebFacts()
    ensures DisplayName(Web("unhealthy")) == "/web" && DisplayName(Web("healthy")) == "/web"
    ensures Classify(Web("unhealthy")) == NeedsRecovery
    ensures Classify(Web("healthy")) == Healthy
    ensures Label(Web("unhealthy")) == "/web (unhealthy)"
  {
    assert !Contains("ealthy", "unhealthy");
  }

  /** One cycle over the one-container list [c]: the loop is a single Visit. */
  lemma SingleSweep(states: map<string, ContainerState>, c: Container, f: Option<int>, now: int)
    ensures Sweep(states, [c], [f], now, Cfg.initialBackoff, Cfg.maxBackoff)
            == Visit(Pass(states, [], [], []), c, f, now, Cfg.initialBackoff, Cfg.maxBackoff)
  {
    assert [c][..0] == [] && [f][..0] == [];
  }

  /** t = 100: first sighting, finished at 0; restarted at once, alert posted. */
  lemma FirstSighting()
    ensures Cycle(Cfg, map[], false, false, Some([Web("unhealthy")]), [Some(0)], true, 100)
            == Outcome(map["/web" := ContainerState(20, 100)], true, ["c1"],
                       Some(Payload("text", AlertMessage(["/web (unhealthy)"]))))
  {
    WebFacts();
    var m' := map["/web" := ContainerState(20, 100)];
    SingleSweep(map[], Web("unhealthy"), Some(0), 100);
    assert Sweep(map[], [Web("unhealthy")], [Some(0)], 100, 10, 300) == Pass(m', [], ["/web (unhealthy)"], ["c1"]);
    assert CleanedStates(m', [], 100, 10) == m';
  }

  /** t = 110: only 10 of the 20 backoff has passed; skipped, nothing posted while alerting. */
  lemma BackedOff()
    ensures Cycle(Cfg, map["/web" := ContainerState(20, 100)], true, false,
                  Some([Web("unhealthy")]), [None], true, 110)
            == Outcome(map["/web" := ContainerState(20, 100)], true, [], None)
  {
    WebFacts();
    var m := map["/web" := ContainerState(20, 100)];
    SingleSweep(m, Web("unhealthy"), None, 110);
    assert Sweep(m, [Web("unhealthy")], [None], 110, 10, 300) == Pass(m, [], [], []);
    assert CleanedStates(m, [], 110, 10) == m;
  }

  /** t = 120: the backoff has passed; second restart, backoff doubles to 40, no second alert. */
  lemma SecondRestart()
    ensures Cycle(Cfg, map["/web" := ContainerState(20, 100)], true, false,
                  Some([Web("unhealthy")]), [None], true, 120)
            == Outcome(map["/web" := ContainerState(40, 120)], true, ["c1"], None)
  {
    WebFacts();
    var m := map["/web" := ContainerState(20, 100)];
    var m' := map["/web" := ContainerState(40, 120)];
    SingleSweep(m, Web("unhealthy"), None, 120);
    assert Sweep(m, [Web("unhealthy")], [None], 120, 10, 300) == Pass(m', [], ["/web (unhealthy)"], ["c1"]);
    assert CleanedStates(m', [], 120, 10) == m';
  }

  /** t = 130: healthy, but exactly the initial backoff since the last attempt; kept, no all-clear. */
  lemma StillInGrace()
    ensures Cycle(Cfg, map["/web" := ContainerState(40, 120)], true, false,
                  Some([Web("healthy")]), [None], true, 130)
            == Outcome(map["/web" := ContainerState(40, 120)], true, [], None)
  {
    WebFacts();
    var m := map["/web" := ContainerState(40, 120)];
    SingleSweep(m, Web("healthy"), None, 130);
    assert Sweep(m, [Web("healthy")], [None], 130, 10, 300) == Pass(m, ["/web"], [], []);
    assert CleanedStates(m, ["/web"], 130, 10) == m;
    assert Message(true, |m|, []) == None;
  }

  /** t = 131: healthy past the grace period; forgotten, all-clear posted, flag cleared. */
  lemma Forgotten()
    ensures Cycle(Cfg, map["/web" := ContainerState(40, 120)], true, false,
                  Some([Web("healthy")]), [None], true, 131)
            == Outcome(map[], false, [], Some(Payload("text", AllClearMessage)))
  {
    WebFacts();
    var m := map["/web" := ContainerState(40, 120)];
    SingleSweep(m, Web("healthy"), None, 131);
    assert Sweep(m, [Web("healthy")], [None], 131, 10, 300) == Pass(m, ["/web"], [], []);
    assert CleanedStates(m, ["/web"], 131, 10) == map[];
  }
}

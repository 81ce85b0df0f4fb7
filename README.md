# docker-autoheal controller, in Dafny

docker-autoheal polls the Docker daemon, restarts containers that are
unhealthy, exited or dead, and throttles the restarts with an exponential
backoff per container. It posts one webhook alert when trouble starts and one
"all is well" message when every troubled container has been forgotten again.
This project models that controller from `main.go`. The model has three layers:

- `autoheal.dfy` (module `AutoHeal`) is the specification, written as values.
  It holds the backoff-table entry `ContainerState`, the listed `Container`, and
  the three-way `Classify`. `Visit` is one turn of the loop in `checkHealth`,
  and `Sweep` is the whole loop. `CleanedStates` is the table after
  `cleanupContainerStates`. `Message` and `FlagAfter` are the notifier's
  decision and its flag handling. `Cycle` is one full call of `checkHealth`.
- `monitor.dfy` (module `Monitor`) has the class `DockerAutoHeal`. It has the
  Go struct's configuration fields, the mutable `containerStates` map and the
  `webhookLock` flag. Its methods `CheckHealth`, `CleanupContainerStates` and
  `TriggerWebhook` update that state in loops and branches, as the Go code
  does; the loop over the container list in `checkHealth` is the method
  `ScanContainers`. Each method is proved equal to the specification function above.
- `properties.dfy` (module `HealProperties`) proves what the controller
  promises:
  - the classification rule;
  - what each kind of container does to the table;
  - that the labels are exactly the restarted containers, in list order;
  - that backoffs stay bounded and never decrease;
  - the closed form of the backoff schedule;
  - what cleanup removes and what it keeps;
  - the notifier's transitions and de-duplication over runs of cycles.
- `scenario.dfy` steps through a five-cycle run of one container.
- `text.dfy` models Go's `strings.Contains` and `strings.Join`.
- `wrappers.dfy` holds `Option`.

Times and durations are unbounded integers: Go's `time.Duration` in
nanoseconds, and a `time.Time` read as one number. A cycle uses one instant,
`now`. Every outside fact is an argument of `CheckHealth`:

- whether the lock file exists;
- the container list, with `None` when listing failed;
- the finish time for each listed container, with `None` when inspect or
  timestamp parsing failed;
- whether a webhook POST would be delivered.

`CheckHealth` returns two things: the ids it issued restarts for, in order, and
the payload it posted, as a pair of key and message.

Three points where the code behaves in ways a reader might not expect:

- A failed alert post leaves `webhookLock` true. `triggerWebhook` sets it
  before sending, and `checkHealth` only restores it when it was already true;
  the comment at main.go:159-163 speaks only of the all-clear. So later cycles
  with failures send nothing until an all-clear
  (`AlertFailureSilencesEpisode`).
- A new table entry is seeded from the inspected FinishedAt time for every
  troubled container, a running-but-unhealthy one included, not only for
  exited or dead ones.
- The table is keyed by the container's names joined with a space, not by its
  id.

## Model

| member | source | states |
|---|---|---|
| `AutoHeal.Classify` | main.go:103-112 | running without "unhealthy" in the status is healthy; running with it, exited or dead needs recovery; any other state is ignored (proved as `ClassifyRule`) |
| `AutoHeal.DisplayName` | main.go:102 | the table key is the container's names joined by a space |
| `AutoHeal.Label` | main.go:150 | the label is "<names> (<status>)" |
| `AutoHeal.AlertMessage` | main.go:192-193 | the alert is the header line followed by one line per label, each indented by four spaces (each label occurs in it: `AlertListsLabel`) |
| `AutoHeal.Visit` | main.go:101-151 | one turn of the loop: classify, create a missing entry from the finish time, test the backoff, restart and advance the backoff (properties in the `Visit*` lemmas) |
| `AutoHeal.Sweep` | main.go:99-152 | the whole loop, one Visit per container in list order (properties in the `Sweep*` lemmas) |
| `AutoHeal.CleanedStates` | main.go:224-233 | the table keeps exactly the entries not both listed healthy and older than the initial backoff, with their values |
| `AutoHeal.Message` | main.go:171-194 | the all-clear when there are no labels, the flag is set and the table is empty; the alert when there are labels and the flag is clear; nothing otherwise |
| `AutoHeal.FlagAfter` | main.go:156-191 | the flag triggerWebhook leaves (cleared before an all-clear, set before an alert), restored to true when a post failed while it had been true |
| `AutoHeal.Cycle` | main.go:83-169 | one call of checkHealth: halt on the kill switch or a list error, else loop, clean up and notify when a URL is set |
| `Text.Contains` | main.go:106 | strings.Contains: a true result implies the needle is no longer than the string (equivalence with the substring definition: `ContainsIsOccurrence`) |
| `Text.Join` | main.go:102 | strings.Join: the parts in order with the separator between neighbours (each part occurs in it: `JoinContainsEach`) |
| `AutoHeal.Min` | main.go:235-240 | the result is no larger than either argument and equals one of them |
| `AutoHeal.NextBackoff` | main.go:147 | the next backoff is at most the maximum and at most double the old one, and equals one of them (so it is min(2*backoff, max)); it is not below the old one when the old one is in [0, max] |
| `Text.ContainsIsOccurrence` | main.go:106 | the substring test used by classification holds exactly when the needle occurs at some offset (both directions) |
| `Text.JoinContainsEach` | main.go:102 | every name (and every label) can be found in the joined string |
| `HealProperties.ClassifyRule` | main.go:101-112 | healthy iff running and the status does not contain "unhealthy"; needs recovery iff running with "unhealthy", exited or dead; ignored iff any other state |
| `HealProperties.VisitNotTroubled` | main.go:103-112 | a healthy or ignored container changes neither the table nor the labels nor the restarts; only a healthy one joins the healthy list |
| `HealProperties.VisitUninspectable` | main.go:116-127 | a troubled container with no entry whose inspect or timestamp parse fails produces no entry, no restart and no label |
| `HealProperties.VisitNewEntry` | main.go:116-151 | a new troubled container gets an entry with the initial backoff and its finish time; it is restarted at once (entry becomes next backoff, now) exactly when the initial backoff has passed since it finished; other entries are untouched |
| `HealProperties.VisitBackoffSkip` | main.go:136-139 | when now - lastAttempt < backoff the container is skipped with no change at all |
| `HealProperties.VisitRestart` | main.go:141-151 | an eligible known container gets entry (min(2*backoff, max), now) whatever the restart's outcome; its label and id are appended; nothing else changes |
| `HealProperties.VisitAppends` | main.go:136-151 | a label and an id are appended exactly when the container is eligible, and nothing is appended otherwise |
| `HealProperties.SweepOrder` | main.go:99-152 | the labels and the restarted ids are "<names> (<status>)" and the id of the eligible containers, one per restart, in list order, and a container is among them iff it was eligible when the loop reached it |
| `HealProperties.SweepBackoff` | main.go:116-148 | with 0 <= initial <= max, a cycle's loop keeps every backoff in [initial, max], drops no entry, and lowers no backoff |
| `HealProperties.SweepFrame` | main.go:101-152 | entries whose name belongs to no troubled container of the list are kept as they were; every new entry belongs to a troubled container whose finish time was available |
| `HealProperties.SweepHealthy` | main.go:100-108 | the healthy list holds exactly the names of the healthy containers of the list |
| `HealProperties.BackoffSchedule` | main.go:147-148 | after k attempts the backoff is min(initial * 2^k, max), so attempt k+1 is gated by that value |
| `HealProperties.BackoffScheduleBounded` | main.go:129-147 | with 0 <= initial <= max the schedule stays in [initial, max] and never decreases |
| `HealProperties.BackoffCountsAttempts` | main.go:116-148 | visiting one troubled container repeatedly, its entry's backoff is always the schedule applied to the number of restarts issued so far, at most one per visit |
| `HealProperties.CleanupKeepsBounded` | main.go:224-233 | cleanup only removes entries, so bounded backoffs stay bounded |
| `HealProperties.CleanupIdempotent` | main.go:224-233 | a second cleanup with the same names and instant removes nothing more |
| `HealProperties.NotifyQuiet` | main.go:174-189 | no message and no flag change for a labelled cycle while alerting, or a clean cycle while not alerting or while the table is not empty |
| `HealProperties.NotifyAllClear` | main.go:155-181 | a clean cycle while alerting with an empty table posts the all-clear; the flag ends false if delivered and is restored to true if not |
| `HealProperties.NotifyAlert` | main.go:190-193 | a labelled cycle while not alerting posts the alert, which contains every label, and the flag ends true whether or not it was delivered |
| `HealProperties.AlertListsLabel` | main.go:192-193 | the alert text contains each label |
| `HealProperties.AlertFailureSilencesEpisode` | main.go:155-191 | after an alert that failed to deliver, the next labelled cycle posts nothing |
| `HealProperties.AllClearFailureRetries` | main.go:156-167 | after an all-clear that failed to deliver, the next clean cycle with an empty table posts it again |
| `HealProperties.OneAlertPerEpisode` | main.go:174-193 | over any run of cycles that each have labels or still find the table non-empty (a failure episode, backoff-skipped cycles included) at most one message is posted, and none when already alerting |
| `HealProperties.OneAllClearPerRecovery` | main.go:172-181 | over any run of clean cycles nothing is posted unless alerting, and at most one all-clear is delivered |
| `HealProperties.CycleHalts` | main.go:84-97 | with the lock file configured and present, or a failed listing, the table and the flag are unchanged and nothing is restarted or posted |
| `HealProperties.CycleWithoutWebhook` | main.go:155-168 | with no webhook URL the flag never changes and nothing is posted |
| `HealProperties.CycleBackoff` | main.go:83-169 | with 0 <= initial <= max a whole cycle keeps backoffs in [initial, max], and no surviving entry has its backoff lowered |
| `HealProperties.CycleForgetsRecovered` | main.go:224-233 | a tracked container listed only as healthy keeps its entry unchanged while now - lastAttempt <= initial, and loses it once that is strictly greater |
| `Monitor.DockerAutoHeal.constructor` | main.go:45-49 | the controller starts with an empty table and the flag cleared |
| `Monitor.DockerAutoHeal.CheckHealth` | main.go:83-169 | the new table, the new flag, the restarted ids and the posted payload are exactly those of `Cycle` on the old state and the inputs; with 0 <= initial <= max it keeps every backoff in [initial, max] |
| `Monitor.DockerAutoHeal.ScanContainers` | main.go:99-152 | the loop over the list leaves the table, the healthy names, the labels and the restarted ids that `Sweep` specifies |
| `Monitor.DockerAutoHeal.CleanupContainerStates` | main.go:224-233 | the loop of deletions leaves exactly the entries not both listed healthy and older than the initial backoff, with their values unchanged |
| `Monitor.DockerAutoHeal.TriggerWebhook` | main.go:171-194 | the payload posted is `(webhookKey, Message(...))` when there is a message; the flag becomes "labels non-empty" when posting and is unchanged otherwise; it reports failure iff a post was made and not delivered |
| `Scenario.FirstSighting` | main.go:116-151 | a newly unhealthy container finished at 0 is restarted at 100, its backoff becomes 20, and the alert is posted |
| `Scenario.BackedOff` | main.go:136-139 | at 110 the 20-unit backoff has not passed: nothing is restarted or posted |
| `Scenario.SecondRestart` | main.go:141-148 | at 120 it is restarted again and the backoff doubles to 40; no second alert |
| `Scenario.StillInGrace` | main.go:224-233 | healthy at 130, exactly the initial backoff after the last attempt: the entry stays and no all-clear is posted |
| `Scenario.Forgotten` | main.go:172-181 | healthy at 131: the entry is removed and the all-clear is posted, clearing the flag |

## Left out

- `main`: flag parsing and Docker client construction (main.go:38-59). This is configuration. The constructor takes the parsed values.
- `serve`: the ticker and signal loop (main.go:61-81). This is channel and OS-signal handling. Repeated calls of `CheckHealth` stand for it.
- `ContainerList`, `ContainerInspect` and `ContainerRestart` are calls into the Docker daemon. Their results are arguments.
  - The restart result only affects logging, so it is not an input at all.
  - The model keeps the order of the restart calls as the returned ids.
- `time.Parse` of the RFC 3339 FinishedAt text: the parsed instant, or its absence, is an argument.
- `os.Stat` of the lock file is a boolean argument.
- JSON marshalling, building the HTTP request, the POST and the status check (main.go:195-220). All their failures collapse into one `delivered` argument. The JSON object is modelled as a `Payload(key, message)` pair.
- `slog` logging has no effect on behaviour.
- `NextBackoff`: Go's 64-bit `time.Duration` arithmetic is not modelled. That covers the overflow of `Backoff*2` and the saturation of `time.Since` for very old instants. Integers are unbounded.
- `time.Since` and `time.Now` are read several times per cycle in Go. The model reads them once, as `now`.
- actions.go is not part of this model: its actions are stubs and `main.go` never calls them.
- ci/webhook.py is not part of this model: it is a test HTTP receiver.

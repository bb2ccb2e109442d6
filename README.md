# Intersection controller and decision worker, modelled in Dafny

This project models the decision logic of a four-arm traffic intersection that
is driven by messages on a publish/subscribe bus.

- **The controller** (`Main/brain.py`) keeps these globals:
  - a vehicle count per arm;
  - the active arm and its signal colour;
  - the flags `is_cycling`, `emergency_active` and `is_dangerous`;
  - the operator's `manual_limit`.
- **Its dispatcher** (`on_message`) handles five topics:
  - `road/in` and `road/out` move North's queue up and down;
  - `city/status` with `cycle_complete` starts the cycling task;
  - `city/settings` changes the governor settings;
  - `v2i/ambulance/gps` sets or clears the emergency.
- **The cycling task** gives the secondary arms East, South and West a green
  and then a yellow, in that order. It skips an arm with no vehicles and stops
  when the emergency flag is set. After that, control goes back to North.
- **The speed governor** publishes a PWM level. The level comes from North's
  queue tier, the danger flag overrides it, and the manual limit caps it.
- **The decision worker** (`Main/decision_worker_sumo.py`) maps each sensor
  report to one decision. Its rules are emergency, heavy congestion, moderate
  congestion and normal.

## How the model is organised

- `wrappers.dfy` — `Option`, for a JSON key that may be missing.
- `timing.dfy` (module `GreenTiming`) — the green duration
  `max(3, min(q*2.5+3, 15))`, computed exactly over the reals, and the
  whole-second value that is published.
- `governor.dfy` (module `Governor`) — the PWM tiers and the `min` with the
  manual limit.
- `intersection.dfy` (module `Intersection`) — the data model and the controller
  as values:
  - the state is a value `Ctl`;
  - a `World` is a `Ctl` plus the ordered log of everything published and the
    audit trail;
  - each handler is a function from the world before it to the world after it.
- `intersection_props.dfy` (module `IntersectionProps`) — lemmas about those
  functions:
  - the cycling order, the skipping of empty arms, and how cycling stops and ends;
  - the effect of each message kind;
  - invariants of every run of messages from start-up.
- `brain.dfy` (module `Brain`) — the controller as the program runs it:
  - one `Controller` object holds the globals as fields;
  - the publish log and the audit trail are ghost fields;
  - each handler is a method that updates the fields in place;
  - each branch of `on_message` is a method of its own, and the dispatcher matches on the topic;
  - the cycling loop is a `for` loop with `break` and `continue`.

  Every message runs to completion before the next, so a cycle started by a
  message ends inside that message. The class does not model the program's
  cycling thread running alongside the handler.

  Every method except `LogEvent` is proved to end in exactly the world that
  the corresponding function of module `Intersection` computes. `LogEvent`
  has no such function: it is proved to append exactly one audit row. The `on_message` branch methods
  correspond to `OnMessage` for their topic, `CycleSecondaryArms` to
  `CycleLoop` and `ReadEmergencyFlag` to `Checkpoint`. So the lemmas of
  `IntersectionProps` hold for the object too.
- `decision_worker.dfy` (module `DecisionWorker`) — the rule table as a pure
  function, and `on_message` as a function that returns the published
  decisions and the audit rows. Its `Undecodable` message covers every
  payload whose handling raises before anything is published: one that does
  not decode or parse, and one that parses to a non-object such as `[]`,
  which fails at `data.get` (`Main/decision_worker_sumo.py:40`). The
  exception handler at lines 58-59 drops both.

### Inputs the source takes from its environment

- **Inbound messages** are values of `Intersection.Event`:
  - `Undecodable` is a payload that the one `try` around `msg.payload.decode()`
    and `json.loads` rejects (`Main/brain.py:118-119`): bytes that are not
    valid text as well as text that is not JSON;
  - every other alternative is one topic, with the payload keys the handler
    reads, each as an `Option`.
- **The emergency flag inside the cycling task.** In the source, the task runs
  on its own thread, and the message handler can set
  `emergency_active` while the task sleeps. The model runs the task
  synchronously. It is given a sequence `readings`, and each evaluation of
  `if emergency_active` in the loop takes the next value. When the sequence
  runs out, the flag keeps its value. The final `not emergency_active` test
  reads the flag as the last check left it.
- **Outbound data:**
  - `client.publish` appends a `Publish` value to the publish log. That value
    is a signal command, a governor command or a dashboard snapshot.
  - `log_event` appends an `AuditRow` of action label and payload.

### Behaviour worth knowing

- **No latch.** `cycle_complete` does not test `is_cycling`
  (`Main/brain.py:137`). It requires only that North is the active arm and no
  emergency is set, so a completion that arrives then runs another cycle, even
  when one has just run.
  `CycleCompleteIgnoresLatch` proves that the result does not depend on the
  flag.
- **`trigger_north` sets `is_cycling`.** It sets the flag whenever it grants
  North a green (`Main/brain.py:45`). In the model, where a cycle runs to
  completion inside its message, after a message the flag is only ever left
  set by a North green (`Settled`).
- **An emergency abort ends with North red.** When an emergency cuts cycling
  short, the exit path still sets North red while the flag stays set
  (`Main/brain.py:79-82`). The state "emergency active, North red" is
  reachable, and `EmergencyDuringSouthGreen` shows it.
- **The published duration is truncated to whole seconds.** It is `int(dur)`. The
  cycling task sleeps for the untruncated `dur` (10.5 s for 3 vehicles), which
  is never published.
- **The manual limit is not range-checked.** It is used as given
  (`Main/brain.py:145`).

## Model

| member | source | states |
|---|---|---|
| GreenTiming.GreenDuration | Main/brain.py:46 | green duration lies in [MIN_GREEN, MAX_GREEN] = [3, 15]; it is exactly q*2.5+3 up to 4 vehicles and saturates at 15 from 5 vehicles on |
| GreenTiming.GreenSeconds | Main/brain.py:48 | the published `int(dur)` also lies in [3, 15] |
| GreenTiming.GreenDurationMonotone | Main/brain.py:46 | a longer queue never earns a shorter green, neither as a real duration nor as published seconds |
| GreenTiming.GreenSecondsClosedForm | Main/brain.py:46-48 | published seconds in integer arithmetic: (5q+6)/2 below 5 vehicles (3, 5, 8, 10, 13), 15 from 5 on |
| Governor.BasePwm | Main/brain.py:103-106 | the tier level is 0 exactly for an empty queue, 255 exactly for 1-2 vehicles, 180 exactly for 3-5 and 120 exactly above 5 |
| Governor.Pwm | Main/brain.py:108-110 | output never exceeds the manual limit, never exceeds 90 while dangerous, and is the smaller of the manual limit and the (danger-overridden) base |
| Governor.BasePwmAntitone | Main/brain.py:103-106 | once North has demand, more vehicles never raise the tier level |
| Governor.PwmAtMost255 | Main/brain.py:102-110 | the output never exceeds 255, whatever the settings |
| Governor.PwmUncapped | Main/brain.py:110 | a manual limit of 255 or more leaves the base level unchanged |
| Intersection.Initial | Main/brain.py:14-22 | start-up: North active and red, all flags clear, manual limit 255, nothing published or audited |
| Intersection.Broadcast | Main/brain.py:33-36 | a broadcast appends exactly one snapshot of the current state and changes nothing else |
| Intersection.TriggerNorth | Main/brain.py:41-53 | trigger_north only appends to the logs and never touches queues, emergency flag or settings |
| Intersection.Checkpoint | Main/brain.py:60 | a flag check takes the next reading, or keeps the flag when there is none, changing nothing else |
| Intersection.ShowArm | Main/brain.py:63-76 | showing a granted arm only appends snapshots, leaving queues, audit, settings and the cycling flag alone |
| Intersection.CycleLoop | Main/brain.py:59-76 | the cycling loop only appends snapshots: queues, audit trail, settings and the cycling flag are unchanged |
| Intersection.CycleDummyArms | Main/brain.py:55-85 | cycling only extends the logs and always hands control back to North |
| Intersection.ProcessSystem2 | Main/brain.py:90-97 | the emergency override only extends the logs |
| Intersection.ProcessSystem3 | Main/brain.py:102-111 | the governor appends exactly one governor command carrying `Pwm` of North's queue and the settings |
| Intersection.OnMessage | Main/brain.py:116-152 | no message removes or rewrites anything already published or audited (append-only logs) |
| IntersectionProps.ScheduleGrantsOnlyDemand | Main/brain.py:59-68 | every phase of the reference schedule is a green or yellow of one of the secondary arms with a non-empty queue, shown without emergency |
| IntersectionProps.SecondaryScheduleOrder | Main/brain.py:59 | the reference schedule is East's phases, then South's, then West's, each green then yellow, with an empty arm skipped |
| IntersectionProps.ShowArmPhases | Main/brain.py:63-76 | a granted arm shows green, then yellow unless a check found the flag set; stopping after green implies the flag is set |
| IntersectionProps.CycleLoopFollowsSchedule | Main/brain.py:59-76 | cycling publishes exactly a prefix of the reference schedule, and a prefix shorter than the whole schedule implies the emergency flag is set |
| IntersectionProps.SkippedArmFollowsSchedule | Main/brain.py:61 | for an empty arm whose check passes, the loop publishes a prefix of the reference schedule, and a short prefix implies the emergency flag is set |
| IntersectionProps.GrantedArmFollowsSchedule | Main/brain.py:63-76 | for an arm with demand whose check passes, the loop still publishes a prefix of the reference schedule, and a short prefix implies the emergency flag is set |
| IntersectionProps.CycleLoopFlagSource | Main/brain.py:60-76 | the loop ends with the emergency flag set only if the flag was set before or one of the readings the loop's checks take (the first `Checks` of them) is set |
| IntersectionProps.CycleLoopUninterrupted | Main/brain.py:59-76 | with the flag clear at the start and none of the readings the loop's checks take set, the whole reference schedule is shown and the flag stays clear; readings beyond those checks are irrelevant |
| IntersectionProps.FirstTrue | Main/brain.py:60-76 | the index it returns is the first set reading, or the length when none is set |
| IntersectionProps.PhasesBefore | Main/brain.py:59-76 | the number of schedule phases shown before check `k` of an uninterrupted loop (head check of each arm, then one check after each of a granted arm's green and yellow) never exceeds the schedule's length |
| IntersectionProps.ShowArmFirstAlarm | Main/brain.py:69-76 | with the flag clear and the first alarm at `k`: a granted arm stops after its green (k = 0) or its yellow (k = 1) with the flag set; otherwise it shows both phases, leaves the flag clear and consumes its two readings |
| IntersectionProps.CycleLoopFirstAlarm | Main/brain.py:59-76 | with the flag clear and the first alarm at `k`: the loop ends flagged exactly when `k` is a reading it takes (`k < Checks`), having then shown exactly `PhasesBefore(k)` phases of the schedule; otherwise it shows the whole schedule and ends with the flag clear |
| IntersectionProps.CycleLoopExact | Main/brain.py:59-76 | the same characterisation for any readings, with the first alarm computed by `FirstTrue`: the loop's published phases and final flag are those of the reference |
| IntersectionProps.CheckpointBeforeAlarm | Main/brain.py:60 | a check sees the same world whether or not readings after an alarm exist, and a set reading not yet read moves one place forward in what is left |
| IntersectionProps.ShowArmBeforeAlarm | Main/brain.py:63-76 | a granted arm's green and yellow checks never consume a reading after an alarm |
| IntersectionProps.CycleLoopStopsAtAlarm | Main/brain.py:59-76 | readings after a set reading are never consumed: deleting every reading after it leaves the loop's outcome unchanged |
| IntersectionProps.CycleDummyArmsStopsAtAlarm | Main/brain.py:55-85 | cycle_dummy_arms, including the final re-grant test, is unaffected by readings after the first alarm |
| IntersectionProps.CycleDummyArmsOutcome | Main/brain.py:55-85 | however cycling exits: it shows a schedule prefix, then North red, with is_cycling cleared; it then re-grants North (signal command plus audit row) exactly when North's queue is positive and no emergency is set; queues and settings are untouched |
| IntersectionProps.CycleDummyArmsUninterrupted | Main/brain.py:55-85 | with the flag clear at the start and none of the readings the loop's checks take set, the full schedule and a North-red snapshot are published, and North ends green exactly when it has demand |
| IntersectionProps.CycleDummyArmsFirstAlarm | Main/brain.py:55-85 | with the flag clear at the start: cycling ends with the flag set exactly when one of its checks takes the first set reading; it publishes the schedule phases before that check, then North red; and North is re-granted green exactly when it has demand and no check took an alarm |
| IntersectionProps.LateAlarmIsNotTaken | Main/brain.py:55-85 | North 2 and the secondary arms empty: the loop makes three checks, so an alarm in the fourth reading is never taken and North is green again with the flag clear |
| IntersectionProps.TriggerNorthOutcome | Main/brain.py:41-53 | North always becomes active; with demand: green, is_cycling set, one signal command with the published duration and one audit row; without: red, is_cycling clear, no signal command, no audit row |
| IntersectionProps.UndecodableIsIgnored | Main/brain.py:118-119 | an undecodable payload changes no state and emits nothing |
| IntersectionProps.OnMessageQueues | Main/brain.py:123 | arrival adds exactly 1 to North, departure subtracts 1 floored at 0, no other message changes a queue, and no message changes another arm's queue |
| IntersectionProps.ArrivalOutcome | Main/brain.py:122-128 | an arrival publishes the governor level and a snapshot; it then wakes North (always to green, since the queue is now positive) exactly when North was active, red, not cycling and not in emergency, and otherwise changes nothing but the queue |
| IntersectionProps.DepartureOutcome | Main/brain.py:130-133 | a departure lowers North's queue floored at 0, publishes the governor level and a snapshot, and changes nothing else |
| IntersectionProps.CycleCompleteOutcome | Main/brain.py:136-140 | `cycle_complete` runs cycling exactly when North is active and there is no emergency, publishing North red before cycling starts; any other status, or that status at any other time, changes nothing |
| IntersectionProps.CycleCompleteIgnoresLatch | Main/brain.py:137 | the outcome of `cycle_complete` is the same whether or not is_cycling was set: there is no single-flight latch |
| IntersectionProps.SettingsOutcome | Main/brain.py:143-147 | settings overwrite only the keys present, publish the governor level recomputed from the new settings, and append one audit row with the payload |
| IntersectionProps.GovernorCommandsCapped | Main/brain.py:102-111 | every governor command a message publishes is at most the manual limit, and at most 90 while dangerous |
| IntersectionProps.CycleLoopNoGovernorCmd | Main/brain.py:59-76 | the cycling loop appends to the publish log and never publishes a governor command |
| IntersectionProps.CycleDummyArmsNoGovernorCmd | Main/brain.py:55-85 | cycle_dummy_arms publishes snapshots and North's signal command, never a governor command |
| IntersectionProps.CycleEmitsNoGovernorCommand | Main/brain.py:136-140 | a cycle started by `cycle_complete` publishes only dashboard snapshots and North's signal command, never a governor command |
| IntersectionProps.AmbulanceOutcome | Main/brain.py:150-152 | the flag becomes distance < 200, and a missing distance leaves it clear; when set, North is forced green with one 30-second signal command and one audit row, and queues and is_cycling are untouched; when clear, only the flag changes |
| IntersectionProps.InitialSettled | Main/brain.py:14-17 | the start-up state is settled |
| IntersectionProps.OnMessageKeepsSettled | Main/brain.py:116-152 | every message keeps the controller settled: North active, never yellow, is_cycling only with a North green. This holds after each message of the model, where a cycle runs to completion inside the message that starts it |
| IntersectionProps.RunInvariants | Main/brain.py:116-152 | over any run of messages, with each cycle run to completion inside its message: settled after each, logs only grow, and no queue but North's ever changes |
| IntersectionProps.RunFromStartIsSettled | Main/brain.py:14 | from start-up, after each message of the model (cycles run to completion), North is the active arm, and East, South and West keep their start-up counts 1, 0, 2 |
| IntersectionProps.ArrivalGrantsThirteenSeconds | Main/brain.py:46-48 | with 3 vehicles queued and North asleep, an arrival publishes a 13-second green |
| IntersectionProps.CycleSkipsEmptyEast | Main/brain.py:59-85 | with queues East 0, South 3, West 2: North red, then South green and yellow, then West green and yellow, then North red |
| IntersectionProps.EmergencyDuringSouthGreen | Main/brain.py:70 | an emergency read after South's green stops cycling before yellow, and North ends red with the flag set and is not re-granted |
| Brain.Controller.constructor | Main/brain.py:14-22 | the object's initial fields are the start-up globals |
| Brain.Controller.BroadcastDashboard | Main/brain.py:33-36 | appends the current snapshot to the publish log |
| Brain.Controller.LogEvent | Main/brain.py:29-31 | appends one row to the audit trail |
| Brain.Controller.TriggerNorth | Main/brain.py:41-53 | the in-place update ends in `Intersection.TriggerNorth` of the old state |
| Brain.Controller.ReadEmergencyFlag | Main/brain.py:60 | the flag takes the next reading, and the rest of the readings is returned |
| Brain.Controller.ShowArm | Main/brain.py:63-76 | green, check, yellow, check, ending in `Intersection.ShowArm` of the old state |
| Brain.Controller.CycleSecondaryArms | Main/brain.py:59-76 | the `for` loop with break/continue ends in `Intersection.CycleLoop` of the old state over East, South, West |
| Brain.Controller.CycleDummyArms | Main/brain.py:55-85 | sets is_cycling, runs the loop, hands back to a red North and re-grants it, ending in `Intersection.CycleDummyArms` of the old state |
| Brain.Controller.ProcessSystem2 | Main/brain.py:90-97 | ends in `Intersection.ProcessSystem2` of the old state |
| Brain.Controller.ProcessSystem3 | Main/brain.py:102-111 | publishes exactly the governor command of `Intersection.ProcessSystem3` |
| Brain.Controller.OnArrival | Main/brain.py:122-128 | the `road/in` branch ends in `Intersection.OnMessage` of the old state for an arrival |
| Brain.Controller.OnDeparture | Main/brain.py:130-133 | the `road/out` branch ends in `Intersection.OnMessage` of the old state for a departure |
| Brain.Controller.OnStatus | Main/brain.py:136-140 | the `city/status` branch ends in `Intersection.OnMessage` of the old state for that status |
| Brain.Controller.OnSettings | Main/brain.py:143-147 | the `city/settings` branch ends in `Intersection.OnMessage` of the old state for those settings |
| Brain.Controller.OnAmbulance | Main/brain.py:150-152 | the `v2i/ambulance/gps` branch ends in `Intersection.OnMessage` of the old state for that distance |
| Brain.Controller.OnMessage | Main/brain.py:116-152 | ends in `Intersection.OnMessage` of the old state, so every IntersectionProps lemma holds of the object |
| DecisionWorker.Decide | Main/decision_worker_sumo.py:44-51 | the decision is one of the four rule outcomes, speed limit in {30, 40, 50, 60}; priority_mode / 30 exactly on emergency; heavy_congestion / 40 exactly when not emergency and more than 25 vehicles below 30; moderate_congestion / 50 exactly when not emergency, more than 15 vehicles below 40 and not heavy; normal / 60 exactly otherwise; a signal only on emergency |
| DecisionWorker.EmergencyTakesPriority | Main/decision_worker_sumo.py:44-45 | an emergency gives priority_mode / green / 30, whatever the count or speed |
| DecisionWorker.HeavyShadowsModerate | Main/decision_worker_sumo.py:46-48 | a heavy report also satisfies the moderate rule, and still gets reduce_speed / 40 / heavy_congestion because heavy is tested first |
| DecisionWorker.SpeedLimitMonotone | Main/decision_worker_sumo.py:44-51 | more vehicles or lower speed never raise the speed limit, and an emergency never raises it either |
| DecisionWorker.EmptyReportIsNormal | Main/decision_worker_sumo.py:40-42 | missing keys default to 0, 0 and no emergency, which gives normal / 60 |
| DecisionWorker.OnMessage | Main/decision_worker_sumo.py:35-59 | a decodable report produces exactly one published decision (the rule table on the defaulted fields) and one audit row labelled with its action; an undecodable one produces neither |

## Left out

- MQTT client creation, `connect`, `subscribe` and the `loop_forever`/`loop_start` calls are transport plumbing. A publish is an append to the publish log.
- Creating and appending to the CSV audit file, including the header row and timestamps, is file I/O. The audit trail is an append-only sequence of (action, payload).
- `print` output of both programs is left out.
- Threads and real sleep durations are left out. The cycling task runs synchronously, and each `time.sleep` is a checkpoint at which the emergency flag is read again. As a result, the green duration computed inside `cycle_dummy_arms` is not used by the model.
- Other concurrent effects during a cycle are not interleaved. While the cycle sleeps, the handler thread could also change queues or run the emergency override. The model only captures the flag values the cycle reads. Other messages are handled before or after the whole cycle.
- Payloads of an unexpected JSON shape are not modelled. Examples: a JSON list on `city/status`, or a `null` distance. These make the brain's handler raise outside its `try`.
- Keys are modelled with fixed types. `danger` is a boolean, `manual_limit` an integer and `distance` a number. Python truthiness of other values and `int()` truncation of a fractional `manual_limit` are not modelled.
- A settings payload's keys other than `danger` and `manual_limit` are not kept in the audit row.
- In the decision worker, `vehicle_count` or `avg_speed` values that are not numbers are not modelled. Such a value raises only when its comparison is reached (`Main/decision_worker_sumo.py:46-48`, with short-circuit `and`). So an emergency report with a text count still publishes priority_mode, and a count of 3 with a text speed still publishes normal / 60. The truthiness of a non-boolean `emergency_detected` is not modelled either.
- The decision worker's audit-write error handler (`Main/decision_worker_sumo.py:25-26`) is left out. The audit append is modelled as always succeeding.
- Floating point is replaced by exact reals. Only queues up to 4 reach the unclamped value `q*2.5+3`, and it is exact in binary floating point for those. From 5 vehicles on, the clamp gives 15 either way.
- The queue dictionary is modelled as a record with one count per arm, because its four keys never change.
- `Main/services/sumo_publisher.py`, `Main/app.py`, `Main/sensor_sim.py`, `Main/emergency_trigger.py` and `Main/services/emergency_trigger_mqtt.py` are not part of this model. They are simulator bindings, an HTTP dashboard backend and publish-only scripts.

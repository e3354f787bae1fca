# Delayed-order SMS detection: a verified model

The repository watches a stream of order snapshots and, for every order that is still open when its
expected delivery time (ETA) passes, emits one `SEND_DELAY_SMS` command. A Python simulator feeds it.
This project models both and proves what they promise. `dafny verify dfyconfig.toml` checks all of it.

## What is modelled

**The detector.** `Detector.dfy` gives the reaction of one order's keyed state (value state with its
last-write time, set of pending timers) to one message or one firing timer. `Operator.dfy` is the operator
as written: a mutable state object with nullable fields, a value state with TTL that either hands out the
stored object itself or copies, a timer service, a collector, four counters. Its methods are proved to
compute exactly those reactions, and the null checks of `onTimer` are shown to be unreachable on the way.
`Reference.dfy` spells out on the fields themselves what messages, states and commands mean and what one
message or one timer must lead to; the operator's contracts and all results about runs are stated in its terms,
and nothing that the detector computes refers to it.
`Runtime.dfy` drives the operator and proves every run of the class to be a run of the machine below.

**Runs of one order** (`KeyRun.dfy`). A machine has the order's keyed state, its input position, the clock,
the output log, the last checkpoint and a count of restores. Its steps are the next message, the firing of
a pending timer whose time has come, the passing of time, a checkpoint, and a restore. A restore puts back
state, timers and input position; neither the clock nor the log is rolled back. A due timer may fire
arbitrarily late. A `Regime` names what a class of runs promises beyond that: `unexpired` (no step reads a
state whose TTL has run out; every run shorter than the TTL is such a run), `prompt` (due timers fire
before anything else), `crashFree` (no restore).

What is proved of these runs: how many commands there can be and how far apart (`Emissions.dfy`), what is
stored (`LastWriter.dfy`), which commands are right, early or missing (`Soundness.dfy`), that write times and
the order of arrival decide nothing else (`WriteTimes.dfy`, `Confluence.dfy`), that timers refine polling
(`Polling.dfy`), where the TTL ends the promise (`TtlHorizon.dfy`), and that redeliveries leave no trace
(`Redelivery.dfy`).

**The job** (`Job.dfy`). Many orders share the clock, the log and the checkpoint. Messages of different
orders interleave anyhow, and differently again after a replay. The key projection carries every result
about one order over to the job. `Parsing.dfy` puts the parsing stage and the routing by order id in front, so
that the job's results hold behind any stream of payloads.

**The simulator.** Largest-remainder apportionment of orders to scenarios (`Apportionment.dfy`,
`ScenarioAssignment.dfy`), the interpreter of one scenario (`ScenarioRun.dfy`) and the generated ids
(`OrderIds.dfy`).

## Modelling decisions

- An `Instant` counts nanoseconds. Staleness compares instants; timers compare floored milliseconds.
- One monotone clock, in milliseconds, serves the timers and the TTL; a step reads it once.
- A value is invisible once last write + TTL <= now, and only `update` refreshes the write time.
- Checkpoints are consistent across all orders and the input positions; only checkpointed restores exist. A
  restored operator starts with new counters.
- Quotas of the apportionment are exact rationals: floor and remainder of n*w divided by the total weight.
  The floating-point code agrees with this order of remainders while n*w stays below 2^52; ties may come
  out in any order there, and nothing below depends on their order.

## Where code and documentation differ

- Staleness is strict in the code: an equal `lastUpdatedAt` is accepted. docs/rfc/delayed-order-detection-rfc.md:93
  says `<=`. The model follows the code, so among equal update times the latest arrival wins.
- A terminal snapshot is kept, not cleared (rfc:98), and is not final: a newer active one re-arms the timer.
- The flag is said to prevent a second command within a job's life
  (docs/adr/0002-sms-idempotency-strategy.md:36). Once the TTL may run out that depends on what is still to
  come: a notified order can get another command, without any crash, exactly when a valid active message of
  it is still to come (`FlagGuardsExactly`; `CommandCountExactly` for any number). `SecondCommandAfterTtl` is
  a run with two commands. What remains true in every run is `TtlGap`, and at most one command plus one per
  restore when nothing expires (`AtMostOnePlusRestores`). With expiry and crashes together each restore can
  bring back all the commands of the input, and no more (`CommandsWithCrashesExactly`).
- Every delayed order is to be notified. An order whose ETA lies at or beyond its last message's arrival plus
  the TTL never is, short of restoring a checkpoint from before that arrival, which makes it arrive anew:
  `NotifiableExactlyWithinTtl` is the exact condition, `DelayedOrderNeverNotified` the input.
- The sink's delivery guarantee is not set in the code, although rfc:127 names at-least-once. Collected
  commands are assumed to reach the log.

## Model

| member | source | states |
|---|---|---|
| Operator.DelayedOrderProcessFunction.ProcessElement | flink-job/src/main/java/com/company/delayedordersms/processor/DelayedOrderProcessFunction.java:59-111 | state, pending timers, both outputs and all four counters after any message, for an aliasing and a copying store alike: a dead letter if and only if order id, status, ETA or update time is missing; otherwise stale exactly when the nanoseconds of the update time lie before those of the live state, and else the branch that the status, the flag and the floored ETA require |
| Operator.DelayedOrderProcessFunction.Accept | flink-job/src/main/java/com/company/delayedordersms/processor/DelayedOrderProcessFunction.java:76-87 | a message older than the visible state is counted and dropped; any other is merged, keeping flag and timer field |
| Operator.DelayedOrderProcessFunction.DecideOn | flink-job/src/main/java/com/company/delayedordersms/processor/DelayedOrderProcessFunction.java:89-110 | the four outcomes of an accepted message: delivered or cancelled, already notified, ETA reached (the command field by field), ETA ahead; each ends in a write of the whole state at the current clock |
| Operator.DelayedOrderProcessFunction.OnTimer | flink-job/src/main/java/com/company/delayedordersms/processor/DelayedOrderProcessFunction.java:114-142 | a timer emits only for a live order in CREATED, ACCEPTED or PICKED_UP, not notified, whose floored ETA it has reached; otherwise nothing changes |
| Operator.DelayedOrderProcessFunction.EmitDelaySms | flink-job/src/main/java/com/company/delayedordersms/processor/DelayedOrderProcessFunction.java:144-161 | one command collected, flag set and timer field cleared in the store |
| Operator.DelayedOrderProcessFunction.RegisterOrUpdateTimer | flink-job/src/main/java/com/company/delayedordersms/processor/DelayedOrderProcessFunction.java:163-180 | the old timer is replaced, an unchanged one is left alone |
| Operator.DelayedOrderProcessFunction.DeleteRegisteredTimer | flink-job/src/main/java/com/company/delayedordersms/processor/DelayedOrderProcessFunction.java:182-189 | the registered timer, if any, is no longer pending |
| Operator.DelayedOrderProcessFunction.IsStaleUpdate | flink-job/src/main/java/com/company/delayedordersms/processor/DelayedOrderProcessFunction.java:198-204 | strictly fewer nanoseconds than the stored update time; ties are not stale |
| Operator.DelayedOrderProcessFunction.constructor | flink-job/src/main/java/com/company/delayedordersms/processor/DelayedOrderProcessFunction.java:32-56 | empty state, no timers, zero counters, a TTL of whole days |
| Operator.OrderDelayState.FromOrderState | flink-job/src/main/java/com/company/delayedordersms/model/OrderDelayState.java:20-31 | a complete state with the message's data, no flag, no timer |
| Operator.OrderDelayState.UpdateFrom | flink-job/src/main/java/com/company/delayedordersms/model/OrderDelayState.java:33-40 | the message's data replace the old; flag and timer field survive |
| Operator.ValueState.Value | flink-job/src/main/java/com/company/delayedordersms/processor/DelayedOrderProcessFunction.java:41-49 | null exactly when empty or expired; the object itself or a fresh copy, by backend |
| Operator.ValueState.Update | flink-job/src/main/java/com/company/delayedordersms/processor/DelayedOrderProcessFunction.java:41-49 | stores the contents and refreshes the write time |
| Runtime.KeyedTask.Do | flink-job/src/main/java/com/company/delayedordersms/processor/DelayedOrderProcessFunction.java:58-142 | one step of the driven class is one step of the machine, side output and counters included |
| Runtime.KeyedTask.DoAll | flink-job/src/main/java/com/company/delayedordersms/processor/DelayedOrderProcessFunction.java:58-142 | every legal run of the class is the machine's run, crashes included, and its dead letters and counters are those of the messages it met |
| Runtime.BothBackends | flink-job/src/main/java/com/company/delayedordersms/processor/DelayedOrderProcessFunction.java:64-111 | store independence: a heap and a serializing backend end every run with the same state, timers, commands, dead letters and counters |
| Runtime.DeadLettersExactly | flink-job/src/main/java/com/company/delayedordersms/processor/DelayedOrderProcessFunction.java:64-74 | over every run, replays included, the dead letters are one for each message read with a missing field, in order |
| Runtime.CountersExactly | flink-job/src/main/java/com/company/delayedordersms/processor/DelayedOrderProcessFunction.java:52-55 | without a restore the counters are exactly the number of dead letters and of commands |
| Runtime.CountersStartOver | flink-job/src/main/java/com/company/delayedordersms/processor/DelayedOrderProcessFunction.java:52-55 | after any restore they count what came since |
| Domain.Instant.ToEpochMilli | flink-job/src/main/java/com/company/delayedordersms/processor/DelayedOrderProcessFunction.java:101 | the millisecond floor of an instant, also before the epoch |
| Domain.Instant.OfEpochMilli | flink-job/src/main/java/com/company/delayedordersms/processor/DelayedOrderProcessFunction.java:149-152 | the instant whose floor is the given millisecond |
| Domain.CommandIdInjective | flink-job/src/main/java/com/company/delayedordersms/model/SmsCommand.java:23 | the idempotency key determines the order, whatever ids look like |
| KeyRun.ClockAndLogGrow | docs/adr/0001-processing-time-vs-event-time.md:48 | no run, with or without restores, takes back a command or time |
| KeyRun.CoverageStep | flink-job/src/main/java/com/company/delayedordersms/processor/DelayedOrderProcessFunction.java:163-189 | every step keeps timer field and timer service in agreement for visible states, also those in the checkpoint |
| KeyRun.Coverage | flink-job/src/main/java/com/company/delayedordersms/processor/DelayedOrderProcessFunction.java:89-110 | in every reachable state, with expiry, late timers and restores, a live waiting order has its ETA in the timer field and pending, any other has no timer field |
| KeyRun.TimersExact | flink-job/src/main/java/com/company/delayedordersms/processor/DelayedOrderProcessFunction.java:89-110 | without expiry the pending set is exactly the waiting order's ETA, and empty otherwise |
| KeyRun.ShortRunsDoNotExpire | flink-job/src/main/java/com/company/delayedordersms/processor/DelayedOrderProcessFunction.java:41-47 | a run shorter than the TTL expires nothing, replays included |
| KeyRun.OnlyClockValuesCount | docs/adr/0001-processing-time-vs-event-time.md:48 | however time is cut into ticks, runs whose other steps happen at the same clock values end with the same state, position, checkpoint and log |
| Emissions.AtMostOnePlusRestores | docs/adr/0002-sms-idempotency-strategy.md:36 | over every unexpired run an order has at most one command more than there were restores |
| Emissions.CrashBoundIsTight | docs/adr/0002-sms-idempotency-strategy.md:13-15 | for every number of restores some run reaches that bound |
| Emissions.TtlGap | flink-job/src/main/java/com/company/delayedordersms/processor/DelayedOrderProcessFunction.java:41-47 | in every run, whatever expired or fired late, two commands of one order with no restore between them are at least the TTL apart |
| Emissions.FlagGuardsExactly | docs/adr/0002-sms-idempotency-strategy.md:36 | from a notified state, some crash-free schedule logs another command if and only if a valid active message of the order is still to come |
| Emissions.CommandCountExactly | flink-job/src/main/java/com/company/delayedordersms/processor/DelayedOrderProcessFunction.java:83-142 | from any reachable state, crash-free schedules can get k more commands if and only if k is at most the valid active messages still to come, plus one when a visible waiting state has its ETA before its expiry |
| Emissions.CommandsBounded | flink-job/src/main/java/com/company/delayedordersms/processor/DelayedOrderProcessFunction.java:83-142 | in every crash-free run the new commands never outnumber the active messages to come plus the one owed, whatever expires |
| Emissions.PatientSchedule | flink-job/src/main/java/com/company/delayedordersms/processor/DelayedOrderProcessFunction.java:41-47 | a schedule that waits long enough before each active message gets a command for every one of them |
| Emissions.CommandsWithCrashesExactly | docs/adr/0002-sms-idempotency-strategy.md:13-36 | expiry and crashes together: runs with r restores can log k commands of an order if and only if k is at most 1 + r times its valid active messages |
| Emissions.SecondCommandAfterTtl | docs/adr/0002-sms-idempotency-strategy.md:36 | for every TTL a redelivery at the moment of expiry gets a second command with the same commandId, exactly the TTL later |
| LastWriter.LastWriterWins | flink-job/src/main/java/com/company/delayedordersms/processor/DelayedOrderProcessFunction.java:78-87 | without expiry the stored snapshot shows, field by field, the message with the most nanoseconds in its update time, latest arrival on ties, of exactly the processed messages |
| LastWriter.LastWriterWinsSinceCreation | flink-job/src/main/java/com/company/delayedordersms/processor/DelayedOrderProcessFunction.java:78-87 | in every run, expiry and replays included, the stored snapshot is the winner of exactly the messages processed since the one that last created the state |
| LastWriter.WinnerUnique | flink-job/src/main/java/com/company/delayedordersms/processor/DelayedOrderProcessFunction.java:198-204 | there is only one such winner, so the stored snapshot is determined |
| LastWriter.EventKeepsLatest | flink-job/src/main/java/com/company/delayedordersms/processor/DelayedOrderProcessFunction.java:198-204 | one message moves the winner of a stretch of messages to the winner of the longer stretch |
| Soundness.CommandsSpeakForReadMessages | flink-job/src/main/java/com/company/delayedordersms/model/SmsCommand.java:21-33 | in every run, expiry and replays included, each command was emitted by a definite step, at that step's clock, and carries field by field the data of an active message whose ETA had passed: the winner of the messages read by then since the state was created |
| Soundness.CommandsAreSound | flink-job/src/main/java/com/company/delayedordersms/processor/DelayedOrderProcessFunction.java:100-106 | in unexpired runs, replays included, that message is the winner of all the messages read when the step was over |
| Soundness.NothingForClosedOrders | flink-job/src/main/java/com/company/delayedordersms/model/OrderStatus.java:10-16 | in unexpired runs no step emits a command while the winner of the messages read is DELIVERED or CANCELLED |
| Soundness.LessThanOneMilliEarly | flink-job/src/main/java/com/company/delayedordersms/processor/DelayedOrderProcessFunction.java:101-105 | in every run each command is less than 1 ms ahead of the exact ETA it carries |
| Soundness.NoDelayedOrderMissed | flink-job/src/main/java/com/company/delayedordersms/processor/DelayedOrderProcessFunction.java:89-142 | an unexpired run that leaves no due timer unfired has a command when the winner of the read messages is CREATED, ACCEPTED or PICKED_UP and past its ETA |
| Soundness.NothingEmittedEarly | flink-job/src/main/java/com/company/delayedordersms/processor/DelayedOrderProcessFunction.java:100-110 | in every run, before the ETA of every active message read so far, there is no command and no flag |
| Confluence.ArrivalOrderIrrelevant | flink-job/src/main/java/com/company/delayedordersms/processor/DelayedOrderProcessFunction.java:76-110 | any permutation of messages with distinct update times, over any schedules that end before the ETAs, leaves the same state, timer field and timers, and no output |
| WriteTimes.WriteTimesInvisible | flink-job/src/main/java/com/company/delayedordersms/processor/DelayedOrderProcessFunction.java:41-47 | machines that differ only in write times, also in their checkpoints, answer every common unexpired schedule alike, restores included |
| WriteTimes.OldCheckpointsInvisible | flink-job/src/main/java/com/company/delayedordersms/processor/DelayedOrderProcessFunction.java:41-47 | the same without any assumption on earlier checkpoints, for schedules whose restores follow a checkpoint of their own |
| WriteTimes.WrittenByLastStep | flink-job/src/main/java/com/company/delayedordersms/processor/DelayedOrderProcessFunction.java:41-47 | in every run the state carries the clock of the last step that accepted a message or emitted, or that of the restored checkpoint; only such steps prolong its life |
| Confluence.SameCommandsLater | flink-job/src/main/java/com/company/delayedordersms/processor/DelayedOrderProcessFunction.java:76-142 | after a reordered start, further messages and any further unexpired schedule yield the same commands, with any number of restores, each of a checkpoint taken after that start |
| Polling.TimersRefinePolling | flink-job/src/main/java/com/company/delayedordersms/processor/DelayedOrderProcessFunction.java:89-142 | with prompt timers and no expiry the log equals that of a detector without timers that rescans after every step |
| Polling.LateTimersNeverEarly | flink-job/src/main/java/com/company/delayedordersms/processor/DelayedOrderProcessFunction.java:89-142 | with arbitrarily late timers and crashes, only orders the rescanning detector notifies are notified, none earlier |
| Polling.NaiveEmitsOnce | docs/rfc/delayed-order-detection-rfc.md:94-98 | without a restore the rescanning detector itself emits at most once per order |
| TtlHorizon.Verdict | flink-job/src/main/java/com/company/delayedordersms/processor/DelayedOrderProcessFunction.java:119-141 | over every run that restores no earlier checkpoint, a waiting order without further valid messages is answered if and only if a timer at or after its ETA fires before the state expires; every answer carries its snapshot and comes in between, at most one plus one per restore |
| TtlHorizon.NeverNotifiedBeyondTtl | flink-job/src/main/java/com/company/delayedordersms/processor/DelayedOrderProcessFunction.java:41-47 | an ETA at or beyond arrival + TTL is never answered, by any schedule that restores no checkpoint from before the arrival |
| TtlHorizon.NotifiedWithinTtl | flink-job/src/main/java/com/company/delayedordersms/processor/DelayedOrderProcessFunction.java:119-141 | if the ETA timer fires before expiry, the order gets a command for that snapshot between ETA and expiry, exactly one without a restore |
| TtlHorizon.NotifiableExactlyWithinTtl | flink-job/src/main/java/com/company/delayedordersms/processor/DelayedOrderProcessFunction.java:41-47 | some schedule, crash-free or restoring checkpoints of its own, notifies the order if and only if its ETA comes before arrival + TTL |
| TtlHorizon.DelayedOrderNeverNotified | flink-job/src/main/java/com/company/delayedordersms/processor/DelayedOrderProcessFunction.java:41-47 | the failing input: a single message with an ETA at or beyond arrival + TTL arms a timer that no such schedule ever turns into a command |
| Redelivery.RedeliveryIsIdle | flink-job/src/main/java/com/company/delayedordersms/processor/DelayedOrderProcessFunction.java:78-98 | a redelivered message changes at most the write time |
| Redelivery.RedeliveriesStutter | flink-job/src/main/java/com/company/delayedordersms/processor/DelayedOrderProcessFunction.java:78-98 | any number of redeliveries anywhere leaves final snapshot, timers and log as if they had not been sent, crashes included |
| Redelivery.RedeliveriesStutterWithinTtl | flink-job/src/main/java/com/company/delayedordersms/processor/DelayedOrderProcessFunction.java:41-98 | the same for every prompt run shorter than the TTL, with no further assumption on either run |
| Job.KeyProjection | flink-job/src/main/java/com/company/delayedordersms/DelayedOrderSmsJob.java:76-79 | under every interleaving of orders, one order's part of the job is its single-order run |
| Job.OtherOrdersInvisible | flink-job/src/main/java/com/company/delayedordersms/DelayedOrderSmsJob.java:76-79 | two jobs with any other orders, over schedules in which this order's events, fires, checkpoints and crashes happen at the same clock values, give it the same commands, state and position |
| Job.ReactionsStayInTheirOrder | flink-job/src/main/java/com/company/delayedordersms/model/SmsCommand.java:23-25 | a reaction stores and emits only under the id of its own order |
| Job.JobGuarantees | flink-job/src/main/java/com/company/delayedordersms/DelayedOrderSmsJob.java:76-90 | for every order of the job, whose part of it is its single-order run: coverage, TTL gap, both crash bounds, exact timers, a source (unexpired: the winner) among the messages read for each of its commands, and both polling comparisons |
| Job.DeliveredKeepsFirst | docs/adr/0002-sms-idempotency-strategy.md:38 | keeping the first of each commandId keeps the first command of each order and drops no other order's |
| Job.ActedOnOnce | docs/adr/0002-sms-idempotency-strategy.md:34-38 | in every run the SMS service acts on exactly one command per notified order |
| Job.CrashSafety | docs/adr/0002-sms-idempotency-strategy.md:66 | raw log within the crash bound, and the one command acted on was emitted for the active winner of the messages read by then |
| Parsing.OrderStateDeserializationFunction.ProcessElement | flink-job/src/main/java/com/company/delayedordersms/serde/OrderStateDeserializationFunction.java:34-49 | a payload is either collected or a counted dead letter |
| Parsing.ParseStream | flink-job/src/main/java/com/company/delayedordersms/serde/OrderStateDeserializationFunction.java:34-49 | a whole stream splits into messages and dead letters, in order, with nothing lost |
| Parsing.ParsedInOrder | flink-job/src/main/java/com/company/delayedordersms/serde/OrderStateDeserializationFunction.java:34-49 | the messages are the payloads that parse, in order of arrival |
| Parsing.RejectedInOrder | flink-job/src/main/java/com/company/delayedordersms/serde/OrderStateDeserializationFunction.java:34-49 | the dead letters are the others, in order of arrival |
| Parsing.RoutingIsWellKeyed | flink-job/src/main/java/com/company/delayedordersms/DelayedOrderSmsJob.java:76-78 | routing by order id meets what the job results assume, for every stream |
| Parsing.InputOfCount | flink-job/src/main/java/com/company/delayedordersms/DelayedOrderSmsJob.java:76-78 | no message of an order is lost or duplicated on the way to its state |
| Parsing.InputOfInOrder | flink-job/src/main/java/com/company/delayedordersms/DelayedOrderSmsJob.java:76-78 | an order's input lists exactly its messages, by increasing places in the stream |
| Parsing.EndToEnd | flink-job/src/main/java/com/company/delayedordersms/DelayedOrderSmsJob.java:63-90 | from raw payloads to the commands the SMS service acts on: one per notified order |
| Apportionment.LeastSquaresIffLargestRemainder | simulator/src/order_simulator/runner.py:246-259 | an allocation minimises the sum of squared deviations from the exact quotas if and only if it is a largest-remainder outcome |
| Apportionment.Optimal | simulator/src/order_simulator/runner.py:246-259 | the counts are optimal even among integer vectors with the same total |
| Apportionment.QuotaRule | simulator/src/order_simulator/runner.py:249-259 | floor or ceiling of the quota; a whole quota is met exactly |
| Apportionment.WeightMonotone | simulator/src/order_simulator/runner.py:249-259 | a larger weight never receives fewer orders |
| ScenarioAssignment.LeftoverBound | simulator/src/order_simulator/runner.py:255-259 | the leftover is non-negative and smaller than the number of scenarios |
| ScenarioAssignment.CollectWeights | simulator/src/order_simulator/runner.py:216-231 | a scenario is kept exactly when it is included and its own key of the distribution gives a positive weight, and then with that weight; in mapping order |
| ScenarioAssignment.WeightsByKey | simulator/src/order_simulator/runner.py:218-231 | which key weighs which scenario, all six of them |
| ScenarioAssignment.MappingIsUsable | simulator/src/order_simulator/runner.py:218-231 | their names are distinct and their weights positive |
| ScenarioAssignment.FractionalCounts | simulator/src/order_simulator/runner.py:246-253 | floor and remainder of every quota |
| ScenarioAssignment.SortByRemainder | simulator/src/order_simulator/runner.py:256 | the same rows by descending remainder |
| ScenarioAssignment.GiveExtras | simulator/src/order_simulator/runner.py:258-259 | one extra for exactly the first rows |
| ScenarioAssignment.Expand | simulator/src/order_simulator/runner.py:261-265 | the names by descending remainder: who ranks earlier is assigned earlier, each as often as counted |
| ScenarioAssignment.BlocksCount | simulator/src/order_simulator/runner.py:261-263 | every name occurs as often as it was assigned, no other name occurs |
| ScenarioAssignment.Assign | simulator/src/order_simulator/runner.py:239-265 | n names whose counts are a largest-remainder outcome, in an order that follows the ranking by remainder |
| ScenarioAssignment.AssignScenarios | simulator/src/order_simulator/runner.py:203-265 | the same from a distribution and the included scenarios, each weighed by its own key |
| ScenarioRun.RunSingleOrder | simulator/src/order_simulator/runner.py:113-156 | completes exactly when every event is publishable; each duplicate equals the latest recording of its step, a missing step being 0; keys are rendered from the event's own key or from the order id; a failure leaves exactly the preceding messages and names its cause |
| ScenarioRun.SupplierUnique | simulator/src/order_simulator/runner.py:132-151 | what an event publishes is determined |
| OrderIds.IndexRoundTrip | simulator/src/order_simulator/runner.py:197 | prefix, name and index can be read back from the id, for every prefix and name; the index has at least four digits and no needless zeros |
| OrderIds.PaddedRoundTrip | simulator/src/order_simulator/runner.py:197-198 | a zero-padded number consists of digits, so of no dash, and reads back as itself |
| OrderIds.PaddedLength | simulator/src/order_simulator/runner.py:197 | padding reaches the width, and a longer number has no leading zero |
| OrderIds.OrdersAreNumbered | simulator/src/order_simulator/runner.py:83-89 | the orders of a run are numbered from 1 in the order of their scenario names |
| OrderIds.RunIdsDistinct | simulator/src/order_simulator/runner.py:83-89 | no two orders of a single or mixed run share an id or a commandId |

## Left out

- ToEpochMilli: does not model the overflow exception for instants some 292 million years away.
- RunSingleOrder: rendering of templates, times and keys is a parameter that cannot fail; delays and pauses have no effect on what is published.
- AssignScenarios: the random fallbacks for an empty distribution and a negative number of orders.
- OrderId: the normalization of scenario names by a regular expression; ids are unique for every name, normalized or not.
- Customer and store ids, which add only easy members.
- The parser itself, which is a parameter that returns a message or fails, and a JSON null payload.
- Messages without an order id reach the operator class, but not the keyed runs: the key extraction in front of it needs an id.
- The wording, topic and timestamp of dead letters.
- Kafka, JSON, RocksDB internals, metric registration, job wiring, configuration, threads.
- Starts without a checkpoint, which begin at the latest offsets.
- Snapshot cleanup of expired values, which no read can observe.
- A clock that runs backwards, or differs between the two readings within one message.
- Equality of crashed and uncrashed runs, which processing time does not give.

# The exactly-once order path

This project models what happens between an order command on `orders.commands` and an event on
`orders.events`: the replicated table of processed orders, the Raft nodes' client and server, the order
executor's handler and its retries, the outbox and its publisher, the consumer, and the verifier that
looks for duplicates. It proves what each piece does, and then, for every interleaving of all of them
under failures, how often an order can produce an event.

`dafny verify dfyconfig.toml` checks everything.

## How it is built

* **State machine.** `Json`, `Messages` and `Fsm` model messages and their encodings and the first-writer-wins
  table. `Fsm.FSM` is the machine itself, over a shared mutable map as in Go; `Fsm.Replay` and `Fsm.Answers`
  say what a whole log does. `Replica` is the cluster: one committed log, nodes that apply prefixes of it,
  take and persist snapshots, restart, and install each other's snapshots.
* **Client, server, executor.** `RaftServer` is what a node answers, `RaftClient` the retrying,
  leader-following client as a class, `LeaderSearch` its round robin, cost and hints, `LeaderRoute` what any
  call comes to in any network, `FixedNetwork` the same while the network stays as it is, `Executor` the
  handler and the consumer's retry loop around it.
* **Outbox.** `Outbox` is the SQLite store as a class with two tables, `TxStore` its runs when it is written
  transactionally, `Publisher` the batch loop, `Drain` all runs of inserts and publishes, `Starvation`
  which rows get through.
* **Pipeline.** `Pipeline` puts the pieces together as one step system: any number of executors, handlers,
  requests and nodes, with lost requests and acknowledgements, uncertain outcomes, stale reads, crashes,
  redeliveries, failed inserts, produces and marks. `PipelineSafety` proves its invariant,
  `PipelineResults` what follows from it, `PipelineLoss` exactly when an order gets its one row and its one
  event, `PipelineSteps` what each step of a handler comes to, `PipelineContent` what table, outboxes and
  topic say, `PipelineStream` the same for orders made from ticks, `PipelineGap` what does not hold, `EndToEnd`
  what the verifier sees.
* **Around it.** `Consumer` (slots, skipping, committing), `StreamProcessor`, `Verifier`, `Text`, `Brokers`
  and `ChaosProfile`.

The pieces written as classes and loops are tied to the step system by the functions they share: the
state machine by `Fsm.ApplyEntry`, the handler by `Executor.RunStage` (`OrderExecutor.Handle` says what one run
learns, and that this drives the same stages as in the system), the outbox by `Outbox.InsertEvent`, the publisher by `Drain.BatchIsRun`.

## Where the code does less than it says

* README.md promises no double processing. What holds is at most one outbox row per order
  (`PipelineResults.EachOrderInOnePlace`); exactly one does not. `PipelineGap.ReplicatedWithoutEvent` gives the
  run: the fresh acknowledgement is lost, the retry is answered "duplicate", the offset is committed, and no
  event is ever written. `PipelineLoss.RowExactlyUnlessLost` says exactly when the row is there, by the steps of the run, and
  `PipelineLoss.OneEventExactly` when the order has exactly one event. The transactional
  `ProcessOrderCommand` has no such gap (`TxStore.AllOrNothing`).
* The topic can hold two events for one order: the publisher marks a row after producing it, and the
  producer retries without idempotent writes. `PipelineGap.TwoEventsReachable` gives a run,
  `PipelineLoss.TwoEventsExactly` and `EndToEnd.VerifierPasses` say exactly when.
* internal/msg/consumer.go:139 says a skipped record is retried on the next poll. It is not, and a later
  commit passes it over (`Consumer.SkippedIsPassedOver`, `Consumer.PassedOverForGood`).
* The transactional store and the state machine agree only when no two orders are first seen with one event
  id, since `event_id` is UNIQUE in one and unconstrained in the other (`TxStore.StoreAgreesWithFsm`).
* A call never leaves a node that is down: dialling does not block, so a dead node shows as a retryable error,
  and the client then spends all its remaining tries on the same address (`LeaderRoute.NeverLeavesDown`).
  `FixedNetwork.LosesKnownLeaderExactly` says when a known leader is missed behind such a node.
* A failed dial closes the client's connection but leaves its address, so a later try at that address fails
  without asking anyone (`FixedNetwork.FailedDialLosesLeader`), and a call that ends so leaves a client whose every
  later call fails without a request (`LeaderRoute.ClosedForGood`). `LeaderRoute.CallExactly` says exactly which
  calls do.
* 100 older rows that always fail keep a row waiting for good; fewer, ties in age aside, never do
  (`Starvation.PublishedExactly`).
* "no outbox event found" (internal/idempotency/store.go:134-139) is answered only when the lookup itself
  fails (`TxStore.AllOrNothing`).

## Model

| member | source | states |
|---|---|---|
| PipelineResults.EachOrderInOnePlace | cmd/order-executor/main.go:133-278 | In every reachable state of every interleaving, an order in the replicated table is in exactly one place (outbox row, fresh acknowledgement on its way, held by a handler, or lost), any other order in none; so at most one row per order over all executors |
| PipelineResults.RowsAreUnique | cmd/order-executor/main.go:226-261 | Two outbox rows for one order, in whatever executors, are the same row |
| PipelineLoss.LostExactly | cmd/order-executor/main.go:180-261 | An order is lost if and only if some step of the run dropped its fresh acknowledgement, crashed a handler holding it, or was an insert for it that left no row |
| PipelineLoss.RowExactlyUnlessLost | cmd/order-executor/main.go:226-261 | When no fresh acknowledgement of an order is on its way or held, it has its row if and only if it is replicated and no such step happened |
| PipelineLoss.OneEventExactly | README.md:199-206 | For any commands and failures, once nothing of an order is on its way and its rows are published, it has exactly one event on the topic if and only if it is replicated, no step lost it and no publish of its row was unclean; it has none if and only if it is not replicated or was lost |
| PipelineLoss.TwoEventsExactly | internal/idempotency/publisher.go:65-102 | In every reachable state an order with two events has had an unclean publish of its row, and one with an unclean publish has two events once its rows are published |
| PipelineLoss.ExtraForExactly | internal/idempotency/publisher.go:76-95 | There are surplus copies of an order's event if and only if some publish of its row was uncertain, repeated or not marked |
| PipelineResults.CommittedIsReplicated | internal/msg/consumer.go:116-134 | A committed offset is that of a valid order that some entry of the committed log upserts, whichever way the handler returned nil |
| PipelineResults.NoDuplicateEvents | internal/idempotency/publisher.go:65-102 | When the topic holds no surplus copies, no two events on it are for one order, whatever else went wrong |
| PipelineResults.EventsAreReplicated | internal/idempotency/publisher.go:65-102 | Then every event on the topic is for an order the replicated table holds |
| PipelineResults.RowOccurrences | internal/idempotency/publisher.go:76-97 | In every run, for any row of any executor: its event is on the topic once if the row is marked, plus its surplus copies |
| PipelineResults.PublishedIsFinal | internal/idempotency/store.go:203-245 | Once a row of any executor is marked, it and the number of its events on the topic stay the same in every continuation |
| PipelineResults.ExtraExactly | internal/idempotency/publisher.go:76-95 | Over any run of the whole system, surplus copies exist if and only if some publish was uncertain, repeated or not marked |
| PipelineResults.DuplicatesExactly | internal/idempotency/publisher.go:65-102 | When every row is published, the topic has two events for one order if and only if some publish was not clean |
| PipelineSafety.RunInv | cmd/order-executor/main.go:133-278 | The whole invariant in every reachable state: cluster, outboxes, requests, handlers, committed offsets, and conservation for every order |
| PipelineSafety.NextInv | cmd/order-executor/main.go:133-278 | Every step, enabled in whatever state satisfies the invariant, keeps it |
| PipelineSafety.NextConserves | cmd/order-executor/main.go:180-261 | Every step keeps rows + in transit + held + lost equal to the order's presence in the table |
| PipelineSafety.AppendConserves | internal/raft/fsm.go:43-64 | Appending a request adds its order to the table exactly when that request will be the one acknowledged as fresh |
| PipelineSafety.AckConserves | cmd/order-executor/main.go:226-235 | An arriving acknowledgement is held by the handler exactly when it is fresh; a duplicate is answered without a row |
| PipelineSafety.InsertConserves | cmd/order-executor/main.go:252-261 | A held acknowledgement becomes one row, or is counted as lost |
| PipelineSafety.FoundInTable | internal/rpc/raftnode/server.go:127-166 | A node that answers a read with found, however stale, is right about the whole log |
| PipelineSteps.TryEnds | cmd/order-executor/main.go:180-205 | A failed dial, a retried error or a refusal leads a handler to the next of five tries and from the last one to the read, with the refusal's message; an error that is not retried leads to the read at once |
| PipelineSteps.OnlyCommitsAcknowledge | internal/rpc/raftnode/server.go:38-106 | Whatever a server answers, for any command, fault and Raft outcome, is a step without acknowledgement if and only if the entry was not committed on a complete command without fault |
| PipelineSteps.AckEnds | cmd/order-executor/main.go:226-237 | An acknowledgement ends the handler with nil when it says duplicate, and lets it insert when it is fresh |
| PipelineSteps.ReadEnds | cmd/order-executor/main.go:181-224 | A read ends the handler with nil if and only if it reaches a node whose table has the order, after an error and after a refusal alike; otherwise with the error that caused it |
| PipelineSteps.InsertEnds | cmd/order-executor/main.go:253-277 | An insert ends the handler with nil if and only if the event id is free and no error is reported |
| PipelineSteps.Starts | internal/msg/consumer.go:151-174 | What a delivery and a retry start with, and when a retry is possible |
| PipelineSteps.RequestCommits | internal/rpc/raftnode/server.go:71-105 | Appending adds the handler's upsert to the log, and an answer carries what the node that applied it said |
| PipelineSteps.RequestEnds | internal/rpc/raftnode/client.go:89-104 | A dropped request, and one whose acknowledgement is lost, has no further effect |
| PipelineSteps.CrashEnds | cmd/order-executor/main.go:133-278 | A crash ends a handler |
| PipelineSteps.DeadStays | cmd/order-executor/main.go:133-278 | A crashed handler takes no further step |
| PipelineSteps.HandlersCanMove | cmd/order-executor/main.go:180-277 | In every run no busy handler is stuck: the steps open to it while trying, reading and inserting, whatever the answer, node, fault and insert |
| PipelineSteps.ThreeRuns | internal/msg/consumer.go:151-174 | In every run no record's handler runs more than three times |
| PipelineContent.TableSays | internal/raft/fsm.go:52-59 | In every run each record of the replicated table carries its own order id, the event id of a valid command for it on orders.commands, status ACCEPTED and reason accepted |
| PipelineContent.EventsSay | internal/idempotency/publisher.go:65-77 | In every run each event on the topic went to orders.events under its order's id, has status ACCEPTED and reason accepted, and its event id is "evt-" and that of a valid command for the order |
| PipelineStream.StreamRunInv | cmd/stream-processor/main.go:113-129 | When every command comes from a tick, every outbox row's ids have the form ("ord-" + x, "evt-" + x) |
| PipelineStream.TickAcceptedExactly | cmd/order-executor/main.go:134-152 | The executor accepts the order a tick makes, unchanged, if and only if the tick has a positive price and a symbol |
| PipelineStream.InsertNeverRefused | internal/idempotency/store.go:78 | Then an insert after a fresh acknowledgement never meets the UNIQUE constraint on event_id |
| PipelineStream.OneRowPerTick | cmd/stream-processor/main.go:113-129 | However often ticks are redelivered, rows with equal order ids or equal event ids are one row, named after a tick |
| PipelineStream.LostExactlyByFailure | cmd/order-executor/main.go:237-261 | With commands from ticks, an order is lost if and only if its fresh acknowledgement is dropped, a handler holding it crashes, or its insert fails without landing: no insert is refused |
| PipelineStream.ExactlyOnceWithoutLoss | README.md:199-206 | With commands from ticks, once nothing of an order is on its way: it has its row if and only if it is replicated and no step failed it, and, its row published, exactly one event if and only if besides each publish of the row was clean |
| PipelineGap.ReplicatedWithoutEvent | cmd/order-executor/main.go:226-235 | For every valid order there is a run that commits its offset and replicates it, after which it never has an outbox row |
| PipelineGap.LosingRunEnds | cmd/order-executor/main.go:180-235 | The state that run ends in, field by field |
| PipelineGap.FailedMarkDuplicates | internal/idempotency/publisher.go:87-95 | From every reachable state one failed mark, and the next tick, put two events of an unpublished row's order on the topic |
| PipelineGap.TwoEventsReachable | internal/idempotency/publisher.go:76-95 | For every valid order there is a run that publishes its row and leaves two events for it on the topic |
| PipelineGap.LostForever | cmd/order-executor/main.go:253-261 | An order whose fresh acknowledgement or insert was lost has no row in any continuation |
| PipelineGap.OrphanedForever | internal/rpc/raftnode/client.go:89-104 | An order whose fresh acknowledgement no handler waits for any more has no row in any continuation |
| EndToEnd.VerifierPasses | cmd/verifier/main.go:59-131 | The verifier passes over the whole topic whenever every publish was clean, and, when every row has been published, in no other case |
| EndToEnd.VerifierFails | cmd/verifier/main.go:95-122 | After that run the verifier fails |
| EndToEnd.OrdersOfTopic | cmd/verifier/main.go:67-77 | The verifier decodes each record on the topic to the order id it was produced for |
| Pipeline.StepsMatchServer | internal/rpc/raftnode/server.go:86-105 | The bytes the executor sends are read by the state machine as the upsert the step system appends, and the server's reply is the acknowledgement it carries |
| Fsm.FSM.Apply | internal/raft/fsm.go:26-69 | Table and answer after one entry, for every entry including those that do not decode or have another kind |
| Fsm.FSM.ApplyAll | internal/raft/fsm.go:26-69 | Applying a run of entries gives the table and the answers of the replayed log |
| Fsm.FSM.Snapshot | internal/raft/fsm.go:72-83 | The snapshot has the table's contents and shares nothing with the live map |
| Fsm.FSM.Restore | internal/raft/fsm.go:86-100 | Installs the decoded table in a new map, or keeps the old one when the document does not decode |
| Fsm.FsmSnapshot.Persist | internal/raft/fsm.go:128-135 | Whatever order the entries are written in, the document reads back as the table |
| Fsm.SnapshotThenCatchUp | internal/raft/fsm.go:72-135 | Entries applied between Snapshot and Persist do not reach the snapshot; restoring it and applying the rest of the log gives the live machine's table and answers |
| Fsm.ReplaySplit | internal/raft/fsm.go:72-100 | Stopping anywhere in a log, keeping only the table, and going on gives the same table and the same answers |
| Fsm.PrefixContained | internal/raft/fsm.go:43-64 | Tables of prefixes i <= j of one log are contained in each other, with the same records |
| Fsm.TableKeys | internal/raft/fsm.go:43-64 | The table holds exactly the orders some entry upserts |
| Fsm.DuplicateExactly | internal/raft/fsm.go:43-64 | An entry is answered duplicate if and only if an earlier entry upserted its order |
| Fsm.FirstWriterWins | internal/raft/fsm.go:52-59 | Each order keeps the order id, command event id, status, reason and timestamp of its first upsert, each in its own field, whatever follows |
| Fsm.AnswerNamesOrder | internal/raft/fsm.go:30-68 | An answer names its entry's order; an entry that asks for nothing is answered not a duplicate |
| Fsm.OnlyUpsertsRead | internal/raft/fsm.go:30-41 | Entries that do not decode or are of another kind ask for nothing and name no order; an upsert with a field of the wrong type names the order it has read |
| Fsm.RefusedExactly | internal/raft/fsm.go:91-96 | A snapshot document is refused if and only if it is neither null nor an object whose entries all decode |
| Fsm.FirstsSuffice | internal/raft/fsm.go:26-69 | The log reduced to first upserts gives the same table, has as many entries as the table, and is never answered duplicate |
| Fsm.DropRepeat | internal/raft/fsm.go:43-50 | Removing a repeat from the middle of a log changes neither the table nor any other answer |
| Replica.CaughtUp | internal/raft/fsm.go:72-100 | After any run of commits, applies, snapshots, restarts and installs, a caught-up node has the table of the whole log, and every answer it gave is the whole log's |
| Replica.ClusterStepInv | internal/raft/fsm.go:72-100 | Every step keeps each node's table, answers and snapshots equal to those of a prefix of the log |
| Replica.ClusterRunInv | internal/raft/fsm.go:72-100 | So does every run |
| Replica.CatchesUp | internal/raft/fsm.go:26-69 | A node that goes on applying reaches the end of the log |
| Replica.RestartsAt | internal/raft/fsm.go:86-100 | A node restarts with the table of the position its last snapshot was taken at, or empty without one |
| Replica.InstallsAt | internal/raft/fsm.go:86-100 | A node sent another's snapshot goes on from where that was taken |
| Replica.SnapshotCovers | internal/raft/fsm.go:72-83 | A snapshot covers what the node had applied when it was taken, however much it applies before it is written |
| Replica.StaleReadHolds | internal/rpc/raftnode/server.go:127-166 | A found answer from any node stays the answer, with the same record, on every node that has applied at least as much, now or later |
| RaftServer.AcknowledgedExactly | internal/rpc/raftnode/server.go:38-106 | For every command, fault and Raft outcome: applied if and only if the ids are there, no fault was injected and the entry was committed, duplicate as the state machine says; not the leader and failed are refusals with hint and message; the rest are errors |
| RaftServer.Server.Apply | internal/rpc/raftnode/server.go:38-106 | The service applies the entry to its state machine and acknowledges it exactly in that case, and otherwise changes nothing |
| RaftServer.FoundExactly | internal/rpc/raftnode/server.go:109-174 | A read is found if and only if the query is complete and of kind GET_PROCESSED_ORDER, no fault was injected and the order is in the local table |
| RaftServer.OrderQueryAnswer | internal/rpc/raftnode/server.go:109-174 | The executor's query is answered found exactly when the local table has the order, and then with its record |
| RaftServer.Server.Read | internal/rpc/raftnode/server.go:109-174 | The service's answer to any query, from its own state machine: invalid, failed, unknown kind, malformed, not found, found |
| RaftClient.Client.NextAddr | internal/rpc/raftnode/client.go:178-184 | The next round-robin address and the new index, also for an empty list |
| RaftClient.Client.Try | internal/rpc/raftnode/client.go:61-139 | One attempt: dial, request, and what is done about each kind of reply |
| RaftClient.Client.Apply | internal/rpc/raftnode/client.go:57-143 | The loop's result, the fields it leaves, its requests and its sleep equal those of the recursive account of the call |
| LeaderSearch.VisitsEachOnce | internal/rpc/raftnode/client.go:178-184 | Of n consecutive calls of nextAddr exactly one returns each position, and which one |
| LeaderSearch.IdxAfterIs | internal/rpc/raftnode/client.go:178-184 | The index after any number of calls |
| LeaderRoute.CallExactly | internal/rpc/raftnode/client.go:57-143 | For every network, however it changes from attempt to attempt: a call is acknowledged as applied if and only if the client is connected and its route (round robin, hints, repeats after retryable errors) comes to a node that applies, within its tries and before an error that is not retried or a return, through failed dials only, to the last address it was connected to; and it leaves the client without a connection if and only if it had none, its route gets stuck in that way, or its last try is a failed dial |
| LeaderRoute.ClosedForGood | internal/rpc/raftnode/client.go:57-90 | A client left without a connection sends nothing in any later call, whatever the networks, and every such call fails |
| LeaderRoute.NeverLeavesDown | internal/rpc/raftnode/client.go:89-102 | A call connected to a node that answers retryable errors spends all its remaining tries there and fails |
| LeaderRoute.ClosedConnectionFails | internal/rpc/raftnode/client.go:63-78 | After a failed dial a try at the client's own address fails without a request |
| FixedNetwork.FindsLeaderExactly | internal/rpc/raftnode/client.go:57-143 | With one leader, no usable hints, any addresses that cannot be dialled and any nodes that are down: a call is acknowledged as applied if and only if the client is connected and its walk connects to the leader within its tries, before it connects to a node that is down and before it gets stuck |
| FixedNetwork.FindsKnownLeader | internal/rpc/raftnode/client.go:57-143 | When every known address can be dialled and no node is down, one try more than known addresses always suffices, from any starting index |
| FixedNetwork.LosesKnownLeaderExactly | internal/rpc/raftnode/client.go:63-102 | With that many tries, a known leader is missed if and only if it cannot be dialled or the walk is blocked, by a node that is down or by failed dials, before it first comes to it |
| FixedNetwork.InStepExactly | internal/rpc/raftnode/client.go:57-143 | When the known addresses are distinct and the current one is the one at the current index, a known leader that can be dialled is missed if and only if a node that is down and can be connected to comes before it; failed dials of other nodes lose nothing |
| FixedNetwork.HintedLeaderExactly | internal/rpc/raftnode/client.go:115-129 | When every node that is up names the leader, a call finds it if and only if the client is connected to it, or to some node that is up while the leader can be dialled and there is a second try |
| LeaderSearch.RetryExactly | internal/rpc/raftnode/client.go:89-103 | After Unavailable, DeadlineExceeded or ResourceExhausted the client sleeps 100 ms and asks the same node again; after any other error it gives up with one request |
| LeaderSearch.RefusedExactly | internal/rpc/raftnode/client.go:131-139 | A refusal without hint sends the client to the next known address after 100 ms, and on the last try is what the call returns |
| LeaderSearch.ResultIsLastReply | internal/rpc/raftnode/client.go:106-139 | An acknowledgement a call returns is the reply to its last attempt, with its message |
| LeaderSearch.LoopCost | internal/rpc/raftnode/client.go:57-143 | k sleeps take 100 * (2^k - 1) ms from the start; requests, attempts and sleeps are bounded by the retries, and a call that sleeps after each fails |
| LeaderSearch.FiveTries | cmd/order-executor/main.go:180 | The executor's call makes at most 5 requests and sleeps at most 3100 ms |
| FixedNetwork.FailedDialLosesLeader | internal/rpc/raftnode/client.go:63-78 | Three nodes, a leader that can be dialled, one dial that fails: the call ends after one request and leaves the client without a connection |
| LeaderSearch.HintUsableExactly | internal/rpc/raftnode/client.go:154-175 | A leader hint gives an address if and only if it is host:port with port 7000, 7001 or 7002, and then that host with 50070, 50071 or 50072 |
| Executor.ParsedExactly | cmd/order-executor/main.go:134-152 | An order is accepted, as decoded, if and only if it decodes and has an id, a quantity of at least one, a positive price and a symbol; otherwise the first of these that fails is the error |
| Executor.PrintedAcceptedExactly | cmd/order-executor/main.go:134-152 | The same for a printed order |
| Executor.RecordOfCommand | cmd/order-executor/main.go:154-174 | The command a handler sends, applied where the order is new, leaves the record with the order's id, the command's event id, ACCEPTED, accepted and the handler's time |
| Executor.OrderExecutor.Handle | cmd/order-executor/main.go:133-278 | An order that does not parse or validate is refused without a request or a row; any other is answered nil exactly for a duplicate acknowledgement, for a fresh one whose insert succeeds, and for an unacknowledged call whose read, from the node the client is connected to, finds the order, and otherwise with the error of that path; the store gains the order's row exactly on a fresh acknowledgement whose insert gets in; the inputs drive the step system's handler to the same outcome; at most 5 requests and 3100 ms |
| Executor.OrderExecutor.HandleOrder | cmd/order-executor/main.go:154-277 | The same from the Raft command on, with the client's fields after it |
| Executor.OrderExecutor.HandleWithRetry | internal/msg/consumer.go:151-174 | At most three runs, stopping at the first nil, with pauses of 100 ms and 200 ms between them; the store holds what those runs write; in all at most 15 requests and 9600 ms of sleep; an invalid record, or a client without a connection, sends nothing, writes nothing and fails |
| Executor.RetriesWriteOnce | cmd/order-executor/main.go:237-261 | Runs for one order write at most one row: one if and only if some insert took effect and the event was not there before |
| Executor.CallRunsStages | cmd/order-executor/main.go:180 | The attempts of a client call, taken one by one, lead the handler where the call's result leads |
| Executor.CallThen | cmd/order-executor/main.go:180-261 | The same followed by one more input |
| Executor.CallThenLast | cmd/order-executor/main.go:180-261 | The same followed by the read or the insert that the call's result demands, to the outcome |
| Outbox.Store.ProcessOrderCommand | internal/idempotency/store.go:100-200 | Both tables and the result, for a failure at any point of the transaction |
| Outbox.Store.InsertOutboxEvent | cmd/order-executor/main.go:237-261 | The direct insert: refused by UNIQUE, failed, failed but landed, or done |
| Outbox.Store.MarkPublished | internal/idempotency/store.go:236-245 | Marks the rows with that event id and nothing else |
| Outbox.Store.ListUnpublished | internal/idempotency/store.go:203-233 | Unpublished rows only, oldest first, each once, and a row is left out only when the limit is reached by rows no younger |
| Outbox.InsertedRow | cmd/order-executor/main.go:237-258 | An insert is refused if and only if the event id is taken; otherwise it adds one row, field by field down to the payload, and changes nothing else |
| Outbox.InsertKeepsConstraints | internal/idempotency/store.go:75-84 | An insert keeps event ids unique and row ids increasing |
| Outbox.MarkKeepsConstraints | internal/idempotency/store.go:75-84 | So does marking |
| Outbox.EventRowWellFormed | internal/idempotency/store.go:157-177 | A row's payload decodes to the event of the row's own order |
| Outbox.EndsExactly | internal/idempotency/store.go:100-185 | Each error, the fresh verdict and the duplicate verdict of a command, if and only if the fault met, the order's presence and the event id's being taken say so |
| Outbox.VerdictSays | internal/idempotency/store.go:107-199 | A duplicate verdict carries the recorded status and its reason; a fresh one ACCEPTED, accepted and the event written, field by field down to its payload |
| TxStore.CallsKeepPaired | internal/idempotency/store.go:100-200 | After any calls failing anywhere, the two tables are in bijection by order id, with event id = "evt-" + the accepted command's |
| TxStore.ProcessKeepsPaired | internal/idempotency/store.go:144-185 | One command, with any failure, keeps that bijection |
| TxStore.AllOrNothing | internal/idempotency/store.go:100-200 | A failed call changes nothing, an accepted order has its event, and "no outbox event found" is answered exactly when that lookup fails |
| TxStore.StoreAgreesWithFsm | internal/idempotency/store.go:107-153 | The store and the state machine give the same verdicts on a command sequence if and only if no two orders are first seen with one event id; and then keep the same first command per order |
| TxStore.NextVerdict | internal/idempotency/store.go:107-153 | After agreeing, the next command gets the same verdict unless it is new and its event id is taken |
| Publisher.Publisher.PublishBatch | internal/idempotency/publisher.go:52-112 | Rows and topic after a batch over some listing of at most 100 rows, with each decode, produce and mark able to fail; every new record carries a listed row's event to that row's topic under its key; the count is that of the listed rows that decode, are acknowledged and are marked |
| Publisher.OneRowExactly | internal/idempotency/publisher.go:65-97 | What one row does: passed over when its payload does not decode, as many copies as land of its event to its topic and key, marked at the batch's time when produced and marked |
| Publisher.Publisher.Run | internal/idempotency/publisher.go:34-49 | A run over ticks takes rows and topic through one such batch after another; a failed listing changes nothing |
| Publisher.RunIsHistory | internal/idempotency/publisher.go:34-49 | The rows of such a run make a history of ticks, whatever the topic held |
| Drain.RunInv | internal/idempotency/publisher.go:65-102 | In every run of inserts and publishes, each record occurs on the topic once per marked row plus its surplus copies |
| Drain.Occurrences | internal/idempotency/publisher.go:76-97 | One executor alone, whatever is inserted: an event is on the topic once if its row is marked, plus the copies whose produce or mark went wrong |
| Drain.MarkedIsFinal | internal/idempotency/store.go:203-245 | While one executor alone takes steps, whatever is inserted, it never produces a marked row again |
| Drain.CleanRun | internal/idempotency/publisher.go:65-102 | The topic holds one copy of each marked row's event and nothing else if and only if every publish was clean |
| Drain.BatchIsRun | internal/idempotency/publisher.go:65-102 | A batch, complete or cut short anywhere, is a run of single publishes |
| Starvation.NoStarvation | internal/idempotency/publisher.go:52-112 | With p < 100 rows that always fail and g that succeed, t ticks with t * (100 - p) >= g publish all g and leave exactly the p |
| Starvation.ProgressAfter | internal/idempotency/publisher.go:52-112 | After t ticks at least t * (100 - p) good rows are published, or all of them |
| Starvation.TickProgress | internal/idempotency/publisher.go:52-112 | One tick publishes at least 100 - p of the good rows, or all of them, and loses no failing row |
| Starvation.StarvesBehindBatch | internal/idempotency/store.go:203-212 | Behind 100 older rows that always fail a row is never published, however many ticks pass |
| Starvation.PublishedInTime | internal/idempotency/publisher.go:52-112 | A good row is published after t ticks with t * (100 - p) >= g, where only the p failing and g good rows no younger than it count |
| Starvation.PublishedExactly | internal/idempotency/publisher.go:52-112 | A good row that shares its creation time with no failing row gets published, given as many ticks as good rows no younger than it, if and only if fewer than 100 failing rows are older; younger ones do not matter |
| Starvation.BatchMarks | internal/idempotency/publisher.go:65-97 | A batch marks exactly the listed rows that succeed |
| Starvation.ListingCovers | internal/idempotency/store.go:203-233 | A listing is full or has every unpublished row |
| Consumer.Consumer.OnRecord | internal/msg/consumer.go:112-144 | A record takes a slot and starts a goroutine, or is skipped |
| Consumer.Consumer.OnHandlerReturn | internal/msg/consumer.go:119-133 | A success commits the position after the record, unless that commit fails, which is not noticed; an error is counted |
| Consumer.Consumer.OnExit | internal/msg/consumer.go:117 | The slot is given back |
| Consumer.AlwaysBalanced | internal/msg/consumer.go:98-145 | In every run tokens = goroutines that have not exited <= maxInflight, and polled = in handler + succeeded + failed + skipped, with both counters right |
| Consumer.SlotReleasedOnce | internal/msg/consumer.go:117 | A returned goroutine can always give its slot back, and only once |
| Consumer.AlwaysAccounted | internal/msg/consumer.go:98-145 | Each record went to one goroutine or was skipped, and the committed position follows a record handled successfully |
| Consumer.CommittedExactly | internal/msg/consumer.go:119-133 | The committed position is that of the last handler that returned success and whose commit took effect, and of no other event |
| Consumer.SkippedExactly | internal/msg/consumer.go:112-144 | A record was skipped if and only if it was polled while all slots were taken |
| Consumer.HandledBelowExactly | internal/msg/consumer.go:131-144 | Everything from the start up to a position was handled if and only if nothing below it was skipped and every goroutine for one below it has succeeded |
| Consumer.PassedOverForGood | internal/msg/consumer.go:131-144 | A record skipped below the position a restart resumes at is never handled, before or after, and no later commit goes back to it |
| Consumer.SkippedIsPassedOver | internal/msg/consumer.go:137-144 | A run in which a later commit passes over a skipped record |
| StreamProcessor.HandleTick | cmd/stream-processor/main.go:100-144 | What is produced for a tick (topic, key and a value that decodes to the order), and when nothing is |
| StreamProcessor.SameOrderExactly | cmd/stream-processor/main.go:113-129 | Two ticks, handled at whatever times, make the same order id exactly when they have the same event id |
| StreamProcessor.SideExactly | cmd/stream-processor/main.go:113-129 | The order is a SELL if and only if the price in hundredths, its fraction dropped, is even, else a BUY; of ten, at the tick's price, for its symbol, under ids made from the tick's |
| StreamProcessor.TickRoundTrip | cmd/stream-processor/main.go:101-105 | A printed tick decodes to itself |
| StreamProcessor.TickRefused | cmd/stream-processor/main.go:101-105 | A tick is refused if and only if it is no object or a field has a value that does not fit its type |
| Verifier.OrderCounts.OnRecord | cmd/verifier/main.go:67-77 | The counts stay those of the records seen, and the first event id of an order stays |
| Verifier.OrderCounts.OnEvent | cmd/verifier/main.go:67-77 | The same for a decoded record, with the exact new map of first event ids |
| Verifier.Analyze | cmd/verifier/main.go:95-130 | Whatever order the map is walked in: passes iff no order id occurs twice, the total is the number of events, and unique = total iff it passes |
| Verifier.Verify | cmd/verifier/main.go:59-131 | The same for a whole run over the consumed records |
| Verifier.RepeatsExactly | cmd/verifier/main.go:100-105 | No order id repeats if and only if each occurs once |
| Brokers.SplitString | cmd/producer/main.go:169-184 | The loop computes the left-to-right split |
| Brokers.TrimSpace | cmd/producer/main.go:186-196 | The two loops cut what the trim function cuts |
| Brokers.SplitAndTrim | cmd/producer/main.go:158-167 | The trimmed non-empty parts, in order |
| Brokers.ParseBrokers | cmd/producer/main.go:148-156 | The broker list |
| Brokers.BrokerListRoundTrip | cmd/producer/main.go:148-196 | Any broker names, printed with commas and any spaces around them, are read back |
| Text.SplitIsExact | cmd/producer/main.go:169-184 | Joining the parts gives the string back, and no part contains the separator |
| Text.SplitOfJoin | cmd/producer/main.go:169-184 | Splitting undoes joining, for parts free of the separator |
| Text.TrimCutsSpace | cmd/producer/main.go:186-196 | Trimming cuts all spaces at both ends and nothing else |
| ChaosProfile.ParseProfile | internal/chaos/config.go:49-80 | The numbers or the first error, with all three numbers zero on an error |
| ChaosProfile.ErrorStays | internal/chaos/config.go:55-77 | The first part that does not parse decides the result |
| ChaosProfile.ProfileRoundTrip | internal/chaos/config.go:49-80 | A printed profile is read back for all non-negative machine integers, parts in either order, with any spaces around them |
| ChaosProfile.NumbersRead | internal/chaos/config.go:59-74 | A printed number, with or without a sign, is read if and only if it fits 64 bits |
| ChaosProfile.NotNumbers | internal/chaos/config.go:59-74 | A text with no digits or something else among them is refused |
| ChaosProfile.DropRead | internal/chaos/config.go:57-62 | A drop-pct part sets the percentage or is refused for its number |
| ChaosProfile.DelayRead | internal/chaos/config.go:63-75 | A delay part with one dash sets both bounds or is refused for the first that is not a number |
| ChaosProfile.DelayIgnored | internal/chaos/config.go:65-66 | A delay part with no dash or several is ignored |
| ChaosProfile.OthersIgnored | internal/chaos/config.go:50-77 | Other parts are ignored, and an empty profile is all zeros |
| Messages.OrderCmdRoundTrip | internal/msg/schema.go:12-20 | An encoded order command decodes to itself |
| Messages.OrderEventRoundTrip | internal/msg/schema.go:23-29 | An encoded order event decodes to itself |
| Messages.ProcessedRoundTrip | internal/raft/types.go:29-35 | An encoded record decodes to itself |
| Messages.UpsertRoundTrip | internal/raft/types.go:44-65 | An encoded upsert comes back through the envelope and the payload |
| Messages.OrderNames | internal/msg/schema.go:12-29 | Which field of an order command and of an order event goes under which name |
| Messages.RecordNames | internal/raft/types.go:20-35 | Which field of an upsert and of a record goes under which name |
| Messages.OrderCmdRefused | cmd/order-executor/main.go:135-138 | An order command is refused if and only if a field has a value that does not fit its type (a string, a 64-bit integer, a number); a missing or null one fits |
| Messages.OrderEventRefused | internal/idempotency/publisher.go:67-74 | The same for an order event |
| Messages.UpsertRefused | internal/raft/fsm.go:38-41 | The same for an upsert |
| Messages.ProcessedRefused | internal/raft/fsm.go:92-96 | The same for a record of the table |

## Left out

- Raft consensus (internal/raft/node.go): elections, replication and stores are assumed to give one committed log of which each node applies prefixes; membership (Join, Leader) is left out with it.
- Kafka, gRPC and SQLite: topics are sequences, calls have every outcome the code distinguishes, tables are rows with the declared constraints. A commit that reports an error is taken to have rolled back; the executor's single insert may land although it reports one.
- JSON text: values are trees, so case-insensitive and repeated keys, number formats and escapes are not modelled. Order ids are taken to need no escaping in the executor's formatted read query.
- Fsm.FSM.Restore: the JSON text `null` leaves a nil map in Go, which reads like the empty table modelled here but panics on the next write; `Persist` never writes it, it always writes an object.
- Fsm.FSM.Apply: locks are not modelled; each call is atomic. GetStateSnapshot repeats the copy loop of Snapshot.
- Floating point: prices are reals; only their sign and the parity of the truncated product with 100 are used.
- Starvation.PublishedExactly: rows created at the same millisecond come in an order the query does not specify, so ties with failing rows are left open; `PublishedInTime` covers them on the safe side.
- Wall-clock time: timestamps are inputs, deadlines are outcomes of calls, and only explicit sleeps are counted, in unbounded integers.
- RaftClient.Client.Apply: concurrent calls through one client share its fields without a lock; each call is atomic here. Its loop body is the method `Try`; sleeping moves to the loop, since every attempt that goes on sleeps.
- Executor.OrderExecutor.HandleWithRetry: the handler closure is two methods, `Handle` and `HandleOrder`, and `HandleRecord` is what the retry loop needs of them; the retry loop is modelled for this one handler, with nothing else writing the store between its runs; the step system has every interleaving of handler steps.
- Pipeline: requests, reads and inserts are atomic steps; a process crash is a crash of each of its handlers; clients of the Raft nodes other than the executors are left out.
- Liveness: that every order eventually gets its row is not true of the code; what is stated is which orders have one when nothing of them is on its way.
- Consumer: one partition; a restart goes on at the committed position; rebalancing and the poll loop's shutdown are left out; a maxInflight that is not positive is not special here.
- Verifier: the consumer's callbacks are atomic, though they run concurrently on unlocked maps; printing and the expected-unique warning are left out.
- cmd/producer: its order generation is left out. It marshals bytes that are already JSON, so its records do not decode as orders, and it is not composed with the executor.
- Health checks, logging, environment settings, injected delays and drops as random choices (they are outcomes here), the leadership monitor, the market ingestor and the RPC stubs of the executor and stream processor: plumbing.

# dag_workflow scheduling core in Dafny

This project models the per-run scheduling state machine of `dag_workflow`,
together with the data it runs over:

- the node and workflow status enums, the node description, the recorded
  failure and the mutable run context (`dag_workflow/datamodel/core_models.py`);
- the observer events and their `to_dict` projection
  (`dag_workflow/datamodel/events.py`);
- `DAGEngine` (`dag_workflow/engine.py`): node and observer registration,
  `submit_work`, status changes with their events, observer notification,
  the scheduling loop `_run_single_workflow` and its two failure handlers.

The engine is modelled sequentially. The thread pool becomes an input, `Env`:

- `Env.outcome` is what each node's task returns or raises;
- `Env.done` is what each `concurrent.futures.wait` reports, cut down to a
  non-empty set of in-flight executions (`Completed`);
- `Env.cancelable` says whether `future.cancel()` would succeed because the
  task has not started.

The futures dictionary is the in-flight list of node ids, in insertion order.
A condition is a function of the results map. The lock is a no-op.

Observers are modelled by what they receive. `delivered` lists every
(observer, event) hand-over in order. The ghost `trace` lists every event
emitted. The status changes, the two failure handlers, the cancel scan and
sweep, the launch step and the handling of one finished execution state
exactly what they append to `trace`, and the status changes also state what
they append to `delivered`. A whole batch, round or run states less about
`trace` (see "Left out"). `NotifyObservers` links `trace` to `delivered`.

Modules:

- `Wrappers`: `Option`, `Result`.
- `CoreModels`: the statuses and records.
- `Events`: the event union and `ToDict`.
- `Scheduling`: the pure rules.
  - The ready set, computed as the Python comprehension does, with its
    KeyError. `ReadyFilter` is the reference definition.
  - The condition test, the launch step and the batch the wait reports.
  - The cancellation cascade.
  - `RunConsistent`, the invariant every step keeps. It says:
    - results are exactly the SUCCESS nodes' returned values;
    - every FAILED node's task raised;
    - a node that ever left PENDING except by cancellation had all its
      dependencies SUCCESS when it did;
    - a SKIPPED node has a condition;
    - the in-flight list is exactly the RUNNING nodes, each once.
- `Engine`: the `DAGEngine` class and the step lemmas its methods use.

Where the code and the written design of the system disagree, the model
follows the code:

- The run ends SUCCESS as soon as nothing is ready and nothing is in flight.
  Dependents of a SKIPPED node therefore stay PENDING for good, and the run
  still ends SUCCESS (`RunRound`, `QuiescentBlocked`,
  `SkippedDependencyBlocks`).
- In-flight executions that cannot be cancelled stay RUNNING after a failure.
  Nothing discards their later results: the run simply stops waiting.
- After a failure the rest of the batch is still handled. Two failures in one
  batch run the cascade twice, so the workflow status goes FAILED → FAILED.
  A success in the same batch is still recorded after the workflow FAILED
  event.

## Model

| member | source | states |
|---|---|---|
| CoreModels.NodeStatusOf | dag_workflow/datamodel/core_models.py:8-14 | `NodeStatus(v)` exists exactly for 0..5 and gives the member with that value |
| CoreModels.NodeStatusRoundTrip | dag_workflow/datamodel/core_models.py:8-14 | each of the six members is recovered from its value and from its name |
| CoreModels.WorkflowStatusOf | dag_workflow/datamodel/core_models.py:17-21 | `WorkflowStatus(v)` exists exactly for 0..3 and gives the member with that value |
| CoreModels.WorkflowStatusRoundTrip | dag_workflow/datamodel/core_models.py:17-21 | each of the four members is recovered from its value and from its name |
| CoreModels.SingleRunContext.constructor | dag_workflow/datamodel/core_models.py:24-32 | a new context keeps the input data and has empty statuses, results and exception list, and workflow status PENDING |
| Events.EventLevelOf | dag_workflow/datamodel/events.py:8-13 | `EventLevel(v)` exists exactly for 0..4 and gives the member with that value |
| Events.LevelOrder | dag_workflow/datamodel/events.py:8-13 | DEBUG < INFO < WARNING < ERROR < CRITICAL by value |
| Events.NewNodeStatusChange | dag_workflow/datamodel/events.py:30-44 | the event keeps run, node, both statuses and the given level |
| Events.NewWorkflowStatusChange | dag_workflow/datamodel/events.py:56-67 | the event keeps run and both statuses; its level is INFO whatever level is passed |
| Events.ToDict | dag_workflow/datamodel/events.py:46-133 | every dictionary has distinct keys and starts with the event's level name |
| Events.ToDictKeys | dag_workflow/datamodel/events.py:46-133 | the keys of each variant's dictionary, in order; a workflow change has no `node_id` |
| Events.ToDictNodeStatusChange | dag_workflow/datamodel/events.py:46-53 | the node change dictionary maps each key to the level, run, node and status names |
| Events.ToDictWorkflowStatusChange | dag_workflow/datamodel/events.py:69-75 | the workflow change dictionary reports INFO, the run and both status names, and no node id |
| Events.ToDictErrors | dag_workflow/datamodel/events.py:78-133 | the error dictionaries report ERROR (CRITICAL for the unexpected error), location and message (`fail_message` under `message`), and a run id only for the workflow error |
| Events.ToDictStatusesRecoverable | dag_workflow/datamodel/events.py:46-53 | both statuses of a node change are recovered from its dictionary |
| Scheduling.AllDepsSucceeded | dag_workflow/engine.py:204-207 | `all(...)` over the dependencies: true iff all are SUCCESS; false names a non-SUCCESS one; KeyError only on a missing id, never when all ids are known |
| Scheduling.Readiness | dag_workflow/engine.py:200-208 | one node's test: true iff PENDING with every dependency SUCCESS; KeyError only on a missing node or dependency id |
| Scheduling.ReadyNodes | dag_workflow/engine.py:200-208 | the comprehension equals the reference ready set when it succeeds; it raises KeyError only on a missing id that a graph node or one of its dependencies names, and never when every such id is known |
| Scheduling.ReadyFilterMembers | dag_workflow/engine.py:200-208 | the ready set holds exactly the graph nodes that are PENDING with all dependencies SUCCESS |
| Scheduling.ReadyFilterUnique | dag_workflow/engine.py:200-208 | the ready set keeps node ids unique |
| Scheduling.SkippedDependencyBlocks | dag_workflow/engine.py:204-207 | a node with a SKIPPED dependency is never ready |
| Scheduling.TwoNodeReadiness | dag_workflow/engine.py:200-208 | in the two-node graph of examples/test.py the ready set is the first node, then nothing while it runs, then the second node after SUCCESS, and never the second after a SKIP |
| Scheduling.ShouldExecute | dag_workflow/engine.py:184-190 | true iff the node has no condition or its condition holds of the results |
| Scheduling.LaunchStatus | dag_workflow/engine.py:214-223 | a ready node becomes SKIPPED iff it has a condition that fails, RUNNING otherwise |
| Scheduling.LaunchAt | dag_workflow/engine.py:214-223 | the launch step adds only the ready ids, leaves every other status alone and gives each ready node its launch status |
| Scheduling.LaunchedMembers | dag_workflow/engine.py:214-223 | the submitted executions are distinct, are ready nodes, and are exactly those whose condition lets them run |
| Scheduling.LaunchChanges | dag_workflow/engine.py:214-223 | launching the ready set keeps the keys and SUCCESS nodes; ready nodes were PENDING; only they change |
| Scheduling.LaunchRecords | dag_workflow/engine.py:214-223 | launching keeps the record invariant: a node leaves PENDING only with all dependencies SUCCESS |
| Scheduling.LaunchConsistent | dag_workflow/engine.py:214-223 | launching keeps the run invariant with the new executions appended and removes exactly the ready nodes from PENDING |
| Scheduling.SelectInFlight | dag_workflow/engine.py:225-227 | the reported batch holds distinct ids, exactly the reported ones that are in flight |
| Scheduling.Completed | dag_workflow/engine.py:225-227 | `wait(FIRST_COMPLETED)` gives distinct in-flight ids, at least one iff anything is in flight |
| Scheduling.SuccessConsistent | dag_workflow/engine.py:251-260 | storing a returned value, marking the node SUCCESS and dropping its execution keeps the run invariant |
| Scheduling.CancellationMembers | dag_workflow/engine.py:311-319 | the cascade cancels exactly the in-flight executions whose cancel succeeds; the rest survive |
| Scheduling.CancellationPartitions | dag_workflow/engine.py:311-319 | cancelled and surviving executions are distinct and split the in-flight list |
| Scheduling.AsWrittenCancelScan | dag_workflow/engine.py:316-319 | the loop as written stops at the first execution, in iteration order, whose cancel succeeds; it finishes only when no cancel succeeds |
| Scheduling.AsWrittenScanAborts | dag_workflow/engine.py:316-319 | the as-written loop finishes iff the cascade has nothing to cancel |
| Scheduling.AsWrittenCancelCounterexample | dag_workflow/engine.py:316-319 | with two queued executions the as-written loop cancels only the first; the cascade cancels both |
| Scheduling.FailureConsistent | dag_workflow/engine.py:272-309 | the failure handler's status changes keep the run invariant with the survivors minus the failed execution, and leave no graph node PENDING |
| Scheduling.FailureRecordsConsistent | dag_workflow/engine.py:272-309 | the failure handler's status changes keep the record invariant: SUCCESS nodes keep their results and a node that left PENDING still had its dependencies SUCCESS |
| Scheduling.FailureInFlight | dag_workflow/engine.py:272-309 | after a failure the in-flight list, the survivors of the cancel scan without the failed execution, is exactly the RUNNING nodes, each once |
| Scheduling.AfterFailureKeepsTerminal | dag_workflow/engine.py:272-309 | the failure handler makes the failed node FAILED and changes no SUCCESS, FAILED, SKIPPED or CANCELED status |
| Scheduling.FreshRunConsistent | dag_workflow/engine.py:51-58 | a fresh all-PENDING context with no results satisfies the run invariant with nothing in flight |
| Engine.FailureRecordsSplit | dag_workflow/engine.py:229-260 | handling a batch in two parts records the same failures, in the same order, as handling it whole |
| Engine.NoRaiseNoRecords | dag_workflow/engine.py:229-260 | a batch without a raised outcome records no failure |
| Engine.RoundProgress | dag_workflow/engine.py:199-260 | a round without failure takes a node out of PENDING, or keeps PENDING and shrinks what is in flight, and fails no node |
| Engine.LaunchUnfailed | dag_workflow/engine.py:214-223 | the launch step marks no node FAILED or CANCELED |
| Engine.QuiescentBlocked | dag_workflow/engine.py:204-212 | when nothing is ready, every PENDING node has a dependency that is not SUCCESS |
| Engine.FailureSteps | dag_workflow/engine.py:287-309 | composing cancel, sweep and FAILED gives the failure cascade's status map; cancel events are RUNNING→CANCELED |
| Engine.SucceedAllAt | dag_workflow/engine.py:251-260 | marking a batch of RUNNING nodes SUCCESS keeps the keys and the PENDING nodes and changes only the batch |
| Engine.NoFailureWithoutCause | dag_workflow/engine.py:192-270 | with every id the ready step looks up known and no task raising, neither way of ending FAILED applies |
| Engine.FinishedStep | dag_workflow/engine.py:229-260 | once one more execution of the batch has finished, the executions before it still hold their final statuses and events, and it adds its own |
| Engine.AsWrittenFailureStatuses | dag_workflow/engine.py:287-319 | the statuses the handler leaves as written: only the cancelled execution changes when the cancel scan raises; otherwise the cascade, the sweep and FAILED |
| Engine.AsWrittenFailureDiverges | dag_workflow/engine.py:262-319 | the as-written handler matches the cascade iff nothing can be cancelled; otherwise the failed node stays RUNNING, PENDING nodes stay PENDING and the record is at the scheduling loop |
| Engine.DAGEngine.constructor | dag_workflow/engine.py:34-49 | a new engine has no nodes, no queued runs and no events; its only observer is the console one iff printing is asked for |
| Engine.DAGEngine.AddObserver | dag_workflow/engine.py:349-350 | the observer is appended |
| Engine.DAGEngine.AddNode | dag_workflow/engine.py:352-353 | the node is appended |
| Engine.DAGEngine.SubmitWork | dag_workflow/engine.py:51-58 | a fresh context with the input, every registered node PENDING, no results or failures, workflow PENDING, is queued; its run id is returned |
| Engine.DAGEngine.NotifyObservers | dag_workflow/engine.py:180-182 | the event is emitted once and handed to every observer in registration order |
| Engine.DAGEngine.ChangeNodeStatus | dag_workflow/engine.py:157-167 | the status is set and one INFO change event carries the previous and the new status; every observer receives it in order |
| Engine.DAGEngine.ChangeWorkflowStatus | dag_workflow/engine.py:169-178 | the status is set and one change event carries the previous and the new status; every observer receives it in order |
| Engine.DAGEngine.HandleWorkflowException | dag_workflow/engine.py:321-344 | a workflow error event, then the workflow FAILED with its change event, each received by every observer, then a record at `_run_single_workflow` |
| Engine.DAGEngine.CancelOne | dag_workflow/engine.py:316-319 | one more CANCELED node, with its one change event appended after the earlier ones |
| Engine.DAGEngine.CancelPendingTasks | dag_workflow/engine.py:311-319 | exactly the cancellable executions become CANCELED, each with one RUNNING→CANCELED event in order; the rest stay in flight |
| Engine.DAGEngine.CancelPendingNodes | dag_workflow/engine.py:295-297 | every PENDING graph node becomes CANCELED, with one PENDING→CANCELED event each in graph order; nothing else changes |
| Engine.DAGEngine.CancelForFailure | dag_workflow/engine.py:293-297 | the cancel scan then the sweep: every status as after a failure except the failed node's, still RUNNING; RUNNING→CANCELED events, then PENDING→CANCELED events |
| Engine.DAGEngine.HandleNodeException | dag_workflow/engine.py:272-309 | node error event, cascade, sweep, failed node FAILED, its record appended, workflow FAILED, in that order with exactly those events |
| Engine.DAGEngine.LaunchReady | dag_workflow/engine.py:214-223 | each ready node becomes SKIPPED or RUNNING as its condition decides, with one event each; only RUNNING ones are submitted |
| Engine.DAGEngine.LaunchStage | dag_workflow/engine.py:214-223 | after launching, the run invariant holds for the new in-flight list and the ready nodes, all PENDING before, are PENDING no more |
| Engine.DAGEngine.ProcessOne | dag_workflow/engine.py:229-260 | one finished execution ends FAILED if it raised, SUCCESS if it returned, with its change event, and no terminal status changes; a raise runs the failure handler with exactly its statuses, events and surviving executions; a return records the result and drops exactly that execution, the rest keeping their order; the invariant is kept |
| Engine.DAGEngine.FailOne | dag_workflow/engine.py:229-249 | a raised outcome runs the failure handler: every status as after a failure, its record appended, the workflow FAILED, the handler's exact events, the surviving executions but the failed one still in flight in order, and the invariant |
| Engine.DAGEngine.SucceedOne | dag_workflow/engine.py:251-260 | a returned value is stored under the node, the node goes RUNNING→SUCCESS with one event, exactly its execution is dropped with the rest kept in order, and the invariant holds |
| Engine.DAGEngine.ProcessUntilFailure | dag_workflow/engine.py:229-260 | the batch up to its first raise: returned ones become SUCCESS in order with one event each; every node handled holds the status its outcome gives it |
| Engine.DAGEngine.FinishOne | dag_workflow/engine.py:229-260 | one more execution after a failure: it ends as its outcome says, with its event, its record is appended if it raised, the workflow stays FAILED and no graph node is PENDING |
| Engine.DAGEngine.FinishBatch | dag_workflow/engine.py:229-260 | after a failure the rest of the batch is still handled: each node ends FAILED or SUCCESS as its outcome says, with its event; the records are appended in order; the workflow stays FAILED and no graph node is PENDING |
| Engine.DAGEngine.ProcessBatch | dag_workflow/engine.py:229-260 | the batch fails iff some outcome raised; each raise is recorded in batch order; every batch node ends FAILED or SUCCESS as its outcome says, with its event; without a raise, exactly the batch becomes SUCCESS with exactly its events |
| Engine.DAGEngine.LaunchAndProcess | dag_workflow/engine.py:214-260 | a round with work keeps the status keys and either fails the run through a batch with a raised outcome, its records and final statuses, or makes progress keeping the invariant |
| Engine.DAGEngine.ProcessLaunched | dag_workflow/engine.py:225-260 | the wait and the batch step after a launch: the run fails through a batch with a raised outcome, with its records and final statuses, or no node fails and the round makes progress |
| Engine.DAGEngine.RunRound | dag_workflow/engine.py:199-270 | a round ends the run SUCCESS iff nothing is ready and nothing in flight; a KeyError of the ready step ends it FAILED with exactly one loop record of the missing id, changing no status; without one it fails only through a batch with a raised outcome, or launches and processes with progress |
| Engine.DAGEngine.RunSingleWorkflow | dag_workflow/engine.py:192-270 | the run terminates SUCCESS or FAILED, starts with the RUNNING event and keeps the record invariant; FAILED only through a KeyError of the ready step or a batch with a raised outcome; SUCCESS whenever every id is known and no task raises |

## Left out

- Thread pools, the dispatcher and monitor threads, the queue consumer and the context lock. The model is sequential, and the pool's choices are the `Env` input.
- `_monitor_works`, which is the only emitter of `UnexpectedErrorEvent`, along with the JSON result file and `get_result` polling. These are file I/O and sleep loops; the event itself is modelled.
- Logging, `traceback.format_exception` and `uuid.uuid4()`. Messages are opaque strings, a KeyError's text is `KeyErrorText(key)`, and the run id is a parameter.
- Task bodies and conditions. They are inputs; a condition that raises, and a task that never returns, are not modelled.
- `PrintObserver` and the console rendering. Observers are ids, and what they receive is `delivered`.
- Engine.DAGEngine.RunSingleWorkflow: states the events of a run only as a prefix (the RUNNING event first, the SUCCESS event last).
- Engine.DAGEngine.FinishBatch: states that the trace grows and holds each handled node's final status-change event, not the exact sequence of events after a failure in the batch (a second failure handler's cancel and sweep events are not listed).
- Engine.DAGEngine.ProcessBatch: for a batch that raised, states only that the trace grows and holds each batch node's final status-change event, not the exact sequence; without a raise the exact events are stated.
- Engine.DAGEngine.ProcessLaunched: states only that the trace grows.
- Engine.DAGEngine.LaunchAndProcess: states only that the trace grows.
- Engine.DAGEngine.RunRound: states the exact trace only of a round that ends SUCCESS; otherwise only that the trace grows.
- `delivered` is stated by `NotifyObservers`, the two status changes and `HandleWorkflowException`; the steps built on them state `trace` only.
- Observers that raise. An exception from an observer inside `_notify_observers` (dag_workflow/engine.py:180-182) would leave the status change half done and propagate to the `except` of the scheduling loop (dag_workflow/engine.py:262-270); observers here only receive events.
- Engine.DAGEngine.RunSingleWorkflow: requires unique node ids. The source never checks this, and with duplicates it would submit a node twice.
- Engine.DAGEngine.ChangeNodeStatus: requires the id to be a key. Every caller passes a key of the status map, so its KeyError cannot occur.
- The order in which `wait` returns its `done` set. It is a Python set, so `Env.done` fixes an order.
- A node added after `submit_work` is missing from that run's status map. The ready step's KeyError models this.
- The handling of an abandoned execution finishing after the run ended. The source ignores it, and so does the model.

## Findings

| source | as written | input that shows it | evidently intended | confidence | as-written member | corrected member |
|---|---|---|---|---|---|---|
| dag_workflow/engine.py:316-319 | `_cancel_pending_tasks` pops from `futures` while iterating `futures.items()`. The next step of the iteration raises RuntimeError (dictionary changed size during iteration), so the cascade stops after the first successful cancel. The error escapes `_handle_node_exception` into the workflow-exception path: the failed node stays RUNNING, PENDING nodes are not cancelled, and the record goes under `_run_single_workflow` (`AsWrittenFailureDiverges`). | in flight `a`, `b`, `c`; `a` raised; `b` and `c` not started | cancel every not-started execution over a snapshot of the in-flight set, then continue the failure handler | high (not executed) | Scheduling.AsWrittenCancelScan | Engine.DAGEngine.CancelPendingTasks |

# Dexaflow core, modelled in Dafny

Dexaflow runs DAGs of tasks on pods and on pools of warm workers. This project models the parts of
it whose correctness is hardest to see from the code, and proves properties that hold for every
input, every run or every interleaving.

**The warm-worker assignment protocol.** A control plane keeps a registry of workers, a two-level
index of the free ones and a table of leases. Workers hold a long-lived stream, receive an
assignment through a one-slot channel, acknowledge it, run it and signal that their slot is free.
Streams end, reconnect and take over identities; lease timers fire late; a reclaim observer requeues
what certainly did not run.

- `Registry` is the registry as a value, one function per method, with the invariant each method keeps.
- `RegistryObject` is the registry as the object the program has: maps of references, busy flags and
  channels changed in place. Every method is proved to do to the object what its function does to the value.
- `RegistrySystem` drives the registry by arbitrary sequences of calls and keeps the history: settlement
  of assignments, requeues and the currency of registrations are proved of every run. `RegistrySteps` says
  what each of its steps changes, field by field, and what follows for the reclaim observer.
- `Fleet` and `FleetPhases` put registry, stream handlers, receive goroutines and agents together and
  prove slot accounting over every interleaving; `FleetOverlap` shows what an expired lease allows and
  `FleetStray` what a slot-free signal of an older stream does.
- `WarmAgent` is the worker's own loop: one connection after another, each a sequence of assignment cycles.
- `Credentials` is the bearer swap raced by the heartbeat goroutine.

**DAG topology.** `TaskGraph` says what paths, cycles and topological orders of a task graph are, without
an algorithm; `StringOrder` is the order of task ids. `TopoSort` is the structure view's Kahn sort and
`Expansion` the closure used by a clear, both as the loops the program has.

**Secret masks.** `Json` is the tree of a parsed JSON document (section 3 of RFC 8259) with paths into it,
`SecretMask` the redaction and the merge-back as functions of trees, and `Connections` the recursive loops
of the connection API, its PATCH mapping and the tri-state write.

**One attempt.** `AttemptVerdict` takes an attempt, on a context that may end, from its spec to its one
reported verdict, `LogLines` is the streaming line splitter. `Leadership` is the watchdog of a scheduler leader and `GridSummary` the
aggregation behind the grid. `Wrappers` holds the option type.

## How it is modelled

- Every registry method runs under one mutex, so it is one step. A lease timer is a step that may happen
  for any id at any time, settled or not. A goroutine that dies takes no further step.
- Runs assume fresh assignment ids, which the dispatcher mints as UUIDs, and nothing else of the callers.
- Task ids are distinct, as registration requires. Dependencies may repeat, name their own task or nothing.
- Which JSON keys are sensitive is an arbitrary predicate; which attempt a token speaks for is an
  arbitrary function of the token. Both are parameters of the theorems.
- Clocks, timers, random back-off, the network and the user's process are inputs: scripts of what they
  answer, over which the theorems quantify. In `AttemptVerdict` they also say when.

## Where the code and its descriptions differ

The model follows the code. Each difference is a lemma below, with the exact condition where there is one.

- The cyclic remainder of the sort is appended in declaration order; a comment promises id order
  (`TopoSort.RemainderSortedIff`, `TopoSort.RemainderNeedNotBeSorted`).
- A clear that includes both directions promises all ancestors and descendants of its seeds. The walks share
  one visited map, so a task between two seeds is left by one of the two directions
  (`Expansion.SharedMarksMissATask`; the exact conditions are `Expansion.ExactThroughoutIff`,
  `Expansion.TwoSeedsExactIff` and `Expansion.BothDirectionsExactIff`).
- Cancelling an idle warm worker is described as a clean exit. With an idle timeout set, the receive may
  return the context's own error, which is reported as a failure (`WarmAgent.CancelIsCleanIff`).
- An attempt killed by the watchdog is described as failed and reported. The report is made on the context
  the watchdog just ended, so whatever the server would say comes too late
  (`AttemptVerdict.WatchdogVerdictOnlyRecorded`, `AttemptVerdict.WedgedIsNotReported`).
- The execution_timeout classification is meant for a process its declared timeout ended. It is made after the
  logs are closed, from the process's context alone, so a watchdog deadline that comes first and a process that
  was done in time while closing its logs took longer are classified the same way; the latter loses its SUCCESS
  (`AttemptVerdict.MislabelledIff`, `AttemptVerdict.SuccessLostIff`, `AttemptVerdict.PromptIsTimedOut`).
- A lease expiry frees a worker that may still run the attempt, so a worker can hold two assignments
  (`FleetOverlap.SecondAssignmentIff`, `FleetOverlap.WorkerHoldsTwo`).
- A masked element of an array is not restored when the stored element is null, while a masked object member is
  (`SecretMask.MaskSurvivesIff`).

The attempt bound of a warm worker is counted per connection, while it is described as a bound on the worker.
It does bound the worker, because the server refuses a stream only before it registered the worker
(`WarmAgent.WorkerBound`), and it rests on exactly that (`WarmAgent.WorkerBoundIff`).

## Model

| member | source | states |
|---|---|---|
| `Fleet.SlotAccounting` | internal/agentrpc/worker_registry.go:175-290 | in every interleaving of registry, handlers and agents, an entry's free flag plus its assignments in channel, on the wire or with the agent plus its slot-free signals in transit is at most 1 plus its expired leases plus slot-frees another stream sent for its identity, and at least 1 while the entry is current |
| `Fleet.SlotsKeep` | internal/agentrpc/await_assignment.go:88-186 | every single move of any participant keeps that count |
| `Fleet.HeldAfter` | internal/agent/warm.go:419-480 | how each action of a handler, an agent or a receive goroutine changes what its stream holds: only taking from the channel adds one and only applying a slot-free removes one |
| `Fleet.FleetDrivesRegistry` | internal/agentrpc/await_assignment.go:58-186 | every fleet run drives the registry through some run of the registry system, so what holds of all those runs holds here |
| `Fleet.FleetSettles` | internal/agentrpc/worker_registry.go:139-290 | with fresh offers, settlement holds along every fleet run |
| `Fleet.FirstInFirstOut` | internal/agentrpc/await_assignment.go:88-186 | the two directions of a stream lose nothing and keep order: sent is appended, received is the first |
| `Fleet.StoppedForGood` | internal/agentrpc/await_assignment.go:88-186 | a handler that returned takes and sends nothing more, and a receive goroutine that stopped reads and applies nothing more |
| `Fleet.OpenEffect` | internal/agentrpc/await_assignment.go:58-87 | a stream that is not refused starts idle, served and read, with nothing on its way; a refused one is none |
| `FleetPhases.FreeLeasedBusyExclude` | internal/agentrpc/worker_registry.go:175-257 | until deregistration, and while no lease of it expired and nothing strayed, an entry has exactly one slot and is in exactly one of free, leased and busy, with at most one lease |
| `FleetPhases.AlwaysOrderly` | internal/agentrpc/worker_registry.go:175-290 | over every run such an entry is in one of four phases, each fixing registry flags, leases, channel, wire and agent at once |
| `FleetPhases.HonestKeeps` | internal/agentrpc/await_assignment.go:167-186 | everything a stream carries down or up belongs to an assignment placed on that stream's own entry |
| `FleetPhases.ChannelNeverOccupied` | internal/agentrpc/worker_registry.go:175-205 | an entry without a lapse that is picked always takes the assignment: the occupied-channel branch is not reached |
| `FleetPhases.FirstExpiryAddsASlot` | internal/agentrpc/worker_registry.go:269-290 | the bound is tight: the first lease of an entry to expire always leaves it with two slots and free |
| `FleetPhases.NothingStrays` | internal/agentrpc/worker_registry.go:248-257 | when a stream of an identity opens only after its earlier ones are no longer read, no slot-free is ever applied to another stream's entry, however often workers reconnect |
| `FleetStray.SlotFreeStrays` | internal/agentrpc/await_assignment.go:167-186 | a run without an expired lease in which the slot-free of an identity's older stream frees its newer, busy worker while that runs an assignment |
| `FleetOverlap.SecondAssignmentIff` | internal/agentrpc/worker_registry.go:175-290 | after the first lease of an entry expires the entry can be picked again, and the next assignment is accepted exactly when its channel is empty, while the first is still held |
| `FleetOverlap.WorkerHoldsTwo` | internal/agentrpc/worker_registry.go:269-290 | a run at whose end the agent holds one assignment and its channel another |
| `RegistrySystem.Settlement` | internal/agentrpc/worker_registry.go:139-290 | over every run with fresh ids, late timers included, each placed assignment is in exactly one place: leased, bound once or reclaimed once, and the binding or event carries the run, task, try and pod it was placed with |
| `RegistrySystem.SettleKeeps` | internal/agentrpc/worker_registry.go:139-290 | each step keeps that count of places at one |
| `RegistrySystem.LedgerGone` | internal/agentrpc/worker_registry.go:139-169 | reclaiming all leases of one entry at once moves each of them from leased to exactly one event |
| `RegistrySystem.AssignedWereOffered` | internal/dispatch/dispatch.go:288-299 | only offered ids are ever placed |
| `RegistrySystem.RequeuedAtMostOnce` | cmd/dexaflow-server/main.go:1054-1076 | over every run an assignment is requeued at most once, with its own run, task and try, and never if an ack bound it or its lease expired |
| `RegistrySystem.BalanceHolds` | cmd/dexaflow-server/main.go:1054-1076 | in every reachable state each worker-gone or refused event is pending or requeued, never both and never lost |
| `RegistrySteps.RequeuedExactly` | cmd/dexaflow-server/main.go:1054-1076 | over every run, once no event is pending, an assignment was requeued exactly once if an event says its worker was lost or refused it, and not at all otherwise |
| `RegistrySteps.CanHandleAll` | cmd/dexaflow-server/main.go:1054-1076 | every run can be continued by the observer alone until no event is pending, which leaves registry, events and placements as they are |
| `RegistrySteps.ObserveStep` | cmd/dexaflow-server/main.go:1054-1076 | handling an event takes it off once and requeues its own run, task and try once if the worker is gone or refused, never if the lease expired; nothing else changes |
| `RegistrySteps.AckStep` | internal/agentrpc/worker_registry.go:213-244 | a started ack settles the lease, makes its worker busy and adds one binding of the leased attempt to the worker's pod; a refusal settles it with one event; an unknown id changes nothing |
| `RegistrySteps.TimerStep` | internal/agentrpc/worker_registry.go:269-290 | a lease that expires is dropped with one event that says so; a settled id changes nothing |
| `RegistrySteps.EndStep` | internal/agentrpc/worker_registry.go:139-169 | the end of a current entry's stream drops exactly its leases, each with exactly one worker-gone event, and the end of any other changes nothing |
| `RegistrySteps.PlaceStep` | internal/agentrpc/worker_registry.go:175-205 | an accepted assignment is in its worker's channel, leased and placed with its own run, task and try; an occupied channel or an unlisted worker changes nothing |
| `RegistrySteps.ConnectStep` | internal/agentrpc/await_assignment.go:133-163 | each reason to refuse a registration has its own code and changes nothing; an accepted one adds the entry, in the pool of the token |
| `RegistrySteps.QuietStep` | internal/agentrpc/worker_registry.go:248-257 | taking an assignment empties that channel, and a slot-free clears the busy flag of the identity's current worker only |
| `RegistrySystem.AlwaysFaithful` | internal/agentrpc/worker_registry.go:120-205 | in every reachable state an entry is current exactly when it is its identity's newest registration and was not deregistered, no lease points to a deregistered entry, and entries and assignments are in the pool the token was minted for |
| `RegistrySystem.FaithfulKeeps` | internal/agentrpc/await_assignment.go:133-163 | each step, refused registrations included, keeps that |
| `RegistrySystem.NextKeepsConsistent` | internal/agentrpc/worker_registry.go:120-290 | every step keeps the registry consistent and forgets no registration |
| `Registry.RegisterKeeps` | internal/agentrpc/worker_registry.go:120-132 | the new entry is current and free, older ones of the identity are neither, and no other entry changes |
| `Registry.DeregisterKeeps` | internal/agentrpc/worker_registry.go:139-169 | afterwards the entry is neither current nor free; a superseded entry's deregistration leaves its successor alone |
| `Registry.AssignKeeps` | internal/agentrpc/worker_registry.go:175-205 | the entry taken was free, current and of the pool asked for; a bounced send leaves the registry exactly as it was |
| `Registry.MarkFreeKeeps` | internal/agentrpc/worker_registry.go:248-257 | exactly the identity's current entry becomes free |
| `Registry.ExpireKeeps` | internal/agentrpc/worker_registry.go:269-290 | exactly the leased entry becomes free, and only if it is still current and not busy; a settled id changes nothing |
| `Registry.AddFreeLists` | internal/agentrpc/worker_registry.go:302-309 | adding lists that one worker and nothing else, and creates no empty bucket |
| `Registry.RemoveFreeLists` | internal/agentrpc/worker_registry.go:311-320 | removing unlists that one worker and nothing else, and leaves no empty bucket |
| `Registry.PutBack` | internal/agentrpc/worker_registry.go:302-332 | putting back what was taken restores the index, bucket and all |
| `RegistryObject.WorkerRegistry.constructor` | internal/agentrpc/worker_registry.go:103-113 | a new registry is the empty one |
| `RegistryObject.WorkerRegistry.Register` | internal/agentrpc/worker_registry.go:120-132 | changes the object as Registry.Register changes the value, and returns the entry it numbers last |
| `RegistryObject.WorkerRegistry.Deregister` | internal/agentrpc/worker_registry.go:139-169 | changes the object as Registry.Deregister does and emits exactly the events of the leases that entry held, once each |
| `RegistryObject.WorkerRegistry.ReclaimLeases` | internal/agentrpc/worker_registry.go:150-166 | the loop over the lease table drops exactly the worker's leases, in whatever order the map is ranged over |
| `RegistryObject.WorkerRegistry.TakeFree` | internal/agentrpc/worker_registry.go:322-332 | yields some free worker of the pool and unlists it, or nothing exactly when the pool has none |
| `RegistryObject.WorkerRegistry.Assign` | internal/agentrpc/worker_registry.go:175-205 | refuses and changes nothing when the pool has no free worker, and otherwise changes the object as Registry.Assign does for the worker taken |
| `RegistryObject.WorkerRegistry.Receive` | internal/agentrpc/await_assignment.go:118-121 | takes what the worker's channel held and empties it, nothing else |
| `RegistryObject.WorkerRegistry.Ack` | internal/agentrpc/worker_registry.go:213-244 | settles a lease as Registry.Ack does; a started ack yields the binding, a refusal the event, of the lease's own attempt and pod, and an unknown id neither |
| `RegistryObject.WorkerRegistry.MarkFree` | internal/agentrpc/worker_registry.go:248-257 | changes the object as Registry.MarkFree does |
| `RegistryObject.WorkerRegistry.OnLeaseExpire` | internal/agentrpc/worker_registry.go:269-290 | changes the object as Registry.Expire does, and emits an event exactly when the lease was still there |
| `WarmAgent.ServesInOrder` | internal/agent/warm.go:206-278 | what one connection does is a prefix of the cycles (reset scratch, ack, adopt token, run, slot-free) of the assignments it received, in order, whole but for the last, and at most MaxAttempts of them when that bound is set |
| `WarmAgent.ClaimedFirst` | internal/agent/warm.go:419-480 | for every assignment a connection reaches: it is acked if and only if its scratch was clean, and its attempt runs if and only if the ack was sent too; a cycle is never left in between |
| `WarmAgent.PerformedCarriesOut` | internal/agent/warm.go:419-480 | what an assignment causes is the reset alone on an unusable scratch, reset and ack when the ack fails, and otherwise the whole cycle, whatever becomes of the attempt |
| `WarmAgent.KeepsServing` | internal/agent/warm.go:206-278 | assignments without a fault are all served in full while they are fewer than the bound and the worker is not too old, whether or not their attempts succeed |
| `WarmAgent.DrainsAtBound` | internal/agent/warm.go:264-277 | with more of them the worker stops cleanly after exactly MaxAttempts |
| `WarmAgent.AgedDrains` | internal/agent/warm.go:264-277 | a worker past its lifetime stops cleanly after the attempt it had begun |
| `WarmAgent.StopExits` | internal/agent/warm.go:218-262 | the exit for each way a connection stops, case by case |
| `WarmAgent.RunFramed` | internal/agent/warm.go:419-480 | across all reconnects every ack follows its own scratch reset, every token its own ack, every attempt its own token and every slot-free its own attempt |
| `WarmAgent.RunBounds` | internal/agent/warm.go:155-196 | a run opens at most MaxReconnects + 1 connections, and on any server completes at most MaxReconnects times MaxAttempts - 1, plus MaxAttempts |
| `WarmAgent.GivesUpIff` | internal/agent/warm.go:155-196 | the worker gives up exactly when MaxReconnects + 1 connections in a row ended in FailedPrecondition and it was neither cancelled nor unable to dial in between |
| `WarmAgent.RunEnds` | internal/agent/warm.go:155-196 | after each connection the run ends with its exit unless that is FailedPrecondition, and then gives up on a spent budget, ends cleanly on a cancelled back-off, fails on a failed dial or goes on |
| `WarmAgent.RunIsItsConnections` | internal/agent/warm.go:155-196 | what a run does is what its connections do, one after the other, and its attempts add up |
| `WarmAgent.BudgetIs` | internal/agent/warm.go:155-170 | the reconnect budget is MaxReconnects, or 10 when that is not positive |
| `WarmAgent.WorkerBound` | internal/agent/warm.go:212-271 | against handlers as the server has them, over all its connections a worker completes at most MaxAttempts |
| `WarmAgent.ServerRejectsEarly` | internal/agentrpc/await_assignment.go:58-163 | whatever a handler does, FailedPrecondition reaches the worker only as the first item of a stream |
| `WarmAgent.HandlerCodes` | internal/agentrpc/await_assignment.go:58-163 | which refusals are FailedPrecondition, and what each way a handler returns looks like to the worker |
| `WarmAgent.HearsIff` | internal/agentrpc/await_assignment.go:88-131 | what a worker hears of a handler is what it sent, up to any point, and then possibly its own idle timer or context |
| `WarmAgent.WorkerBoundIff` | internal/agent/warm.go:155-278 | after any history of redialled connections, every continuation the server allows keeps the worker within MaxAttempts if and only if no connection so far was rejected after completing an attempt |
| `WarmAgent.EndsAtFirstStop` | internal/agent/warm.go:218-262 | the first item a connection cannot get past decides its exit, whatever follows: clean for idle, end of stream, cancelled, unavailable and a reached bound, an error otherwise; while serving only cancelled is clean |
| `WarmAgent.CancelIsCleanIff` | internal/agent/warm.go:206-278 | cancelling a waiting worker is a clean exit, whichever ready channel its receive takes, exactly when no idle timeout is set |
| `WarmAgent.RecvAssignment` | internal/agent/warm.go:390-413 | a receive returns the stream's result or, with an idle timeout, whatever of stream, timer and context is ready |
| `WarmAgent.ReceiveChoices` | internal/agent/warm.go:390-413 | each ready channel may be the one taken |
| `WarmAgent.WarmRunner.ServeConnection` | internal/agent/warm.go:206-278 | the serve loop meets its specification on whatever its receives return |
| `WarmAgent.WarmRunner.ServeAssignment` | internal/agent/warm.go:419-480 | an unusable scratch stops before the ack and a failed ack before the token; a failed attempt stops nothing; the fault returned is that of the scratch, the ack or the slot-free |
| `WarmAgent.WarmRunner.RedialStream` | internal/agent/warm.go:349-376 | a redial closes the previous redialled connection once; a failed one changes nothing |
| `WarmAgent.WarmRunner.Execute` | internal/agent/warm.go:155-196 | the reconnect loop meets its specification on the connections its receives made, and once it returns every connection it dialled has been closed exactly once |
| `Credentials.CallsCarryTheirOwnLineage` | internal/agent/runner.go:576-591 | in every interleaving of attempts and heartbeats each RPC of attempt N carries attempt N's token or a renewal of it |
| `Credentials.LineageHolds` | internal/agent/runner.go:808-841 | in every reachable state only the running attempt's heartbeat is alive and it holds only its own tokens |
| `Credentials.RenewalIsAdopted` | internal/agent/runner.go:808-841 | a heartbeat that applies its reply makes a renewal the bearer at once, keeps the bearer without one, and ends exactly when told to terminate |
| `Credentials.HeartbeatGoesOn` | internal/agent/runner.go:808-841 | a failed heartbeat call is tried again, and only a heartbeat between calls stops |
| `Credentials.CallsCarryTheBearer` | internal/agent/runner.go:808-841 | each call carries the bearer of its moment |
| `Credentials.AttemptAdopts` | internal/agent/warm.go:443-447 | an attempt begins with the token it is given, or with the last bearer if that is empty |
| `Credentials.ExecutionStages` | internal/agent/runner.go:576-591 | executing starts the attempt's own heartbeat when one is configured, and an attempt that ends before executing has none |
| `Credentials.JoinsTheHeartbeat` | internal/agent/runner.go:576-591 | an attempt is over if and only if its heartbeat has exited, or never was |
| `Credentials.EmptyTokenKeepsTheLast` | internal/agent/warm.go:443-447 | an attempt given a token keeps to its own lineage exactly when that token is not empty |
| `Credentials.TokenSource.Set` | internal/agent/auth.go:40-47 | replaces the bearer unless the new one is empty |
| `TopoSort.AcyclicIsLeast` | internal/api/ui_structure.go:66-117 | on an acyclic task set the result is a topological order and lexicographically least among all of them |
| `TopoSort.OnlyLeast` | internal/api/ui_structure.go:66-117 | and the only order with that property |
| `StringOrder.LeIs` | internal/api/ui_structure.go:91-104 | the order of task ids is that of the first character in which two differ, a prefix coming first |
| `StringOrder.LtIs` | internal/api/ui_structure.go:91-104 | of two ids that differ exactly one is smaller: the proper prefix, or the one with the smaller first differing character |
| `TopoSort.OrderIndependent` | internal/api/ui_structure.go:66-117 | neither declaration order nor order or repetition of dependencies changes the result of an acyclic task set |
| `TopoSort.OrderPermutes` | internal/api/ui_structure.go:66-117 | on every graph the result has each task exactly once |
| `TopoSort.KahnEmitsTheAcyclicPart` | internal/api/ui_structure.go:71-116 | on every graph the Kahn phase emits exactly the tasks no cycle reaches, each after its known upstreams, and exactly the others follow |
| `TopoSort.TopoSortTasks` | internal/api/ui_structure.go:66-117 | the loops return each task spec as it was given, exactly once, in that order |
| `TopoSort.CountEdges` | internal/api/ui_structure.go:71-84 | in-degrees count the known dependencies, children lists name each dependent as often as it names that dependency |
| `TopoSort.Kahn` | internal/api/ui_structure.go:91-104 | the main loop, with its sorted ready list, emits the greedy order |
| `TopoSort.AppendRemainder` | internal/api/ui_structure.go:105-115 | appends exactly the tasks not emitted, in declaration order |
| `TopoSort.RemainderSortedIff` | internal/api/ui_structure.go:105-115 | the part of the result downstream of a cycle is in id order exactly when the tasks downstream of a cycle were declared so |
| `TopoSort.TurnOf` | internal/api/ui_structure.go:66-117 | every result has a place before which no task is downstream of a cycle and after which every task is |
| `TopoSort.RemainderNeedNotBeSorted` | internal/api/ui_structure.go:105-115 | two self-dependent tasks declared b, a come out as b, a |
| `TaskGraph.FullOrder` | internal/api/ui_structure.go:93-115 | an order nothing can extend holds exactly the tasks no cycle reaches |
| `TaskGraph.GreedyIsLeast` | internal/api/ui_structure.go:91-104 | taking the least ready task each time gives the lexicographically least order |
| `Expansion.ExpandSound` | internal/api/resources.go:778-811 | on any graph, seeds and flags the result contains the seeds and only what lies beyond one in a requested direction |
| `Expansion.ExpandExact` | internal/api/resources.go:778-811 | it is exactly that in one direction on any graph, and in both when nothing but a seed lies between two seeds |
| `Expansion.ExactThroughoutIff` | internal/api/resources.go:778-811 | on every acyclic graph both directions are exact after every seed if and only if each seed's relatives that are no relatives of an earlier seed can be reached from it clear of those |
| `Expansion.TwoSeedsExactIff` | internal/api/resources.go:778-811 | for two seeds that is the exact condition of the result |
| `Expansion.LaterSeedRepairs` | internal/api/resources.go:797-805 | with three it is not: a graph on which the first two seeds miss a task the third one reaches |
| `Expansion.BothDirectionsExactIff` | internal/api/resources.go:778-811 | on an acyclic graph both directions are exact in every order of the seeds if and only if nothing lies between two seeds, as soon as whatever does has one neighbour, above or below, only it leads to |
| `Expansion.FirstSeedMisses` | internal/api/resources.go:788-805 | when a task lies on the other side of the first seed, a neighbour only it leads to is missed whatever seeds follow |
| `Expansion.BetweenMisses` | internal/api/resources.go:788-796 | a task with such a neighbour on both sides never has both in the result, on any graph and in any order of the seeds |
| `Expansion.SingleSeedExact` | internal/api/resources.go:778-811 | one seed on an acyclic graph with both flags gives exactly seed, ancestors and descendants |
| `Expansion.SharedMarksMissATask` | internal/api/resources.go:787-805 | edges a to x, y to x, x to b with seeds a and b miss y |
| `Expansion.Walk` | internal/api/resources.go:788-796 | the recursive walk terminates by the shrinking set of unmarked ids and marks what fresh paths reach |
| `Expansion.WalkedExactly` | internal/api/resources.go:788-796 | a walk marks exactly the ids reachable by a path that avoids earlier marks |
| `Expansion.ExpandTaskIDs` | internal/api/resources.go:778-811 | the loop over seeds with its shared map computes the specified set |
| `Connections.PersistedPathByPath` | internal/api/ui_connections.go:181-238 | what is persisted holds no mask, is the stored tree on and below each incoming mask and has the incoming shape everywhere else, and drops only masked top-level keys the store lacks |
| `Connections.PreservedIff` | internal/api/ui_connections.go:181-296 | the stored field is preserved exactly when some incoming mask cannot be resolved |
| `Connections.RoundTrip` | internal/api/ui_connections.go:34-296 | merging back what redaction returned gives the stored extra, or preserves it when it is an object with a literal mask or no object |
| `Connections.ReadMasks` | internal/api/ui_connections.go:34-72 | an extra that is an object is read as one in which every sensitive key, at whatever depth, holds the mask and everything outside sensitive subtrees has its shape |
| `Connections.ReadHidesExactly` | internal/api/ui_connections.go:34-72 | two such extras are read alike if and only if they agree outside sensitive subtrees |
| `Connections.ReadFailsClosed` | internal/api/ui_connections.go:34-48 | any other extra is read as the bare mask, except that an empty one is absent and null is null |
| `Connections.ReadFields` | internal/api/ui_connections.go:101-112 | a read never has the password, and has every other field, an empty text as absent |
| `Connections.WriteFields` | internal/api/ui_connections.go:147-167 | what a write leaves of each field: the stored value when it is absent, or a masked password, and else the payload, the empty one included |
| `Connections.WriteBackIsIdentity` | internal/api/ui_connections.go:101-167 | patching a connection with exactly what was read changes nothing |
| `Connections.WriteLeavesMaskIff` | internal/api/ui_connections.go:147-202 | a write leaves a mask in the extra exactly when its payload is a JSON string or array with the mask in it, or it preserves one that is there; the password never becomes the mask |
| `Connections.MaskNeverStoredIff` | internal/storage/queries/connections.sql:44-65 | a connection without a mask stays so through a sequence of writes exactly when no payload is such a string or array |
| `Connections.MaskInArrayIsStored` | internal/api/ui_connections.go:185-188 | the array of just the mask is stored as it is |
| `Connections.RedactMap` | internal/api/ui_connections.go:53-61 | the loop over the keys, in any order, redacts the map |
| `Connections.RedactAny` | internal/api/ui_connections.go:63-72 | the loop over nested values redacts them |
| `Connections.RedactExtraInPlace` | internal/api/ui_connections.go:34-48 | the whole redaction meets its specification |
| `Connections.UnmaskMap` | internal/api/ui_connections.go:212-238 | the loop over the keys, in any order, merges the map; at top level it drops masked keys the store lacks |
| `Connections.UnmaskSlice` | internal/api/ui_connections.go:247-273 | the loop over an array merges it element by element |
| `Connections.UnmaskExtraInPlace` | internal/api/ui_connections.go:181-202 | the whole merge-back meets its specification |
| `SecretMask.RedactHidesExactly` | internal/api/ui_connections.go:53-72 | two trees redact alike if and only if they agree outside sensitive-keyed subtrees |
| `SecretMask.RedactKeepsShape` | internal/api/ui_connections.go:53-72 | outside those subtrees scalars, key sets and array lengths are kept at every depth |
| `SecretMask.RedactMasks` | internal/api/ui_connections.go:53-61 | every reachable sensitive key holds the mask, and no key appears or disappears |
| `SecretMask.RedactIdempotent` | internal/api/ui_connections.go:53-72 | redacting twice is redacting once |
| `SecretMask.MergeAt` | internal/api/ui_connections.go:212-273 | a merge that leaves no mask is, path by path, the stored tree under masks and the incoming shape elsewhere |
| `SecretMask.MaskSurvivesIff` | internal/api/ui_connections.go:247-296 | a mask survives exactly when it meets no stored value, one that holds a mask, or a null array element |
| `SecretMask.NullsDiffer` | internal/api/ui_connections.go:212-273 | a masked array element does not take a stored null, a masked object member does |
| `SecretMask.HasMaskIff` | internal/api/ui_connections.go:278-296 | a tree has a mask if and only if some path leads to one |
| `SecretMask.MergeOfRedacted` | internal/api/ui_connections.go:212-273 | merging a redacted tree with its original gives the original |
| `Json.ShapesDetermine` | internal/api/ui_connections.go:53-72 | a tree is determined by its shapes along all paths, so the path-by-path statements fix the whole result |
| `AttemptVerdict.RunOneAttempt` | internal/agent/runner.go:138-164 | every attempt ends in the one verdict it deserves, recorded and then reported, or in none |
| `AttemptVerdict.Conclude` | internal/agent/runner.go:611-665 | from the finished process on: timeout, reschedule, failure, outputs, success, in that order |
| `AttemptVerdict.OneVerdict` | internal/agent/runner.go:569-665 | no attempt deserves two verdicts, and none deserves one unless it was prepared and, once its environment was built, announced as running |
| `AttemptVerdict.SomeVerdict` | internal/agent/runner.go:569-665 | every such attempt deserves one: the cases leave no gap |
| `AttemptVerdict.OneReport` | internal/agent/runner.go:843-867 | all terminal calls of an attempt are the same request and carry the verdict it deserves |
| `AttemptVerdict.BeginsWithRunning` | internal/agent/runner.go:138-164 | nothing is done for an attempt without spec or command; once its environment is built the running report comes first |
| `AttemptVerdict.RecordedFirst` | internal/agent/runner.go:856-909 | with a termination log set exactly one record is written, of that verdict and before every call that reports it |
| `AttemptVerdict.Reported` | internal/agent/runner.go:677-699 | an attempt that deserves a verdict does issue its report |
| `AttemptVerdict.RecordedIff` | internal/agent/runner.go:856-909 | a record is written if and only if the attempt deserves a verdict and a termination log is set |
| `AttemptVerdict.FailureIff` | internal/agent/runner.go:677-699 | a failure is reported exactly by the concluding attempts that neither succeed nor reschedule |
| `AttemptVerdict.FailureSays` | internal/agent/runner.go:677-699 | a failure carries exit code 1 when the environment could not be built and else the clamped one of the process, a message that explains it, and is recorded with its reason |
| `AttemptVerdict.FailureMessage` | internal/agent/runner.go:619-664 | the message is the environment's error, the timeout, the run error, the non-zero exit or the first error of a delivery, in that order |
| `AttemptVerdict.AnsweredIff` | internal/agent/runner.go:973-1016 | a report is answered if and only if the server's first final answer, after all retries and back-offs before it, comes before the context ends |
| `AttemptVerdict.VerdictAnsweredIff` | internal/agent/runner.go:569-699 | so is the verdict of an attempt, reported on the attempt's own context from when it was reached |
| `AttemptVerdict.AnsweredAt` | internal/agent/runner.go:973-1001 | an answered report ends when the first final answer arrives |
| `AttemptVerdict.ReportedWhen` | internal/agent/runner.go:569-664 | when the terminal report begins: at once for a failed environment, else after the process and its logs, and on exit 0 in time after the outputs |
| `AttemptVerdict.FinishedWhen` | internal/agent/runner.go:593-618 | the process ends by itself, or a grace after its context |
| `AttemptVerdict.DerivedEndsFirst` | internal/agent/runner.go:593-618 | the context of the process is over exactly when the attempt's or the declared timeout is |
| `AttemptVerdict.CallsAreOneReport` | internal/agent/runner.go:973-1001 | all calls of a report are the same request and only the last can bring a final answer |
| `AttemptVerdict.SuccessIff` | internal/agent/runner.go:619-664 | SUCCESS is issued exactly when the process ran and exited 0 without a run error, with no declared timeout hit and every output delivered |
| `AttemptVerdict.PushedBeforeSuccess` | internal/agent/runner.go:655-664 | before every SUCCESS call each output has been pushed, after the running report |
| `AttemptVerdict.PushIff` | internal/agent/runner.go:655-664 | an output is pushed if and only if the process exited 0 in time and every output before it was delivered, so never after another exit |
| `AttemptVerdict.RescheduleIff` | internal/agent/runner.go:1026-1050 | a reschedule is issued exactly on exit 75 without a run error, with a readable poke time, and with that time |
| `AttemptVerdict.WatchdogVerdictOnlyRecorded` | internal/agent/warm.go:455-471 | the verdict of an attempt its own context cut short gets no final answer, whatever the server would say, and survives exactly when a record is kept |
| `AttemptVerdict.WedgedIsNotReported` | internal/agent/warm.go:455-471 | a process of a second under a watchdog of 20 milliseconds and a server that answers at once: recorded as failed, never answered |
| `AttemptVerdict.TimeoutRightIff` | internal/agent/runner.go:593-628 | an attempt classified as past its declared timeout was ended by it if and only if its own context was not to end earlier and its process was still running then |
| `AttemptVerdict.MislabelledIff` | internal/agent/runner.go:611-628 | it is classified so wrongly in exactly two cases: the attempt's own deadline came first, or the process ended by itself inside its limit and closing the logs passed it |
| `AttemptVerdict.RunningOutIsTimedOut` | internal/agent/runner.go:593-628 | an attempt its declared timeout did end is classified so |
| `AttemptVerdict.SuccessLostIff` | internal/agent/runner.go:611-664 | a process that ended by itself with exit 0 and deliverable outputs loses its SUCCESS if and only if a timeout is declared and a deadline ends its context while the logs are closed; it is then failed by the timeout with exit code 0 |
| `AttemptVerdict.PromptLookKeepsSuccess` | internal/agent/runner.go:611-664 | it keeps its SUCCESS when the logs are closed at once |
| `AttemptVerdict.PromptIsTimedOut` | internal/agent/dial.go:105-144 | ten milliseconds of work under a timeout of fifty, and a hundred to close the logs: no SUCCESS, recorded and taken as failed by the timeout |
| `AttemptVerdict.WedgedIsMislabelled` | internal/agent/runner.go:619-628 | a declared timeout of 50 milliseconds under a watchdog of 20 is recorded as exceeded |
| `AttemptVerdict.ReportRequest` | internal/agent/runner.go:973-1016 | the delivery loop meets its specification: retries without a budget, a final answer or an ended context stops it |
| `AttemptVerdict.ReportBackoff` | internal/agent/runner.go:926-935 | the pauses are 1, 2, 4, 8 seconds and then the heartbeat interval |
| `AttemptVerdict.BackoffValues` | internal/agent/runner.go:926-935 | the same in milliseconds |
| `AttemptVerdict.PushOutputs` | internal/agent/runner.go:655-663 | pushes the outputs in order up to the first that fails, returns its error, and succeeds exactly when none does |
| `AttemptVerdict.ClampExit` | internal/agent/runner.go:1141-1146 | stays in a byte, keeps valid codes, and never turns a failure into 0 |
| `LogLines.SplitAppend` | internal/agent/runner.go:1150-1178 | splitting a stream in two parts goes through the unfinished last line of the first |
| `LogLines.JoinOfSplit` | internal/agent/runner.go:1150-1178 | the pieces joined by newlines are the stream |
| `LogLines.LogWriter.Write` | internal/agent/runner.go:1150-1178 | after any write the lines sent are the complete lines of all bytes written so far, numbered from 1, and the buffer is the rest |
| `LogLines.LogWriter.Flush` | internal/agent/runner.go:1150-1178 | sends the unfinished last line if it is not empty |
| `LogLines.WriteAll` | internal/agent/runner.go:1150-1178 | however the stream is cut into writes, the lines sent are the newline split of the whole without an empty last piece, numbered 1, 2, 3 |
| `LogLines.LinesLoseNothing` | internal/agent/runner.go:1150-1178 | the lines joined by newlines are the whole stream, but for a newline at its very end |
| `Leadership.Watch` | cmd/dexaflow-server/main.go:2266-2305 | unless the context ends first the run is cancelled exactly at the first not-held answer or the third error in a row, with the reason reported once and before the cancel |
| `Leadership.RecentlyHeld` | cmd/dexaflow-server/main.go:2266-2305 | a leader still watching held the lock at one of its last three checks |
| `Leadership.StreakTrips` | cmd/dexaflow-server/main.go:2180-2305 | the failure counter reaches its limit exactly at the third error in a row |
| `GridSummary.AggregateSummaries` | internal/api/ui_summaries.go:73-95 | the pass equals the group-by of the instances per run and task, and the greatest timestamp of all |
| `GridSummary.FoldSummarizes` | internal/api/ui_summaries.go:73-115 | a group's aggregate has the state of the last instance of its highest try, the least start and the greatest end |
| `GridSummary.OrderDoesNotMatter` | internal/api/ui_summaries.go:73-95 | with distinct non-negative tries per run and task every permutation of the input gives the same aggregate |
| `GridSummary.SameSummaries` | internal/api/ui_summaries.go:73-95 | and so equal maps and the same latest time |
| `GridSummary.LatestIsGreatest` | internal/api/ui_summaries.go:117-124 | the latest time is a timestamp of the input and none is later |

## Left out

- HTTP routing, DTO shaping, sign-in and the edges drawn by the structure view: they would only add one-branch facts.
- Storage beyond the tri-state connection write, the Kubernetes executor, the dispatcher and the scheduler.
- gRPC transport, TLS and process control; what they answer is an input of the theorems.
- Real time, except in the reports of an attempt: leases, idle timeouts and lifetimes are steps or inputs that may happen at any point, and reconnect back-offs have no duration.
- JSON text, float precision and duplicate object keys: the model starts from parsed trees.
- Liveness: that a lease is eventually settled or a report eventually delivered depends on timers and fairness.
- Update in place of decoded JSON maps and slices: the loops rewrite local values, so aliasing between the incoming and the stored document is not captured.
- The log sink, heartbeat timing and the assembly of an attempt's environment.
- The exit of a child process and its output files are inputs of an attempt; the third output push, itself a loop over keys, counts as one.
- Expansion.ExpandExact: with both directions its condition is sufficient, not necessary; the exact ones are those of ExactThroughoutIff and TwoSeedsExactIff.
- Expansion.ExactThroughoutIff: is about the result after every seed; with three or more seeds a later seed may repair what an earlier one missed (LaterSeedRepairs), and no condition short of the walks themselves is given for the end result alone.
- Expansion.BothDirectionsExactIff: asks for one neighbour that nothing else leads to, because elsewhere a missed neighbour may be reached another way.
- WarmAgent.WorkerBound: takes as given that the transport itself never produces FailedPrecondition, and counts completed attempts, as the program's counter does.
- AttemptVerdict.ReportRequest: an answer or a back-off that ends together with the context counts as ended by the context; the program's select may take either.

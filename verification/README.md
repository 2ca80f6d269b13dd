# Motion control: models and proofs

This project models the hard core of a motion-control system written in Go and proves what it
keeps, what it promises, and where it breaks its promise. Run `dafny verify dfyconfig.toml`.

Components that update their state in place are classes whose methods are proved against
functions on values; runs in which several goroutines take turns are step protocols on the same
values, so what is proved of every run speaks about the functions the methods refine.

| component | files |
|---|---|
| resource manager | `ResourceTable`, `ResourceAllocation`, `ResourceManager` (class), `ResourceProtocol` (runs) |
| serial frames and CRC-16 | `Words`, `Bytes`, `Crc`, `CrcOrder`, `SerialFrame` |
| execution queue and executor | `CommandIds`, `QueueModel`, `ExecutionQueue` (classes), `CommandPipeline` (runs), `TaskRoundTrip` |
| scheduler | `SchedulerModel`, `PriorityOrder`, `TaskScheduler` (classes), `SchedulerRuns`, `SchedulerFates`, `ActiveTasks` |
| planners and task decomposition | `Geometry`, `LinearPlanner`, `PointToPointPlanner`, `TaskDecomposer` |
| task node trees | `TaskNodes`, `TaskNodeBuild`, `TaskNodeLeaves`, `TaskNodeObjects` (class) |
| configurable binary protocol | `Floats`, `CustomCodec` |

## What the proofs found

- **Resources.** All-or-nothing holds for every order of the three map walks exactly when the check
  refuses or no list repeats a known resource: rollback stops at the first mention of the failing
  ID, so a repeated one stays taken. Under interleaving, no resource ever has two holders, whatever confined requests the other tasks make,
  exactly when the request is confined (where it names a registered resource, it names nothing of another
  type) or asks for something taken from the start: the `break` in the rollback leaves only the inner loop,
  so lists of other types are released in full, whoever holds them.
- **Serial frames.** A corrupted frame is accepted exactly when the error pattern alone leaves the
  register at zero; every burst of at most 16 bits and every error of odd weight is caught, and two wrong bits are missed
  exactly when they are a multiple of 32767 bits apart, which no frame of less than 4096 bytes has room for. The write
  request's register count (len/2 and len%2 as its two bytes) is not the one of section 6.12 of the
  MODBUS Application Protocol, except for an empty write.
- **Queue and executor.** Each channel item reaches only one of two readers, and both marks have to be
  made under one ID before a device is written to. So over every run there are at least two pushes per
  write, and a command whose ID is pushed once is never written. The bound is exact: every number of writes
  within it is reached. A completed command stays
  completed, over all runs with at most n pushes of its ID, exactly when n is at most 1 (or the queue takes
  no pushes): with a second push a late timeout can fail it.
- **Queue index.** A push keeps the two maps in agreement exactly when it is turned away at the door or
  its ID is not there yet. The queue reads the task's ID off a command's ID, up to the first `-`. So a task
  whose commands are all pushed and kept comes back exactly when its ID has no `-` and no other task's
  commands stand under it: a task `a-b` cannot be looked up, and its commands turn up when `a` is.
- **Scheduler.** The queues are one list in order of scheduling; draining is its stable sort by class.
  Nothing that has ended ever changes again, and the table holds whatever runs, over all runs that schedule
  the tasks of a set at most once each, exactly when no two of these share an ID: with a shared one a watcher
  overwrites a cancelled task and drops a running one from the table. The entries that are in the table hold
  what they promise exactly when no task is scheduled twice. Nothing in the scheduler completes a task.
- **Planners.** How far the point-to-point planner's waypoints go, at least and at most, is proved for every
  speed and acceleration other than zero: it may overshoot the target or go backwards. So its waypoints stay
  between start and end exactly under a condition on speed, acceleration and distance, and a validated move
  keeps every axis within its limits exactly when X is within them at these two distances.
- **Task nodes.** Compilation depends only on the leaves, however sequence and parallel nodes are nested.
  A tree built from configuration never trips a type assertion when compiled, but a motor node asked to
  `set_position` compiles to a command without a payload: the constructor stores the position under a
  type that the decomposer does not look for. An ill-typed tree panics exactly when the first leaf that does
  not compile is one that trips an assertion.
- **Configurable protocol.** CRC8 and XOR are one function; its CRC-16 is the serial one, sent in the
  opposite byte order, so the serial check accepts such a frame only when both bytes are equal. Floats travel
  as integers: one comes back exactly when it is in range, without fraction, and of few enough digits for its
  field, so that 2^24 + 1 does not survive a float32 field.

## Modelling choices

- Map iteration is an arbitrary order, chosen anew by each loop. Clock readings, device answers, the
  square root, hexadecimal decoding, `strconv.Atoi` and `time.ParseDuration` are parameters.
- `Push` in `internal/core/queue.go` locks at line 137 a mutex it holds since line 111, so in the
  program its undo never returns. The model does the undo, as part of one atomic step.
- The atomic steps are those made under one lock, with these exceptions, each one step here: `getNextTask`,
  `executeTask` and a watcher's reaction in the scheduler; `RemoveByTaskID`, which takes the lock of the
  commands once per ID (`internal/core/queue.go:215-222`); and `GetByTaskID`, which reads its two maps under
  two locks, one after the other (`internal/core/queue.go:234-242`). Every receive from a channel with two readers is a free choice.
- Distances, times and speeds are exact reals; floats in frames are rounded as IEEE 754 says, to the nearest
  and ties to even. Integers in frames are unbounded integers reduced modulo
  their width where the program converts; products of durations wrap around at 64 bits.
- A failed type assertion or a slice out of range stops the program; it is an outcome of its own (`Panic`,
  `Tripped`, `Crash`, or no result).

## Model

| member | source | states |
|---|---|---|
| ResourceManager.Manager.RegisterResource | internal/hal/resource_manager.go:122-138 | afterwards the resource is registered and free, all others as before |
| ResourceManager.Manager.Allocate | internal/hal/resource_manager.go:141-166 | succeeds exactly for a known free resource, which is then taken by "system"; nothing else changes; otherwise the error says whether its type, its ID or its being free is missing |
| ResourceManager.Manager.Release | internal/hal/resource_manager.go:169-194 | succeeds exactly for a taken resource, which is then free and nobody's; nothing else changes; otherwise the error says what is missing |
| ResourceManager.Manager.IsResourceAllocated | internal/hal/resource_manager.go:250-256 | true exactly for a known taken resource |
| ResourceManager.Manager.RollbackAllocation | internal/hal/resource_manager.go:352-367 | releases, in some order of types, each list up to its first mention of the failing ID when the type is the failing one, and whole otherwise |
| ResourceManager.Manager.AllocateForTask | internal/hal/resource_manager.go:301-326 | succeeds exactly when no list repeats an ID and everything asked for is known and free; a failed duplicate-free request changes nothing; the whole effect is that of the three loops in some orders; the error names a taken resource, or the one that could not be had and why |
| ResourceManager.Manager.ReleaseForTask | internal/hal/resource_manager.go:329-349 | everything asked for is free afterwards and nothing else changed; no error exactly when each item was held when its turn came |
| ResourceManager.Manager.Stop | internal/hal/resource_manager.go:57-77 | every resource is free afterwards |
| ResourceAllocation.GrantedIff | internal/hal/resource_manager.go:301-326 | a request is granted exactly when it is duplicate-free and all it names is known and free, for any orders; then exactly that is taken |
| ResourceAllocation.FailureIsUndone | internal/hal/resource_manager.go:355-366 | what is left of the table after any failed request, for any orders of the three loops |
| ResourceAllocation.AllOrNothingIff | internal/hal/resource_manager.go:301-326 | a failed request changes nothing, over every choice of orders, if and only if the check refuses it or no list repeats a known resource before an unknown one |
| ResourceAllocation.DuplicateFreeIsAllOrNothing | internal/hal/resource_manager.go:301-326 | in particular for every duplicate-free request |
| ResourceAllocation.RepeatLeaks | internal/hal/resource_manager.go:355-363 | the smallest request that fails and leaves a resource taken |
| ResourceAllocation.ReleaseUndoesGrant | internal/hal/resource_manager.go:329-349 | releasing a granted request, in any order, restores the table from before it |
| ResourceProtocol.ExclusionIff | internal/hal/resource_manager.go:301-367 | for every table and request: over all interleaved runs of that request with any confined ones, no resource has two holders if and only if the request names no registered resource beside a resource of another type, or asks for something taken before any task runs |
| ResourceProtocol.NoRollbackSteals | internal/hal/resource_manager.go:352-367 | under that condition no rollback step of any run frees what another task holds |
| ResourceProtocol.InvariantRun | internal/hal/resource_manager.go:301-367 | over every such run holders are unique, what is held is taken, and what a task rolls back is its own or not registered |
| ResourceProtocol.TwoOwners | internal/hal/resource_manager.go:355-363 | otherwise, for every pair of types and every registered resource of one of them that the request names, wherever in its list, a run in which the rollback gives a resource two holders |
| Crc.CalculateCRC | internal/hardware/protocols/serial/serial.go:337-351 | the nested loops compute the register of the whole message, whose start `ChecksumInverts` and whose values `KnownFrames` fix |
| Crc.ShiftBijective | internal/hardware/protocols/serial/serial.go:341-348 | one turn of the inner loop can be undone |
| Crc.ShiftLinear | internal/hardware/protocols/serial/serial.go:341-348 | one turn of the inner loop distributes over exclusive or |
| Crc.TwoBytesCancel | internal/hardware/protocols/serial/serial.go:337-351 | two more bytes bring a register to zero exactly when they are its own low and high byte |
| Crc.RegisterIsFeed | internal/hardware/protocols/serial/serial.go:337-351 | byte by byte is bit by bit, low bit first |
| Crc.FeedLinear | internal/hardware/protocols/serial/serial.go:337-351 | the register of a sum of bit streams is the sum of their registers |
| Crc.BurstNeverCancels | internal/hardware/protocols/serial/serial.go:337-351 | a nonzero bit stream confined to 16 consecutive bits never leaves a zero register |
| Crc.FeedParity | internal/hardware/protocols/serial/serial.go:337-351 | the register's parity is the parity of all bits consumed |
| SerialFrame.ProcessReadResponse | internal/hardware/protocols/serial/serial.go:318-334 | returns the payload exactly for frames of at least five bytes whose whole register is zero, and nothing otherwise |
| SerialFrame.ResidueIsZero | internal/hardware/protocols/serial/serial.go:324-328 | the two-byte comparison holds if and only if the CRC over the whole frame is zero |
| SerialFrame.FramedRoundTrip | internal/hardware/protocols/serial/serial.go:318-334 | a message with its checksum is accepted and gives its own data back |
| SerialFrame.ChecksumInverts | internal/hardware/protocols/serial/serial.go:337-351 | the register starts at all ones: the checksum of every message is that of the message with its first 16 bits inverted, from zero |
| SerialFrame.KnownFrames | internal/hardware/protocols/serial/serial.go:261-351 | 01 03 00 00 00 01 is sent with 84 0A, and 01 03 02 00 01 79 84 is accepted and gives 02 00 01 |
| Bytes.ValueOfPowers | internal/hardware/protocols/serial/serial.go:272-276 | the eight bits of a byte stand for the powers of two |
| Bytes.ValueOfDisjoint | internal/hardware/protocols/serial/serial.go:272-276 | bits that two bytes do not share add up, so that each byte stands for its own number |
| SerialFrame.BuildReadCommand | internal/hardware/protocols/serial/serial.go:261-286 | a frame with valid CRC carrying unit, function, address and length; nothing exactly for an address that is no number |
| SerialFrame.BuildWriteCommand | internal/hardware/protocols/serial/serial.go:289-315 | a frame with valid CRC carrying address, byte count and data, and the register count as the code computes it |
| SerialFrame.WriteQuantityIsRegisters | internal/hardware/protocols/serial/serial.go:302-303 | for every byte count: the register count is half of it if and only if the count is 0 or 515, of which only 0 is a whole number of registers |
| SerialFrame.AcceptedIffSyndromeZero | internal/hardware/protocols/serial/serial.go:318-351 | a corrupted valid frame is accepted if and only if the error alone leaves a zero register |
| SerialFrame.BurstIsDetected | internal/hardware/protocols/serial/serial.go:318-351 | every nonzero error within 16 consecutive bits of a valid frame, checksum included, is rejected, for any length |
| SerialFrame.OddErrorIsDetected | internal/hardware/protocols/serial/serial.go:318-351 | every error of odd weight is rejected |
| SerialFrame.AcceptedIsEven | internal/hardware/protocols/serial/serial.go:318-351 | every accepted frame, from whatever sender, has an even number of bits set |
| CrcOrder.ReturnsIff | internal/hardware/protocols/serial/serial.go:341-348 | fed zeros only, the register returns to 1 exactly after the multiples of 32767 shifts |
| SerialFrame.TwoBitErrorMissedIff | internal/hardware/protocols/serial/serial.go:318-351 | two wrong bits in a valid frame are missed if and only if they are a multiple of 32767 bits apart, so never in less than 4096 bytes |
| CommandIds.CommandIdInjective | internal/core/decomposer.go:226-230 | no two pairs of task ID and number share a command ID, whatever the task IDs contain |
| CommandIds.ItoaIsDecimal | internal/core/decomposer.go:226-230 | the digits of a number stand for it, without leading zeros |
| CommandIds.CommandIdReads | internal/core/decomposer.go:226-230 | a command ID is the task's ID, -cmd- and the decimal number |
| CommandIds.ExtractTaskIdByScan | internal/core/queue.go:404-412 | the part of the ID before its first '-', or all of it |
| CommandIds.ExtractFromCommandId | internal/core/queue.go:404-412 | a command ID gives the task ID back if and only if it has no '-', and its part before the first '-' otherwise |
| QueueIndex.GetByTaskIdIsFilter | internal/core/queue.go:233-253 | looking a task up is filtering one push-ordered list of live commands |
| QueueIndex.PushAgreesIff | internal/core/queue.go:106-154 | after a push the two maps agree with some list if and only if it was turned away at the door or its ID was new |
| QueueIndex.PushUndone | internal/core/queue.go:136-152 | the undo of a fresh push into a full channel leaves the list as it was |
| QueueIndex.CleanupAgrees | internal/core/queue.go:377-402 | cleaning up takes exactly the finished command out of the list |
| QueueIndex.RemoveAgrees | internal/core/queue.go:211-231 | removing a task takes its commands, and no others, out of the list |
| ExecutionQueues.ExecutionQueue.Push | internal/core/queue.go:106-154 | refused when not running, when maxSize commands are held, or when ten wait in the channel, in this order; otherwise pending under its ID and last in the channel; both maps are those of the model, undo included |
| ExecutionQueues.ExecutionQueue.MarkCommandSent | internal/core/queue.go:263-281 | succeeds exactly for a pending command, which alone changes: sent, at the time given |
| ExecutionQueues.ExecutionQueue.MarkCommandStarted | internal/core/queue.go:283-301 | succeeds exactly for a sent command, which alone changes: executing, at the time given |
| ExecutionQueues.ExecutionQueue.MarkCommandCompleted | internal/core/queue.go:303-329 | finishes a present command whatever its status, failed with the error or completed, at the time given, and reports it unless ten reports wait |
| ExecutionQueues.ExecutionQueue.CleanupCompletedCommand | internal/core/queue.go:377-402 | a finished command leaves both maps, an emptied list goes too; anything else stays |
| ExecutionQueues.ExecutionQueue.RemoveByTaskID | internal/core/queue.go:211-231 | every listed command and the list are gone, nothing else |
| ExecutionQueues.ExecutionQueue.GetByTaskID | internal/core/queue.go:233-253 | the listed commands that are still there, in list order |
| ExecutionQueues.ExecutionQueue.Clear | internal/core/queue.go:188-209 | both maps are empty, if the queue runs |
| ExecutionQueues.CommandExecutor.ProcessCommand | internal/core/executor.go:228-263 | writes if and only if the command was sent and its device is registered and connected; a command that could be started otherwise ends failed, with the text for an absent or an unconnected device; a written one ends with the device's answer |
| CommandPipeline.WritesAreBounded | internal/core/queue.go:263-301 | over every run and for every ID, reused or not: writes ≤ starts ≤ sents, sents + starts ≤ pushes, so 2·writes ≤ pushes |
| CommandPipeline.PushedOnceNeverWritten | internal/core/executor.go:211-256 | a command whose ID is pushed once is never written to a device |
| CommandPipeline.WrittenToConnected | internal/core/executor.go:228-263 | over every run the writes of an ID are exactly the steps whose device is registered and connected then |
| CommandPipeline.RunThenReport | internal/core/executor.go:228-263 | a command run on an absent or unconnected device is not written, and its report fails its entry with the text for its case; otherwise the report carries the device's answer |
| CommandPipeline.BoundIsExact | internal/core/executor.go:211-256 | for every ID and all numbers of pushes and writes: from every unused running queue with room for one command, some run has just so many of both if and only if there are at least two pushes per write |
| CommandPipeline.IndexAgreement | internal/core/queue.go:106-253 | over every run that pushes no present ID, the maps agree with one list of live commands and lookups filter it |
| CommandPipeline.SizeIsBounded | internal/core/queue.go:114-116 | over every run at most maxSize commands are held |
| CommandPipeline.DatedFromStart | internal/core/queue.go:263-329 | over every run CompletedAt is set if and only if the status is terminal, and what was started was sent |
| CommandPipeline.RankRun | internal/core/queue.go:263-362 | while an entry stays its rank never falls and terminal stays terminal |
| CommandPipeline.LateTimeoutFails | internal/core/queue.go:344-362 | from every such queue, a run of two pushes of one ID after which a late timeout turns the completed command into a failed one, with the error "command timeout" |
| CommandPipeline.CompletedStaysIff | internal/core/queue.go:303-362 | for every ID and n: no step of any run with at most n pushes of the ID fails its completed command, if and only if n is at most 1 or the queue takes no pushes |
| TaskRoundTrip.ComesBackIff | internal/core/queue.go:106-253 | over every run that pushes the task's stamped commands in order with room, pushes no present ID and removes none of the task's own, whatever else comes and goes: the lookup gives exactly these if and only if the ID has no '-' (or there are none) and no other command is in the queue whose part before the first '-' is this ID |
| TaskRoundTrip.ComesBackUnlessIntruded | internal/core/queue.go:106-253 | the same in terms of the run: when no such other command is taken out again, if and only if the ID has no '-' (or there are no commands) and no push of such a command is accepted; and without such a push in any case |
| TaskRoundTrip.ForeignStampIff | internal/core/queue.go:404-412 | a stamped command of another task stands under this task's ID if and only if the other ID goes on from this one with a '-' |
| TaskRoundTrip.PrefixTaskIntrudes | internal/core/queue.go:233-253 | for every task without '-' and every other that goes on from it with a '-', a run of one push each after which looking up the first returns both |
| TaskRoundTrip.DashedTasksShare | internal/core/queue.go:404-412 | a task with a '-' in its ID is not found under it, and its commands share one list with those of every task of the same beginning |
| TaskSchedulers.TaskQueue.Remove | internal/core/scheduler.go:49-60 | the first task with the ID is gone, and true exactly when there was one |
| TaskSchedulers.TaskScheduler.ScheduleTask | internal/core/scheduler.go:128-150 | the task is pending at the end of the emergency queue for priority 0, high for 1, low for 3 and medium for 2 and everything else; refused when not running |
| TaskSchedulers.TaskScheduler.GetNextTask | internal/core/scheduler.go:234-252 | the head of the first nonempty queue by urgency |
| TaskSchedulers.TaskScheduler.ExecuteTask | internal/core/scheduler.go:254-295 | with fewer than 100 tasks in the channel the task runs since now, is active, last in the channel and watched; otherwise it has failed, "task channel full", and is not active |
| TaskSchedulers.TaskScheduler.CancelTask | internal/core/scheduler.go:152-175 | an active task is cancelled at the time given, off the table, and its context no longer live; else the first queued one with the ID is removed, else false |
| TaskSchedulers.TaskScheduler.PauseTask | internal/core/scheduler.go:177-187 | pauses an active task and changes nothing else |
| TaskSchedulers.TaskScheduler.ResumeTask | internal/core/scheduler.go:189-199 | resumes an active task and changes nothing else |
| TaskSchedulers.TaskScheduler.Watch | internal/core/scheduler.go:270-282 | if the ID is active, the watcher's own task is closed, failed with "task timeout" if its time ran out, and the entry under the ID deleted, whoever's it is |
| TaskSchedulers.TaskScheduler.ProcessQueues | internal/core/scheduler.go:361-386 | exactly the active tasks that completed or failed more than five minutes ago are deleted, in any order of the table |
| PriorityOrder.EnqueueIsAppend | internal/core/scheduler.go:128-150 | scheduling appends to the one list the queues stand for |
| PriorityOrder.NextIsForemost | internal/core/scheduler.go:234-252 | the task handed out is the earliest of the most urgent class present, and alone leaves the list; none exactly when the list is empty |
| PriorityOrder.WithdrawIsForemost | internal/core/scheduler.go:167-172 | a cancel removes the task with the ID that would have come first, and fails exactly when there is none |
| PriorityOrder.DrainIsStableSort | internal/core/scheduler.go:234-252 | handing out everything is the one sequence sorted by class that keeps scheduling order within each class |
| PriorityOrder.DrainIsPermutation | internal/core/scheduler.go:234-252 | and it is exactly the waiting tasks |
| PriorityOrder.ClassIsByPriority | internal/core/scheduler.go:135-146 | the class of one task comes before that of another exactly when its priority outranks the other's: 0 before 1 before 2 before 3, and every other number with 2 |
| SchedulerRuns.QueuesFollowList | internal/core/scheduler.go:128-252 | over every run the queues are one list split by class, and the next task is foremost in it |
| SchedulerRuns.HandedOutByPriority | internal/core/scheduler.go:128-252 | over every run, said of the priorities alone: no waiting task outranks the one handed out and none of its own rank was scheduled before it; priorities outside 0 to 3 count as 2 |
| SchedulerFates.TasksAreConserved | internal/core/scheduler.go:128-295 | over every run each scheduling of a task ends in exactly one of queued, held, removed, rejected, dispatched |
| SchedulerFates.TakeAhead | internal/core/scheduler.go:234-252 | a waiting task is handed out exactly when nothing is ahead of it, and otherwise one fewer is |
| SchedulerFates.ArrivalAhead | internal/core/scheduler.go:128-150 | an arrival is ahead of a waiting task exactly when its class is strictly more urgent |
| SchedulerFates.OvertakingIsBounded | internal/core/scheduler.go:128-252 | over every run, the tasks taken before a waiting one and those still ahead are at most those ahead at the start plus the strictly more urgent arrivals |
| ActiveTasks.ActiveTasksRun | internal/core/scheduler.go:152-295 | over every run that schedules no task twice, IDs reused or not, each active entry is running or paused under its own ID with its watcher in place, and processQueues deletes nothing |
| ActiveTasks.EntriesIff | internal/core/scheduler.go:254-295 | these hold over all runs that schedule each task at most n times, if and only if n is at most 1 |
| ActiveTasks.TableHoldsRunning | internal/core/scheduler.go:152-295 | over every run that schedules no task and no ID twice, every task that runs or is paused is in the table |
| ActiveTasks.TableIff | internal/core/scheduler.go:254-282 | over all runs that schedule the tasks of a set at most once each, the table holds every running task if and only if no two tasks of the set share an ID |
| ActiveTasks.EndedForGood | internal/core/scheduler.go:270-282 | over every run that schedules no task and no ID twice no watcher, nor anything else, changes a task that has ended |
| ActiveTasks.EndedIff | internal/core/scheduler.go:152-295 | over all runs that schedule the tasks of a set at most once each, what has ended stays as it is if and only if no two tasks of the set share an ID |
| ActiveTasks.OneFate | internal/core/scheduler.go:128-295 | over every run each task scheduled once has exactly one fate |
| ActiveTasks.ReusedIdLosesTask | internal/core/scheduler.go:270-282 | for every two tasks with one ID, a run of one scheduling each where a cancelled task becomes failed and the running one leaves the table |
| ActiveTasks.NeverCompleted | internal/core/scheduler.go:128-295 | over every run, reused IDs or not, the scheduler never marks a task completed |
| LinearPlanner.PlanLinear | internal/core/decomposer.go:26-62 | the loop yields the plan, point by point |
| LinearPlanner.LinearPlanIsSteady | internal/core/decomposer.go:26-62 | for positive speed and a distance of at least 0.001: first is start, last is end, all on the segment, equal spacing ≤ v/100, time gaps ≤ 10 ms, spacing = v × gap, with no more steps than that takes beyond ten |
| LinearPlanner.LinearPlanIsMonotone | internal/core/decomposer.go:45-58 | no coordinate turns back |
| LinearPlanner.LinearPlanInsideBox | internal/core/decomposer.go:45-58 | every box that holds both ends holds the plan |
| Geometry.DistanceIsLength | internal/core/decomposer.go:27-30 | the distance is the length of the line between two points |
| PointToPointPlanner.PlanPointToPoint | internal/core/decomposer.go:94-190 | the branches and loops yield the plan |
| PointToPointPlanner.PlanIs | internal/core/decomposer.go:94-190 | every waypoint of every plan in numbers: which profile, how many steps, and for the i-th of n its distance, its speed and its time as equations in i and n, for every acceleration but zero |
| PointToPointPlanner.GoneIff | internal/core/decomposer.go:124-131 | having gone a distance is being that far along each coordinate in proportion |
| PointToPointPlanner.PlanReaches | internal/core/decomposer.go:94-190 | for every acceleration but zero: all waypoints have gone between a least and a furthest distance along the line, computed from speed, acceleration and distance, and some have gone exactly these |
| PointToPointPlanner.WithinIffReach | internal/core/decomposer.go:120-131 | a plan keeps X within any two limits if and only if X is within them at the least and at the furthest distance |
| PointToPointPlanner.TriangularStaysIff | internal/core/decomposer.go:111-146 | a triangular plan stays on the segment if and only if 2·distance ≥ a |
| PointToPointPlanner.StagesStayIff | internal/core/decomposer.go:147-187 | with positive acceleration a three-stage plan stays on the segment if and only if v ≥ 0, distance ≥ v/2 and distance ≥ 3v²/(2a) plus half the speed times the peak of t(1−t) over its steps |
| PointToPointPlanner.PlanStaysIff | internal/core/decomposer.go:94-190 | for every acceleration but zero a plan stays on the segment if and only if the distance is below 0.001 or its least reach is not negative and its furthest not beyond the distance; with positive acceleration these are the conditions of both branches |
| PointToPointPlanner.EnoughRoom | internal/core/decomposer.go:94-190 | distance ≥ v/2 and distance ≥ 3v²/(2a) + v/8 is enough, whatever the number of steps |
| PointToPointPlanner.PlanStartsAtStart | internal/core/decomposer.go:94-190 | a plan over a distance of at least 0.001 begins where the axis is, in either branch |
| TaskDecomposers.ValidateTask | internal/core/decomposer.go:383-414 | no problem exactly for a task with a type and axes, all configured, fast enough and in bounds; else the problem of the first failing axis |
| TaskDecomposers.ProblemIsFirst | internal/core/decomposer.go:383-414 | the problem is a missing type, else missing axes, else that of the first axis with one: unknown before too fast before out of bounds |
| TaskDecomposers.DecomposeMoveTo | internal/core/decomposer.go:235-268 | the waypoints of every configured axis in turn |
| TaskDecomposers.DecomposeMoveRelative | internal/core/decomposer.go:270-303 | the linear plan for every configured axis in turn, led from the origin to the target as `MoveRelativeArrives` says |
| TaskDecomposers.MoveFollows | internal/core/decomposer.go:235-303 | the commands of an axis of either move are the waypoints of its plan from the origin to the target, one by one and together, after those of the axes before it |
| TaskDecomposers.MoveRelativeArrives | internal/core/decomposer.go:270-303 | a relative move at positive speed over at least 0.001 leads every configured axis from the origin to the target in at least ten equal steps, at the task's speed |
| TaskDecomposers.CommandsCarryOut | internal/core/decomposer.go:235-368 | every command has the device of its axis and the type of its task, full acceleration on the way, half speeds to the home position, nothing to stop, the target to jog |
| TaskDecomposers.OnePerAxis | internal/core/decomposer.go:305-368 | home, stop and jog have one command for each axis, in order |
| TaskDecomposers.Decompose | internal/core/decomposer.go:204-233 | validation, planning and stamping as one result |
| TaskDecomposers.DecomposedIsStamped | internal/core/decomposer.go:204-233 | succeeds if and only if the task is acceptable and of one of the five types; then each command carries its number and the task's timeout; else the error is the problem, or the type |
| TaskDecomposers.MoveToKeepsLimitsIff | internal/core/decomposer.go:235-268 | every command of a validated move keeps X within the limits of the axis it was made for, overshooting or not, if and only if the target is less than 0.001 from the origin or every axis has X within its limits at the least and at the furthest reach of its plan |
| TaskDecomposers.RoomyKeepsLimitsIff | internal/core/decomposer.go:235-268 | for a move that does not overshoot: if and only if the target is that near or all ranges contain zero, where each plan begins |
| TaskDecomposers.DecomposedComesBackIff | internal/core/decomposer.go:226-230 | decompose, push, look up: the decomposition comes back whole and alone if and only if the task's ID has no '-' (or nothing was planned) and no other task's command stands under it |
| TaskNodeModel.CompileIsFlat | internal/core/tasknode_decomposer.go:63-83 | compiling a tree is compiling its leaves from left to right: same commands, same cause of failure, same panic |
| TaskNodeModel.NestingDoesNotMatter | internal/core/tasknode_decomposer.go:306-318 | trees with the same leaves compile alike |
| TaskNodeModel.FirstChildFirst | internal/core/tasknode_decomposer.go:306-318 | a group compiles its first child first: its failure is the group's, its commands come before those of the rest |
| TaskNodeModel.CompileOutcome | internal/core/tasknode_decomposer.go:63-364 | for every tree, well typed or not: success if and only if every leaf is well typed, supported and has its device; a panic if and only if the first leaf that does not compile trips an assertion; an error for a cause if and only if that leaf fails for it |
| TaskNodeModel.TrailLeadsToCause | internal/core/tasknode_decomposer.go:310-313 | the error's trail of IDs leads to a leaf that fails with that cause |
| TaskNodeBuilder.BuildThenCompile | internal/core/tasknode_decomposer.go:506-632 | every accepted configuration compiles without a panic, exactly when its devices are registered, to one command per typed leaf in order |
| TaskNodeBuilder.MotorNodeSays | pkg/types/tasknode.go:259-276 | the command of any motor node depends on its device, motor, action and speed alone: a position, wherever it is, is lost |
| TaskNodeLeaves.MotionLeaf | internal/core/tasknode_decomposer.go:85-141 | a motion leaf sends one command to each configured axis it names, in order, every field given; it panics exactly on a value of another type among those it reads |
| TaskNodeLeaves.IoLeaf | internal/core/tasknode_decomposer.go:143-188 | an IO leaf by its parameters: panic, missing device, or the command with its payload |
| TaskNodeLeaves.MotorLeaf | internal/core/tasknode_decomposer.go:190-254 | a motor leaf by its parameters, a position only from a map, what an action needs read after the device |
| TaskNodeLeaves.MotorStatusLeaf | internal/core/tasknode_decomposer.go:256-288 | a status leaf by its parameters |
| TaskNodeLeaves.DelayLeaf | internal/core/tasknode_decomposer.go:290-304 | a delay leaf by its duration |
| TaskNodeLeaves.ConditionLeaf | internal/core/tasknode_decomposer.go:320-364 | a condition leaf by its parameters, its timeout by the kind of value, no device needed |
| TaskNodeLeaves.UnknownLeaf | internal/core/tasknode_decomposer.go:63-83 | any other type is an error, whatever its parameters |
| TaskNodeLeaves.DelayConfigured | internal/core/tasknode_decomposer.go:575-604 | a delay built from a configuration waits for a duration, a text that parses, a number of seconds, or one second |
| TaskNodeLeaves.IoConfigured | internal/core/tasknode_decomposer.go:510-540 | an IO node built from a configuration, and the command it compiles to, or the refusal |
| TaskNodeLeaves.MotorConfigured | internal/core/tasknode_decomposer.go:542-573 | a motor node built from a configuration, and the command it compiles to, or the refusal |
| TaskNodeLeaves.SequenceConfigured | internal/core/tasknode_decomposer.go:606-630 | a built sequence is sequential and stops on an error |
| TaskNodeLeaves.BuiltIff | internal/core/tasknode_decomposer.go:506-632 | exactly which configurations the builder accepts, all the way down |
| TaskNodeObjects.BaseTaskNode.AddChild | pkg/types/tasknode.go:77-86 | the child's tree is the last child of this one, and the nodes stay a tree |
| TaskNodeObjects.NewSequenceTaskNode | pkg/types/tasknode.go:324-341 | a sequence over exactly its nodes, in order, with the mode and error rule of its command |
| TaskNodeObjects.NewMotorTaskNode | pkg/types/tasknode.go:259-276 | the nine parameters a motor node takes from its command |
| TaskNodeObjects.NewIOTaskNode | pkg/types/tasknode.go:223-237 | the six parameters an IO node takes from its command |
| TaskNodeObjects.NewDelayTaskNode | pkg/types/tasknode.go:296-306 | the parameters a delay node carries |
| TaskNodeObjects.DecomposeTaskNode | internal/core/tasknode_decomposer.go:63-83 | the outcome is that of compiling the tree below the node; it terminates on the tree |
| TaskNodeObjects.DecomposeSequenceNode | internal/core/tasknode_decomposer.go:306-318 | children in order, up to the first that fails |
| TaskNodeObjects.DecomposeMotionNode | internal/core/tasknode_decomposer.go:85-141 | one command per named and configured axis, or a panic on a wrong type |
| TaskNodeObjects.DecomposeIONode | internal/core/tasknode_decomposer.go:143-188 | the command of an IO node with its device and the payload of its action; a panic on a wrong type, an error without the device |
| TaskNodeObjects.DecomposeMotorNode | internal/core/tasknode_decomposer.go:190-254 | the command of a motor node by its four actions, a position only from a map of coordinates |
| TaskNodeObjects.DecomposeMotorStatusNode | internal/core/tasknode_decomposer.go:256-288 | the command of a status query, with the same errors and panics |
| TaskNodeObjects.DecomposeDelayNode | internal/core/tasknode_decomposer.go:290-304 | a delay of the node's duration, and a panic unless it is a duration |
| TaskNodeObjects.DecomposeConditionNode | internal/core/tasknode_decomposer.go:320-364 | the command of a condition node; its timeout from a duration, a number of seconds, or five seconds |
| TaskNodeObjects.CreateTaskNodeFromConfig | internal/core/tasknode_decomposer.go:506-636 | builds the node the configuration says, fresh, numbered by its own reading of the clock, or refuses for the same reason |
| CustomCodec.FieldRoundTrip | internal/hardware/protocols/custom/custom.go:364-587 | for either byte order a field decodes to its value cut to its type's range; to the value itself if and only if an integer is in range, and a float in range, whole and one of its field's format |
| CustomCodec.EncodedBytes | internal/hardware/protocols/custom/custom.go:364-444 | exactly which values encode, and to what: one, two, four or eight bytes by type, each the base-256 digit of its place in the configured order; texts and bytes as they are |
| CustomCodec.DecodedTypes | internal/hardware/protocols/custom/custom.go:536-561 | decoding stops exactly on fewer bytes than the type has and refuses exactly the unknown types; the integers that return are those of the type's range, type by type |
| CustomCodec.DecodesFirst | internal/hardware/protocols/custom/custom.go:536-587 | a numeric field reads its first bytes only |
| CustomCodec.SingleReturnsIff | internal/hardware/protocols/custom/custom.go:389-393 | of the whole numbers up to 2^25 a float32 field returns those up to 2^24 and the even ones beyond |
| CustomCodec.DoubleReturnsIff | internal/hardware/protocols/custom/custom.go:394-398 | a float64 field returns the whole numbers up to 2^53 and the even ones up to 2^54 |
| Floats.ReturnsIff | internal/hardware/protocols/custom/custom.go:389-398 | a float of any format cut to an integer of so many bits and rounded back is itself if and only if it is not negative, whole, in range and one of the format |
| Floats.RoundTwice | internal/hardware/protocols/custom/custom.go:389-393 | rounding to a format is idempotent, subnormals and ties included |
| Floats.RoundKeepsIff | internal/hardware/protocols/custom/custom.go:389-393 | up to one digit too many, rounding keeps a number if and only if its digits are few enough or it is even |
| CustomCodec.EncodeParameters | internal/hardware/protocols/custom/custom.go:344-361 | the encodings of the fields that have a value, in order, or an error; what each is `EncodedBytes` says |
| CustomCodec.BlockRoundTrip | internal/hardware/protocols/custom/custom.go:344-411 | with prefix-sum offsets and exact sizes every slice of a block decodes to its field's value, to the very value if and only if that value returns |
| CustomCodec.ParseResponse | internal/hardware/protocols/custom/custom.go:503-533 | some bytes field that lies within the response and is not replaced by a later field of its name, or the raw response when there is none; no result exactly when a field is out of range or a numeric one too short |
| CustomCodec.ParsedIs | internal/hardware/protocols/custom/custom.go:503-524 | parsing stops exactly when some field within the response is cut wrongly or too short; otherwise each name has the value of the last field of the name that gives one |
| CustomCodec.ParsedIsParams | internal/hardware/protocols/custom/custom.go:503-533 | a block laid out as its definition says parses to exactly its values |
| CustomCodec.OnlyBytesComeBack | internal/hardware/protocols/custom/custom.go:526-530 | the only bytes field of a block comes back through the parser |
| CustomFrame.BuildCommandFrame | internal/hardware/protocols/custom/custom.go:299-341 | header, code, parameters, checksum over these, trailer; each error for its own reason and only when nothing before it failed |
| CustomFrame.ChecksumLength | internal/hardware/protocols/custom/custom.go:447-459 | two bytes for crc16, one for crc8 and xor, none for any other name |
| CustomFrame.CalculateCRC8 | internal/hardware/protocols/custom/custom.go:462-468 | the exclusive or of all bytes |
| CustomFrame.CalculateXOR | internal/hardware/protocols/custom/custom.go:488-494 | the exclusive or of all bytes, the same function |
| CustomFrame.CalculateCRC16 | internal/hardware/protocols/custom/custom.go:471-485 | the serial client's checksum |
| CustomFrame.SerialAcceptsIff | internal/hardware/protocols/custom/custom.go:451-453 | the serial check accepts a crc16 frame if and only if both checksum bytes are equal |
| CustomFrame.XorMissesIff | internal/hardware/protocols/custom/custom.go:462-494 | the one-byte checksum misses an error if and only if the error's bytes cancel out |
| CustomFrame.XorCatchesOneByte | internal/hardware/protocols/custom/custom.go:462-494 | it never misses an error in a single byte |

## Left out

- SerialFrame.BuildWriteCommand: claims the CRC and the fields as the code writes them, not section 6.12 of the MODBUS Application Protocol, which its register count does not meet.
- LinearPlanner.PlanLinear: a speed of zero, where the program divides to an infinite float, is excluded; times are exact and not cut to nanoseconds.
- PointToPointPlanner.PlanPointToPoint: an acceleration of zero is excluded for the same reason; times are exact and not cut to nanoseconds.
- TaskDecomposers.DecomposeMoveTo: axes with a maximum acceleration of zero are excluded, as in the planner.
- TaskDecomposers.DecomposeMoveRelative: a task speed of zero is excluded, as in the planner.
- TaskDecomposers.Decompose: a nil task, and configurations or speeds for which the planners divide by zero, are excluded.
- CustomCodec.FieldRoundTrip: a float that is negative or too large after cutting wraps around here, where Go leaves the conversion to the machine; infinities, not-a-number and negative zero are not modelled.
- CustomCodec.EncodeParameters: the same conversions of floats.
- TaskNodeObjects.BaseTaskNode.AddChild: a child that already has this node below it is excluded; the program would make a cycle, which its decomposer never leaves.
- TaskNodeObjects.CreateTaskNodeFromConfig: a number of seconds beyond 64 bits, whose conversion from a float is left to the machine, is cut like any other.
- TaskSchedulers.TaskScheduler.ExecuteTask: contexts and goroutines are entries in two lists; a cancel between the two locked parts of the program's function is not modelled.
- ExecutionQueues.ExecutionQueue.RemoveByTaskID: cancelling a command's context is not modelled; a waiting timeout may or may not fire, cancelled or not.
- CommandPipeline.SizeIsBounded: `Push` never runs into its own second lock here, as said above.
- Closing channels, `Start` and `Stop` other than the resource manager's, sockets, serial ports, files, logging and wall-clock times beyond the readings passed in.
- That every queued command is eventually written: two readers on one channel rule it out.
- `TaskNode.Execute`, which always fails in the base node, and `ValidateTaskNode` and condition nodes built by hand.
- `PlanCircular`, which needs trigonometry, and IEEE rounding in the planners.
- `Pop`, `Peek`, status reports, event handling, device managers, IPC, configuration files, Modbus address parsing: they would only add easy members.
- The legacy task path of the node decomposer, which repeats the task decomposer's stamping without planning.

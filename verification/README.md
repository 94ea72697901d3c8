# A verified model of a small real-time microkernel

This project models the logic of a microkernel for the Raspberry Pi 4 and of the clock server that
runs on it, and proves properties of all their runs with Dafny 4.11.

`dafny verify dfyconfig.toml` checks the whole project.

## How it is organised

| files | what they model |
|---|---|
| `CInts.dfy` | the integer types of the C code: ranges, conversion, division |
| `Filing.dfy` | one idea used throughout: items (tasks, list nodes) filed in numbered lists, each exactly at its one home; and counting by the pigeonhole principle |
| `TaskLists.dfy`, `PriorityQueues.dfy` | doubly linked lists over a shared node pool, and priority queues made of them, on arrays |
| `SenderRing.dfy`, `MemoryBlocks.dfy` | the ring of waiting senders and the first-fit table of task stacks, on arrays |
| `KernelModel.dfy` | the kernel as a step function on plain values, and its invariant |
| `KernelInvariant.dfy`, `KernelSteps.dfy` | every step keeps the invariant; what each step leaves alone |
| `KernelRuns.dfy`, `Rendezvous.dfy`, `Delivery.dfy`, `Answers.dfy`, `Servers.dfy`, `Refusals.dfy` | theorems about all runs: places of tasks, scheduling, message passing, the whole effect and the answer of each exception, what servers owe, resources, when a Send is refused |
| `Kernel.dfy` | the kernel on the data structures above, changed in place; proved to follow the step function |
| `MemoryPools.dfy`, `DelayQueues.dfy`, `ClockServer.dfy` | the clock server's pool, linked delay queue and message loop, in place |
| `ClockModel.dfy`, `ClockMessages.dfy` | the clock server as a function on plain values, and theorems about all sequences of requests; its message buffer, byte by byte |
| `ClockOnKernel.dfy` | the clock server as a task of the kernel: the kernel provides what the server assumes |
| `Numerals.dfy`, `Conversions.dfy`, `Tokens.dfy` | numerals and their values, the number conversions and the tokenizer |
| `PrintfModel.dfy`, `PrintfFormat.dfy`, `Printf.dfy` | what printf prints, as a function of format and arguments, and the bounded printer |
| `PrintfMeaning.dfy`, `PrintfConsequences.dfy`, `PrintfRoundTrip.dfy` | that text described by the spelling of its directives and by its characters; what follows for common directives; agreement with the conversions |
| `Idle.dfy` | the idle task's accounting of busy time |

The kernel is modelled twice, on purpose. `Kernel.Machine` has the arrays, links, counters and free
stacks of the C code, and each C assertion is a proof obligation in it. `KernelModel` has sequences.
Each method of the machine ends in exactly the state the step function gives, so what is proved of the
step function over all runs holds of the machine, and `Kernel.Kmain` ties whole runs together.

## Conventions and assumptions

- A task is named by its slot in the task pool. Exited tasks never return to that pool, so slots are
  handed out in order, a live task's tid equals its slot, and at most 64 tasks are ever created.
- One step is one iteration of `kmain`: schedule, activate, arbitrary user code, one exception. The event
  carries the registers and the memory block of the task when it stops; user code may have put anything
  there. A pointer passed to the kernel is an offset into the caller's own block.
- The environment owes the kernel: buffers inside the caller's block with lengths that are non-negative
  after the conversion to int; Reply only to a task in WATIREPLY (or to no task), as design.txt asks and the
  code does not check; AwaitEvent ids and interrupts below 1022, with a handler.
- The clock server relies on nobody else answering its clients: only the task that took a message replies to
  its sender. The kernel does not check that either (src/message_passing.c:187-204). It is exactly what keeps
  everybody a server owes an answer waiting for it (`Servers.OwedWaitExactly`), and from it
  `ClockOnKernel.KernelDelivers` derives, for kernel runs, what the theorems about the clock server assume.
- Timer readings, interrupts and user code are parameters. The timer never goes backwards.

## Where the code and its promises differ

- `Delay` and `DelayUntil` return a tick count as a C int. `ClockModel.DelayReturnsDeadline` shows that
  `Delay` returns now + ticks exactly while that is below 2^31; later the caller sees a negative number
  (`ClockModel.DelayTurnsNegative`).
- A task's result register is stored into x0 at every activation (src/exception.c:20-22), so an interrupt can
  change x0. `Answers.InterruptKeepsRegisters` gives the exact condition under which it does not. For the same
  reason AwaitEvent answers with whatever the task was answered last, or with its own event number if it never was.
- Send can answer -2. It does exactly when all other 63 tasks wait to send to that receiver
  (`Refusals.RefusedWhenAllOthersWait`), so it takes a task that sends to itself
  (`Refusals.SendNeverRefused`) and an idle task that blocks in Send (`Refusals.IdleKeepsRoom`).
  `Refusals.SendIsRefused` gives a run in which it happens.
- The printed number has 32 places for digits and sign. A sign that does not fit is dropped without notice:
  `PrintfFormat.MinusIsLost` prints -5 without it, and `PrintfModel.MinusShown` gives the exact condition. For
  64-bit values in bases 8, 10 and 16 the digits themselves always leave room (`PrintfModel.SixtyFourBitsFit`),
  so only a precision of 32 or more or a zero-padded field wider than 32 can cost the sign. A zero-padded field
  wider than 32 is also the only one that is not filled (`PrintfModel.FieldIsFilled`), as in that example.
- Beside '-' a precision adds no zeros, unlike in C: "%-.3d" prints 5 as 5 (`PrintfConsequences.PrecisionIsLost`).
  `PrintfConsequences.PrecisionReached` says when the precision is reached.
- The prefix that '#' asks for takes the place of leading digits when the number is as long as its field:
  "%#8x" prints 0x12345678 as 0x345678 (`PrintfConsequences.DigitsAreLost`). `PrintfConsequences.PrefixCostsDigits`
  gives the exact condition.
- `i32_to_cstring` prints sign and numeral exactly if the number is not negative or the base is 10
  (`Conversions.SignedTextIsNumeral`). Otherwise there is no sign, and a digit d comes out as the character d
  places below '0' (`Conversions.MinusThirtyOne`).
- The idle report can exceed 100 percent on a window below 10000 counts; `Idle.PercentageBound` gives the
  windows on which it never does.
- `delay_queue_pop` counts down on an empty queue too; the server never does that to it.

## Model

| member | source | states |
|---|---|---|
| TaskLists.PooledLists.PushBack | src/task_queue.c:63-76 | the list's task sequence grows by the task at its end, every other list of the pool is unchanged, and the node comes from the free stack; links, sizes and the partition of the 64 nodes are kept |
| TaskLists.PooledLists.RemoveNode | src/task_queue.c:99-118 | removing any member through its node deletes exactly that entry; head, tail, prev, next, size and the partition stay right, and the node is free again |
| TaskLists.PooledLists.PopFront | src/task_queue.c:120-122 | takes the first entry of the list and nothing else |
| TaskLists.PooledLists.Alloc | src/task_queue.c:22-35 | hands out the top of the free stack, cleared |
| TaskLists.PooledLists.Free | src/task_queue.c:37-47 | puts the node on top of the free stack |
| TaskLists.PooledLists.constructor | src/task_queue.c:13-57 | all 64 nodes free, all lists empty |
| TaskLists.RemoveLinks | src/task_queue.c:99-118 | unlinking the k-th node leaves the list that skips it, for every position, first, last and only one included |
| TaskLists.PoolRemove | src/task_queue.c:99-118 | the whole pool invariant survives a removal: links, partition of nodes between lists and free stack, contents |
| TaskLists.PoolPush | src/task_queue.c:63-76 | the whole pool invariant survives an append |
| TaskLists.PooledLists.HasRoom | src/task_queue.c:22-28 | the allocation assertion cannot fire: if the listed tasks are distinct and some task of the 64 is not listed, a node is free |
| PriorityQueues.PriorityTaskQueues.Push | src/task_queue.c:147-154 | appends to the list of the task's priority and counts it |
| PriorityQueues.PriorityTaskQueues.Pop | src/task_queue.c:136-145 | takes the oldest task of the highest non-empty priority; the cached size stays the sum of the list lengths |
| PriorityQueues.PriorityTaskQueues.Empty | src/task_queue.c:132-134 | the cached size is zero exactly when all ten lists are empty |
| PriorityQueues.SizesUpdate | src/task_queue.c:136-154 | replacing one list changes the total of its own queue by the difference in length and no other total |
| SenderRing.Queue.Push | src/queue.c:41-53 | appends, and refuses exactly when capacity - 1 entries wait |
| SenderRing.Queue.Pop | src/queue.c:55-63 | takes the oldest entry; 0 from an empty ring |
| SenderRing.Queue.IsFull | src/queue.c:25-31 | true exactly with one slot left over |
| SenderRing.WindowPush | src/queue.c:41-53 | the window around the ring grows by the pushed entry, wrapped or not |
| SenderRing.WindowPop | src/queue.c:55-63 | the window loses its first entry, wrapped or not |
| MemoryBlocks.BlockTable.Allocate | src/memory.c:16-28 | the lowest unused block is marked used; null exactly when there is none |
| MemoryBlocks.BlockTable.Free | src/memory.c:30-36 | the block is zeroed and unused; the others are untouched |
| KernelModel.LookupIsSlot | src/task_scheduler.c:264-270 | the search through the job list finds a task exactly when one with that tid is alive |
| KernelModel.RingHoldsSenders | src/message_passing.c:147-153 | every tid in a ring is that of a live task blocked in Send to the ring's owner, so the invalid-sender branch of Receive is unreachable |
| KernelModel.RequeueKeepsReadyFiled | src/task_scheduler.c:217-230 | requeueing the running task keeps the ready lists in agreement with the states |
| KernelInvariant.DispatchedKeeps | src/task_scheduler.c:217-240 | schedule and activate keep the kernel invariant and leave exactly the chosen task running |
| KernelInvariant.CreateKeeps | src/task_scheduler.c:145-177 | creation keeps the invariant; while the task pool is not exhausted a memory block is free |
| KernelInvariant.ExitKeeps | src/task_scheduler.c:179-186 | exit keeps the invariant, with senders still queued on the exiting task left blocked and unfiled |
| KernelInvariant.SendKeeps | src/message_passing.c:75-118 | every outcome of Send keeps the invariant |
| KernelInvariant.ReceiveKeeps | src/message_passing.c:127-169 | every outcome of Receive keeps the invariant |
| KernelInvariant.ReplyKeeps | src/message_passing.c:175-204 | Reply keeps the invariant |
| KernelInvariant.AwaitKeeps | src/interrupt.c:72-76 | AwaitEvent keeps the invariant |
| KernelInvariant.WakeWaiterKeeps | src/task_scheduler.c:242-254 | an interrupt keeps the invariant |
| KernelInvariant.HandledKeeps | src/exception.c:29-64 | whatever exception the running task raises, handling it keeps the invariant |
| KernelInvariant.BlockAvailable | src/memory.c:16-28 | while some slot is not live, some block is free, because live tasks own one block each |
| KernelSteps.HandleFrame | src/message_passing.c:75-204 | an exception changes no record and no memory but those of the running task and of the one partner it concerns |
| KernelSteps.DispatchFrame | src/task_scheduler.c:217-240 | up to the exception only the dispatched task changes, and a running one becomes ready |
| KernelSteps.NextWasReady | src/task_scheduler.c:217-240 | the dispatched task was ready, or was the running one, and heads the list of its priority |
| KernelSteps.SendNowEffect | src/message_passing.c:91-107 | records, memory and ready list after a Send to a waiting receiver, and nothing else changed; the two blocks are distinct |
| KernelSteps.ReceiveNowEffect | src/message_passing.c:147-169 | the same for Receive from a waiting sender |
| KernelSteps.ReplyNowEffect | src/message_passing.c:187-204 | the same for Reply |
| KernelRuns.RunKeepsInvariant | src/kernel.c:18-30 | the invariant holds in every state of every run |
| KernelRuns.InitialTasks | src/kernel.c:13-16 | a run starts with two ready tasks, 0 of priority 5 and 1 of priority 0, without parent or result, and with zeroed memory |
| KernelRuns.EachTaskInItsPlace | src/task_scheduler.c:29-42 | in every reachable state a task occurs exactly once where its state puts it (ready list of its priority, list of its event, ring of its live target) and nowhere else; a running task is the current one |
| KernelRuns.NextHasHighestPriority | src/task_scheduler.c:217-240 | schedule never passes over a ready task of higher priority, and within a priority it takes the oldest |
| KernelRuns.HandledAppends | src/task_queue.c:147-154 | handling an exception only appends to ready lists |
| KernelRuns.OnePositionCloser | src/task_scheduler.c:217-240 | with nothing above its list, a ready task moves up by exactly one position in an iteration |
| KernelRuns.BoundedWaiting | src/task_scheduler.c:217-240 | the task at position k of its list is dispatched by the (k+1)-th schedule from then on, if no higher list has an entry at those times |
| KernelRuns.KernelNeverStops | src/kernel.c:13-30 | if the idle task makes no system call, schedule never returns NULL in any run |
| KernelRuns.ResourcesSuffice | src/task_scheduler.c:145-177 | at most 64 tasks exist, the job list and the blocks suffice for every creation, and live tasks own distinct blocks |
| KernelRuns.TidsAreDense | src/kernel_syscall.c:7-23 | Create answers 0, 1, 2, ... until 64 tasks have been created and -1 ever after; nothing else changes the count |
| KernelRuns.CreatedTask | src/task_scheduler.c:145-177 | the new task has the next number, its creator as parent, the clamped priority, and a block nobody else has; it is ready |
| KernelRuns.IdentityKept | src/task_scheduler.c:145-186 | tid, parent, priority and block of a task never change while it lives |
| KernelRuns.ParentIsCreator | src/task_scheduler.c:145-177 | in every run, the parent tid recorded for a task is that of the task that called Create for it, for as long as it lives |
| KernelRuns.InterruptWakesHighest | src/task_scheduler.c:242-254 | an interrupt wakes the oldest waiter of the highest priority among those waiting for that event, and only it |
| Rendezvous.RingAfter | src/message_passing.c:108-169 | what one exception does to a ring: append by a queued Send, drop of the first by Receive, clearing by Exit, nothing otherwise |
| Rendezvous.HandledFifo | src/message_passing.c:75-169 | one exception: what is taken followed by what is left equals what was pending followed by what was sent |
| Rendezvous.DispatchKeepsPending | src/task_scheduler.c:217-240 | scheduling and other tasks' user code leave every pending message as it was |
| Rendezvous.ReceivedInOrderSent | src/message_passing.c:45-169 | in every run, what a task received, followed by what still waits in its ring, is exactly what was sent to it, in order, with the bytes at the time of the Send |
| Delivery.DeliveryEffect | src/message_passing.c:45-107 | a delivery gives the receiver the message and its length as result, makes it ready or leaves it running, and moves the sender to WATIREPLY |
| Delivery.ArrivedContents | src/message_passing.c:45-51 | the receiver finds exactly the first min(sent, buffer) bytes and the sender's tid; the rest of its memory is unchanged |
| Delivery.OrdersAgree | src/message_passing.c:91-169 | over two whole runs, one in which c queues in r's empty ring and r receives later, one in which r receives first and c is the first to send to it: if c and r stop with the same registers and memory in both, r ends with the same registers, memory and result and c in WATIREPLY with the same registers and memory in both; r is RUNNING against READY |
| Delivery.QueuedMessageIsNext | src/message_passing.c:108-169 | in every run, a message queued in an empty ring is the very one the next Receive takes, unchanged |
| Delivery.ReceiverWaitsInRun | src/message_passing.c:134-145 | in every run, a task blocked in Receive stays blocked with the registers and the memory it blocked with until somebody sends to it |
| Delivery.SenderWaitsForReply | src/message_passing.c:105-204 | without a Reply to it, a sender stays in WATISEND or WATIREPLY with its registers, result and memory |
| Delivery.SenderBlockedUntilReply | src/message_passing.c:105-204 | the same over runs, for the message in its buffer |
| Delivery.NoSecondMessage | src/message_passing.c:147-204 | in every run, between two messages taken from the same sender, by whatever receivers, there is a Reply to it |
| Servers.OwedTaskWaits | src/message_passing.c:147-204 | in every run in which only the task that took a message replies to its sender, whom a task owes an answer is in WATIREPLY, so its Reply is in order, and no message of it is taken by anybody before that answer |
| Servers.WaiterIsOwed | src/message_passing.c:91-204 | in every run, whoever is in WATIREPLY had its message taken by a task that has not answered since |
| Servers.OwedWaitExactly | src/message_passing.c:187-204 | everybody owed an answer waits for it, from one task only, if and only if every Reply so far came from the task that had taken the message |
| ClockOnKernel.OwedAreWaiting | src/clock_server.c:117-167 | in every run in which a task serves as the clock server does, those it owes an answer are those the server model has waiting |
| ClockOnKernel.KernelDelivers | src/message_passing.c:147-204 | then, if only the task that took a message replies to its sender, its messages are as the theorems about the clock server assume, and everybody it has waiting is in WATIREPLY |
| Delivery.ReplyArrives | src/message_passing.c:175-204 | Reply gives the sender the first min(reply, buffer) bytes and that length as result and makes it ready; the replier gets the same length |
| Answers.MyTidAnswers | src/kernel_syscall.c:25-32 | MyTid answers every task with its own number, and nothing else happens |
| Answers.MyParentTidAnswers | src/kernel_syscall.c:34-42 | MyParentTid answers with the number of the parent, and nothing else happens |
| Answers.ParentTidIsCreator | src/kernel_syscall.c:34-42 | over a run: if the task called MyParentTid, the answer is the number of the task that called Create for it |
| Answers.SendToNobody | src/message_passing.c:85-89 | Send answers -1 and does nothing else if and only if no live task has the number |
| Answers.SendWaitsItsTurn | src/message_passing.c:108-117 | a Send to a task that is not receiving appends the sender to the ring and blocks it, or with 63 waiting answers -2; nothing else happens |
| Answers.ReceiveOnlyBlocks | src/message_passing.c:134-145 | a Receive with nobody in the ring blocks its caller and does nothing else |
| Answers.ReplyToNobody | src/message_passing.c:187-193 | Reply answers -1 and does nothing else if and only if no live task has the number |
| Answers.CreateMakesOne | src/kernel_syscall.c:7-23 | Create answers the new number, or -1 with 64 tasks created; the new task is ready at the end of its list with empty registers, no result and an unused block, and no other task changes |
| Answers.ExitLeavesNothing | src/task_scheduler.c:179-186 | Exit takes the caller out of the job list, zeroes and frees its block and empties its ring; nothing else changes |
| Answers.NothingHappens | src/kernel_syscall.c:44-46 | Yield and exceptions that are no system calls change nothing at all |
| Answers.AwaitOnlyBlocks | src/interrupt.c:72-76 | AwaitEvent appends its caller to the list of that event and its priority and assigns no result |
| Answers.InterruptOnlyWakes | src/task_scheduler.c:242-254 | an interrupt makes ready the oldest waiter of the highest priority for that event, with record and memory otherwise as they were; without one it changes nothing |
| Answers.UntouchedUntilNext | src/task_scheduler.c:29-42 | over a run, a task that is ready, running or waiting for an event keeps its result, registers and memory until it is dispatched |
| Answers.StoppedUntilNext | src/task_scheduler.c:242-254 | over a run, a task stopped by an interrupt, Yield, AwaitEvent or an unsupported exception keeps until it is dispatched the registers and memory it stopped with and the result it had before |
| Answers.ReadyTaskUntouched | src/task_scheduler.c:29-42 | a ready task's record and memory are not touched before it is dispatched |
| Answers.ResultReachesTask | src/exception.c:16-27 | over a run, the result given to a task that can run, by its own call or by the one that woke it, is in its x0 when it next runs, and its record and block have not changed until then |
| Answers.InterruptKeepsRegisters | src/exception.c:20-22 | over a run, after an interrupt, Yield, AwaitEvent or an unsupported exception a task resumes with the registers it stopped with, but x0 is the last result it was ever assigned; so it has its registers back if and only if it never was assigned one or that one equals what x0 held |
| Answers.InterruptLosesX0 | src/exception.c:20-22 | a run from boot in which an interrupt replaces a task's x0 by an old result |
| Refusals.RefusedWhenAllOthersWait | src/message_passing.c:109-117 | a Send is refused with -2 if and only if all other 63 tasks wait to send to that receiver |
| Refusals.SendNeverRefused | src/message_passing.c:109-117 | in a run without sends to oneself no Send to a live task is ever refused |
| Refusals.IdleKeepsRoom | src/message_passing.c:109-117 | while the idle task makes no system call, no Send to a live task is refused in any run, sends to oneself included |
| Refusals.SendIsRefused | src/message_passing.c:113-117 | a run from boot that ends in a refused Send to a live task: all 64 tasks, the receiver and the idle task included, send to task 0 |
| Kernel.Machine.InitKernel | src/task_scheduler.c:44-83 | the initialised structures represent the boot state |
| Kernel.Machine.ChangeTaskState | src/task_scheduler.c:29-42 | sets the state, and the current task or the ready list with it |
| Kernel.Machine.GetTaskByTid | src/task_scheduler.c:264-270 | walking the linked job list computes the search of the model |
| Kernel.Machine.CreateTask | src/task_scheduler.c:145-177 | follows the model; no pool assertion fires |
| Kernel.Machine.SysCreate | src/kernel_syscall.c:7-23 | follows the model |
| Kernel.Machine.SysExit | src/task_scheduler.c:179-186 | removes the task through its remembered list node, frees and zeroes its block, forgets its senders |
| Kernel.Machine.CopyMessage | src/message_passing.c:45-51 | the byte loop copies min of the two lengths between two different blocks and nothing else |
| Kernel.Machine.Synchronize | src/message_passing.c:53-72 | copies, assigns the length and wakes the task copied to unless it is running |
| Kernel.Machine.SysSend | src/message_passing.c:75-118 | follows the model in all four outcomes |
| Kernel.Machine.SysReceive | src/message_passing.c:127-173 | follows the model; the branch for a dead sender is shown dead |
| Kernel.Machine.SysReply | src/message_passing.c:175-210 | follows the model |
| Kernel.Machine.SysAwait | src/interrupt.c:72-76 | follows the model; the shared interrupt pool always has a node |
| Kernel.Machine.WakeUpWaiter | src/task_scheduler.c:242-254 | follows the model; the popped task is in AWATIEVENT |
| Kernel.Machine.Schedule | src/task_scheduler.c:217-240 | returns the model's next task, NULL exactly when nothing is ready |
| Kernel.Machine.Activate | src/exception.c:16-22 | ends in the model's dispatched state |
| Kernel.Machine.HandleException | src/exception.c:29-64 | follows the model for every exception |
| Kernel.Machine.Iterate | src/kernel.c:21-30 | one iteration of the loop is one step of the model |
| Kernel.Kmain | src/kernel.c:13-30 | the machine goes through exactly the states of the run |
| MemoryPools.MemoryPool.Allocate | src/memory_pool.c:15-24 | takes the top of the stack of unused chunks; NULL exactly when it is empty |
| MemoryPools.MemoryPool.Free | src/memory_pool.c:26-29 | puts a chunk in use back; the stack never overflows |
| DelayQueues.InsertedIsStable | src/clock_server.c:43-64 | the insertion keeps the order, adds exactly one entry, and puts it last among those with its deadline |
| DelayQueues.ChainInsert | src/clock_server.c:52-58 | linking a node in at any position spells out the sequence with the entry at that position |
| DelayQueues.DelayQueue.Add | src/clock_server.c:43-64 | the linked queue becomes the stable sorted insertion; size counts the nodes and end is NULL exactly when front is |
| DelayQueues.DelayQueue.Pop | src/clock_server.c:66-82 | takes the first node and keeps the same facts; on an empty queue answers NULL and lets the size wrap around |
| ClockModel.ServeKeepsClock | src/clock_server.c:117-167 | between messages the queue is sorted and every deadline lies after the counter, wrap-around included |
| ClockModel.TickWakesExactly | src/clock_server.c:120-138 | a TICK answers exactly the queued tasks whose deadline is the new counter, in order |
| ClockModel.DelayIsQueuedUnlessItWraps | src/clock_server.c:145-162 | a Delay is queued with the right deadline if and only if it is positive and the sum does not wrap |
| ClockModel.NoWrapUpToHalf | src/clock_server.c:145-148 | no sum wraps while the counter is at most 2^31 |
| ClockModel.DelayReturnsDeadline | src/clock_server.c:184-216 | Delay returns now + ticks if and only if that is below 2^31, DelayUntil always returns its argument; an answer at once carries the deadline, and otherwise the deadline is queued |
| ClockModel.DelayTurnsNegative | src/clock_server.c:198 | one tick of delay at counter 2^31 - 1 comes back as -2^31 |
| ClockModel.CounterCountsTicks | src/clock_server.c:120-122 | until it wraps, the counter is the number of TICKs |
| ClockModel.TimeAnswersTicks | src/clock_server.c:139-144 | in every run, TIME is answered with the number of TICKs so far while that is below 2^32, and changes nothing |
| ClockModel.UnknownActionIgnored | src/clock_server.c:163-165 | any other action gets no reply and changes nothing |
| ClockModel.NotifierAnsweredFirst | src/clock_server.c:120-124 | a TICK is answered to its sender, as it was sent, before anybody is woken |
| ClockModel.WokenOnTheTick | src/clock_server.c:119-161 | in every run, a task delayed until d is queued until exactly the TICK that makes the counter d, which answers it with d |
| ClockModel.NoEarlyAnswer | src/clock_server.c:119-161 | and no earlier message answers it |
| ClockModel.EachRequestAnsweredOnce | src/clock_server.c:117-167 | in every run each reply goes to a task still waiting, none is answered twice, and at most 64 are queued |
| ClockServer.Server.WakeDue | src/clock_server.c:128-136 | the loop removes exactly the due entries, answers them in order and gives their chunks back |
| ClockServer.Server.ServeMessage | src/clock_server.c:117-167 | one pass of the message loop on the linked queue and the pool is the model's |
| ClockMessages.WholeMessage | src/clock_server.c:117-118 | a message of full length is read as it was sent, whatever the buffer held |
| ClockMessages.RequestReadBack | src/clock_server.c:172-216 | what Time, Delay and DelayUntil put into their message is what the server reads |
| ClockMessages.NextLetter | src/clock_server.c:117-167 | a shorter message is read with the end of what the last one left in the buffer, tick count written by the server included |
| ClockMessages.ShortMessage | src/clock_server.c:117-155 | a four-byte message is read with the tick count that the last message left: the counter after TICK and TIME, the deadline after DELAY, otherwise what that message itself held |
| ClockServer.Run | src/clock_server.c:100-169 | for every sequence of messages from tasks, of any length, up to the first empty one, the pool never runs out and the replies are the model's |
| Numerals.NumeralValue | src/utilities.c:61-86 | the text of a number denotes that number, in every base |
| Numerals.PrefixValue | src/utilities.c:169-180 | reading a numeral from the left never exceeds its value |
| Conversions.ReversePrefix | src/utilities.c:75-83 | the two-pointer loop turns the prefix around in place and touches nothing else |
| Conversions.UnsignedToCString | src/utilities.c:61-86 | writes the numeral of the number in the base and a terminator, and nothing else |
| Conversions.SignedToCString | src/utilities.c:23-59 | writes the text of every i32 or i64 in every base but the least one in base 10: sign and numeral in base 10; in other bases the numeral, whose digits count down from '0' when the number is negative |
| Conversions.SignedTextIsNumeral | src/utilities.c:32-46 | the text is sign and numeral if and only if the number is not negative or the base is 10 |
| Conversions.NegativeDigit | src/utilities.c:37-46 | in another base, where the numeral has the digit d the text of a negative number has the character d places below '0' |
| Conversions.MinusThirtyOne | src/utilities.c:37-42 | a text that is not: -31 in base 16 comes out as "/!" |
| Conversions.CStringToU32 | src/utilities.c:169-180 | for any text, the Horner sum of the distances of its characters from '0', modulo 2^32 |
| Conversions.CStringToI32 | src/utilities.c:153-167 | for any text on which no step overflows, the signed Horner sum |
| Conversions.NumeralFits | src/utilities.c:153-167 | no step overflows on a numeral, with or without a sign, whose value is an int |
| Conversions.UnsignedRoundTrip | src/utilities.c:61-180 | parsing undoes printing for every u32, and the running sum never passes the number |
| Conversions.SignedRoundTrip | src/utilities.c:23-167 | parsing undoes printing for every i32 but the least |
| Tokens.JoinSplit | src/utilities.c:218-245 | joining the pieces with spaces gives the line back; there is one piece more than spaces; no piece has a space |
| Tokens.SplitIsUnique | src/utilities.c:218-245 | no other space-free pieces join to the line |
| Tokens.GetToken | src/utilities.c:218-245 | returns the idx-th piece with its place and size, NULL and 0 exactly when there is none |
| PrintfModel.PrintedDigitsValue | src/printf.c:286-306 | the digits printed, padding included, denote the value modulo base^32 and are at most 32 |
| PrintfModel.SixtyFourBitsFit | src/printf.c:286-306 | which is the value itself for 64-bit values in bases 8, 10 and 16, and the digits alone never take all 32 places |
| PrintfModel.NumberTextLayout | src/printf.c:204-282 | without '#' a number is spaces, sign, digits, spaces, padded on one side by exactly as many spaces as the width asks for; the sign is missing exactly when it does not fit |
| PrintfModel.MinusShown | src/printf.c:269-279 | without '#' a minus sign is printed if and only if the number is negative, is below base^31, and is left-aligned or has a precision below 32 and no zero-padded field wider than 32 |
| PrintfFormat.MinusIsLost | src/printf.c:269-279 | "%033d" prints -5 without its sign, in 32 characters |
| PrintfFormat.NumeralIsRead | src/printf.c:193-200 | decimal digits in a format are read as their value modulo 2^32, up to the first character that is no digit |
| PrintfModel.FieldIsFilled | src/printf.c:204-282 | the length without '#' is the larger of the width and sign plus digits, but 32 for a zero-padded field wider than 32 |
| PrintfFormat.RenderLiteral | src/printf.c:592-600 | text without '%' is printed as it stands, whatever follows |
| PrintfMeaning.DigitsDetermined | src/printf.c:296-303 | as many digits of a base, in one case of letters, with the same value are the same digits |
| PrintfMeaning.NumberPrinted | src/printf.c:232-306 | the digits are of the base, in the case asked for, denote the value modulo base^32, and have leading zeros only up to the precision and a zero-padded field; the sign is the one that number and flags ask for if there is room; spaces fill the field on the side asked for |
| PrintfMeaning.PrefixedNumberPrinted | src/printf.c:247-267 | with '#', 0x, 0X, 0b or 0 stands before the digits, which lose one or two leading ones exactly when they are as long as the field |
| PrintfMeaning.OneWayToShow | src/printf.c:232-306 | these descriptions leave no choice: one text and one sequence of digits meets them |
| PrintfMeaning.DirectiveIsRead | src/printf.c:606-685 | every directive is read as it is spelled: each flag is set exactly if its character occurs, width and precision are the numbers written, or those of the arguments for '*', and the length is that of its letters |
| PrintfMeaning.IntegerDirective | src/printf.c:688-777 | d, i, u, x, X, o and b print the argument, in the type that the length names, as the number so described: base, case, sign, zeros and prefix by conversion and flags |
| PrintfMeaning.StringDirective | src/printf.c:801-825 | s prints the string, or as many characters as the precision allows, in its field |
| PrintfMeaning.CharDirective | src/printf.c:781-799 | c prints the character of the argument modulo 256 in its field |
| PrintfMeaning.PointerDirective | src/printf.c:827-843 | p prints the address in capital hexadecimal digits with zeros up to 16 places |
| PrintfMeaning.BareDirective | src/printf.c:845-853 | '%' and any other character stand for themselves and take no argument; integer conversions with ll print nothing |
| PrintfConsequences.PlainDirective | src/printf.c:688-757 | %x, %X, %o, %b and %u print digits of base 16, 16, 8, 2 and 10 with the value of the argument modulo 2^32 and no leading zero |
| PrintfConsequences.DecimalInField | src/printf.c:204-228 | with a width, what %d prints stands at the right end of a field of that width, with '-' at its left end |
| PrintfConsequences.SignShown | src/printf.c:269-279 | '+' and ' ' put themselves before a number that is not negative and change nothing else |
| PrintfConsequences.PrecisionReached | src/printf.c:234-244 | with a precision up to 32 there are that many digits if and only if there is no '-', or the number has them itself |
| PrintfConsequences.PrecisionIsLost | src/printf.c:234-244 | "%.3d" prints 5 as 005, "%-.3d" as 5 |
| PrintfConsequences.PrefixCostsDigits | src/printf.c:247-254 | without a precision, the digits kept under '#' no longer denote the number if and only if the number, with the zeros padded before it, is as long as the field and needs one of the places that the prefix takes |
| PrintfConsequences.DigitsAreLost | src/printf.c:247-254 | "%#8x" prints 0x12345678 as 0x345678 |
| Printf.OutRev | src/printf.c:204-228 | lays the aligned, reversed text over the buffer as far as it fits |
| Printf.NtoaFormat | src/printf.c:232-282 | stays inside its 32-character buffer and prints the formatted text |
| Printf.NtoaLong | src/printf.c:286-306 | prints the text of the number for every value, base, width, precision and flags |
| Printf.EvalDirective | src/printf.c:606-685 | reads flags, width, precision and length as specified, taking arguments for '*' |
| Printf.Vsnprintf | src/printf.c:582-862 | the buffer, if there is one, holds the first min(len, n-1) characters of the unbounded text and a terminator and is not written at or past n; the result depends neither on n nor on the buffer |
| PrintfRoundTrip.DecimalDirective | src/printf.c:727-742 | %d prints the sign and the decimal numeral of its argument as an int, as i32_to_cstring writes it for all but the least |
| PrintfRoundTrip.UnsignedDirective | src/printf.c:744-757 | %u prints what u32_to_cstring writes |
| PrintfRoundTrip.PrintThenParse | src/printf.c:888-895 | cstring_to_i32 reads back what snprintf with %d wrote |
| Idle.TotalFits | tasks/idle.c:31-33 | disjoint busy intervals inside a window add up to at most the window |
| Idle.PercentageBound | tasks/idle.c:34-36 | the report is at most 100 whatever part of the window was busy, if and only if window % 100 < window / 100 |
| Idle.TenThousandCountsSuffice | tasks/idle.c:34-36 | every window of at least 10000 counts meets that condition; so does 9900, but not 9999, where a busy window is reported as 101 |
| Idle.IdleTask.AfterEnter | tasks/idle.c:31-42 | adds the interval since idle was last left; reports the share of the window and starts a new one every 50th time |
| Idle.IdleTask.BeforeExit | tasks/idle.c:45-47 | the counted intervals stay inside the window |
| Idle.Loop | tasks/idle.c:49-58 | over any number of passes: pass 0 and every 50th after it report the time spent outside idle in their window, between 0 and the window, divided by the window's hundredth, and no other pass reports; on a window that meets the condition the report is at most 100 |

## Left out

- The context switch, boot code and vector table in assembly: a system call or interrupt is an event with arbitrary registers.
- Hardware access (GIC, UART, SPI, GPIO, timer registers) and the tick bookkeeping of src/timer.c.
- The older task queue of src/task_scheduler.c lines 85-143, which the scheduler no longer uses.
- The hash table, the name server, `rps_server` and the demonstration tasks.
- Floating-point, exponential and long long printing, which src/printf.h compiles out.
- Registers other than the five that carry arguments, and the saved pc, sp and spsr of a task.
- Pointers outside the caller's own memory block, and memory that user tasks share.
- Replies to tasks that do not wait for one, negative lengths and interrupts without a handler.
- Liveness of senders still queued on a task that exits: they stay blocked.
- KernelModel.SysReceive: has no branch for a sender that is not found, because RingHoldsSenders proves there is none; Kernel.Machine.SysReceive has the branch and shows it dead.
- ClockServer.Run: sequences in which a third task answered a client of the server, so that it asks again, are outside; the assumption that nobody does is stated above and `ClockOnKernel.KernelDelivers` shows that it is enough.
- ClockModel.EachRequestAnsweredOnce: see ClockServer.Run.
- ClockModel.NoEarlyAnswer: see ClockServer.Run.
- Conversions.SignedToCString: the least number in base 10 is outside, because negating it overflows in C, and so are bases below 2.
- Conversions.UnsignedToCString: bases below 2 are outside, because the loop divides by zero or does not end.
- Conversions.CStringToI32: texts on which a signed operation overflows are outside, because C leaves that undefined.
- PrintfRoundTrip.DecimalDirective: for the least int the source computes 0 - value, which overflows in C; the model takes the magnitude that this processor gives.
- Printf.Vsnprintf: formats in which a '%' is not followed by a complete directive, or whose arguments do not fit, are excluded, because the code reads past the terminator or the arguments.
- Idle.IdleTask.AfterEnter: a report on a window below 100 counts divides by zero in C and is excluded.
- Counters of 64 bits in the idle task do not wrap in the model.

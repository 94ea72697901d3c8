/**
 The kernel on its own data structures: task table, pooled linked lists, sender rings
 and memory blocks, changed in place as src/task_scheduler.c, src/message_passing.c,
 src/kernel_syscall.c, src/interrupt.c, src/exception.c and src/kernel.c do. Each method
 is proved to take the represented state exactly where the step functions of KernelModel
 say; the assertions of the C code are proof obligations on the way.
 */
module Kernel {
  import opened CInts
  import opened Filing
  import opened TaskLists
  import opened PriorityQueues
  import opened SenderRing
  import opened MemoryBlocks
  import opened KernelModel
  import opened KernelInvariant
  import opened KernelSteps
  import opened KernelRuns

  class Machine {
    const tasks: array<Task>             // task_pool, without the two fields below
    const jobNodes: array<int>           // job_node of each task
    const senders: seq<Queue>            // senders of each task
    var poolPtr: int
    var tidCount: int
    var current: int
    const jobq: PooledLists
    const readyq: PriorityTaskQueues
    const irqq: PriorityTaskQueues
    const blocks: BlockTable

    ghost var view: State                // the state that all of this represents
    ghost const ringRepr: set<object>

    ghost function Repr(): (r: set<object>) {
      {this, tasks, jobNodes} + jobq.Repr() + readyq.Repr() + irqq.Repr() + blocks.Repr() + ringRepr
    }

    /** The parts share no storage. */
    static ghost predicate PartsSeparate(senders: seq<Queue>, ringRepr: set<object>, jobq: PooledLists,
                                         readyq: PriorityTaskQueues, irqq: PriorityTaskQueues, blocks: BlockTable)
    {
      && jobq.Repr() !! readyq.Repr() && jobq.Repr() !! irqq.Repr() && readyq.Repr() !! irqq.Repr()
      && blocks.Repr() !! jobq.Repr() && blocks.Repr() !! readyq.Repr() && blocks.Repr() !! irqq.Repr()
      && ringRepr !! jobq.Repr() && ringRepr !! readyq.Repr() && ringRepr !! irqq.Repr() && ringRepr !! blocks.Repr()
      && |senders| == TASKS
      && (forall i :: 0 <= i < TASKS ==> senders[i] in ringRepr && senders[i].container in ringRepr)
      && (forall i, j :: 0 <= i < j < TASKS ==> senders[i] != senders[j] && senders[i].container != senders[j].container)
    }

    ghost predicate Apart(o: object) {
      o !in jobq.Repr() && o !in readyq.Repr() && o !in irqq.Repr() && o !in blocks.Repr() && o !in ringRepr
    }

    ghost predicate Separate() {
      && PartsSeparate(senders, ringRepr, jobq, readyq, irqq, blocks)
      && Apart(this) && Apart(tasks) && Apart(jobNodes)
    }

    // What each part represents. The parts are constants, so these say nothing of view.

    ghost predicate JobsAre(jobs: seq<int>)
      reads jobq.Repr()
    {
      jobq.Valid() && jobq.contents == [jobs]
    }

    ghost predicate ReadyAre(lists: seq<seq<int>>)
      reads readyq.Repr()
    {
      readyq.Valid() && readyq.sizes.Length == 1 && readyq.Contents() == lists
    }

    ghost predicate EventsAre(lists: seq<seq<int>>)
      reads irqq.Repr()
    {
      irqq.Valid() && irqq.sizes.Length == INTERRUPTS && irqq.Contents() == lists
    }

    ghost predicate BlocksAre(used: seq<bool>, memory: seq<seq<Byte>>)
      reads blocks.Repr()
    {
      blocks.Valid() && blocks.used[..] == used && blocks.data[..] == memory
    }

    static ghost predicate RingIs(q: Queue, ring: seq<int>)
      reads q, q.container
    {
      q.container.Length == RING_CAPACITY && q.Valid() && q.Contents() == ring
    }

    ghost predicate RingsAre(rings: seq<seq<int>>)
      requires Separate()
      reads ringRepr
    {
      |rings| == TASKS && forall i :: 0 <= i < TASKS ==> RingIs(senders[i], rings[i])
    }

    /** job_node of a task on the job list is its node there. */
    ghost predicate JobNodesAre(jobs: seq<int>)
      reads jobNodes, jobq
    {
      && jobNodes.Length == TASKS
      && |jobq.chains| == 1 && |jobq.chains[0]| == |jobs|
      && (forall i :: 0 <= i < |jobs| ==> 0 <= jobs[i] < TASKS && jobNodes[jobs[i]] == jobq.chains[0][i])
    }

    ghost predicate TableValid()
      reads this, tasks
    {
      && tasks.Length == TASKS && tasks[..] == view.tasks
      && poolPtr == view.poolPtr && tidCount == view.tidCount && current == view.current
    }

    ghost predicate Valid()
      reads this, Repr()
    {
      && Separate() && TableValid() && JobNodesAre(view.jobq) && JobsAre(view.jobq) && ReadyAre(view.readyq)
      && EventsAre(view.irqq) && RingsAre(view.senders) && BlocksAre(view.used, view.memory)
    }

    /** The empty sender rings of all tasks. */
    static method NewRings() returns (rings: seq<Queue>, ghost repr: set<object>)
      ensures |rings| == TASKS && fresh(repr)
      ensures forall i :: 0 <= i < TASKS ==> rings[i] in repr && rings[i].container in repr
      ensures forall i :: 0 <= i < TASKS ==> RingIs(rings[i], [])
      ensures forall i, j :: 0 <= i < j < TASKS ==> rings[i] != rings[j] && rings[i].container != rings[j].container
    {
      hide Queue.Contents;
      rings, repr := [], {};
      while |rings| < TASKS
        invariant |rings| <= TASKS && fresh(repr)
        invariant forall i :: 0 <= i < |rings| ==> rings[i] in repr && rings[i].container in repr
        invariant forall i :: 0 <= i < |rings| ==> RingIs(rings[i], [])
        invariant forall i, j :: 0 <= i < j < |rings| ==> rings[i] != rings[j] && rings[i].container != rings[j].container
      {
        var ring := new Queue(RING_CAPACITY);
        rings := rings + [ring];
        repr := repr + ring.Repr();
      }
    }

    /** Puts the freshly initialised parts together. */
    constructor (senders: seq<Queue>, ghost ringRepr: set<object>, jobq: PooledLists,
                 readyq: PriorityTaskQueues, irqq: PriorityTaskQueues, blocks: BlockTable)
      requires PartsSeparate(senders, ringRepr, jobq, readyq, irqq, blocks)
      requires jobq.Valid() && jobq.contents == [[]] && jobq.chains == [[]]
      requires readyq.Valid() && readyq.sizes.Length == 1 && readyq.Contents() == Boot().readyq
      requires irqq.Valid() && irqq.sizes.Length == INTERRUPTS && irqq.Contents() == Boot().irqq
      requires blocks.Valid() && blocks.used[..] == Boot().used && blocks.data[..] == Boot().memory
      requires forall i :: 0 <= i < TASKS ==> RingIs(senders[i], [])
      ensures Valid() && view == Boot()
      ensures fresh({this, tasks, jobNodes})
      ensures Repr() == {this, tasks, jobNodes} + jobq.Repr() + readyq.Repr() + irqq.Repr() + blocks.Repr() + ringRepr
    {
      hide PooledLists.Valid, PriorityTaskQueues.Valid, PriorityTaskQueues.Contents, RingIs, Zeroes;
      this.senders := senders;
      this.ringRepr := ringRepr;
      this.jobq, this.readyq, this.irqq, this.blocks := jobq, readyq, irqq, blocks;
      tasks := new Task[TASKS](t => FRESH_TASK.(next := if t + 1 < TASKS then t + 1 else NONE));
      jobNodes := new int[TASKS](_ => NONE);
      poolPtr, tidCount, current := 0, 0, NONE;
      view := Boot();
    }

    /** The empty queues of init_scheduler. */
    static method NewQueues() returns (jobq: PooledLists, readyq: PriorityTaskQueues, irqq: PriorityTaskQueues)
      ensures fresh(jobq.Repr()) && fresh(readyq.Repr()) && fresh(irqq.Repr())
      ensures jobq.Repr() !! readyq.Repr() && jobq.Repr() !! irqq.Repr() && readyq.Repr() !! irqq.Repr()
      ensures jobq.Valid() && jobq.contents == [[]] && jobq.chains == [[]]
      ensures readyq.Valid() && readyq.sizes.Length == 1 && readyq.Contents() == Boot().readyq
      ensures irqq.Valid() && irqq.sizes.Length == INTERRUPTS && irqq.Contents() == Boot().irqq
    {
      hide PooledLists.Valid, PriorityTaskQueues.Valid, PriorityTaskQueues.Contents, Zeroes;
      jobq := new PooledLists(1);
      readyq := new PriorityTaskQueues(1);
      irqq := new PriorityTaskQueues(INTERRUPTS);
      assert jobq.contents == [[]] && jobq.chains == [[]];
    }

    static method NewParts() returns (senders: seq<Queue>, ghost ringRepr: set<object>, jobq: PooledLists,
                                      readyq: PriorityTaskQueues, irqq: PriorityTaskQueues, blocks: BlockTable)
      ensures PartsSeparate(senders, ringRepr, jobq, readyq, irqq, blocks)
      ensures fresh(jobq.Repr()) && fresh(readyq.Repr()) && fresh(irqq.Repr()) && fresh(blocks.Repr()) && fresh(ringRepr)
      ensures jobq.Valid() && jobq.contents == [[]] && jobq.chains == [[]]
      ensures readyq.Valid() && readyq.sizes.Length == 1 && readyq.Contents() == Boot().readyq
      ensures irqq.Valid() && irqq.sizes.Length == INTERRUPTS && irqq.Contents() == Boot().irqq
      ensures blocks.Valid() && blocks.used[..] == Boot().used && blocks.data[..] == Boot().memory
      ensures forall i :: 0 <= i < TASKS ==> RingIs(senders[i], [])
    {
      hide PooledLists.Valid, PriorityTaskQueues.Valid, PriorityTaskQueues.Contents, RingIs, Zeroes, Window;
      jobq, readyq, irqq := NewQueues();
      blocks := new BlockTable();
      senders, ringRepr := NewRings();
    }

    /** init_kernel: memory_init and init_scheduler */
    static method InitKernel() returns (m: Machine)
      ensures m.Valid() && fresh(m.Repr())
      ensures m.view == Boot()
    {
      hide Machine.Valid, Machine.Repr, PooledLists.Valid, PriorityTaskQueues.Valid, PriorityTaskQueues.Contents;
      hide Zeroes, Window, PartsSeparate;
      var rings, ringRepr, jobq, readyq, irqq, blocks := NewParts();
      m := new Machine(rings, ringRepr, jobq, readyq, irqq, blocks);
    }

    // ---- Small steps ------------------------------------------------------------------

    method SetTask(t: int, k: Task)
      requires Valid() && 0 <= t < TASKS
      modifies this`view, tasks
      ensures Valid() && view == old(view).(tasks := old(view).tasks[t := k])
    {
      hide JobNodesAre, JobsAre, ReadyAre, EventsAre, RingsAre, BlocksAre;
      tasks[t] := k;
      view := view.(tasks := view.tasks[t := k]);
    }

    method PushReady(t: int)
      requires Valid() && 0 <= t < TASKS
      requires Filed(view.readyq, ReadyHomes(view.tasks)) && |view.tasks| == TASKS
      requires 0 <= tasks[t].priority < PRIORITIES && ReadyHome(view.tasks[t]) == NONE
      modifies this`view, readyq.Repr()
      ensures Valid() && |old(view).readyq| == PRIORITIES
      ensures view == old(view).(readyq := Appended(old(view).readyq, old(view).tasks[t].priority, t))
    {
      hide JobNodesAre, JobsAre, EventsAre, RingsAre, BlocksAre, PooledLists.Valid, PriorityTaskQueues.Valid;
      hide Queue.Contents, Filed;
      readyq.HasRoom(ReadyHomes(view.tasks), t);
      readyq.Push(0, tasks[t].priority, t);
      view := view.(readyq := Appended(view.readyq, view.tasks[t].priority, t));
    }

    method PopReady() returns (t: int)
      requires Valid() && |view.readyq| == PRIORITIES && Top(view.readyq, 0, PRIORITIES) != NONE
      modifies this`view, readyq.Repr()
      ensures Valid()
      ensures t == old(view).readyq[Top(old(view).readyq, 0, PRIORITIES)][0]
      ensures view == old(view).(readyq := Popped(old(view).readyq, Top(old(view).readyq, 0, PRIORITIES)))
    {
      hide JobNodesAre, JobsAre, EventsAre, RingsAre, BlocksAre, PooledLists.Valid, Queue.Contents, Top;
      ghost var top := Top(view.readyq, 0, PRIORITIES);
      t := readyq.Pop(0);
      view := view.(readyq := Popped(view.readyq, top));
    }

    /** add_to_irq_queue */
    method PushEvent(intid: int, t: int, ghost home: seq<int>)
      requires Valid() && 0 <= t < TASKS && 0 <= intid < KNOWN_INTERRUPTS && 0 <= tasks[t].priority < PRIORITIES
      requires Filed(view.irqq, home) && |home| == TASKS && home[t] == NONE
      modifies this`view, irqq.Repr()
      ensures Valid() && |old(view).irqq| == INTERRUPTS * PRIORITIES
      ensures view == old(view).(irqq := Appended(old(view).irqq, First(intid) + old(view).tasks[t].priority, t))
    {
      hide JobNodesAre, JobsAre, ReadyAre, RingsAre, BlocksAre, PooledLists.Valid, PriorityTaskQueues.Valid;
      hide Queue.Contents, Filed;
      irqq.HasRoom(home, t);
      irqq.Push(intid, tasks[t].priority, t);
      view := view.(irqq := Appended(view.irqq, First(intid) + view.tasks[t].priority, t));
    }

    method PopEvent(intid: int) returns (t: int)
      requires Valid() && |view.irqq| == INTERRUPTS * PRIORITIES && 0 <= intid < KNOWN_INTERRUPTS
      requires Top(view.irqq, First(intid), Last(intid)) != NONE
      modifies this`view, irqq.Repr()
      ensures Valid()
      ensures t == old(view).irqq[Top(old(view).irqq, First(intid), Last(intid))][0]
      ensures view == old(view).(irqq := Popped(old(view).irqq, Top(old(view).irqq, First(intid), Last(intid))))
    {
      hide JobNodesAre, JobsAre, ReadyAre, RingsAre, BlocksAre, PooledLists.Valid, Queue.Contents, Top;
      ghost var top := Top(view.irqq, First(intid), Last(intid));
      t := irqq.Pop(intid);
      view := view.(irqq := Popped(view.irqq, top));
    }

    static method PushOn(q: Queue, ghost ring: seq<int>, tid: int) returns (success: bool)
      requires RingIs(q, ring)
      modifies q, q.container
      ensures success <==> |ring| < RING_CAPACITY - 1
      ensures RingIs(q, if success then ring + [tid] else ring)
    {
      success := q.Push(tid);
    }

    /** register_sender */
    method PushSender(r: int, tid: int) returns (success: bool)
      requires Valid() && 0 <= r < TASKS
      modifies this`view, ringRepr
      ensures Valid() && |old(view).senders| == TASKS
      ensures success <==> |old(view).senders[r]| < RING_CAPACITY - 1
      ensures view == if success then old(view).(senders := Appended(old(view).senders, r, tid)) else old(view)
    {
      hide JobNodesAre, JobsAre, ReadyAre, EventsAre, BlocksAre, PooledLists.Valid, PriorityTaskQueues.Valid;
      hide PriorityTaskQueues.Contents, RingIs;
      success := PushOn(senders[r], view.senders[r], tid);
      view := view.(senders := view.senders[r := if success then view.senders[r] + [tid] else view.senders[r]]);
    }

    /** next_sender */
    method PopSender(r: int) returns (tid: int)
      requires Valid() && 0 <= r < TASKS && |view.senders| == TASKS && view.senders[r] != []
      modifies this`view, ringRepr
      ensures Valid()
      ensures tid == old(view).senders[r][0]
      ensures view == old(view).(senders := Popped(old(view).senders, r))
    {
      hide JobNodesAre, JobsAre, ReadyAre, EventsAre, BlocksAre, PooledLists.Valid, PriorityTaskQueues.Valid;
      hide PriorityTaskQueues.Contents, Queue.Contents;
      tid := senders[r].Pop();
      view := view.(senders := Popped(view.senders, r));
    }

    method ClearSenders(r: int)
      requires Valid() && 0 <= r < TASKS
      modifies this`view, ringRepr
      ensures Valid() && |old(view).senders| == TASKS
      ensures view == old(view).(senders := old(view).senders[r := []])
    {
      hide JobNodesAre, JobsAre, ReadyAre, EventsAre, BlocksAre, PooledLists.Valid, PriorityTaskQueues.Valid;
      hide PriorityTaskQueues.Contents, Queue.Contents;
      senders[r].Clear();
      view := view.(senders := view.senders[r := []]);
    }

    /** Puts a new task at the end of the job list and remembers its node. */
    method PushJob(t: int, ghost home: seq<int>)
      requires Valid() && 0 <= t < TASKS
      requires Filed([view.jobq], home) && |home| == TASKS && home[t] == NONE
      modifies this`view, jobq.Repr(), jobNodes
      ensures Valid()
      ensures view == old(view).(jobq := old(view).jobq + [t])
    {
      hide ReadyAre, EventsAre, RingsAre, BlocksAre, PooledLists.Valid, PriorityTaskQueues.Valid;
      hide PriorityTaskQueues.Contents, Queue.Contents;
      jobq.HasRoom(home, t);
      assert [view.jobq][0] == view.jobq;
      assert t !in view.jobq;
      assert jobq.lists.Length == 1 by { JobList(); }
      var node := jobq.PushBack(0, t);
      jobNodes[t] := node;
      view := view.(jobq := view.jobq + [t]);
      assert jobq.contents == [view.jobq];
    }

    /** task_list_remove_node(&jobq, job_node) for the task at position k. */
    method RemoveJob(t: int, ghost k: int)
      requires Valid() && 0 <= k < |view.jobq| && view.jobq[k] == t && NoDuplicates(view.jobq)
      modifies this`view, jobq.Repr()
      ensures Valid()
      ensures view == old(view).(jobq := Without(old(view).jobq, k))
    {
      hide ReadyAre, EventsAre, RingsAre, BlocksAre, PooledLists.Valid, PriorityTaskQueues.Valid;
      hide PriorityTaskQueues.Contents, Queue.Contents;
      JobList();
      assert [view.jobq][0] == view.jobq;
      var _ := jobq.RemoveNode(0, jobNodes[t], k);
      view := view.(jobq := Without(view.jobq, k));
      assert jobq.contents == [view.jobq];
    }

    // ---- Memory ---------------------------------------------------------------------------

    method AllocateBlock() returns (b: int)
      requires Valid()
      modifies this`view, blocks.Repr()
      ensures Valid()
      ensures b == FirstFree(old(view).used, 0)
      ensures view == old(view).(used := if b == NO_BLOCK then old(view).used else old(view).used[b := true])
    {
      hide JobNodesAre, JobsAre, ReadyAre, EventsAre, RingsAre, PooledLists.Valid, PriorityTaskQueues.Valid;
      hide PriorityTaskQueues.Contents, Queue.Contents;
      b := blocks.Allocate();
      view := view.(used := if b == NO_BLOCK then view.used else view.used[b := true]);
    }

    method FreeBlock(b: int)
      requires Valid() && 0 <= b < BLOCKS
      modifies this`view, blocks.Repr()
      ensures Valid() && |old(view).used| == |old(view).memory| == BLOCKS
      ensures view == old(view).(used := old(view).used[b := false], memory := old(view).memory[b := Zeroes()])
    {
      hide JobNodesAre, JobsAre, ReadyAre, EventsAre, RingsAre, PooledLists.Valid, PriorityTaskQueues.Valid;
      hide PriorityTaskQueues.Contents, Queue.Contents, Zeroes;
      blocks.Free(b);
      view := view.(used := view.used[b := false], memory := view.memory[b := Zeroes()]);
    }

    method SetBlock(b: int, data: seq<Byte>)
      requires Valid() && 0 <= b < BLOCKS && |data| == BLOCK_SIZE
      modifies this`view, blocks.Repr()
      ensures Valid() && |old(view).memory| == BLOCKS
      ensures view == old(view).(memory := old(view).memory[b := data])
    {
      hide JobNodesAre, JobsAre, ReadyAre, EventsAre, RingsAre, PooledLists.Valid, PriorityTaskQueues.Valid;
      hide PriorityTaskQueues.Contents, Queue.Contents;
      blocks.data[b] := data;
      view := view.(memory := view.memory[b := data]);
    }

    /** copy_message: memcpy byte by byte of the shorter of the two lengths, between two different blocks. */
    method CopyMessage(from: int, src: int, srcLength: int, to: int, dst: int, dstLength: int) returns (n: int)
      requires Valid() && 0 <= from < BLOCKS && 0 <= to < BLOCKS && from != to
      requires BufferOk(src, srcLength) && BufferOk(dst, dstLength)
      modifies this`view, blocks.Repr()
      ensures n == Min(srcLength, dstLength)
      ensures |old(view).memory| == BLOCKS && |old(view).memory[from]| == |old(view).memory[to]| == BLOCK_SIZE
      ensures view == old(view).(memory := old(view).memory[to := Splice(old(view).memory[to], dst, old(view).memory[from][src..src + n])])
      ensures Valid()
    {
      hide Valid, Splice;
      n := if srcLength < dstLength then srcLength else dstLength;
      BlockSizes();
      ghost var memory := view.memory;
      SpliceNothing(memory[to], dst, memory[from][src..src]);
      assert memory[to := memory[to]] == memory;
      var i := 0;
      while i < n
        invariant 0 <= i <= n && Valid()
        invariant |memory| == BLOCKS && |memory[from]| == |memory[to]| == BLOCK_SIZE
        invariant view == old(view).(memory := memory[to := Splice(memory[to], dst, memory[from][src..src + i])])
      {
        BlockSizes();
        CopyOne(memory[to], dst, memory[from][src..src + i], memory[from][src + i]);
        assert memory[from][src..src + i] + [memory[from][src + i]] == memory[from][src..src + i + 1];
        SetBlock(to, blocks.data[to][dst + i := blocks.data[from][src + i]]);
        i := i + 1;
      }
    }

    lemma BlockSizes()
      requires Valid()
      ensures blocks.data.Length == BLOCKS && blocks.data[..] == view.memory
      ensures forall b :: 0 <= b < BLOCKS ==> |blocks.data[b]| == BLOCK_SIZE && blocks.data[b] == view.memory[b]
    {
    }

    static lemma SpliceNothing(memory: seq<Byte>, at: int, bytes: seq<Byte>)
      requires 0 <= at <= |memory| && bytes == []
      ensures Splice(memory, at, bytes) == memory
    {
    }

    static lemma CopyOne(memory: seq<Byte>, at: int, bytes: seq<Byte>, b: Byte)
      requires 0 <= at && at + |bytes| < |memory|
      ensures |Splice(memory, at, bytes)| == |memory|
      ensures Splice(memory, at, bytes)[at + |bytes| := b] == Splice(memory, at, bytes + [b])
    {
    }

    // ---- The task table ---------------------------------------------------------------------

    /** get_task_by_tid walks the job list from its head. */
    method GetTaskByTid(tid: int) returns (t: int)
      requires Valid()
      ensures Valid()
      ensures |view.tasks| == TASKS && forall i :: 0 <= i < |view.jobq| ==> 0 <= view.jobq[i] < TASKS
      ensures t == Lookup(view.tasks, view.jobq, tid)
    {
      hide Valid, PooledLists.Valid;
      JobList();
      jobq.ListSize(0);
      var node := jobq.lists[0].head;
      ghost var k := 0;
      assert view.jobq[0..] == view.jobq;
      while node != NONE
        invariant Valid() && 0 <= k <= |view.jobq| && node == At(jobq.chains[0], k)
        invariant Lookup(view.tasks, view.jobq, tid) == Lookup(view.tasks, view.jobq[k..], tid)
        decreases |view.jobq| - k
      {
        jobq.NodeAt(0, k);
        assert view.jobq[k..][0] == view.jobq[k] && view.jobq[k..][1..] == view.jobq[k + 1..];
        t := jobq.nodes[node].task;
        if tasks[t].tid == tid {
          return;
        }
        node := jobq.nodes[node].next;
        k := k + 1;
      }
      if k < |view.jobq| {
        jobq.NodeAt(0, k);
        assert false;
      }
      t := NONE;
    }

    /** What a walk along the job list relies on. */
    lemma JobList()
      requires Valid()
      ensures jobq.Valid() && jobq.lists.Length == 1 && jobq.contents == [view.jobq]
      ensures |jobq.chains| == 1 && |jobq.chains[0]| == |view.jobq| && tasks[..] == view.tasks && tasks.Length == TASKS
      ensures forall i :: 0 <= i < |view.jobq| ==> 0 <= view.jobq[i] < TASKS
    {
    }

    /** change_task_state */
    method ChangeTaskState(t: int, state: TaskState)
      requires Valid() && 0 <= t < TASKS && tasks[t].state != state
      requires state == Ready ==>
                 Filed(view.readyq, ReadyHomes(view.tasks)) && |view.tasks| == TASKS && 0 <= tasks[t].priority < PRIORITIES
      modifies this, tasks, readyq.Repr()
      ensures Valid() && |old(view).tasks| == TASKS && |old(view).readyq| == PRIORITIES
      ensures 0 <= old(view).tasks[t].priority < PRIORITIES || state != Ready
      ensures view == if state == Running then SetState(old(view), t, Running).(current := t)
                      else if state == Ready then Wake(old(view), t)
                      else SetState(old(view), t, state)
    {
      hide JobNodesAre, JobsAre, ReadyAre, EventsAre, RingsAre, BlocksAre, Filed;
      ReadyQueueSize();
      if state == Running {
        current := t;
        view := view.(current := t);
      } else if state == Ready {
        PushReady(t);
      }
      SetTask(t, tasks[t].(state := state));
    }

    method SetResult(t: int, result: int)
      requires Valid() && 0 <= t < TASKS
      modifies this`view, tasks
      ensures Valid() && |old(view).tasks| == TASKS && view == AssignResult(old(view), t, result)
    {
      hide JobNodesAre, JobsAre, ReadyAre, EventsAre, RingsAre, BlocksAre;
      SetTask(t, tasks[t].(result := result, passResult := true));
    }

    // ---- System calls ---------------------------------------------------------------------------

    /** create_task */
    method CreateTask(priority: int, parentTid: int) returns (t: int)
      requires Valid() && Inv(view)
      modifies Repr()
      ensures Valid() && view == KernelModel.CreateTask(old(view), priority, parentTid)
      ensures t == old(view).poolPtr
    {
      hide PlacesOk, BlocksOk, CurrentOk, ReceiversOk;
      hide Valid;
      var p := Clamp(priority, 0, PRIORITIES - 1);
      TableIs();
      t := poolPtr;
      if t != NONE {
        CreateTaskFrom(t, p, parentTid);
      }
    }

    /** What the fields hold, without the queues. */
    lemma TableIs()
      requires Valid()
      ensures tasks.Length == TASKS && tasks[..] == view.tasks && |view.tasks| == TASKS
      ensures poolPtr == view.poolPtr && tidCount == view.tidCount && current == view.current
    {
    }

    /** create_task with a task from the pool. */
    method CreateTaskFrom(t: int, p: int, parentTid: int)
      requires Valid() && Inv(view) && 0 <= t == view.poolPtr && 0 <= p < PRIORITIES
      modifies Repr()
      ensures Valid() && view == KernelModel.CreateTask(old(view), p, parentTid)
    {
      hide BlocksOk, CurrentOk, ReceiversOk, Filed;
      hide Valid, FirstFree;
      ghost var s := view;
      FillTask(t, p, parentTid);
      PushJob(t, JobHomes(s.tasks));
      TableIs();
      ReadyHomesSame(s.tasks, t, view.tasks[t]);
      ChangeTaskState(t, Ready);
    }

    /** The fields of a new task, up to its place on the job list. */
    method FillTask(t: int, p: int, parentTid: int)
      requires Valid() && Inv(view) && 0 <= t == view.poolPtr && 0 <= p < PRIORITIES
      modifies Repr()
      ensures |old(view).tasks| == |old(view).senders| == TASKS
      ensures var s, b := old(view), FirstFree(old(view).used, 0);
              view == s.(tasks := s.tasks[t := FRESH_TASK.(tid := s.tidCount, parentTid := parentTid, priority := p, block := b)],
                         poolPtr := s.tasks[t].next, tidCount := s.tidCount + 1, senders := s.senders[t := []],
                         used := if b == NO_BLOCK then s.used else s.used[b := true])
      ensures Valid()
    {
      hide PlacesOk, BlocksOk, CurrentOk, ReceiversOk, Valid, FirstFree;
      TableIs();
      ClearFields(t, tasks[t].next, FRESH_TASK.(tid := tidCount, parentTid := parentTid, priority := p));
      var b := AllocateBlock();
      TableIs();
      SetTask(t, tasks[t].(block := b));
    }

    /** Takes slot t out of the pool and sets all its fields but the memory block. */
    method ClearFields(t: int, next: int, k: Task)
      requires Valid() && 0 <= t < TASKS
      modifies Repr()
      ensures |old(view).tasks| == |old(view).senders| == TASKS
      ensures view == old(view).(tasks := old(view).tasks[t := k], poolPtr := next,
                                 tidCount := old(view).tidCount + 1, senders := old(view).senders[t := []])
      ensures Valid()
    {
      hide Valid;
      TableIs();
      SetCounters(next, tidCount + 1);
      ClearSenders(t);
      SetTask(t, k);
    }

    /** Rewriting a task that is not ready by another moves nobody in the ready lists. */
    static lemma ReadyHomesSame(tasks: seq<Task>, t: int, k: Task)
      requires 0 <= t < |tasks| && tasks[t].state != Ready && k.state != Ready
      ensures ReadyHomes(tasks[t := k]) == ReadyHomes(tasks)
    {
    }

    method SetCounters(poolPtr: int, tidCount: int)
      requires Valid()
      modifies this
      ensures Valid() && view == old(view).(poolPtr := poolPtr, tidCount := tidCount)
    {
      hide JobNodesAre, JobsAre, ReadyAre, EventsAre, RingsAre, BlocksAre;
      this.poolPtr, this.tidCount := poolPtr, tidCount;
      view := view.(poolPtr := poolPtr, tidCount := tidCount);
    }

    method SysCreate()
      requires Valid() && Inv(view) && InTask(view)
      modifies Repr()
      ensures Valid() && view == KernelModel.SysCreate(old(view))
    {
      hide PlacesOk, BlocksOk, CurrentOk, ReceiversOk, Valid;
      TableIs();
      CreateKeeps(view, I32(tasks[current].x.x0), tasks[current].tid);
      var t := CreateTask(I32(tasks[current].x.x0), tasks[current].tid);
      TableIs();
      if t != NONE {
        SetResult(current, tasks[t].tid);
      } else {
        SetResult(current, -1);
      }
    }

    method SysTid()
      requires Valid() && Inv(view) && InTask(view)
      modifies Repr()
      ensures Valid() && view == AssignResult(old(view), old(view).current, old(view).tasks[old(view).current].tid)
    {
      hide Inv, Valid;
      TableIs();
      SetResult(current, tasks[current].tid);
    }

    method SysParentTid()
      requires Valid() && Inv(view) && InTask(view)
      modifies Repr()
      ensures Valid() && view == AssignResult(old(view), old(view).current, old(view).tasks[old(view).current].parentTid)
    {
      hide Inv, Valid;
      TableIs();
      SetResult(current, tasks[current].parentTid);
    }

    /** sys_exit: remove_current_task */
    method SysExit()
      requires Valid() && Inv(view) && InTask(view)
      modifies Repr()
      ensures Valid() && view == KernelModel.SysExit(old(view))
    {
      hide BlocksOk, CurrentOk, ReceiversOk, Valid, Zeroes;
      TableIs();
      var c := current;
      assert [view.jobq][0] == view.jobq;
      assert JobHomes(view.tasks)[c] == 0;
      ghost var k :| 0 <= k < |view.jobq| && view.jobq[k] == c;
      RemovedIsWithout(view.jobq, k);
      RemoveJob(c, k);
      TableIs();
      FreeBlock(tasks[c].block);
      SetTask(c, FRESH_TASK);
      ClearSenders(c);
      SetCurrent(NONE);
    }

    method SetCurrent(t: int)
      requires Valid()
      modifies this
      ensures Valid() && view == old(view).(current := t)
    {
      hide JobNodesAre, JobsAre, ReadyAre, EventsAre, RingsAre, BlocksAre;
      current := t;
      view := view.(current := t);
    }

    /** Writes a C int through a pointer into the block of task t. */
    method StoreInt(t: int, at: int, v: int)
      requires Valid() && HasBlock(view, t) && BufferOk(at, 4)
      modifies this`view, blocks.Repr()
      ensures Valid() && HasBlock(old(view), t) && view == WriteMemory(old(view), t, at, IntBytes(v))
    {
      hide JobNodesAre, JobsAre, ReadyAre, EventsAre, RingsAre, PooledLists.Valid, PriorityTaskQueues.Valid;
      hide PriorityTaskQueues.Contents, Queue.Contents, Splice, IntBytes;
      BlockSizes();
      var b := tasks[t].block;
      SetBlock(b, Splice(blocks.data[b], at, IntBytes(v)));
    }

    /** copy_message and assign_result */
    method CopyAndAssign(from: int, src: int, srcLength: int, to: int, dst: int, dstLength: int) returns (n: int)
      requires Valid() && HasBlock(view, from) && HasBlock(view, to) && view.tasks[from].block != view.tasks[to].block
      requires BufferOk(src, srcLength) && BufferOk(dst, dstLength)
      modifies this`view, tasks, blocks.Repr()
      ensures Valid() && n == Min(srcLength, dstLength)
      ensures HasBlock(old(view), from) && HasBlock(old(view), to)
      ensures view == Transfer(old(view), from, src, srcLength, to, dst, dstLength)
    {
      hide Valid, Splice;
      TableIs();
      BlockSizes();
      n := CopyMessage(tasks[from].block, src, srcLength, tasks[to].block, dst, dstLength);
      SetResult(to, n);
    }

    /** synchronized_send_receive: copies, assigns the length as result and wakes the task copied to unless it is running. */
    method Synchronize(from: int, src: int, srcLength: int, to: int, dst: int, dstLength: int) returns (n: int)
      requires Valid() && HasBlock(view, from) && HasBlock(view, to) && view.tasks[from].block != view.tasks[to].block
      requires BufferOk(src, srcLength) && BufferOk(dst, dstLength)
      requires view.tasks[to].state != Running ==>
                 && view.tasks[to].state != Ready && 0 <= view.tasks[to].priority < PRIORITIES
                 && Filed(view.readyq, ReadyHomes(view.tasks))
      modifies Repr()
      ensures Valid() && n == Min(srcLength, dstLength) && |old(view).readyq| == PRIORITIES
      ensures HasBlock(old(view), from) && HasBlock(old(view), to)
      ensures view == var sent := Transfer(old(view), from, src, srcLength, to, dst, dstLength);
                      if old(view).tasks[to].state != Running then Wake(sent, to) else sent
    {
      hide Valid, Splice, Filed;
      ReadyQueueSize();
      n := CopyAndAssign(from, src, srcLength, to, dst, dstLength);
      TableIs();
      if tasks[to].state != Running {
        assert ReadyHomes(view.tasks) == ReadyHomes(old(view).tasks);
        ChangeTaskState(to, Ready);
      }
    }

    lemma ReadyQueueSize()
      requires Valid()
      ensures |view.readyq| == PRIORITIES
    {
    }

    /** sys_send */
    method SysSend()
      requires Valid() && Inv(view) && InTask(view) && SendArgsOk(view.tasks[view.current].x)
      modifies Repr()
      ensures Valid() && view == KernelModel.SysSend(old(view))
    {
      hide PlacesOk, BlocksOk, CurrentOk, ReceiversOk, Valid, Lookup;
      hide KernelModel.SendNow;
      TableIs();
      var sender := current;
      var args := tasks[sender].x;
      LookupIsSlot(view, I32(args.x0));
      var receiver := GetTaskByTid(I32(args.x0));
      if receiver == NONE {
        SetResult(sender, -1);
      } else if tasks[receiver].state == WaitReceive {
        SendNow(receiver);
      } else {
        var success := PushSender(receiver, tasks[sender].tid);
        TableIs();
        if success {
          ChangeTaskState(sender, WaitSend);
        } else {
          SetResult(sender, -2);
        }
      }
    }

    /** sys_send to a receiver that is already waiting */
    method SendNow(receiver: int)
      requires Valid() && Inv(view) && InTask(view) && SendArgsOk(view.tasks[view.current].x)
      requires Live(view.tasks, receiver) && view.tasks[receiver].state == WaitReceive
      modifies Repr()
      ensures Valid() && view == KernelModel.SendNow(old(view), receiver)
    {
      hide CurrentOk, ReceiversOk, Valid, Filed, Splice;
      TableIs();
      var sender := current;
      var args, receiveArgs := tasks[sender].x, tasks[receiver].x;
      LiveHasBlock(view, sender);
      LiveHasBlock(view, receiver);
      StoreInt(receiver, receiveArgs.x0, tasks[sender].tid);
      var _ := Synchronize(sender, args.x1, I32(args.x2), receiver, receiveArgs.x1, I32(receiveArgs.x2));
      TableIs();
      ChangeTaskState(sender, WaitReply);
    }

    method NoSenders(t: int) returns (empty: bool)
      requires Valid() && 0 <= t < TASKS
      ensures Valid()
      ensures |view.senders| == TASKS && (empty <==> view.senders[t] == [])
    {
      hide JobNodesAre, JobsAre, ReadyAre, EventsAre, BlocksAre, PooledLists.Valid, PriorityTaskQueues.Valid;
      hide PriorityTaskQueues.Contents, Window;
      empty := senders[t].IsEmpty();
    }

    /** sys_receive; a sender found in the ring is always alive, so the last branch of the source is dead. */
    method SysReceive()
      requires Valid() && Inv(view) && InTask(view) && ReceiveArgsOk(view.tasks[view.current].x)
      modifies Repr()
      ensures Valid() && view == KernelModel.SysReceive(old(view))
    {
      hide Inv, Valid, Lookup;
      hide KernelModel.ReceiveNow, SendArgsOk;
      TableIs();
      var receiver := current;
      var empty := NoSenders(receiver);
      if empty {
        ChangeTaskState(receiver, WaitReceive);
        return;
      }
      RingHoldsSenders(view, receiver, 0);
      var senderId := PopSender(receiver);
      var sender := GetTaskByTid(senderId);
      if sender == NONE {
        assert false;
      }
      ReceiveNow(sender, old(view));
    }

    /** The rest of sys_receive, when the sender has been taken out of the ring. */
    method ReceiveNow(sender: int, ghost s: State)
      requires Valid() && Inv(s) && InTask(s) && ReceiveArgsOk(s.tasks[s.current].x)
      requires s.senders[s.current] != [] && s.senders[s.current][0] == sender
      requires view == s.(senders := Popped(s.senders, s.current))
      modifies Repr()
      ensures Valid() && 0 <= sender < TASKS && s.tasks[sender].state == WaitSend
      ensures view == KernelModel.ReceiveNow(s, sender)
    {
      hide Valid, CurrentOk, ReceiversOk, Filed, Splice, Lookup, Popped, KernelModel.ReceiveNow, Transfer;
      RingHoldsSenders(s, s.current, 0);
      WaitReplyLast(s, sender);
      TableIs();
      var receiver := current;
      var args, sendArgs := tasks[receiver].x, tasks[sender].x;
      StoreInt(receiver, args.x0, tasks[sender].tid);
      var _ := Synchronize(sender, sendArgs.x1, I32(sendArgs.x2), receiver, args.x1, I32(args.x2));
      TableIs();
      ChangeTaskState(sender, WaitReply);
    }

    /** It makes no difference whether the sender's state is set before the message is copied or after. */
    static lemma WaitReplyLast(s: State, f: int)
      requires Inv(s) && InTask(s) && ReceiveArgsOk(s.tasks[s.current].x)
      requires s.senders[s.current] != [] && s.senders[s.current][0] == f
      ensures HasBlock(s, f) && HasBlock(s, s.current) && s.tasks[f].state == WaitSend
      ensures BufferOk(s.tasks[f].x.x1, I32(s.tasks[f].x.x2))
      ensures var x, y := s.tasks[s.current].x, s.tasks[f].x;
              var told := WriteMemory(s.(senders := Popped(s.senders, s.current)), s.current, x.x0, IntBytes(s.tasks[f].tid));
              && HasBlock(told, f) && HasBlock(told, s.current)
              && var sent := Transfer(told, f, y.x1, I32(y.x2), s.current, x.x1, I32(x.x2));
              && |sent.tasks| == TASKS && sent.tasks[f].state == WaitSend
              && KernelModel.ReceiveNow(s, f) == SetState(sent, f, WaitReply)
    {
      hide PlacesOk, CurrentOk, ReceiversOk, Splice, Lookup, Popped, IntBytes;
      RingHoldsSenders(s, s.current, 0);
      LiveHasBlock(s, f);
    }

    /** sys_reply */
    method SysReply()
      requires Valid() && Inv(view) && InTask(view) && ReplyArgsOk(view.tasks[view.current].x)
      requires ReplyTargetOk(view, I32(view.tasks[view.current].x.x0))
      modifies Repr()
      ensures Valid() && view == KernelModel.SysReply(old(view))
    {
      hide CurrentOk, ReceiversOk, Valid, Filed, Splice, Lookup;
      TableIs();
      var receiver := current;
      var args := tasks[receiver].x;
      LookupIsSlot(view, I32(args.x0));
      var sender := GetTaskByTid(I32(args.x0));
      if sender == NONE {
        SetResult(receiver, -1);
        return;
      }
      var sendArgs := tasks[sender].x;
      LiveHasBlock(view, sender);
      LiveHasBlock(view, receiver);
      var n := Synchronize(receiver, args.x1, I32(args.x2), sender, sendArgs.x3, I32(sendArgs.x4));
      SetResult(receiver, n);
    }

    /** sys_await_event */
    method SysAwait()
      requires Valid() && Inv(view) && InTask(view) && EventOk(view.tasks[view.current].x)
      modifies Repr()
      ensures Valid() && view == KernelModel.SysAwait(old(view))
    {
      hide BlocksOk, CurrentOk, ReceiversOk, Valid, Filed;
      TableIs();
      var c := current;
      ChangeTaskState(c, AwaitEvent);
      TableIs();
      PushEvent(I32(tasks[c].x.x0), c, EventHomes(old(view).tasks));
    }

    /** wake_up_irq_blocked_tasks */
    method WakeUpWaiter(intid: int)
      requires Valid() && Inv(view) && InTask(view) && 0 <= intid < KNOWN_INTERRUPTS
      modifies Repr()
      ensures Valid() && view == WakeWaiter(old(view), intid)
    {
      hide BlocksOk, CurrentOk, ReceiversOk, Valid, Filed;
      var empty := NoWaiters(intid);
      if !empty {
        WaiterIsLive(view, intid);
        var t := PopEvent(intid);
        TableIs();
        assert tasks[t].state == AwaitEvent;
        ChangeTaskState(t, Ready);
      }
    }

    method NoWaiters(intid: int) returns (empty: bool)
      requires Valid() && 0 <= intid < KNOWN_INTERRUPTS
      ensures Valid()
      ensures |view.irqq| == INTERRUPTS * PRIORITIES && (empty <==> Top(view.irqq, First(intid), Last(intid)) == NONE)
    {
      hide JobNodesAre, JobsAre, ReadyAre, RingsAre, BlocksAre, PooledLists.Valid, Queue.Contents, Top;
      empty := irqq.Empty(intid);
    }

    // ---- The kernel loop ------------------------------------------------------------------------

    /** schedule */
    method Schedule() returns (t: int)
      requires Valid() && Inv(view)
      modifies Repr()
      ensures Valid()
      ensures t == if CanDispatch(old(view)) then Next(old(view)) else NONE
      ensures view == Scheduled(old(view))
    {
      hide Inv, Valid, Top, Requeued;
      NextIsTask();
      Requeue();
      t := NONE;
      var empty := NothingReady();
      if !empty {
        t := PopReady();
      }
    }

    /** The first part of schedule: a current task that did not block is ready again. */
    method Requeue()
      requires Valid() && Inv(view)
      modifies Repr()
      ensures Valid() && view == Requeued(old(view))
    {
      hide BlocksOk, ReceiversOk, Valid, Filed;
      TableIs();
      if current != NONE {
        assert tasks[current].state == Running || tasks[current].state !in {Ready, Running};
        if tasks[current].state == Running {
          ChangeTaskState(current, Ready);
        }
      }
    }

    lemma NextIsTask()
      requires Inv(view)
      ensures CanDispatch(view) ==> 0 <= Next(view) < TASKS
    {
    }

    method NothingReady() returns (empty: bool)
      requires Valid()
      ensures Valid()
      ensures |view.readyq| == PRIORITIES && (empty <==> Top(view.readyq, 0, PRIORITIES) == NONE)
    {
      hide JobNodesAre, JobsAre, EventsAre, RingsAre, BlocksAre, PooledLists.Valid, Queue.Contents, Top;
      empty := readyq.Empty(0);
    }

    /** activate, up to the switch to the task */
    method Activate(t: int, ghost s: State)
      requires Valid() && Inv(s) && CanDispatch(s) && t == Next(s) && view == Scheduled(s)
      modifies Repr()
      ensures Valid() && view == Dispatched(s)
    {
      hide PlacesOk, BlocksOk, CurrentOk, ReceiversOk, Valid, Top, Popped;
      NextIsReady(s);
      NextWasReady(s);
      TableIs();
      ChangeTaskState(t, Running);
      TableIs();
      if tasks[t].passResult {
        SetTask(t, tasks[t].(x := tasks[t].x.(x0 := tasks[t].result)));
      }
    }

    /** What the running task does before it stops: it sets its registers and its own block. */
    method RunUser(x: Registers, stack: seq<Byte>)
      requires Valid() && Inv(view) && InTask(view) && |stack| == BLOCK_SIZE
      modifies Repr()
      ensures Valid() && 0 <= old(view).tasks[old(view).current].block < |old(view).memory|
      ensures view == UserRan(old(view), x, stack)
    {
      hide PlacesOk, BlocksOk, ReceiversOk, Valid;
      TableIs();
      LiveHasBlock(view, current);
      SetTask(current, tasks[current].(x := x));
      TableIs();
      SetBlock(tasks[current].block, stack);
    }

    /** handle_current_exception, through the handler tables init_exception_handlers fills */
    method HandleException(ev: Event)
      requires Valid() && Inv(view) && InTask(view) && CallOk(view, ev)
      modifies Repr()
      ensures Valid() && view == Handled(old(view), ev)
    {
      hide Inv, Valid, Repr;
      hide KernelModel.SysCreate, KernelModel.SysExit, KernelModel.SysSend, KernelModel.SysReceive;
      hide KernelModel.SysReply;
      hide KernelModel.SysAwait, WakeWaiter, SendArgsOk, ReceiveArgsOk, ReplyArgsOk, EventOk, ReplyTargetOk;
      match ev
      case Trap(Create, _, _) => SysCreate();
      case Trap(Exit, _, _) => SysExit();
      case Trap(MyTid, _, _) => SysTid();
      case Trap(MyParentTid, _, _) => SysParentTid();
      case Trap(Send, _, _) => SysSend();
      case Trap(Receive, _, _) => SysReceive();
      case Trap(Reply, _, _) => SysReply();
      case Trap(Await, _, _) => SysAwait();
      case Irq(intid, _, _) => WakeUpWaiter(intid);
      case _ =>
    }

    /** One iteration of the kmain loop; false when there is no task to run. */
    method Iterate(ev: Event) returns (running: bool)
      requires Valid() && Inv(view) && (CanDispatch(view) ==> Enabled(view, ev))
      modifies Repr()
      ensures Valid()
      ensures running <==> CanDispatch(old(view))
      ensures running ==> view == Step(old(view), ev)
    {
      hide Inv, Valid, Repr, Handled, UserRan, Dispatched, CallOk, Scheduled, Top;
      ghost var s := view;
      NextIsTask();
      var t := Schedule();
      running := t != NONE;
      if running {
        Activate(t, s);
        DispatchedKeeps(s);
        RunUser(ev.x, ev.stack);
        UserRanKeeps(Dispatched(s), ev.x, ev.stack);
        HandleException(ev);
      }
    }
  }

  /** kmain on a freshly initialised kernel: it goes through the states of the run, one per iteration. */
  method Kmain(events: seq<Event>, ghost states: seq<State>) returns (m: Machine)
    requires IsRun(states, events)
    ensures m.Valid() && fresh(m.Repr()) && m.view == states[|events|]
  {
    hide Inv, Machine.Valid, Machine.Repr, StepsTo, Enabled, Step;
    m := Machine.InitKernel();
    BootKeeps();
    CreateKeeps(Boot(), INITIAL_PRIORITY, -1);
    var _ := m.CreateTask(INITIAL_PRIORITY, -1);
    var _ := m.CreateTask(0, -1);
    InitialKeeps();
    var i := 0;
    while i < |events|
      invariant 0 <= i <= |events| && m.Valid() && fresh(m.Repr()) && m.view == states[i]
    {
      RunKeepsInvariant(states, events, i);
      RunIsEnabled(states, events, i);
      var _ := m.Iterate(events[i]);
      i := i + 1;
    }
  }

  lemma RunIsEnabled(states: seq<State>, events: seq<Event>, i: int)
    requires IsRun(states, events) && 0 <= i < |events| && Inv(states[i])
    ensures Enabled(states[i], events[i]) && CanDispatch(states[i]) && states[i + 1] == Step(states[i], events[i])
  {
    hide Inv, Initial, StepsTo, Enabled, Step;
    assert StepsTo(states[i], events[i], states[i + 1]);
    StepsToMeans(states[i], events[i], states[i + 1]);
  }
}

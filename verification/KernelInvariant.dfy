/**
 Every step of the kernel keeps the invariant: state and place agree, resources are
 accounted for, and blocked tasks keep their arguments.
 */
module KernelInvariant {
  import opened CInts
  import opened Filing
  import opened PriorityQueues
  import opened MemoryBlocks
  import opened KernelModel

  // ---- Changing one task ---------------------------------------------------------------

  /** Replacing one task by another that is live exactly when it was moves only that task's homes. */
  lemma HomesUpdate(tasks: seq<Task>, t: int, k: Task)
    requires 0 <= t < |tasks| && (k.tid == NONE <==> tasks[t].tid == NONE)
    ensures JobHomes(tasks[t := k]) == JobHomes(tasks)
    ensures ReadyHomes(tasks[t := k]) == ReadyHomes(tasks)[t := ReadyHome(k)]
    ensures EventHomes(tasks[t := k]) == EventHomes(tasks)[t := EventHome(k)]
    ensures SendHomes(tasks[t := k]) == SendHomes(tasks)[t := SendHome(tasks, k)]
  {
  }

  lemma BlocksUpdate(tasks: seq<Task>, used: seq<bool>, t: int, k: Task)
    requires BlocksOk(tasks, used) && 0 <= t < |tasks|
    requires k.tid == tasks[t].tid && k.block == tasks[t].block
    ensures BlocksOk(tasks[t := k], used)
  {
    var tasks' := tasks[t := k];
    assert forall u :: Live(tasks', u) <==> Live(tasks, u);
    assert forall u :: Live(tasks, u) ==> tasks'[u].block == tasks[u].block;
    forall b | 0 <= b < |used| && used[b]
      ensures exists u :: Live(tasks', u) && tasks'[u].block == b
    {
      var u :| Live(tasks, u) && tasks[u].block == b;
      assert Live(tasks', u) && tasks'[u].block == b;
    }
  }

  /** The new record of task t is as good as the old one and keeps its identity. */
  ghost predicate Rewrites(s: State, t: int, k: Task) {
    && Live(s.tasks, t) && TaskOk(k, t, s.tidCount)
    && k.tid == s.tasks[t].tid && k.block == s.tasks[t].block
  }

  /** What remains to be shown when one task's record, the queues and the memory contents change. */
  lemma Rewritten(s: State, s': State, t: int, k: Task)
    requires Inv(s) && Rewrites(s, t, k)
    requires s'.tasks == s.tasks[t := k]
    requires s'.poolPtr == s.poolPtr && s'.tidCount == s.tidCount && s'.jobq == s.jobq && s'.used == s.used
    requires Shape(s') && CurrentOk(s'.tasks, s'.current) && ReceiversOk(s'.tasks, s'.senders)
    requires Filed(s'.readyq, ReadyHomes(s.tasks)[t := ReadyHome(k)])
    requires Filed(s'.irqq, EventHomes(s.tasks)[t := EventHome(k)])
    requires Filed(s'.senders, SendHomes(s.tasks)[t := SendHome(s.tasks, k)])
    ensures Inv(s')
  {
    hide Filed, CurrentOk, ReceiversOk, BlocksOk, Shape, JobHomes, ReadyHomes, EventHomes, SendHomes;
    HomesUpdate(s.tasks, t, k);
    BlocksUpdate(s.tasks, s.used, t, k);
  }

  /** Overwriting an entry with itself. */
  lemma SameHome(home: seq<int>, t: int, h: int)
    requires 0 <= t < |home| && home[t] == h
    ensures home[t := h] == home
  {
  }

  // ---- Changes that no queue notices ------------------------------------------------------

  /** Results, and whatever a running task does to its own registers, do not move any task. */
  lemma RecordKeeps(s: State, t: int, k: Task)
    requires Inv(s) && Rewrites(s, t, k)
    requires k.state == s.tasks[t].state && k.priority == s.tasks[t].priority
    requires k.x == s.tasks[t].x || k.state == Running
    ensures Inv(s.(tasks := s.tasks[t := k]))
  {
    hide Filed, BlocksOk;
    SameHome(ReadyHomes(s.tasks), t, ReadyHome(k));
    SameHome(EventHomes(s.tasks), t, EventHome(k));
    SameHome(SendHomes(s.tasks), t, SendHome(s.tasks, k));
    Rewritten(s, s.(tasks := s.tasks[t := k]), t, k);
  }

  lemma AssignResultKeeps(s: State, t: int, result: int)
    requires Inv(s) && Live(s.tasks, t)
    ensures Inv(AssignResult(s, t, result))
  {
    hide PlacesOk, BlocksOk, CurrentOk, ReceiversOk;
    RecordKeeps(s, t, s.tasks[t].(result := result, passResult := true));
  }

  lemma MemoryKeeps(s: State, b: int, data: seq<Byte>)
    requires Inv(s) && 0 <= b < BLOCKS && |data| == BLOCK_SIZE
    ensures Inv(s.(memory := s.memory[b := data]))
  {
  }

  lemma WriteMemoryKeeps(s: State, t: int, at: int, bytes: seq<Byte>)
    requires Inv(s) && HasBlock(s, t) && 0 <= at && at + |bytes| <= BLOCK_SIZE
    ensures Inv(WriteMemory(s, t, at, bytes))
  {
  }

  /** A live task has a block to read from and write to. */
  lemma LiveHasBlock(s: State, t: int)
    requires Inv(s) && Live(s.tasks, t)
    ensures HasBlock(s, t)
  {
  }

  lemma TransferKeeps(s: State, from: int, src: int, srcLength: int, to: int, dst: int, dstLength: int)
    requires Inv(s) && Live(s.tasks, from) && Live(s.tasks, to)
    requires BufferOk(src, srcLength) && BufferOk(dst, dstLength)
    ensures HasBlock(s, from) && HasBlock(s, to)
    ensures Inv(Transfer(s, from, src, srcLength, to, dst, dstLength))
  {
    hide Inv;
    LiveHasBlock(s, from);
    LiveHasBlock(s, to);
    var n := Min(srcLength, dstLength);
    WriteMemoryKeeps(s, to, dst, ReadMemory(s, from, src, n));
    AssignResultKeeps(WriteMemory(s, to, dst, ReadMemory(s, from, src, n)), to, n);
  }

  lemma UserRanKeeps(s: State, x: Registers, stack: seq<Byte>)
    requires Inv(s) && InTask(s) && |stack| == BLOCK_SIZE
    ensures HasBlock(s, s.current) && Inv(UserRan(s, x, stack))
  {
    hide PlacesOk, BlocksOk, CurrentOk, ReceiversOk;
    var c := s.current;
    LiveHasBlock(s, c);
    RecordKeeps(s, c, s.tasks[c].(x := x));
    MemoryKeeps(s.(tasks := s.tasks[c := s.tasks[c].(x := x)]), s.tasks[c].block, stack);
  }

  // ---- Changes of state -------------------------------------------------------------------------

  /** A task that is in no queue becomes ready: every wake-up of a receiver, a sender or an interrupted task. */
  lemma WakeKeeps(s: State, t: int)
    requires Inv(s) && Live(s.tasks, t)
    requires InTask(s) && s.tasks[t].state in {Running, WaitReceive, WaitReply}
    ensures s.tasks[t].state != Running ==> Inv(Wake(s, t))
    ensures s.tasks[t].state == Running ==> Inv(Wake(s, t).(current := NONE))
  {
    hide BlocksOk;
    var k := s.tasks[t].(state := Ready);
    var s' := if s.tasks[t].state == Running then Wake(s, t).(current := NONE) else Wake(s, t);
    FiledAppend(s.readyq, ReadyHomes(s.tasks), k.priority, t);
    SameHome(EventHomes(s.tasks), t, EventHome(k));
    SameHome(SendHomes(s.tasks), t, SendHome(s.tasks, k));
    Rewritten(s, s', t, k);
  }

  /** The running task blocks without entering a queue. */
  lemma BlockKeeps(s: State, state: TaskState)
    requires Inv(s) && InTask(s)
    requires state in {WaitReceive, WaitReply} && ArgsOk(s.tasks[s.current].(state := state))
    requires state == WaitReceive ==> s.senders[s.current] == []
    ensures Inv(SetState(s, s.current, state))
  {
    hide Filed, BlocksOk;
    var c := s.current;
    var k := s.tasks[c].(state := state);
    SameHome(ReadyHomes(s.tasks), c, ReadyHome(k));
    SameHome(EventHomes(s.tasks), c, EventHome(k));
    SameHome(SendHomes(s.tasks), c, SendHome(s.tasks, k));
    Rewritten(s, SetState(s, c, state), c, k);
  }

  lemma SendLaterKeeps(s: State, r: int)
    requires Inv(s) && InTask(s) && SendArgsOk(s.tasks[s.current].x)
    requires Live(s.tasks, r) && r == I32(s.tasks[s.current].x.x0) && s.tasks[r].state != WaitReceive
    ensures Inv(SendLater(s, r))
  {
    hide BlocksOk;
    var c := s.current;
    var k := s.tasks[c].(state := WaitSend);
    SameHome(ReadyHomes(s.tasks), c, ReadyHome(k));
    SameHome(EventHomes(s.tasks), c, EventHome(k));
    FiledAppend(s.senders, SendHomes(s.tasks), r, c);
    Rewritten(s, SendLater(s, r), c, k);
  }

  lemma AwaitKeeps(s: State)
    requires Inv(s) && InTask(s) && EventOk(s.tasks[s.current].x)
    ensures Inv(SysAwait(s))
  {
    hide BlocksOk;
    var c := s.current;
    var k := s.tasks[c].(state := AwaitEvent);
    SameHome(ReadyHomes(s.tasks), c, ReadyHome(k));
    SameHome(SendHomes(s.tasks), c, SendHome(s.tasks, k));
    FiledAppend(s.irqq, EventHomes(s.tasks), EventHome(k), c);
    Rewritten(s, SysAwait(s), c, k);
  }

  /** The oldest sender of the running task leaves the ring and waits for its reply. */
  lemma TakeSenderKeeps(s: State, f: int)
    requires Inv(s) && InTask(s) && s.senders[s.current] != [] && f == s.senders[s.current][0]
    ensures Live(s.tasks, f) && s.tasks[f].state == WaitSend
    ensures Inv(SetState(s, f, WaitReply).(senders := Popped(s.senders, s.current)))
  {
    hide BlocksOk;
    RingHoldsSenders(s, s.current, 0);
    var k := s.tasks[f].(state := WaitReply);
    SameHome(ReadyHomes(s.tasks), f, ReadyHome(k));
    SameHome(EventHomes(s.tasks), f, EventHome(k));
    FiledPop(s.senders, SendHomes(s.tasks), s.current);
    Rewritten(s, SetState(s, f, WaitReply).(senders := Popped(s.senders, s.current)), f, k);
  }

  lemma WakeWaiterKeeps(s: State, intid: int)
    requires Inv(s) && InTask(s) && 0 <= intid < KNOWN_INTERRUPTS
    ensures Inv(WakeWaiter(s, intid))
  {
    hide BlocksOk;
    var top := Top(s.irqq, First(intid), Last(intid));
    if top != NONE {
      var t := s.irqq[top][0];
      assert EventHomes(s.tasks)[t] == top;
      var k := s.tasks[t].(state := Ready);
      FiledPop(s.irqq, EventHomes(s.tasks), top);
      FiledAppend(s.readyq, ReadyHomes(s.tasks), k.priority, t);
      SameHome(SendHomes(s.tasks), t, SendHome(s.tasks, k));
      Rewritten(s, WakeWaiter(s, intid), t, k);
    }
  }

  /** The requeued state has nobody running; dispatching takes the chosen task out of its list. */
  lemma RequeuedKeeps(s: State)
    requires Inv(s)
    ensures Inv(Requeued(s).(current := NONE))
    ensures forall t :: 0 <= t < TASKS ==> Requeued(s).tasks[t].state != Running
  {
    hide BlocksOk, Filed;
    if InTask(s) {
      WakeKeeps(s, s.current);
    }
  }

  lemma PopKeeps(s: State, top: int)
    requires Inv(s) && s.current == NONE && 0 <= top < PRIORITIES && s.readyq[top] != []
    ensures var t := s.readyq[top][0];
            && Live(s.tasks, t) && s.tasks[t].state == Ready && s.tasks[t].priority == top
            && forall x :: Inv(s.(readyq := Popped(s.readyq, top), current := t,
                                  tasks := s.tasks[t := s.tasks[t].(state := Running, x := x)]))
  {
    hide BlocksOk;
    var t := s.readyq[top][0];
    assert ReadyHomes(s.tasks)[t] == top;
    FiledPop(s.readyq, ReadyHomes(s.tasks), top);
    forall x
      ensures Inv(s.(readyq := Popped(s.readyq, top), current := t,
                     tasks := s.tasks[t := s.tasks[t].(state := Running, x := x)]))
    {
      var k := s.tasks[t].(state := Running, x := x);
      SameHome(EventHomes(s.tasks), t, EventHome(k));
      SameHome(SendHomes(s.tasks), t, SendHome(s.tasks, k));
      Rewritten(s, s.(readyq := Popped(s.readyq, top), current := t, tasks := s.tasks[t := k]), t, k);
    }
  }

  lemma DispatchedKeeps(s: State)
    requires Inv(s) && CanDispatch(s)
    ensures Inv(Dispatched(s)) && InTask(Dispatched(s)) && Dispatched(s).current == Next(s)
  {
    hide Inv, Top, Popped, Filed;
    RequeuedKeeps(s);
    NextIsReady(s);
    var q := Requeued(s).(current := NONE);
    RequeueKeepsReadyFiled(s);
    var top := Top(q.readyq, 0, PRIORITIES);
    PopKeeps(q, top);
    var k := q.tasks[Next(s)];
    var x := if k.passResult then k.x.(x0 := k.result) else k.x;
    assert Dispatched(s) == q.(readyq := Popped(q.readyq, top), current := Next(s),
                               tasks := q.tasks[Next(s) := k.(state := Running, x := x)]);
  }

  // ---- Creating and removing tasks ------------------------------------------------------------------

  /** While a slot has never been used, some block is free: live tasks own one block each. */
  lemma BlockAvailable(tasks: seq<Task>, used: seq<bool>, t: int)
    requires BlocksOk(tasks, used) && |used| == |tasks|
    requires 0 <= t < |tasks| && !Live(tasks, t)
    ensures FirstFree(used, 0) != NO_BLOCK
  {
    if FirstFree(used, 0) == NO_BLOCK {
      var owners := seq(|used|, b requires 0 <= b < |used| => Owner(tasks, used, b));
      assert forall b :: 0 <= b < |used| ==> Live(tasks, owners[b]) && tasks[owners[b]].block == b;
      assert t !in owners;
      Pigeonhole(owners, |tasks|);
    }
  }

  ghost function Owner(tasks: seq<Task>, used: seq<bool>, b: int): (t: int)
    requires BlocksOk(tasks, used) && 0 <= b < |used| && used[b]
    ensures Live(tasks, t) && tasks[t].block == b
  {
    var t :| Live(tasks, t) && tasks[t].block == b;
    t
  }

  lemma BlocksCreate(tasks: seq<Task>, used: seq<bool>, t: int, k: Task)
    requires BlocksOk(tasks, used) && 0 <= t < |tasks| && !Live(tasks, t)
    requires k.tid != NONE && 0 <= k.block < |used| && !used[k.block]
    ensures BlocksOk(tasks[t := k], used[k.block := true])
  {
    var tasks', used' := tasks[t := k], used[k.block := true];
    assert forall u :: Live(tasks', u) <==> u == t || Live(tasks, u);
    forall b | 0 <= b < |used'| && used'[b]
      ensures exists u :: Live(tasks', u) && tasks'[u].block == b
    {
      if b == k.block {
        assert Live(tasks', t) && tasks'[t].block == b;
      } else {
        var u := Owner(tasks, used, b);
        assert Live(tasks', u) && tasks'[u].block == b;
      }
    }
  }

  /** Nobody waits in a queue to send to a slot that is not live, so bringing it to life moves no sender. */
  lemma HomesCreate(tasks: seq<Task>, t: int, k: Task)
    requires 0 <= t < |tasks| && tasks[t].tid == NONE && tasks[t].state == Initialized
    requires k.tid != NONE && k.state == Ready
    requires forall u :: 0 <= u < |tasks| && tasks[u].state == WaitSend ==> I32(tasks[u].x.x0) != t
    ensures JobHomes(tasks[t := k]) == JobHomes(tasks)[t := 0]
    ensures ReadyHomes(tasks[t := k]) == ReadyHomes(tasks)[t := k.priority]
    ensures EventHomes(tasks[t := k]) == EventHomes(tasks)
    ensures SendHomes(tasks[t := k]) == SendHomes(tasks)
  {
  }

  lemma CreateKeeps(s: State, priority: int, parentTid: int)
    requires Inv(s)
    ensures Inv(CreateTask(s, priority, parentTid))
    ensures s.poolPtr != NONE ==> FirstFree(s.used, 0) != NO_BLOCK
  {
    if s.poolPtr != NONE {
      var t := s.poolPtr;
      BlockAvailable(s.tasks, s.used, t);
      CreateFiles(s, priority, parentTid);
      CreateRest(s, priority, parentTid);
    }
  }

  lemma CreateFiles(s: State, priority: int, parentTid: int)
    requires Inv(s) && s.poolPtr != NONE
    ensures PlacesOk(CreateTask(s, priority, parentTid))
  {
    hide BlocksOk, CurrentOk;
    var t := s.poolPtr;
    var s' := CreateTask(s, priority, parentTid);
    var k := s'.tasks[t];
    HomesCreate(s.tasks, t, k);
    FiledAppend([s.jobq], JobHomes(s.tasks), 0, t);
    assert Appended([s.jobq], 0, t) == [s.jobq + [t]];
    FiledAppend(s.readyq, ReadyHomes(s.tasks), k.priority, t);
    NobodySendsToDead(s, t);
    assert s'.senders == s.senders;
  }

  /** The ring of a slot that is not live is empty. */
  lemma NobodySendsToDead(s: State, t: int)
    requires Inv(s) && 0 <= t < TASKS && !Live(s.tasks, t)
    ensures s.senders[t] == []
  {
    hide BlocksOk, CurrentOk, ReceiversOk;
    if s.senders[t] != [] {
      RingHoldsSenders(s, t, 0);
    }
  }

  lemma CreateRest(s: State, priority: int, parentTid: int)
    requires Inv(s) && s.poolPtr != NONE && FirstFree(s.used, 0) != NO_BLOCK
    ensures var s' := CreateTask(s, priority, parentTid);
            Shape(s') && TasksOk(s') && CurrentOk(s'.tasks, s'.current) && ReceiversOk(s'.tasks, s'.senders)
            && BlocksOk(s'.tasks, s'.used)
  {
    hide Filed;
    var t := s.poolPtr;
    BlocksCreate(s.tasks, s.used, t, CreateTask(s, priority, parentTid).tasks[t]);
  }

  lemma {:induction false} RemovedIsWithout(jobq: seq<int>, k: int)
    requires NoDuplicates(jobq) && 0 <= k < |jobq|
    ensures Removed(jobq, jobq[k]) == Without(jobq, k)
  {
    if k == 0 {
    } else {
      RemovedIsWithout(jobq[1..], k - 1);
      WithoutTail(jobq, k);
    }
  }

  lemma WithoutTail(list: seq<int>, k: int)
    requires 0 < k < |list|
    ensures [list[0]] + Without(list[1..], k - 1) == Without(list, k)
  {
  }

  lemma HomesExit(tasks: seq<Task>, t: int)
    requires Live(tasks, t) && tasks[t].state == Running
    ensures JobHomes(tasks[t := FRESH_TASK]) == JobHomes(tasks)[t := NONE]
    ensures ReadyHomes(tasks[t := FRESH_TASK]) == ReadyHomes(tasks)
    ensures EventHomes(tasks[t := FRESH_TASK]) == EventHomes(tasks)
    ensures forall u :: 0 <= u < |tasks| ==>
              SendHomes(tasks[t := FRESH_TASK])[u] == (if SendHomes(tasks)[u] == t then NONE else SendHomes(tasks)[u])
  {
  }

  lemma BlocksExit(tasks: seq<Task>, used: seq<bool>, t: int)
    requires BlocksOk(tasks, used) && Live(tasks, t)
    ensures BlocksOk(tasks[t := FRESH_TASK], used[tasks[t].block := false])
  {
    var tasks', used' := tasks[t := FRESH_TASK], used[tasks[t].block := false];
    assert forall u :: Live(tasks', u) <==> u != t && Live(tasks, u);
    forall b | 0 <= b < |used'| && used'[b]
      ensures exists u :: Live(tasks', u) && tasks'[u].block == b
    {
      var u := Owner(tasks, used, b);
      assert Live(tasks', u) && tasks'[u].block == b;
    }
  }

  lemma ExitKeeps(s: State)
    requires Inv(s) && InTask(s)
    ensures Inv(SysExit(s))
  {
    ExitFiles(s);
    hide Filed;
    BlocksExit(s.tasks, s.used, s.current);
  }

  lemma ExitFiles(s: State)
    requires Inv(s) && InTask(s)
    ensures PlacesOk(SysExit(s))
  {
    hide BlocksOk, CurrentOk, ReceiversOk;
    var c := s.current;
    HomesExit(s.tasks, c);
    assert JobHomes(s.tasks)[c] == 0;
    var k :| 0 <= k < |s.jobq| && s.jobq[k] == c;
    assert [s.jobq][0] == s.jobq;
    RemovedIsWithout(s.jobq, k);
    FiledWithout([s.jobq], JobHomes(s.tasks), 0, k);
    assert [s.jobq][0 := Without(s.jobq, k)] == [Without(s.jobq, k)];
    FiledClear(s.senders, SendHomes(s.tasks), SendHomes(SysExit(s).tasks), c);
  }

  // ---- System calls ---------------------------------------------------------------------------------

  lemma CreateCallKeeps(s: State)
    requires Inv(s) && InTask(s)
    ensures Inv(SysCreate(s))
  {
    hide PlacesOk, BlocksOk, CurrentOk, ReceiversOk;
    var k := s.tasks[s.current];
    CreateKeeps(s, I32(k.x.x0), k.tid);
    AssignResultKeeps(CreateTask(s, I32(k.x.x0), k.tid), s.current, if s.poolPtr == NONE then -1 else s.tidCount);
  }

  lemma SendNowKeeps(s: State, r: int)
    requires Inv(s) && InTask(s) && SendArgsOk(s.tasks[s.current].x)
    requires Live(s.tasks, r) && s.tasks[r].state == WaitReceive
    ensures Inv(SendNow(s, r))
  {
    hide PlacesOk, BlocksOk, CurrentOk, ReceiversOk;
    var c := s.current;
    var x, y := s.tasks[c].x, s.tasks[r].x;
    LiveHasBlock(s, r);
    WriteMemoryKeeps(s, r, y.x0, IntBytes(s.tasks[c].tid));
    var told := WriteMemory(s, r, y.x0, IntBytes(s.tasks[c].tid));
    TransferKeeps(told, c, x.x1, I32(x.x2), r, y.x1, I32(y.x2));
    var sent := Transfer(told, c, x.x1, I32(x.x2), r, y.x1, I32(y.x2));
    WakeKeeps(sent, r);
    BlockKeeps(Wake(sent, r), WaitReply);
  }

  lemma SendKeeps(s: State)
    requires Inv(s) && InTask(s) && SendArgsOk(s.tasks[s.current].x)
    ensures Inv(SysSend(s))
  {
    hide PlacesOk, BlocksOk, CurrentOk, ReceiversOk;
    var c := s.current;
    var r := I32(s.tasks[c].x.x0);
    LookupIsSlot(s, r);
    if !Live(s.tasks, r) {
      AssignResultKeeps(s, c, -1);
    } else if s.tasks[r].state == WaitReceive {
      SendNowKeeps(s, r);
    } else if |s.senders[r]| < RING_CAPACITY - 1 {
      SendLaterKeeps(s, r);
    } else {
      AssignResultKeeps(s, c, -2);
    }
  }

  lemma ReceiveKeeps(s: State)
    requires Inv(s) && InTask(s) && ReceiveArgsOk(s.tasks[s.current].x)
    ensures Inv(SysReceive(s))
  {
    hide PlacesOk, BlocksOk, CurrentOk, ReceiversOk;
    var c := s.current;
    if s.senders[c] == [] {
      BlockKeeps(s, WaitReceive);
    } else {
      var f := s.senders[c][0];
      TakeSenderKeeps(s, f);
      var taken := SetState(s, f, WaitReply).(senders := Popped(s.senders, c));
      LiveHasBlock(taken, c);
      var x, y := s.tasks[c].x, s.tasks[f].x;
      WriteMemoryKeeps(taken, c, x.x0, IntBytes(s.tasks[f].tid));
      TransferKeeps(WriteMemory(taken, c, x.x0, IntBytes(s.tasks[f].tid)), f, y.x1, I32(y.x2), c, x.x1, I32(x.x2));
    }
  }

  lemma ReplyKeeps(s: State)
    requires Inv(s) && InTask(s) && ReplyArgsOk(s.tasks[s.current].x)
    requires ReplyTargetOk(s, I32(s.tasks[s.current].x.x0))
    ensures Inv(SysReply(s))
  {
    hide PlacesOk, BlocksOk, CurrentOk, ReceiversOk;
    var c := s.current;
    var t := I32(s.tasks[c].x.x0);
    LookupIsSlot(s, t);
    if !Live(s.tasks, t) {
      AssignResultKeeps(s, c, -1);
    } else {
      var x, y := s.tasks[c].x, s.tasks[t].x;
      TransferKeeps(s, c, x.x1, I32(x.x2), t, y.x3, I32(y.x4));
      var sent := Transfer(s, c, x.x1, I32(x.x2), t, y.x3, I32(y.x4));
      WakeKeeps(sent, t);
      AssignResultKeeps(Wake(sent, t), c, Min(I32(x.x2), I32(y.x4)));
    }
  }

  /** Whatever exception the running task raises, handling it keeps the invariant. */
  lemma HandledKeeps(s: State, ev: Event)
    requires Inv(s) && InTask(s) && CallOk(s, ev)
    ensures Inv(Handled(s, ev))
  {
    hide Shape, PlacesOk, BlocksOk, CurrentOk, ReceiversOk;
    match ev
    case Trap(Create, _, _) => CreateCallKeeps(s);
    case Trap(Exit, _, _) => ExitKeeps(s);
    case Trap(MyTid, _, _) => AssignResultKeeps(s, s.current, s.tasks[s.current].tid);
    case Trap(MyParentTid, _, _) => AssignResultKeeps(s, s.current, s.tasks[s.current].parentTid);
    case Trap(Send, _, _) => SendKeeps(s);
    case Trap(Receive, _, _) => ReceiveKeeps(s);
    case Trap(Reply, _, _) => ReplyKeeps(s);
    case Trap(Await, _, _) => AwaitKeeps(s);
    case Irq(intid, _, _) => WakeWaiterKeeps(s, intid);
    case _ =>
  }
}

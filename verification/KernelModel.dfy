/**
 The kernel as a state machine on plain values: one step is one iteration of the
 kmain loop (src/kernel.c), that is schedule, activate, some user code, and the
 handling of one system call or interrupt.

 A task is named by its slot in the task pool. Tasks are never returned to that pool,
 so slots are handed out in order and a live task's tid equals its slot.
 */
module KernelModel {
  import opened CInts
  import opened Filing
  import opened PriorityQueues
  import opened MemoryBlocks

  const TASKS: nat := 64
  const INTERRUPTS: nat := 1024
  const KNOWN_INTERRUPTS: nat := 1022
  const RING_CAPACITY: nat := 64

  datatype TaskState = Initialized | WaitSend | WaitReceive | WaitReply | AwaitEvent | Ready | Running

  /** The registers in which a system call passes its arguments. */
  datatype Registers = Registers(x0: int, x1: int, x2: int, x3: int, x4: int)

  datatype Task = Task(tid: int, parentTid: int, priority: int, state: TaskState, x: Registers,
                       result: int, passResult: bool, block: int, next: int)

  datatype State = State(tasks: seq<Task>, poolPtr: int, tidCount: int, current: int,
                         jobq: seq<int>, readyq: seq<seq<int>>, irqq: seq<seq<int>>, senders: seq<seq<int>>,
                         used: seq<bool>, memory: seq<seq<Byte>>)

  datatype Syscall = Create | Yield | Exit | MyTid | MyParentTid | Send | Receive | Reply | Await

  /**
   What stops the running task. `x` and `stack` are its registers and its memory block
   when it stops: user code may have put anything there.
   */
  datatype Event =
    | Trap(call: Syscall, x: Registers, stack: seq<Byte>)
    | Irq(intid: int, x: Registers, stack: seq<Byte>)
    | Unsupported(x: Registers, stack: seq<Byte>)

  // ---- Arguments -------------------------------------------------------------------

  predicate BufferOk(address: int, length: int) {
    0 <= address && 0 <= length && address + length <= BLOCK_SIZE
  }

  predicate SendArgsOk(x: Registers) {
    BufferOk(x.x1, I32(x.x2)) && BufferOk(x.x3, I32(x.x4))
  }

  predicate ReceiveArgsOk(x: Registers) {
    BufferOk(x.x0, 4) && BufferOk(x.x1, I32(x.x2))
  }

  predicate ReplyArgsOk(x: Registers) {
    BufferOk(x.x1, I32(x.x2))
  }

  predicate EventOk(x: Registers) {
    0 <= I32(x.x0) < KNOWN_INTERRUPTS
  }

  /** A blocked task still holds the arguments of the call it is blocked in. */
  predicate ArgsOk(k: Task) {
    match k.state
    case WaitSend => SendArgsOk(k.x)
    case WaitReply => SendArgsOk(k.x)
    case WaitReceive => ReceiveArgsOk(k.x)
    case AwaitEvent => EventOk(k.x)
    case _ => true
  }

  // ---- The invariant -----------------------------------------------------------------

  predicate Live(tasks: seq<Task>, t: int) {
    0 <= t < |tasks| && tasks[t].tid != NONE
  }

  /** The place a task's state assigns it in each family of queues. */
  function JobHome(k: Task): (r: int) { if k.tid != NONE then 0 else NONE }
  function ReadyHome(k: Task): (r: int) { if k.state == Ready then k.priority else NONE }
  function EventHome(k: Task): (r: int) {
    if k.state == AwaitEvent then First(I32(k.x.x0)) + k.priority else NONE
  }
  function SendHome(tasks: seq<Task>, k: Task): (r: int) {
    if k.state == WaitSend && Live(tasks, I32(k.x.x0)) then I32(k.x.x0) else NONE
  }

  function JobHomes(tasks: seq<Task>): (r: seq<int>) {
    seq(|tasks|, t requires 0 <= t < |tasks| => JobHome(tasks[t]))
  }
  function ReadyHomes(tasks: seq<Task>): (r: seq<int>) {
    seq(|tasks|, t requires 0 <= t < |tasks| => ReadyHome(tasks[t]))
  }
  function EventHomes(tasks: seq<Task>): (r: seq<int>) {
    seq(|tasks|, t requires 0 <= t < |tasks| => EventHome(tasks[t]))
  }
  function SendHomes(tasks: seq<Task>): (r: seq<int>) {
    seq(|tasks|, t requires 0 <= t < |tasks| => SendHome(tasks, tasks[t]))
  }

  ghost predicate Shape(s: State) {
    && |s.tasks| == TASKS && |s.readyq| == PRIORITIES && |s.irqq| == INTERRUPTS * PRIORITIES && |s.senders| == TASKS
    && |s.used| == BLOCKS && |s.memory| == BLOCKS
    && (forall b :: 0 <= b < BLOCKS ==> |s.memory[b]| == BLOCK_SIZE)
  }

  ghost predicate TaskOk(k: Task, t: int, tidCount: int) {
    if k.tid == NONE then
      && k.state == Initialized
      && (t >= tidCount ==> k.next == if t + 1 < TASKS then t + 1 else NONE)
    else
      && k.tid == t < tidCount
      && k.state != Initialized && ArgsOk(k)
      && (k.state == WaitSend ==> 0 <= I32(k.x.x0) < tidCount)
      && 0 <= k.priority < PRIORITIES && 0 <= k.block < BLOCKS
  }

  ghost predicate TasksOk(s: State) {
    && 0 <= s.tidCount <= TASKS
    && s.poolPtr == (if s.tidCount < TASKS then s.tidCount else NONE)
    && (forall t :: 0 <= t < |s.tasks| ==> TaskOk(s.tasks[t], t, s.tidCount))
  }

  /** At most one task is RUNNING, and it is the current one; the current task is never READY. */
  ghost predicate CurrentOk(tasks: seq<Task>, current: int) {
    && (current != NONE ==> Live(tasks, current) && tasks[current].state != Ready)
    && (forall t :: 0 <= t < |tasks| && tasks[t].state == Running ==> t == current)
  }

  /** State and place agree: each queue family holds exactly the tasks whose state puts them there. */
  ghost predicate PlacesOk(s: State) {
    && Filed([s.jobq], JobHomes(s.tasks))
    && Filed(s.readyq, ReadyHomes(s.tasks))
    && Filed(s.irqq, EventHomes(s.tasks))
    && Filed(s.senders, SendHomes(s.tasks))
  }

  /** A task blocked in Receive has nobody waiting to send to it. */
  ghost predicate ReceiversOk(tasks: seq<Task>, senders: seq<seq<int>>) {
    forall t :: 0 <= t < |tasks| && t < |senders| && tasks[t].state == WaitReceive ==> senders[t] == []
  }

  /** Live tasks own distinct blocks, and only they own blocks. */
  ghost predicate BlocksOk(tasks: seq<Task>, used: seq<bool>) {
    && (forall t :: Live(tasks, t) ==> 0 <= tasks[t].block < |used| && used[tasks[t].block])
    && (forall t, u :: Live(tasks, t) && Live(tasks, u) && t != u ==> tasks[t].block != tasks[u].block)
    && (forall b :: 0 <= b < |used| && used[b] ==> exists t :: Live(tasks, t) && tasks[t].block == b)
  }

  ghost predicate Inv(s: State) {
    && Shape(s) && TasksOk(s) && CurrentOk(s.tasks, s.current) && PlacesOk(s)
    && ReceiversOk(s.tasks, s.senders) && BlocksOk(s.tasks, s.used)
  }

  /** The current task exists and is running: the situation in which the kernel handles an exception. */
  predicate InTask(s: State) {
    0 <= s.current < |s.tasks| && s.tasks[s.current].state == Running
  }

  // ---- Building blocks of the steps ----------------------------------------------------

  /** get_task_by_tid: the first job whose task has that tid. */
  function Lookup(tasks: seq<Task>, jobq: seq<int>, tid: int): (r: int)
    requires forall i :: 0 <= i < |jobq| ==> 0 <= jobq[i] < |tasks|
    ensures r != NONE ==> r in jobq && tasks[r].tid == tid
    ensures r == NONE ==> forall i :: 0 <= i < |jobq| ==> tasks[jobq[i]].tid != tid
  {
    if jobq == [] then NONE
    else if tasks[jobq[0]].tid == tid then jobq[0]
    else Lookup(tasks, jobq[1..], tid)
  }

  /** With the invariant, the search finds exactly the live task in the slot of that number. */
  lemma LookupIsSlot(s: State, tid: int)
    requires Inv(s)
    ensures forall i :: 0 <= i < |s.jobq| ==> 0 <= s.jobq[i] < |s.tasks|
    ensures Lookup(s.tasks, s.jobq, tid) == if Live(s.tasks, tid) then tid else NONE
  {
    hide Shape, CurrentOk, ReceiversOk, BlocksOk;
    assert [s.jobq][0] == s.jobq;
    assert forall i :: 0 <= i < |s.jobq| ==> 0 <= [s.jobq][0][i] < |s.tasks| && Live(s.tasks, s.jobq[i]);
    if Live(s.tasks, tid) {
      assert JobHomes(s.tasks)[tid] == 0;
      assert tid in s.jobq;
    }
  }

  function SetState(s: State, t: int, state: TaskState): (r: State)
    requires 0 <= t < |s.tasks|
  {
    s.(tasks := s.tasks[t := s.tasks[t].(state := state)])
  }

  function AssignResult(s: State, t: int, result: int): (r: State)
    requires 0 <= t < |s.tasks|
  {
    s.(tasks := s.tasks[t := s.tasks[t].(result := result, passResult := true)])
  }

  /** change_task_state(t, READY) */
  function Wake(s: State, t: int): (r: State)
    requires 0 <= t < |s.tasks| && 0 <= s.tasks[t].priority < |s.readyq|
  {
    SetState(s, t, Ready).(readyq := Appended(s.readyq, s.tasks[t].priority, t))
  }

  function Splice(data: seq<Byte>, at: int, bytes: seq<Byte>): (r: seq<Byte>)
    requires 0 <= at && at + |bytes| <= |data|
    ensures |r| == |data|
    ensures r[at..at + |bytes|] == bytes
    ensures r[..at] == data[..at] && r[at + |bytes|..] == data[at + |bytes|..]
  {
    data[..at] + bytes + data[at + |bytes|..]
  }

  function Min(a: int, b: int): (r: int) { if a < b then a else b }

  ghost predicate HasBlock(s: State, t: int) {
    0 <= t < |s.tasks| && 0 <= s.tasks[t].block < |s.memory| && |s.memory[s.tasks[t].block]| == BLOCK_SIZE
  }

  function WriteMemory(s: State, t: int, at: int, bytes: seq<Byte>): (r: State)
    requires HasBlock(s, t) && 0 <= at && at + |bytes| <= BLOCK_SIZE
  {
    var b := s.tasks[t].block;
    s.(memory := s.memory[b := Splice(s.memory[b], at, bytes)])
  }

  function ReadMemory(s: State, t: int, at: int, length: int): (r: seq<Byte>)
    requires HasBlock(s, t) && BufferOk(at, length)
  {
    s.memory[s.tasks[t].block][at..at + length]
  }

  /** copy_message and assign_result: the copied length is the result of the task copied to. */
  function Transfer(s: State, from: int, src: int, srcLength: int, to: int, dst: int, dstLength: int): (r: State)
    requires HasBlock(s, from) && BufferOk(src, srcLength) && HasBlock(s, to) && BufferOk(dst, dstLength)
  {
    var n := Min(srcLength, dstLength);
    AssignResult(WriteMemory(s, to, dst, ReadMemory(s, from, src, n)), to, n)
  }

  // ---- Schedule and activate -------------------------------------------------------------

  /** A task that was still running when its exception was handled goes back to its ready list. */
  function Requeued(s: State): (r: State)
    requires Inv(s)
  {
    if InTask(s) then Wake(s, s.current) else s
  }

  predicate CanDispatch(s: State)
    requires Inv(s)
  {
    Top(Requeued(s).readyq, 0, PRIORITIES) != NONE
  }

  /** The task schedule returns. */
  function Next(s: State): (r: int)
    requires Inv(s) && CanDispatch(s)
  {
    var q := Requeued(s).readyq;
    q[Top(q, 0, PRIORITIES)][0]
  }

  lemma NextIsReady(s: State)
    requires Inv(s) && CanDispatch(s)
    ensures 0 <= Next(s) < TASKS
  {
  }

  lemma RequeueKeepsReadyFiled(s: State)
    requires Inv(s)
    ensures Filed(Requeued(s).readyq, ReadyHomes(Requeued(s).tasks))
    ensures |Requeued(s).readyq| == PRIORITIES && |Requeued(s).tasks| == TASKS
  {
    if InTask(s) {
      var t := s.current;
      FiledAppend(s.readyq, ReadyHomes(s.tasks), s.tasks[t].priority, t);
      assert ReadyHomes(Requeued(s).tasks) == ReadyHomes(s.tasks)[t := s.tasks[t].priority];
    }
  }

  /** What schedule leaves: the task it returns, if any, has left its list. */
  function Scheduled(s: State): (r: State)
    requires Inv(s)
  {
    var q := Requeued(s);
    if CanDispatch(s) then q.(readyq := Popped(q.readyq, Top(q.readyq, 0, PRIORITIES))) else q
  }

  /** The first half of an iteration: schedule, then activate. */
  function Dispatched(s: State): (r: State)
    requires Inv(s) && CanDispatch(s)
  {
    NextIsReady(s);
    var q := Scheduled(s);
    var t := Next(s);
    var k := q.tasks[t];
    q.(current := t,
       tasks := q.tasks[t := k.(state := Running, x := if k.passResult then k.x.(x0 := k.result) else k.x)])
  }

  /** User code runs until the next exception: it changes its own registers and its own block. */
  function UserRan(s: State, x: Registers, stack: seq<Byte>): (r: State)
    requires InTask(s) && 0 <= s.tasks[s.current].block < |s.memory|
  {
    s.(tasks := s.tasks[s.current := s.tasks[s.current].(x := x)],
       memory := s.memory[s.tasks[s.current].block := stack])
  }

  // ---- System calls -----------------------------------------------------------------------

  function Clamp(v: int, lo: int, hi: int): (r: int) {
    if v < lo then lo else if v > hi then hi else v
  }

  /** create_task; the state is unchanged when the pool has no task left. */
  function CreateTask(s: State, priority: int, parentTid: int): (r: State)
    requires Inv(s)
  {
    if s.poolPtr == NONE then s
    else
      var t := s.poolPtr;
      var p := Clamp(priority, 0, PRIORITIES - 1);
      var b := FirstFree(s.used, 0);
      s.(tasks := s.tasks[t := Task(s.tidCount, parentTid, p, Ready, Registers(0, 0, 0, 0, 0), 0, false, b, NONE)],
         poolPtr := s.tasks[t].next,
         tidCount := s.tidCount + 1,
         used := if b == NO_BLOCK then s.used else s.used[b := true],
         jobq := s.jobq + [t],
         readyq := Appended(s.readyq, p, t),
         senders := s.senders[t := []])
  }

  function SysCreate(s: State): (r: State)
    requires Inv(s) && InTask(s)
  {
    var k := s.tasks[s.current];
    AssignResult(CreateTask(s, I32(k.x.x0), k.tid), s.current, if s.poolPtr == NONE then -1 else s.tidCount)
  }

  const FRESH_TASK: Task := Task(NONE, -1, 0, Initialized, Registers(0, 0, 0, 0, 0), 0, false, NO_BLOCK, NONE)

  /** The job list without its entry t. */
  function Removed(jobq: seq<int>, t: int): (r: seq<int>) {
    if jobq == [] then [] else if jobq[0] == t then jobq[1..] else [jobq[0]] + Removed(jobq[1..], t)
  }

  /** remove_current_task */
  function SysExit(s: State): (r: State)
    requires Inv(s) && InTask(s)
  {
    var c := s.current;
    var b := s.tasks[c].block;
    s.(tasks := s.tasks[c := FRESH_TASK],
       current := NONE,
       jobq := Removed(s.jobq, c),
       senders := s.senders[c := []],
       used := s.used[b := false],
       memory := s.memory[b := Zeroes()])
  }

  /** sys_send, when the receiver is already waiting: the message goes across at once. */
  function SendNow(s: State, r: int): (s': State)
    requires Inv(s) && InTask(s) && SendArgsOk(s.tasks[s.current].x)
    requires 0 <= r < TASKS && s.tasks[r].state == WaitReceive
  {
    var c := s.current;
    var x, y := s.tasks[c].x, s.tasks[r].x;
    var told := WriteMemory(s, r, y.x0, IntBytes(s.tasks[c].tid));
    SetState(Wake(Transfer(told, c, x.x1, I32(x.x2), r, y.x1, I32(y.x2)), r), c, WaitReply)
  }

  /** sys_send, when it is not: the sender queues up. */
  function SendLater(s: State, r: int): (s': State)
    requires Inv(s) && InTask(s) && 0 <= r < TASKS
  {
    SetState(s, s.current, WaitSend).(senders := Appended(s.senders, r, s.tasks[s.current].tid))
  }

  function SysSend(s: State): (s': State)
    requires Inv(s) && InTask(s) && SendArgsOk(s.tasks[s.current].x)
  {
    var c := s.current;
    LookupIsSlot(s, I32(s.tasks[c].x.x0));
    var r := Lookup(s.tasks, s.jobq, I32(s.tasks[c].x.x0));
    if r == NONE then AssignResult(s, c, -1)
    else if s.tasks[r].state == WaitReceive then SendNow(s, r)
    else if |s.senders[r]| < RING_CAPACITY - 1 then SendLater(s, r)
    else AssignResult(s, c, -2)
  }

  /** sys_receive, when a sender waits in the ring. */
  function ReceiveNow(s: State, f: int): (s': State)
    requires Inv(s) && InTask(s) && ReceiveArgsOk(s.tasks[s.current].x)
    requires s.senders[s.current] != [] && 0 <= f < TASKS && s.tasks[f].state == WaitSend
  {
    var c := s.current;
    var x, y := s.tasks[c].x, s.tasks[f].x;
    var taken := SetState(s, f, WaitReply).(senders := Popped(s.senders, c));
    var told := WriteMemory(taken, c, x.x0, IntBytes(s.tasks[f].tid));
    Transfer(told, f, y.x1, I32(y.x2), c, x.x1, I32(x.x2))
  }

  /** Every tid in a ring names a live task blocked in Send to the ring's owner. */
  lemma RingHoldsSenders(s: State, c: int, i: int)
    requires Inv(s) && 0 <= c < TASKS && 0 <= i < |s.senders[c]|
    ensures var f := s.senders[c][i];
            && Live(s.tasks, f) && s.tasks[f].tid == f && s.tasks[f].state == WaitSend
            && I32(s.tasks[f].x.x0) == c && Live(s.tasks, c)
            && Lookup.requires(s.tasks, s.jobq, f) && Lookup(s.tasks, s.jobq, f) == f
  {
    hide ReceiversOk, BlocksOk, CurrentOk;
    var f := s.senders[c][i];
    assert SendHomes(s.tasks)[f] == c;
    LookupIsSlot(s, f);
  }

  /** sys_receive; RingHoldsSenders says that its "invalid sender" branch cannot be taken. */
  function SysReceive(s: State): (s': State)
    requires Inv(s) && InTask(s) && ReceiveArgsOk(s.tasks[s.current].x)
  {
    var c := s.current;
    if s.senders[c] == [] then SetState(s, c, WaitReceive)
    else
      RingHoldsSenders(s, c, 0);
      ReceiveNow(s, s.senders[c][0])
  }

  /** A reply is meant for a task that waits for one. */
  predicate ReplyTargetOk(s: State, tid: int) {
    Live(s.tasks, tid) ==> s.tasks[tid].state == WaitReply
  }

  function ReplyNow(s: State, t: int): (s': State)
    requires Inv(s) && InTask(s) && ReplyArgsOk(s.tasks[s.current].x)
    requires 0 <= t < TASKS && s.tasks[t].state == WaitReply
  {
    var c := s.current;
    var x, y := s.tasks[c].x, s.tasks[t].x;
    var sent := Transfer(s, c, x.x1, I32(x.x2), t, y.x3, I32(y.x4));
    AssignResult(Wake(sent, t), c, Min(I32(x.x2), I32(y.x4)))
  }

  function SysReply(s: State): (s': State)
    requires Inv(s) && InTask(s) && ReplyArgsOk(s.tasks[s.current].x)
    requires ReplyTargetOk(s, I32(s.tasks[s.current].x.x0))
  {
    var c := s.current;
    LookupIsSlot(s, I32(s.tasks[c].x.x0));
    var t := Lookup(s.tasks, s.jobq, I32(s.tasks[c].x.x0));
    if t == NONE then AssignResult(s, c, -1) else ReplyNow(s, t)
  }

  function SysAwait(s: State): (s': State)
    requires Inv(s) && InTask(s) && EventOk(s.tasks[s.current].x)
  {
    var k := s.tasks[s.current];
    SetState(s, s.current, AwaitEvent).(irqq := Appended(s.irqq, First(I32(k.x.x0)) + k.priority, s.current))
  }

  /** wake_up_irq_blocked_tasks: one waiting task, of the highest priority, becomes ready. */
  function WakeWaiter(s: State, intid: int): (s': State)
    requires Inv(s) && 0 <= intid < KNOWN_INTERRUPTS
  {
    var top := Top(s.irqq, First(intid), Last(intid));
    if top == NONE then s
    else
      var t := s.irqq[top][0];
      assert EventHomes(s.tasks)[t] == top;
      Wake(s, t).(irqq := Popped(s.irqq, top))
  }

  // ---- Steps and runs --------------------------------------------------------------------------

  /** What the kernel's callers owe it: arguments it can follow, and replies only to tasks that wait for one. */
  ghost predicate CallOk(s: State, ev: Event)
    requires InTask(s)
  {
    var x := s.tasks[s.current].x;
    match ev
    case Trap(Send, _, _) => SendArgsOk(x)
    case Trap(Receive, _, _) => ReceiveArgsOk(x)
    case Trap(Reply, _, _) => ReplyArgsOk(x) && ReplyTargetOk(s, I32(x.x0))
    case Trap(Await, _, _) => EventOk(x)
    case Irq(intid, _, _) => 0 <= intid < KNOWN_INTERRUPTS
    case _ => true
  }

  function Handled(s: State, ev: Event): (s': State)
    requires Inv(s) && InTask(s) && CallOk(s, ev)
  {
    match ev
    case Trap(Create, _, _) => SysCreate(s)
    case Trap(Yield, _, _) => s
    case Trap(Exit, _, _) => SysExit(s)
    case Trap(MyTid, _, _) => AssignResult(s, s.current, s.tasks[s.current].tid)
    case Trap(MyParentTid, _, _) => AssignResult(s, s.current, s.tasks[s.current].parentTid)
    case Trap(Send, _, _) => SysSend(s)
    case Trap(Receive, _, _) => SysReceive(s)
    case Trap(Reply, _, _) => SysReply(s)
    case Trap(Await, _, _) => SysAwait(s)
    case Irq(intid, _, _) => WakeWaiter(s, intid)
    case Unsupported(_, _) => s
  }
}

/**
 Whole iterations of the kernel loop, what each leaves alone, and runs.
 */
module KernelSteps {
  import opened CInts
  import opened Filing
  import opened PriorityQueues
  import opened MemoryBlocks
  import opened KernelModel
  import opened KernelInvariant

  // ---- One iteration ---------------------------------------------------------------------

  /** The state in which the kernel finds the machine when the dispatched task stops. */
  function AtException(s: State, ev: Event): (e: State)
    requires Inv(s) && CanDispatch(s) && |ev.stack| == BLOCK_SIZE
    ensures Inv(e) && InTask(e) && e.current == Next(s)
  {
    DispatchedKeeps(s);
    UserRanKeeps(Dispatched(s), ev.x, ev.stack);
    UserRan(Dispatched(s), ev.x, ev.stack)
  }

  ghost predicate Enabled(s: State, ev: Event)
    requires Inv(s)
  {
    CanDispatch(s) && |ev.stack| == BLOCK_SIZE && CallOk(AtException(s, ev), ev)
  }

  function Step(s: State, ev: Event): (s': State)
    requires Inv(s) && Enabled(s, ev)
    ensures Inv(s')
  {
    HandledKeeps(AtException(s, ev), ev);
    Handled(AtException(s, ev), ev)
  }

  // ---- What dispatching leaves alone -----------------------------------------------------------

  /** Up to the exception only the dispatched task changes, except that a still running task is queued again. */
  lemma DispatchFrame(s: State, ev: Event, t: int)
    requires Inv(s) && CanDispatch(s) && |ev.stack| == BLOCK_SIZE
    requires 0 <= t < TASKS && t != Next(s)
    ensures var e := AtException(s, ev);
            && e.tasks[t] == (if s.tasks[t].state == Running then s.tasks[t].(state := Ready) else s.tasks[t])
            && (Live(s.tasks, t) ==> e.memory[s.tasks[t].block] == s.memory[s.tasks[t].block])
  {
    hide PlacesOk, ReceiversOk, Top, Popped;
    NextIsReady(s);
    NextWasReady(s);
  }

  lemma DispatchShares(s: State, ev: Event)
    requires Inv(s) && CanDispatch(s) && |ev.stack| == BLOCK_SIZE
    ensures var e := AtException(s, ev);
            && e.senders == s.senders && e.irqq == s.irqq && e.jobq == s.jobq && e.used == s.used
            && e.tidCount == s.tidCount && e.poolPtr == s.poolPtr
            && (forall t :: Live(e.tasks, t) <==> Live(s.tasks, t))
  {
    hide PlacesOk, ReceiversOk, BlocksOk, Top, Popped;
    NextIsReady(s);
    NextWasReady(s);
  }

  /** The task chosen by schedule: it was ready, or it was the one still running. */
  lemma NextWasReady(s: State)
    requires Inv(s) && CanDispatch(s)
    ensures var t := Next(s);
            && Live(s.tasks, t)
            && (s.tasks[t].state == Ready || (s.tasks[t].state == Running && t == s.current))
            && Requeued(s).tasks[t] == s.tasks[t].(state := Ready)
            && Top(Requeued(s).readyq, 0, PRIORITIES) == s.tasks[t].priority
  {
  }

  // ---- What handling leaves alone ----------------------------------------------------------------

  /** The other task an exception concerns: created, delivered to, received from, replied to or woken. */
  function Partner(e: State, ev: Event): (p: int)
    requires Inv(e) && InTask(e) && CallOk(e, ev)
  {
    var c := e.current;
    var target := I32(e.tasks[c].x.x0);
    match ev
    case Trap(Create, _, _) => e.poolPtr
    case Trap(Send, _, _) => if Live(e.tasks, target) && e.tasks[target].state == WaitReceive then target else NONE
    case Trap(Receive, _, _) => if e.senders[c] != [] then e.senders[c][0] else NONE
    case Trap(Reply, _, _) => if Live(e.tasks, target) then target else NONE
    case Irq(intid, _, _) =>
      var top := Top(e.irqq, First(intid), Last(intid));
      if top == NONE then NONE else e.irqq[top][0]
    case _ => NONE
  }

  /** The records and the memory after a message goes from a sender to a receiver. */
  function Delivered(k: Task, n: int): (r: Task) { k.(result := n, passResult := true) }

  lemma SendNowEffect(s: State, r: int)
    requires Inv(s) && InTask(s) && SendArgsOk(s.tasks[s.current].x)
    requires Live(s.tasks, r) && s.tasks[r].state == WaitReceive
    ensures var s', c := SendNow(s, r), s.current;
            var x, y := s.tasks[c].x, s.tasks[r].x;
            var n, br, bc := Min(I32(x.x2), I32(y.x2)), s.tasks[r].block, s.tasks[c].block;
            && c != r && br != bc
            && ReceiveArgsOk(y)
            && s'.tasks == s.tasks[r := Delivered(s.tasks[r], n).(state := Ready)][c := s.tasks[c].(state := WaitReply)]
            && s'.memory == s.memory[br := Splice(Splice(s.memory[br], y.x0, IntBytes(c)), y.x1, s.memory[bc][x.x1..x.x1 + n])]
            && s'.readyq == Appended(s.readyq, s.tasks[r].priority, r)
            && s' == s.(tasks := s'.tasks, memory := s'.memory, readyq := s'.readyq)
  {
    hide PlacesOk, ReceiversOk, CurrentOk, Splice, Appended;
  }

  lemma ReceiveNowEffect(s: State, f: int)
    requires Inv(s) && InTask(s) && ReceiveArgsOk(s.tasks[s.current].x)
    requires s.senders[s.current] != [] && f == s.senders[s.current][0]
    ensures Live(s.tasks, f) && s.tasks[f].state == WaitSend && SendArgsOk(s.tasks[f].x) && f != s.current
    ensures var s', c := ReceiveNow(s, f), s.current;
            var x, y := s.tasks[c].x, s.tasks[f].x;
            var n, bc, bf := Min(I32(y.x2), I32(x.x2)), s.tasks[c].block, s.tasks[f].block;
            && bc != bf
            && s'.tasks == s.tasks[f := s.tasks[f].(state := WaitReply)][c := Delivered(s.tasks[c], n)]
            && s'.memory == s.memory[bc := Splice(Splice(s.memory[bc], x.x0, IntBytes(f)), x.x1, s.memory[bf][y.x1..y.x1 + n])]
            && s' == s.(tasks := s'.tasks, memory := s'.memory, senders := Popped(s.senders, c))
  {
    hide PlacesOk, ReceiversOk, CurrentOk, Splice, Appended, Popped, Lookup, SendArgsOk, IntBytes;
    RingHoldsSenders(s, s.current, 0);
  }

  lemma ReplyNowEffect(s: State, t: int)
    requires Inv(s) && InTask(s) && ReplyArgsOk(s.tasks[s.current].x)
    requires Live(s.tasks, t) && s.tasks[t].state == WaitReply
    ensures var s', c := ReplyNow(s, t), s.current;
            var x, y := s.tasks[c].x, s.tasks[t].x;
            var n, bt, bc := Min(I32(x.x2), I32(y.x4)), s.tasks[t].block, s.tasks[c].block;
            && c != t && bt != bc && SendArgsOk(y)
            && s'.tasks == s.tasks[t := Delivered(s.tasks[t], n).(state := Ready)][c := Delivered(s.tasks[c], n)]
            && s'.memory == s.memory[bt := Splice(s.memory[bt], y.x3, s.memory[bc][x.x1..x.x1 + n])]
            && s'.readyq == Appended(s.readyq, s.tasks[t].priority, t)
            && s' == s.(tasks := s'.tasks, memory := s'.memory, readyq := s'.readyq)
  {
    hide PlacesOk, ReceiversOk, CurrentOk, Splice, Appended;
  }

  /** k' is k with at most its state and result changed; it waits to send only if it did, or if the flag allows. */
  predicate Touched(k: Task, k': Task, maySend: bool) {
    && k' == k.(state := k'.state, result := k'.result, passResult := k'.passResult)
    && k'.state != Initialized
    && (k'.state == WaitSend ==> k.state == WaitSend || maySend)
  }

  /**
   The record of any task after an exception: fresh if it exited, new if it was created, otherwise
   the old one with at most state and result changed, and not even that for a task that is neither
   the running one nor the partner.
   */
  lemma RecordAfter(e: State, ev: Event, t: int)
    requires Inv(e) && InTask(e) && CallOk(e, ev) && 0 <= t < TASKS
    ensures |Handled(e, ev).tasks| == TASKS
    ensures var k, k', c := e.tasks[t], Handled(e, ev).tasks[t], e.current;
            if ev.Trap? && ev.call == Exit && t == c then k' == FRESH_TASK
            else if ev.Trap? && ev.call == Create && t == e.poolPtr then k'.tid == e.tidCount && k'.state == Ready
            else if t != c && t != Partner(e, ev) then k' == k
            else Live(e.tasks, t) &&
                 Touched(k, k', t == c && ev.Trap? && ev.call == Send && Live(e.tasks, I32(k.x.x0)))
  {
    hide PlacesOk, BlocksOk, ReceiversOk, CurrentOk, Removed, Appended, ArgsOk;
    match ev
    case Trap(Send, _, _) => RecordAfterSend(e, t);
    case Trap(Receive, _, _) => RecordAfterReceive(e, t);
    case Trap(Reply, _, _) => RecordAfterReply(e, t);
    case Irq(intid, _, _) => WaiterIsLive(e, intid);
    case _ =>
  }

  lemma RecordAfterSend(e: State, t: int)
    requires Inv(e) && InTask(e) && SendArgsOk(e.tasks[e.current].x) && 0 <= t < TASKS
    ensures |SysSend(e).tasks| == TASKS
    ensures var k, k', r := e.tasks[t], SysSend(e).tasks[t], I32(e.tasks[e.current].x.x0);
            if t == e.current || (t == r && Live(e.tasks, r) && e.tasks[r].state == WaitReceive)
            then Live(e.tasks, t) && Touched(k, k', t == e.current && Live(e.tasks, r)) else k' == k
  {
    hide PlacesOk, BlocksOk, ReceiversOk, CurrentOk, SendNow, Splice, Lookup;
    var target := I32(e.tasks[e.current].x.x0);
    LookupIsSlot(e, target);
    if Live(e.tasks, target) && e.tasks[target].state == WaitReceive {
      SendNowEffect(e, target);
    }
  }

  lemma RecordAfterReceive(e: State, t: int)
    requires Inv(e) && InTask(e) && ReceiveArgsOk(e.tasks[e.current].x) && 0 <= t < TASKS
    ensures |SysReceive(e).tasks| == TASKS
    ensures var k, k', ring := e.tasks[t], SysReceive(e).tasks[t], e.senders[e.current];
            if t == e.current || (ring != [] && t == ring[0]) then Live(e.tasks, t) && Touched(k, k', false) else k' == k
  {
    hide PlacesOk, BlocksOk, ReceiversOk, CurrentOk, ReceiveNow, Splice, Lookup, SendArgsOk;
    if e.senders[e.current] != [] {
      ReceiveNowEffect(e, e.senders[e.current][0]);
    }
  }

  lemma RecordAfterReply(e: State, t: int)
    requires Inv(e) && InTask(e) && ReplyArgsOk(e.tasks[e.current].x) && 0 <= t < TASKS
    requires ReplyTargetOk(e, I32(e.tasks[e.current].x.x0))
    ensures |SysReply(e).tasks| == TASKS
    ensures var k, k', r := e.tasks[t], SysReply(e).tasks[t], I32(e.tasks[e.current].x.x0);
            if t == e.current || (t == r && Live(e.tasks, r)) then Live(e.tasks, t) && Touched(k, k', false) else k' == k
  {
    hide PlacesOk, BlocksOk, ReceiversOk, CurrentOk, ReplyNow, Splice, Lookup;
    var target := I32(e.tasks[e.current].x.x0);
    LookupIsSlot(e, target);
    if Live(e.tasks, target) {
      ReplyNowEffect(e, target);
    }
  }

  /** The memory of a live task that is neither the running one nor the partner stays as it is. */
  lemma MemoryAfter(e: State, ev: Event, t: int)
    requires Inv(e) && InTask(e) && CallOk(e, ev) && Live(e.tasks, t) && t != e.current && t != Partner(e, ev)
    ensures |Handled(e, ev).memory| == BLOCKS && 0 <= e.tasks[t].block < BLOCKS
    ensures Handled(e, ev).memory[e.tasks[t].block] == e.memory[e.tasks[t].block]
  {
    hide PlacesOk, ReceiversOk, CurrentOk, Top, Popped, Appended, Splice, SendNow, ReceiveNow, ReplyNow, Removed, ArgsOk;
    var c := e.current;
    var target := I32(e.tasks[c].x.x0);
    LookupIsSlot(e, target);
    match ev
    case Trap(Send, _, _) =>
      if Live(e.tasks, target) && e.tasks[target].state == WaitReceive {
        SendNowEffect(e, target);
      }
    case Trap(Receive, _, _) =>
      if e.senders[c] != [] {
        ReceiveNowEffect(e, e.senders[c][0]);
      }
    case Trap(Reply, _, _) =>
      if Live(e.tasks, target) {
        ReplyNowEffect(e, target);
      }
    case _ =>
  }

  /** An exception leaves alone every task but the running one and the partner. */
  lemma HandleFrame(e: State, ev: Event, t: int)
    requires Inv(e) && InTask(e) && CallOk(e, ev)
    requires 0 <= t < TASKS && t != e.current && t != Partner(e, ev)
    ensures |Handled(e, ev).tasks| == TASKS && |Handled(e, ev).memory| == BLOCKS
    ensures Handled(e, ev).tasks[t] == e.tasks[t]
    ensures Live(e.tasks, t) ==>
              0 <= e.tasks[t].block < BLOCKS && Handled(e, ev).memory[e.tasks[t].block] == e.memory[e.tasks[t].block]
  {
    hide PlacesOk, BlocksOk, ReceiversOk, CurrentOk, TasksOk, Handled, CallOk;
    RecordAfter(e, ev, t);
    PoolPartner(e, ev);
    HandledKeeps(e, ev);
    if Live(e.tasks, t) {
      MemoryAfter(e, ev, t);
    }
  }

  lemma PoolPartner(e: State, ev: Event)
    requires Inv(e) && InTask(e) && CallOk(e, ev)
    ensures ev.Trap? && ev.call == Create ==> Partner(e, ev) == e.poolPtr
  {
    hide Inv;
  }

  lemma WaiterIsLive(e: State, intid: int)
    requires Inv(e) && 0 <= intid < KNOWN_INTERRUPTS
    ensures var top := Top(e.irqq, First(intid), Last(intid));
            top != NONE ==> Live(e.tasks, e.irqq[top][0]) && e.tasks[e.irqq[top][0]].state == AwaitEvent
  {
  }
}

/**
 What every system call answers, and that the answer, and nothing else, reaches its caller: the whole
 effect of each exception, and what becomes of a stopped task until it runs again.
 */
module Answers {
  import opened CInts
  import opened Filing
  import opened PriorityQueues
  import opened MemoryBlocks
  import opened KernelModel
  import opened KernelInvariant
  import opened KernelSteps
  import opened KernelRuns
  import opened Rendezvous
  import opened Delivery

  // ---- The effect of each exception ----------------------------------------------------------------

  /** The running task gets this answer and goes on running; nothing else changes. */
  ghost predicate OnlyAnswers(e: State, e': State, n: int) {
    && 0 <= e.current < |e.tasks|
    && e' == e.(tasks := e.tasks[e.current := e.tasks[e.current].(result := n, passResult := true)])
  }

  /** MyTid answers with the caller's own number. */
  lemma MyTidAnswers(s: State, ev: Event)
    requires Inv(s) && Enabled(s, ev) && ev.Trap? && ev.call == MyTid
    ensures OnlyAnswers(AtException(s, ev), Step(s, ev), Next(s))
  {
    hide PlacesOk, BlocksOk, ReceiversOk, CurrentOk, AtException;
  }

  /** MyParentTid answers with the number of the parent. */
  lemma MyParentTidAnswers(s: State, ev: Event)
    requires Inv(s) && Enabled(s, ev) && ev.Trap? && ev.call == MyParentTid
    ensures 0 <= Next(s) < |s.tasks| && OnlyAnswers(AtException(s, ev), Step(s, ev), s.tasks[Next(s)].parentTid)
  {
    hide PlacesOk, BlocksOk, ReceiversOk, Top, Popped;
    NextWasReady(s);
  }

  /** In every run, MyParentTid answers a task with the number of the task that created it. */
  lemma ParentTidIsCreator(states: seq<State>, events: seq<Event>, i: int, j: int)
    requires IsRun(states, events) && Inv(states[0]) && 0 <= i < j < |events|
    requires events[i].Trap? && events[i].call == Create && states[i].tidCount < TASKS
    requires forall n :: i < n <= j ==> Live(states[n].tasks, states[i].tidCount)
    requires Next(PathDispatch(states, events, j)) == states[i].tidCount
    requires events[j].Trap? && events[j].call == MyParentTid
    ensures OnlyAnswers(PathException(states, events, j), states[j + 1], Next(PathDispatch(states, events, i)))
  {
    hide Inv, Initial, StepsTo, Enabled, Step, Next, AtException, Handled;
    ParentIsCreator(states, events, i, j);
    MyParentTidAnswers(PathDispatch(states, events, j), events[j]);
  }

  /** A Send is answered at once with -1 exactly if nobody has the number; then nothing else happens. */
  lemma SendToNobody(s: State, ev: Event)
    requires Inv(s) && Enabled(s, ev) && ev.Trap? && ev.call == Send
    ensures OnlyAnswers(AtException(s, ev), Step(s, ev), -1) <==> !Live(s.tasks, I32(ev.x.x0))
  {
    hide PlacesOk, BlocksOk, ReceiversOk, CurrentOk, AtException, SendNow;
    var e := AtException(s, ev);
    StoppedWith(s, ev);
    DispatchShares(s, ev);
    LookupIsSlot(e, I32(ev.x.x0));
    if Live(e.tasks, I32(ev.x.x0)) && e.tasks[I32(ev.x.x0)].state == WaitReceive {
      SendNowEffect(e, I32(ev.x.x0));
    }
    AnswerRead(e, Step(s, ev), -1);
    assert Live(s.tasks, I32(ev.x.x0)) ==>
             Step(s, ev).tasks[e.current].state != Running || Step(s, ev).tasks[e.current].result == -2;
  }

  lemma AnswerRead(e: State, e': State, n: int)
    ensures OnlyAnswers(e, e', n) ==>
              |e'.tasks| == |e.tasks| && e'.tasks[e.current].result == n && e'.tasks[e.current].state == e.tasks[e.current].state
  {
  }

  /** A Send to somebody who is not receiving: it is answered with -2 if the ring is full, and queues up otherwise. */
  lemma SendWaitsItsTurn(e: State, ev: Event, r: int)
    requires Stopped(e, ev) && 0 <= r < TASKS && SendsTo(e, ev, r) && e.tasks[r].state != WaitReceive
    ensures 0 <= e.current < |e.tasks| == |e.senders| == TASKS
    ensures |e.senders[r]| >= 63 ==> OnlyAnswers(e, Handled(e, ev), -2)
    ensures |e.senders[r]| < 63 ==>
              Handled(e, ev) == e.(tasks := e.tasks[e.current := e.tasks[e.current].(state := WaitSend)],
                                   senders := e.senders[r := e.senders[r] + [e.current]])
  {
    hide PlacesOk, BlocksOk, ReceiversOk, CurrentOk, SendNow;
    LookupIsSlot(e, r);
  }

  /** A Receive with nobody waiting to send only blocks. */
  lemma ReceiveOnlyBlocks(e: State, ev: Event)
    requires Stopped(e, ev) && ev.Trap? && ev.call == Receive
    ensures 0 <= e.current < |e.tasks| == |e.senders|
    ensures e.senders[e.current] == [] ==>
              Handled(e, ev) == e.(tasks := e.tasks[e.current := e.tasks[e.current].(state := WaitReceive)])
  {
    hide PlacesOk, BlocksOk, ReceiversOk, CurrentOk, ReceiveNow;
  }

  /** A Reply is answered with -1 exactly if nobody has the number; then nothing else happens. */
  lemma ReplyToNobody(s: State, ev: Event)
    requires Inv(s) && Enabled(s, ev) && ev.Trap? && ev.call == Reply
    ensures OnlyAnswers(AtException(s, ev), Step(s, ev), -1) <==> !Live(s.tasks, I32(ev.x.x0))
  {
    hide PlacesOk, BlocksOk, ReceiversOk, CurrentOk, AtException, ReplyNow;
    var e := AtException(s, ev);
    StoppedWith(s, ev);
    DispatchShares(s, ev);
    LookupIsSlot(e, I32(ev.x.x0));
    if Live(e.tasks, I32(ev.x.x0)) {
      ReplyNowEffect(e, I32(ev.x.x0));
      assert Step(s, ev).tasks[e.current].result >= 0;
    }
    AnswerRead(e, Step(s, ev), -1);
  }

  /** Create makes one task, with nothing in its registers and no result, ready at the end of its list. */
  lemma CreateMakesOne(e: State, ev: Event)
    requires Stopped(e, ev) && ev.Trap? && ev.call == Create
    ensures e.tidCount == TASKS ==> OnlyAnswers(e, Handled(e, ev), -1)
    ensures e.tidCount < TASKS ==>
              var c, t, e' := e.current, e.tidCount, Handled(e, ev);
              && 0 <= c < |e.tasks| == |e'.tasks| == TASKS && c != t && |e.used| == |e'.used| && |e'.readyq| == |e.readyq| == 10
              && var k := e'.tasks[t];
              && k.state == Ready && !k.passResult && k.x == Registers(0, 0, 0, 0, 0)
              && 0 <= k.priority < 10 && 0 <= k.block < |e.used| && !e.used[k.block]
              && e'.tasks == e.tasks[t := k][c := e.tasks[c].(result := t, passResult := true)]
              && e'.readyq == e.readyq[k.priority := e.readyq[k.priority] + [t]]
              && e'.jobq == e.jobq + [t] && e'.used == e.used[k.block := true] && e'.tidCount == t + 1
              && e' == e.(tasks := e'.tasks, readyq := e'.readyq, jobq := e'.jobq, used := e'.used,
                          tidCount := e'.tidCount, poolPtr := e'.poolPtr)
  {
    hide PlacesOk, ReceiversOk, CurrentOk;
    if e.tidCount < TASKS {
      var t := e.tidCount;
      BlockAvailable(e.tasks, e.used, t);
      NobodySendsToDead(e, t);
      assert e.senders[t := []] == e.senders;
    }
  }

  /** Exit ends the task, zeroes and frees its block, and forgets who waited to send to it. */
  lemma ExitLeavesNothing(e: State, ev: Event)
    requires Stopped(e, ev) && ev.Trap? && ev.call == Exit
    ensures var c, e' := e.current, Handled(e, ev);
            && 0 <= c < |e.tasks| == |e'.tasks| == |e.senders| == TASKS
            && 0 <= e.tasks[c].block < |e.used| == |e.memory| == |e'.memory|
            && !Live(e'.tasks, c) && e'.current == NONE && c !in e'.jobq
            && e'.tasks == e.tasks[c := e'.tasks[c]]
            && |e'.memory[e.tasks[c].block]| == BLOCK_SIZE
            && (forall i :: 0 <= i < BLOCK_SIZE ==> e'.memory[e.tasks[c].block][i] == 0)
            && e'.memory == e.memory[e.tasks[c].block := e'.memory[e.tasks[c].block]]
            && e'.used == e.used[e.tasks[c].block := false] && e'.senders == e.senders[c := []]
            && e' == e.(tasks := e'.tasks, current := e'.current, jobq := e'.jobq, memory := e'.memory,
                        used := e'.used, senders := e'.senders)
            && (exists k :: 0 <= k < |e.jobq| && e.jobq[k] == c && e'.jobq == e.jobq[..k] + e.jobq[k + 1..])
  {
    hide BlocksOk, ReceiversOk, CurrentOk;
    assert [e.jobq][0] == e.jobq;
    assert JobHomes(e.tasks)[e.current] == 0;
    var k :| 0 <= k < |e.jobq| && e.jobq[k] == e.current;
    RemovedIsWithout(e.jobq, k);
  }

  /** Yield and exceptions that are no system calls change nothing at all. */
  lemma NothingHappens(e: State, ev: Event)
    requires Stopped(e, ev) && (ev.Unsupported? || (ev.Trap? && ev.call == Yield))
    ensures Handled(e, ev) == e
  {
    hide Inv;
  }

  /** AwaitEvent only blocks, behind those of its priority that wait for the same event already. */
  lemma AwaitOnlyBlocks(e: State, ev: Event)
    requires Stopped(e, ev) && ev.Trap? && ev.call == Await
    ensures 0 <= e.current < |e.tasks|
    ensures var k := e.tasks[e.current];
            var l := 10 * I32(k.x.x0) + k.priority;
            && 0 <= l < |e.irqq|
            && Handled(e, ev) == e.(tasks := e.tasks[e.current := k.(state := AwaitEvent)],
                                    irqq := e.irqq[l := e.irqq[l] + [e.current]])
  {
    hide PlacesOk, BlocksOk, ReceiversOk, CurrentOk;
  }

  predicate AwaitsEvent(e: State, t: int, intid: int) {
    0 <= t < |e.tasks| && e.tasks[t].state == AwaitEvent && I32(e.tasks[t].x.x0) == intid
  }

  /**
   An interrupt readies the task that has waited longest for it among those of the highest priority that
   wait for it, and gives it no result; if nobody waits for it, nothing changes.
   */
  lemma InterruptOnlyWakes(e: State, ev: Event) returns (w: int)
    requires Stopped(e, ev) && ev.Irq?
    ensures w == NONE ==> Handled(e, ev) == e && forall t :: !AwaitsEvent(e, t, ev.intid)
    ensures w != NONE ==>
              && AwaitsEvent(e, w, ev.intid)
              && (forall t :: AwaitsEvent(e, t, ev.intid) ==> e.tasks[t].priority <= e.tasks[w].priority)
              && var p := e.tasks[w].priority;
              var l := 10 * ev.intid + p;
              && 0 <= p < |e.readyq| && 0 <= l < |e.irqq| && e.irqq[l] != [] && e.irqq[l][0] == w
              && Handled(e, ev) == e.(tasks := e.tasks[w := e.tasks[w].(state := Ready)],
                                      irqq := e.irqq[l := e.irqq[l][1..]], readyq := e.readyq[p := e.readyq[p] + [w]])
  {
    hide BlocksOk, ReceiversOk, CurrentOk;
    var intid := ev.intid;
    var top := Top(e.irqq, First(intid), Last(intid));
    forall t | AwaitsEvent(e, t, intid) ensures top != NONE && t in e.irqq[First(intid) + e.tasks[t].priority] {
      assert EventHomes(e.tasks)[t] == First(intid) + e.tasks[t].priority;
    }
    if top == NONE {
      w := NONE;
    } else {
      w := e.irqq[top][0];
      assert EventHomes(e.tasks)[w] == top;
    }
  }

  // ---- Until a task runs again -------------------------------------------------------------------

  /** A task that can run, or waits for an event, is not touched by others but for its state. */
  lemma NotDispatched(s: State, ev: Event, t: int)
    requires Inv(s) && Enabled(s, ev) && 0 <= t < TASKS && s.tasks[t].state in {Ready, Running, AwaitEvent} && Next(s) != t
    ensures var k, k' := s.tasks[t], Step(s, ev).tasks[t];
            && k' == k.(state := k'.state)
            && (k'.state == Ready || (k'.state == AwaitEvent && k.state == AwaitEvent))
    ensures 0 <= s.tasks[t].block < |s.memory| == |Step(s, ev).memory|
    ensures Step(s, ev).memory[s.tasks[t].block] == s.memory[s.tasks[t].block]
  {
    hide PlacesOk, BlocksOk, ReceiversOk, Handled, AtException, Partner;
    var e := AtException(s, ev);
    NextWasReady(s);
    DispatchFrame(s, ev, t);
    PartnerIsBlocked(e, ev);
    StepIsHandled(s, ev);
    StepKeeps(s, ev);
    if t == Partner(e, ev) {
      WokenByInterrupt(e, ev, t);
    } else {
      HandleFrame(e, ev, t);
    }
  }

  lemma WokenByInterrupt(e: State, ev: Event, t: int)
    requires Stopped(e, ev) && 0 <= t < TASKS && t == Partner(e, ev) && e.tasks[t].state == AwaitEvent
    ensures ev.Irq? && |Handled(e, ev).tasks| == TASKS && Handled(e, ev).tasks[t] == e.tasks[t].(state := Ready)
    ensures Handled(e, ev).memory == e.memory
  {
    hide PlacesOk, BlocksOk, ReceiversOk, CurrentOk, SendNow, ReceiveNow, ReplyNow, Top, Popped;
    PartnerOfAwaiter(e, ev, t);
    WaiterIsLive(e, ev.intid);
  }

  lemma PartnerOfAwaiter(e: State, ev: Event, t: int)
    requires Stopped(e, ev) && 0 <= t < TASKS && t == Partner(e, ev) && e.tasks[t].state == AwaitEvent
    ensures ev.Irq?
  {
  }

  /** A ready task is not touched before it is dispatched: not its result, its registers or its memory. */
  lemma ReadyTaskUntouched(s: State, ev: Event, t: int)
    requires Inv(s) && Enabled(s, ev) && 0 <= t < TASKS && s.tasks[t].state == Ready && Next(s) != t
    ensures Step(s, ev).tasks[t] == s.tasks[t]
    ensures Step(s, ev).memory[s.tasks[t].block] == s.memory[s.tasks[t].block]
  {
    hide Inv, Enabled, Step, Next;
    NotDispatched(s, ev, t);
  }

  /** In a run, a task that can run or waits for an event keeps everything but its state until it runs again. */
  lemma {:induction false} UntouchedUntilNext(states: seq<State>, events: seq<Event>, i: int, j: int, t: int)
    requires IsRun(states, events) && 0 <= i <= j < |states| && 0 <= t < TASKS && Inv(states[0])
    requires |states[i].tasks| == TASKS && states[i].tasks[t].state in {Ready, Running, AwaitEvent}
    requires forall n :: i <= n < j ==> Next(PathDispatch(states, events, n)) != t
    ensures Inv(states[j]) && |states[j].tasks| == TASKS && states[j].tasks[t].state in {Ready, Running, AwaitEvent}
    ensures states[j].tasks[t] == states[i].tasks[t].(state := states[j].tasks[t].state)
    ensures 0 <= states[i].tasks[t].block < |states[i].memory| == |states[j].memory|
    ensures states[j].memory[states[i].tasks[t].block] == states[i].memory[states[i].tasks[t].block]
    decreases j
  {
    hide Inv, Initial, StepsTo, Enabled, Step, CanDispatch, Next;
    RunKeepsInvariant(states, events, j);
    InvShape(states[j]);
    RunKeepsInvariant(states, events, i);
    if i == j {
      RunnableHasBlock(states[i], t);
    } else {
      UntouchedUntilNext(states, events, i, j - 1, t);
      var s := PathDispatch(states, events, j - 1);
      NotDispatched(s, events[j - 1], t);
    }
  }

  lemma RunnableHasBlock(s: State, t: int)
    requires Inv(s) && 0 <= t < TASKS && s.tasks[t].state in {Ready, Running, AwaitEvent}
    ensures 0 <= s.tasks[t].block < |s.memory|
  {
  }

  /** The result given to a task that can run, by its own call or by the one that woke it, is in its x0 when it next runs. */
  lemma ResultReachesTask(states: seq<State>, events: seq<Event>, i: int, j: int, t: int)
    requires IsRun(states, events) && 0 <= i <= j < |states| && 0 <= t < TASKS && Inv(states[0])
    requires |states[i].tasks| == TASKS && states[i].tasks[t].state in {Ready, Running} && states[i].tasks[t].passResult
    requires forall n :: i <= n < j ==> Next(PathDispatch(states, events, n)) != t
    ensures Inv(states[j]) && |states[j].tasks| == TASKS
    ensures states[j].tasks[t] == states[i].tasks[t].(state := states[j].tasks[t].state)
    ensures CanDispatch(states[j]) && Next(states[j]) == t ==>
              |Dispatched(states[j]).tasks| == TASKS && Dispatched(states[j]).tasks[t].x.x0 == states[i].tasks[t].result
  {
    hide Inv, Initial, StepsTo, Enabled, Step, CanDispatch, Next, Dispatched;
    UntouchedUntilNext(states, events, i, j, t);
    ActivatedWithResult(states[j], t);
  }

  lemma ActivatedWithResult(s: State, t: int)
    requires Inv(s) && 0 <= t < |s.tasks| && s.tasks[t].passResult
    ensures CanDispatch(s) && Next(s) == t ==>
              |Dispatched(s).tasks| == TASKS && Dispatched(s).tasks[t].x.x0 == s.tasks[t].result
  {
  }

  /** The state before the n-th iteration, which can be dispatched from. */
  ghost function PathDispatch(states: seq<State>, events: seq<Event>, n: int): (s: State)
    requires IsPath(states, events) && Inv(states[0]) && 0 <= n < |events|
    ensures s == states[n] && Inv(s) && CanDispatch(s) && Enabled(s, events[n]) && states[n + 1] == Step(s, events[n])
  {
    PathKeepsInvariant(states, events, n);
    assert StepsTo(states[n], events[n], states[n + 1]);
    states[n]
  }

  // ---- Calls that assign no result -------------------------------------------------------------------

  /** Interrupts, exceptions that are no system calls, Yield and AwaitEvent give the stopped task no result. */
  predicate AssignsNothing(ev: Event) {
    ev.Trap? ==> ev.call in {Yield, Await}
  }

  lemma StoppedRecord(s: State, ev: Event)
    requires Inv(s) && Enabled(s, ev) && AssignsNothing(ev)
    ensures 0 <= Next(s) < TASKS
    ensures var k, k' := s.tasks[Next(s)], Step(s, ev).tasks[Next(s)];
            && k' == k.(state := k'.state, x := ev.x)
            && k'.state == (if ev.Trap? && ev.call == Await then AwaitEvent else Running)
            && Step(s, ev).memory[k.block] == ev.stack
  {
    hide PlacesOk, BlocksOk, ReceiversOk, Top, Popped;
    NextWasReady(s);
    if ev.Irq? {
      WaiterIsLive(AtException(s, ev), ev.intid);
    }
  }

  /**
   Until it is dispatched again, a task stopped by such an exception keeps its record but for its state,
   the registers and the memory it stopped with, and the result it had before.
   */
  lemma StoppedUntilNext(states: seq<State>, events: seq<Event>, i: int, j: int, t: int)
    requires IsRun(states, events) && Inv(states[0]) && 0 <= i < j < |states| && 0 <= t < TASKS
    requires AssignsNothing(events[i]) && Next(PathDispatch(states, events, i)) == t
    requires forall n :: i < n < j ==> Next(PathDispatch(states, events, n)) != t
    ensures |states[i].tasks| == |states[j].tasks| == TASKS && Inv(states[j])
    ensures states[j].tasks[t].state in {Ready, Running, AwaitEvent}
    ensures states[j].tasks[t] == states[i].tasks[t].(x := events[i].x, state := states[j].tasks[t].state)
    ensures 0 <= states[i].tasks[t].block < |states[j].memory|
    ensures states[j].memory[states[i].tasks[t].block] == events[i].stack
  {
    hide Inv, Initial, StepsTo, Enabled, Step, CanDispatch, Next;
    var s := PathDispatch(states, events, i);
    RunKeepsInvariant(states, events, i);
    RunKeepsInvariant(states, events, i + 1);
    InvShape(states[i]);
    InvShape(states[i + 1]);
    StoppedRecord(s, events[i]);
    UntouchedUntilNext(states, events, i + 1, j, t);
  }

  /**
   A task expects its registers back after an interrupt. It gets them exactly when it never had a
   result assigned, or its last one happens to be what x0 held: the result is stored into x0 at every
   activation, not only after a system call that gives one. The same holds after Yield, after an exception
   that is no system call, and after AwaitEvent, whose answer is therefore the last result of an earlier call.
   */
  lemma InterruptKeepsRegisters(states: seq<State>, events: seq<Event>, i: int, j: int, t: int)
    requires IsRun(states, events) && Inv(states[0]) && 0 <= i < j < |events| && 0 <= t < TASKS
    requires AssignsNothing(events[i]) && Next(PathDispatch(states, events, i)) == t
    requires forall n :: i < n < j ==> Next(PathDispatch(states, events, n)) != t
    requires Next(PathDispatch(states, events, j)) == t
    ensures |states[i].tasks| == |Dispatched(PathDispatch(states, events, j)).tasks| == TASKS
    ensures var k, x := states[i].tasks[t], Dispatched(PathDispatch(states, events, j)).tasks[t].x;
            && x == (if k.passResult then events[i].x.(x0 := k.result) else events[i].x)
            && (x == events[i].x <==> !k.passResult || k.result == events[i].x.x0)
  {
    hide Inv, Initial, StepsTo, Enabled, CanDispatch, Next, Dispatched;
    StoppedUntilNext(states, events, i, j, t);
    ActivatedRegisters(PathDispatch(states, events, j));
  }

  lemma ActivatedRegisters(s: State)
    requires Inv(s) && CanDispatch(s)
    ensures 0 <= Next(s) < TASKS && |Dispatched(s).tasks| == |s.tasks| == TASKS
    ensures var k := s.tasks[Next(s)];
            Dispatched(s).tasks[Next(s)].x == if k.passResult then k.x.(x0 := k.result) else k.x
  {
  }

  /** With only the first two tasks created, the first one, of priority 5, is dispatched while it is not blocked. */
  ghost predicate FirstTaskRuns(s: State) {
    && Inv(s) && s.tidCount == 2 && s.tasks[0].priority == INITIAL_PRIORITY && s.tasks[1].priority == 0
    && (s.tasks[0].state == Ready || (s.tasks[0].state == Running && s.current == 0))
  }

  lemma FirstTaskIsNext(s: State)
    requires FirstTaskRuns(s)
    ensures CanDispatch(s) && Next(s) == 0
  {
    hide BlocksOk, ReceiversOk;
    RequeueKeepsReadyFiled(s);
    assert ReadyHomes(Requeued(s).tasks)[0] == INITIAL_PRIORITY;
    assert 0 in Requeued(s).readyq[INITIAL_PRIORITY];
    NextHasHighestPriority(s, 0);
    NextWasReady(s);
  }

  /** A stack for events in which user code does nothing worth noting. */
  function QuietStack(): (stack: seq<Byte>)
    ensures |stack| == BLOCK_SIZE
  {
    ZeroesSize();
    Zeroes()
  }

  lemma FirstTaskGoesOn(s: State, ev: Event)
    requires FirstTaskRuns(s) && ev.stack == QuietStack()
    requires (ev.Trap? && ev.call in {MyTid, Yield}) || (ev.Irq? && ev.intid == 97)
    ensures Enabled(s, ev) && Next(s) == 0 && FirstTaskRuns(Step(s, ev))
    ensures ev.Trap? && ev.call == MyTid ==> Step(s, ev).tasks[0].passResult && Step(s, ev).tasks[0].result == 0
  {
    hide BlocksOk, ReceiversOk, PlacesOk, Top, Popped, QuietStack;
    FirstTaskIsNext(s);
    NextWasReady(s);
    var e := AtException(s, ev);
    if ev.Irq? {
      WaiterIsLive(e, ev.intid);
    }
    if Live(Step(s, ev).tasks, 1) {
      IdentityKept(s, ev, 1);
    }
    TidsAreDense(s, ev);
  }

  /**
   A run in which an interrupt costs a task its x0: the first task asks for its tid, is interrupted
   with 7 in x0, and goes on with 0.
   */
  lemma InterruptLosesX0() returns (states: seq<State>, events: seq<Event>)
    ensures IsRun(states, events) && Inv(states[0]) && |events| == 3 && events[1].Irq? && events[1].x.x0 == 7
    ensures Next(PathDispatch(states, events, 1)) == Next(PathDispatch(states, events, 2)) == 0
    ensures |Dispatched(PathDispatch(states, events, 2)).tasks| == TASKS
    ensures Dispatched(PathDispatch(states, events, 2)).tasks[0].x.x0 == 0
  {
    hide Inv, Initial, Enabled, Step, CanDispatch, Next, Dispatched, QuietStack, FirstTaskRuns;
    var x := Registers(7, 0, 0, 0, 0);
    var tid, irq, yielded := Trap(MyTid, x, QuietStack()), Irq(97, x, QuietStack()), Trap(Yield, x, QuietStack());
    FirstTaskRunsInitially();
    var s0 := Initial();
    FirstTaskGoesOn(s0, tid);
    var s1 := Step(s0, tid);
    FirstTaskGoesOn(s1, irq);
    var s2 := Step(s1, irq);
    FirstTaskGoesOn(s2, yielded);
    states, events := [s0, s1, s2, Step(s2, yielded)], [tid, irq, yielded];
    InitialKeeps();
    StoppedRecord(s1, irq);
    ActivatedRegisters(PathDispatch(states, events, 2));
  }

  lemma FirstTaskRunsInitially()
    ensures FirstTaskRuns(Initial())
  {
    hide PlacesOk, BlocksOk, ReceiversOk;
    InitialKeeps();
  }
}

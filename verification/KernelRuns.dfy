/**
 Properties of all runs of the kernel: where every task is, what schedule returns,
 how long a ready task waits, and which resources can run out.
 */
module KernelRuns {
  import opened CInts
  import opened Filing
  import opened PriorityQueues
  import opened MemoryBlocks
  import opened KernelModel
  import opened KernelInvariant
  import opened KernelSteps

  const INITIAL_PRIORITY: int := 5
  const IDLE: int := 1

  // ---- Runs --------------------------------------------------------------------------------

  /** The state init_kernel leaves behind. */
  function Boot(): (s: State) {
    State(seq(TASKS, t => FRESH_TASK.(next := if t + 1 < TASKS then t + 1 else NONE)), 0, 0, NONE, [],
          seq(PRIORITIES, _ => []), seq(INTERRUPTS * PRIORITIES, _ => []), seq(TASKS, _ => []),
          seq(BLOCKS, _ => false), seq(BLOCKS, _ => Zeroes()))
  }

  lemma BootKeeps()
    ensures Inv(Boot())
  {
    hide Zeroes;
    var s := Boot();
    ZeroesSize();
    assert forall t :: !Live(s.tasks, t);
  }

  lemma ZeroesSize()
    ensures |Zeroes()| == BLOCK_SIZE
  {
  }

  /** init_tasks: the first user task and the idle task. */
  function Initial(): (s: State)
    ensures Inv(s)
  {
    BootKeeps();
    CreateKeeps(Boot(), INITIAL_PRIORITY, -1);
    CreateKeeps(CreateTask(Boot(), INITIAL_PRIORITY, -1), 0, -1);
    CreateTask(CreateTask(Boot(), INITIAL_PRIORITY, -1), 0, -1)
  }

  /** The system starts with two ready tasks: the user's, of priority 5, and the idle one, of priority 0. */
  lemma InitialTasks()
    ensures var s := Initial();
            && |s.tasks| == |s.memory| == TASKS && s.tidCount == 2 && s.current == NONE && s.jobq == [0, 1]
            && s.tasks[0].tid == 0 && s.tasks[0].priority == 5 && s.tasks[1].tid == 1 && s.tasks[1].priority == 0
            && (forall t :: 0 <= t < 2 ==> s.tasks[t].parentTid == -1 && s.tasks[t].state == Ready && !s.tasks[t].passResult)
            && (forall t :: 2 <= t < TASKS ==> !Live(s.tasks, t))
            && (forall b :: 0 <= b < TASKS ==> s.memory[b] == Zeroes())
  {
    hide Zeroes, Inv;
    InitialKeeps();
  }

  /** One iteration leads from s to s'. Step is defined on states with the invariant, which PathKeepsInvariant supplies. */
  ghost predicate StepsTo(s: State, ev: Event, s': State) {
    Inv(s) ==> Enabled(s, ev) && s' == Step(s, ev)
  }

  ghost predicate IsPath(states: seq<State>, events: seq<Event>) {
    && |states| == |events| + 1
    && (forall i :: 0 <= i < |events| ==> StepsTo(states[i], events[i], states[i + 1]))
  }

  ghost predicate IsRun(states: seq<State>, events: seq<Event>) {
    IsPath(states, events) && states[0] == Initial()
  }

  lemma {:induction false} PathKeepsInvariant(states: seq<State>, events: seq<Event>, n: int)
    requires IsPath(states, events) && Inv(states[0]) && 0 <= n < |states|
    ensures Inv(states[n])
  {
    hide Inv, Step, Enabled;
    if n == 0 {
    } else {
      PathKeepsInvariant(states, events, n - 1);
      assert StepsTo(states[n - 1], events[n - 1], states[n]);
      StepKeeps(states[n - 1], events[n - 1]);
    }
  }

  lemma StepKeeps(s: State, ev: Event)
    requires Inv(s) && Enabled(s, ev)
    ensures Inv(Step(s, ev))
  {
  }

  lemma RunKeepsInvariant(states: seq<State>, events: seq<Event>, n: int)
    requires IsRun(states, events) && 0 <= n < |states|
    ensures Inv(states[n])
  {
    hide Inv, Initial, StepsTo;
    InitialKeeps();
    PathKeepsInvariant(states, events, n);
  }

  lemma InitialKeeps()
    ensures Inv(Initial())
  {
  }

  // ---- Where every task is -------------------------------------------------------------------

  function Count(list: seq<int>, t: int): (n: nat) { multiset(list)[t] }

  /**
   In every reachable state a task is exactly where its state says, and nowhere else:
   a READY task once in the list of its priority, a task blocked in AwaitEvent once in the
   list of its event and priority, a sender blocked on a live receiver once in that receiver's
   ring, any other task in no queue; and a RUNNING task is the current one.
   */
  lemma EachTaskInItsPlace(states: seq<State>, events: seq<Event>, n: int, t: int)
    requires IsRun(states, events) && 0 <= n < |states| && 0 <= t < TASKS
    ensures |states[n].tasks| == TASKS
    ensures var s := states[n];
            var k := s.tasks[t];
            && |s.readyq| == PRIORITIES && |s.irqq| == INTERRUPTS * PRIORITIES && |s.senders| == TASKS
            && (forall p :: 0 <= p < PRIORITIES ==>
                  Count(s.readyq[p], t) == if k.state == Ready && k.priority == p then 1 else 0)
            && (forall l :: 0 <= l < INTERRUPTS * PRIORITIES ==>
                  Count(s.irqq[l], t) == if k.state == AwaitEvent && l == 10 * I32(k.x.x0) + k.priority then 1 else 0)
            && (forall r :: 0 <= r < TASKS ==>
                  Count(s.senders[r], t) == if k.state == WaitSend && I32(k.x.x0) == r && Live(s.tasks, r) then 1 else 0)
            && Count(s.jobq, t) == (if Live(s.tasks, t) then 1 else 0)
            && (k.state == Running ==> s.current == t)
  {
    RunKeepsInvariant(states, events, n);
    var s := states[n];
    PlacesCounted(s, t);
  }

  lemma PlacesCounted(s: State, t: int)
    requires Inv(s) && 0 <= t < TASKS
    ensures var k := s.tasks[t];
            && (forall p :: 0 <= p < PRIORITIES ==>
                  Count(s.readyq[p], t) == if k.state == Ready && k.priority == p then 1 else 0)
            && (forall l :: 0 <= l < INTERRUPTS * PRIORITIES ==>
                  Count(s.irqq[l], t) == if k.state == AwaitEvent && l == 10 * I32(k.x.x0) + k.priority then 1 else 0)
            && (forall r :: 0 <= r < TASKS ==>
                  Count(s.senders[r], t) == if k.state == WaitSend && I32(k.x.x0) == r && Live(s.tasks, r) then 1 else 0)
            && Count(s.jobq, t) == (if Live(s.tasks, t) then 1 else 0)
  {
    hide BlocksOk, ReceiversOk, CurrentOk, Filed;
    forall p | 0 <= p < PRIORITIES ensures Count(s.readyq[p], t) == if ReadyHome(s.tasks[t]) == p then 1 else 0 {
      FiledExactlyAt(s.readyq, ReadyHomes(s.tasks), t, p);
    }
    forall l | 0 <= l < INTERRUPTS * PRIORITIES ensures Count(s.irqq[l], t) == if EventHome(s.tasks[t]) == l then 1 else 0 {
      FiledExactlyAt(s.irqq, EventHomes(s.tasks), t, l);
    }
    forall r | 0 <= r < TASKS ensures Count(s.senders[r], t) == if SendHome(s.tasks, s.tasks[t]) == r then 1 else 0 {
      FiledExactlyAt(s.senders, SendHomes(s.tasks), t, r);
    }
    FiledExactlyAt([s.jobq], JobHomes(s.tasks), t, 0);
  }

  // ---- Priorities and waiting --------------------------------------------------------------------

  /** schedule returns the oldest entry of the highest non-empty list: no ready task has a higher priority. */
  lemma NextHasHighestPriority(s: State, t: int)
    requires Inv(s) && CanDispatch(s) && 0 <= t < TASKS
    requires s.tasks[t].state == Ready || (s.tasks[t].state == Running && t == s.current)
    ensures 0 <= Next(s) < |s.tasks| && s.tasks[t].priority <= s.tasks[Next(s)].priority
    ensures |Requeued(s).readyq| == PRIORITIES && 0 <= s.tasks[Next(s)].priority < PRIORITIES
    ensures var list := Requeued(s).readyq[s.tasks[Next(s)].priority]; list != [] && list[0] == Next(s)
  {
    hide BlocksOk, ReceiversOk;
    NextWasReady(s);
    RequeueKeepsReadyFiled(s);
    var q := Requeued(s);
    assert q.tasks[t].state == Ready;
    assert ReadyHomes(q.tasks)[t] == s.tasks[t].priority;
    assert t in q.readyq[s.tasks[t].priority];
  }

  /** The ready lists only grow at their ends while an exception is handled. */
  lemma HandledAppends(e: State, ev: Event, p: int)
    requires Inv(e) && InTask(e) && CallOk(e, ev) && 0 <= p < PRIORITIES
    ensures |Handled(e, ev).readyq| == PRIORITIES
    ensures e.readyq[p] <= Handled(e, ev).readyq[p]
  {
    hide Inv, Handled, CallOk;
    if ev.Trap? && ev.call in {Send, Receive, Reply} {
      DeliveryAppends(e, ev, p);
    } else {
      OtherAppends(e, ev, p);
    }
  }

  lemma DeliveryAppends(e: State, ev: Event, p: int)
    requires Inv(e) && InTask(e) && CallOk(e, ev) && 0 <= p < PRIORITIES && ev.Trap? && ev.call in {Send, Receive, Reply}
    ensures |Handled(e, ev).readyq| == |e.readyq| == PRIORITIES && e.readyq[p] <= Handled(e, ev).readyq[p]
  {
    hide PlacesOk, ReceiversOk, CurrentOk, BlocksOk, Splice, SendNow, ReceiveNow, ReplyNow, Lookup, ArgsOk;
    var target := I32(e.tasks[e.current].x.x0);
    LookupIsSlot(e, target);
    if ev.call == Receive {
      if e.senders[e.current] != [] {
        ReceiveNowEffect(e, e.senders[e.current][0]);
      }
    } else if Live(e.tasks, target) {
      if ev.call == Reply {
        ReplyNowEffect(e, target);
      } else if e.tasks[target].state == WaitReceive {
        SendNowEffect(e, target);
      }
    }
  }

  lemma OtherAppends(e: State, ev: Event, p: int)
    requires Inv(e) && InTask(e) && CallOk(e, ev) && 0 <= p < PRIORITIES
    requires ev.Trap? ==> ev.call !in {Send, Receive, Reply}
    ensures |Handled(e, ev).readyq| == |e.readyq| == PRIORITIES && e.readyq[p] <= Handled(e, ev).readyq[p]
  {
    hide PlacesOk, ReceiversOk, CurrentOk, BlocksOk, Top, Popped, Removed, ArgsOk;
    if ev.Irq? {
      WaiterIsLive(e, ev.intid);
    }
  }

  /** No list above priority p has an entry when schedule pops. */
  predicate NothingAbove(s: State, p: int)
    requires Inv(s) && 0 <= p
  {
    var q := Requeued(s).readyq;
    forall i :: p < i < PRIORITIES && i < |q| ==> q[i] == []
  }

  /** With nothing above it, a ready task moves up one position in an iteration, or is the one dispatched. */
  lemma OnePositionCloser(s: State, ev: Event, p: int, k: int)
    requires Inv(s) && 0 <= p < PRIORITIES && 0 <= k < |s.readyq[p]|
    requires Enabled(s, ev) && NothingAbove(s, p)
    ensures k == 0 ==> Next(s) == s.readyq[p][0]
    ensures |Step(s, ev).readyq| == PRIORITIES
    ensures k > 0 ==> k - 1 < |Step(s, ev).readyq[p]| && Step(s, ev).readyq[p][k - 1] == s.readyq[p][k]
  {
    hide BlocksOk, ReceiversOk, PlacesOk, Handled, UserRan, AtException, CallOk;
    RequeueKeepsReadyFiled(s);
    var q := Requeued(s).readyq;
    assert s.readyq[p] <= q[p];
    assert Top(q, 0, PRIORITIES) == p;
    var e := AtException(s, ev);
    AtExceptionReady(s, ev);
    assert e.readyq[p] == q[p][1..];
    HandledAppends(e, ev, p);
  }

  lemma AtExceptionReady(s: State, ev: Event)
    requires Inv(s) && CanDispatch(s) && |ev.stack| == BLOCK_SIZE
    ensures var q := Requeued(s).readyq; AtException(s, ev).readyq == Popped(q, Top(q, 0, PRIORITIES))
  {
  }

  /**
   Bounded waiting: the task at position k of its list is dispatched by exactly the (k + 1)-th
   schedule from then on, whatever else happens, if no higher list has an entry at those times.
   */
  lemma {:induction false} BoundedWaiting(states: seq<State>, events: seq<Event>, n: int, p: int, k: int, t: int)
    requires IsPath(states, events) && Inv(states[0]) && 0 <= n && n + k < |events|
    requires 0 <= p < PRIORITIES && 0 <= k < |PathState(states, events, n).readyq[p]| && states[n].readyq[p][k] == t
    requires forall i :: n <= i <= n + k ==> NothingAbove(PathState(states, events, i), p)
    ensures CanDispatch(PathState(states, events, n + k)) && Next(PathState(states, events, n + k)) == t
    decreases k
  {
    hide Inv, Step, Enabled, NothingAbove, Next;
    assert StepsTo(states[n], events[n], states[n + 1]);
    var s := PathState(states, events, n);
    assert CanDispatch(s) by { assert Enabled(s, events[n]); EnabledDispatches(s, events[n]); }
    OnePositionCloser(s, events[n], p, k);
    if k == 0 {
    } else {
      var s' := PathState(states, events, n + 1);
      BoundedWaiting(states, events, n + 1, p, k - 1, t);
    }
  }

  lemma EnabledDispatches(s: State, ev: Event)
    requires Inv(s) && Enabled(s, ev)
    ensures CanDispatch(s)
  {
  }

  /** The n-th state of a path, known to keep the invariant. */
  ghost function PathState(states: seq<State>, events: seq<Event>, n: int): (s: State)
    requires IsPath(states, events) && Inv(states[0]) && 0 <= n < |states|
    ensures Inv(s) && s == states[n] && |s.readyq| == PRIORITIES && |s.tasks| == TASKS && |s.senders| == TASKS
  {
    PathKeepsInvariant(states, events, n);
    states[n]
  }

  // ---- The idle task keeps the kernel going -----------------------------------------------------------

  /** Task 1 is ready or running. */
  ghost predicate IdleUp(s: State) {
    IDLE < |s.tasks| && s.tasks[IDLE].tid == IDLE && s.tasks[IDLE].state in {Ready, Running}
  }

  /** While some task can run, schedule finds one. */
  lemma RunnableDispatches(s: State, t: int)
    requires Inv(s) && 0 <= t < TASKS && s.tasks[t].state in {Ready, Running}
    ensures CanDispatch(s)
  {
    hide BlocksOk, ReceiversOk;
    RequeueKeepsReadyFiled(s);
    var q := Requeued(s);
    assert q.tasks[t].state == Ready;
    assert ReadyHomes(q.tasks)[t] == s.tasks[t].priority;
    assert t in q.readyq[s.tasks[t].priority];
  }

  /** If the idle task is only ever stopped by interrupts, no step stops it from being ready or running. */
  lemma IdleStaysUp(s: State, ev: Event)
    requires Inv(s) && IdleUp(s) && Enabled(s, ev)
    requires Next(s) == IDLE ==> ev.Irq?
    ensures IdleUp(Step(s, ev))
  {
    hide BlocksOk, ReceiversOk, PlacesOk, Handled, AtException;
    var e := AtException(s, ev);
    if Next(s) == IDLE {
      IdleInterrupted(e, ev);
    } else {
      DispatchFrame(s, ev, IDLE);
      PartnerIsBlocked(e, ev);
      HandleFrame(e, ev, IDLE);
    }
  }

  lemma IdleInterrupted(e: State, ev: Event)
    requires Inv(e) && InTask(e) && e.current == IDLE && CallOk(e, ev) && ev.Irq?
    ensures IdleUp(Handled(e, ev))
  {
  }

  /** An exception concerns no other task that is ready or running. */
  lemma PartnerIsBlocked(e: State, ev: Event)
    requires Inv(e) && InTask(e) && CallOk(e, ev)
    ensures var p := Partner(e, ev);
            p != NONE ==> 0 <= p < TASKS && p != e.current && e.tasks[p].state !in {Ready, Running}
  {
  }

  /**
   In every run in which the idle task makes no system call, schedule never returns NULL:
   the kernel loop never ends.
   */
  lemma {:induction false} KernelNeverStops(states: seq<State>, events: seq<Event>, n: int)
    requires IsRun(states, events) && 0 <= n < |states|
    requires forall i :: 0 <= i < n ==> Inv(states[i]) && CanDispatch(states[i]) && Next(states[i]) == IDLE ==> events[i].Irq?
    ensures Inv(states[n]) && CanDispatch(states[n]) && IdleUp(states[n])
  {
    hide Inv, Step, Enabled, CanDispatch, Next, IdleUp, Initial;
    RunKeepsInvariant(states, events, n);
    if n == 0 {
      IdleUpInitially();
    } else {
      KernelNeverStops(states, events, n - 1);
      assert StepsTo(states[n - 1], events[n - 1], states[n]);
      IdleStaysUp(states[n - 1], events[n - 1]);
    }
    IdleCanRun(states[n]);
    RunnableDispatches(states[n], IDLE);
  }

  lemma IdleCanRun(s: State)
    requires Inv(s) && IdleUp(s)
    ensures IDLE < |s.tasks| == TASKS && s.tasks[IDLE].state in {Ready, Running}
  {
  }

  lemma IdleUpInitially()
    ensures IdleUp(Initial())
  {
  }

  // ---- Resources -------------------------------------------------------------------------------------------

  /** There are never more jobs than tasks created, and while a task can be created a place on the job list and a block are left. */
  lemma ResourcesSuffice(s: State)
    requires Inv(s)
    ensures |s.jobq| <= s.tidCount <= TASKS
    ensures s.tidCount < TASKS ==> |s.jobq| < TASKS && FirstFree(s.used, 0) != NO_BLOCK
    ensures forall t, u :: Live(s.tasks, t) && Live(s.tasks, u) && t != u ==> s.tasks[t].block != s.tasks[u].block
  {
    hide ReceiversOk, CurrentOk;
    assert [s.jobq][0] == s.jobq;
    Pigeonhole(s.jobq, s.tidCount);
    if s.tidCount < TASKS {
      BlockAvailable(s.tasks, s.used, s.tidCount);
    }
  }

  /** Create answers with the next number until 64 tasks have been created, and with -1 for ever after. */
  lemma TidsAreDense(s: State, ev: Event)
    requires Inv(s) && Enabled(s, ev)
    ensures var creates := ev.Trap? && ev.call == Create && s.tidCount < TASKS;
            Step(s, ev).tidCount == s.tidCount + if creates then 1 else 0
    ensures ev.Trap? && ev.call == Create ==>
              |Step(s, ev).tasks| == TASKS && 0 <= Next(s) < TASKS &&
              Step(s, ev).tasks[Next(s)].result == if s.tidCount < TASKS then s.tidCount else -1
  {
    hide BlocksOk, ReceiversOk, PlacesOk, CurrentOk, SendNow, ReceiveNow, ReplyNow, Top;
    var e := AtException(s, ev);
    DispatchShares(s, ev);
    HandledCounts(e, ev);
  }

  lemma HandledCounts(e: State, ev: Event)
    requires Inv(e) && InTask(e) && CallOk(e, ev)
    ensures Handled(e, ev).tidCount == e.tidCount + if ev.Trap? && ev.call == Create && e.poolPtr != NONE then 1 else 0
  {
    hide PlacesOk, ReceiversOk, CurrentOk, BlocksOk, Top, Popped, Splice, Removed, ArgsOk, Appended;
  }

  // ---- Identity ------------------------------------------------------------------------------------------------

  /** tid, parent, priority and block of a live task never change. */
  ghost predicate SameIdentity(k: Task, k': Task) {
    k'.tid == k.tid && k'.parentTid == k.parentTid && k'.priority == k.priority && k'.block == k.block
  }

  lemma IdentityKept(s: State, ev: Event, t: int)
    requires Inv(s) && Enabled(s, ev) && Live(s.tasks, t) && Live(Step(s, ev).tasks, t)
    ensures SameIdentity(s.tasks[t], Step(s, ev).tasks[t])
  {
    hide PlacesOk, BlocksOk, ReceiversOk, Handled, AtException;
    var e := AtException(s, ev);
    NextWasReady(s);
    DispatchIdentity(s, ev, t);
    HandledIdentity(e, ev, t);
  }

  lemma DispatchIdentity(s: State, ev: Event, t: int)
    requires Inv(s) && CanDispatch(s) && |ev.stack| == BLOCK_SIZE && Live(s.tasks, t)
    ensures |AtException(s, ev).tasks| == TASKS && Live(AtException(s, ev).tasks, t)
    ensures SameIdentity(s.tasks[t], AtException(s, ev).tasks[t])
  {
    hide PlacesOk, BlocksOk, ReceiversOk, Top, Popped;
    NextWasReady(s);
  }

  lemma HandledIdentity(e: State, ev: Event, t: int)
    requires Inv(e) && InTask(e) && CallOk(e, ev) && Live(e.tasks, t) && Live(Handled(e, ev).tasks, t)
    ensures SameIdentity(e.tasks[t], Handled(e, ev).tasks[t])
  {
    hide PlacesOk, BlocksOk, ReceiversOk, CurrentOk, Handled, CallOk, Partner;
    RecordAfter(e, ev, t);
  }

  /** A task created in iteration i: its number, its creator as parent, its priority clamped into 0..9. */
  lemma CreatedTask(s: State, ev: Event)
    requires Inv(s) && Enabled(s, ev) && ev.Trap? && ev.call == Create && s.tidCount < TASKS
    ensures !Live(s.tasks, s.tidCount) && Live(Step(s, ev).tasks, s.tidCount)
    ensures var k, p := Step(s, ev).tasks[s.tidCount], I32(ev.x.x0);
            && k.tid == s.tidCount && k.parentTid == Next(s) && k.state == Ready
            && (if p < 0 then k.priority == 0 else if p > 9 then k.priority == 9 else k.priority == p)
    ensures forall t :: Live(s.tasks, t) ==> Step(s, ev).tasks[s.tidCount].block != s.tasks[t].block
  {
    hide PlacesOk, ReceiversOk, CurrentOk, BlocksOk, Top, Popped, Handled;
    NextWasReady(s);
    DispatchShares(s, ev);
    CreatedFields(AtException(s, ev), ev);
  }

  lemma CreatedFields(e: State, ev: Event)
    requires Inv(e) && InTask(e) && CallOk(e, ev) && ev.Trap? && ev.call == Create && e.tidCount < TASKS
    ensures !Live(e.tasks, e.tidCount) && Live(Handled(e, ev).tasks, e.tidCount)
    ensures var k, p := Handled(e, ev).tasks[e.tidCount], I32(e.tasks[e.current].x.x0);
            && k.tid == e.tidCount && k.parentTid == e.current && k.state == Ready
            && (if p < 0 then k.priority == 0 else if p > 9 then k.priority == 9 else k.priority == p)
    ensures forall t :: Live(e.tasks, t) ==> Handled(e, ev).tasks[e.tidCount].block != e.tasks[t].block
  {
    hide PlacesOk, ReceiversOk, CurrentOk;
    CreateKeeps(e, I32(e.tasks[e.current].x.x0), e.tasks[e.current].tid);
  }

  /** In every run, the parent of a task is the one that called Create for it, for as long as the child lives. */
  lemma {:induction false} ParentIsCreator(states: seq<State>, events: seq<Event>, i: int, j: int)
    requires IsRun(states, events) && Inv(states[0]) && 0 <= i < j < |states|
    requires events[i].Trap? && events[i].call == Create && states[i].tidCount < TASKS
    requires forall n :: i < n <= j ==> Live(states[n].tasks, states[i].tidCount)
    ensures Inv(states[i]) && CanDispatch(states[i]) && Live(states[j].tasks, states[i].tidCount)
    ensures states[j].tasks[states[i].tidCount].parentTid == Next(states[i])
    decreases j
  {
    hide Inv, Initial, StepsTo, Enabled, Step, Next;
    RunKeepsInvariant(states, events, j - 1);
    RunKeepsInvariant(states, events, i);
    assert StepsTo(states[j - 1], events[j - 1], states[j]);
    assert StepsTo(states[i], events[i], states[i + 1]);
    StepsToMeans(states[j - 1], events[j - 1], states[j]);
    StepsToMeans(states[i], events[i], states[i + 1]);
    if j == i + 1 {
      CreatedTask(states[i], events[i]);
    } else {
      ParentIsCreator(states, events, i, j - 1);
      IdentityKept(states[j - 1], events[j - 1], states[i].tidCount);
    }
  }

  lemma StepsToMeans(s: State, ev: Event, s': State)
    requires Inv(s) && StepsTo(s, ev, s')
    ensures Enabled(s, ev) && CanDispatch(s) && s' == Step(s, ev)
  {
  }

  // ---- Interrupts ------------------------------------------------------------------------------------------------

  /**
   An interrupt wakes the longest-waiting task of the highest priority among those that wait for that
   very event, if there is one, and no other task.
   */
  lemma InterruptWakesHighest(e: State, intid: int, t: int)
    requires Inv(e) && InTask(e) && 0 <= intid < KNOWN_INTERRUPTS
    requires 0 <= t < TASKS && e.tasks[t].state == AwaitEvent && I32(e.tasks[t].x.x0) == intid
    ensures Top(e.irqq, First(intid), Last(intid)) != NONE
    ensures var w := e.irqq[Top(e.irqq, First(intid), Last(intid))][0];
            && 0 <= w < TASKS && e.tasks[w].state == AwaitEvent && I32(e.tasks[w].x.x0) == intid
            && e.tasks[t].priority <= e.tasks[w].priority
            && |WakeWaiter(e, intid).tasks| == TASKS && WakeWaiter(e, intid).tasks[w].state == Ready
            && (t != w ==> WakeWaiter(e, intid).tasks[t] == e.tasks[t])
  {
    hide BlocksOk, ReceiversOk, CurrentOk;
    var top := Top(e.irqq, First(intid), Last(intid));
    assert EventHomes(e.tasks)[t] == First(intid) + e.tasks[t].priority;
    assert t in e.irqq[First(intid) + e.tasks[t].priority];
    assert EventHomes(e.tasks)[e.irqq[top][0]] == top;
  }
}

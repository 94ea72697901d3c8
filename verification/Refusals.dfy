/**
 When a Send is refused because the receiver's ring is full: never in a run without sends to
 oneself, never while the idle task only idles, and in one run in which everybody sends to task 0.
 */
module Refusals {
  import opened CInts
  import opened Filing
  import opened KernelModel
  import opened KernelSteps
  import opened KernelRuns
  import opened Rendezvous
  import opened Delivery
  import opened Answers

  // ---- When a Send is refused ----------------------------------------------------------------------------

  /**
   A Send to a live task that is not receiving is refused with -2 exactly when every one of the
   other 63 tasks, the receiver included unless it is the caller, is blocked sending to that receiver.
   */
  lemma RefusedWhenAllOthersWait(e: State, ev: Event, r: int)
    requires Stopped(e, ev) && 0 <= r < TASKS && SendsTo(e, ev, r) && e.tasks[r].state != WaitReceive
    ensures OnlyAnswers(e, Handled(e, ev), -2) <==>
            (forall f :: 0 <= f < TASKS && f != e.current ==> e.tasks[f].state == WaitSend && I32(e.tasks[f].x.x0) == r)
  {
    hide Inv, Handled, CallOk;
    InvShape(e);
    RefusedIffFull(e, ev, r);
    RingOthers(e, r);
    if forall f :: 0 <= f < TASKS && f != e.current ==> e.tasks[f].state == WaitSend && I32(e.tasks[f].x.x0) == r {
      OthersFillRing(e, r);
    }
  }

  lemma OthersFillRing(e: State, r: int)
    requires Inv(e) && InTask(e) && Live(e.tasks, r)
    requires forall f :: 0 <= f < TASKS && f != e.current ==> e.tasks[f].state == WaitSend && I32(e.tasks[f].x.x0) == r
    ensures |e.senders[r]| >= TASKS - 1
  {
    hide BlocksOk, ReceiversOk, CurrentOk;
    var ring := e.senders[r];
    forall f | 0 <= f < TASKS && f != e.current ensures f in ring {
      assert SendHomes(e.tasks)[f] == r;
    }
    assert Range(TASKS) - {e.current} <= Entries(ring);
    RangeSize(TASKS);
    EntriesSize(ring);
    SubsetSize(Range(TASKS) - {e.current}, Entries(ring));
  }

  lemma RefusedIffFull(e: State, ev: Event, r: int)
    requires Stopped(e, ev) && 0 <= r < TASKS && SendsTo(e, ev, r) && e.tasks[r].state != WaitReceive
    ensures OnlyAnswers(e, Handled(e, ev), -2) <==> |e.senders[r]| >= RING_CAPACITY - 1
    ensures NoDuplicates(e.senders[r])
  {
    hide BlocksOk, ReceiversOk, SendNow;
    LookupIsSlot(e, r);
    if |e.senders[r]| < RING_CAPACITY - 1 {
      assert Handled(e, ev).tasks[e.current].state == WaitSend;
    }
  }

  /** The ring never holds the running task, so it holds at most the other 63, and 63 only if all of them. */
  lemma RingOthers(e: State, r: int)
    requires Inv(e) && InTask(e) && 0 <= r < TASKS
    ensures |e.senders[r]| <= TASKS - 1
    ensures |e.senders[r]| == TASKS - 1 ==>
              forall f :: 0 <= f < TASKS && f != e.current ==> e.tasks[f].state == WaitSend && I32(e.tasks[f].x.x0) == r
  {
    hide BlocksOk, ReceiversOk;
    var ring := e.senders[r];
    var all := ring + [e.current];
    forall i | 0 <= i < |ring|
      ensures 0 <= ring[i] < TASKS && ring[i] != e.current && e.tasks[ring[i]].state == WaitSend && I32(e.tasks[ring[i]].x.x0) == r
    {
      RingHoldsSenders(e, r, i);
    }
    assert NoDuplicates(ring);
    assert NoDuplicates(all);
    Pigeonhole(all, TASKS);
    if |ring| == TASKS - 1 {
      forall f | 0 <= f < TASKS && f != e.current
        ensures e.tasks[f].state == WaitSend && I32(e.tasks[f].x.x0) == r
      {
        assert f in all;
        assert f in ring;
      }
    }
  }

  /** Nobody waits to send to itself. */
  ghost predicate NoSelfSender(s: State) {
    forall t :: 0 <= t < |s.tasks| && s.tasks[t].state == WaitSend ==> I32(s.tasks[t].x.x0) != t
  }

  predicate SelfSend(e: State, ev: Event)
    requires InTask(e)
  {
    SendsTo(e, ev, e.current)
  }

  lemma NoSelfSenderKept(s: State, ev: Event)
    requires Inv(s) && Enabled(s, ev) && NoSelfSender(s) && !SelfSend(AtException(s, ev), ev)
    ensures NoSelfSender(AtException(s, ev)) && NoSelfSender(Step(s, ev))
  {
    hide PlacesOk, BlocksOk, ReceiversOk, CurrentOk, Handled, AtException;
    var e := AtException(s, ev);
    NextWasReady(s);
    forall t | 0 <= t < TASKS && e.tasks[t].state == WaitSend ensures I32(e.tasks[t].x.x0) != t {
      DispatchFrame(s, ev, t);
    }
    StepIsHandled(s, ev);
    forall t | 0 <= t < TASKS && Step(s, ev).tasks[t].state == WaitSend ensures I32(Step(s, ev).tasks[t].x.x0) != t {
      NewWaiter(e, ev, t);
    }
  }

  /** A task found waiting in Send either was waiting before, or has just called Send. */
  lemma NewWaiter(e: State, ev: Event, t: int)
    requires Stopped(e, ev) && 0 <= t < TASKS
    ensures |Handled(e, ev).tasks| == TASKS
    ensures var k := Handled(e, ev).tasks[t];
            k.state == WaitSend ==>
              k.x == e.tasks[t].x && (e.tasks[t].state == WaitSend || (t == e.current && SendsTo(e, ev, I32(k.x.x0))))
  {
    hide PlacesOk, BlocksOk, ReceiversOk, CurrentOk, Handled, CallOk, Partner;
    RecordAfter(e, ev, t);
  }

  lemma {:induction false} NoSelfSenderInRun(states: seq<State>, events: seq<Event>, n: int)
    requires IsRun(states, events) && Inv(states[0]) && 0 <= n < |states|
    requires forall i :: 0 <= i < n ==> !SelfSend(PathException(states, events, i), events[i])
    ensures NoSelfSender(states[n])
  {
    hide Inv, Initial, StepsTo, Enabled, Handled, AtException, SelfSend, NoSelfSender;
    if n == 0 {
      NoSelfSenderInitially();
    } else {
      NoSelfSenderInRun(states, events, n - 1);
      var e := PathException(states, events, n - 1);
      StepIsHandled(states[n - 1], events[n - 1]);
      NoSelfSenderKept(states[n - 1], events[n - 1]);
    }
  }

  lemma NoSelfSenderInitially()
    ensures NoSelfSender(Initial())
  {
    hide Inv;
  }

  /** In a run in which no task sends to itself, every Send to a live task is accepted: -2 is never answered. */
  lemma SendNeverRefused(states: seq<State>, events: seq<Event>, n: int, r: int)
    requires IsRun(states, events) && Inv(states[0]) && 0 <= n < |events| && 0 <= r < TASKS
    requires forall i :: 0 <= i <= n ==> !SelfSend(PathException(states, events, i), events[i])
    requires SendsTo(PathException(states, events, n), events[n], r)
    ensures SentTo(PathException(states, events, n), events[n], r) != []
  {
    hide Inv, Initial, StepsTo, Enabled, Handled, AtException;
    NoSelfSenderInRun(states, events, n);
    var e := PathException(states, events, n);
    NoSelfSenderKept(states[n], events[n]);
    RingOthers(e, r);
  }

  // ---- The idle task keeps a place free ------------------------------------------------------------------

  lemma IdleNotBlocked(s: State, ev: Event)
    requires Inv(s) && Enabled(s, ev) && IdleUp(s)
    ensures AtException(s, ev).tasks[IDLE].state in {Ready, Running}
  {
    hide PlacesOk, BlocksOk, ReceiversOk, AtException;
    if Next(s) != IDLE {
      DispatchFrame(s, ev, IDLE);
    }
  }

  /**
   In a run in which the idle task makes no system call, every Send to a live task is accepted, even
   if tasks send to themselves: neither the caller nor the idle task is in the ring.
   */
  lemma IdleKeepsRoom(states: seq<State>, events: seq<Event>, n: int, r: int)
    requires IsRun(states, events) && Inv(states[0]) && 0 <= n < |events| && 0 <= r < TASKS
    requires forall i :: 0 <= i <= n ==> Inv(states[i]) && CanDispatch(states[i]) && Next(states[i]) == IDLE ==> events[i].Irq?
    requires SendsTo(PathException(states, events, n), events[n], r)
    ensures SentTo(PathException(states, events, n), events[n], r) != []
  {
    hide Inv, Initial, StepsTo, Enabled, Handled, AtException, IdleUp, Next;
    KernelNeverStops(states, events, n);
    var e := PathException(states, events, n);
    IdleNotBlocked(states[n], events[n]);
    RingOthers(e, r);
  }

  // ---- A run in which a Send is refused --------------------------------------------------------------------

  /**
   Every task ever created is alive, and can run or is blocked sending to task 0; nobody is blocked
   before all 64 tasks exist.
   */
  ghost predicate Crowd(s: State) {
    && Inv(s) && 0 < s.tidCount <= TASKS
    && (forall t :: 0 <= t < s.tidCount ==> Live(s.tasks, t) && InCrowd(s.tasks[t]))
    && |s.senders[0]| < RING_CAPACITY && (s.tidCount < TASKS ==> s.senders[0] == [])
  }

  predicate InCrowd(k: Task) {
    k.state in {Ready, Running} || (k.state == WaitSend && I32(k.x.x0) == 0)
  }

  /** What the running task does: it creates a task while it can, and sends to task 0 when it cannot. */
  function CrowdEvent(s: State): (ev: Event) {
    Trap(if s.tidCount < TASKS then Create else Send, Registers(0, 0, 0, 0, 0), QuietStack())
  }

  /** How many tasks are still to be created or to block. */
  function Missing(s: State): (n: int)
    requires |s.senders| > 0
  {
    TASKS - s.tidCount + RING_CAPACITY - 1 - |s.senders[0]|
  }

  lemma CrowdDispatches(s: State)
    requires Crowd(s)
    ensures CanDispatch(s)
  {
    hide BlocksOk, ReceiversOk, CurrentOk, CanDispatch;
    if forall t :: 0 <= t < s.tidCount ==> s.tasks[t].state == WaitSend {
      forall t | 0 <= t < s.tidCount ensures t in s.senders[0] {
        assert SendHomes(s.tasks)[t] == 0;
      }
      assert Range(s.tidCount) <= Entries(s.senders[0]);
      RangeSize(s.tidCount);
      EntriesSize(s.senders[0]);
      SubsetSize(Range(s.tidCount), Entries(s.senders[0]));
    } else {
      var t :| 0 <= t < s.tidCount && s.tasks[t].state != WaitSend;
      RunnableDispatches(s, t);
    }
  }

  lemma CrowdAtException(s: State)
    requires Crowd(s)
    ensures Enabled(s, CrowdEvent(s))
    ensures var e := AtException(s, CrowdEvent(s));
            && Crowd(e) && InTask(e) && e.tasks[e.current].x == CrowdEvent(s).x
            && e.tidCount == s.tidCount && e.senders == s.senders
  {
    hide PlacesOk, BlocksOk, ReceiversOk, CurrentOk, AtException, QuietStack;
    CrowdDispatches(s);
    var ev := CrowdEvent(s);
    var e := AtException(s, ev);
    DispatchShares(s, ev);
    StoppedWith(s, ev);
    forall t | 0 <= t < e.tidCount ensures Live(e.tasks, t) && InCrowd(e.tasks[t]) {
      if t != Next(s) {
        DispatchFrame(s, ev, t);
      }
    }
  }

  lemma CrowdCreates(e: State)
    requires Crowd(e) && InTask(e) && e.tidCount < TASKS && Inv(SysCreate(e))
    ensures Crowd(SysCreate(e)) && Missing(SysCreate(e)) == Missing(e) - 1
  {
    hide PlacesOk, BlocksOk, ReceiversOk, CurrentOk, Appended;
  }

  lemma CrowdSends(e: State)
    requires Crowd(e) && InTask(e) && e.tidCount == TASKS && e.tasks[e.current].x == Registers(0, 0, 0, 0, 0)
    requires Inv(SysSend(e))
    ensures |e.senders[0]| < RING_CAPACITY - 1 ==> Crowd(SysSend(e)) && Missing(SysSend(e)) == Missing(e) - 1
    ensures |e.senders[0]| == RING_CAPACITY - 1 ==> OnlyAnswers(e, SysSend(e), -2)
  {
    hide PlacesOk, BlocksOk, ReceiversOk, CurrentOk, SendNow;
    LookupIsSlot(e, 0);
  }

  lemma CrowdStep(s: State)
    requires Crowd(s)
    ensures Enabled(s, CrowdEvent(s))
    ensures Missing(s) >= 0
    ensures Missing(s) > 0 ==> Crowd(Step(s, CrowdEvent(s))) && Missing(Step(s, CrowdEvent(s))) < Missing(s)
    ensures var e := AtException(s, CrowdEvent(s));
            Missing(s) == 0 ==> SendsTo(e, CrowdEvent(s), 0) && OnlyAnswers(e, Step(s, CrowdEvent(s)), -2)
  {
    hide Inv, AtException, SysCreate, SysSend, QuietStack;
    CrowdAtException(s);
    var ev := CrowdEvent(s);
    var e := AtException(s, ev);
    InvShape(s);
    StepIsHandled(s, ev);
    StepKeeps(s, ev);
    if s.tidCount < TASKS {
      CrowdCreates(e);
    } else {
      CrowdSends(e);
    }
  }

  /** From any crowd on there is a path whose last event is a Send to task 0 that is answered with -2. */
  lemma {:induction false} CrowdFillsRing(s: State) returns (states: seq<State>, events: seq<Event>)
    requires Crowd(s) && Inv(s)
    ensures IsPath(states, events) && states[0] == s && events != []
    ensures RefusedAtEnd(states, events)
    decreases Missing(s)
  {
    hide Inv, Crowd, Enabled, Step, CrowdEvent, Missing, IsPath, RefusedAtEnd;
    CrowdStep(s);
    StepKeeps(s, CrowdEvent(s));
    InvShape(s);
    InvShape(Step(s, CrowdEvent(s)));
    var ev := CrowdEvent(s);
    if Missing(s) == 0 {
      states, events := [s, Step(s, ev)], [ev];
      LastRefused(s, ev);
    } else {
      var later, rest := CrowdFillsRing(Step(s, ev));
      Prepended(s, ev, later, rest);
      states, events := [s] + later, [ev] + rest;
    }
  }

  lemma LastRefused(s: State, ev: Event)
    requires Inv(s) && Enabled(s, ev)
    requires var e := AtException(s, ev); SendsTo(e, ev, 0) && OnlyAnswers(e, Step(s, ev), -2)
    ensures IsPath([s, Step(s, ev)], [ev]) && RefusedAtEnd([s, Step(s, ev)], [ev])
  {
    hide Inv, Enabled, Step, AtException, SendsTo;
  }

  lemma Prepended(s: State, ev: Event, states: seq<State>, events: seq<Event>)
    requires Inv(s) && Enabled(s, ev) && IsPath(states, events) && states[0] == Step(s, ev) && Inv(states[0])
    requires events != [] && RefusedAtEnd(states, events)
    ensures IsPath([s] + states, [ev] + events) && RefusedAtEnd([s] + states, [ev] + events)
  {
    hide Inv, Enabled, Step, AtException, SendsTo;
    var states', events' := [s] + states, [ev] + events;
    forall i | 0 <= i < |events'| ensures StepsTo(states'[i], events'[i], states'[i + 1]) {
      if i > 0 {
        assert StepsTo(states[i - 1], events[i - 1], states[i]);
      }
    }
    var n := |events| - 1;
    assert PathException(states', events', n + 1) == PathException(states, events, n);
  }

  /** The last event is a Send to task 0 that is refused. */
  ghost predicate RefusedAtEnd(states: seq<State>, events: seq<Event>)
    requires IsPath(states, events) && Inv(states[0]) && events != []
  {
    var n := |events| - 1;
    var e := PathException(states, events, n);
    SendsTo(e, events[n], 0) && OnlyAnswers(e, states[n + 1], -2)
  }

  /**
   A run from boot in which a Send to a live task is refused with -2: all 64 tasks are created, and
   then all of them, task 0 and the idle task included, send to task 0.
   */
  lemma SendIsRefused() returns (states: seq<State>, events: seq<Event>)
    ensures IsRun(states, events) && Inv(states[0]) && events != [] && RefusedAtEnd(states, events)
  {
    hide Inv, Crowd, RefusedAtEnd;
    CrowdInitially();
    InitialKeeps();
    states, events := CrowdFillsRing(Initial());
  }

  lemma CrowdInitially()
    ensures Crowd(Initial())
  {
    hide PlacesOk, BlocksOk, ReceiversOk, CurrentOk;
    InitialKeeps();
  }
}

/**
 Message passing over whole runs: what is sent, in which order it arrives, what the
 receiver finds in its memory, and how long the sender stays blocked.
 */
module Rendezvous {
  import opened CInts
  import opened PriorityQueues
  import opened MemoryBlocks
  import opened KernelModel
  import opened KernelInvariant
  import opened KernelSteps
  import opened KernelRuns

  datatype Message = Message(from: int, to: int, bytes: seq<Byte>)

  /** The arguments and the memory of a task that is sending. */
  ghost predicate Sending(s: State, f: int) {
    HasBlock(s, f) && SendArgsOk(s.tasks[f].x)
  }

  /** The message a sending task holds in its buffer. */
  function MessageOf(s: State, f: int): (m: Message)
    requires Sending(s, f)
  {
    var x := s.tasks[f].x;
    Message(f, I32(x.x0), ReadMemory(s, f, x.x1, I32(x.x2)))
  }

  function Messages(s: State, ring: seq<int>): (r: seq<Message>)
    requires forall i :: 0 <= i < |ring| ==> Sending(s, ring[i])
  {
    seq(|ring|, i requires 0 <= i < |ring| => MessageOf(s, ring[i]))
  }

  lemma RingIsSending(s: State, t: int)
    requires Inv(s) && 0 <= t < TASKS
    ensures forall i :: 0 <= i < |s.senders[t]| ==> Sending(s, s.senders[t][i]) && s.tasks[s.senders[t][i]].state == WaitSend
  {
  }

  /** The messages sent to t and not yet received. */
  function Pending(s: State, t: int): (r: seq<Message>)
    requires Inv(s) && 0 <= t < TASKS
  {
    RingIsSending(s, t);
    Messages(s, s.senders[t])
  }

  ghost predicate Stopped(e: State, ev: Event) {
    Inv(e) && InTask(e) && CallOk(e, ev)
  }

  lemma CurrentIsSending(e: State, ev: Event)
    requires Stopped(e, ev) && ev.Trap? && ev.call == Send
    ensures Sending(e, e.current)
  {
  }

  /** The task running in e sends to t. */
  predicate SendsTo(e: State, ev: Event, t: int)
    requires InTask(e)
  {
    ev.Trap? && ev.call == Send && I32(e.tasks[e.current].x.x0) == t && Live(e.tasks, t)
  }

  /** The message to t that this exception hands to the kernel, if it does. */
  function SentTo(e: State, ev: Event, t: int): (r: seq<Message>)
    requires Stopped(e, ev) && 0 <= t < TASKS
  {
    if SendsTo(e, ev, t) && (e.tasks[t].state == WaitReceive || |e.senders[t]| < RING_CAPACITY - 1) then
      CurrentIsSending(e, ev);
      [MessageOf(e, e.current)]
    else []
  }

  /** The message that reaches t through this exception, if one does. */
  function TakenBy(e: State, ev: Event, t: int): (r: seq<Message>)
    requires Stopped(e, ev) && 0 <= t < TASKS
  {
    RingIsSending(e, t);
    if SendsTo(e, ev, t) && e.tasks[t].state == WaitReceive then
      CurrentIsSending(e, ev);
      [MessageOf(e, e.current)]
    else if ev.Trap? && ev.call == Receive && e.current == t && e.senders[t] != [] then
      [MessageOf(e, e.senders[t][0])]
    else []
  }

  // ---- The rings ------------------------------------------------------------------------------

  predicate Queues(e: State, ev: Event, t: int)
    requires InTask(e) && |e.senders| == |e.tasks|
  {
    SendsTo(e, ev, t) && e.tasks[t].state != WaitReceive && |e.senders[t]| < RING_CAPACITY - 1
  }

  predicate Takes(e: State, ev: Event, t: int)
    requires 0 <= t < |e.senders|
  {
    ev.Trap? && ev.call == Receive && e.current == t && e.senders[t] != []
  }

  predicate Exits(e: State, ev: Event, t: int) {
    ev.Trap? && ev.call == Exit && e.current == t
  }

  /** What one exception does to the ring of t. */
  lemma RingAfter(e: State, ev: Event, t: int)
    requires Stopped(e, ev) && 0 <= t < TASKS
    ensures |Handled(e, ev).senders| == TASKS
    ensures Handled(e, ev).senders[t] ==
            if Queues(e, ev, t) then e.senders[t] + [e.current]
            else if Takes(e, ev, t) then e.senders[t][1..]
            else if Exits(e, ev, t) then []
            else e.senders[t]
  {
    hide Inv, Handled, CallOk;
    if ev.Trap? && ev.call == Send {
      RingAfterSend(e, ev, t);
    } else if ev.Trap? && ev.call == Receive {
      RingAfterReceive(e, ev, t);
    } else {
      RingAfterOther(e, ev, t);
    }
  }

  lemma RingAfterSend(e: State, ev: Event, t: int)
    requires Stopped(e, ev) && 0 <= t < TASKS && ev.Trap? && ev.call == Send
    ensures |Handled(e, ev).senders| == |e.senders| == |e.tasks| == TASKS
    ensures Handled(e, ev).senders[t] == if Queues(e, ev, t) then e.senders[t] + [e.current] else e.senders[t]
  {
    hide PlacesOk, ReceiversOk, BlocksOk, CurrentOk, Splice, SendNow, Lookup;
    var target := I32(e.tasks[e.current].x.x0);
    LookupIsSlot(e, target);
    if Live(e.tasks, target) && e.tasks[target].state == WaitReceive {
      SendNowEffect(e, target);
    }
  }

  lemma RingAfterReceive(e: State, ev: Event, t: int)
    requires Stopped(e, ev) && 0 <= t < TASKS && ev.Trap? && ev.call == Receive
    ensures |Handled(e, ev).senders| == |e.senders| == |e.tasks| == TASKS
    ensures Handled(e, ev).senders[t] == if Takes(e, ev, t) then e.senders[t][1..] else e.senders[t]
  {
    hide PlacesOk, ReceiversOk, BlocksOk, CurrentOk, Splice, ReceiveNow, Lookup;
    if e.senders[e.current] != [] {
      ReceiveNowEffect(e, e.senders[e.current][0]);
    }
  }

  lemma RingAfterOther(e: State, ev: Event, t: int)
    requires Stopped(e, ev) && 0 <= t < TASKS && (ev.Trap? ==> ev.call != Send && ev.call != Receive)
    ensures |Handled(e, ev).senders| == |e.senders| == |e.tasks| == TASKS
    ensures Handled(e, ev).senders[t] == if Exits(e, ev, t) then [] else e.senders[t]
  {
    hide PlacesOk, ReceiversOk, BlocksOk, CurrentOk, Top, Splice, ReplyNow, Removed, Lookup, ArgsOk;
    var target := I32(e.tasks[e.current].x.x0);
    LookupIsSlot(e, target);
    match ev
    case Trap(Create, _, _) =>
      if e.poolPtr == t {
        NobodySendsToDead(e, t);
      }
    case Trap(Reply, _, _) =>
      if Live(e.tasks, target) {
        ReplyNowEffect(e, target);
      }
    case Irq(intid, _, _) =>
      WaiterIsLive(e, intid);
    case _ =>
  }

  /** A sender that waits in a ring keeps its arguments and its message, unless it is the one taken. */
  lemma SenderUntouched(e: State, ev: Event, f: int)
    requires Stopped(e, ev) && 0 <= f < TASKS && e.tasks[f].state == WaitSend && f != Partner(e, ev)
    ensures Sending(e, f) && Sending(Handled(e, ev), f)
    ensures MessageOf(Handled(e, ev), f) == MessageOf(e, f)
    ensures Handled(e, ev).tasks[f] == e.tasks[f]
  {
    hide PlacesOk, ReceiversOk, BlocksOk, Handled, Partner, CallOk;
    HandleFrame(e, ev, f);
    LiveHasBlock(e, f);
  }

  lemma MessagesAgree(s: State, s': State, ring: seq<int>)
    requires forall i :: 0 <= i < |ring| ==> Sending(s, ring[i])
    requires forall i :: 0 <= i < |ring| ==> Sending(s', ring[i]) && MessageOf(s', ring[i]) == MessageOf(s, ring[i])
    ensures Messages(s', ring) == Messages(s, ring)
  {
  }

  /** The only partner found in a ring is the sender its owner takes. */
  lemma PartnerInRing(e: State, ev: Event, t: int, i: int)
    requires Stopped(e, ev) && 0 <= t < TASKS && 0 <= i < |e.senders[t]|
    requires e.senders[t][i] == Partner(e, ev)
    ensures Takes(e, ev, t) && i == 0
  {
  }

  /** One exception: what t takes followed by what is left equals what was pending followed by what was sent. */
  lemma HandledFifo(e: State, ev: Event, t: int)
    requires Stopped(e, ev) && 0 <= t < TASKS && Inv(Handled(e, ev))
    requires !Exits(e, ev, t)
    ensures TakenBy(e, ev, t) + Pending(Handled(e, ev), t) == Pending(e, t) + SentTo(e, ev, t)
  {
    hide Inv, Handled, Partner, CallOk, MessageOf, Sending;
    var s' := Handled(e, ev);
    InvShape(e);
    InvShape(s');
    NobodySendsToReceiver(e, t);
    var ring := e.senders[t];
    RingIsSending(e, t);
    RingIsSending(s', t);
    RingAfter(e, ev, t);
    var kept := if Takes(e, ev, t) then ring[1..] else ring;
    forall i | 0 <= i < |kept|
      ensures Sending(e, kept[i]) && Sending(s', kept[i]) && MessageOf(s', kept[i]) == MessageOf(e, kept[i])
    {
      KeptSender(e, ev, t, if Takes(e, ev, t) then i + 1 else i);
    }
    MessagesAgree(e, s', kept);
    if Takes(e, ev, t) {
      assert Messages(e, ring) == [MessageOf(e, ring[0])] + Messages(e, kept);
    } else if Queues(e, ev, t) {
      CurrentIsSending(e, ev);
      QueuedMessage(e, ev, t);
      assert Messages(s', ring + [e.current]) == Messages(s', ring) + [MessageOf(s', e.current)];
    } else if SendsTo(e, ev, t) && e.tasks[t].state == WaitReceive {
      assert ring == [];
    }
  }

  lemma NobodySendsToReceiver(s: State, t: int)
    requires Inv(s) && 0 <= t < TASKS
    ensures s.tasks[t].state == WaitReceive ==> s.senders[t] == []
  {
  }

  lemma KeptSender(e: State, ev: Event, t: int, i: int)
    requires Stopped(e, ev) && 0 <= t < TASKS && 0 <= i < |e.senders[t]| && (Takes(e, ev, t) ==> i > 0)
    ensures var f := e.senders[t][i];
            Sending(e, f) && Sending(Handled(e, ev), f) && MessageOf(Handled(e, ev), f) == MessageOf(e, f)
  {
    hide Inv, Handled, Partner, CallOk, MessageOf, Sending;
    InvShape(e);
    var f := e.senders[t][i];
    RingHoldsSenders(e, t, i);
    if f == Partner(e, ev) {
      PartnerInRing(e, ev, t, i);
    }
    SenderUntouched(e, ev, f);
  }

  lemma InvShape(s: State)
    requires Inv(s)
    ensures |s.tasks| == TASKS && |s.senders| == TASKS && |s.readyq| == PRIORITIES
  {
  }

  /** Queueing up changes neither the arguments nor the memory of the sender. */
  lemma QueuedMessage(e: State, ev: Event, t: int)
    requires Stopped(e, ev) && 0 <= t < TASKS && Queues(e, ev, t) && Sending(e, e.current)
    ensures Sending(Handled(e, ev), e.current) && MessageOf(Handled(e, ev), e.current) == MessageOf(e, e.current)
  {
    hide PlacesOk, BlocksOk, ReceiversOk, CurrentOk;
    LookupIsSlot(e, t);
  }

  /** Scheduling and user code disturb no pending message: senders are blocked and blocks are disjoint. */
  lemma DispatchKeepsPending(s: State, ev: Event, t: int)
    requires Inv(s) && CanDispatch(s) && |ev.stack| == BLOCK_SIZE && 0 <= t < TASKS
    ensures Pending(AtException(s, ev), t) == Pending(s, t)
  {
    hide PlacesOk, BlocksOk, ReceiversOk, AtException, CurrentOk;
    var e := AtException(s, ev);
    DispatchShares(s, ev);
    RingIsSending(s, t);
    RingIsSending(e, t);
    NextWasReady(s);
    forall i | 0 <= i < |s.senders[t]|
      ensures MessageOf(e, s.senders[t][i]) == MessageOf(s, s.senders[t][i])
    {
      RingHoldsSenders(s, t, i);
      DispatchFrame(s, ev, s.senders[t][i]);
    }
    MessagesAgree(s, e, s.senders[t]);
  }

  // ---- First come, first served, exactly once ------------------------------------------------------------

  /** The state in which the n-th exception of a path finds the machine. */
  ghost function PathException(states: seq<State>, events: seq<Event>, n: int): (e: State)
    requires IsPath(states, events) && Inv(states[0]) && 0 <= n < |events|
    ensures Stopped(e, events[n]) && states[n + 1] == Handled(e, events[n])
    ensures Inv(states[n]) && Enabled(states[n], events[n]) && CanDispatch(states[n])
    ensures |events[n].stack| == BLOCK_SIZE && e == AtException(states[n], events[n])
    ensures |e.tasks| == TASKS && |e.senders| == TASKS && |states[n].tasks| == TASKS
  {
    PathKeepsInvariant(states, events, n);
    assert StepsTo(states[n], events[n], states[n + 1]);
    AtException(states[n], events[n])
  }

  /** Everything sent to t in the first n iterations, in order. */
  ghost function SentLog(states: seq<State>, events: seq<Event>, n: int, t: int): (r: seq<Message>)
    requires IsPath(states, events) && Inv(states[0]) && 0 <= n < |states| && 0 <= t < TASKS
  {
    if n == 0 then []
    else SentLog(states, events, n - 1, t) + SentTo(PathException(states, events, n - 1), events[n - 1], t)
  }

  /** Everything t received in the first n iterations, in order. */
  ghost function TakenLog(states: seq<State>, events: seq<Event>, n: int, t: int): (r: seq<Message>)
    requires IsPath(states, events) && Inv(states[0]) && 0 <= n < |states| && 0 <= t < TASKS
  {
    if n == 0 then []
    else TakenLog(states, events, n - 1, t) + TakenBy(PathException(states, events, n - 1), events[n - 1], t)
  }

  /** t has not been created yet or is still alive. */
  predicate NotExited(s: State, t: int) {
    Live(s.tasks, t) || t >= s.tidCount
  }

  lemma ExitIsFinal(s: State, ev: Event, t: int)
    requires Inv(s) && Enabled(s, ev) && 0 <= t < TASKS && NotExited(Step(s, ev), t)
    ensures NotExited(s, t)
    ensures !Exits(AtException(s, ev), ev, t)
  {
    hide PlacesOk, BlocksOk, ReceiversOk, CurrentOk, AtException, SendNow, ReceiveNow, ReplyNow;
    var e := AtException(s, ev);
    DispatchShares(s, ev);
    TidsAreDense(s, ev);
    if !Live(s.tasks, t) && t < s.tidCount {
      DeadStaysDead(e, ev, t);
    }
  }

  lemma DeadStaysDead(e: State, ev: Event, t: int)
    requires Stopped(e, ev) && 0 <= t < e.tidCount && !Live(e.tasks, t)
    ensures !Live(Handled(e, ev).tasks, t)
  {
    hide PlacesOk, BlocksOk, ReceiversOk, CurrentOk, Handled, SendArgsOk;
    PartnerIsBlocked(e, ev);
    PartnerOfDead(e, ev, t);
    HandleFrame(e, ev, t);
  }

  lemma PartnerOfDead(e: State, ev: Event, t: int)
    requires Stopped(e, ev) && 0 <= t < e.tidCount && !Live(e.tasks, t)
    ensures Partner(e, ev) != t
  {
  }

  /**
   In every run, for every task that has not exited: what it has received, followed by what
   still waits in its ring, is exactly what was sent to it, in the order it was sent, with the
   bytes the sender's buffer held at the time of the Send.
   */
  lemma {:induction false} ReceivedInOrderSent(states: seq<State>, events: seq<Event>, n: int, t: int)
    requires IsRun(states, events) && 0 <= n < |states| && 0 <= t < TASKS
    requires NotExited(states[n], t)
    ensures Inv(states[0]) && Inv(states[n])
    ensures TakenLog(states, events, n, t) + Pending(states[n], t) == SentLog(states, events, n, t)
  {
    hide Inv, Initial, StepsTo, SentTo, TakenBy, Enabled, Handled, AtException, Pending;
    InitialKeeps();
    RunKeepsInvariant(states, events, n);
    if n == 0 {
      NothingPendingInitially(t);
    } else {
      var ev := events[n - 1];
      var e := PathException(states, events, n - 1);
      OneStepFifo(states[n - 1], ev, t, states[n]);
      ReceivedInOrderSent(states, events, n - 1, t);
      var taken, pending := TakenLog(states, events, n - 1, t), Pending(states[n - 1], t);
      calc {
        TakenLog(states, events, n, t) + Pending(states[n], t);
        taken + TakenBy(e, ev, t) + Pending(states[n], t);
        { AppendAssociates(taken, TakenBy(e, ev, t), Pending(states[n], t)); }
        taken + (pending + SentTo(e, ev, t));
        { AppendAssociates(taken, pending, SentTo(e, ev, t)); }
        SentLog(states, events, n, t);
      }
    }
  }

  lemma AppendAssociates(a: seq<Message>, b: seq<Message>, c: seq<Message>)
    ensures a + b + c == a + (b + c)
  {
  }

  lemma OneStepFifo(s: State, ev: Event, t: int, s': State)
    requires Inv(s) && Enabled(s, ev) && s' == Handled(AtException(s, ev), ev) && Inv(s')
    requires 0 <= t < TASKS && NotExited(s', t)
    ensures NotExited(s, t)
    ensures TakenBy(AtException(s, ev), ev, t) + Pending(s', t) == Pending(s, t) + SentTo(AtException(s, ev), ev, t)
  {
    hide Inv, SentTo, TakenBy, Handled, AtException, Pending, CallOk;
    DispatchKeepsPending(s, ev, t);
    ExitIsFinal(s, ev, t);
    HandledFifo(AtException(s, ev), ev, t);
  }

  lemma NothingPendingInitially(t: int)
    requires 0 <= t < TASKS
    ensures Inv(Initial()) && Pending(Initial(), t) == []
  {
    hide PlacesOk, BlocksOk, ReceiversOk, CurrentOk, TasksOk;
  }
}

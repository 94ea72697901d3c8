/**
 What a delivery leaves in the receiver's memory, that the order of Send and Receive makes no
 difference to it, and how long a blocked task stays as it was left.
 */
module Delivery {
  import opened CInts
  import opened Filing
  import opened PriorityQueues
  import opened MemoryBlocks
  import opened KernelModel
  import opened KernelInvariant
  import opened KernelSteps
  import opened KernelRuns
  import opened Rendezvous

  // ---- The effect of a delivery -----------------------------------------------------------------

  /** The receiver's memory after message m arrives under the Receive arguments x. */
  function Arrived(memory: seq<Byte>, x: Registers, m: Message): (r: seq<Byte>)
    requires |memory| == BLOCK_SIZE && ReceiveArgsOk(x)
  {
    Splice(Splice(memory, x.x0, IntBytes(m.from)), x.x1, m.bytes[..Min(|m.bytes|, I32(x.x2))])
  }

  /**
   The receiver finds the first min(sent, buffer) bytes of the message in its buffer and, if the
   two do not overlap, the sender's tid in its tid cell; nothing else in its memory changes.
   */
  lemma ArrivedContents(memory: seq<Byte>, x: Registers, m: Message)
    requires |memory| == BLOCK_SIZE && ReceiveArgsOk(x) && 0 <= m.from < TASKS
    ensures var n := Min(|m.bytes|, I32(x.x2));
            var r := Arrived(memory, x, m);
            && |r| == |memory|
            && r[x.x1..x.x1 + n] == m.bytes[..n]
            && (x.x0 + 4 <= x.x1 || x.x1 + n <= x.x0 ==> U32At(r, x.x0) == m.from)
            && (forall i :: 0 <= i < |r| && !(x.x0 <= i < x.x0 + 4) && !(x.x1 <= i < x.x1 + n) ==> r[i] == memory[i])
  {
    hide IntBytes, U32At;
    var n := Min(|m.bytes|, I32(x.x2));
    var told := Splice(memory, x.x0, IntBytes(m.from));
    var r := Arrived(memory, x, m);
    SpliceElsewhere(memory, x.x0, IntBytes(m.from));
    SpliceElsewhere(told, x.x1, m.bytes[..n]);
    if x.x0 + 4 <= x.x1 || x.x1 + n <= x.x0 {
      assert r[x.x0..x.x0 + 4] == told[x.x0..x.x0 + 4];
      ReadBack(r, x.x0, m.from);
    }
  }

  lemma SpliceElsewhere(data: seq<Byte>, at: int, bytes: seq<Byte>)
    requires 0 <= at && at + |bytes| <= |data|
    ensures forall i :: 0 <= i < |data| && !(at <= i < at + |bytes|) ==> Splice(data, at, bytes)[i] == data[i]
  {
  }

  /** Whichever side came first, a delivery does the same to both: only the receiver's state tells the orders apart. */
  lemma DeliveryEffect(e: State, ev: Event, t: int)
    requires Stopped(e, ev) && 0 <= t < TASKS && TakenBy(e, ev, t) != []
    ensures var m, k, s' := TakenBy(e, ev, t)[0], e.tasks[t], Handled(e, ev);
            var n := Min(|m.bytes|, I32(k.x.x2));
            && |s'.tasks| == TASKS && |s'.memory| == |e.memory| == BLOCKS
            && HasBlock(e, t) && ReceiveArgsOk(k.x)
            && 0 <= m.from < TASKS && m.from != t && m.to == t
            && s'.tasks[t] == k.(result := n, passResult := true, state := if ev.call == Send then Ready else Running)
            && s'.tasks[m.from] == e.tasks[m.from].(state := WaitReply)
            && s'.memory == e.memory[k.block := Arrived(e.memory[k.block], k.x, m)] && e.tasks[m.from].block != k.block
  {
    hide Inv, Arrived, Handled, CallOk;
    if ev.call == Send {
      SendDelivers(e, ev, t);
    } else {
      ReceiveDelivers(e, ev, t);
    }
  }

  lemma SendDelivers(e: State, ev: Event, t: int)
    requires Stopped(e, ev) && 0 <= t < TASKS && SendsTo(e, ev, t) && e.tasks[t].state == WaitReceive
    ensures TakenBy(e, ev, t) != []
    ensures var m, k, s' := TakenBy(e, ev, t)[0], e.tasks[t], Handled(e, ev);
            var n := Min(|m.bytes|, I32(k.x.x2));
            && |s'.tasks| == TASKS && |s'.memory| == |e.memory| == BLOCKS && HasBlock(e, t) && ReceiveArgsOk(k.x)
            && 0 <= m.from < TASKS && m.from == e.current && m.from != t && m.to == t
            && s'.tasks[t] == k.(result := n, passResult := true, state := Ready)
            && s'.tasks[m.from] == e.tasks[m.from].(state := WaitReply)
            && s'.memory == e.memory[k.block := Arrived(e.memory[k.block], k.x, m)] && e.tasks[m.from].block != k.block
  {
    hide PlacesOk, BlocksOk, ReceiversOk, Splice, IntBytes, Lookup, SendNow;
    LookupIsSlot(e, t);
    LiveHasBlock(e, e.current);
    LiveHasBlock(e, t);
    SendNowEffect(e, t);
    Prefix(e.memory[e.tasks[e.current].block], e.tasks[e.current].x, I32(e.tasks[t].x.x2));
  }

  lemma ReceiveDelivers(e: State, ev: Event, t: int)
    requires Stopped(e, ev) && 0 <= t < TASKS && Takes(e, ev, t)
    ensures TakenBy(e, ev, t) != []
    ensures var m, k, s' := TakenBy(e, ev, t)[0], e.tasks[t], Handled(e, ev);
            var n := Min(|m.bytes|, I32(k.x.x2));
            && |s'.tasks| == TASKS && |s'.memory| == |e.memory| == BLOCKS && HasBlock(e, t) && ReceiveArgsOk(k.x)
            && 0 <= m.from < TASKS && m.from != t && m.to == t
            && s'.tasks[t] == k.(result := n, passResult := true, state := Running)
            && s'.tasks[m.from] == e.tasks[m.from].(state := WaitReply)
            && s'.memory == e.memory[k.block := Arrived(e.memory[k.block], k.x, m)] && e.tasks[m.from].block != k.block
  {
    hide PlacesOk, BlocksOk, ReceiversOk, Splice, IntBytes, Lookup, ReceiveNow;
    var f := e.senders[t][0];
    LiveHasBlock(e, t);
    RingHoldsSenders(e, t, 0);
    ReceiveNowEffect(e, f);
    LiveHasBlock(e, f);
    Prefix(e.memory[e.tasks[f].block], e.tasks[f].x, I32(e.tasks[t].x.x2));
  }

  lemma Prefix(memory: seq<Byte>, x: Registers, limit: int)
    requires |memory| == BLOCK_SIZE && SendArgsOk(x) && 0 <= limit
    ensures var n := Min(I32(x.x2), limit);
            var bytes := memory[x.x1..x.x1 + I32(x.x2)];
            |bytes| == I32(x.x2) && bytes[..n] == memory[x.x1..x.x1 + n]
  {
  }

  /** In iteration i somebody queues up in r's empty ring. */
  ghost predicate QueuesFirst(states: seq<State>, events: seq<Event>, i: int, r: int)
    requires IsPath(states, events) && Inv(states[0]) && 0 <= i < |events|
  {
    var e := PathException(states, events, i);
    0 <= r < TASKS && Queues(e, events[i], r) && e.senders[r] == []
  }

  /** The message sent in iteration i. */
  ghost function SentIn(states: seq<State>, events: seq<Event>, i: int): (m: Message)
    requires IsPath(states, events) && Inv(states[0]) && 0 <= i < |events| && events[i].Trap? && events[i].call == Send
  {
    var e := PathException(states, events, i);
    CurrentIsSending(e, events[i]);
    MessageOf(e, e.current)
  }

  ghost predicate LeavesWaiting(states: seq<State>, events: seq<Event>, n: int, r: int)
    requires IsPath(states, events) && Inv(states[0]) && 0 <= n < |events| && 0 <= r < TASKS
  {
    var e := PathException(states, events, n);
    !Takes(e, events[n], r) && !Exits(e, events[n], r)
  }

  ghost predicate FirstPending(s: State, r: int, m: Message)
    requires Inv(s) && 0 <= r < TASKS
  {
    Pending(s, r) != [] && Pending(s, r)[0] == m
  }

  /** If r takes a message in iteration n, it is this one. */
  ghost predicate TakesOnly(states: seq<State>, events: seq<Event>, n: int, r: int, m: Message)
    requires IsPath(states, events) && Inv(states[0]) && 0 <= n < |events| && 0 <= r < TASKS
  {
    var e := PathException(states, events, n);
    Takes(e, events[n], r) ==> TakenBy(e, events[n], r) == [m]
  }

  /**
   Send first: a message queued in an empty ring is the one taken by the receiver's next Receive,
   unchanged, whatever happens in between.
   */
  lemma {:induction false} QueuedMessageIsNext(states: seq<State>, events: seq<Event>, i: int, j: int, r: int)
    requires IsRun(states, events) && Inv(states[0]) && 0 <= i < j <= |events| && QueuesFirst(states, events, i, r)
    requires forall n :: i < n < j ==> LeavesWaiting(states, events, n, r)
    ensures Inv(states[j]) && Live(states[j].tasks, r)
    ensures FirstPending(states[j], r, SentIn(states, events, i))
    ensures j < |events| ==> TakesOnly(states, events, j, r, SentIn(states, events, i))
    decreases j
  {
    hide Inv, Initial, StepsTo, Enabled, Handled, AtException, Pending, MessageOf, TakenBy, SentTo, Sending, CallOk;
    var e := PathException(states, events, i);
    var d := PathException(states, events, j - 1);
    RunKeepsInvariant(states, events, j);
    CurrentIsSending(e, events[i]);
    if j == i + 1 {
      QueuedAlone(e, events[i], r);
    } else {
      QueuedMessageIsNext(states, events, i, j - 1, r);
      DispatchKeepsPending(states[j - 1], events[j - 1], r);
      DispatchShares(states[j - 1], events[j - 1]);
      assert LeavesWaiting(states, events, j - 1, r);
      StillNext(d, events[j - 1], r);
    }
    if j < |events| {
      var f := PathException(states, events, j);
      DispatchKeepsPending(states[j], events[j], r);
      TakesNext(f, events[j], r);
    }
  }

  lemma QueuedAlone(e: State, ev: Event, r: int)
    requires Stopped(e, ev) && Inv(Handled(e, ev)) && 0 <= r < TASKS && Queues(e, ev, r) && e.senders[r] == []
    ensures Live(Handled(e, ev).tasks, r)
    ensures Sending(e, e.current) && Pending(Handled(e, ev), r) == [MessageOf(e, e.current)]
  {
    CurrentIsSending(e, ev);
    hide PlacesOk, BlocksOk, ReceiversOk, CurrentOk, MessageOf, Sending, CallOk, SendArgsOk;
    HandledFifo(e, ev, r);
    LookupIsSlot(e, r);
  }

  lemma StillNext(e: State, ev: Event, r: int)
    requires Stopped(e, ev) && Inv(Handled(e, ev)) && 0 <= r < TASKS && Live(e.tasks, r)
    requires Pending(e, r) != [] && !Takes(e, ev, r) && !Exits(e, ev, r)
    ensures Live(Handled(e, ev).tasks, r)
    ensures Pending(Handled(e, ev), r) != [] && Pending(Handled(e, ev), r)[0] == Pending(e, r)[0]
  {
    hide PlacesOk, BlocksOk, CurrentOk, Handled, CallOk;
    HandledFifo(e, ev, r);
    assert TakenBy(e, ev, r) == [];
    var pending, pending' := Pending(e, r), Pending(Handled(e, ev), r);
    assert pending' == [] + pending';
    assert pending' == pending + SentTo(e, ev, r);
    StaysLive(e, ev, r);
  }

  /** Only a task's own Exit ends its life. */
  lemma StaysLive(e: State, ev: Event, r: int)
    requires Stopped(e, ev) && 0 <= r < TASKS && Live(e.tasks, r) && !Exits(e, ev, r)
    ensures Live(Handled(e, ev).tasks, r)
  {
    hide PlacesOk, BlocksOk, ReceiversOk, CurrentOk, Handled, CallOk, Partner;
    RecordAfter(e, ev, r);
  }

  lemma TakesNext(e: State, ev: Event, r: int)
    requires Stopped(e, ev) && 0 <= r < TASKS
    ensures Takes(e, ev, r) ==> Pending(e, r) != [] && TakenBy(e, ev, r) == [Pending(e, r)[0]]
  {
  }

  /** Receive first: until somebody sends to it, a waiting receiver keeps its arguments and its memory. */
  lemma ReceiverWaits(s: State, ev: Event, r: int)
    requires Inv(s) && Enabled(s, ev) && 0 <= r < TASKS && s.tasks[r].state == WaitReceive
    requires !SendsTo(AtException(s, ev), ev, r)
    ensures Step(s, ev).tasks[r] == s.tasks[r] && Step(s, ev).memory[s.tasks[r].block] == s.memory[s.tasks[r].block]
  {
    hide PlacesOk, BlocksOk, ReceiversOk, Handled, AtException;
    var e := AtException(s, ev);
    NextWasReady(s);
    DispatchFrame(s, ev, r);
    NotThePartner(e, ev, r);
    HandleFrame(e, ev, r);
  }

  lemma NotThePartner(e: State, ev: Event, r: int)
    requires Stopped(e, ev) && 0 <= r < TASKS && e.tasks[r].state == WaitReceive && !SendsTo(e, ev, r)
    ensures Partner(e, ev) != r
  {
  }

  predicate Receives(e: State, ev: Event, r: int) {
    ev.Trap? && ev.call == Receive && e.current == r
  }

  /** What the stopped task left: its registers and its memory are those of the event. */
  lemma StoppedWith(s: State, ev: Event)
    requires Inv(s) && CanDispatch(s) && |ev.stack| == BLOCK_SIZE
    ensures var e := AtException(s, ev);
            var k := e.tasks[e.current];
            && |e.tasks| == TASKS && |e.memory| == BLOCKS && Live(e.tasks, e.current) && 0 <= k.block < BLOCKS
            && k.x == ev.x && e.memory[k.block] == ev.stack
  {
    hide PlacesOk, ReceiversOk, CurrentOk, Top, Popped;
    NextWasReady(s);
  }

  /** Task t is in the given state, with the registers and the memory it had when this event stopped it. */
  ghost predicate HoldsStill(s: State, t: int, state: TaskState, ev: Event) {
    HasBlock(s, t) && s.tasks[t].state == state && s.tasks[t].x == ev.x && s.memory[s.tasks[t].block] == ev.stack
  }

  lemma ReceiveBlocks(s: State, ev: Event, r: int)
    requires Inv(s) && Enabled(s, ev) && Receives(AtException(s, ev), ev, r)
    requires 0 <= r < TASKS && AtException(s, ev).senders[r] == []
    ensures HoldsStill(Step(s, ev), r, WaitReceive, ev)
  {
    hide PlacesOk, BlocksOk, ReceiversOk, CurrentOk, AtException;
    StoppedWith(s, ev);
    StepIsHandled(s, ev);
    StepKeeps(s, ev);
  }

  lemma KeepsWaiting(s: State, ev: Event, r: int, received: Event)
    requires Inv(s) && Enabled(s, ev) && 0 <= r < TASKS && HoldsStill(s, r, WaitReceive, received)
    requires !SendsTo(AtException(s, ev), ev, r)
    ensures HoldsStill(Step(s, ev), r, WaitReceive, received)
  {
    hide PlacesOk, BlocksOk, ReceiversOk, CurrentOk, AtException, SendsTo, Handled, Step;
    StepKeeps(s, ev);
    ReceiverWaits(s, ev, r);
  }

  /** In a run, a task blocked in Receive waits, with its arguments and its memory, until somebody sends to it. */
  lemma {:induction false} ReceiverWaitsInRun(states: seq<State>, events: seq<Event>, i: int, j: int, r: int)
    requires IsRun(states, events) && Inv(states[0]) && 0 <= i < j < |states| && 0 <= r < TASKS
    requires var e := PathException(states, events, i); Receives(e, events[i], r) && e.senders[r] == []
    requires forall n :: i < n < j ==> !SendsTo(PathException(states, events, n), events[n], r)
    ensures Inv(states[j]) && HoldsStill(states[j], r, WaitReceive, events[i])
    decreases j
  {
    hide Inv, Initial, StepsTo, Enabled, Handled, AtException, SendsTo, Receives, HoldsStill, CallOk;
    var e := PathException(states, events, j - 1);
    RunKeepsInvariant(states, events, j);
    StepIsHandled(states[j - 1], events[j - 1]);
    if j == i + 1 {
      ReceiveBlocks(states[i], events[i], r);
    } else {
      ReceiverWaitsInRun(states, events, i, j - 1, r);
      KeepsWaiting(states[j - 1], events[j - 1], r, events[i]);
    }
  }

  // ---- The order of Send and Receive ------------------------------------------------------------------

  /** The message a task sends by stopping with this event. */
  function SentMessage(c: int, ev: Event): (m: Message)
    requires SendArgsOk(ev.x) && |ev.stack| == BLOCK_SIZE
  {
    Message(c, I32(ev.x.x0), ev.stack[ev.x.x1..ev.x.x1 + I32(ev.x.x2)])
  }

  lemma SentFrom(s: State, ev: Event)
    requires Inv(s) && Enabled(s, ev) && ev.Trap? && ev.call == Send
    ensures var e := AtException(s, ev);
            && Sending(e, e.current) && SendArgsOk(ev.x) && |ev.stack| == BLOCK_SIZE
            && MessageOf(e, e.current) == SentMessage(e.current, ev)
  {
    hide PlacesOk, ReceiversOk, BlocksOk, CurrentOk, AtException;
    StoppedWith(s, ev);
    CurrentIsSending(AtException(s, ev), ev);
  }

  /** What c asked to send is delivered as r asked to receive it: memory, result, and c waiting for a reply. */
  ghost predicate HandedOver(s: State, c: int, sent: Event, r: int, received: Event) {
    && |sent.stack| == |received.stack| == BLOCK_SIZE && SendArgsOk(sent.x) && ReceiveArgsOk(received.x)
    && HasBlock(s, r)
    && s.memory[s.tasks[r].block] == Arrived(received.stack, received.x, SentMessage(c, sent))
    && s.tasks[r].result == Min(I32(sent.x.x2), I32(received.x.x2)) && s.tasks[r].passResult
    && s.tasks[r].x == received.x
    && HoldsStill(s, c, WaitReply, sent)
  }

  lemma SendQueues(s: State, ev: Event, r: int)
    requires Inv(s) && Enabled(s, ev) && 0 <= r < TASKS && Queues(AtException(s, ev), ev, r)
    ensures 0 <= AtException(s, ev).current < TASKS && I32(ev.x.x0) == r
    ensures HoldsStill(Step(s, ev), AtException(s, ev).current, WaitSend, ev)
  {
    hide PlacesOk, BlocksOk, ReceiversOk, CurrentOk, AtException, SendNow;
    StoppedWith(s, ev);
    LookupIsSlot(AtException(s, ev), r);
    StepIsHandled(s, ev);
    StepKeeps(s, ev);
  }

  lemma KeepsQueueing(s: State, ev: Event, c: int, r: int, sent: Event)
    requires Inv(s) && Enabled(s, ev) && 0 <= c < TASKS && HoldsStill(s, c, WaitSend, sent) && I32(sent.x.x0) == r
    requires !Receives(AtException(s, ev), ev, r)
    ensures HoldsStill(Step(s, ev), c, WaitSend, sent)
  {
    hide PlacesOk, BlocksOk, ReceiversOk, CurrentOk, AtException, Handled, Step;
    var e := AtException(s, ev);
    StepKeeps(s, ev);
    NextWasReady(s);
    DispatchFrame(s, ev, c);
    StepIsHandled(s, ev);
    if c == Partner(e, ev) {
      TakenByTarget(e, ev, c);
    }
    HandleFrame(e, ev, c);
  }

  /** Only the Receive of the task it sends to concerns a queued sender. */
  lemma TakenByTarget(e: State, ev: Event, c: int)
    requires Stopped(e, ev) && 0 <= c < TASKS && e.tasks[c].state == WaitSend && c == Partner(e, ev)
    ensures Receives(e, ev, I32(e.tasks[c].x.x0))
  {
  }

  /** In a run, a sender queued for r waits, with its arguments and its memory, until r receives. */
  lemma {:induction false} SenderQueuesInRun(states: seq<State>, events: seq<Event>, i: int, j: int, c: int, r: int)
    requires IsRun(states, events) && Inv(states[0]) && 0 <= i < j < |states| && 0 <= r < TASKS
    requires var e := PathException(states, events, i); e.current == c && Queues(e, events[i], r)
    requires forall n :: i < n < j ==> !Receives(PathException(states, events, n), events[n], r)
    ensures Inv(states[j]) && 0 <= c < TASKS && HoldsStill(states[j], c, WaitSend, events[i])
    decreases j
  {
    hide Inv, Initial, StepsTo, Enabled, Handled, AtException, Queues, Receives, HoldsStill, CallOk;
    var e := PathException(states, events, j - 1);
    RunKeepsInvariant(states, events, j);
    StepIsHandled(states[j - 1], events[j - 1]);
    SendQueues(states[i], events[i], r);
    if j == i + 1 {
    } else {
      SenderQueuesInRun(states, events, i, j - 1, c, r);
      KeepsQueueing(states[j - 1], events[j - 1], c, r, events[i]);
    }
  }

  lemma DeliveryHandsOver(e: State, ev: Event, c: int, sent: Event, r: int, received: Event)
    requires Stopped(e, ev) && 0 <= r < TASKS && |sent.stack| == |received.stack| == BLOCK_SIZE
    requires SendArgsOk(sent.x) && TakenBy(e, ev, r) == [SentMessage(c, sent)]
    requires HasBlock(e, c) && e.tasks[c].x == sent.x && e.memory[e.tasks[c].block] == sent.stack
    requires HasBlock(e, r) && e.tasks[r].x == received.x && e.memory[e.tasks[r].block] == received.stack
    ensures HandedOver(Handled(e, ev), c, sent, r, received)
    ensures Handled(e, ev).tasks[r].state == if ev.call == Send then Ready else Running
  {
    hide PlacesOk, BlocksOk, ReceiversOk, CurrentOk, Handled, Arrived, TakenBy, CallOk;
    DeliveryEffect(e, ev, r);
    HandledKeeps(e, ev);
  }

  lemma PendingInRing(e: State, r: int)
    requires Inv(e) && 0 <= r < TASKS && Pending(e, r) != []
    ensures e.senders[r] != []
  {
  }

  /** In iteration i task c queues up in r's empty ring; r's next Receive is in iteration j. */
  ghost predicate SendFirst(states: seq<State>, events: seq<Event>, i: int, j: int, c: int, r: int) {
    && IsRun(states, events) && Inv(states[0]) && 0 <= i < j < |events| && 0 <= r < TASKS
    && PathException(states, events, i).current == c && QueuesFirst(states, events, i, r)
    && (forall n :: i < n < j ==>
          var e := PathException(states, events, n); !Receives(e, events[n], r) && !Exits(e, events[n], r))
    && Receives(PathException(states, events, j), events[j], r)
  }

  /** In iteration k task r blocks in Receive; the first to send to it is c, in iteration l. */
  ghost predicate ReceiveFirst(states: seq<State>, events: seq<Event>, k: int, l: int, c: int, r: int) {
    && IsRun(states, events) && Inv(states[0]) && 0 <= k < l < |events| && 0 <= r < TASKS
    && (var e := PathException(states, events, k); Receives(e, events[k], r) && e.senders[r] == [])
    && (forall n :: k < n < l ==> !SendsTo(PathException(states, events, n), events[n], r))
    && (var e := PathException(states, events, l); e.current == c && SendsTo(e, events[l], r))
  }

  lemma SendFirstDelivers(states: seq<State>, events: seq<Event>, i: int, j: int, c: int, r: int)
    requires SendFirst(states, events, i, j, c, r)
    ensures HandedOver(states[j + 1], c, events[i], r, events[j]) && states[j + 1].tasks[r].state == Running
  {
    hide Inv, Initial, StepsTo, Enabled, Handled, AtException, Pending, MessageOf, TakenBy, Sending, CallOk, HandedOver;
    var e := PathException(states, events, i);
    var f := PathException(states, events, j);
    SentFrom(states[i], events[i]);
    QueuedMessageIsNext(states, events, i, j, r);
    DispatchKeepsPending(states[j], events[j], r);
    PendingInRing(f, r);
    StoppedWith(states[j], events[j]);
    LiveHasBlock(f, r);
    SenderQueuesInRun(states, events, i, j, c, r);
    NextWasReady(states[j]);
    DispatchFrame(states[j], events[j], c);
    SenderIsLive(states[j], c);
    LiveHasBlock(f, c);
    DeliveryHandsOver(f, events[j], c, events[i], r, events[j]);
  }

  lemma ReceiveFirstDelivers(states: seq<State>, events: seq<Event>, k: int, l: int, c: int, r: int)
    requires ReceiveFirst(states, events, k, l, c, r)
    ensures HandedOver(states[l + 1], c, events[l], r, events[k]) && states[l + 1].tasks[r].state == Ready
  {
    hide Inv, Initial, StepsTo, Enabled, Handled, AtException, MessageOf, Sending, CallOk, HandedOver;
    var e := PathException(states, events, l);
    ReceiverWaitsInRun(states, events, k, l, r);
    SentFrom(states[l], events[l]);
    NextWasReady(states[l]);
    DispatchFrame(states[l], events[l], r);
    BlockedIsLive(states[l], r);
    LiveHasBlock(e, r);
    StoppedWith(states[l], events[l]);
    LiveHasBlock(e, c);
    DeliveryHandsOver(e, events[l], c, events[l], r, events[k]);
  }

  lemma SenderIsLive(s: State, c: int)
    requires Inv(s) && 0 <= c < TASKS && s.tasks[c].state == WaitSend
    ensures Live(s.tasks, c)
  {
  }

  lemma BlockedIsLive(s: State, r: int)
    requires Inv(s) && 0 <= r < TASKS && s.tasks[r].state == WaitReceive
    ensures Live(s.tasks, r) && HasBlock(s, r)
  {
  }

  /**
   Send-first and receive-first are equivalent. In run A task c sends to r, whose ring is empty, and
   r receives later; in run B task r receives first, finding its ring empty, and c is the first to
   send to it afterwards. Whatever else the two runs do: if c stops with the same registers and
   memory in both, and so does r, then r ends with the same registers, memory and result in both, and c
   in WATIREPLY with the same registers and memory; only r is running in the one and ready in the other.
   */
  lemma OrdersAgree(a: seq<State>, eventsA: seq<Event>, i: int, j: int,
                    b: seq<State>, eventsB: seq<Event>, k: int, l: int, c: int, r: int)
    requires SendFirst(a, eventsA, i, j, c, r) && ReceiveFirst(b, eventsB, k, l, c, r)
    requires eventsA[i] == eventsB[l] && eventsA[j] == eventsB[k]
    ensures var s, t := a[j + 1], b[l + 1];
            && HasBlock(s, r) && HasBlock(t, r) && HasBlock(s, c) && HasBlock(t, c)
            && s.memory[s.tasks[r].block] == t.memory[t.tasks[r].block]
            && s.tasks[r].result == t.tasks[r].result && s.tasks[r].passResult && t.tasks[r].passResult
            && s.tasks[r].x == t.tasks[r].x
            && s.tasks[c].x == t.tasks[c].x && s.memory[s.tasks[c].block] == t.memory[t.tasks[c].block]
            && s.tasks[c].state == t.tasks[c].state == WaitReply
            && s.tasks[r].state == Running && t.tasks[r].state == Ready
  {
    hide Inv, Initial, StepsTo, Enabled, Queues, Receives, Exits, SendsTo, Arrived, SentMessage;
    SendFirstDelivers(a, eventsA, i, j, c, r);
    ReceiveFirstDelivers(b, eventsB, k, l, c, r);
  }

  // ---- Blocked tasks stay as they are ---------------------------------------------------------------

  predicate RepliesTo(e: State, ev: Event, t: int)
    requires InTask(e)
  {
    ev.Trap? && ev.call == Reply && I32(e.tasks[e.current].x.x0) == t
  }

  /** Only a Reply ends a sender's wait; until then its registers, its result and its memory stay put. */
  lemma SenderWaitsForReply(s: State, ev: Event, t: int)
    requires Inv(s) && Enabled(s, ev) && 0 <= t < TASKS && s.tasks[t].state in {WaitSend, WaitReply}
    requires !RepliesTo(AtException(s, ev), ev, t)
    ensures var k, k' := s.tasks[t], Step(s, ev).tasks[t];
            && k' == k.(state := k'.state) && k'.state in {WaitSend, WaitReply}
            && (k.state == WaitReply ==> k'.state == WaitReply)
            && Step(s, ev).memory[k.block] == s.memory[k.block]
  {
    hide PlacesOk, BlocksOk, ReceiversOk, Handled, AtException;
    var e := AtException(s, ev);
    NextWasReady(s);
    DispatchFrame(s, ev, t);
    if t == Partner(e, ev) {
      TakenSender(e, ev, t);
    } else {
      HandleFrame(e, ev, t);
    }
  }

  lemma TakenSender(e: State, ev: Event, t: int)
    requires Stopped(e, ev) && 0 <= t < TASKS && e.tasks[t].state in {WaitSend, WaitReply}
    requires t == Partner(e, ev) && !RepliesTo(e, ev, t)
    ensures |Handled(e, ev).tasks| == TASKS && |Handled(e, ev).memory| == BLOCKS && HasBlock(e, t)
    ensures e.tasks[t].state == WaitSend && Handled(e, ev).tasks[t] == e.tasks[t].(state := WaitReply)
    ensures Handled(e, ev).memory[e.tasks[t].block] == e.memory[e.tasks[t].block]
  {
    hide PlacesOk, BlocksOk, ReceiversOk, Splice, ReceiveNow;
    LiveHasBlock(e, t);
    match ev
    case Trap(Receive, _, _) =>
      ReceiveNowEffect(e, t);
    case Irq(intid, _, _) => WaiterIsLive(e, intid);
    case _ =>
  }

  /**
   A Reply ends the wait: the sender finds the first min(reply, buffer) bytes in its reply buffer,
   that length as the result of its Send, and is ready; the replier gets the same length.
   */
  lemma ReplyArrives(e: State, ev: Event, t: int)
    requires Stopped(e, ev) && 0 <= t < TASKS && RepliesTo(e, ev, t) && Live(e.tasks, t)
    ensures e.tasks[t].state == WaitReply && HasBlock(e, t) && HasBlock(e, e.current)
    ensures SendArgsOk(e.tasks[t].x) && ReplyArgsOk(e.tasks[e.current].x)
    ensures var c, s' := e.current, Handled(e, ev);
            var x, y := e.tasks[c].x, e.tasks[t].x;
            var n := Min(I32(x.x2), I32(y.x4));
            && |s'.tasks| == TASKS && |s'.memory| == BLOCKS && |s'.memory[e.tasks[t].block]| == BLOCK_SIZE
            && s'.tasks[t].state == Ready && s'.tasks[t].result == n && s'.tasks[t].passResult
            && s'.tasks[c].state == Running && s'.tasks[c].result == n && s'.tasks[c].passResult
            && s'.memory[e.tasks[t].block][y.x3..y.x3 + n] == ReadMemory(e, c, x.x1, n)
            && (forall i :: 0 <= i < BLOCK_SIZE && !(y.x3 <= i < y.x3 + n) ==>
                  s'.memory[e.tasks[t].block][i] == e.memory[e.tasks[t].block][i])
  {
    hide PlacesOk, BlocksOk, ReceiversOk, Splice, Lookup, ReplyNow;
    LookupIsSlot(e, t);
    LiveHasBlock(e, t);
    LiveHasBlock(e, e.current);
    ReplyNowEffect(e, t);
    var x, y := e.tasks[e.current].x, e.tasks[t].x;
    SpliceElsewhere(e.memory[e.tasks[t].block], y.x3, ReadMemory(e, e.current, x.x1, Min(I32(x.x2), I32(y.x4))));
  }

  /** The same for the message in the sender's buffer. */
  lemma MessageWaits(s: State, ev: Event, t: int, s': State)
    requires Inv(s) && Enabled(s, ev) && 0 <= t < TASKS && s.tasks[t].state in {WaitSend, WaitReply}
    requires !RepliesTo(AtException(s, ev), ev, t) && s' == Handled(AtException(s, ev), ev)
    ensures Inv(s') && s'.tasks[t].state in {WaitSend, WaitReply}
    ensures Sending(s, t) && Sending(s', t) && MessageOf(s', t) == MessageOf(s, t)
  {
    hide PlacesOk, BlocksOk, ReceiversOk, CurrentOk, Handled, AtException, RepliesTo;
    StepKeeps(s, ev);
    LiveHasBlock(s, t);
    SenderWaitsForReply(s, ev, t);
  }

  /** In a run, a task that is blocked in Send stays blocked, with its message, until a Reply to it. */
  lemma {:induction false} SenderBlockedUntilReply(states: seq<State>, events: seq<Event>, i: int, j: int, t: int)
    requires IsRun(states, events) && 0 <= i <= j < |states| && 0 <= t < TASKS
    requires Inv(states[0]) && |states[i].tasks| == TASKS && states[i].tasks[t].state in {WaitSend, WaitReply}
    requires forall n :: i <= n < j ==> !RepliesTo(PathException(states, events, n), events[n], t)
    ensures Inv(states[j]) && |states[j].tasks| == TASKS && states[j].tasks[t].state in {WaitSend, WaitReply}
    ensures Sending(states[i], t) && Sending(states[j], t) && MessageOf(states[j], t) == MessageOf(states[i], t)
    decreases j
  {
    hide Inv, Initial, StepsTo, Enabled, RepliesTo, Sending, MessageOf, Handled, AtException;
    RunKeepsInvariant(states, events, i);
    if i < j {
      SenderBlockedUntilReply(states, events, i, j - 1, t);
      var e := PathException(states, events, j - 1);
      MessageWaits(states[j - 1], events[j - 1], t, states[j]);
      InvShape(states[j]);
    } else {
      BlockedIsSending(states[i], t);
    }
  }

  lemma BlockedIsSending(s: State, t: int)
    requires Inv(s) && 0 <= t < TASKS && s.tasks[t].state in {WaitSend, WaitReply}
    ensures Sending(s, t)
  {
  }

  lemma StepIsHandled(s: State, ev: Event)
    requires Inv(s) && Enabled(s, ev)
    ensures Step(s, ev) == Handled(AtException(s, ev), ev)
  {
  }

  /** In a run, a task whose message was taken waits for its reply until a Reply to it. */
  lemma {:induction false} WaitsUntilReplied(states: seq<State>, events: seq<Event>, i: int, j: int, t: int)
    requires IsRun(states, events) && 0 <= i <= j < |states| && 0 <= t < TASKS
    requires Inv(states[0]) && |states[i].tasks| == TASKS && states[i].tasks[t].state == WaitReply
    requires forall n :: i <= n < j ==> !RepliesTo(PathException(states, events, n), events[n], t)
    ensures Inv(states[j]) && |states[j].tasks| == TASKS && states[j].tasks[t].state == WaitReply
    decreases j
  {
    hide Inv, Initial, StepsTo, Enabled, RepliesTo, Handled, AtException;
    RunKeepsInvariant(states, events, j);
    if i == j {
    } else {
      WaitsUntilReplied(states, events, i, j - 1, t);
      StepIsHandled(states[j - 1], events[j - 1]);
      var e := PathException(states, events, j - 1);
      SenderWaitsForReply(states[j - 1], events[j - 1], t);
      InvShape(states[j]);
    }
  }

  /** A task that waits for a reply has no message taken from it. */
  lemma NotTakenFrom(s: State, ev: Event, t: int, r: int)
    requires Inv(s) && Enabled(s, ev) && 0 <= t < TASKS && s.tasks[t].state == WaitReply && 0 <= r < TASKS
    ensures TakenBy(AtException(s, ev), ev, r) != [] ==> TakenBy(AtException(s, ev), ev, r)[0].from != t
  {
    hide PlacesOk, BlocksOk, ReceiversOk, AtException;
    var e := AtException(s, ev);
    NextWasReady(s);
    DispatchFrame(s, ev, t);
    RingIsSending(e, r);
  }

  /** In iteration n task r takes a message of t. */
  ghost predicate TakenFrom(states: seq<State>, events: seq<Event>, n: int, r: int, t: int)
    requires IsPath(states, events) && Inv(states[0]) && 0 <= n < |events| && 0 <= r < TASKS
  {
    var taken := TakenBy(PathException(states, events, n), events[n], r);
    taken != [] && taken[0].from == t
  }

  /**
   What a server may rely on: when a message of t has been taken, by anyone, no message of t is taken
   again before a Reply to t.
   */
  lemma NoSecondMessage(states: seq<State>, events: seq<Event>, i: int, j: int, t: int, r: int, r': int)
    requires IsRun(states, events) && Inv(states[0]) && 0 <= i < j < |events| && 0 <= r < TASKS && 0 <= r' < TASKS
    requires TakenFrom(states, events, i, r, t) && TakenFrom(states, events, j, r', t)
    ensures exists n :: i < n < j && RepliesTo(PathException(states, events, n), events[n], t)
  {
    hide Inv, Initial, StepsTo, Enabled, Handled, AtException, TakenBy, RepliesTo, CallOk, Arrived;
    DeliveryEffect(PathException(states, events, i), events[i], r);
    RunKeepsInvariant(states, events, i + 1);
    if forall n :: i < n < j ==> !RepliesTo(PathException(states, events, n), events[n], t) {
      WaitsUntilReplied(states, events, i + 1, j, t);
      NotTakenFrom(states[j], events[j], t, r');
    }
  }
}

/**
 What a server owes: whose message it has taken and not yet answered. As long as only the task that
 took a message replies to its sender, everybody a server owes waits for it, and sends nothing else.
 */
module Servers {
  import opened CInts
  import opened Filing
  import opened PriorityQueues
  import opened KernelModel
  import opened KernelSteps
  import opened KernelRuns
  import opened Rendezvous
  import opened Delivery

  /** The tasks that r replies to through this exception: one or none. */
  function Answered(e: State, ev: Event, r: int): (ts: set<int>)
    requires InTask(e)
  {
    var t := I32(e.tasks[e.current].x.x0);
    if e.current == r && RepliesTo(e, ev, t) then {t} else {}
  }

  /** The tasks whose message r takes through this exception: one or none. */
  function TakenSenders(e: State, ev: Event, r: int): (ts: set<int>)
    requires Stopped(e, ev) && 0 <= r < TASKS
  {
    var taken := TakenBy(e, ev, r);
    if taken == [] then {} else {taken[0].from}
  }

  /** The tasks whose message r has taken in the first n iterations and not answered since. */
  ghost function Owed(states: seq<State>, events: seq<Event>, n: int, r: int): (ts: set<int>)
    requires IsPath(states, events) && Inv(states[0]) && 0 <= n < |states| && 0 <= r < TASKS
  {
    if n == 0 then {}
    else
      var e := PathException(states, events, n - 1);
      Owed(states, events, n - 1, r) + TakenSenders(e, events[n - 1], r) - Answered(e, events[n - 1], r)
  }

  ghost predicate Owes(states: seq<State>, events: seq<Event>, n: int, r: int, t: int)
    requires IsPath(states, events) && Inv(states[0]) && 0 <= n < |states| && 0 <= r < TASKS
  {
    t in Owed(states, events, n, r)
  }

  /** In iteration n nobody but the task that took its message replies to a task. */
  ghost predicate OwnReply(states: seq<State>, events: seq<Event>, n: int)
    requires IsPath(states, events) && Inv(states[0]) && 0 <= n < |events|
  {
    var e := PathException(states, events, n);
    forall t :: RepliesTo(e, events[n], t) && Live(e.tasks, t) ==> Owes(states, events, n, e.current, t)
  }

  /** Everybody owed waits for a reply, and is owed one by a single task. */
  ghost predicate OwedWait(states: seq<State>, events: seq<Event>, n: int)
    requires IsPath(states, events) && Inv(states[0]) && 0 <= n < |states|
  {
    && |states[n].tasks| == TASKS
    && (forall r, t :: 0 <= r < TASKS && Owes(states, events, n, r, t) ==>
          0 <= t < TASKS && states[n].tasks[t].state == WaitReply)
    && (forall r, r', t ::
          0 <= r < TASKS && 0 <= r' < TASKS && Owes(states, events, n, r, t) && Owes(states, events, n, r', t) ==> r == r')
  }

  lemma TakesAlone(e: State, ev: Event, r: int, r': int)
    requires Stopped(e, ev) && 0 <= r < TASKS && 0 <= r' < TASKS
    requires TakenSenders(e, ev, r) != {}
    ensures TakenSenders(e, ev, r') != {} ==> r == r'
    ensures Answered(e, ev, r') == {}
  {
  }

  /** A task whose message is taken waits for its reply afterwards, and did not wait for one before. */
  lemma TakenNow(s: State, ev: Event, r: int, t: int)
    requires Inv(s) && Enabled(s, ev) && 0 <= r < TASKS && t in TakenSenders(AtException(s, ev), ev, r)
    ensures 0 <= t < TASKS && |Step(s, ev).tasks| == |s.tasks| == TASKS
    ensures Step(s, ev).tasks[t].state == WaitReply && s.tasks[t].state != WaitReply
  {
    hide Inv, AtException, Handled, TakenBy, Arrived, CallOk, Step;
    InvShape(s);
    StepIsHandled(s, ev);
    DeliveryEffect(AtException(s, ev), ev, r);
    if s.tasks[t].state == WaitReply {
      NotTakenFrom(s, ev, t, r);
    }
  }

  /** Who waits for a reply goes on waiting, unless a Reply to it comes. */
  lemma StillOwed(s: State, ev: Event, t: int)
    requires Inv(s) && Enabled(s, ev) && 0 <= t < TASKS && s.tasks[t].state == WaitReply
    requires !RepliesTo(AtException(s, ev), ev, t)
    ensures |Step(s, ev).tasks| == TASKS && Step(s, ev).tasks[t].state == WaitReply
  {
    hide Inv, AtException, Handled, Step;
    StepKeeps(s, ev);
    InvShape(Step(s, ev));
    SenderWaitsForReply(s, ev, t);
  }

  lemma WaitingIsLive(s: State, ev: Event, t: int)
    requires Inv(s) && Enabled(s, ev) && 0 <= t < TASKS && s.tasks[t].state == WaitReply
    ensures Live(AtException(s, ev).tasks, t) && AtException(s, ev).tasks[t].state == WaitReply
  {
    hide PlacesOk, BlocksOk, ReceiversOk, AtException;
    NextWasReady(s);
    DispatchFrame(s, ev, t);
  }

  /** What an iteration does to the debts of r. */
  lemma OwesNext(states: seq<State>, events: seq<Event>, n: int, r: int, t: int)
    requires IsPath(states, events) && Inv(states[0]) && 0 <= n < |events| && 0 <= r < TASKS
    ensures var e, ev := PathException(states, events, n), events[n];
            Owes(states, events, n + 1, r, t) <==>
            (Owes(states, events, n, r, t) || t in TakenSenders(e, ev, r)) && !(e.current == r && RepliesTo(e, ev, t))
  {
    hide Inv, Initial, StepsTo, Enabled, Handled, AtException, TakenSenders, Answered, RepliesTo, CallOk;
    AnsweredIs(PathException(states, events, n), events[n], r, t);
  }

  lemma OwedNext(states: seq<State>, events: seq<Event>, n: int, r: int, t: int)
    requires IsPath(states, events) && Inv(states[0]) && 0 <= n < |events| && 0 <= r < TASKS
    requires OwedWait(states, events, n) && OwnReply(states, events, n) && Owes(states, events, n + 1, r, t)
    ensures 0 <= t < TASKS && |states[n + 1].tasks| == TASKS && states[n + 1].tasks[t].state == WaitReply
  {
    hide Inv, Initial, StepsTo, Enabled, Handled, AtException, TakenSenders, RepliesTo, Owes, CallOk;
    var e, ev := PathException(states, events, n), events[n];
    StepIsHandled(states[n], ev);
    OwesNext(states, events, n, r, t);
    if t in TakenSenders(e, ev, r) {
      TakenNow(states[n], ev, r, t);
    } else {
      WaitingIsLive(states[n], ev, t);
      StillOwed(states[n], ev, t);
    }
  }

  lemma OwedByOne(states: seq<State>, events: seq<Event>, n: int, r: int, r': int, t: int)
    requires IsPath(states, events) && Inv(states[0]) && 0 <= n < |events| && 0 <= r < TASKS && 0 <= r' < TASKS
    requires OwedWait(states, events, n)
    requires Owes(states, events, n + 1, r, t) && Owes(states, events, n + 1, r', t)
    ensures r == r'
  {
    hide Inv, Initial, StepsTo, Enabled, Handled, AtException, TakenSenders, RepliesTo, Owes, CallOk;
    var e, ev := PathException(states, events, n), events[n];
    OwesNext(states, events, n, r, t);
    OwesNext(states, events, n, r', t);
    if t in TakenSenders(e, ev, r) {
      TakenNow(states[n], ev, r, t);
      TakesAlone(e, ev, r, r');
    } else if t in TakenSenders(e, ev, r') {
      TakenNow(states[n], ev, r', t);
    }
  }

  /** One iteration keeps the agreement between debts and states. */
  lemma OwedWaitKept(states: seq<State>, events: seq<Event>, n: int, n': int)
    requires IsPath(states, events) && Inv(states[0]) && 0 <= n < |events| && n' == n + 1
    requires OwedWait(states, events, n) && OwnReply(states, events, n)
    ensures OwedWait(states, events, n')
  {
    hide Inv, Initial, StepsTo, Enabled, OwnReply, Owes;
    PathKeepsInvariant(states, events, n');
    InvShape(states[n']);
    forall r, t | 0 <= r < TASKS && Owes(states, events, n', r, t)
      ensures 0 <= t < TASKS && states[n'].tasks[t].state == WaitReply
    {
      OwedNext(states, events, n, r, t);
    }
    forall r, r', t | 0 <= r < TASKS && 0 <= r' < TASKS && Owes(states, events, n', r, t) && Owes(states, events, n', r', t)
      ensures r == r'
    {
      OwedByOne(states, events, n, r, r', t);
    }
  }

  lemma AnsweredIs(e: State, ev: Event, r: int, t: int)
    requires InTask(e)
    ensures t in Answered(e, ev, r) <==> e.current == r && RepliesTo(e, ev, t)
  {
  }

  lemma {:induction false} OwedWaitInRun(states: seq<State>, events: seq<Event>, n: int)
    requires IsRun(states, events) && Inv(states[0]) && 0 <= n < |states|
    requires forall i :: 0 <= i < n ==> OwnReply(states, events, i)
    ensures OwedWait(states, events, n)
  {
    hide Inv, Initial, StepsTo, Enabled, OwnReply;
    if n == 0 {
      InvShape(states[0]);
    } else {
      OwedWaitInRun(states, events, n - 1);
      OwedWaitKept(states, events, n - 1, n);
    }
  }

  /**
   In every run in which only the task that took a message replies to its sender: whom r owes is in
   WATIREPLY, also at the exception of iteration n, so a Reply to it is in order; and no message of it
   is taken before r has answered, by r or by anybody else.
   */
  lemma OwedTaskWaits(states: seq<State>, events: seq<Event>, n: int, r: int, t: int)
    requires IsRun(states, events) && Inv(states[0]) && 0 <= n < |events| && 0 <= r < TASKS
    requires forall i :: 0 <= i < n ==> OwnReply(states, events, i)
    requires Owes(states, events, n, r, t)
    ensures 0 <= t < TASKS && states[n].tasks[t].state == WaitReply
    ensures var e := PathException(states, events, n); Live(e.tasks, t) && ReplyTargetOk(e, t)
    ensures forall r' :: 0 <= r' < TASKS ==> !TakenFrom(states, events, n, r', t)
  {
    hide Inv, Initial, StepsTo, Enabled, Handled, AtException, OwnReply, Owes, TakenBy, CallOk;
    var e := PathException(states, events, n);
    OwedWaitInRun(states, events, n);
    WaitingIsLive(states[n], events[n], t);
    forall r' | 0 <= r' < TASKS ensures !TakenFrom(states, events, n, r', t) {
      NotTakenFrom(states[n], events[n], t, r');
    }
  }

  // ---- The assumption is exactly what is needed ------------------------------------------------------

  /** The only way into WATIREPLY is to have one's message taken. */
  lemma IntoWaitReply(e: State, ev: Event, t: int) returns (r: int)
    requires Stopped(e, ev) && 0 <= t < TASKS && e.tasks[t].state != WaitReply
    requires |Handled(e, ev).tasks| == TASKS && Handled(e, ev).tasks[t].state == WaitReply
    ensures 0 <= r < TASKS && t in TakenSenders(e, ev, r)
  {
    hide Inv, Handled, TakenSenders, CallOk;
    if ev.Trap? && ev.call == Send {
      r := I32(e.tasks[e.current].x.x0);
      IntoWaitReplyBySend(e, ev, t);
    } else if ev.Trap? && ev.call == Receive {
      r := e.current;
      IntoWaitReplyByReceive(e, ev, t);
    } else {
      r := 0;
      NotIntoWaitReply(e, ev, t);
    }
  }

  lemma IntoWaitReplyBySend(e: State, ev: Event, t: int)
    requires Stopped(e, ev) && 0 <= t < TASKS && e.tasks[t].state != WaitReply && ev.Trap? && ev.call == Send
    requires |Handled(e, ev).tasks| == TASKS && Handled(e, ev).tasks[t].state == WaitReply
    ensures var r := I32(e.tasks[e.current].x.x0); 0 <= r < TASKS && t in TakenSenders(e, ev, r)
  {
    hide PlacesOk, BlocksOk, ReceiversOk, CurrentOk, SendNow, Splice, Lookup;
    var r := I32(e.tasks[e.current].x.x0);
    LookupIsSlot(e, r);
    if Live(e.tasks, r) && e.tasks[r].state == WaitReceive {
      SendNowEffect(e, r);
    }
  }

  lemma IntoWaitReplyByReceive(e: State, ev: Event, t: int)
    requires Stopped(e, ev) && 0 <= t < TASKS && e.tasks[t].state != WaitReply && ev.Trap? && ev.call == Receive
    requires |Handled(e, ev).tasks| == TASKS && Handled(e, ev).tasks[t].state == WaitReply
    ensures 0 <= e.current < TASKS && t in TakenSenders(e, ev, e.current)
  {
    hide PlacesOk, BlocksOk, ReceiversOk, CurrentOk, ReceiveNow, Splice, Lookup;
    if e.senders[e.current] != [] {
      ReceiveNowEffect(e, e.senders[e.current][0]);
    }
  }

  lemma NotIntoWaitReply(e: State, ev: Event, t: int)
    requires Stopped(e, ev) && 0 <= t < TASKS && e.tasks[t].state != WaitReply
    requires ev.Trap? ==> ev.call != Send && ev.call != Receive
    ensures |Handled(e, ev).tasks| == TASKS ==> Handled(e, ev).tasks[t].state != WaitReply
  {
    hide PlacesOk, BlocksOk, ReceiversOk, CurrentOk, ReplyNow, Lookup, Splice, Removed, Top, Popped, ArgsOk;
    var target := I32(e.tasks[e.current].x.x0);
    LookupIsSlot(e, target);
    if ev.Trap? && ev.call == Reply && Live(e.tasks, target) {
      ReplyNowEffect(e, target);
    }
  }

  /** Whoever waits for a reply is owed one. */
  lemma {:induction false} WaiterIsOwed(states: seq<State>, events: seq<Event>, n: int, t: int) returns (r: int)
    requires IsRun(states, events) && Inv(states[0]) && 0 <= n < |states| && 0 <= t < TASKS
    requires |states[n].tasks| == TASKS && states[n].tasks[t].state == WaitReply
    ensures 0 <= r < TASKS && Owes(states, events, n, r, t)
  {
    hide Inv, Initial, StepsTo, Enabled, Handled, AtException, TakenSenders, RepliesTo, Owes, CallOk;
    if n == 0 {
      NobodyWaitsInitially(t);
      r := 0;
    } else {
      var s, ev := states[n - 1], events[n - 1];
      var e := PathException(states, events, n - 1);
      StateAtException(s, ev, t);
      if s.tasks[t].state == WaitReply {
        r := WaiterIsOwed(states, events, n - 1, t);
        NotReplied(e, ev, t);
      } else {
        r := IntoWaitReply(e, ev, t);
        TakesAlone(e, ev, r, r);
        AnsweredIs(e, ev, r, t);
      }
      OwesNext(states, events, n - 1, r, t);
    }
  }

  lemma NobodyWaitsInitially(t: int)
    requires 0 <= t < TASKS && |Initial().tasks| == TASKS
    ensures Initial().tasks[t].state != WaitReply
  {
    hide Inv;
  }

  lemma StateAtException(s: State, ev: Event, t: int)
    requires Inv(s) && Enabled(s, ev) && 0 <= t < TASKS
    ensures |s.tasks| == TASKS && (AtException(s, ev).tasks[t].state == WaitReply <==> s.tasks[t].state == WaitReply)
  {
    hide PlacesOk, BlocksOk, ReceiversOk, AtException;
    NextWasReady(s);
    if t != Next(s) {
      DispatchFrame(s, ev, t);
    }
  }

  /** A Reply to a task ends its wait. */
  lemma NotReplied(e: State, ev: Event, t: int)
    requires Stopped(e, ev) && 0 <= t < TASKS && e.tasks[t].state == WaitReply
    requires |Handled(e, ev).tasks| == TASKS && Handled(e, ev).tasks[t].state == WaitReply
    ensures !RepliesTo(e, ev, t)
  {
    hide PlacesOk, BlocksOk, ReceiversOk, CurrentOk, Handled, SendArgsOk, ReplyArgsOk;
    if RepliesTo(e, ev, t) {
      ReplyArrives(e, ev, t);
    }
  }

  /** If debts and states agree after an iteration too, then the Reply in it, if any, was the debtor's own. */
  lemma OwnReplyNeeded(states: seq<State>, events: seq<Event>, n: int)
    requires IsRun(states, events) && Inv(states[0]) && 0 <= n < |events|
    requires OwedWait(states, events, n) && OwedWait(states, events, n + 1)
    ensures OwnReply(states, events, n)
  {
    hide Inv, Initial, StepsTo, Enabled, Handled, AtException, TakenSenders, RepliesTo, Owes;
    var e, ev := PathException(states, events, n), events[n];
    forall t | RepliesTo(e, ev, t) && Live(e.tasks, t) ensures Owes(states, events, n, e.current, t) {
      RepliedTaskWaits(e, ev, t);
      StateAtException(states[n], ev, t);
      var r := WaiterIsOwed(states, events, n, t);
      if r != e.current {
        OwesNext(states, events, n, r, t);
        NotReplied(e, ev, t);
      }
    }
  }

  lemma RepliedTaskWaits(e: State, ev: Event, t: int)
    requires Stopped(e, ev) && RepliesTo(e, ev, t) && Live(e.tasks, t)
    ensures 0 <= t < TASKS && |e.tasks| == TASKS && e.tasks[t].state == WaitReply
  {
  }

  /**
   In a run everybody owed waits for a reply, to one task only, exactly if every Reply so far came from the
   task that had taken the message.
   */
  lemma {:induction false} OwedWaitExactly(states: seq<State>, events: seq<Event>, n: int)
    requires IsRun(states, events) && Inv(states[0]) && 0 <= n < |states|
    ensures (forall i :: 0 <= i <= n ==> OwedWait(states, events, i)) <==>
            (forall i :: 0 <= i < n ==> OwnReply(states, events, i))
  {
    hide Inv, Initial, StepsTo, Enabled, OwnReply, OwedWait;
    if forall i :: 0 <= i <= n ==> OwedWait(states, events, i) {
      forall i | 0 <= i < n ensures OwnReply(states, events, i) {
        assert OwedWait(states, events, i) && OwedWait(states, events, i + 1);
        OwnReplyNeeded(states, events, i);
      }
    }
    if forall i :: 0 <= i < n ==> OwnReply(states, events, i) {
      forall i | 0 <= i <= n ensures OwedWait(states, events, i) {
        OwedWaitInRun(states, events, i);
      }
    }
  }
}

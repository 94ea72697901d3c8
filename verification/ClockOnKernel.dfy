/**
 The clock server as a task of the kernel. What the kernel guarantees about whom a server owes is what
 the theorems about the clock server assume of its messages.
 */
module ClockOnKernel {
  import opened Filing
  import opened KernelModel
  import opened KernelSteps
  import opened KernelRuns
  import opened Rendezvous
  import opened Delivery
  import opened Servers
  import opened ClockModel

  /** Everybody r replies to in iterations lo..hi. */
  ghost function AnsweredIn(states: seq<State>, events: seq<Event>, lo: int, hi: int, r: int): (ts: set<int>)
    requires IsPath(states, events) && Inv(states[0]) && 0 <= lo <= hi <= |events|
    decreases hi
  {
    if lo == hi then {}
    else AnsweredIn(states, events, lo, hi - 1, r) + Answered(PathException(states, events, hi - 1), events[hi - 1], r)
  }

  ghost predicate TakesNothing(states: seq<State>, events: seq<Event>, n: int, r: int)
    requires IsPath(states, events) && Inv(states[0]) && 0 <= n < |events| && 0 <= r < TASKS
  {
    TakenBy(PathException(states, events, n), events[n], r) == []
  }

  /** From iteration `from` on, the first message r takes is one of t, in iteration n. */
  ghost predicate TakesNext(states: seq<State>, events: seq<Event>, r: int, from: int, n: int, t: int)
    requires IsPath(states, events) && Inv(states[0]) && 0 <= from <= n < |events| && 0 <= r < TASKS
  {
    TakenFrom(states, events, n, r, t) && forall i :: from <= i < n ==> TakesNothing(states, events, i, r)
  }

  /** Where the k-th message of r begins to be served: after iteration at[k], or at the start. */
  function Begin(at: seq<nat>, k: nat): (n: nat)
    requires k <= |at|
  {
    if k == 0 then 0 else at[k - 1] + 1
  }

  /**
   In this run task r serves as the clock server does: its k-th message, from ms[k].tid, is taken in
   iteration at[k], and before it takes the next one it replies to exactly those whom the server answers.
   */
  ghost predicate ServesClock(states: seq<State>, events: seq<Event>, r: int, at: seq<nat>, ms: seq<Letter>) {
    && IsRun(states, events) && Inv(states[0]) && 0 <= r < TASKS && |at| == |ms|
    && (forall k :: 0 <= k < |at| ==> Begin(at, k) <= at[k] < |events|)
    && (forall k :: 0 <= k < |at| ==> TakesNext(states, events, r, Begin(at, k), at[k], ms[k].tid))
    && (forall k :: 0 < k < |at| ==>
          AnsweredIn(states, events, Begin(at, k), at[k], r) == Entries(Tids(Replies(ms, k - 1))))
  }

  /** While r takes no message, its debts only shrink. */
  lemma {:induction false} DebtsPaid(states: seq<State>, events: seq<Event>, lo: int, hi: int, r: int)
    requires IsPath(states, events) && Inv(states[0]) && 0 <= lo <= hi <= |events| && 0 <= r < TASKS
    requires forall n :: lo <= n < hi ==> TakesNothing(states, events, n, r)
    ensures Owed(states, events, hi, r) == Owed(states, events, lo, r) - AnsweredIn(states, events, lo, hi, r)
    decreases hi
  {
    hide Inv, Initial, StepsTo, Owed, TakesNothing, Answered, Enabled, CallOk, AtException, Handled, TakenBy;
    if lo == hi {
    } else {
      DebtsPaid(states, events, lo, hi - 1, r);
      NothingTaken(states, events, hi - 1, r);
      TakenAwayTwice(Owed(states, events, lo, r), AnsweredIn(states, events, lo, hi - 1, r),
                     Answered(PathException(states, events, hi - 1), events[hi - 1], r));
    }
  }

  lemma TakenAwayTwice(a: set<int>, b: set<int>, c: set<int>)
    ensures a - b - c == a - (b + c)
  {
  }

  lemma NothingTaken(states: seq<State>, events: seq<Event>, n: int, r: int)
    requires IsPath(states, events) && Inv(states[0]) && 0 <= n < |events| && 0 <= r < TASKS
    requires TakesNothing(states, events, n, r)
    ensures Owed(states, events, n + 1, r) ==
            Owed(states, events, n, r) - Answered(PathException(states, events, n), events[n], r)
  {
    hide Inv, Initial, StepsTo, Enabled, Handled, AtException, Answered, TakenBy, CallOk;
  }

  lemma DebtTaken(states: seq<State>, events: seq<Event>, n: int, r: int, t: int)
    requires IsPath(states, events) && Inv(states[0]) && 0 <= n < |events| && 0 <= r < TASKS
    requires TakenFrom(states, events, n, r, t)
    ensures 0 <= t < TASKS && Owed(states, events, n + 1, r) == Owed(states, events, n, r) + {t}
  {
    hide Inv, Initial, StepsTo, Enabled, Handled, AtException, Answered, TakenBy, CallOk;
    var e := PathException(states, events, n);
    TakesAlone(e, events[n], r, r);
    TakenNow(states[n], events[n], r, t);
  }

  /** The tasks the kernel run makes r owe are those the clock server has waiting. */
  lemma {:induction false} OwedAreWaiting(states: seq<State>, events: seq<Event>, r: int, at: seq<nat>, ms: seq<Letter>, k: nat)
    requires ServesClock(states, events, r, at, ms) && k < |ms|
    ensures Owed(states, events, at[k], r) == Waiting(ms, k)
  {
    hide Inv, Initial, IsPath, Owed, AnsweredIn, TakenFrom, TakesNothing, Tids, Replies, Entries;
    assert TakesNext(states, events, r, Begin(at, k), at[k], ms[k].tid);
    DebtsPaid(states, events, Begin(at, k), at[k], r);
    if k == 0 {
      NothingOwed(states, events, r);
    } else {
      OwedAreWaiting(states, events, r, at, ms, k - 1);
      assert TakesNext(states, events, r, Begin(at, k - 1), at[k - 1], ms[k - 1].tid);
      DebtTaken(states, events, at[k - 1], r, ms[k - 1].tid);
    }
  }

  lemma NothingOwed(states: seq<State>, events: seq<Event>, r: int)
    requires IsPath(states, events) && Inv(states[0]) && 0 <= r < TASKS
    ensures Owed(states, events, 0, r) == {}
  {
  }

  /**
   In every run in which only the task that took a message replies to its sender, the messages of a task
   that serves as the clock server are as the theorems about the server assume; and whomever the server
   still has waiting is in WATIREPLY.
   */
  lemma KernelDelivers(states: seq<State>, events: seq<Event>, r: int, at: seq<nat>, ms: seq<Letter>)
    requires ServesClock(states, events, r, at, ms) && ClockModel.Messages(ms)
    requires forall i :: 0 <= i < |events| ==> OwnReply(states, events, i)
    ensures FromTasks(ms)
    ensures forall k, t :: 0 <= k < |ms| && t in Waiting(ms, k) ==>
              0 <= t < |states[at[k]].tasks| && states[at[k]].tasks[t].state == WaitReply
  {
    hide Inv, StepsTo, Initial, Owed, Waiting, OwnReply, TakesNext, AnsweredIn, Replies, Tids;
    forall k | 0 <= k < |ms|
      ensures 0 <= ms[k].tid < 64 && ms[k].tid !in Waiting(ms, k)
      ensures forall t :: t in Waiting(ms, k) ==> 0 <= t < |states[at[k]].tasks| && states[at[k]].tasks[t].state == WaitReply
    {
      OneDelivery(states, events, r, at, ms, k);
    }
  }

  lemma OneDelivery(states: seq<State>, events: seq<Event>, r: int, at: seq<nat>, ms: seq<Letter>, k: nat)
    requires ServesClock(states, events, r, at, ms) && k < |ms|
    requires forall i :: 0 <= i < |events| ==> OwnReply(states, events, i)
    ensures |at| == |ms| && at[k] < |states|
    ensures 0 <= ms[k].tid < TASKS && ms[k].tid !in Waiting(ms, k)
    ensures forall t :: t in Waiting(ms, k) ==> 0 <= t < |states[at[k]].tasks| && states[at[k]].tasks[t].state == WaitReply
  {
    hide Inv, Owed, OwnReply, Waiting, TakesNothing, TakenFrom, Initial, StepsTo, AnsweredIn, Replies, Tids;
    assert TakesNext(states, events, r, Begin(at, k), at[k], ms[k].tid);
    OwedAreWaiting(states, events, r, at, ms, k);
    DebtTaken(states, events, at[k], r, ms[k].tid);
    forall t | t in Waiting(ms, k)
      ensures 0 <= t < |states[at[k]].tasks| && states[at[k]].tasks[t].state == WaitReply && t != ms[k].tid
    {
      OwedTaskWaits(states, events, at[k], r, t);
    }
  }
}

/**
 The clock server's message loop (src/clock_server.c) on plain values, and what holds
 over every sequence of requests: who is answered, when, and with what.
 */
module ClockModel {
  import opened CInts
  import opened Filing
  import opened DelayQueues

  const TICK: int := 0
  const TIME: int := 1
  const DELAY: int := 2
  const DELAY_UNTIL: int := 3

  datatype Msg = Msg(action: int, ticks: int)

  /** A message with the sender Receive reported, or an answer with the task Reply names. */
  datatype Letter = Letter(tid: int, msg: Msg)

  datatype Clock = Clock(ticks: int, queue: seq<Entry>)

  /** The leading entries whose deadline is not after the time. */
  function Due(q: seq<Entry>, ticks: int): (k: nat)
    ensures k <= |q|
  {
    NotAfter(q, ticks)
  }

  function WakeUps(q: seq<Entry>, ticks: int): (r: seq<Letter>)
    ensures |r| == |q|
    ensures forall i :: 0 <= i < |r| ==> r[i] == Letter(q[i].tid, Msg(TICK, ticks))
  {
    seq(|q|, i requires 0 <= i < |q| => Letter(q[i].tid, Msg(TICK, ticks)))
  }

  /** One pass through the message loop: the new state and the replies, in order. */
  function Serve(c: Clock, m: Letter): (r: (Clock, seq<Letter>)) {
    if m.msg.action == TICK then
      var ticks := (c.ticks + 1) % U32;
      var k := Due(c.queue, ticks);
      (Clock(ticks, c.queue[k..]), [m] + WakeUps(c.queue[..k], ticks))
    else if m.msg.action == TIME then
      (c, [Letter(m.tid, Msg(TIME, c.ticks))])
    else if m.msg.action == DELAY || m.msg.action == DELAY_UNTIL then
      var deadline := Deadline(c, m);
      if deadline <= c.ticks then (c, [Letter(m.tid, Msg(m.msg.action, deadline))])
      else (Clock(c.ticks, Inserted(c.queue, Entry(m.tid, deadline))), [])
    else
      (c, [])
  }

  /** When a delay request is due, computed as an unsigned 32-bit number. */
  function Deadline(c: Clock, m: Letter): (d: int) {
    if m.msg.action == DELAY then (m.msg.ticks + c.ticks) % U32 else m.msg.ticks
  }

  predicate IsDelay(m: Letter) {
    m.msg.action == DELAY || m.msg.action == DELAY_UNTIL
  }

  // ---- The server's invariant ------------------------------------------------------------------

  predicate U32Ok(v: int) { 0 <= v < U32 }

  /** Between messages the queue is sorted and nobody in it is due. */
  ghost predicate ClockOk(c: Clock) {
    && U32Ok(c.ticks)
    && Sorted(c.queue)
    && (forall i :: 0 <= i < |c.queue| ==> c.ticks < c.queue[i].delay < U32)
  }

  lemma ServeKeepsClock(c: Clock, m: Letter)
    requires ClockOk(c) && U32Ok(m.msg.ticks)
    ensures ClockOk(Serve(c, m).0)
  {
    hide NotAfter, Inserted;
    if m.msg.action == TICK {
      DueAreLeading(c.queue, (c.ticks + 1) % U32);
    } else if IsDelay(m) && Deadline(c, m) > c.ticks {
      FutureKeepsClock(c, Entry(m.tid, Deadline(c, m)));
    }
  }

  lemma FutureKeepsClock(c: Clock, e: Entry)
    requires ClockOk(c) && c.ticks < e.delay < U32
    ensures ClockOk(Clock(c.ticks, Inserted(c.queue, e)))
  {
    InsertedSorted(c.queue, e);
  }

  lemma DueAreLeading(q: seq<Entry>, ticks: int)
    requires Sorted(q)
    ensures forall i :: 0 <= i < |q| ==> (i < Due(q, ticks) <==> q[i].delay <= ticks)
  {
  }

  /**
   A TICK wakes exactly the entries whose deadline is the new time, also when the counter wraps
   around: then nobody is queued.
   */
  lemma TickWakesExactly(c: Clock, m: Letter)
    requires ClockOk(c) && m.msg.action == TICK
    ensures var (c', replies) := Serve(c, m);
            && (forall i :: 0 <= i < |c.queue| ==> (i < |c.queue| - |c'.queue| <==> c.queue[i].delay == c'.ticks))
            && c'.queue == c.queue[|c.queue| - |c'.queue|..]
            && replies == [m] + WakeUps(c.queue[..|c.queue| - |c'.queue|], c'.ticks)
  {
  }

  // ---- One delayed task --------------------------------------------------------------------------

  /** A queued task stays queued, unanswered as such, until the counter is at its deadline, and is answered right then. */
  lemma QueuedUntilDeadline(c: Clock, m: Letter, e: Entry)
    requires ClockOk(c) && U32Ok(m.msg.ticks) && e in c.queue
    ensures var (c', replies) := Serve(c, m);
            && (c'.ticks != e.delay ==> e in c'.queue)
            && (c'.ticks == e.delay ==> m.msg.action == TICK && Letter(e.tid, Msg(TICK, e.delay)) in replies && e !in c'.queue)
  {
  }

  /**
   A Delay of k ticks from time t is queued with deadline t + k exactly when k is positive and
   t + k is still a 32-bit number; otherwise it is answered at once.
   */
  lemma DelayIsQueuedUnlessItWraps(c: Clock, m: Letter)
    requires ClockOk(c) && m.msg.action == DELAY && U32Ok(m.msg.ticks)
    ensures 0 < m.msg.ticks && c.ticks + m.msg.ticks < U32 <==> Serve(c, m).1 == []
    ensures Serve(c, m).1 == [] ==> Serve(c, m).0 == Clock(c.ticks, Inserted(c.queue, Entry(m.tid, c.ticks + m.msg.ticks)))
  {
    hide Inserted, Sorted, NotAfter;
  }

  /** Delay passes a non-negative C int, so while the counter is at most 2^31 no sum wraps. */
  lemma NoWrapUpToHalf(c: Clock, ticks: int)
    requires ClockOk(c) && 0 <= ticks <= I32_MAX && c.ticks <= 0x8000_0000
    ensures Deadline(c, Letter(0, Msg(DELAY, ticks))) == c.ticks + ticks
  {
  }

  /**
   Every answer to Delay and DelayUntil, at once or later, carries the deadline, and they return it as a C
   int. For Delay that is now + ticks exactly while the sum is below 2^31; DelayUntil always returns its
   argument, even one that has passed already.
   */
  lemma DelayReturnsDeadline(c: Clock, m: Letter)
    requires ClockOk(c) && IsDelay(m) && 0 <= m.msg.ticks <= I32_MAX
    ensures m.msg.action == DELAY ==>
              (I32(Deadline(c, m)) == c.ticks + m.msg.ticks <==> c.ticks + m.msg.ticks <= I32_MAX)
    ensures m.msg.action == DELAY_UNTIL ==> I32(Deadline(c, m)) == m.msg.ticks
    ensures Serve(c, m).1 != [] ==> Serve(c, m).1 == [Letter(m.tid, Msg(m.msg.action, Deadline(c, m)))]
    ensures Serve(c, m).1 == [] ==> Entry(m.tid, Deadline(c, m)) in Serve(c, m).0.queue
  {
    hide NotAfter, Sorted;
  }

  /** The first deadline that does not come back as it is: one tick of delay at 2^31 - 1. */
  lemma DelayTurnsNegative()
    ensures I32(Deadline(Clock(I32_MAX, []), Letter(4, Msg(DELAY, 1)))) == I32_MIN
  {
  }

  // ---- Runs -------------------------------------------------------------------------------------------

  /** The server's states while it serves a sequence of messages. */
  function After(ms: seq<Letter>, n: nat): (c: Clock)
    requires n <= |ms|
  {
    if n == 0 then Clock(0, []) else Serve(After(ms, n - 1), ms[n - 1]).0
  }

  function Replies(ms: seq<Letter>, n: nat): (r: seq<Letter>)
    requires n < |ms|
  {
    Serve(After(ms, n), ms[n]).1
  }

  ghost predicate Messages(ms: seq<Letter>) {
    forall i :: 0 <= i < |ms| ==> U32Ok(ms[i].msg.ticks)
  }

  lemma {:induction false} RunKeepsClock(ms: seq<Letter>, n: nat)
    requires Messages(ms) && n <= |ms|
    ensures ClockOk(After(ms, n))
  {
    if n == 0 {
    } else {
      RunKeepsClock(ms, n - 1);
      ServeKeepsClock(After(ms, n - 1), ms[n - 1]);
    }
  }

  /** The TICKs among messages i..n. */
  function Ticks(ms: seq<Letter>, i: nat, n: nat): (k: nat)
    requires i <= n <= |ms|
  {
    if i == n then 0 else Ticks(ms, i, n - 1) + if ms[n - 1].msg.action == TICK then 1 else 0
  }

  lemma ServeTicks(c: Clock, m: Letter)
    ensures Serve(c, m).0.ticks == if m.msg.action == TICK then (c.ticks + 1) % U32 else c.ticks
  {
  }

  /** While it has not wrapped, the counter counts TICKs. */
  lemma {:induction false} CounterCountsTicks(ms: seq<Letter>, i: nat, n: nat)
    requires Messages(ms) && i <= n <= |ms| && After(ms, i).ticks + Ticks(ms, i, n) < U32
    ensures After(ms, n).ticks == After(ms, i).ticks + Ticks(ms, i, n)
    decreases n
  {
    hide Serve;
    RunKeepsClock(ms, i);
    if i == n {
    } else {
      CounterCountsTicks(ms, i, n - 1);
      ServeTicks(After(ms, n - 1), ms[n - 1]);
    }
  }

  /** TIME is answered with the number of TICKs so far, while that does not wrap, and changes nothing. */
  lemma TimeAnswersTicks(ms: seq<Letter>, n: nat)
    requires Messages(ms) && n < |ms| && ms[n].msg.action == TIME && Ticks(ms, 0, n) < U32
    ensures Replies(ms, n) == [Letter(ms[n].tid, Msg(1, Ticks(ms, 0, n)))] && After(ms, n + 1) == After(ms, n)
  {
    hide NotAfter, Inserted;
    CounterCountsTicks(ms, 0, n);
  }

  /** An action that is none of the four gets no reply and changes nothing. */
  lemma UnknownActionIgnored(ms: seq<Letter>, n: nat)
    requires n < |ms| && ms[n].msg.action !in {0, 1, 2, 3}
    ensures Replies(ms, n) == [] && After(ms, n + 1) == After(ms, n)
  {
    hide NotAfter, Inserted;
  }

  /** The notifier gets its TICK back as it sent it, before anybody is woken. */
  lemma NotifierAnsweredFirst(ms: seq<Letter>, n: nat)
    requires n < |ms| && ms[n].msg.action == 0
    ensures Replies(ms, n) != [] && Replies(ms, n)[0] == ms[n]
  {
    hide NotAfter;
  }

  /**
   Exact wake-up: a request received as message i with deadline d in the future is still queued
   after any further messages with fewer than d - now TICKs, and the message that is that many-th
   TICK answers it, with the deadline.
   */
  lemma {:induction false} WokenOnTheTick(ms: seq<Letter>, i: nat, n: nat)
    requires Messages(ms) && i < n <= |ms| && IsDelay(ms[i])
    requires var now, d := After(ms, i).ticks, Deadline(After(ms, i), ms[i]);
             now < d && Ticks(ms, i + 1, n) < d - now
    ensures var now, d := After(ms, i).ticks, Deadline(After(ms, i), ms[i]);
            && Entry(ms[i].tid, d) in After(ms, n).queue
            && (n < |ms| && Ticks(ms, i + 1, n + 1) == d - now ==>
                  Letter(ms[i].tid, Msg(TICK, d)) in Replies(ms, n) && Entry(ms[i].tid, d) !in After(ms, n + 1).queue)
    decreases n
  {
    hide Serve, Sorted, Deadline;
    var c := After(ms, i);
    var e := Entry(ms[i].tid, Deadline(c, ms[i]));
    RunKeepsClock(ms, i);
    RunKeepsClock(ms, n);
    DeadlineIsU32(c, ms[i]);
    ServeTicks(c, ms[i]);
    CounterCountsTicks(ms, i + 1, n);
    if n == i + 1 {
      FutureIsQueued(c, ms[i]);
    } else {
      WokenOnTheTick(ms, i, n - 1);
      RunKeepsClock(ms, n - 1);
      QueuedUntilDeadline(After(ms, n - 1), ms[n - 1], e);
    }
    if n < |ms| && Ticks(ms, i + 1, n + 1) == e.delay - c.ticks {
      QueuedUntilDeadline(After(ms, n), ms[n], e);
      ServeTicks(After(ms, n), ms[n]);
    }
  }

  lemma FutureIsQueued(c: Clock, m: Letter)
    requires ClockOk(c) && IsDelay(m) && c.ticks < Deadline(c, m)
    ensures Entry(m.tid, Deadline(c, m)) in Serve(c, m).0.queue
  {
  }

  lemma DeadlineIsU32(c: Clock, m: Letter)
    requires U32Ok(m.msg.ticks)
    ensures U32Ok(Deadline(c, m))
  {
  }

  // ---- At most one answer each ------------------------------------------------------------------------------

  function Tids(replies: seq<Letter>): (r: seq<int>)
    ensures |r| == |replies|
    ensures forall i :: 0 <= i < |r| ==> r[i] == replies[i].tid
  {
    seq(|replies|, i requires 0 <= i < |replies| => replies[i].tid)
  }

  function QueueTids(q: seq<Entry>): (r: seq<int>)
    ensures |r| == |q|
    ensures forall i :: 0 <= i < |r| ==> r[i] == q[i].tid
  {
    seq(|q|, i requires 0 <= i < |q| => q[i].tid)
  }

  /** The tasks whose request was received and not yet answered. */
  function Waiting(ms: seq<Letter>, n: nat): (w: set<int>)
    requires n <= |ms|
  {
    if n == 0 then {} else Waiting(ms, n - 1) + {ms[n - 1].tid} - Entries(Tids(Replies(ms, n - 1)))
  }

  /**
   What the server relies on: the tids are those of the 64 slots, and a task whose message was received
   sends again only after the server's reply. ClockOnKernel.KernelDelivers derives it from runs of the
   kernel in which only the task that took a message replies to its sender.
   */
  ghost predicate FromTasks(ms: seq<Letter>) {
    && Messages(ms)
    && (forall n :: 0 <= n < |ms| ==> 0 <= ms[n].tid < 64 && ms[n].tid !in Waiting(ms, n))
  }

  /** Queued tasks are distinct and waiting. */
  ghost predicate QueueWaits(q: seq<Entry>, waiting: set<int>) {
    && NoDuplicates(QueueTids(q))
    && (forall i :: 0 <= i < |q| ==> q[i].tid in waiting && 0 <= q[i].tid < 64)
  }

  /** Every reply answers a different task that is waiting, or has just asked. */
  lemma ServeAnswersWaiting(c: Clock, m: Letter, waiting: set<int>)
    requires ClockOk(c) && QueueWaits(c.queue, waiting) && m.tid !in waiting && 0 <= m.tid < 64
    ensures var (c', replies) := Serve(c, m);
            && NoDuplicates(Tids(replies))
            && (forall i :: 0 <= i < |replies| ==> replies[i].tid in waiting + {m.tid})
            && QueueWaits(c'.queue, waiting + {m.tid} - Entries(Tids(replies)))
  {
    if m.msg.action == TICK {
      TickAnswers(c, m, waiting);
    } else {
      assert Entries([]) == {};
      if IsDelay(m) && Deadline(c, m) > c.ticks {
        InsertWaits(c.queue, Entry(m.tid, Deadline(c, m)), waiting);
      } else if m.msg.action == TIME || IsDelay(m) {
        OtherAnswers(c, m, waiting);
      }
    }
  }

  lemma InsertWaits(q: seq<Entry>, e: Entry, waiting: set<int>)
    requires QueueWaits(q, waiting) && e.tid !in waiting && 0 <= e.tid < 64
    ensures QueueWaits(Inserted(q, e), waiting + {e.tid})
  {
  }

  lemma OtherAnswers(c: Clock, m: Letter, waiting: set<int>)
    requires QueueWaits(c.queue, waiting) && m.tid !in waiting
    requires m.msg.action == TIME || (IsDelay(m) && Deadline(c, m) <= c.ticks)
    ensures var (c', replies) := Serve(c, m);
            && NoDuplicates(Tids(replies))
            && (forall i :: 0 <= i < |replies| ==> replies[i].tid in waiting + {m.tid})
            && QueueWaits(c'.queue, waiting + {m.tid} - Entries(Tids(replies)))
  {
  }

  lemma TickAnswers(c: Clock, m: Letter, waiting: set<int>)
    requires ClockOk(c) && QueueWaits(c.queue, waiting) && m.tid !in waiting && m.msg.action == TICK
    ensures var (c', replies) := Serve(c, m);
            && NoDuplicates(Tids(replies))
            && (forall i :: 0 <= i < |replies| ==> replies[i].tid in waiting + {m.tid})
            && QueueWaits(c'.queue, waiting + {m.tid} - Entries(Tids(replies)))
  {
    hide NotAfter, Sorted;
    var ticks := (c.ticks + 1) % U32;
    SplitWaits(c.queue, Due(c.queue, ticks), m.tid, waiting);
    assert Tids(Serve(c, m).1) == [m.tid] + QueueTids(c.queue[..Due(c.queue, ticks)]);
    forall i | 0 <= i < |Serve(c, m).1| ensures Serve(c, m).1[i].tid in waiting + {m.tid} {
      assert Tids(Serve(c, m).1)[i] in waiting + {m.tid};
    }
  }

  /** Answering the notifier and the first k tasks leaves the others waiting. */
  lemma SplitWaits(q: seq<Entry>, k: int, tid: int, waiting: set<int>)
    requires QueueWaits(q, waiting) && tid !in waiting && 0 <= k <= |q|
    ensures var answered := [tid] + QueueTids(q[..k]);
            && NoDuplicates(answered)
            && (forall i :: 0 <= i < |answered| ==> answered[i] in waiting + {tid})
            && QueueWaits(q[k..], waiting + {tid} - Entries(answered))
  {
  }

  lemma {:induction false} RunAnswersWaiting(ms: seq<Letter>, n: nat)
    requires FromTasks(ms) && n <= |ms|
    ensures ClockOk(After(ms, n)) && QueueWaits(After(ms, n).queue, Waiting(ms, n))
  {
    hide Serve, QueueWaits, ClockOk, FromTasks, Messages, Tids, Entries;
    MessageFromTask(ms, n);
    RunKeepsClock(ms, n);
    if n == 0 {
      NobodyQueued({});
    } else {
      RunAnswersWaiting(ms, n - 1);
      RunKeepsClock(ms, n - 1);
      ServeAnswersWaiting(After(ms, n - 1), ms[n - 1], Waiting(ms, n - 1));
    }
  }

  lemma MessageFromTask(ms: seq<Letter>, n: nat)
    requires FromTasks(ms)
    ensures Messages(ms)
    ensures 0 < n <= |ms| ==> 0 <= ms[n - 1].tid < 64 && ms[n - 1].tid !in Waiting(ms, n - 1)
  {
  }

  lemma NobodyQueued(waiting: set<int>)
    ensures QueueWaits([], waiting)
  {
  }

  /**
   In every run, each reply goes to a task that is still waiting for one, no task is answered twice
   by one message, and the queue never holds more than 64 entries.
   */
  lemma EachRequestAnsweredOnce(ms: seq<Letter>, n: nat)
    requires FromTasks(ms) && n < |ms|
    ensures NoDuplicates(Tids(Replies(ms, n)))
    ensures forall i :: 0 <= i < |Replies(ms, n)| ==> Replies(ms, n)[i].tid in Waiting(ms, n) + {ms[n].tid}
    ensures forall i :: 0 <= i < |Replies(ms, n)| ==> Replies(ms, n)[i].tid !in Waiting(ms, n + 1)
    ensures |After(ms, n).queue| <= 64
  {
    RunAnswersWaiting(ms, n);
    ServeAnswersWaiting(After(ms, n), ms[n], Waiting(ms, n));
    QueueFits(After(ms, n).queue, Waiting(ms, n));
    forall i | 0 <= i < |Replies(ms, n)|
      ensures Replies(ms, n)[i].tid !in Waiting(ms, n + 1)
    {
      assert Tids(Replies(ms, n))[i] in Entries(Tids(Replies(ms, n)));
    }
  }

  lemma QueueFits(q: seq<Entry>, waiting: set<int>)
    requires QueueWaits(q, waiting)
    ensures |q| <= 64
  {
    Pigeonhole(QueueTids(q), 64);
  }

  /** And not before: as long as fewer than d - now TICKs have come, no message answers the delayed task. */
  lemma NoEarlyAnswer(ms: seq<Letter>, i: nat, n: nat)
    requires FromTasks(ms) && i < n < |ms| && IsDelay(ms[i])
    requires var now, d := After(ms, i).ticks, Deadline(After(ms, i), ms[i]);
             now < d && Ticks(ms, i + 1, n + 1) < d - now
    ensures ms[i].tid !in Tids(Replies(ms, n))
  {
    hide Serve, Sorted, FromTasks, After, Deadline;
    MessageFromTask(ms, n + 1);
    WokenOnTheTick(ms, i, n + 1);
    RunAnswersWaiting(ms, n + 1);
    var e := Entry(ms[i].tid, Deadline(After(ms, i), ms[i]));
    var k :| 0 <= k < |After(ms, n + 1).queue| && After(ms, n + 1).queue[k] == e;
    assert e.tid in Waiting(ms, n + 1);
  }
}

/**
 The clock server's message buffer (src/clock_server.c): Receive copies the bytes of a message over
 the variable the last one was in, so a message shorter than the variable keeps the end of what was
 there; an empty message ends the server.
 */
module ClockMessages {
  import opened CInts
  import opened ClockModel

  const MSG_BYTES: nat := 8

  /** What a task sends. */
  datatype Packet = Packet(tid: int, bytes: seq<Byte>)

  /** The buffer after Receive. */
  function Received(buffer: seq<Byte>, bytes: seq<Byte>): (r: seq<Byte>)
    requires |buffer| == MSG_BYTES
    ensures |r| == MSG_BYTES
  {
    var n := if |bytes| < MSG_BYTES then |bytes| else MSG_BYTES;
    bytes[..n] + buffer[n..]
  }

  /** The buffer read as an action and a tick count. */
  function LetterOf(tid: int, buffer: seq<Byte>): (m: Letter)
    requires |buffer| == MSG_BYTES
  {
    Letter(tid, Msg(U32At(buffer, 0), U32At(buffer, 4)))
  }

  /** The buffer after the message was served and the counter is at `ticks`. */
  function LeftOver(buffer: seq<Byte>, ticks: int, m: Letter): (r: seq<Byte>)
    requires |buffer| == MSG_BYTES
    ensures |r| == MSG_BYTES
  {
    if m.msg.action == TICK || m.msg.action == TIME then buffer[..4] + IntBytes(ticks)
    else if m.msg.action == DELAY then buffer[..4] + IntBytes(m.msg.ticks + ticks)
    else buffer
  }

  /** The messages that the first n packets amount to, and the buffer after serving them. */
  function Opened(ps: seq<Packet>, garbage: seq<Byte>, n: nat): (r: (seq<Letter>, seq<Byte>))
    requires n <= |ps| && |garbage| == MSG_BYTES
    ensures |r.0| == n && |r.1| == MSG_BYTES
  {
    if n == 0 then ([], garbage)
    else
      var (ms, buffer) := Opened(ps, garbage, n - 1);
      var buffer' := Received(buffer, ps[n - 1].bytes);
      var m := LetterOf(ps[n - 1].tid, buffer');
      (ms + [m], LeftOver(buffer', After(ms + [m], n).ticks, m))
  }

  /** The packets before the first empty one. */
  function Served(ps: seq<Packet>): (n: nat)
    ensures n <= |ps|
    ensures forall k :: 0 <= k < n ==> ps[k].bytes != []
    ensures n < |ps| ==> ps[n].bytes == []
  {
    if ps == [] || ps[0].bytes == [] then 0 else 1 + Served(ps[1..])
  }

  lemma {:induction false} OpenedPrefix(ps: seq<Packet>, garbage: seq<Byte>, n: nat, k: nat)
    requires n <= k <= |ps| && |garbage| == MSG_BYTES
    ensures Opened(ps, garbage, k).0[..n] == Opened(ps, garbage, n).0
  {
    hide Received, LetterOf, LeftOver, After, Serve;
    if n == k {
    } else {
      OpenedPrefix(ps, garbage, n, k - 1);
      assert Opened(ps, garbage, k).0[..k - 1] == Opened(ps, garbage, k - 1).0;
    }
  }

  lemma {:induction false} AfterPrefix(ms: seq<Letter>, k: nat, n: nat)
    requires n <= k <= |ms|
    ensures After(ms[..k], n) == After(ms, n)
  {
    hide Serve;
    if n == 0 {
    } else {
      assert ms[..k][n - 1] == ms[n - 1];
      AfterPrefix(ms, k, n - 1);
    }
  }

  /** Packet n as the server finds it, and the buffer it leaves, among the first k packets. */
  lemma NextLetter(ps: seq<Packet>, garbage: seq<Byte>, n: nat, k: nat)
    requires n < k <= |ps| && |garbage| == MSG_BYTES
    ensures var ms, buffer := Opened(ps, garbage, k).0, Received(Opened(ps, garbage, n).1, ps[n].bytes);
            && ms[n] == LetterOf(ps[n].tid, buffer)
            && Opened(ps, garbage, n + 1).1 == LeftOver(buffer, After(ms, n + 1).ticks, ms[n])
  {
    hide Received, LetterOf, LeftOver, After, Serve;
    var ms := Opened(ps, garbage, k).0;
    OpenedPrefix(ps, garbage, n + 1, k);
    AfterPrefix(ms, n + 1, n + 1);
    assert ms[..n + 1][n] == ms[n];
  }

  /** The tick count in the buffer after a message was served: the counter, a deadline, or what the message held. */
  ghost function TicksLeft(ms: seq<Letter>, n: nat): (ticks: int)
    requires n < |ms|
  {
    if ms[n].msg.action == TICK || ms[n].msg.action == TIME then After(ms, n + 1).ticks
    else if ms[n].msg.action == DELAY then (After(ms, n).ticks + ms[n].msg.ticks) % U32
    else ms[n].msg.ticks
  }

  /** A message of four bytes brings an action only: its tick count is the one the last message left behind. */
  lemma ShortMessage(ps: seq<Packet>, garbage: seq<Byte>, n: nat, k: nat)
    requires n + 1 < k <= |ps| && |garbage| == MSG_BYTES && |ps[n + 1].bytes| == 4
    ensures var ms := Opened(ps, garbage, k).0;
            && (forall i :: 0 <= i < k ==> U32Ok(ms[i].msg.ticks))
            && ms[n + 1].msg.action == U32At(ps[n + 1].bytes, 0) && ms[n + 1].msg.ticks == TicksLeft(ms, n)
  {
    hide LetterOf, LeftOver, Opened, Received, TicksLeft, IntBytes, U32At;
    var ms := Opened(ps, garbage, k).0;
    NextLetter(ps, garbage, n, k);
    NextLetter(ps, garbage, n + 1, k);
    forall i | 0 <= i < k ensures U32Ok(ms[i].msg.ticks) {
      NextLetter(ps, garbage, i, k);
      LetterInRange(ps[i].tid, Received(Opened(ps, garbage, i).1, ps[i].bytes));
    }
    var before := Received(Opened(ps, garbage, n).1, ps[n].bytes);
    ClockStaysInRange(ms, n);
    LeftInBuffer(before, ms, n, ps[n].tid);
    FourBytes(Opened(ps, garbage, n + 1).1, ps[n + 1].tid, ps[n + 1].bytes);
  }

  lemma LetterInRange(tid: int, buffer: seq<Byte>)
    requires |buffer| == MSG_BYTES
    ensures U32Ok(LetterOf(tid, buffer).msg.ticks)
  {
  }

  lemma ClockStaysInRange(ms: seq<Letter>, n: nat)
    requires n < |ms| && forall i :: 0 <= i < |ms| ==> U32Ok(ms[i].msg.ticks)
    ensures U32Ok(After(ms, n).ticks) && U32Ok(After(ms, n + 1).ticks)
    ensures ms[n].msg.action != TICK ==> After(ms, n + 1).ticks == After(ms, n).ticks
  {
    hide Serve;
    RunKeepsClock(ms, n);
    RunKeepsClock(ms, n + 1);
    ServeTicks(After(ms, n), ms[n]);
  }

  lemma LeftInBuffer(buffer: seq<Byte>, ms: seq<Letter>, n: nat, tid: int)
    requires |buffer| == MSG_BYTES && n < |ms| && ms[n] == LetterOf(tid, buffer) && U32Ok(ms[n].msg.ticks)
    requires U32Ok(After(ms, n).ticks) && U32Ok(After(ms, n + 1).ticks)
    requires ms[n].msg.action != TICK ==> After(ms, n + 1).ticks == After(ms, n).ticks
    ensures U32At(LeftOver(buffer, After(ms, n + 1).ticks, ms[n]), 4) == TicksLeft(ms, n)
  {
    hide After, Serve, IntBytes, U32At;
    var t := After(ms, n + 1).ticks;
    var left := LeftOver(buffer, t, ms[n]);
    if ms[n].msg.action == TICK || ms[n].msg.action == TIME {
      assert left[4..8] == IntBytes(t);
      ReadBack(left, 4, t);
    } else if ms[n].msg.action == DELAY {
      assert left[4..8] == IntBytes(ms[n].msg.ticks + t);
      ReadBack(left, 4, ms[n].msg.ticks + t);
    }
  }

  lemma FourBytes(buffer: seq<Byte>, tid: int, bytes: seq<Byte>)
    requires |buffer| == MSG_BYTES && |bytes| == 4
    ensures var m := LetterOf(tid, Received(buffer, bytes)).msg; m.action == U32At(bytes, 0) && m.ticks == U32At(buffer, 4)
  {
  }

  /** A message of the full length, or longer, is read as it was sent, whatever came before it. */
  lemma WholeMessage(ps: seq<Packet>, garbage: seq<Byte>, n: nat, k: nat)
    requires n < k <= |ps| && |garbage| == MSG_BYTES && |ps[n].bytes| >= MSG_BYTES
    ensures Opened(ps, garbage, k).0[n] == LetterOf(ps[n].tid, ps[n].bytes[..MSG_BYTES])
  {
    hide LetterOf, LeftOver, Opened;
    NextLetter(ps, garbage, n, k);
    var buffer := Opened(ps, garbage, n).1;
    assert Received(buffer, ps[n].bytes) == ps[n].bytes[..MSG_BYTES];
  }

  /** What Time, Delay and DelayUntil send is read as the action and the tick count they mean. */
  lemma RequestReadBack(tid: int, action: int, ticks: int)
    requires 0 <= action < U32 && 0 <= ticks < U32
    ensures LetterOf(tid, IntBytes(action) + IntBytes(ticks)) == Letter(tid, Msg(action, ticks))
  {
    hide IntBytes, U32At;
    var buffer := IntBytes(action) + IntBytes(ticks);
    assert buffer[0..4] == IntBytes(action) && buffer[4..8] == IntBytes(ticks);
    ReadBack(buffer, 0, action);
    ReadBack(buffer, 4, ticks);
  }
}

/**
 The clock server on its own data structures (src/clock_server.c): the delay queue's nodes
 are chunks of a memory pool. Each message is proved to be served as ClockModel.Serve says,
 with no chunk lost or handed out twice.
 */
module ClockServer {
  import opened CInts
  import opened Filing
  import opened MemoryPools
  import opened DelayQueues
  import opened ClockModel
  import opened ClockMessages

  const NODE_BYTES: nat := 16

  /** The chunks of queued nodes and the unused chunks are all the chunks, each once. */
  ghost predicate Partition(chain: seq<int>, unused: seq<int>) {
    && NoDuplicates(chain) && NoDuplicates(unused)
    && InRange(chain, CHUNKS) && InRange(unused, CHUNKS)
    && (forall i :: 0 <= i < |chain| ==> chain[i] !in unused)
    && |chain| + |unused| == CHUNKS
  }

  class Server {
    const pool: MemoryPool<DelayNode>
    const queue: DelayQueue
    var ticks: int

    ghost function Repr(): (r: set<object>) {
      {this, queue} + pool.Repr()
    }

    ghost predicate Valid()
      reads this, Repr()
    {
      && pool.Valid() && queue.data == pool.data && queue.Valid()
      && this !in pool.Repr() && queue !in pool.Repr() && this as object != queue
      && Partition(queue.chain, pool.Unused())
      && ClockOk(View())
    }

    ghost function View(): (c: Clock)
      requires queue.Valid()
      reads this, queue, queue.data
    {
      Clock(ticks, queue.Contents())
    }

    constructor ()
      ensures Valid() && fresh(Repr())
      ensures queue.Valid() && View() == After([], 0)
    {
      var p := new MemoryPool<DelayNode>();
      pool := p;
      queue := new DelayQueue(p.data);
      ticks := 0;
    }

    /** Wakes and removes everybody who is due: the loop of the TICK case. */
    method WakeDue() returns (woken: seq<Letter>)
      requires pool.Valid() && queue.data == pool.data && queue.Valid()
      requires this !in pool.Repr() && queue !in pool.Repr() && this as object != queue
      requires Partition(queue.chain, pool.Unused())
      modifies queue, pool`unusedTop, pool.unused
      ensures pool.Valid() && queue.Valid() && Partition(queue.chain, pool.Unused())
      ensures var k := Due(old(queue.Contents()), ticks);
              && queue.Contents() == old(queue.Contents())[k..]
              && woken == WakeUps(old(queue.Contents())[..k], ticks)
    {
      hide DelayQueue.Valid, DelayQueue.Contents, MemoryPool.Valid, Partition, NotAfter;
      ghost var q, k := queue.Contents(), 0;
      queue.FrontIs();
      woken := [];
      var currentNode := queue.front;
      assert q[0..] == q;
      while currentNode != NONE && pool.data[currentNode].delay <= ticks
        invariant pool.Valid() && queue.Valid() && Partition(queue.chain, pool.Unused())
        invariant 0 <= k <= |q| && currentNode == queue.front
        invariant currentNode == NONE <==> k == |q|
        invariant currentNode != NONE ==>
                    && 0 <= currentNode < pool.data.Length && queue.chain != []
                    && q[k] == Entry(pool.data[currentNode].tid, pool.data[currentNode].delay)
                    && pool.data[currentNode].next == At(queue.chain, 1)
        invariant queue.Contents() == q[k..] && woken == WakeUps(q[..k], ticks)
        invariant Due(q, ticks) == k + Due(q[k..], ticks)
        decreases |queue.chain|
      {
        DueStep(q, k, ticks);
        var wokenTid := pool.data[currentNode].tid;
        woken := woken + [Letter(wokenTid, Msg(TICK, ticks))];
        var next := pool.data[currentNode].next;
        FreeFront();
        currentNode := next;
        queue.FrontIs();
        k := k + 1;
      }
      DueEnd(q, k, ticks);
    }

    static lemma DueStep(q: seq<Entry>, k: nat, ticks: int)
      requires k < |q| && q[k].delay <= ticks
      ensures Due(q[k..], ticks) == 1 + Due(q[k + 1..], ticks) && q[k..][1..] == q[k + 1..]
      ensures WakeUps(q[..k + 1], ticks) == WakeUps(q[..k], ticks) + [Letter(q[k].tid, Msg(TICK, ticks))]
    {
      assert q[k..][0] == q[k] && q[k..][1..] == q[k + 1..];
    }

    static lemma DueEnd(q: seq<Entry>, k: nat, ticks: int)
      requires k == |q| || (k < |q| && q[k].delay > ticks)
      ensures Due(q[k..], ticks) == 0
    {
    }

    /** Takes the first node off the queue and gives its chunk back. */
    method FreeFront()
      requires pool.Valid() && queue.data == pool.data && queue.Valid() && queue.chain != []
      requires queue !in pool.Repr() && Partition(queue.chain, pool.Unused())
      modifies queue, pool`unusedTop, pool.unused
      ensures pool.Valid() && queue.Valid() && Partition(queue.chain, pool.Unused())
      ensures queue.Contents() == old(queue.Contents())[1..]
      ensures queue.chain == old(queue.chain)[1..]
    {
      var node := queue.Pop();
      assert node == old(queue.chain)[0] && node !in pool.Unused();
      pool.Free(node);
    }

    /** Queues a request that lies in the future. */
    method Enqueue(tid: int, deadline: int)
      requires Valid() && queue.size < CHUNKS && ticks < deadline < U32
      modifies Repr()
      ensures Valid() && View() == Clock(old(ticks), Inserted(old(queue.Contents()), Entry(tid, deadline)))
    {
      hide Sorted, NotAfter;
      FutureKeepsClock(View(), Entry(tid, deadline));
      var node := pool.Allocate(NODE_BYTES);
      assert old(pool.Unused())[|pool.Unused()|] == node;
      pool.data[node] := DelayNode(tid, deadline, pool.data[node].next);
      DelayQueue.RewriteOutside(old(queue.data[..]), queue.data[..], queue.chain);
      queue.Add(node);
      PartitionMoves(old(queue.chain), old(pool.Unused()), queue.chain, pool.Unused(), node);
    }

    static lemma PartitionMoves(chain: seq<int>, unused: seq<int>, chain': seq<int>, unused': seq<int>, node: int)
      requires Partition(chain, unused) && unused == unused' + [node]
      requires exists k :: 0 <= k <= |chain| && chain' == chain[..k] + [node] + chain[k..]
      requires NoDuplicates(chain')
      ensures Partition(chain', unused')
    {
      assert unused[|unused'|] == node;
      var k :| 0 <= k <= |chain| && chain' == chain[..k] + [node] + chain[k..];
      assert forall i :: 0 <= i < |chain'| ==> chain'[i] == (if i < k then chain[i] else if i == k then node else chain[i - 1]);
      assert forall j :: 0 <= j < |unused'| ==> unused'[j] == unused[j];
    }

    /** The TICK case: the notifier is answered first, then everybody who is due. */
    method Tick(m: Letter) returns (replies: seq<Letter>)
      requires Valid() && U32Ok(m.msg.ticks) && m.msg.action == TICK
      modifies Repr()
      ensures Valid() && queue.Valid()
      ensures (View(), replies) == Serve(old(View()), m)
    {
      hide DelayQueue.Valid, DelayQueue.Contents, MemoryPool.Valid, Partition, ClockOk, Serve, Due, WakeUps;
      ServeKeepsClock(View(), m);
      ServeTickIs(View(), m);
      ticks := (ticks + 1) % U32;
      replies := [m];
      var woken := WakeDue();
      replies := replies + woken;
    }

    static lemma ServeTickIs(c: Clock, m: Letter)
      requires m.msg.action == TICK
      ensures var t := (c.ticks + 1) % U32;
              Serve(c, m) == (Clock(t, c.queue[Due(c.queue, t)..]), [m] + WakeUps(c.queue[..Due(c.queue, t)], t))
    {
    }

    /** One pass through the message loop. */
    method ServeMessage(m: Letter) returns (replies: seq<Letter>)
      requires Valid() && U32Ok(m.msg.ticks) && queue.size < CHUNKS
      modifies Repr()
      ensures Valid()
      ensures queue.Valid() && (View(), replies) == Serve(old(View()), m)
    {
      hide Sorted, NotAfter, Inserted, DelayQueue.Valid, DelayQueue.Contents, MemoryPool.Valid, Partition;
      ServeKeepsClock(View(), m);
      replies := [];
      if m.msg.action == TICK {
        replies := Tick(m);
      } else if m.msg.action == TIME {
        replies := [Letter(m.tid, Msg(TIME, ticks))];
      } else if m.msg.action == DELAY || m.msg.action == DELAY_UNTIL {
        var deadline := m.msg.ticks;
        if m.msg.action == DELAY {
          deadline := (deadline + ticks) % U32;
        }
        if deadline <= ticks {
          replies := [Letter(m.tid, Msg(m.msg.action, deadline))];
        } else {
          Enqueue(m.tid, deadline);
        }
      }
    }
  }

  /**
   The server from its start, for any packets the kernel can deliver, up to the first empty one: it
   never runs out of chunks and its replies are those of the model to the messages it finds in its
   buffer, which holds anything at first.
   */
  method Run(ps: seq<Packet>, garbage: seq<Byte>) returns (server: Server, log: seq<seq<Letter>>)
    requires |garbage| == MSG_BYTES && FromTasks(Opened(ps, garbage, Served(ps)).0)
    ensures server.Valid() && fresh(server.Repr())
    ensures var ms := Opened(ps, garbage, Served(ps)).0;
            && server.View() == After(ms, |ms|)
            && |log| == |ms| && forall n :: 0 <= n < |ms| ==> log[n] == Replies(ms, n)
  {
    hide Serve, Server.Valid, Server.Repr, FromTasks, Waiting, Tids, DelayQueue.Valid, DelayQueue.Contents, NoDuplicates;
    hide Opened, Received, LetterOf, LeftOver;
    ghost var ms := Opened(ps, garbage, Served(ps)).0;
    server := new Server();
    log := [];
    var buffer := garbage;
    NothingOpened(ps, garbage);
    while |log| < |ps| && ps[|log|].bytes != []
      invariant |log| <= |ms| && server.Valid() && fresh(server.Repr()) && server.queue.Valid()
      invariant buffer == Opened(ps, garbage, |log|).1
      invariant server.View() == After(ms, |log|)
      invariant forall n :: 0 <= n < |log| ==> log[n] == Replies(ms, n)
      decreases |ps| - |log|
    {
      NextLetter(ps, garbage, |log|, |ms|);
      QueueHasRoom(server, ms, |log|);
      var packet := ps[|log|];
      buffer := Received(buffer, packet.bytes);
      var m := LetterOf(packet.tid, buffer);
      var replies := server.ServeMessage(m);
      buffer := LeftOver(buffer, server.ticks, m);
      log := log + [replies];
    }
  }

  lemma NothingOpened(ps: seq<Packet>, garbage: seq<Byte>)
    requires |garbage| == MSG_BYTES
    ensures Opened(ps, garbage, 0).1 == garbage
  {
  }

  /** At most 64 tasks are ever queued, so chunks are left. */
  lemma QueueHasRoom(server: Server, ms: seq<Letter>, n: nat)
    requires FromTasks(ms) && n < |ms| && server.queue.Valid() && server.View() == After(ms, n)
    ensures server.queue.size <= 64 < CHUNKS && U32Ok(ms[n].msg.ticks)
  {
    hide Serve, After;
    EachRequestAnsweredOnce(ms, n);
    MessageFromTask(ms, n);
  }
}

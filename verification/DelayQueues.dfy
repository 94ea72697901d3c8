/**
 The clock server's queue of delayed tasks (src/clock_server.c): a singly linked list,
 kept sorted by deadline, of nodes that live in memory-pool chunks. `end` is written when
 the queue changes between empty and non-empty and at no other time: it tells whether the
 queue is empty, not where its last node is.
 */
module DelayQueues {
  import opened CInts
  import opened Filing

  datatype DelayNode = DelayNode(tid: int, delay: int, next: int)
  datatype Entry = Entry(tid: int, delay: int)

  // ---- The queue as a sequence ---------------------------------------------------------------

  ghost predicate Sorted(q: seq<Entry>) {
    forall i, j :: 0 <= i < j < |q| ==> q[i].delay <= q[j].delay
  }

  /** How many leading entries are due no later than the given deadline. */
  function NotAfter(q: seq<Entry>, delay: int): (k: nat)
    ensures k <= |q|
    ensures forall i :: 0 <= i < k ==> q[i].delay <= delay
    ensures k < |q| ==> q[k].delay > delay
  {
    if q == [] || q[0].delay > delay then 0 else 1 + NotAfter(q[1..], delay)
  }

  function Inserted(q: seq<Entry>, e: Entry): (r: seq<Entry>) {
    var k := NotAfter(q, e.delay);
    q[..k] + [e] + q[k..]
  }

  /** The entries with one particular deadline, in queue order. */
  function DueAt(q: seq<Entry>, delay: int): (r: seq<Entry>) {
    if q == [] then []
    else (if q[0].delay == delay then [q[0]] else []) + DueAt(q[1..], delay)
  }

  lemma {:induction false} DueAtConcat(a: seq<Entry>, b: seq<Entry>, delay: int)
    ensures DueAt(a + b, delay) == DueAt(a, delay) + DueAt(b, delay)
  {
    if a == [] {
      assert a + b == b;
    } else {
      DueAtConcat(a[1..], b, delay);
      assert (a + b)[0] == a[0] && (a + b)[1..] == a[1..] + b;
      var first := if a[0].delay == delay then [a[0]] else [];
      assert first + (DueAt(a[1..], delay) + DueAt(b, delay)) == first + DueAt(a[1..], delay) + DueAt(b, delay);
    }
  }

  lemma {:induction false} NoneDueAt(q: seq<Entry>, delay: int)
    requires forall i :: 0 <= i < |q| ==> q[i].delay != delay
    ensures DueAt(q, delay) == []
  {
    if q == [] {
    } else {
      NoneDueAt(q[1..], delay);
    }
  }

  /** A stable sorted insertion: one entry more, still sorted, and last among those with its deadline. */
  lemma InsertedIsStable(q: seq<Entry>, e: Entry)
    requires Sorted(q)
    ensures Sorted(Inserted(q, e))
    ensures multiset(Inserted(q, e)) == multiset(q) + multiset{e}
    ensures forall d :: DueAt(Inserted(q, e), d) == DueAt(q, d) + if d == e.delay then [e] else []
  {
    hide DueAt, Inserted, Sorted;
    InsertedSorted(q, e);
    forall d
      ensures DueAt(Inserted(q, e), d) == DueAt(q, d) + if d == e.delay then [e] else []
    {
      DueAtInserted(q, e, d);
    }
  }

  lemma InsertedSorted(q: seq<Entry>, e: Entry)
    requires Sorted(q)
    ensures Sorted(Inserted(q, e))
    ensures multiset(Inserted(q, e)) == multiset(q) + multiset{e}
  {
    hide NotAfter;
    var k := NotAfter(q, e.delay);
    assert q == q[..k] + q[k..];
  }

  lemma DueAtInserted(q: seq<Entry>, e: Entry, d: int)
    requires Sorted(q)
    ensures DueAt(Inserted(q, e), d) == DueAt(q, d) + if d == e.delay then [e] else []
  {
    hide DueAt, Sorted, NotAfter;
    var k := NotAfter(q, e.delay);
    var a, b := q[..k], q[k..];
    assert q == a + b;
    DueAtConcat(a, b, d);
    DueAtConcat(a + [e], b, d);
    DueAtConcat(a, [e], d);
    DueAtOne(e, d);
    if d == e.delay {
      LaterThan(q, e.delay);
      NoneDueAt(b, d);
    }
  }

  /** In a sorted queue everything behind the insertion point is due later. */
  lemma LaterThan(q: seq<Entry>, delay: int)
    requires Sorted(q)
    ensures forall i :: 0 <= i < |q[NotAfter(q, delay)..]| ==> q[NotAfter(q, delay)..][i].delay > delay
  {
  }

  lemma DueAtOne(e: Entry, d: int)
    ensures DueAt([e], d) == if d == e.delay then [e] else []
  {
  }

  // ---- The queue in memory ----------------------------------------------------------------------

  ghost predicate InRange(chain: seq<int>, n: int) {
    forall i :: 0 <= i < |chain| ==> 0 <= chain[i] < n
  }

  ghost predicate Chained(data: seq<DelayNode>, chain: seq<int>) {
    && InRange(chain, |data|)
    && NoDuplicates(chain)
    && (forall i {:trigger data[chain[i]]} :: 0 <= i < |chain| ==> data[chain[i]].next == At(chain, i + 1))
  }

  ghost function EntriesOf(data: seq<DelayNode>, chain: seq<int>): (r: seq<Entry>)
    requires InRange(chain, |data|)
    ensures |r| == |chain|
    ensures forall i :: 0 <= i < |r| ==> r[i] == Entry(data[chain[i]].tid, data[chain[i]].delay)
  {
    seq(|chain|, i requires 0 <= i < |chain| => Entry(data[chain[i]].tid, data[chain[i]].delay))
  }

  /** Linking a node in at position k. */
  lemma ChainInsert(data: seq<DelayNode>, data': seq<DelayNode>, chain: seq<int>, k: int, node: int)
    requires Chained(data, chain) && 0 <= k <= |chain|
    requires 0 <= node < |data| == |data'| && node !in chain
    requires data'[node].next == At(chain, k)
    requires k > 0 ==> data'[chain[k - 1]] == data[chain[k - 1]].(next := node)
    requires forall i {:trigger data'[chain[i]]} :: 0 <= i < |chain| && i != k - 1 ==> data'[chain[i]] == data[chain[i]]
    ensures Chained(data', chain[..k] + [node] + chain[k..])
    ensures EntriesOf(data', chain[..k] + [node] + chain[k..]) ==
            EntriesOf(data, chain)[..k] + [Entry(data'[node].tid, data'[node].delay)] + EntriesOf(data, chain)[k..]
  {
    hide NoDuplicates, Chained;
    var chain' := chain[..k] + [node] + chain[k..];
    ChainedParts(data, chain);
    InsertedDistinct(chain, k, node);
    forall i | 0 <= i < |chain'|
      ensures 0 <= chain'[i] < |data'| && data'[chain'[i]].next == At(chain', i + 1)
    {
      InsertedAt(data, data', chain, k, node, i);
    }
    ChainedFrom(data', chain');
    InsertedEntries(data, data', chain, k, node);
  }

  lemma ChainedParts(data: seq<DelayNode>, chain: seq<int>)
    requires Chained(data, chain)
    ensures InRange(chain, |data|) && NoDuplicates(chain)
  {
  }

  lemma ChainedFrom(data: seq<DelayNode>, chain: seq<int>)
    requires NoDuplicates(chain)
    requires forall i :: 0 <= i < |chain| ==> 0 <= chain[i] < |data| && data[chain[i]].next == At(chain, i + 1)
    ensures Chained(data, chain)
  {
  }

  lemma InsertedEntries(data: seq<DelayNode>, data': seq<DelayNode>, chain: seq<int>, k: int, node: int)
    requires Chained(data, chain) && 0 <= k <= |chain|
    requires 0 <= node < |data| == |data'| && node !in chain
    requires data'[node].next == At(chain, k)
    requires k > 0 ==> data'[chain[k - 1]] == data[chain[k - 1]].(next := node)
    requires forall i {:trigger data'[chain[i]]} :: 0 <= i < |chain| && i != k - 1 ==> data'[chain[i]] == data[chain[i]]
    ensures InRange(chain, |data|) && InRange(chain[..k] + [node] + chain[k..], |data'|)
    ensures EntriesOf(data', chain[..k] + [node] + chain[k..]) ==
            EntriesOf(data, chain)[..k] + [Entry(data'[node].tid, data'[node].delay)] + EntriesOf(data, chain)[k..]
  {
    hide NoDuplicates, Chained, EntriesOf;
    ChainedParts(data, chain);
    var chain' := chain[..k] + [node] + chain[k..];
    var q := EntriesOf(data, chain);
    var q' := q[..k] + [Entry(data'[node].tid, data'[node].delay)] + q[k..];
    forall i | 0 <= i < |chain'|
      ensures 0 <= chain'[i] < |data'| && Entry(data'[chain'[i]].tid, data'[chain'[i]].delay) == q'[i]
    {
      InsertedAt(data, data', chain, k, node, i);
    }
  }

  lemma InsertedDistinct(chain: seq<int>, k: int, node: int)
    requires NoDuplicates(chain) && node !in chain && 0 <= k <= |chain|
    ensures NoDuplicates(chain[..k] + [node] + chain[k..])
  {
    var chain' := chain[..k] + [node] + chain[k..];
    assert forall i :: 0 <= i < |chain'| && i != k ==> chain'[i] == chain[if i < k then i else i - 1];
  }

  lemma InsertedAt(data: seq<DelayNode>, data': seq<DelayNode>, chain: seq<int>, k: int, node: int, i: int)
    requires Chained(data, chain) && 0 <= k <= |chain|
    requires 0 <= node < |data| == |data'| && node !in chain
    requires data'[node].next == At(chain, k)
    requires k > 0 ==> data'[chain[k - 1]] == data[chain[k - 1]].(next := node)
    requires forall i {:trigger data'[chain[i]]} :: 0 <= i < |chain| && i != k - 1 ==> data'[chain[i]] == data[chain[i]]
    requires 0 <= i <= |chain|
    ensures var chain' := chain[..k] + [node] + chain[k..];
            && 0 <= chain'[i] < |data'| && data'[chain'[i]].next == At(chain', i + 1)
            && (i == k ==> chain'[i] == node)
            && (i != k ==> var j := if i < k then i else i - 1;
                  chain'[i] == chain[j] && data'[chain'[i]].tid == data[chain[j]].tid && data'[chain'[i]].delay == data[chain[j]].delay)
  {
    if i != k {
      var j := if i < k then i else i - 1;
      assert data[chain[j]].next == At(chain, j + 1);
    }
  }

  class DelayQueue {
    const data: array<DelayNode>  // the chunks of the pool the nodes come from
    var front: int
    var end: int
    var size: int
    ghost var chain: seq<int>     // the chunks of the queued nodes, in order

    ghost predicate Valid()
      reads this, data
    {
      && Chained(data[..], chain)
      && front == At(chain, 0)
      && (end == NONE <==> front == NONE)
      && size == |chain|
    }

    ghost function Contents(): (r: seq<Entry>)
      requires Valid()
      reads this, data
    {
      EntriesOf(data[..], chain)
    }

    constructor (data: array<DelayNode>)
      ensures Valid() && chain == [] && Contents() == [] && this.data == data
    {
      this.data := data;
      front, end, size := NONE, NONE, 0;
      chain := [];
    }

    /** The loop of delay_queue_add: the nodes around the insertion point. */
    method FindPlace(delay: int) returns (previous: int, currentNode: int, ghost k: int)
      requires Valid()
      ensures k == NotAfter(Contents(), delay)
      ensures previous == At(chain, k - 1) && currentNode == At(chain, k)
    {
      ghost var q := Contents();
      previous, currentNode, k := NONE, front, 0;
      assert q[0..] == q;
      while currentNode != NONE && data[currentNode].delay <= delay
        invariant 0 <= k <= |chain|
        invariant previous == At(chain, k - 1) && currentNode == At(chain, k)
        invariant NotAfter(q, delay) == k + NotAfter(q[k..], delay)
        decreases |chain| - k
      {
        assert data[..][chain[k]].next == At(chain, k + 1);
        assert q[k..][0] == q[k] && q[k..][1..] == q[k + 1..];
        previous, currentNode, k := currentNode, data[currentNode].next, k + 1;
      }
    }

    /** Links a node in after `previous`, or at the front, in a queue that is not empty. */
    method LinkIn(node: int, previous: int, currentNode: int, ghost k: int)
      requires Valid() && chain != [] && 0 <= node < data.Length && node !in chain
      requires 0 <= k <= |chain| && previous == At(chain, k - 1) && currentNode == At(chain, k)
      modifies this, data
      ensures Valid()
      ensures chain == old(chain)[..k] + [node] + old(chain)[k..]
      ensures Contents() == old(Contents())[..k] + [Entry(old(data[node].tid), old(data[node].delay))] + old(Contents())[k..]
    {
      ghost var data0 := data[..];
      if previous != NONE {
        data[previous] := data[previous].(next := node);
        data[node] := data[node].(next := currentNode);
      } else {
        data[node] := data[node].(next := front);
        front := node;
      }
      size := size + 1;
      ChainInsert(data0, data[..], chain, k, node);
      chain := chain[..k] + [node] + chain[k..];
    }

    /** delay_queue_add: links a filled-in node before the first node with a later deadline. */
    method Add(node: int)
      requires Valid() && 0 <= node < data.Length && node !in chain
      modifies this, data
      ensures Valid()
      ensures Contents() == Inserted(old(Contents()), Entry(old(data[node].tid), old(data[node].delay)))
      ensures exists k :: 0 <= k <= |old(chain)| && chain == old(chain)[..k] + [node] + old(chain)[k..]
    {
      hide Chained, NotAfter;
      ghost var data0 := data[..];
      data[node] := data[node].(next := NONE);
      ChainedRange(data0, chain);
      RewriteOutside(data0, data[..], chain);
      if end != NONE {
        var previous, currentNode, k := FindPlace(data[node].delay);
        LinkIn(node, previous, currentNode, k);
      } else {
        assert chain == [];
        end := node;
        front := node;
        size := size + 1;
        ChainInsert(data0, data[..], chain, 0, node);
        chain := chain[..0] + [node] + chain[0..];
      }
    }

    static lemma ChainedRange(data: seq<DelayNode>, chain: seq<int>)
      requires Chained(data, chain)
      ensures InRange(chain, |data|)
    {
    }

    static lemma RewriteOutside(data: seq<DelayNode>, data': seq<DelayNode>, chain: seq<int>)
      requires Chained(data, chain) && |data'| == |data|
      requires forall i :: 0 <= i < |chain| ==> data'[chain[i]] == data[chain[i]]
      ensures Chained(data', chain) && EntriesOf(data', chain) == EntriesOf(data, chain)
    {
    }

    /** What the front pointer shows of the queue. */
    lemma FrontIs()
      requires Valid()
      ensures front == At(chain, 0) && |Contents()| == |chain| == size
      ensures chain != [] ==>
                && 0 <= front < data.Length && Contents()[0] == Entry(data[front].tid, data[front].delay)
                && data[front].next == At(chain, 1) && (|chain| > 1 ==> 0 <= chain[1])
    {
    }

    static lemma ChainTail(data: seq<DelayNode>, chain: seq<int>)
      requires Chained(data, chain) && chain != []
      ensures InRange(chain, |data|) && Chained(data, chain[1..]) && At(chain[1..], 0) == At(chain, 1)
      ensures EntriesOf(data, chain[1..]) == EntriesOf(data, chain)[1..]
    {
      var rest := chain[1..];
      forall i | 0 <= i < |rest| ensures data[rest[i]].next == At(rest, i + 1) {
        assert data[chain[i + 1]].next == At(chain, i + 2);
      }
    }

    /**
     delay_queue_pop. On an empty queue it answers NULL, but counts down all the same: the size, an
     unsigned number, wraps around. The server never pops from an empty queue.
     */
    method Pop() returns (popped: int)
      requires Valid()
      modifies this
      ensures old(chain) != [] ==>
                && Valid() && popped == old(chain)[0] && chain == old(chain)[1..]
                && Contents() == old(Contents())[1..]
      ensures old(chain) == [] ==>
                popped == NONE && chain == [] && front == end == NONE && size == U64 - 1 && !Valid()
    {
      hide Chained, EntriesOf;
      FrontIs();
      popped := NONE;
      if front != NONE {
        ChainTail(data[..], chain);
        popped := front;
        if data[front].next != NONE {
          front := data[front].next;
        } else {
          front, end := NONE, NONE;
        }
        chain := chain[1..];
      }
      size := if size > 0 then size - 1 else U64 - 1;
    }
  }
}

/**
 The ring of waiting senders (src/queue.c). One slot is always left unused, so that
 head == tail means empty and a ring of capacity n holds at most n - 1 entries.
 */
module SenderRing {

  /** The source's (x + 1) % mod on the ring positions. */
  function ModularInc(x: int, mod: int): (r: int)
    requires 0 <= x < mod
    ensures r == if x + 1 == mod then 0 else x + 1
  {
    (x + 1) % mod
  }

  /** The entries from head up to tail, going around. */
  function Window(container: seq<int>, head: int, tail: int): (r: seq<int>)
    requires 0 <= head < |container| && 0 <= tail < |container|
    ensures |r| == (if head <= tail then tail - head else tail - head + |container|) < |container|
  {
    if head <= tail then container[head..tail] else container[head..] + container[..tail]
  }

  lemma WindowPush(container: seq<int>, head: int, tail: int, elem: int)
    requires 0 <= head < |container| && 0 <= tail < |container|
    requires ModularInc(tail, |container|) != head
    ensures Window(container[tail := elem], head, ModularInc(tail, |container|)) == Window(container, head, tail) + [elem]
  {
  }

  lemma WindowPop(container: seq<int>, head: int, tail: int)
    requires 0 <= head < |container| && 0 <= tail < |container| && head != tail
    ensures Window(container, ModularInc(head, |container|), tail) == Window(container, head, tail)[1..]
    ensures Window(container, head, tail)[0] == container[head]
  {
  }

  class Queue {
    const container: array<int>
    var head: int
    var tail: int

    ghost function Repr(): (r: set<object>) {
      {this, container}
    }

    ghost predicate Valid()
      reads this, container
    {
      0 <= head < container.Length && 0 <= tail < container.Length
    }

    function Contents(): (r: seq<int>)
      reads this, container
      requires Valid()
      ensures |r| < container.Length
    {
      Window(container[..], head, tail)
    }

    constructor (capacity: nat)
      requires capacity > 0
      ensures Valid() && fresh(Repr())
      ensures container.Length == capacity && Contents() == []
    {
      container := new int[capacity](_ => 0);
      head, tail := 0, 0;
    }

    /** queue_init on an existing ring: forgets the entries. */
    method Clear()
      requires Valid()
      modifies this
      ensures Valid() && Contents() == []
    {
      head, tail := 0, 0;
    }

    method IsEmpty() returns (empty: bool)
      requires Valid()
      ensures empty <==> Contents() == []
    {
      empty := head == tail;
    }

    method IsFull() returns (full: bool)
      requires Valid()
      ensures full <==> |Contents()| == container.Length - 1
    {
      full := head == ModularInc(tail, container.Length);
    }

    /** Appends unless container.Length - 1 entries wait already. */
    method Push(elem: int) returns (success: bool)
      requires Valid()
      modifies this, container
      ensures Valid()
      ensures success <==> |old(Contents())| < container.Length - 1
      ensures Contents() == if success then old(Contents()) + [elem] else old(Contents())
    {
      var full := IsFull();
      if full {
        return false;
      }
      WindowPush(container[..], head, tail, elem);
      ghost var container0 := container[..];
      var newTail := ModularInc(tail, container.Length);
      container[tail] := elem;
      assert container[..] == container0[tail := elem];
      tail := newTail;
      success := true;
    }

    /** Takes the oldest entry; an empty ring yields 0. */
    method Pop() returns (elem: int)
      requires Valid()
      modifies this
      ensures Valid()
      ensures old(Contents()) == [] ==> elem == 0 && Contents() == []
      ensures old(Contents()) != [] ==> elem == old(Contents())[0] && Contents() == old(Contents())[1..]
    {
      var empty := IsEmpty();
      if empty {
        return 0;
      }
      WindowPop(container[..], head, tail);
      elem := container[head];
      head := ModularInc(head, container.Length);
    }
  }
}

/**
 The priority queues of src/task_queue.c: ten lists per queue, served from the
 highest priority down, with a cached total size. All queues of one object share a
 node pool, as the 1024 interrupt queues do; list `10 * q + p` is priority `p` of
 queue `q`.
 */
module PriorityQueues {
  import opened Filing
  import opened TaskLists

  const PRIORITIES: nat := 10

  function First(q: int): (r: int) { q * PRIORITIES }
  function Last(q: int): (r: int) { q * PRIORITIES + PRIORITIES }

  function TotalLength(lists: seq<seq<int>>, lo: int, hi: int): (r: nat)
    requires 0 <= lo && hi <= |lists|
    decreases hi - lo
  {
    if lo < hi then TotalLength(lists, lo, hi - 1) + |lists[hi - 1]| else 0
  }

  /** The highest non-empty list among lo..hi, or NONE when all are empty. */
  function Top(lists: seq<seq<int>>, lo: int, hi: int): (r: int)
    requires 0 <= lo && hi <= |lists|
    ensures r == NONE <==> forall i :: lo <= i < hi ==> lists[i] == []
    ensures r != NONE ==> lo <= r < hi && lists[r] != [] && forall i :: r < i < hi ==> lists[i] == []
    decreases hi - lo
  {
    if lo >= hi then NONE else if lists[hi - 1] != [] then hi - 1 else Top(lists, lo, hi - 1)
  }

  lemma {:induction false} TotalLengthZero(lists: seq<seq<int>>, lo: int, hi: int)
    requires 0 <= lo && hi <= |lists|
    ensures TotalLength(lists, lo, hi) == 0 <==> Top(lists, lo, hi) == NONE
    decreases hi - lo
  {
    if lo >= hi {
    } else {
      TotalLengthZero(lists, lo, hi - 1);
    }
  }

  lemma NothingListed(lists: seq<seq<int>>, lo: int, hi: int)
    requires 0 <= lo && hi <= |lists| && forall i :: lo <= i < hi ==> lists[i] == []
    ensures TotalLength(lists, lo, hi) == 0
  {
  }

  lemma {:induction false} TotalLengthUpdate(lists: seq<seq<int>>, lo: int, hi: int, l: int, list: seq<int>)
    requires 0 <= lo && hi <= |lists| && 0 <= l < |lists|
    ensures TotalLength(lists[l := list], lo, hi) ==
            TotalLength(lists, lo, hi) + if lo <= l < hi then |list| - |lists[l]| else 0
    decreases hi - lo
  {
    if lo >= hi {
    } else {
      TotalLengthUpdate(lists, lo, hi - 1, l, list);
    }
  }

  ghost predicate SizesOk(sizes: seq<int>, contents: seq<seq<int>>) {
    && |contents| == |sizes| * PRIORITIES
    && (forall q :: 0 <= q < |sizes| ==> sizes[q] == TotalLength(contents, First(q), Last(q)))
  }

  lemma SizesUpdate(sizes: seq<int>, contents: seq<seq<int>>, q: int, p: int, list: seq<int>)
    requires SizesOk(sizes, contents)
    requires 0 <= q < |sizes| && 0 <= p < PRIORITIES
    ensures var l := First(q) + p;
            SizesOk(sizes[q := sizes[q] + |list| - |contents[l]|], contents[l := list])
  {
    var l := First(q) + p;
    forall r | 0 <= r < |sizes|
      ensures TotalLength(contents[l := list], First(r), Last(r)) ==
              TotalLength(contents, First(r), Last(r)) + if r == q then |list| - |contents[l]| else 0
    {
      TotalLengthUpdate(contents, First(r), Last(r), l, list);
    }
  }

  class PriorityTaskQueues {
    const lists: PooledLists
    const sizes: array<int>

    ghost function Repr(): (r: set<object>) {
      {this, sizes} + lists.Repr()
    }

    ghost predicate Valid()
      reads this, Repr()
    {
      && sizes !in lists.Repr()
      && lists.Valid()
      && SizesOk(sizes[..], lists.contents)
    }

    ghost function Contents(): (r: seq<seq<int>>)
      reads this, Repr()
      requires Valid()
      ensures |r| == sizes.Length * PRIORITIES
    {
      lists.contents
    }

    constructor (queues: nat)
      ensures Valid() && fresh(Repr())
      ensures sizes.Length == queues
      ensures Contents() == seq(queues * PRIORITIES, _ => [])
    {
      hide PooledLists.Valid, TotalLength, Top;
      lists := new PooledLists(queues * PRIORITIES);
      sizes := new int[queues](_ => 0);
      new;
      forall q | 0 <= q < queues
        ensures TotalLength(lists.contents, First(q), Last(q)) == 0
      {
        NothingListed(lists.contents, First(q), Last(q));
      }
    }

    /** ptask_queue_empty looks at the cached size only. */
    method Empty(q: int) returns (empty: bool)
      requires Valid() && 0 <= q < sizes.Length
      ensures empty <==> Top(Contents(), First(q), Last(q)) == NONE
    {
      TotalLengthZero(Contents(), First(q), Last(q));
      empty := sizes[q] == 0;
    }

    lemma HasRoom(taskHome: seq<int>, x: int)
      requires Valid() && |taskHome| == POOL_SIZE && Filed(Contents(), taskHome)
      requires 0 <= x < |taskHome| && taskHome[x] == NONE
      ensures lists.free > 0
    {
      hide PooledLists.Valid, Filed, SizesOk;
      lists.HasRoom(taskHome, x);
    }

    method Push(q: int, priority: int, task: int)
      requires Valid() && 0 <= q < sizes.Length
      requires 0 <= priority < PRIORITIES
      requires lists.free > 0
      modifies Repr()
      ensures Valid()
      ensures Contents() == Appended(old(Contents()), First(q) + priority, task)
    {
      hide PoolOk;
      SizesUpdate(sizes[..], lists.contents, q, priority, lists.contents[First(q) + priority] + [task]);
      lists.ListSize(First(q) + priority);
      var _ := lists.PushBack(q * PRIORITIES + priority, task);
      sizes[q] := sizes[q] + 1;
      assert sizes[..] == old(sizes[..])[q := old(sizes[q]) + 1];
    }

    /** The search of ptask_queue_pop, from the highest priority down. */
    method FindTop(q: int) returns (i: int)
      requires Valid() && 0 <= q < sizes.Length
      requires Top(Contents(), First(q), Last(q)) != NONE
      ensures Valid()
      ensures 0 <= i < PRIORITIES && First(q) + i == Top(Contents(), First(q), Last(q))
    {
      hide PoolOk;
      ghost var contents := lists.contents;
      i := PRIORITIES - 1;
      lists.ListSize(First(q) + i);
      while lists.lists[q * PRIORITIES + i].size == 0
        invariant 0 <= i < PRIORITIES
        invariant Top(contents, First(q), Last(q)) == Top(contents, First(q), First(q) + i + 1)
        invariant lists.lists[First(q) + i].size == |contents[First(q) + i]|
        decreases i
      {
        i := i - 1;
        lists.ListSize(First(q) + i);
      }
    }

    /** ptask_queue_pop: takes the first task of the highest non-empty list. */
    method Pop(q: int) returns (task: int)
      requires Valid() && 0 <= q < sizes.Length
      requires Top(Contents(), First(q), Last(q)) != NONE
      modifies Repr()
      ensures Valid()
      ensures var top := Top(old(Contents()), First(q), Last(q));
              && task == old(Contents())[top][0]
              && Contents() == Popped(old(Contents()), top)
    {
      hide PoolOk;
      TotalLengthZero(lists.contents, First(q), Last(q));
      assert sizes[q] != 0;
      var i := FindTop(q);
      SizesUpdate(sizes[..], lists.contents, q, i, lists.contents[First(q) + i][1..]);
      lists.ListSize(First(q) + i);
      sizes[q] := sizes[q] - 1;
      assert sizes[..] == old(sizes[..])[q := old(sizes[q]) - 1];
      task := lists.PopFront(q * PRIORITIES + i);
    }
  }
}

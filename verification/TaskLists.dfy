/**
 The pooled doubly linked lists of src/task_queue.c.

 A node pool holds 64 nodes and a stack of the indices not in use; any number of
 lists draw their nodes from the same pool. Node pointers are node indices here,
 and the null pointer is NONE. The object below is one pool with all its lists.
 */
module TaskLists {
  import opened Filing

  const POOL_SIZE: nat := 64

  datatype TaskNode = TaskNode(task: int, prev: int, next: int)
  datatype TaskList = TaskList(size: int, head: int, tail: int)

  // ---- Meaning of the linked representation ------------------------------------

  /** The header and the node links spell out exactly the node sequence `chain`. */
  ghost predicate Linked(nodes: seq<TaskNode>, list: TaskList, chain: seq<int>) {
    && list.size == |chain|
    && list.head == At(chain, 0)
    && list.tail == At(chain, |chain| - 1)
    && (forall i :: 0 <= i < |chain| ==> 0 <= chain[i] < |nodes|)
    && (forall i {:trigger nodes[chain[i]]} :: 0 <= i < |chain| ==>
          && nodes[chain[i]].prev == At(chain, i - 1)
          && nodes[chain[i]].next == At(chain, i + 1))
  }

  ghost predicate AllLinked(nodes: seq<TaskNode>, lists: seq<TaskList>, chains: seq<seq<int>>) {
    && |lists| == |chains|
    && (forall l :: 0 <= l < |chains| ==> Linked(nodes, lists[l], chains[l]))
  }

  /** The free stack holds exactly the nodes with no home, each once. */
  ghost predicate FreeStack(stack: seq<int>, home: seq<int>) {
    && NoDuplicates(stack)
    && (forall k :: 0 <= k < |stack| ==> 0 <= stack[k] < |home| && home[stack[k]] == NONE)
    && (forall n :: 0 <= n < |home| && home[n] == NONE ==> n in stack)
  }

  ghost function TasksOf(nodes: seq<TaskNode>, chain: seq<int>): (r: seq<int>)
    requires forall i :: 0 <= i < |chain| ==> 0 <= chain[i] < |nodes|
    ensures |r| == |chain|
    ensures forall i :: 0 <= i < |r| ==> r[i] == nodes[chain[i]].task
  {
    seq(|chain|, i requires 0 <= i < |chain| => nodes[chain[i]].task)
  }

  ghost function ContentsOf(nodes: seq<TaskNode>, chains: seq<seq<int>>): (r: seq<seq<int>>)
    requires forall l, i :: 0 <= l < |chains| && 0 <= i < |chains[l]| ==> 0 <= chains[l][i] < |nodes|
    ensures |r| == |chains|
    ensures forall l :: 0 <= l < |r| ==> r[l] == TasksOf(nodes, chains[l])
  {
    seq(|chains|, l requires 0 <= l < |chains| => TasksOf(nodes, chains[l]))
  }

  // ---- The two surgeries on a list ----------------------------------------------

  /** What push_back writes into the nodes. */
  function LinkedAfter(nodes: seq<TaskNode>, list: TaskList, node: int, task: int): (r: seq<TaskNode>)
    requires 0 <= node < |nodes| && (list.size != 0 ==> 0 <= list.tail < |nodes|)
  {
    var fresh' := nodes[node := TaskNode(task, list.tail, NONE)];
    if list.size != 0 then fresh'[list.tail := fresh'[list.tail].(next := node)] else fresh'
  }

  /** What remove_node writes into the nodes. */
  function Unlinked(nodes: seq<TaskNode>, node: int): (r: seq<TaskNode>)
    requires 0 <= node < |nodes|
    requires NONE <= nodes[node].prev < |nodes| && NONE <= nodes[node].next < |nodes|
  {
    var n := nodes[node];
    var ahead := if n.next != NONE then nodes[n.next := nodes[n.next].(prev := n.prev)] else nodes;
    if n.prev != NONE then ahead[n.prev := ahead[n.prev].(next := ahead[node].next)] else ahead
  }

  lemma PushLinks(nodes: seq<TaskNode>, list: TaskList, chain: seq<int>, node: int, task: int)
    requires Linked(nodes, list, chain) && NoDuplicates(chain)
    requires 0 <= node < |nodes| && node !in chain
    ensures list.size != 0 ==> 0 <= list.tail < |nodes|
    ensures var nodes' := LinkedAfter(nodes, list, node, task);
            && Linked(nodes', Grown(list, node), chain + [node])
            && TasksOf(nodes', chain + [node]) == TasksOf(nodes, chain) + [task]
  {
    var nodes' := LinkedAfter(nodes, list, node, task);
    var chain' := chain + [node];
    forall i | 0 <= i < |chain'|
      ensures 0 <= chain'[i] < |nodes'|
      ensures nodes'[chain'[i]].prev == At(chain', i - 1)
      ensures nodes'[chain'[i]].next == At(chain', i + 1)
      ensures nodes'[chain'[i]].task == (TasksOf(nodes, chain) + [task])[i]
    {
      if i < |chain| {
        assert nodes[chain[i]].prev == At(chain, i - 1);
      }
    }
  }

  /** After unlinking position k, the node at any other position j links past k. */
  lemma UnlinkedAt(nodes: seq<TaskNode>, list: TaskList, chain: seq<int>, k: int, j: int)
    requires Linked(nodes, list, chain) && NoDuplicates(chain)
    requires 0 <= k < |chain| && 0 <= j < |chain| && j != k
    ensures NONE <= nodes[chain[k]].prev < |nodes| && NONE <= nodes[chain[k]].next < |nodes|
    ensures Unlinked(nodes, chain[k])[chain[j]] ==
            TaskNode(nodes[chain[j]].task,
                     At(chain, if j == k + 1 then k - 1 else j - 1),
                     At(chain, if j == k - 1 then k + 1 else j + 1))
  {
  }

  /** The header after appending a node. */
  function Grown(list: TaskList, node: int): (r: TaskList) {
    TaskList(list.size + 1, if list.size != 0 then list.head else node, node)
  }

  /** The header after removing a node whose neighbours are prev and next. */
  function Shrunk(list: TaskList, prev: int, next: int): (r: TaskList) {
    TaskList(list.size - 1, if prev == NONE then next else list.head, if next == NONE then prev else list.tail)
  }

  /** Past is nodes' in which every node of the chain but the k-th links past the k-th. */
  ghost predicate Bypassed(nodes: seq<TaskNode>, nodes': seq<TaskNode>, chain: seq<int>, k: int)
    requires forall i :: 0 <= i < |chain| ==> 0 <= chain[i] < |nodes|
  {
    && |nodes'| == |nodes|
    && (forall j {:trigger nodes'[chain[j]]} :: 0 <= j < |chain| && j != k ==>
          && nodes'[chain[j]].task == nodes[chain[j]].task
          && nodes'[chain[j]].prev == At(chain, if j == k + 1 then k - 1 else j - 1)
          && nodes'[chain[j]].next == At(chain, if j == k - 1 then k + 1 else j + 1))
  }

  lemma BypassLinks(nodes: seq<TaskNode>, nodes': seq<TaskNode>, list: TaskList, chain: seq<int>, k: int, rest: seq<int>)
    requires forall i :: 0 <= i < |chain| ==> 0 <= chain[i] < |nodes|
    requires list == TaskList(|chain|, At(chain, 0), At(chain, |chain| - 1))
    requires 0 <= k < |chain| && Bypassed(nodes, nodes', chain, k)
    requires rest == Without(chain, k)
    ensures Linked(nodes', Shrunk(list, At(chain, k - 1), At(chain, k + 1)), rest)
  {
  }

  lemma BypassTasks(nodes: seq<TaskNode>, nodes': seq<TaskNode>, chain: seq<int>, k: int)
    requires forall i :: 0 <= i < |chain| ==> 0 <= chain[i] < |nodes|
    requires 0 <= k < |chain| && Bypassed(nodes, nodes', chain, k)
    ensures forall i :: 0 <= i < |Without(chain, k)| ==> 0 <= Without(chain, k)[i] < |nodes'|
    ensures TasksOf(nodes', Without(chain, k)) == Without(TasksOf(nodes, chain), k)
  {
  }

  lemma RemoveLinks(nodes: seq<TaskNode>, list: TaskList, chain: seq<int>, k: int)
    requires Linked(nodes, list, chain) && NoDuplicates(chain)
    requires 0 <= k < |chain|
    ensures NONE <= nodes[chain[k]].prev < |nodes| && NONE <= nodes[chain[k]].next < |nodes|
    ensures var n, nodes' := nodes[chain[k]], Unlinked(nodes, chain[k]);
            && Linked(nodes', Shrunk(list, n.prev, n.next), Without(chain, k))
            && TasksOf(nodes', Without(chain, k)) == Without(TasksOf(nodes, chain), k)
  {
    hide Unlinked;
    NeighboursStay(nodes, list, chain, k);
    UnlinkedElsewhere(nodes, chain[k]);
    assert nodes[chain[k]].prev == At(chain, k - 1);
    forall j | 0 <= j < |chain| && j != k
      ensures Unlinked(nodes, chain[k])[chain[j]] ==
              TaskNode(nodes[chain[j]].task,
                       At(chain, if j == k + 1 then k - 1 else j - 1),
                       At(chain, if j == k - 1 then k + 1 else j + 1))
    {
      UnlinkedAt(nodes, list, chain, k, j);
    }
    BypassLinks(nodes, Unlinked(nodes, chain[k]), list, chain, k, Without(chain, k));
    BypassTasks(nodes, Unlinked(nodes, chain[k]), chain, k);
  }

  /** Lists whose nodes were not written keep their links and contents. */
  lemma UntouchedLinks(nodes: seq<TaskNode>, nodes': seq<TaskNode>, list: TaskList, chain: seq<int>)
    requires Linked(nodes, list, chain) && |nodes'| == |nodes|
    requires forall i :: 0 <= i < |chain| ==> nodes'[chain[i]] == nodes[chain[i]]
    ensures Linked(nodes', list, chain)
    ensures TasksOf(nodes', chain) == TasksOf(nodes, chain)
  {
  }

  // ---- The surgeries seen by all lists of a pool ----------------------------------

  /** Rewriting only nodes of list l, or free ones, changes list l alone. */
  lemma OthersStay(nodes: seq<TaskNode>, nodes': seq<TaskNode>, lists: seq<TaskList>, chains: seq<seq<int>>,
                   home: seq<int>, l: int, list': TaskList, chain': seq<int>, tasks': seq<int>)
    requires AllLinked(nodes, lists, chains) && Filed(chains, home) && |home| == |nodes| == |nodes'|
    requires 0 <= l < |lists|
    requires forall n :: 0 <= n < |home| && home[n] != l && home[n] != NONE ==> nodes'[n] == nodes[n]
    requires Linked(nodes', list', chain') && TasksOf(nodes', chain') == tasks'
    ensures AllLinked(nodes', lists[l := list'], chains[l := chain'])
    ensures ContentsOf(nodes', chains[l := chain']) == ContentsOf(nodes, chains)[l := tasks']
  {
    hide Filed;
    var lists', chains' := lists[l := list'], chains[l := chain'];
    forall m | 0 <= m < |chains'|
      ensures Linked(nodes', lists'[m], chains'[m])
      ensures TasksOf(nodes', chains'[m]) == if m == l then tasks' else TasksOf(nodes, chains[m])
    {
      if m != l {
        OtherStays(nodes, nodes', lists, chains, home, l, m);
      }
    }
    hide TasksOf, NoDuplicates;
    assert AllLinked(nodes', lists', chains');
  }

  lemma OtherStays(nodes: seq<TaskNode>, nodes': seq<TaskNode>, lists: seq<TaskList>, chains: seq<seq<int>>,
                   home: seq<int>, l: int, m: int)
    requires AllLinked(nodes, lists, chains) && Filed(chains, home) && |home| == |nodes| == |nodes'|
    requires forall n :: 0 <= n < |home| && home[n] != l && home[n] != NONE ==> nodes'[n] == nodes[n]
    requires 0 <= m < |chains| && m != l
    ensures Linked(nodes', lists[m], chains[m])
    ensures TasksOf(nodes', chains[m]) == TasksOf(nodes, chains[m])
  {
    assert Linked(nodes, lists[m], chains[m]);
    hide Linked;
    UntouchedLinks(nodes, nodes', lists[m], chains[m]);
  }

  lemma PushAll(nodes: seq<TaskNode>, lists: seq<TaskList>, chains: seq<seq<int>>, home: seq<int>,
                l: int, node: int, task: int)
    requires AllLinked(nodes, lists, chains) && Filed(chains, home) && |home| == |nodes|
    requires 0 <= l < |lists| && 0 <= node < |home| && home[node] == NONE
    ensures lists[l].size != 0 ==> 0 <= lists[l].tail < |nodes|
    ensures var nodes' := LinkedAfter(nodes, lists[l], node, task);
            && AllLinked(nodes', lists[l := Grown(lists[l], node)], Appended(chains, l, node))
            && ContentsOf(nodes', Appended(chains, l, node)) == Appended(ContentsOf(nodes, chains), l, task)
  {
    hide LinkedAfter, Grown;
    var list, chain := lists[l], chains[l];
    assert Linked(nodes, list, chain);
    PushLinks(nodes, list, chain, node, task);
    LinkedElsewhere(nodes, list, node, task);
    assert list.size != 0 ==> list.tail == chain[|chain| - 1];
    OthersStay(nodes, LinkedAfter(nodes, list, node, task), lists, chains, home, l,
               Grown(list, node), chain + [node], TasksOf(nodes, chain) + [task]);
  }

  lemma LinkedElsewhere(nodes: seq<TaskNode>, list: TaskList, node: int, task: int)
    requires 0 <= node < |nodes| && (list.size != 0 ==> 0 <= list.tail < |nodes|)
    ensures |LinkedAfter(nodes, list, node, task)| == |nodes|
    ensures forall n :: 0 <= n < |nodes| && n != node && (list.size == 0 || n != list.tail) ==>
              LinkedAfter(nodes, list, node, task)[n] == nodes[n]
  {
  }

  lemma RemoveAll(nodes: seq<TaskNode>, nodes': seq<TaskNode>, lists: seq<TaskList>, chains: seq<seq<int>>,
                  home: seq<int>, l: int, k: int, list': TaskList)
    requires AllLinked(nodes, lists, chains) && Filed(chains, home) && |home| == |nodes|
    requires 0 <= l < |lists| && 0 <= k < |chains[l]|
    requires var node := nodes[chains[l][k]];
             && NONE <= node.prev < |nodes| && NONE <= node.next < |nodes|
             && list' == Shrunk(lists[l], node.prev, node.next)
             && nodes' == Unlinked(nodes, chains[l][k])
    ensures AllLinked(nodes', lists[l := list'], chains[l := Without(chains[l], k)])
    ensures ContentsOf(nodes', chains[l := Without(chains[l], k)]) ==
            ContentsOf(nodes, chains)[l := Without(ContentsOf(nodes, chains)[l], k)]
  {
    assert Linked(nodes, lists[l], chains[l]);
    RemoveLinks(nodes, lists[l], chains[l], k);
    RemoveElsewhere(nodes, lists[l], chains, home, l, k);
    OthersStay(nodes, nodes', lists, chains, home, l, list', Without(chains[l], k), Without(TasksOf(nodes, chains[l]), k));
  }

  lemma RemoveElsewhere(nodes: seq<TaskNode>, list: TaskList, chains: seq<seq<int>>, home: seq<int>, l: int, k: int)
    requires Filed(chains, home) && |home| == |nodes|
    requires 0 <= l < |chains| && 0 <= k < |chains[l]| && Linked(nodes, list, chains[l])
    requires NONE <= nodes[chains[l][k]].prev < |nodes| && NONE <= nodes[chains[l][k]].next < |nodes|
    ensures var nodes' := Unlinked(nodes, chains[l][k]);
            && |nodes'| == |nodes|
            && (forall n :: 0 <= n < |home| && home[n] != l && home[n] != NONE ==> nodes'[n] == nodes[n])
  {
    UnlinkedElsewhere(nodes, chains[l][k]);
    NeighboursStay(nodes, list, chains[l], k);
    hide Unlinked, Linked;
  }

  lemma UnlinkedElsewhere(nodes: seq<TaskNode>, node: int)
    requires 0 <= node < |nodes|
    requires NONE <= nodes[node].prev < |nodes| && NONE <= nodes[node].next < |nodes|
    ensures |Unlinked(nodes, node)| == |nodes|
    ensures forall n :: 0 <= n < |nodes| && n != nodes[node].prev && n != nodes[node].next ==>
              Unlinked(nodes, node)[n] == nodes[n]
  {
  }

  lemma NeighboursStay(nodes: seq<TaskNode>, list: TaskList, chain: seq<int>, k: int)
    requires Linked(nodes, list, chain) && 0 <= k < |chain|
    ensures NONE <= nodes[chain[k]].prev < |nodes| && NONE <= nodes[chain[k]].next < |nodes|
    ensures nodes[chain[k]].prev != NONE ==> nodes[chain[k]].prev in chain
    ensures nodes[chain[k]].next != NONE ==> nodes[chain[k]].next in chain
  {
  }

  lemma FreePop(stack: seq<int>, home: seq<int>, l: int)
    requires FreeStack(stack, home) && stack != [] && l != NONE
    ensures var n := |stack| - 1;
            && 0 <= stack[n] < |home| && home[stack[n]] == NONE
            && FreeStack(stack[..n], home[stack[n] := l])
  {
  }

  lemma FreePush(stack: seq<int>, home: seq<int>, node: int)
    requires FreeStack(stack, home) && 0 <= node < |home| && home[node] != NONE
    ensures |stack| < |home|
    ensures FreeStack(stack + [node], home[node := NONE])
  {
    Pigeonhole(stack, |home|);
    assert node !in stack;
    assert (stack + [node])[|stack|] == node;
    forall n | 0 <= n < |home| && home[node := NONE][n] == NONE
      ensures n in stack + [node]
    {
      if n != node {
        assert n in stack;
      }
    }
  }

  /** If all nodes of the pool are in use and each list entry is a distinct task, every one of the 64 tasks is listed. */
  lemma FullPoolListsEveryTask(nodes: seq<TaskNode>, chains: seq<seq<int>>, home: seq<int>, taskHome: seq<int>, x: int)
    requires |nodes| == |home| == |taskHome|
    requires Filed(chains, home) && FreeStack([], home)
    requires Filed(ContentsOf(nodes, chains), taskHome)
    requires 0 <= x < |taskHome|
    ensures taskHome[x] != NONE
  {
    var n := |home|;
    var tasks := seq(n, i requires 0 <= i < n => nodes[i].task);
    forall i | 0 <= i < n
      ensures 0 <= tasks[i] < n && taskHome[tasks[i]] == home[i]
    {
      var _ := NodeTask(nodes, chains, home, taskHome, i);
    }
    forall i, j | 0 <= i < j < n
      ensures tasks[i] != tasks[j]
    {
      var a := NodeTask(nodes, chains, home, taskHome, i);
      var b := NodeTask(nodes, chains, home, taskHome, j);
      var list := ContentsOf(nodes, chains)[home[i]];
      assert home[i] == home[j] && a != b ==> list[a] != list[b];
    }
    Pigeonhole(tasks, n);
    assert x in tasks;
  }

  /** The position of a node in use, and where its task is filed. */
  lemma NodeTask(nodes: seq<TaskNode>, chains: seq<seq<int>>, home: seq<int>, taskHome: seq<int>, node: int) returns (k: int)
    requires |nodes| == |home| == |taskHome|
    requires Filed(chains, home) && FreeStack([], home)
    requires Filed(ContentsOf(nodes, chains), taskHome)
    requires 0 <= node < |home|
    ensures 0 <= home[node] < |chains| && 0 <= k < |chains[home[node]]| && chains[home[node]][k] == node
    ensures ContentsOf(nodes, chains)[home[node]][k] == nodes[node].task
    ensures 0 <= nodes[node].task < |taskHome| && taskHome[nodes[node].task] == home[node]
  {
    var stack: seq<int> := [];
    assert node !in stack;
    k :| 0 <= k < |chains[home[node]]| && chains[home[node]][k] == node;
    assert ContentsOf(nodes, chains)[home[node]][k] == nodes[node].task;
  }

  // ---- One pool with all its lists --------------------------------------------------

  /**
   The whole representation: the links spell out the node chains, the nodes are
   partitioned between the chains and the free stack, and `contents` are the listed tasks.
   */
  ghost predicate PoolOk(nodes: seq<TaskNode>, lists: seq<TaskList>, stack: seq<int>,
                         chains: seq<seq<int>>, home: seq<int>, contents: seq<seq<int>>) {
    && |nodes| == |home| == POOL_SIZE
    && AllLinked(nodes, lists, chains)
    && Filed(chains, home)
    && FreeStack(stack, home)
    && contents == ContentsOf(nodes, chains)
  }

  lemma PoolPush(nodes: seq<TaskNode>, lists: seq<TaskList>, stack: seq<int>, chains: seq<seq<int>>, home: seq<int>,
                 contents: seq<seq<int>>, l: int, task: int)
    requires PoolOk(nodes, lists, stack, chains, home, contents)
    requires 0 <= l < |lists| && stack != []
    ensures |contents| == |chains| == |lists| && |home| == |nodes|
    ensures forall k :: 0 <= k < |stack| ==> 0 <= stack[k] < |nodes|
    ensures var node := stack[|stack| - 1];
            && 0 <= node < |nodes|
            && (lists[l].size == 0 ==> lists[l].head == lists[l].tail == NONE)
            && (lists[l].size != 0 ==> 0 <= lists[l].tail < |nodes| && lists[l].tail != node)
            && PoolOk(LinkedAfter(nodes, lists[l], node, task), lists[l := Grown(lists[l], node)], stack[..|stack| - 1],
                      Appended(chains, l, node), home[node := l], Appended(contents, l, task))
  {
    var node := stack[|stack| - 1];
    FreePop(stack, home, l);
    PushAll(nodes, lists, chains, home, l, node, task);
    FiledAppend(chains, home, l, node);
    assert Linked(nodes, lists[l], chains[l]);
  }

  /** The node at position k of list l: inside the pool, in use, and linked to nodes of the pool. */
  lemma PoolNode(nodes: seq<TaskNode>, lists: seq<TaskList>, stack: seq<int>, chains: seq<seq<int>>, home: seq<int>,
                 contents: seq<seq<int>>, l: int, k: int)
    requires PoolOk(nodes, lists, stack, chains, home, contents)
    requires 0 <= l < |lists| && 0 <= k < |chains[l]|
    ensures |contents| == |chains| == |lists| && |contents[l]| == |chains[l]|
    ensures |home| == |nodes| && |stack| < POOL_SIZE
    ensures var node := chains[l][k];
            && 0 <= node < |nodes| && nodes[node].task == contents[l][k] && home[node] == l
            && NONE <= nodes[node].prev < |nodes| && NONE <= nodes[node].next < |nodes|
  {
    assert Linked(nodes, lists[l], chains[l]);
    NeighboursStay(nodes, lists[l], chains[l], k);
    FreePush(stack, home, chains[l][k]);
  }

  lemma PoolRemove(nodes: seq<TaskNode>, nodes': seq<TaskNode>, lists: seq<TaskList>, stack: seq<int>,
                   chains: seq<seq<int>>, home: seq<int>, contents: seq<seq<int>>, l: int, k: int, node: int)
    requires PoolOk(nodes, lists, stack, chains, home, contents)
    requires |contents| == |lists| && 0 <= l < |lists| && 0 <= k < |chains[l]| == |contents[l]| && chains[l][k] == node
    requires 0 <= node < |nodes| == |home| && home[node] == l
    requires NONE <= nodes[node].prev < |nodes| && NONE <= nodes[node].next < |nodes|
    requires nodes' == Unlinked(nodes, node)
    ensures PoolOk(nodes', lists[l := Shrunk(lists[l], nodes[node].prev, nodes[node].next)],
                   stack + [node], chains[l := Without(chains[l], k)], home[node := NONE],
                   contents[l := Without(contents[l], k)])
  {
    hide Unlinked, Shrunk, FreeStack, AllLinked, Filed;
    UnlinkedElsewhere(nodes, node);
    RemoveAll(nodes, nodes', lists, chains, home, l, k, Shrunk(lists[l], nodes[node].prev, nodes[node].next));
    FiledWithout(chains, home, l, k);
    FreePush(stack, home, node);
  }

  class PooledLists {
    const nodes: array<TaskNode>
    const available: array<int>
    var free: int
    const lists: array<TaskList>
    ghost var contents: seq<seq<int>>  // the lists as plain sequences of tasks
    ghost var chains: seq<seq<int>>    // the lists as sequences of nodes
    ghost var home: seq<int>           // the list each node is in

    ghost function Repr(): (r: set<object>) {
      {this, nodes, available, lists}
    }

    ghost predicate Valid()
      reads this, nodes, available, lists
    {
      && available.Length == POOL_SIZE && 0 <= free <= POOL_SIZE
      && |contents| == lists.Length
      && PoolOk(nodes[..], lists[..], available[..free], chains, home, contents)
    }

    /** task_node_pool_init and task_list_init for each list */
    constructor (count: nat)
      ensures Valid() && fresh(Repr())
      ensures lists.Length == count && free == POOL_SIZE
      ensures contents == seq(count, _ => []) && chains == seq(count, _ => [])
    {
      nodes := new TaskNode[POOL_SIZE](_ => TaskNode(NONE, NONE, NONE));
      available := new int[POOL_SIZE](i => i);
      free := POOL_SIZE;
      lists := new TaskList[count](_ => TaskList(0, NONE, NONE));
      chains := seq(count, _ => []);
      contents := seq(count, _ => []);
      home := seq(POOL_SIZE, _ => NONE);
      new;
      forall n | 0 <= n < POOL_SIZE ensures n in available[..free] {
        assert available[..free][n] == n;
      }
    }

    /** task_node_alloc */
    method Alloc() returns (node: int)
      requires 0 < free <= available.Length
      requires forall k :: 0 <= k < free ==> 0 <= available[k] < nodes.Length
      modifies this`free, nodes
      ensures free == old(free) - 1 && node == available[free]
      ensures nodes[..] == old(nodes[..])[node := TaskNode(NONE, NONE, NONE)]
    {
      free := free - 1;
      node := available[free];
      nodes[node] := TaskNode(NONE, NONE, NONE);
    }

    /** The pointer surgery of task_list_push_back. */
    method Link(l: int, node: int, task: int)
      requires 0 <= l < lists.Length && 0 <= node < nodes.Length
      requires lists[l].size == 0 ==> lists[l].head == lists[l].tail == NONE
      requires lists[l].size != 0 ==> 0 <= lists[l].tail < nodes.Length && lists[l].tail != node
      modifies nodes, lists
      ensures nodes[..] == LinkedAfter(old(nodes[..]), old(lists[l]), node, task)
      ensures lists[..] == old(lists[..])[l := Grown(old(lists[l]), node)]
    {
      nodes[node] := TaskNode(task, lists[l].tail, NONE);
      if lists[l].size != 0 {
        var tail := lists[l].tail;
        nodes[tail] := nodes[tail].(next := node);
        lists[l] := lists[l].(tail := node);
      } else {
        assert lists[l].tail == NONE && lists[l].head == NONE;
        lists[l] := lists[l].(head := node, tail := node);
      }
      lists[l] := lists[l].(size := lists[l].size + 1);
    }

    /** task_list_push_back: appends, in the node it returns. */
    method PushBack(l: int, task: int) returns (node: int)
      requires Valid() && 0 <= l < lists.Length
      requires free > 0
      modifies this, nodes, lists
      ensures Valid()
      ensures free == old(free) - 1
      ensures contents == Appended(old(contents), l, task)
      ensures chains == old(chains)[l := old(chains)[l] + [node]]
    {
      hide PoolOk, Grown;
      PoolPush(nodes[..], lists[..], available[..free], chains, home, contents, l, task);
      assert forall k :: 0 <= k < free ==> available[..free][k] == available[k];
      node := Alloc();
      Link(l, node, task);
      assert nodes[..] == LinkedAfter(old(nodes[..]), old(lists[l]), node, task);
      assert available[..free] == old(available[..free])[..free];
      chains := Appended(chains, l, node);
      contents := Appended(contents, l, task);
      home := home[node := l];
    }

    /** task_node_free */
    method Free(node: int)
      requires 0 <= free < available.Length
      modifies this`free, available
      ensures free == old(free) + 1 <= available.Length
      ensures available[..free] == old(available[..free]) + [node]
    {
      available[free] := node;
      free := free + 1;
    }

    /** The pointer surgery of task_list_remove_node. */
    method Unlink(l: int, node: int) returns (task: int)
      requires 0 <= l < lists.Length && 0 <= node < nodes.Length
      requires NONE <= nodes[node].prev < nodes.Length && NONE <= nodes[node].next < nodes.Length
      modifies nodes, lists
      ensures task == old(nodes[node].task)
      ensures nodes[..] == Unlinked(old(nodes[..]), node)
      ensures lists[..] == old(lists[..])[l := Shrunk(old(lists[l]), old(nodes[node].prev), old(nodes[node].next))]
    {
      var prev, next := nodes[node].prev, nodes[node].next;
      if next != NONE {
        nodes[next] := nodes[next].(prev := prev);
      } else {
        lists[l] := lists[l].(tail := prev);
      }
      if nodes[node].prev != NONE {
        nodes[nodes[node].prev] := nodes[nodes[node].prev].(next := nodes[node].next);
      } else {
        lists[l] := lists[l].(head := nodes[node].next);
      }
      lists[l] := lists[l].(size := lists[l].size - 1);
      task := nodes[node].task;
    }

    /** task_list_remove_node: deletes the entry at position k, found only through its node. */
    method RemoveNode(l: int, node: int, ghost k: int) returns (task: int)
      requires Valid() && 0 <= l < |chains| == lists.Length
      requires 0 <= k < |chains[l]| == |contents[l]| && chains[l][k] == node
      modifies this, nodes, lists, available
      ensures Valid()
      ensures free == old(free) + 1
      ensures task == old(contents)[l][k]
      ensures contents == old(contents)[l := Without(old(contents)[l], k)]
      ensures chains == old(chains)[l := Without(old(chains)[l], k)]
    {
      hide PoolOk, Unlinked, Shrunk;
      PoolNode(nodes[..], lists[..], available[..free], chains, home, contents, l, k);
      task := Unlink(l, node);
      PoolRemove(old(nodes[..]), nodes[..], old(lists[..]), available[..free], chains, home, contents, l, k, node);
      Free(node);
      chains := chains[l := Without(chains[l], k)];
      contents := contents[l := Without(contents[l], k)];
      home := home[node := NONE];
    }

    method PopFront(l: int) returns (task: int)
      requires Valid() && 0 <= l < lists.Length
      requires contents[l] != []
      modifies this, nodes, lists, available
      ensures Valid()
      ensures free == old(free) + 1
      ensures task == old(contents)[l][0]
      ensures contents == Popped(old(contents), l)
    {
      ListSize(l);
      assert Without(contents[l], 0) == contents[l][1..];
      task := RemoveNode(l, lists[l].head, 0);
    }

    /** The header of a list counts its tasks, and its first node holds the first of them. */
    lemma ListSize(l: int)
      requires Valid() && 0 <= l < lists.Length
      ensures |chains| == lists.Length
      ensures lists[l].size == |contents[l]| == |chains[l]|
      ensures lists[l].head == At(chains[l], 0)
    {
    }

    /** The task in the k-th node of a list, and the node after it. */
    lemma NodeAt(l: int, k: int)
      requires Valid() && 0 <= l < lists.Length && 0 <= k < |contents[l]|
      ensures |chains| == lists.Length && |chains[l]| == |contents[l]| && 0 <= chains[l][k] < nodes.Length
      ensures nodes[chains[l][k]].task == contents[l][k]
      ensures nodes[chains[l][k]].next == At(chains[l], k + 1)
    {
    }

    /** When the listed tasks are distinct and some task is not listed, a node is available. */
    lemma HasRoom(taskHome: seq<int>, x: int)
      requires Valid() && |taskHome| == POOL_SIZE
      requires Filed(contents, taskHome)
      requires 0 <= x < |taskHome| && taskHome[x] == NONE
      ensures free > 0
    {
      if free == 0 {
        assert available[..free] == [];
        FullPoolListsEveryTask(nodes[..], chains, home, taskHome, x);
      }
    }
  }
}

/**
 Filing numbered items into numbered lists.

 Every queue of the kernel is an instance of one idea: a task (or a list node) is
 an item `i`, its `home` is the one list it belongs to (or NONE), and the lists
 hold each item exactly once, at its home and at no other place.
 */
module Filing {

  /** No index, no list, no task: the source's -1 and null pointers. */
  const NONE: int := -1

  ghost predicate NoDuplicates(list: seq<int>) {
    forall i, j :: 0 <= i < j < |list| ==> list[i] != list[j]
  }

  /** Each entry of each list is an item at home there, exactly once, and every item with a home is present. */
  ghost predicate Filed(lists: seq<seq<int>>, home: seq<int>) {
    && (forall l, i :: 0 <= l < |lists| && 0 <= i < |lists[l]| ==>
          0 <= lists[l][i] < |home| && home[lists[l][i]] == l)
    && (forall l :: 0 <= l < |lists| ==> NoDuplicates(lists[l]))
    && (forall t :: 0 <= t < |home| && home[t] != NONE ==>
          0 <= home[t] < |lists| && t in lists[home[t]])
  }

  function Appended(lists: seq<seq<int>>, l: int, t: int): (r: seq<seq<int>>)
    requires 0 <= l < |lists|
  {
    lists[l := lists[l] + [t]]
  }

  function Popped(lists: seq<seq<int>>, l: int): (r: seq<seq<int>>)
    requires 0 <= l < |lists| && lists[l] != []
  {
    lists[l := lists[l][1..]]
  }

  /** The entry at position i, or NONE beyond the ends: what a link points to. */
  function At(list: seq<int>, i: int): (r: int) {
    if 0 <= i < |list| then list[i] else NONE
  }

  /** The list without the entry at position k. */
  function Without(list: seq<int>, k: int): (r: seq<int>)
    requires 0 <= k < |list|
    ensures |r| == |list| - 1
    ensures forall i :: 0 <= i < k ==> r[i] == list[i]
    ensures forall i :: k <= i < |r| ==> r[i] == list[i + 1]
  {
    list[..k] + list[k + 1..]
  }

  lemma FiledAppend(lists: seq<seq<int>>, home: seq<int>, l: int, t: int)
    requires Filed(lists, home)
    requires 0 <= l < |lists| && 0 <= t < |home| && home[t] == NONE
    ensures Filed(Appended(lists, l, t), home[t := l])
  {
  }

  lemma FiledWithout(lists: seq<seq<int>>, home: seq<int>, l: int, k: int)
    requires Filed(lists, home)
    requires 0 <= l < |lists| && 0 <= k < |lists[l]|
    ensures Filed(lists[l := Without(lists[l], k)], home[lists[l][k] := NONE])
  {
  }

  lemma FiledPop(lists: seq<seq<int>>, home: seq<int>, l: int)
    requires Filed(lists, home)
    requires 0 <= l < |lists| && lists[l] != []
    ensures Filed(Popped(lists, l), home[lists[l][0] := NONE])
  {
  }

  /** Emptying list l leaves its former entries without a home. */
  lemma FiledClear(lists: seq<seq<int>>, home: seq<int>, home': seq<int>, l: int)
    requires Filed(lists, home)
    requires 0 <= l < |lists| && |home'| == |home|
    requires forall t :: 0 <= t < |home| ==> home'[t] == if home[t] == l then NONE else home[t]
    ensures Filed(lists[l := []], home')
  {
  }

  /** Filing determines which list holds an item: it is in its home and nowhere else. */
  lemma FiledExactlyAt(lists: seq<seq<int>>, home: seq<int>, t: int, l: int)
    requires Filed(lists, home)
    requires 0 <= t < |home| && 0 <= l < |lists|
    ensures t in lists[l] <==> home[t] == l
    ensures multiset(lists[l])[t] == if home[t] == l then 1 else 0
  {
    OccursOnce(lists[l], t);
  }

  lemma {:induction false} OccursOnce(list: seq<int>, t: int)
    requires NoDuplicates(list)
    ensures multiset(list)[t] == if t in list then 1 else 0
  {
    if list == [] {
    } else {
      var n := |list| - 1;
      assert list == list[..n] + [list[n]];
      OccursOnce(list[..n], t);
    }
  }

  // ---- Counting --------------------------------------------------------------

  function Range(n: nat): (r: set<int>)
    ensures forall i :: i in r <==> 0 <= i < n
  {
    if n == 0 then {} else Range(n - 1) + {n - 1}
  }

  lemma {:induction false} RangeSize(n: nat)
    ensures |Range(n)| == n
  {
    if n == 0 {
    } else {
      RangeSize(n - 1);
    }
  }

  function Entries(list: seq<int>): (r: set<int>)
  {
    set x | x in list
  }

  lemma {:induction false} EntriesSize(list: seq<int>)
    requires NoDuplicates(list)
    ensures |Entries(list)| == |list|
  {
    if list == [] {
    } else {
      var n := |list| - 1;
      EntriesSize(list[..n]);
      assert list == list[..n] + [list[n]];
      assert Entries(list) == Entries(list[..n]) + {list[n]};
      assert list[n] !in list[..n];
    }
  }

  lemma SubsetSize(a: set<int>, b: set<int>)
    requires a <= b
    ensures |a| <= |b|
    ensures |a| == |b| ==> a == b
  {
    assert b == a + (b - a);
  }

  /** Distinct numbers drawn from 0..n are at most n many, and exactly n only when none is missing. */
  lemma Pigeonhole(list: seq<int>, n: nat)
    requires NoDuplicates(list)
    requires forall i :: 0 <= i < |list| ==> 0 <= list[i] < n
    ensures |list| <= n
    ensures |list| == n ==> forall t :: 0 <= t < n ==> t in list
  {
    RangeSize(n);
    EntriesSize(list);
    SubsetSize(Entries(list), Range(n));
    if |list| == n {
      forall t | 0 <= t < n ensures t in list {
        assert t in Entries(list);
      }
    }
  }
}

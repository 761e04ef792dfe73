/**
 * `TaskQueue`: an array of queue entries kept in priority order by inserting each new
 * entry in front of the first entry it outranks.
 */
module TaskQueue {
  import opened Wrappers
  import opened SchedulerTypes
  import opened Seqs

  /** The test `enqueue` searches for: `other` has a lower priority, or the same one and a later timestamp. */
  predicate Outranks(item: QueueItem, other: QueueItem) {
    other.priority < item.priority || (other.priority == item.priority && other.timestamp > item.timestamp)
  }

  /** `a` may come before `b`: a higher priority, or the same one and a timestamp no later. */
  predicate InOrder(a: QueueItem, b: QueueItem) {
    a.priority > b.priority || (a.priority == b.priority && a.timestamp <= b.timestamp)
  }

  ghost predicate Sorted(s: seq<QueueItem>) {
    forall i, j :: 0 <= i < j < |s| ==> InOrder(s[i], s[j])
  }

  /** Where `enqueue` puts `item`: before the first entry it outranks, or at the end. */
  function Position(items: seq<QueueItem>, item: QueueItem): (p: nat)
    ensures p <= |items|
    ensures forall k :: 0 <= k < p ==> !Outranks(item, items[k])
    ensures p < |items| ==> Outranks(item, items[p])
  {
    if |items| == 0 then 0
    else if Outranks(item, items[0]) then 0
    else 1 + Position(items[1..], item)
  }

  function Inserted(items: seq<QueueItem>, item: QueueItem): seq<QueueItem> {
    var p := Position(items, item);
    items[..p] + [item] + items[p..]
  }

  /** The entries without the first one for `taskId`. */
  function RemoveFirst(items: seq<QueueItem>, taskId: string): seq<QueueItem> {
    if |items| == 0 then []
    else if items[0].taskId == taskId then items[1..]
    else [items[0]] + RemoveFirst(items[1..], taskId)
  }

  predicate HasTask(items: seq<QueueItem>, taskId: string) {
    exists k :: 0 <= k < |items| && items[k].taskId == taskId
  }

  /** The `findIndex` of `enqueue`: the first entry `item` outranks, or -1. */
  method FindInsertIndex(items: seq<QueueItem>, item: QueueItem) returns (index: int)
    ensures index == if Position(items, item) == |items| then -1 else Position(items, item)
  {
    var i := 0;
    while i < |items|
      invariant i <= |items|
      invariant forall k :: 0 <= k < i ==> !Outranks(item, items[k])
    {
      if Outranks(item, items[i]) {
        return i;
      }
      i := i + 1;
    }
    return -1;
  }

  /** The `findIndex` of `removeByTaskId`: the first entry for `taskId`, or -1. */
  method FindTaskIndex(items: seq<QueueItem>, taskId: string) returns (index: int)
    ensures index == -1 <==> !HasTask(items, taskId)
    ensures index != -1 ==> 0 <= index < |items| && items[index].taskId == taskId
    ensures index != -1 ==> forall k :: 0 <= k < index ==> items[k].taskId != taskId
  {
    var i := 0;
    while i < |items|
      invariant i <= |items|
      invariant forall k :: 0 <= k < i ==> items[k].taskId != taskId
    {
      if items[i].taskId == taskId {
        return i;
      }
      i := i + 1;
    }
    return -1;
  }

  class TaskQueue {
    var items: seq<QueueItem>

    /** The entries stay in priority order. */
    ghost predicate Valid()
      reads this
    {
      Sorted(items)
    }

    constructor()
      ensures items == [] && Valid()
    {
      items := [];
    }

    method Enqueue(item: QueueItem)
      requires Valid()
      modifies this
      ensures Valid()
      ensures items == Inserted(old(items), item)
    {
      var index := FindInsertIndex(items, item);
      if index == -1 {
        assert items[..|items|] + [item] + items[|items|..] == items + [item];
        items := items + [item];
      } else {
        items := items[..index] + [item] + items[index..];
      }
      InsertedSorted(old(items), item);
    }

    method Dequeue() returns (r: Option<QueueItem>)
      requires Valid()
      modifies this
      ensures Valid()
      ensures old(items) == [] ==> r == None && items == []
      ensures old(items) != [] ==> r == Some(old(items)[0]) && items == old(items)[1..]
    {
      if |items| == 0 {
        r := None;
      } else {
        r := Some(items[0]);
        items := items[1..];
      }
    }

    function Peek(): (r: Option<QueueItem>)
      reads this
      ensures r.None? <==> |items| == 0
      ensures r.Some? ==> r.value == items[0]
    {
      if |items| == 0 then None else Some(items[0])
    }

    function IsEmpty(): bool
      reads this
    {
      |items| == 0
    }

    function Size(): nat
      reads this
    {
      |items|
    }

    method RemoveByTaskId(taskId: string) returns (removed: bool)
      requires Valid()
      modifies this
      ensures Valid()
      ensures removed <==> HasTask(old(items), taskId)
      ensures items == RemoveFirst(old(items), taskId)
    {
      var index := FindTaskIndex(items, taskId);
      if index != -1 {
        RemoveFirstAt(items, taskId, index);
        items := items[..index] + items[index + 1..];
        RemoveKeepsSorted(old(items), taskId);
        removed := true;
      } else {
        RemoveFirstAbsent(items, taskId);
        removed := false;
      }
    }

    /** A copy of the entries, in order. */
    function GetAll(): seq<QueueItem>
      reads this
    {
      items
    }

    method Clear()
      modifies this
      ensures items == [] && Valid()
    {
      items := [];
    }
  }

  // ----- Properties -----

  lemma OutranksThrough(a: QueueItem, b: QueueItem, c: QueueItem)
    requires Outranks(a, b) && InOrder(b, c)
    ensures Outranks(a, c)
  {
  }

  /** Inserting keeps the entries sorted. */
  lemma InsertedSorted(items: seq<QueueItem>, item: QueueItem)
    requires Sorted(items)
    ensures Sorted(Inserted(items, item))
  {
    var p := Position(items, item);
    var s := Inserted(items, item);
    forall i, j | 0 <= i < j < |s|
      ensures InOrder(s[i], s[j])
    {
      if j < p || i > p {
        var i', j' := if i < p then i else i - 1, if j < p then j else j - 1;
        assert s[i] == items[i'] && s[j] == items[j'];
      } else if i == p {
        assert s[j] == items[j - 1];
        OutranksThrough(item, items[p], items[j - 1]);
      } else if j == p {
        assert s[i] == items[i] && s[j] == item;
      } else {
        assert s[i] == items[i] && s[j] == items[j - 1];
      }
    }
  }

  /** Inserting adds exactly `item` and leaves the other entries in their order. */
  lemma InsertedContents(items: seq<QueueItem>, item: QueueItem)
    ensures var s := Inserted(items, item);
            var p := Position(items, item);
            && |s| == |items| + 1
            && s[p] == item
            && s[..p] + s[p + 1..] == items
            && multiset(s) == multiset(items) + multiset{item}
  {
    var p := Position(items, item);
    var front, back := items[..p], items[p..];
    assert items == front + back;
    SplitAround(front, item, back);
  }

  /** After inserting, the tasks in the queue are the old ones and the new entry's. */
  lemma InsertedHas(items: seq<QueueItem>, item: QueueItem, x: string)
    ensures HasTask(Inserted(items, item), x) <==> x == item.taskId || HasTask(items, x)
  {
    var p := Position(items, item);
    var s := Inserted(items, item);
    assert s[p] == item;
    if HasTask(items, x) {
      var k :| 0 <= k < |items| && items[k].taskId == x;
      if k < p {
        assert s[k] == items[k];
      } else {
        assert s[k + 1] == items[k];
      }
    }
    if HasTask(s, x) {
      var k :| 0 <= k < |s| && s[k].taskId == x;
      if k < p {
        assert s[k] == items[k];
      } else if k > p {
        assert s[k] == items[k - 1];
      }
    }
  }

  /**
   * In a sorted queue, the new entry goes after every entry it does not outrank, so an entry
   * equal in priority and timestamp to earlier ones leaves after them.
   */
  lemma InsertedAfterEquals(items: seq<QueueItem>, item: QueueItem, k: nat)
    requires Sorted(items) && k < |items|
    requires !Outranks(item, items[k])
    ensures k < Position(items, item)
  {
    var p := Position(items, item);
    if p < |items| && p <= k {
      OutranksThrough(item, items[p], items[k]);
    }
  }

  /** An entry that outranks no present entry is appended: with one priority and rising timestamps the queue is first-in first-out. */
  lemma InsertedAtEnd(items: seq<QueueItem>, item: QueueItem)
    requires forall k :: 0 <= k < |items| ==> !Outranks(item, items[k])
    ensures Inserted(items, item) == items + [item]
  {
    assert items[..|items|] == items;
  }

  /** Removing by id takes out the first entry for that id and nothing else. */
  lemma {:induction false} RemoveFirstAt(items: seq<QueueItem>, taskId: string, i: nat)
    requires i < |items| && items[i].taskId == taskId
    requires forall k :: 0 <= k < i ==> items[k].taskId != taskId
    ensures RemoveFirst(items, taskId) == items[..i] + items[i + 1..]
  {
    if i > 0 {
      RemoveFirstAt(items[1..], taskId, i - 1);
      assert items[..i] == [items[0]] + items[1..][..i - 1];
      assert items[i + 1..] == items[1..][i..];
    }
  }

  /** Without an entry for the id, removal changes nothing. */
  lemma {:induction false} RemoveFirstAbsent(items: seq<QueueItem>, taskId: string)
    requires !HasTask(items, taskId)
    ensures RemoveFirst(items, taskId) == items
  {
    if |items| > 0 {
      assert !HasTask(items[1..], taskId) by {
        forall k | 0 <= k < |items[1..]|
          ensures items[1..][k].taskId != taskId
        {
          assert items[1..][k] == items[k + 1];
        }
      }
      RemoveFirstAbsent(items[1..], taskId);
      assert items == [items[0]] + items[1..];
    }
  }

  /** Removal leaves a sorted subsequence, one entry shorter exactly when the id was present. */
  lemma {:induction false} RemoveKeepsSorted(items: seq<QueueItem>, taskId: string)
    requires Sorted(items)
    ensures Sorted(RemoveFirst(items, taskId))
    ensures |RemoveFirst(items, taskId)| == if HasTask(items, taskId) then |items| - 1 else |items|
    ensures forall x :: x in RemoveFirst(items, taskId) ==> x in items
  {
    if |items| > 0 && items[0].taskId != taskId {
      var rest := items[1..];
      assert Sorted(rest) by {
        forall i, j | 0 <= i < j < |rest|
          ensures InOrder(rest[i], rest[j])
        {
          assert rest[i] == items[i + 1] && rest[j] == items[j + 1];
        }
      }
      RemoveKeepsSorted(rest, taskId);
      var r := RemoveFirst(rest, taskId);
      assert HasTask(items, taskId) <==> HasTask(rest, taskId) by {
        if HasTask(items, taskId) {
          var k :| 0 <= k < |items| && items[k].taskId == taskId;
          assert rest[k - 1] == items[k];
        }
        if HasTask(rest, taskId) {
          var k :| 0 <= k < |rest| && rest[k].taskId == taskId;
          assert items[k + 1] == rest[k];
        }
      }
      forall j | 0 <= j < |r|
        ensures InOrder(items[0], r[j])
      {
        assert r[j] in rest;
        var m :| 0 <= m < |rest| && rest[m] == r[j];
        assert rest[m] == items[m + 1];
      }
      assert RemoveFirst(items, taskId) == [items[0]] + r;
    } else if |items| > 0 {
      assert HasTask(items, taskId) by {
        assert items[0].taskId == taskId;
      }
      forall x | x in items[1..]
        ensures x in items
      {
      }
    }
  }
}

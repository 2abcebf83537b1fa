/**
 * How the task list is patched after a successful call: `map` to replace the
 * entries with a given id, `filter` to drop them, spread to put a new task in front.
 */
module Reconcile {
  import opened TaskTypes
  import opened Collections

  /** Every entry whose id is `id` becomes `t`; every other entry stays where it is. */
  function ReplaceById(tasks: seq<Task>, id: int, t: Task): (r: seq<Task>)
    ensures |r| == |tasks|
    ensures forall i :: 0 <= i < |r| && tasks[i].id == id ==> r[i] == t
    ensures forall i :: 0 <= i < |r| && tasks[i].id != id ==> r[i] == tasks[i]
    decreases |tasks|
  {
    if tasks == [] then []
    else [if tasks[0].id == id then t else tasks[0]] + ReplaceById(tasks[1..], id, t)
  }

  /** The entries whose id is not `id`, in their original order. */
  function RemoveById(tasks: seq<Task>, id: int): (r: seq<Task>)
    ensures |r| <= |tasks|
    ensures forall i :: 0 <= i < |r| ==> r[i].id != id
    ensures forall x :: x in r ==> x in tasks
    ensures forall x: Task {:trigger multiset(r)[x]} :: x.id != id ==> multiset(r)[x] == multiset(tasks)[x]
  {
    var r := Filter(tasks, (x: Task) => x.id != id);
    forall x: Task | x.id != id
      ensures multiset(r)[x] == multiset(tasks)[x]
    {
      FilterCount(tasks, (x: Task) => x.id != id, x);
    }
    r
  }

  /** Replacing an id nobody has changes nothing. */
  lemma ReplaceAbsentId(tasks: seq<Task>, id: int, t: Task)
    requires !HasId(tasks, id)
    ensures ReplaceById(tasks, id, t) == tasks
  {
  }

  /** Removing an id nobody has changes nothing. */
  lemma RemoveAbsentId(tasks: seq<Task>, id: int)
    requires !HasId(tasks, id)
    ensures RemoveById(tasks, id) == tasks
  {
    FilterKeepsAll(tasks, (x: Task) => x.id != id);
  }

  /** Removal keeps relative order: it distributes over concatenation. */
  lemma RemoveConcat(a: seq<Task>, b: seq<Task>, id: int)
    ensures RemoveById(a + b, id) == RemoveById(a, id) + RemoveById(b, id)
  {
    FilterConcat(a, b, (x: Task) => x.id != id);
  }

  /** After a removal the id is gone, and the length drops by exactly the number of entries that had it. */
  lemma {:induction false} RemoveLength(tasks: seq<Task>, id: int)
    ensures !HasId(RemoveById(tasks, id), id)
    ensures |RemoveById(tasks, id)| + CountId(tasks, id) == |tasks|
    decreases |tasks|
  {
    if tasks != [] {
      RemoveLength(tasks[1..], id);
      assert tasks == [tasks[0]] + tasks[1..];
      RemoveConcat([tasks[0]], tasks[1..], id);
    }
  }

  /** How many entries carry the id; the length `RemoveLength` relates removal to. */
  function CountId(tasks: seq<Task>, id: int): nat
    decreases |tasks|
  {
    if tasks == [] then 0
    else (if tasks[0].id == id then 1 else 0) + CountId(tasks[1..], id)
  }

  /** Putting a task with a fresh id in front keeps the ids unique. */
  lemma PrependKeepsUnique(t: Task, tasks: seq<Task>)
    requires UniqueIds(tasks) && !HasId(tasks, t.id)
    ensures UniqueIds([t] + tasks)
  {
  }

  /** Replacing an entry by one that keeps its id keeps the ids unique. */
  lemma ReplaceKeepsUnique(tasks: seq<Task>, id: int, t: Task)
    requires UniqueIds(tasks) && t.id == id
    ensures UniqueIds(ReplaceById(tasks, id, t))
  {
  }

  /** Removing entries keeps the ids unique. */
  lemma {:induction false} RemoveKeepsUnique(tasks: seq<Task>, id: int)
    requires UniqueIds(tasks)
    ensures UniqueIds(RemoveById(tasks, id))
    decreases |tasks|
  {
    if tasks != [] {
      var rest := tasks[1..];
      RemoveKeepsUnique(rest, id);
      assert tasks == [tasks[0]] + rest;
      RemoveConcat([tasks[0]], rest, id);
      if tasks[0].id != id {
        FirstIdNotInRemoved(tasks, id);
        PrependKeepsUnique(tasks[0], RemoveById(rest, id));
      }
    }
  }

  /**
   * A step of `RemoveKeepsUnique`: with unique ids, the first entry's id does not
   * occur among the survivors of the rest.
   */
  lemma FirstIdNotInRemoved(tasks: seq<Task>, id: int)
    requires UniqueIds(tasks) && tasks != []
    ensures !HasId(RemoveById(tasks[1..], id), tasks[0].id)
  {
    var rest := tasks[1..];
    var r := RemoveById(rest, id);
    forall i | 0 <= i < |r|
      ensures r[i].id != tasks[0].id
    {
      assert r[i] in rest;
      var k :| 0 <= k < |rest| && rest[k] == r[i];
      assert tasks[k + 1] == r[i];
    }
  }
}

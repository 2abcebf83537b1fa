/**
 * The values the task page derives from its state: the filtered and sorted
 * list it shows, and the counters in its header.
 */
module TaskView {
  import opened Wrappers
  import opened TaskTypes
  import opened Collections
  import opened Sorting

  /**
   * What the title sort needs of the locale's string comparison: the sign flips
   * when the arguments do, and "at most" is transitive. Its actual collation is
   * not modelled.
   */
  ghost predicate ConsistentComparator(compare: (string, string) -> int)
  {
    && (forall x, y :: compare(x, y) < 0 <==> compare(y, x) > 0)
    && (forall x, y, z :: compare(x, y) <= 0 && compare(y, z) <= 0 ==> compare(x, z) <= 0)
  }

  /** The three sort orders the comparator distinguishes. */
  datatype SortKey = ByCreatedAt | ByDueDate | ByTitle

  /** The comparator's `switch`: an unrecognised key falls to the creation-time default. */
  function SortKeyOf(sortBy: string): (k: SortKey)
    ensures k == ByDueDate <==> sortBy == "due_date"
    ensures k == ByTitle <==> sortBy == "title"
  {
    if sortBy == "due_date" then ByDueDate
    else if sortBy == "title" then ByTitle
    else ByCreatedAt
  }

  /**
   * A task passes the status filter when the filter is "all" or names its status;
   * a filter that is neither passes no task.
   */
  predicate Matches(statusFilter: string, t: Task)
    ensures Matches(statusFilter, t) <==>
              statusFilter == "all" || ParseStatus(statusFilter) == Some(t.status)
  {
    statusFilter == "all" || StatusName(t.status) == statusFilter
  }

  /** The comparator handed to `sort`, case by case; negative means `a` goes first. */
  function Compare(key: SortKey, compare: (string, string) -> int, a: Task, b: Task): (c: int)
    ensures key == ByCreatedAt ==>
              (c < 0 <==> a.createdAt > b.createdAt) && (c == 0 <==> a.createdAt == b.createdAt)
    ensures key == ByDueDate && a.dueDate.None? ==> c > 0
    ensures key == ByDueDate && a.dueDate.Some? && b.dueDate.None? ==> c < 0
    ensures key == ByDueDate && a.dueDate.Some? && b.dueDate.Some? ==>
              (c < 0 <==> a.dueDate.value < b.dueDate.value) && (c == 0 <==> a.dueDate.value == b.dueDate.value)
    ensures key == ByTitle ==> c == compare(a.title, b.title)
  {
    match key
    case ByDueDate =>
      if a.dueDate.None? then 1
      else if b.dueDate.None? then -1
      else a.dueDate.value - b.dueDate.value
    case ByTitle => compare(a.title, b.title)
    case ByCreatedAt => b.createdAt - a.createdAt
  }

  /**
   * The order the sorted view must respect: `a` may precede `b`. Newest first by
   * creation; by due date, dated tasks ascending and undated ones last; by title
   * ascending under the locale comparison.
   */
  predicate InOrder(key: SortKey, compare: (string, string) -> int, a: Task, b: Task)
  {
    match key
    case ByCreatedAt => a.createdAt >= b.createdAt
    case ByDueDate => b.dueDate.None? || (a.dueDate.Some? && a.dueDate.value <= b.dueDate.value)
    case ByTitle => compare(a.title, b.title) <= 0
  }

  /**
   * The comparator and the order agree on every pair except two undated tasks
   * under the due-date key, for which the comparator answers 1 both ways.
   */
  lemma CompareAgreesWithOrder(key: SortKey, compare: (string, string) -> int, a: Task, b: Task)
    requires ConsistentComparator(compare)
    ensures !(key == ByDueDate && a.dueDate.None? && b.dueDate.None?) ==>
              (InOrder(key, compare, a, b) <==> Compare(key, compare, a, b) <= 0)
    ensures key == ByDueDate && a.dueDate.None? && b.dueDate.None? ==>
              Compare(key, compare, a, b) > 0 && Compare(key, compare, b, a) > 0
              && InOrder(key, compare, a, b) && InOrder(key, compare, b, a)
  {
  }

  /** Each sort key orders tasks by a total preorder, so a sorted arrangement exists. */
  lemma InOrderIsTotalPreorder(key: SortKey, compare: (string, string) -> int)
    requires ConsistentComparator(compare)
    ensures TotalPreorder((a: Task, b: Task) => InOrder(key, compare, a, b))
  {
  }

  /**
   * `view` is what the page shows for `tasks`: each task that passes the filter
   * as often as it occurs in `tasks`, no other task, in the order of the sort key.
   */
  ghost predicate IsView(view: seq<Task>, tasks: seq<Task>, statusFilter: string, sortBy: string,
                         compare: (string, string) -> int)
  {
    && (forall t :: multiset(view)[t] == if Matches(statusFilter, t) then multiset(tasks)[t] else 0)
    && (forall i, j :: 0 <= i < j < |view| ==> InOrder(SortKeyOf(sortBy), compare, view[i], view[j]))
  }

  /** The derived-view effect: copy the tasks, filter them by status, sort the copy in place. */
  method ComputeView(tasks: seq<Task>, statusFilter: string, sortBy: string,
                     compare: (string, string) -> int)
    returns (view: seq<Task>)
    requires ConsistentComparator(compare)
    ensures IsView(view, tasks, statusFilter, sortBy, compare)
  {
    var filtered := tasks;
    if statusFilter != "all" {
      filtered := Filter(tasks, (t: Task) => StatusName(t.status) == statusFilter);
      forall t: Task
        ensures multiset(filtered)[t] == if Matches(statusFilter, t) then multiset(tasks)[t] else 0
      {
        FilterCount(tasks, (t: Task) => StatusName(t.status) == statusFilter, t);
      }
    }
    var a := new Task[|filtered|](i requires 0 <= i < |filtered| => filtered[i]);
    assert a[..] == filtered;
    var key := SortKeyOf(sortBy);
    InOrderIsTotalPreorder(key, compare);
    InsertionSort(a, (x: Task, y: Task) => InOrder(key, compare, x, y));
    view := a[..];
  }

  /** The view holds exactly the tasks that pass the filter. */
  lemma ViewMembers(view: seq<Task>, tasks: seq<Task>, statusFilter: string, sortBy: string,
                    compare: (string, string) -> int, t: Task)
    requires IsView(view, tasks, statusFilter, sortBy, compare)
    ensures t in view <==> t in tasks && Matches(statusFilter, t)
  {
    assert t in view <==> multiset(view)[t] > 0;
    assert t in tasks <==> multiset(tasks)[t] > 0;
  }

  /** Under "all" nothing is dropped: the view is a permutation of the tasks. */
  lemma ViewOfAllIsPermutation(view: seq<Task>, tasks: seq<Task>, sortBy: string,
                               compare: (string, string) -> int)
    requires IsView(view, tasks, "all", sortBy, compare)
    ensures multiset(view) == multiset(tasks)
    ensures |view| == |tasks|
  {
    assert forall t :: multiset(view)[t] == multiset(tasks)[t];
    assert |multiset(view)| == |view|;
  }

  /** What each sort key promises about the order of the view. */
  lemma ViewOrder(view: seq<Task>, tasks: seq<Task>, statusFilter: string, sortBy: string,
                  compare: (string, string) -> int)
    requires IsView(view, tasks, statusFilter, sortBy, compare)
    ensures sortBy != "due_date" && sortBy != "title" ==>
              forall i, j :: 0 <= i < j < |view| ==> view[i].createdAt >= view[j].createdAt
    ensures sortBy == "title" ==>
              forall i, j :: 0 <= i < j < |view| ==> compare(view[i].title, view[j].title) <= 0
    ensures sortBy == "due_date" ==>
              forall i, j :: 0 <= i < j < |view| && view[j].dueDate.Some? ==>
                view[i].dueDate.Some? && view[i].dueDate.value <= view[j].dueDate.value
  {
  }

  /** The header counters. */
  datatype TaskStats = TaskStats(total: nat, pending: nat, inProgress: nat, completed: nat)

  /** How many tasks have status `s`: none exactly when no task has it. */
  function CountStatus(tasks: seq<Task>, s: Status): (n: nat)
    ensures n <= |tasks|
    ensures n == 0 <==> forall i :: 0 <= i < |tasks| ==> tasks[i].status != s
  {
    var keep := (t: Task) => t.status == s;
    var r := Filter(tasks, keep);
    forall i | 0 <= i < |tasks| && tasks[i].status == s
      ensures |r| > 0
    {
      FilterCount(tasks, keep, tasks[i]);
      assert tasks[i] in multiset(tasks);
    }
    assert |r| > 0 ==> r[0] in tasks && r[0].status == s;
    |r|
  }

  /** Every task has one of the three statuses, so the three counts add up to the number of tasks. */
  lemma {:induction false} CountsAddUp(tasks: seq<Task>)
    ensures CountStatus(tasks, Pending) + CountStatus(tasks, InProgress) + CountStatus(tasks, Completed)
            == |tasks|
    decreases |tasks|
  {
    if tasks != [] {
      CountsAddUp(tasks[1..]);
    }
  }

  /** The header counters: the total, and the three per-status counts that partition it. */
  function Stats(tasks: seq<Task>): (st: TaskStats)
    ensures st.total == |tasks|
    ensures st.pending + st.inProgress + st.completed == st.total
  {
    CountsAddUp(tasks);
    TaskStats(|tasks|, CountStatus(tasks, Pending), CountStatus(tasks, InProgress),
              CountStatus(tasks, Completed))
  }

  /** A counter equals the length of the view filtered to its status. */
  lemma CountIsViewLength(view: seq<Task>, tasks: seq<Task>, s: Status, sortBy: string,
                          compare: (string, string) -> int)
    requires IsView(view, tasks, StatusName(s), sortBy, compare)
    ensures |view| == CountStatus(tasks, s)
  {
    var keep := (t: Task) => t.status == s;
    forall t: Task
      ensures multiset(view)[t] == multiset(Filter(tasks, keep))[t]
    {
      FilterCount(tasks, keep, t);
      StatusNameInjective(t.status, s);
    }
    assert multiset(view) == multiset(Filter(tasks, keep));
    assert |multiset(view)| == |view|;
    assert |multiset(Filter(tasks, keep))| == |Filter(tasks, keep)|;
  }
}

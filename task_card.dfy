/** The rules a task card applies: its status label, the overdue mark and the advance button. */
module TaskCard {
  import opened Wrappers
  import opened TaskTypes

  /** The label of each status's badge: a capitalised, non-empty word or phrase. */
  function StatusLabel(s: Status): (l: string)
    ensures |l| > 0 && 'A' <= l[0] <= 'Z'
  {
    match s
    case Pending => "Pending"
    case InProgress => "In Progress"
    case Completed => "Completed"
  }

  /** No two statuses share a label. */
  lemma LabelsDistinct(s: Status, t: Status)
    ensures StatusLabel(s) == StatusLabel(t) ==> s == t
  {
  }

  /**
   * A task is overdue when it has a due date earlier than `now` and is not completed;
   * an overdue card that shows its description therefore offers a step forward.
   */
  predicate IsOverdue(t: Task, now: int)
    ensures IsOverdue(t, now) ==> t.dueDate.Some? && t.status != Completed
    ensures IsOverdue(t, now) && HasDescription(t) ==> OfferedTransition(t).Some?
  {
    t.dueDate.Some? && t.dueDate.value < now && t.status != Completed
  }

  /** Once overdue, a task stays overdue as time passes, until it is completed. */
  lemma OverdueStaysOverdue(t: Task, now: int, later: int)
    requires IsOverdue(t, now) && now <= later
    ensures IsOverdue(t, later)
    ensures !IsOverdue(t.(status := Completed), later)
  {
  }

  /** The position of a status along the workflow. */
  function Rank(s: Status): nat
  {
    match s
    case Pending => 0
    case InProgress => 1
    case Completed => 2
  }

  /** The card shows its description block, and with it any advance button, only for a non-empty description. */
  predicate HasDescription(t: Task)
  {
    t.description.Some? && t.description.value != ""
  }

  /**
   * The status the card's button moves the task to, if it shows one: "Start Task"
   * for a pending task, "Mark Complete" for one in progress. Offered moves go one
   * step forward along the workflow.
   */
  function OfferedTransition(t: Task): (r: Option<Status>)
    ensures r.Some? <==> HasDescription(t) && t.status != Completed
    ensures r.Some? ==> Rank(r.value) == Rank(t.status) + 1
  {
    if !HasDescription(t) then None
    else match t.status
      case Pending => Some(InProgress)
      case InProgress => Some(Completed)
      case Completed => None
  }

  /** Following offered transitions a task reaches "completed" in at most two steps and then stops. */
  lemma TransitionsTerminate(t: Task)
    ensures OfferedTransition(t).Some? ==>
              OfferedTransition(t.(status := OfferedTransition(t).value)).Some? ==>
                OfferedTransition(t.(status := OfferedTransition(t.(status := OfferedTransition(t).value)).value)).None?
  {
  }
}

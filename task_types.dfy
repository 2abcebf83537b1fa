/** Option and the outcome of one call to the task API. */
module Wrappers {

  datatype Option<+T> = None | Some(value: T)

  /** What an awaited API call yields: the decoded body, or the message of the error it threw. */
  datatype Result<+T> = Ok(value: T) | Err(message: string)
}

/**
 * The task record, its three statuses and the two request payloads.
 * Dates and timestamps are integers: the instant, in milliseconds since the epoch,
 * that the ISO text denotes. A due date that is null or the empty string is `None`,
 * since every reader of the field only tests whether it is truthy.
 */
module TaskTypes {
  import opened Wrappers

  datatype Status = Pending | InProgress | Completed

  /** The literal string each status has on the wire and in the filter control. */
  function StatusName(s: Status): string
  {
    match s
    case Pending => "pending"
    case InProgress => "in-progress"
    case Completed => "completed"
  }

  /** Reads a status from its wire string; any other string is not a status. */
  function ParseStatus(name: string): (r: Option<Status>)
    ensures r.Some? <==> name == "pending" || name == "in-progress" || name == "completed"
    ensures r.Some? ==> StatusName(r.value) == name
  {
    if name == "pending" then Some(Pending)
    else if name == "in-progress" then Some(InProgress)
    else if name == "completed" then Some(Completed)
    else None
  }

  /** Every status survives the trip to its wire string and back. */
  lemma ParseStatusName(s: Status)
    ensures ParseStatus(StatusName(s)) == Some(s)
  {
  }

  /** The three wire strings are distinct, so a status is determined by its name. */
  lemma StatusNameInjective(s: Status, t: Status)
    ensures StatusName(s) == StatusName(t) <==> s == t
  {
  }

  datatype Task = Task(
    id: int,
    title: string,
    description: Option<string>,
    status: Status,
    dueDate: Option<int>,
    createdAt: int,
    updatedAt: int)

  /** The draft sent to create a task: no id and no timestamps, the server assigns them. */
  datatype CreateTaskDto = CreateTaskDto(
    title: string,
    description: Option<string>,
    status: Status,
    dueDate: Option<string>)

  /** The patch sent to update a task: every field optional, the id travels in the path. */
  datatype UpdateTaskDto = UpdateTaskDto(
    title: Option<string>,
    description: Option<string>,
    status: Option<Status>,
    dueDate: Option<string>)

  /** The collection is keyed by id: no two entries share one. */
  ghost predicate UniqueIds(tasks: seq<Task>)
  {
    forall i, j :: 0 <= i < j < |tasks| ==> tasks[i].id != tasks[j].id
  }

  ghost predicate HasId(tasks: seq<Task>, id: int)
  {
    exists i :: 0 <= i < |tasks| && tasks[i].id == id
  }
}

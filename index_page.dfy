/**
 * The task page's controller: the task list it holds, the view it derives, and
 * the handlers that patch the list once an API call has answered. Each call's
 * answer is passed in as a `Result`.
 */
module IndexPage {
  import opened Wrappers
  import opened TaskTypes
  import opened Reconcile
  import opened TaskView
  import opened TaskForm

  /**
   * The sample tasks shown when loading fails: three tasks with distinct ids, each
   * created no later than it was updated, each with a title the form accepts.
   * Times are milliseconds since the epoch, UTC.
   */
  function MockTasks(): (r: seq<Task>)
    ensures |r| == 3 && UniqueIds(r)
    ensures forall i :: 0 <= i < |r| ==> r[i].createdAt <= r[i].updatedAt && 1 <= |r[i].title| <= 255
  {
    [ Task(1, "Complete project documentation",
           Some("Write comprehensive documentation for the task management system"),
           InProgress, Some(1763596800000), 1762768800000, 1762768800000),
      Task(2, "Review pull requests",
           Some("Review and merge pending pull requests from the team"),
           Pending, Some(1763164800000), 1762698600000, 1762698600000),
      Task(3, "Deploy to production",
           None,
           Completed, Some(1762905600000), 1762592400000, 1762879500000) ]
  }

  /** The fallback has ids 1, 2, 3 and one task per status. */
  lemma MockTasksShape()
    ensures MockTasks()[0].id == 1 && MockTasks()[0].status == InProgress
    ensures MockTasks()[1].id == 2 && MockTasks()[1].status == Pending
    ensures MockTasks()[2].id == 3 && MockTasks()[2].status == Completed
    ensures Stats(MockTasks()) == TaskStats(3, 1, 1, 1)
  {
  }

  /** An id absent from the tasks is absent from every view of them. */
  lemma AbsentIdNotShown(view: seq<Task>, tasks: seq<Task>, id: int, statusFilter: string, sortBy: string,
                         compare: (string, string) -> int)
    requires IsView(view, tasks, statusFilter, sortBy, compare)
    requires !HasId(tasks, id)
    ensures !HasId(view, id)
  {
    forall i | 0 <= i < |view|
      ensures view[i].id != id
    {
      ViewMembers(view, tasks, statusFilter, sortBy, compare, view[i]);
    }
  }

  /** After a removal of `id`, neither the remaining tasks nor any view of them holds the id. */
  lemma RemovedIdNotShown(view: seq<Task>, after: seq<Task>, before: seq<Task>, id: int,
                          statusFilter: string, sortBy: string, compare: (string, string) -> int)
    requires after == RemoveById(before, id)
    requires IsView(view, after, statusFilter, sortBy, compare)
    ensures !HasId(after, id) && !HasId(view, id)
  {
    AbsentIdNotShown(view, after, id, statusFilter, sortBy, compare);
  }

  class TaskList {
    var tasks: seq<Task>
    var filteredTasks: seq<Task>
    var loading: bool
    var isFormOpen: bool
    var editingTask: Option<Task>
    var deletingTaskId: Option<int>
    var statusFilter: string
    var sortBy: string
    /** The locale's string comparison the title sort uses. */
    const localeCompare: (string, string) -> int

    /** The shown list is always the view of the current tasks, filter and sort key. */
    ghost predicate Valid()
      reads this
    {
      && ConsistentComparator(localeCompare)
      && IsView(filteredTasks, tasks, statusFilter, sortBy, localeCompare)
    }

    /** The initial state: no tasks, loading, no dialog open, every status, newest first. */
    constructor (localeCompare: (string, string) -> int)
      requires ConsistentComparator(localeCompare)
      ensures Valid()
      ensures this.localeCompare == localeCompare
      ensures tasks == [] && filteredTasks == [] && loading
      ensures !isFormOpen && editingTask.None? && deletingTaskId.None?
      ensures statusFilter == "all" && sortBy == "created_at"
    {
      this.localeCompare := localeCompare;
      tasks, filteredTasks := [], [];
      loading := true;
      isFormOpen, editingTask, deletingTaskId := false, None, None;
      statusFilter, sortBy := "all", "created_at";
    }

    /** The derived-view effect, run after a change to the tasks, the filter or the sort key. */
    method RefreshView()
      requires ConsistentComparator(localeCompare)
      modifies this`filteredTasks
      ensures Valid()
    {
      filteredTasks := ComputeView(tasks, statusFilter, sortBy, localeCompare);
    }

    /** Loads the list: the fetched tasks on success, the sample tasks on failure; loading ends either way. */
    method LoadTasks(response: Result<seq<Task>>)
      requires Valid()
      modifies this
      ensures Valid() && !loading
      ensures tasks == (match response case Ok(data) => data case Err(_) => MockTasks())
      ensures isFormOpen == old(isFormOpen) && editingTask == old(editingTask)
      ensures deletingTaskId == old(deletingTaskId)
      ensures statusFilter == old(statusFilter) && sortBy == old(sortBy)
    {
      loading := true;
      match response {
        case Ok(data) => tasks := data;
        case Err(_) => tasks := MockTasks();
      }
      loading := false;
      RefreshView();
    }

    /** A created task goes in front of the list and the form closes; a failure changes nothing. */
    method CreateTask(response: Result<Task>)
      requires Valid()
      modifies this
      ensures Valid()
      ensures response.Ok? ==> tasks == [response.value] + old(tasks) && !isFormOpen
      ensures response.Ok? && Matches(statusFilter, response.value) ==> response.value in filteredTasks
      ensures response.Err? ==>
                tasks == old(tasks) && filteredTasks == old(filteredTasks) && isFormOpen == old(isFormOpen)
      ensures loading == old(loading) && editingTask == old(editingTask)
      ensures deletingTaskId == old(deletingTaskId)
      ensures statusFilter == old(statusFilter) && sortBy == old(sortBy)
    {
      if response.Ok? {
        tasks := [response.value] + tasks;
        isFormOpen := false;
        RefreshView();
        ViewMembers(filteredTasks, tasks, statusFilter, sortBy, localeCompare, response.value);
      }
    }

    /**
     * Saves the task being edited: on success every entry with its id becomes the
     * returned task and the form closes; with nothing being edited, or on failure,
     * nothing changes.
     */
    method UpdateTask(response: Result<Task>)
      requires Valid()
      modifies this
      ensures Valid()
      ensures old(editingTask).Some? && response.Ok? ==>
                && tasks == ReplaceById(old(tasks), old(editingTask).value.id, response.value)
                && editingTask.None? && !isFormOpen
      ensures old(editingTask).None? || response.Err? ==>
                && tasks == old(tasks) && filteredTasks == old(filteredTasks)
                && editingTask == old(editingTask) && isFormOpen == old(isFormOpen)
      ensures loading == old(loading) && deletingTaskId == old(deletingTaskId)
      ensures statusFilter == old(statusFilter) && sortBy == old(sortBy)
    {
      if editingTask.None? {
        return;
      }
      if response.Ok? {
        tasks := ReplaceById(tasks, editingTask.value.id, response.value);
        editingTask := None;
        isFormOpen := false;
        RefreshView();
      }
    }

    /** Deletes a task: on success the entries with that id leave the list and the dialog closes. */
    method DeleteTask(id: int, response: Result<()>)
      requires Valid()
      modifies this
      ensures Valid()
      ensures response.Ok? ==>
                && tasks == RemoveById(old(tasks), id)
                && deletingTaskId.None?
                && !HasId(tasks, id) && !HasId(filteredTasks, id)
      ensures response.Err? ==>
                tasks == old(tasks) && filteredTasks == old(filteredTasks) && deletingTaskId == old(deletingTaskId)
      ensures loading == old(loading) && isFormOpen == old(isFormOpen) && editingTask == old(editingTask)
      ensures statusFilter == old(statusFilter) && sortBy == old(sortBy)
    {
      if response.Ok? {
        var before := tasks;
        tasks := RemoveById(before, id);
        deletingTaskId := None;
        RefreshView();
        RemovedIdNotShown(filteredTasks, tasks, before, id, statusFilter, sortBy, localeCompare);
      }
    }

    /**
     * Moves a task to `status` through an update whose patch carries the status
     * alone; on success every entry with the id becomes the returned task.
     */
    method ChangeStatus(id: int, status: Status, response: Result<Task>) returns (patch: UpdateTaskDto)
      requires Valid()
      modifies this
      ensures Valid()
      ensures patch == UpdateTaskDto(None, None, Some(status), None)
      ensures response.Ok? ==> tasks == ReplaceById(old(tasks), id, response.value)
      ensures response.Err? ==> tasks == old(tasks) && filteredTasks == old(filteredTasks)
      ensures loading == old(loading) && isFormOpen == old(isFormOpen) && editingTask == old(editingTask)
      ensures deletingTaskId == old(deletingTaskId)
      ensures statusFilter == old(statusFilter) && sortBy == old(sortBy)
    {
      patch := UpdateTaskDto(None, None, Some(status), None);
      if response.Ok? {
        tasks := ReplaceById(tasks, id, response.value);
        RefreshView();
      }
    }

    /**
     * Submits the form: values the schema refuses go nowhere and change nothing;
     * accepted ones go, as a patch, to the update handler when a task is being
     * edited and, as a draft, to the create handler otherwise. `created` and
     * `updated` are the payloads handed on.
     */
    method SubmitForm(values: FormValues, response: Result<Task>)
      returns (created: Option<CreateTaskDto>, updated: Option<UpdateTaskDto>)
      requires Valid()
      modifies this
      ensures Valid()
      ensures created.None? && updated.None? <==> Validate(values).Rejected?
      ensures Validate(values).Rejected? ==>
                && tasks == old(tasks) && filteredTasks == old(filteredTasks)
                && isFormOpen == old(isFormOpen) && editingTask == old(editingTask)
      ensures Validate(values).Accepted? && old(editingTask).None? ==>
                created == Some(CreateDto(values)) && updated.None?
      ensures Validate(values).Accepted? && old(editingTask).Some? ==>
                updated == Some(UpdateDto(values)) && created.None?
      ensures Validate(values).Accepted? && old(editingTask).None? && response.Ok? ==>
                tasks == [response.value] + old(tasks) && !isFormOpen
      ensures Validate(values).Accepted? && old(editingTask).Some? && response.Ok? ==>
                && tasks == ReplaceById(old(tasks), old(editingTask).value.id, response.value)
                && editingTask.None? && !isFormOpen
      ensures response.Err? ==>
                && tasks == old(tasks) && filteredTasks == old(filteredTasks)
                && isFormOpen == old(isFormOpen) && editingTask == old(editingTask)
      ensures old(editingTask).None? ==> editingTask == old(editingTask)
      ensures loading == old(loading) && deletingTaskId == old(deletingTaskId)
      ensures statusFilter == old(statusFilter) && sortBy == old(sortBy)
    {
      created, updated := None, None;
      if Validate(values).Rejected? {
        return;
      }
      if editingTask.Some? {
        updated := Some(UpdateDto(values));
        UpdateTask(response);
      } else {
        created := Some(CreateDto(values));
        CreateTask(response);
      }
    }

    /** "New Task": the form opens empty. */
    method OpenCreateForm()
      requires Valid()
      modifies this`editingTask, this`isFormOpen
      ensures Valid() && editingTask.None? && isFormOpen
    {
      editingTask := None;
      isFormOpen := true;
    }

    /** A card's edit button: the form opens on that task. */
    method OpenEditForm(t: Task)
      requires Valid()
      modifies this`editingTask, this`isFormOpen
      ensures Valid() && editingTask == Some(t) && isFormOpen
    {
      editingTask := Some(t);
      isFormOpen := true;
    }

    /** The form's cancel button: the form closes and forgets the task being edited. */
    method CancelForm()
      requires Valid()
      modifies this`editingTask, this`isFormOpen
      ensures Valid() && editingTask.None? && !isFormOpen
    {
      isFormOpen := false;
      editingTask := None;
    }

    /** The dialog opening or closing by itself; the task being edited is kept. */
    method SetFormOpen(open: bool)
      requires Valid()
      modifies this`isFormOpen
      ensures Valid() && isFormOpen == open
    {
      isFormOpen := open;
    }

    /** A card's delete button asks for confirmation of that id. */
    method RequestDelete(id: int)
      requires Valid()
      modifies this`deletingTaskId
      ensures Valid() && deletingTaskId == Some(id)
    {
      deletingTaskId := Some(id);
    }

    /** The confirmation dialog closing. */
    method DismissDelete()
      requires Valid()
      modifies this`deletingTaskId
      ensures Valid() && deletingTaskId.None?
    {
      deletingTaskId := None;
    }

    /** Choosing a status filter; the view follows. */
    method SetStatusFilter(filter: string)
      requires Valid()
      modifies this`statusFilter, this`filteredTasks
      ensures Valid() && statusFilter == filter
    {
      statusFilter := filter;
      RefreshView();
    }

    /** Choosing a sort key; the view follows. */
    method SetSortBy(key: string)
      requires Valid()
      modifies this`sortBy, this`filteredTasks
      ensures Valid() && sortBy == key
    {
      sortBy := key;
      RefreshView();
    }
  }
}

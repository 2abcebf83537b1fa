# Task list controller of the taskmaster web app, modelled in Dafny

The app is a browser UI over a REST task collection: it lists tasks, filters them
by status, sorts them, and creates, edits, advances and deletes them. This project
models the part of it that holds logic:

- the page controller (`src/pages/Index.tsx`). It is the class
  `IndexPage.TaskList`, with fields for the task list, the shown list, the loading
  flag, the form and delete dialogs and the filter and sort choices. It has one
  method per handler. Each method takes the answer of its API call as a `Result`
  argument (`Ok(value)` or `Err(message)`).
- the derived view (`TaskView`). The effect copies the tasks, filters them by
  status and sorts the copy in place. This is `TaskView.ComputeView`. It sorts an
  array with `Sorting.InsertionSort` and is proved to return a sorted permutation
  of the filtered tasks.
- the `filter` and `map` patches applied after a successful call (`Collections`,
  `Reconcile`), and the header counters (`TaskView.Stats`).
- the form schema and its starting values (`TaskForm`).
- the card's label table, overdue mark and status-advance button (`TaskCard`).
- the record types (`TaskTypes`): `Status` is a datatype with exactly three
  values. `Task` always carries an id, title, status and both timestamps, while
  its description and due date are `Option`s. `CreateTaskDto` carries no id and no
  timestamps. Every field of `UpdateTaskDto` is an `Option`.

Dates and timestamps are integers: the instant, in milliseconds since the epoch,
that `new Date(text)` denotes. A due date that is `null` or the empty string is
`None`. Every place in the core that reads the field only tests whether it is
truthy, so those two cases behave the same. "Now" is a parameter of the overdue
test. The locale's title comparison is a parameter of type
`(string, string) -> int`, and the model assumes only that it is
sign-consistent and transitive (`TaskView.ConsistentComparator`).

The class invariant `Valid()` says that the shown list `filteredTasks` is always a
view of `tasks` under the current filter and sort key. That view contains each
task that passes the filter exactly as often as it occurs in `tasks`, contains no
other task, and is ordered by the key. Every handler that changes the tasks, the
filter or the sort key re-runs the view computation, as the effect does.

Two behaviours of the code shape the model:
- Update and status change replace every entry with the id, through `map`, not
  just one.
- Nothing on the client enforces unique ids or non-empty titles for tasks the
  server returns. The model therefore does not assume them. It proves instead that
  each patch keeps ids unique when they were unique before (`PrependKeepsUnique`,
  `ReplaceKeepsUnique`, `RemoveKeepsUnique`).

## Model

| member | source | states |
|---|---|---|
| `TaskTypes.ParseStatus` | src/types/task.ts:1 | a string is a status iff it is "pending", "in-progress" or "completed", and the parsed status has that name |
| `TaskTypes.ParseStatusName` | src/types/task.ts:1 | every status survives the trip to its wire name and back |
| `TaskTypes.StatusNameInjective` | src/types/task.ts:1 | two statuses have the same wire name iff they are equal |
| `Collections.Filter` | src/pages/Index.tsx:50 | `filter` keeps only elements that satisfy the test, never adds one, and never lengthens the sequence |
| `Collections.FilterCount` | src/pages/Index.tsx:50 | every satisfying element survives as often as it occurs, and every other element is dropped |
| `Collections.FilterConcat` | src/pages/Index.tsx:138 | filtering distributes over concatenation, so the survivors keep their relative order |
| `Collections.FilterKeepsAll` | src/pages/Index.tsx:138 | a filter that rejects nothing returns its input unchanged |
| `Reconcile.ReplaceById` | src/pages/Index.tsx:118 | the length is kept, each entry with the id becomes the returned task, and every other entry stays unchanged at its position |
| `Reconcile.RemoveById` | src/pages/Index.tsx:138 | no remaining entry has the id, every remaining entry comes from the input, and every entry with another id is kept with its multiplicity |
| `Reconcile.ReplaceAbsentId` | src/pages/Index.tsx:157 | replacing an id that no task has changes nothing |
| `Reconcile.RemoveAbsentId` | src/pages/Index.tsx:138 | deleting an id that no task has changes nothing |
| `Reconcile.RemoveConcat` | src/pages/Index.tsx:138 | removal distributes over concatenation, so the kept entries stay in order |
| `Reconcile.RemoveLength` | src/pages/Index.tsx:138 | after removal the id is absent, and the length drops by exactly the number of entries that had it |
| `Reconcile.PrependKeepsUnique` | src/pages/Index.tsx:97 | putting a task with a fresh id in front keeps ids unique |
| `Reconcile.ReplaceKeepsUnique` | src/pages/Index.tsx:118 | replacing by a task with the same id keeps ids unique |
| `Reconcile.RemoveKeepsUnique` | src/pages/Index.tsx:138 | removal keeps ids unique |
| `Reconcile.FirstIdNotInRemoved` | src/pages/Index.tsx:138 | a proof step of `RemoveKeepsUnique`: with unique ids, the first entry's id does not occur among the survivors of the rest |
| `Sorting.InsertionSort` | src/pages/Index.tsx:54 | sorting the copy in place yields an arrangement sorted by the given total preorder that is a permutation of the input |
| `TaskView.Matches` | src/pages/Index.tsx:49-51 | a task passes the filter iff the filter is "all" or parses to the task's status; any other filter string passes nothing |
| `TaskView.Compare` | src/pages/Index.tsx:54-66 | by creation time the newer task sorts first and equal times compare equal; by due date an undated first argument sorts last, a dated one sorts before an undated one, and two dated tasks compare by date; by title the locale comparison decides |
| `TaskView.SortKeyOf` | src/pages/Index.tsx:55-64 | "due_date" and "title" select their orders, and any other key falls to the creation-time default |
| `TaskView.CompareAgreesWithOrder` | src/pages/Index.tsx:54-66 | the comparator is negative-or-zero exactly when the view order allows `a` before `b`, except for two undated tasks under "due_date", where it answers 1 both ways and either order is sorted |
| `TaskView.InOrderIsTotalPreorder` | src/pages/Index.tsx:54-66 | each sort key's order is total and transitive, given a consistent title comparison |
| `TaskView.ComputeView` | src/pages/Index.tsx:45-68 | the view holds each task that passes the status filter as often as it occurs in the tasks, and no other task, sorted by the key |
| `TaskView.ViewMembers` | src/pages/Index.tsx:49-51 | a task is shown iff it is among the tasks and the filter is "all" or names its status |
| `TaskView.ViewOfAllIsPermutation` | src/pages/Index.tsx:46 | under "all" the view is a permutation of the tasks, so sorting adds or drops nothing |
| `TaskView.ViewOrder` | src/pages/Index.tsx:56-64 | by creation time (or an unknown key) timestamps do not increase; by title, titles do not decrease under the locale comparison; by due date every dated task precedes every undated one and dated tasks do not decrease |
| `TaskView.CountStatus` | src/pages/Index.tsx:174-176 | a status count is at most the number of tasks, and is zero iff no task has that status |
| `TaskView.CountsAddUp` | src/pages/Index.tsx:172-177 | every task has one of the three statuses, so the three status counts add up to the number of tasks |
| `TaskView.Stats` | src/pages/Index.tsx:172-177 | the total is the number of tasks, and the pending, in-progress and completed counters add up to it |
| `TaskView.CountIsViewLength` | src/pages/Index.tsx:174-176 | a status counter equals the length of the view filtered to that status |
| `IndexPage.MockTasks` | src/pages/Index.tsx:317-345 | the fallback holds three tasks with unique ids, each created no later than updated, each with a title the form accepts |
| `IndexPage.MockTasksShape` | src/pages/Index.tsx:317-345 | the fallback tasks have ids 1, 2, 3 and statuses in-progress, pending and completed, so the counters read 3/1/1/1 |
| `IndexPage.RemovedIdNotShown` | src/pages/Index.tsx:138 | after a removal of an id, neither the remaining tasks nor any view of them holds it |
| `IndexPage.AbsentIdNotShown` | src/pages/Index.tsx:138 | an id absent from the tasks is absent from every view of them |
| `IndexPage.TaskList.constructor` | src/pages/Index.tsx:29-36 | the page starts with no tasks, loading, both dialogs closed, filter "all" and sort "created_at" |
| `IndexPage.TaskList.RefreshView` | src/pages/Index.tsx:44-69 | after the effect the shown list is a view of the current tasks, filter and sort key |
| `IndexPage.TaskList.LoadTasks` | src/pages/Index.tsx:71-92 | on success the tasks become the fetched list, and on failure exactly the three sample tasks; loading is false afterwards and the dialogs and choices are unchanged |
| `IndexPage.TaskList.CreateTask` | src/pages/Index.tsx:94-111 | on success the new task is first and the old list follows unchanged, the form closes, and the task is shown if it passes the filter; on failure the tasks, view and form are unchanged |
| `IndexPage.TaskList.UpdateTask` | src/pages/Index.tsx:113-133 | with a task being edited and success, every entry with its id becomes the returned task and the form closes and forgets it; with nothing being edited, or on failure, nothing changes |
| `IndexPage.TaskList.DeleteTask` | src/pages/Index.tsx:135-152 | on success exactly the entries with the id leave the tasks and the view, and the dialog's id is cleared; on failure nothing changes |
| `IndexPage.TaskList.ChangeStatus` | src/pages/Index.tsx:154-170 | the patch carries the status alone; on success every entry with the id becomes the returned task; on failure nothing changes |
| `IndexPage.TaskList.SubmitForm` | src/pages/Index.tsx:281-288 | a payload goes out iff the schema accepts the values, and a refusal changes nothing; accepted values go as the patch `UpdateDto(values)` to the update handler when a task is being edited, and otherwise as the draft `CreateDto(values)` to the create handler; a failed call leaves the tasks, the view and the form as they were |
| `IndexPage.TaskList.OpenCreateForm` | src/pages/Index.tsx:191 | "New Task" opens the form with no task being edited |
| `IndexPage.TaskList.OpenEditForm` | src/pages/Index.tsx:258-261 | a card's edit button opens the form on that task |
| `IndexPage.TaskList.CancelForm` | src/pages/Index.tsx:284-287 | cancel closes the form and forgets the task being edited |
| `IndexPage.TaskList.SetFormOpen` | src/pages/Index.tsx:271 | the dialog opening or closing by itself changes only the open flag |
| `IndexPage.TaskList.RequestDelete` | src/pages/Index.tsx:262 | a card's delete button records the id awaiting confirmation |
| `IndexPage.TaskList.DismissDelete` | src/pages/Index.tsx:293 | closing the confirmation dialog clears that id |
| `IndexPage.TaskList.SetStatusFilter` | src/pages/Index.tsx:226 | a new filter takes effect and the shown list follows it |
| `IndexPage.TaskList.SetSortBy` | src/pages/Index.tsx:227 | a new sort key takes effect and the shown list follows it |
| `TaskForm.ErrorMessage` | src/components/TaskForm.tsx:26-28 | the title rules carry their own non-empty messages and the status rule carries none of its own |
| `TaskForm.Validate` | src/components/TaskForm.tsx:25-30 | accepted iff the title has 1 to 255 characters and the status is one of the three names; accepted values are the input with the status parsed; a rejection lists exactly the failing rules |
| `TaskForm.OptionalFieldsUnbounded` | src/components/TaskForm.tsx:27-29 | description and due date never affect acceptance: they are optional and have no bound |
| `TaskForm.DefaultValues` | src/components/TaskForm.tsx:44-49 | description and due date always start as strings, never undefined |
| `TaskForm.NewFormNeedsTitle` | src/components/TaskForm.tsx:44-49 | a new form starts empty with status "pending", and the schema refuses it for its title alone |
| `TaskForm.EditFormRoundTrip` | src/components/TaskForm.tsx:44-49 | an edit form for a task whose title is in bounds is accepted as it starts, with the task's title and status, its description or "" for a null one, and its due date formatted or "" when it has none |
| `TaskForm.CreateDto` | src/components/TaskForm.tsx:54 | the draft built from accepted values has a title of 1 to 255 characters, the status the form named, and the form's description and due date |
| `TaskForm.UpdateDto` | src/components/TaskForm.tsx:54 | the patch built from accepted values carries every field: a title of 1 to 255 characters, the status the form named, and the form's description and due date |
| `TaskCard.StatusLabel` | src/components/TaskCard.tsx:15-31 | every status has a non-empty, capitalised badge label |
| `TaskCard.LabelsDistinct` | src/components/TaskCard.tsx:15-31 | every status has its own label: Pending, In Progress, Completed |
| `TaskCard.IsOverdue` | src/components/TaskCard.tsx:36 | an overdue task has a due date and is not completed, so a card that shows its description offers a step forward |
| `TaskCard.OverdueStaysOverdue` | src/components/TaskCard.tsx:36 | overdue means a due date before now and not completed, so an overdue task stays overdue as time passes until it is completed |
| `TaskCard.OfferedTransition` | src/components/TaskCard.tsx:80-103 | a transition is offered iff the description is non-empty and the task is not completed, and an offered transition moves exactly one step forward |
| `TaskCard.TransitionsTerminate` | src/components/TaskCard.tsx:83-103 | following offered transitions stops after at most two steps |

## Left out

- `src/services/api.ts` is not part of this model. It builds URLs from an environment-supplied base, calls `fetch`, decodes JSON and turns error bodies into messages. Each call's outcome is instead an `Ok`/`Err` argument of the handler that awaits it, and the unused `getTask` is not modelled.
- Toasts, `console.error`, JSX, icons, badge variants and `src/components/TaskFilters.tsx` are presentation and are not modelled. The filter and sort values stay the strings the controls produce.
- Date parsing and formatting (`new Date`, `getTime`, the date-fns `format` calls) and time zones are not modelled. Dates are integers, a text that does not parse (`NaN`) is not represented, and the form's yyyy-MM-dd formatting is the parameter `formatDay`.
- `localeCompare` is an abstract parameter. Locale collation itself is not modelled.
- `InsertionSort`: the engine's `Array.prototype.sort` algorithm and its stability are not reproduced. The view is specified as any sorted permutation, and insertion sort is one such. For two undated tasks under "due_date" the source comparator returns 1 both ways, so their order in the real engine is unspecified.
- `LoadTasks`: the `loading = true` state visible while the request is in flight is set and cleared inside one method. Overlapping requests and their async interleaving are not modelled.
- The delete confirmation's `deletingTaskId && handleDeleteTask(...)` wiring is not modelled. In the source it skips an id of 0.
- `Validate`: titles are measured in Unicode scalar values. JavaScript measures UTF-16 code units, so a title with characters outside the Basic Multilingual Plane counts differently. The schema library's default message for a bad status is not modelled.

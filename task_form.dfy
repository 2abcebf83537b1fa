/**
 * The create/edit form: the schema its values must pass before they reach the
 * submit handler, and the values it starts from.
 */
module TaskForm {
  import opened Wrappers
  import opened TaskTypes

  /** The values as the form holds them; an optional field may be undefined (`None`). */
  datatype FormValues = FormValues(
    title: string,
    description: Option<string>,
    status: string,
    dueDate: Option<string>)

  /** The values once the schema has accepted them: the status is one of the three. */
  datatype ValidValues = ValidValues(
    title: string,
    description: Option<string>,
    status: Status,
    dueDate: Option<string>)

  /** A field-level complaint, shown beside its field. */
  datatype FieldError = TitleRequired | TitleTooLong | InvalidStatus

  datatype Validation = Accepted(values: ValidValues) | Rejected(errors: seq<FieldError>)

  const MinTitleLength: nat := 1
  const MaxTitleLength: nat := 255

  /** The messages the schema gives for the title; the status keeps the schema library's default. */
  function ErrorMessage(e: FieldError): (m: Option<string>)
    ensures m.Some? <==> e != InvalidStatus
    ensures m.Some? ==> |m.value| > 0
  {
    match e
    case TitleRequired => Some("Title is required")
    case TitleTooLong => Some("Title is too long")
    case InvalidStatus => None
  }

  /** The title rule: a minimum and a maximum length check; at most one of them fails. */
  function TitleErrors(title: string): seq<FieldError>
  {
    (if |title| < MinTitleLength then [TitleRequired] else [])
    + (if |title| > MaxTitleLength then [TitleTooLong] else [])
  }

  function StatusErrors(status: string): seq<FieldError>
  {
    if ParseStatus(status).Some? then [] else [InvalidStatus]
  }

  /**
   * Runs the schema. Description and due date are optional strings with no bound,
   * so only the title and the status can be rejected; every failing field is reported.
   */
  function Validate(v: FormValues): (r: Validation)
    ensures r.Accepted? <==>
              1 <= |v.title| <= 255
              && (v.status == "pending" || v.status == "in-progress" || v.status == "completed")
    ensures r.Accepted? ==>
              && r.values.title == v.title
              && r.values.description == v.description
              && StatusName(r.values.status) == v.status
              && r.values.dueDate == v.dueDate
    ensures r.Rejected? ==>
              && (TitleRequired in r.errors <==> v.title == [])
              && (TitleTooLong in r.errors <==> |v.title| > 255)
              && (InvalidStatus in r.errors <==> ParseStatus(v.status).None?)
  {
    var errors := TitleErrors(v.title) + StatusErrors(v.status);
    if errors == [] then
      Accepted(ValidValues(v.title, v.description, ParseStatus(v.status).value, v.dueDate))
    else
      Rejected(errors)
  }

  /** Whether the schema accepts does not depend on the description or the due date. */
  lemma OptionalFieldsUnbounded(v: FormValues, description: Option<string>, dueDate: Option<string>)
    ensures Validate(v.(description := description, dueDate := dueDate)).Accepted?
            == Validate(v).Accepted?
  {
  }

  /**
   * The form's starting values: empty title and description, status "pending" and
   * no due date for a new task; the task's own fields when editing, with a null
   * description and an absent due date shown as the empty string. `formatDay`
   * renders a due date as yyyy-MM-dd.
   */
  function DefaultValues(task: Option<Task>, formatDay: int -> string): (v: FormValues)
    ensures v.description.Some? && v.dueDate.Some?
  {
    match task
    case None => FormValues("", Some(""), "pending", Some(""))
    case Some(t) =>
      FormValues(
        t.title,
        Some(match t.description case Some(d) => d case None => ""),
        StatusName(t.status),
        Some(match t.dueDate case Some(day) => formatDay(day) case None => ""))
  }

  /**
   * A new form starts with an empty title and description, status "pending" and no
   * due date, so it cannot be submitted as it stands: its empty title is refused,
   * and only that.
   */
  lemma NewFormNeedsTitle(formatDay: int -> string)
    ensures DefaultValues(None, formatDay) == FormValues("", Some(""), "pending", Some(""))
    ensures Validate(DefaultValues(None, formatDay)) == Rejected([TitleRequired])
  {
  }

  /**
   * Editing a task whose title is within bounds starts from values the schema
   * accepts. They carry the task's title, status and description back unchanged,
   * a null description as the empty string, and the due date as its yyyy-MM-dd
   * rendering, or the empty string when there is none.
   */
  lemma EditFormRoundTrip(t: Task, formatDay: int -> string)
    requires 1 <= |t.title| <= 255
    ensures Validate(DefaultValues(Some(t), formatDay)).Accepted?
    ensures Validate(DefaultValues(Some(t), formatDay)).values.title == t.title
    ensures Validate(DefaultValues(Some(t), formatDay)).values.status == t.status
    ensures t.description.Some? ==>
              Validate(DefaultValues(Some(t), formatDay)).values.description == t.description
    ensures t.description.None? ==>
              Validate(DefaultValues(Some(t), formatDay)).values.description == Some("")
    ensures t.dueDate.Some? ==>
              Validate(DefaultValues(Some(t), formatDay)).values.dueDate == Some(formatDay(t.dueDate.value))
    ensures t.dueDate.None? ==>
              Validate(DefaultValues(Some(t), formatDay)).values.dueDate == Some("")
  {
  }

  /**
   * The draft a create sends: the values the schema accepted, with no id and no
   * timestamps. Its title is within bounds and its status is the one the form named.
   */
  function CreateDto(v: FormValues): (d: CreateTaskDto)
    requires Validate(v).Accepted?
    ensures 1 <= |d.title| <= 255 && d.title == v.title
    ensures StatusName(d.status) == v.status
    ensures d.description == v.description && d.dueDate == v.dueDate
  {
    var a := Validate(v).values;
    CreateTaskDto(a.title, a.description, a.status, a.dueDate)
  }

  /**
   * The patch an edit sends: every accepted field, none of them left out, so the
   * title is present and within bounds and the status is the one the form named.
   */
  function UpdateDto(v: FormValues): (d: UpdateTaskDto)
    requires Validate(v).Accepted?
    ensures d.title.Some? && 1 <= |d.title.value| <= 255 && d.title.value == v.title
    ensures d.status.Some? && StatusName(d.status.value) == v.status
    ensures d.description == v.description && d.dueDate == v.dueDate
  {
    var a := Validate(v).values;
    UpdateTaskDto(Some(a.title), a.description, Some(a.status), a.dueDate)
  }
}

/** The task record of src/tracker.py and the changes the tracker makes to one record. */
module Tasks {
  import opened Wrappers
  import opened Text
  import opened Calendar
  import opened Parser

  datatype Status = Pending | Completed | Archived

  /** A UTC timestamp as its calendar day and the time of day within it (the source stores
      `datetime.utcnow().isoformat() + "Z"`; only its date is ever read back). */
  datatype Instant = Instant(day: Date, time: nat)

  /** One stored task. `due` is the day its ISO string names. */
  datatype Task = Task(
    id: string,
    title: string,
    status: Status,
    priority: Priority,
    due: Option<Date>,
    tags: seq<string>,
    notes: Option<string>,
    createdAt: Instant,
    completedAt: Option<Instant>)

  /** The token `complete_task` and `delete_task` accept: the exact id, or a substring of the
      title, both compared after lower-casing title and token. */
  predicate Matches(t: Task, token: string) {
    t.id == token || Contains(Lower(t.title), Lower(token))
  }

  /** The record `complete_task` writes back: status completed, stamped `now`. */
  function Complete(t: Task, now: Instant): (r: Task)
    ensures r.status == Completed && r.completedAt == Some(now)
    ensures r.(status := t.status, completedAt := t.completedAt) == t
  {
    t.(status := Completed, completedAt := Some(now))
  }

  /** The record `delete_task(..., archive=True)` writes back: only the status changes. */
  function Archive(t: Task): (r: Task)
    ensures r.status == Archived && r.(status := t.status) == t
  {
    t.(status := Archived)
  }

  /** The optional arguments of `update_task`: `None` leaves a field alone. */
  datatype Patch = Patch(
    title: Option<string>,
    due: Option<string>,
    priority: Option<Priority>,
    tags: Option<seq<string>>,
    notes: Option<string>)

  /** The due date a patch asks for: the empty string clears it, any other text is parsed, and
      text no rule recognises is an error (`parse_due_date` returns None and the source then
      fails on `None.isoformat()` before anything is saved). */
  function PatchedDue(current: Option<Date>, due: Option<string>, today: Date): (r: Result<Option<Date>>)
    ensures due.None? ==> r == Ok(current)
    ensures due == Some("") ==> r == Ok(None)
    ensures due.Some? && due.value != "" ==>
      && (r.Failure? <==> ParseDueDate(due.value, today).None?)
      && (r.Ok? ==> r.value == ParseDueDate(due.value, today))
  {
    match due
    case None => Ok(current)
    case Some(text) =>
      if text == "" then Ok(None)
      else
        match ParseDueDate(text, today)
        case Some(d) => Ok(Some(d))
        case None => Failure
  }

  /** The record `update_task` writes back, or `Failure` when the new due text is unparseable. */
  function ApplyPatch(t: Task, p: Patch, today: Date): (r: Result<Task>)
    ensures r.Ok? <==> PatchedDue(t.due, p.due, today).Ok?
    ensures r.Ok? ==>
      r.value.id == t.id && r.value.status == t.status
      && r.value.createdAt == t.createdAt && r.value.completedAt == t.completedAt
  {
    match PatchedDue(t.due, p.due, today)
    case Failure => Failure
    case Ok(due) =>
      Ok(t.(title := p.title.GetOr(t.title),
            due := due,
            priority := p.priority.GetOr(t.priority),
            tags := p.tags.GetOr(t.tags),
            notes := if p.notes.Some? then p.notes else t.notes))
  }

  /** The record `add_task` creates. An absent or empty `due` means no due date; a due text no
      rule recognises also gives none. Without a priority the one inferred from title, due
      date and tags is stored. */
  function NewTask(id: string, title: string, due: Option<string>, priority: Option<Priority>,
                   tags: seq<string>, notes: Option<string>, today: Date, now: Instant): (t: Task)
    ensures t.id == id && t.title == title && t.status == Pending && t.tags == tags
      && t.notes == notes && t.createdAt == now && t.completedAt.None?
  {
    var dueDate := if due.Some? && due.value != "" then ParseDueDate(due.value, today) else None;
    Task(id, title, Pending, priority.GetOr(InferPriority(title, dueDate, tags, today)),
         dueDate, tags, notes, now, None)
  }
}

/** What each tracker operation does to the task list (src/tracker.py), as a function from the
    list before the call to the list after it, the value the call returns, and whether it
    saves the list. The methods of `TaskStore` are proved to follow these transitions, and the
    lemmas here state what the transitions promise. */
module Store {
  import opened Wrappers
  import opened Text
  import opened Calendar
  import opened Parser
  import opened Tasks
  import opened Queries
  import opened Ordering

  /** The result of one call: the task list afterwards, the returned value, and whether the
      call wrote the list back (`_save_tasks`). */
  datatype Outcome<R> = Outcome(tasks: seq<Task>, result: R, saved: bool)

  /** `add_task`: the new record goes at the end of the list, which is saved. */
  function AddStep(ts: seq<Task>, id: string, title: string, due: Option<string>,
                   priority: Option<Priority>, tags: seq<string>, notes: Option<string>,
                   today: Date, now: Instant): Outcome<Task> {
    var t := NewTask(id, title, due, priority, tags, notes, today, now);
    Outcome(ts + [t], t, true)
  }

  /** `get_task(task_id)`: the first task with that id. */
  function GetIn(ts: seq<Task>, id: string): Option<Task> {
    match IndexOfId(ts, id)
    case None => None
    case Some(i) => Some(ts[i])
  }

  /** `complete_task(token)`: the first task the token designates is completed and saved,
      unless it already is, in which case it is returned as it stands and nothing is saved. */
  function CompleteStep(ts: seq<Task>, token: string, now: Instant): Outcome<Option<Task>> {
    match FirstMatch(ts, token)
    case None => Outcome(ts, None, false)
    case Some(i) =>
      if ts[i].status == Completed then Outcome(ts, Some(ts[i]), false)
      else
        var t := Complete(ts[i], now);
        Outcome(ts[i := t], Some(t), true)
  }

  /** `delete_task(token, archive)`: the first task the token designates is archived in place
      or removed from the list; either way the list is saved. */
  function DeleteStep(ts: seq<Task>, token: string, archive: bool): Outcome<Option<Task>> {
    match FirstMatch(ts, token)
    case None => Outcome(ts, None, false)
    case Some(i) =>
      if archive then
        var t := Archive(ts[i]);
        Outcome(ts[i := t], Some(t), true)
      else Outcome(ts[..i] + ts[i + 1..], Some(ts[i]), true)
  }

  /** What `update_task` returns: nothing found, the updated task, or the failure that a due
      text no rule recognises causes. */
  datatype UpdateResult = NotFound | InvalidDue | Updated(task: Task)

  /** `update_task(task_id, ...)`: the first task with that id is patched and saved. */
  function UpdateStep(ts: seq<Task>, id: string, p: Patch, today: Date): Outcome<UpdateResult> {
    match IndexOfId(ts, id)
    case None => Outcome(ts, NotFound, false)
    case Some(i) =>
      match ApplyPatch(ts[i], p, today)
      case Failure => Outcome(ts, InvalidDue, false)
      case Ok(t) => Outcome(ts[i := t], Updated(t), true)
  }

  /** `list_tasks(...)`: the listed tasks stably sorted by priority, then due date. */
  function ListIn(ts: seq<Task>, f: ListFilter, today: Date): seq<Task> {
    SortBy(Keep(ts, ListedBy(f, today)), ListOrder)
  }

  /** `search_tasks(query)`: the found tasks in store order. */
  function SearchIn(ts: seq<Task>, query: string): seq<Task> {
    Keep(ts, FoundBy(query))
  }

  const NoChange := Patch(None, None, None, None, None)

  // ---------------------------------------------------------------------------------------
  // add_task and get_task
  // ---------------------------------------------------------------------------------------

  /** The added task is stored last, pending, with the due date its text names and, without
      an explicit priority, the inferred one. */
  lemma AddedTask(ts: seq<Task>, id: string, title: string, due: Option<string>,
                  priority: Option<Priority>, tags: seq<string>, notes: Option<string>,
                  today: Date, now: Instant)
    ensures var o := AddStep(ts, id, title, due, priority, tags, notes, today, now);
      && o.saved && o.tasks == ts + [o.result]
      && o.result.id == id && o.result.title == title && o.result.status == Pending
      && o.result.tags == tags && o.result.notes == notes && o.result.completedAt.None?
      && o.result.due == (if due.Some? && due.value != "" then ParseDueDate(due.value, today) else None)
      && (priority.Some? ==> o.result.priority == priority.value)
      && (priority.None? ==> o.result.priority == InferPriority(title, o.result.due, tags, today))
  {
  }

  /** A task added under a fresh id is what `get_task` then returns for that id. */
  lemma {:induction false} AddThenGet(ts: seq<Task>, id: string, title: string, due: Option<string>,
                                      priority: Option<Priority>, tags: seq<string>,
                                      notes: Option<string>, today: Date, now: Instant)
    requires id !in Ids(ts)
    ensures var o := AddStep(ts, id, title, due, priority, tags, notes, today, now);
      GetIn(o.tasks, id) == Some(o.result)
  {
    var o := AddStep(ts, id, title, due, priority, tags, notes, today, now);
    forall j | 0 <= j < |ts|
      ensures o.tasks[j].id != id
    {
      assert Ids(ts)[j] == ts[j].id;
    }
    assert o.tasks[|ts|].id == id;
    assert IndexOfId(o.tasks, id) == Some(|ts|);
  }

  /** Adding under a fresh id keeps the ids unique. */
  lemma AddKeepsIdsUnique(ts: seq<Task>, id: string, title: string, due: Option<string>,
                          priority: Option<Priority>, tags: seq<string>, notes: Option<string>,
                          today: Date, now: Instant)
    requires UniqueIds(ts) && id !in Ids(ts)
    ensures UniqueIds(AddStep(ts, id, title, due, priority, tags, notes, today, now).tasks)
  {
    var o := AddStep(ts, id, title, due, priority, tags, notes, today, now);
    forall i, j | 0 <= i < j < |o.tasks|
      ensures o.tasks[i].id != o.tasks[j].id
    {
      if j == |ts| {
        assert Ids(ts)[i] == ts[i].id;
      }
    }
  }

  /** A new task is among the pending tasks `list_tasks()` shows. */
  lemma {:induction false} AddedIsListed(ts: seq<Task>, id: string, title: string, due: Option<string>,
                                         priority: Option<Priority>, tags: seq<string>,
                                         notes: Option<string>, today: Date, now: Instant)
    ensures var o := AddStep(ts, id, title, due, priority, tags, notes, today, now);
      o.result in ListIn(o.tasks, DefaultFilter, today)
  {
    var o := AddStep(ts, id, title, due, priority, tags, notes, today, now);
    assert Holds(o.result, ListedBy(DefaultFilter, today));
    assert o.result in o.tasks;
    SortBySameMembers(Keep(o.tasks, ListedBy(DefaultFilter, today)), ListOrder);
  }

  /** `get_task` returns a task with the id asked for, and finds one whenever there is one. */
  lemma GetFindsId(ts: seq<Task>, id: string)
    ensures GetIn(ts, id).Some? ==> GetIn(ts, id).value in ts && GetIn(ts, id).value.id == id
    ensures GetIn(ts, id).None? <==> id !in Ids(ts)
  {
    if GetIn(ts, id).None? {
      forall j | 0 <= j < |ts|
        ensures Ids(ts)[j] != id
      {
      }
    }
  }

  // ---------------------------------------------------------------------------------------
  // complete_task
  // ---------------------------------------------------------------------------------------

  /** A designated task is found, comes back completed and is the one now stored at its
      index; when no task is designated nothing changes or is saved. */
  lemma CompleteResult(ts: seq<Task>, token: string, now: Instant)
    ensures var o := CompleteStep(ts, token, now);
      && (o.result.None? <==> forall j :: 0 <= j < |ts| ==> !Matches(ts[j], token))
      && (o.result.None? ==> o.tasks == ts && !o.saved)
      && (o.result.Some? ==>
            var i := FirstMatch(ts, token).value;
            o.result.value == o.tasks[i] && o.result.value.status == Completed
            && o.result.value.id == ts[i].id)
  {
  }

  /** Completing changes at most the designated task, and only its status and stamp; it saves
      exactly when that task was not yet completed, and a task already completed comes back as
      stored, with the list untouched. */
  lemma CompleteTouchesOnlyMatch(ts: seq<Task>, token: string, now: Instant)
    ensures var o := CompleteStep(ts, token, now);
      && |o.tasks| == |ts|
      && (forall j :: 0 <= j < |ts| && Some(j) != FirstMatch(ts, token) ==> o.tasks[j] == ts[j])
      && (o.saved <==> FirstMatch(ts, token).Some? && ts[FirstMatch(ts, token).value].status != Completed)
      && (o.saved ==> o.tasks[FirstMatch(ts, token).value] == Complete(ts[FirstMatch(ts, token).value], now))
      && (FirstMatch(ts, token).Some? && ts[FirstMatch(ts, token).value].status == Completed ==>
            o == Outcome(ts, Some(ts[FirstMatch(ts, token).value]), false))
  {
  }

  /** Completion neither reorders nor renames tasks, and keeps titles, so the same token still
      designates the same index afterwards. */
  lemma CompleteKeepsIdsAndMatch(ts: seq<Task>, token: string, now: Instant, other: string)
    ensures var o := CompleteStep(ts, token, now);
      Ids(o.tasks) == Ids(ts) && FirstMatch(o.tasks, other) == FirstMatch(ts, other)
  {
    var o := CompleteStep(ts, token, now);
    MatchesPreserved(ts, o.tasks, other);
  }

  /** Two lists of the same length whose tasks have the same ids and titles are searched the
      same way. */
  lemma {:induction false} MatchesPreserved(ts: seq<Task>, us: seq<Task>, token: string)
    requires |ts| == |us|
    requires forall j :: 0 <= j < |ts| ==> us[j].id == ts[j].id && us[j].title == ts[j].title
    ensures FirstMatch(us, token) == FirstMatch(ts, token)
    ensures Ids(us) == Ids(ts)
  {
    forall j | 0 <= j < |ts|
      ensures Matches(us[j], token) == Matches(ts[j], token)
    {
    }
  }

  /** Completing twice with the same token is completing once: the second call finds the
      task already completed, changes nothing and saves nothing. */
  lemma {:induction false} CompleteIdempotent(ts: seq<Task>, token: string, now: Instant, later: Instant)
    ensures var o := CompleteStep(ts, token, now);
      CompleteStep(o.tasks, token, later) == Outcome(o.tasks, o.result, false)
  {
    var o := CompleteStep(ts, token, now);
    CompleteKeepsIdsAndMatch(ts, token, now, token);
  }

  /** A title match earlier in the list shadows the task whose id is the token: the token
      designates the earlier task, not the task so named. */
  lemma TitleMatchShadowsId(ts: seq<Task>, i: nat, j: nat)
    requires i < j < |ts|
    requires Contains(Lower(ts[i].title), Lower(ts[j].id))
    ensures FirstMatch(ts, ts[j].id).Some? && FirstMatch(ts, ts[j].id).value <= i
  {
  }

  /** An instance: completing by "task_2" completes the task titled "email task_2 notes" and
      leaves the task "task_2" pending. */
  lemma ShadowingExample(day: Date)
    ensures var t1 := Task("task_1", "email task_2 notes", Pending, Low, None, [], None, Instant(day, 0), None);
      var t2 := Task("task_2", "pay rent", Pending, Low, None, [], None, Instant(day, 0), None);
      var o := CompleteStep([t1, t2], "task_2", Instant(day, 1));
      o.tasks == [Complete(t1, Instant(day, 1)), t2]
  {
    var t1 := Task("task_1", "email task_2 notes", Pending, Low, None, [], None, Instant(day, 0), None);
    var t2 := Task("task_2", "pay rent", Pending, Low, None, [], None, Instant(day, 0), None);
    TitleMentionsId();
    assert Matches(t1, "task_2");
    assert FirstMatch([t1, t2], "task_2") == Some(0);
  }

  lemma TitleMentionsId()
    ensures Contains(Lower("email task_2 notes"), Lower("task_2"))
  {
    assert "email task_2 notes" == "email " + "task_2" + " notes";
    LowerOfLowered("email task_2 notes");
    LowerOfLowered("task_2");
    ContainsMiddle("email ", "task_2", " notes");
  }

  // ---------------------------------------------------------------------------------------
  // delete_task
  // ---------------------------------------------------------------------------------------

  /** Archiving keeps the task in place, with only its status changed, so `get_task` still
      returns it (now archived). */
  lemma {:induction false} ArchiveKeepsTask(ts: seq<Task>, token: string)
    requires FirstMatch(ts, token).Some?
    ensures var i := FirstMatch(ts, token).value;
      var o := DeleteStep(ts, token, true);
      && o.saved && |o.tasks| == |ts|
      && o.tasks[i] == Archive(ts[i]) && o.result == Some(o.tasks[i])
      && (forall j :: 0 <= j < |ts| && j != i ==> o.tasks[j] == ts[j])
      && Ids(o.tasks) == Ids(ts)
      && (UniqueIds(ts) ==> GetIn(o.tasks, ts[i].id) == Some(Archive(ts[i])))
  {
    var i := FirstMatch(ts, token).value;
    var o := DeleteStep(ts, token, true);
    assert Ids(o.tasks) == Ids(ts);
  }

  /** Deleting for good removes exactly the designated task and keeps the others in order. */
  lemma {:induction false} RemoveDropsTask(ts: seq<Task>, token: string)
    requires FirstMatch(ts, token).Some?
    ensures var i := FirstMatch(ts, token).value;
      var o := DeleteStep(ts, token, false);
      && o.saved && o.result == Some(ts[i]) && |o.tasks| == |ts| - 1
      && (forall j :: 0 <= j < i ==> o.tasks[j] == ts[j])
      && (forall j :: i <= j < |o.tasks| ==> o.tasks[j] == ts[j + 1])
      && multiset(o.tasks) + multiset{ts[i]} == multiset(ts)
  {
    var i := FirstMatch(ts, token).value;
    assert ts == ts[..i] + [ts[i]] + ts[i + 1..];
  }

  /** With unique ids, the id of a task deleted for good is unknown afterwards. */
  lemma {:induction false} RemoveForgetsId(ts: seq<Task>, token: string)
    requires FirstMatch(ts, token).Some? && UniqueIds(ts)
    ensures var i := FirstMatch(ts, token).value;
      GetIn(DeleteStep(ts, token, false).tasks, ts[i].id).None?
  {
    var i := FirstMatch(ts, token).value;
    var o := DeleteStep(ts, token, false);
    RemoveDropsTask(ts, token);
    forall j | 0 <= j < |o.tasks|
      ensures o.tasks[j].id != ts[i].id
    {
      if j >= i {
        assert o.tasks[j] == ts[j + 1];
      }
    }
  }

  /** Without a designated task, deleting changes and saves nothing. */
  lemma DeleteMissingIsNoop(ts: seq<Task>, token: string, archive: bool)
    requires FirstMatch(ts, token).None?
    ensures DeleteStep(ts, token, archive) == Outcome(ts, None, false)
  {
  }

  // ---------------------------------------------------------------------------------------
  // update_task
  // ---------------------------------------------------------------------------------------

  /** Each field a patch names is replaced, each it leaves out is kept. */
  lemma PatchFields(t: Task, p: Patch, today: Date)
    requires ApplyPatch(t, p, today).Ok?
    ensures var u := ApplyPatch(t, p, today).value;
      && u.title == (if p.title.Some? then p.title.value else t.title)
      && u.priority == (if p.priority.Some? then p.priority.value else t.priority)
      && u.tags == (if p.tags.Some? then p.tags.value else t.tags)
      && u.notes == (if p.notes.Some? then p.notes else t.notes)
      && u.due == PatchedDue(t.due, p.due, today).value
  {
  }

  /** The empty patch changes nothing. */
  lemma NoChangeIsIdentity(t: Task, today: Date)
    ensures ApplyPatch(t, NoChange, today) == Ok(t)
  {
  }

  /** Applying a patch a second time (on the same day) changes nothing more. */
  lemma PatchIdempotent(t: Task, p: Patch, today: Date)
    requires ApplyPatch(t, p, today).Ok?
    ensures ApplyPatch(ApplyPatch(t, p, today).value, p, today) == ApplyPatch(t, p, today)
  {
  }

  /** `update_task` finds its task by exact id only, and either changes that task alone and
      saves, or changes nothing and saves nothing. */
  lemma UpdateResultCases(ts: seq<Task>, id: string, p: Patch, today: Date)
    ensures var o := UpdateStep(ts, id, p, today);
      && (o.result == NotFound <==> id !in Ids(ts))
      && (o.result.Updated? <==> o.saved)
      && (!o.saved ==> o.tasks == ts)
      && (o.result == InvalidDue <==>
            id in Ids(ts) && p.due.Some? && p.due.value != "" && ParseDueDate(p.due.value, today).None?)
      && (o.result.Updated? ==>
            var i := IndexOfId(ts, id).value;
            |o.tasks| == |ts| && o.tasks[i] == o.result.task && o.result.task.id == id
            && forall j :: 0 <= j < |ts| && j != i ==> o.tasks[j] == ts[j])
  {
    GetFindsId(ts, id);
  }

  /** An update keeps the ids, so it keeps them unique. */
  lemma UpdateKeepsIds(ts: seq<Task>, id: string, p: Patch, today: Date)
    ensures Ids(UpdateStep(ts, id, p, today).tasks) == Ids(ts)
  {
  }

  /** Updating twice with the same patch on the same day is updating once. */
  lemma {:induction false} UpdateIdempotent(ts: seq<Task>, id: string, p: Patch, today: Date)
    ensures var o := UpdateStep(ts, id, p, today);
      UpdateStep(o.tasks, id, p, today).tasks == o.tasks
  {
    var o := UpdateStep(ts, id, p, today);
    if o.result.Updated? {
      var i := IndexOfId(ts, id).value;
      assert o.tasks[i].id == id;
      assert forall j :: 0 <= j < i ==> o.tasks[j] == ts[j];
      assert IndexOfId(o.tasks, id) == Some(i);
      PatchIdempotent(ts[i], p, today);
    }
  }

  // ---------------------------------------------------------------------------------------
  // list_tasks and search_tasks
  // ---------------------------------------------------------------------------------------

  /** `list_tasks` returns exactly the tasks its filters admit, each once per occurrence, in
      priority and then due-date order, ties in store order. */
  lemma ListContents(ts: seq<Task>, f: ListFilter, today: Date)
    ensures forall x :: x in ListIn(ts, f, today) <==> x in ts && Listed(x, f, today)
    ensures multiset(ListIn(ts, f, today)) == multiset(Keep(ts, ListedBy(f, today)))
    ensures StablySorts(ListIn(ts, f, today), Keep(ts, ListedBy(f, today)), ListOrder)
  {
    SortByStablySorts(Keep(ts, ListedBy(f, today)), ListOrder);
    SortBySameMembers(Keep(ts, ListedBy(f, today)), ListOrder);
  }

  /** Higher priorities come first in a listing; within a priority, earlier due dates, and
      tasks without a due date last. */
  lemma {:induction false} ListOrdered(ts: seq<Task>, f: ListFilter, today: Date, i: nat, j: nat)
    requires i < j < |ListIn(ts, f, today)|
    ensures var a, b := ListIn(ts, f, today)[i], ListIn(ts, f, today)[j];
      && ListRank(a.priority) <= ListRank(b.priority)
      && (ListRank(a.priority) == ListRank(b.priority) && b.due.Some? ==>
            a.due.Some? && a.due.value <= b.due.value)
  {
    ListContents(ts, f, today);
  }

  /** Search returns exactly the found tasks, in store order. */
  lemma SearchContents(ts: seq<Task>, query: string)
    ensures forall x :: x in SearchIn(ts, query) <==> x in ts && Found(x, query)
    ensures |SearchIn(ts, query)| <= |ts|
  {
  }
}

/** The tracker of src/tracker.py as an object holding the task list. The source reloads the
    list from its JSON file at the start of each call and writes it back when it changes; here
    the list is a field, and a ghost counter records each write-back. */
module Tracker {
  import opened Wrappers
  import opened Text
  import opened Calendar
  import opened Parser
  import opened Tasks
  import opened Queries
  import opened Ordering
  import opened Summary
  import opened Store

  class TaskStore {
    /** The stored tasks, in file order. */
    var tasks: seq<Task>
    /** How many times the list has been written back. */
    ghost var saves: nat

    /** A tracker with no data file yet: `_load_tasks` returns the empty list. */
    constructor ()
      ensures tasks == [] && saves == 0
    {
      tasks := [];
      saves := 0;
    }

    /** `add_task`. The id (`task_` and eight hex digits of a fresh UUID), today's date and
        the current time are parameters. */
    method AddTask(id: string, title: string, due: Option<string>, priority: Option<Priority>,
                   tags: seq<string>, notes: Option<string>, today: Date, now: Instant)
      returns (t: Task)
      modifies this
      ensures var o := AddStep(old(tasks), id, title, due, priority, tags, notes, today, now);
        tasks == o.tasks && t == o.result && saves == old(saves) + 1
    {
      var dueDate: Option<Date> := None;
      if due.Some? && due.value != "" {
        dueDate := ParseDueDate(due.value, today);
      }
      var p: Priority;
      if priority.None? {
        p := InferPriority(title, dueDate, tags, today);
      } else {
        p := priority.value;
      }
      t := Task(id, title, Pending, p, dueDate, tags, notes, now, None);
      tasks := tasks + [t];
      saves := saves + 1;
    }

    /** `get_task`: the first task with the given id. */
    method GetTask(id: string) returns (r: Option<Task>)
      ensures r == GetIn(tasks, id)
    {
      var i := 0;
      while i < |tasks|
        invariant 0 <= i <= |tasks|
        invariant forall j :: 0 <= j < i ==> tasks[j].id != id
      {
        if tasks[i].id == id {
          assert IndexOfId(tasks, id) == Some(i);
          return Some(tasks[i]);
        }
        i := i + 1;
      }
      return None;
    }

    /** `complete_task`: one pass over the list for the first task the token designates. */
    method CompleteTask(token: string, now: Instant) returns (r: Option<Task>)
      modifies this
      ensures var o := CompleteStep(old(tasks), token, now);
        tasks == o.tasks && r == o.result && saves == old(saves) + (if o.saved then 1 else 0)
    {
      var i := 0;
      while i < |tasks|
        invariant 0 <= i <= |tasks|
        invariant tasks == old(tasks) && saves == old(saves)
        invariant forall j :: 0 <= j < i ==> !Matches(tasks[j], token)
      {
        var task := tasks[i];
        if task.id == token || Contains(Lower(task.title), Lower(token)) {
          assert FirstMatch(tasks, token) == Some(i);
          if task.status == Completed {
            return Some(task);
          }
          var done := Complete(task, now);
          tasks := tasks[i := done];
          saves := saves + 1;
          return Some(done);
        }
        i := i + 1;
      }
      return None;
    }

    /** `delete_task`: archive the first task the token designates, or remove it. */
    method DeleteTask(token: string, archive: bool) returns (r: Option<Task>)
      modifies this
      ensures var o := DeleteStep(old(tasks), token, archive);
        tasks == o.tasks && r == o.result && saves == old(saves) + (if o.saved then 1 else 0)
    {
      var i := 0;
      while i < |tasks|
        invariant 0 <= i <= |tasks|
        invariant tasks == old(tasks) && saves == old(saves)
        invariant forall j :: 0 <= j < i ==> !Matches(tasks[j], token)
      {
        var task := tasks[i];
        if task.id == token || Contains(Lower(task.title), Lower(token)) {
          assert FirstMatch(tasks, token) == Some(i);
          if archive {
            var archived := Archive(task);
            tasks := tasks[i := archived];
            saves := saves + 1;
            return Some(archived);
          } else {
            tasks := tasks[..i] + tasks[i + 1..];
            saves := saves + 1;
            return Some(task);
          }
        }
        i := i + 1;
      }
      return None;
    }

    /** `update_task`: patch the first task with the given id. */
    method UpdateTask(id: string, p: Patch, today: Date) returns (r: UpdateResult)
      modifies this
      ensures var o := UpdateStep(old(tasks), id, p, today);
        tasks == o.tasks && r == o.result && saves == old(saves) + (if o.saved then 1 else 0)
    {
      var i := 0;
      while i < |tasks|
        invariant 0 <= i <= |tasks|
        invariant tasks == old(tasks) && saves == old(saves)
        invariant forall j :: 0 <= j < i ==> tasks[j].id != id
      {
        if tasks[i].id == id {
          assert IndexOfId(tasks, id) == Some(i);
          var patched := ApplyPatch(tasks[i], p, today);
          if patched.Failure? {
            return InvalidDue;
          }
          tasks := tasks[i := patched.value];
          saves := saves + 1;
          return Updated(patched.value);
        }
        i := i + 1;
      }
      return NotFound;
    }

    /** `list_tasks`: filter in one pass, then sort stably by priority and due date. */
    method ListTasks(f: ListFilter, today: Date) returns (r: seq<Task>)
      ensures r == ListIn(tasks, f, today)
    {
      var filtered: seq<Task> := [];
      var i := 0;
      while i < |tasks|
        invariant 0 <= i <= |tasks|
        invariant filtered == Keep(tasks[..i], ListedBy(f, today))
      {
        var task := tasks[i];
        assert tasks[..i + 1] == tasks[..i] + [task];
        KeepSnoc(tasks[..i], task, ListedBy(f, today));
        if Listed(task, f, today) {
          filtered := filtered + [task];
        }
        i := i + 1;
      }
      assert tasks[..|tasks|] == tasks;
      r := SortBy(filtered, ListOrder);
    }

    /** `search_tasks`: one pass, keeping store order. */
    method SearchTasks(query: string) returns (r: seq<Task>)
      ensures r == SearchIn(tasks, query)
    {
      var q := Lower(query);
      r := [];
      var i := 0;
      while i < |tasks|
        invariant 0 <= i <= |tasks|
        invariant r == Keep(tasks[..i], FoundBy(query))
      {
        var task := tasks[i];
        assert tasks[..i + 1] == tasks[..i] + [task];
        KeepSnoc(tasks[..i], task, FoundBy(query));
        if task.status != Archived {
          var titleMatch := Contains(Lower(task.title), q);
          var notesMatch := task.notes.Some? && task.notes.value != "" && Contains(Lower(task.notes.value), q);
          var tagMatch := TagMentions(task.tags, q);
          if titleMatch || notesMatch || tagMatch {
            r := r + [task];
          }
        }
        i := i + 1;
      }
      assert tasks[..|tasks|] == tasks;
    }

    /** `daily_summary` for the day `day` (the caller's date, or today). */
    method DailySummary(day: Date) returns (s: DaySummary)
      ensures s == SummaryOf(tasks, day)
    {
      var dueToday: seq<Task> := [];
      var overdue: seq<Task> := [];
      var completed: seq<Task> := [];
      var high: seq<Task> := [];
      var i := 0;
      while i < |tasks|
        invariant 0 <= i <= |tasks|
        invariant dueToday == Keep(tasks[..i], DueBy(day))
        invariant overdue == Keep(tasks[..i], OverdueBy(day))
        invariant completed == Keep(tasks[..i], CompletedBy(day))
        invariant high == Keep(tasks[..i], HighPriorityBy(day))
      {
        var task := tasks[i];
        assert tasks[..i + 1] == tasks[..i] + [task];
        KeepSnoc(tasks[..i], task, DueBy(day));
        KeepSnoc(tasks[..i], task, OverdueBy(day));
        KeepSnoc(tasks[..i], task, CompletedBy(day));
        KeepSnoc(tasks[..i], task, HighPriorityBy(day));
        BucketTests(task, day);
        if task.status == Completed && task.completedAt.Some? && task.completedAt.value.day == day {
          completed := completed + [task];
        }
        if task.status == Pending {
          if task.due == Some(day) {
            dueToday := dueToday + [task];
          } else if task.due.Some? && task.due.value < day {
            overdue := overdue + [task];
          }
          if task.priority == High && task.due != Some(day) {
            high := high + [task];
          }
        }
        i := i + 1;
      }
      assert tasks[..|tasks|] == tasks;
      dueToday := SortBy(dueToday, SummaryOrder);
      overdue := SortBy(overdue, SummaryOrder);
      high := SortBy(high, SummaryOrder);
      s := DaySummary(day, dueToday, overdue, completed, high, FormatSummary(dueToday, overdue, completed, high));
    }
  }
}

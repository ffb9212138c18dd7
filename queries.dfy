/** The selections the tracker makes over its task list (src/tracker.py): the first task a
    token or an id designates, the filters of `list_tasks`, the matches of `search_tasks`, and
    the four buckets of `daily_summary`. Each is specified on one task, and `Keep` lifts a
    selection to a list, preserving order. */
module Queries {
  import opened Wrappers
  import opened Text
  import opened Calendar
  import opened Parser
  import opened Tasks

  // ---------------------------------------------------------------------------------------
  // Finding one task
  // ---------------------------------------------------------------------------------------

  /** The index of the first task that `token` designates (by id or by title). */
  function FirstMatch(ts: seq<Task>, token: string): (r: Option<nat>)
    ensures r.Some? ==> r.value < |ts| && Matches(ts[r.value], token)
    ensures r.Some? ==> forall j :: 0 <= j < r.value ==> !Matches(ts[j], token)
    ensures r.None? <==> forall j :: 0 <= j < |ts| ==> !Matches(ts[j], token)
  {
    if ts == [] then None
    else if Matches(ts[0], token) then Some(0)
    else match FirstMatch(ts[1..], token)
      case None => None
      case Some(i) => Some(i + 1)
  }

  /** The index of the first task whose id is `id`. */
  function IndexOfId(ts: seq<Task>, id: string): (r: Option<nat>)
    ensures r.Some? ==> r.value < |ts| && ts[r.value].id == id
    ensures r.Some? ==> forall j :: 0 <= j < r.value ==> ts[j].id != id
    ensures r.None? <==> forall j :: 0 <= j < |ts| ==> ts[j].id != id
  {
    if ts == [] then None
    else if ts[0].id == id then Some(0)
    else match IndexOfId(ts[1..], id)
      case None => None
      case Some(i) => Some(i + 1)
  }

  /** The ids of a task list, in order. */
  function Ids(ts: seq<Task>): (r: seq<string>)
    ensures |r| == |ts| && forall i :: 0 <= i < |ts| ==> r[i] == ts[i].id
  {
    seq(|ts|, i requires 0 <= i < |ts| => ts[i].id)
  }

  /** No two tasks share an id. */
  predicate UniqueIds(ts: seq<Task>) {
    forall i, j :: 0 <= i < j < |ts| ==> ts[i].id != ts[j].id
  }

  /** With unique ids, the task a token finds by its id is the task with that id. */
  lemma IdTokenFindsIdOwner(ts: seq<Task>, i: nat)
    requires UniqueIds(ts) && i < |ts|
    requires forall j :: 0 <= j < i ==> !Contains(Lower(ts[j].title), Lower(ts[i].id))
    ensures FirstMatch(ts, ts[i].id) == Some(i)
  {
  }

  /** The empty token occurs in every title, so it designates the first task. */
  lemma EmptyTokenDesignatesFirst(ts: seq<Task>)
    requires ts != []
    ensures FirstMatch(ts, "") == Some(0)
  {
    assert OccursAt(Lower(ts[0].title), Lower(""), 0);
  }

  // ---------------------------------------------------------------------------------------
  // list_tasks
  // ---------------------------------------------------------------------------------------

  /** The filters of `list_tasks`. A filter that is `None`, `false`, or (for the string-valued
      ones) empty, is off: the source tests them for truthiness. */
  datatype ListFilter = ListFilter(
    status: Option<Status>,
    priority: Option<Priority>,
    tag: Option<string>,
    dueBefore: Option<Date>,
    dueToday: bool,
    overdue: bool,
    includeCompleted: bool)

  /** The defaults of `list_tasks()`: pending tasks only. */
  const DefaultFilter := ListFilter(Some(Pending), None, None, None, false, false, false)

  /** `include_completed` admits everything but archived tasks, and overrides `status`. */
  predicate StatusPasses(t: Task, f: ListFilter) {
    if f.includeCompleted then t.status != Archived
    else f.status.None? || t.status == f.status.value
  }

  predicate PriorityPasses(t: Task, f: ListFilter) {
    f.priority.None? || f.priority.value == Other("") || t.priority == f.priority.value
  }

  /** The tag must be one of the task's tags exactly (no case folding). */
  predicate TagPasses(t: Task, f: ListFilter) {
    f.tag.None? || f.tag.value == "" || f.tag.value in t.tags
  }

  /** `due_today`, `overdue` and `due_before` each demand a due date; `due_before` includes
      its own day. */
  predicate DuePasses(t: Task, f: ListFilter, today: Date) {
    && (f.dueToday ==> t.due == Some(today))
    && (f.overdue ==> t.due.Some? && t.due.value < today)
    && (f.dueBefore.Some? ==> t.due.Some? && t.due.value <= f.dueBefore.value)
  }

  /** A task `list_tasks` keeps on the day `today`. */
  predicate Listed(t: Task, f: ListFilter, today: Date) {
    StatusPasses(t, f) && PriorityPasses(t, f) && TagPasses(t, f) && DuePasses(t, f, today)
  }

  // ---------------------------------------------------------------------------------------
  // search_tasks
  // ---------------------------------------------------------------------------------------

  /** Some tag contains `q` once lower-cased. */
  predicate TagMentions(tags: seq<string>, q: string) {
    exists k :: 0 <= k < |tags| && Contains(Lower(tags[k]), q)
  }

  /** A task `search_tasks(query)` returns: not archived, and the lower-cased query occurs in
      the lower-cased title, in non-empty notes, or in a tag. */
  predicate Found(t: Task, query: string) {
    var q := Lower(query);
    t.status != Archived
    && (Contains(Lower(t.title), q)
        || (t.notes.Some? && t.notes.value != "" && Contains(Lower(t.notes.value), q))
        || TagMentions(t.tags, q))
  }

  // ---------------------------------------------------------------------------------------
  // daily_summary buckets
  // ---------------------------------------------------------------------------------------

  /** Completed, with a completion stamp on `day` (any status but pending is skipped after). */
  predicate CompletedOn(t: Task, day: Date) {
    t.status == Completed && t.completedAt.Some? && t.completedAt.value.day == day
  }

  predicate DueOn(t: Task, day: Date) {
    t.status == Pending && t.due == Some(day)
  }

  predicate OverdueOn(t: Task, day: Date) {
    t.status == Pending && t.due.Some? && t.due.value < day
  }

  /** High priority and pending, unless already counted as due that day. */
  predicate HighPriorityOn(t: Task, day: Date) {
    t.status == Pending && t.priority == High && t.due != Some(day)
  }

  // ---------------------------------------------------------------------------------------
  // Selections over a list
  // ---------------------------------------------------------------------------------------

  /** One selection a tracker query makes. */
  datatype Criterion =
    | ListedBy(filter: ListFilter, today: Date)
    | FoundBy(query: string)
    | CompletedBy(day: Date)
    | DueBy(day: Date)
    | OverdueBy(day: Date)
    | HighPriorityBy(day: Date)

  predicate Holds(t: Task, c: Criterion) {
    match c
    case ListedBy(f, today) => Listed(t, f, today)
    case FoundBy(q) => Found(t, q)
    case CompletedBy(d) => CompletedOn(t, d)
    case DueBy(d) => DueOn(t, d)
    case OverdueBy(d) => OverdueOn(t, d)
    case HighPriorityBy(d) => HighPriorityOn(t, d)
  }

  /** The tasks of `ts` satisfying `c`, in their order in `ts`. */
  function Keep(ts: seq<Task>, c: Criterion): (r: seq<Task>)
    ensures |r| <= |ts|
    ensures forall x :: x in r <==> x in ts && Holds(x, c)
  {
    if ts == [] then []
    else
      var init := ts[..|ts| - 1];
      assert ts == init + [ts[|ts| - 1]];
      Keep(init, c) + (if Holds(ts[|ts| - 1], c) then [ts[|ts| - 1]] else [])
  }

  /** Keeping from a list with one more task at the end: the loop step of every query. */
  lemma KeepSnoc(ts: seq<Task>, x: Task, c: Criterion)
    ensures Keep(ts + [x], c) == Keep(ts, c) + (if Holds(x, c) then [x] else [])
  {
    assert (ts + [x])[..|ts|] == ts;
  }

  /** Selection distributes over concatenation, so the result of a query on two lists run
      one after the other is the concatenation of their results. */
  lemma {:induction false} KeepAppend(a: seq<Task>, b: seq<Task>, c: Criterion)
    ensures Keep(a + b, c) == Keep(a, c) + Keep(b, c)
    decreases |b|
  {
    if b == [] {
      assert a + b == a;
    } else {
      var init, x := b[..|b| - 1], b[|b| - 1];
      var last := if Holds(x, c) then [x] else [];
      assert a + b == (a + init) + [x];
      calc {
        Keep(a + b, c);
        { KeepSnoc(a + init, x, c); }
        Keep(a + init, c) + last;
        { KeepAppend(a, init, c); }
        (Keep(a, c) + Keep(init, c)) + last;
        Keep(a, c) + (Keep(init, c) + last);
        { KeepSnoc(init, x, c); assert b == init + [x]; }
        Keep(a, c) + Keep(b, c);
      }
    }
  }

  /** A selection of a selection is the selection by both criteria. */
  lemma {:induction false} KeepKeepCommutes(ts: seq<Task>, c: Criterion, d: Criterion)
    ensures Keep(Keep(ts, c), d) == Keep(Keep(ts, d), c)
    decreases |ts|
  {
    if ts != [] {
      var init, x := ts[..|ts| - 1], ts[|ts| - 1];
      KeepKeepCommutes(init, c, d);
      var kc := if Holds(x, c) then [x] else [];
      var kd := if Holds(x, d) then [x] else [];
      KeepAppend(Keep(init, c), kc, d);
      KeepAppend(Keep(init, d), kd, c);
    }
  }

  // ---------------------------------------------------------------------------------------
  // Properties of the selections
  // ---------------------------------------------------------------------------------------

  /** `list_tasks()` with its defaults lists exactly the pending tasks. */
  lemma DefaultListsPending(t: Task, today: Date)
    ensures Listed(t, DefaultFilter, today) <==> t.status == Pending
  {
  }

  /** `include_completed` overrides any status filter: completed and pending tasks pass,
      archived ones never do. */
  lemma IncludeCompletedOverridesStatus(t: Task, f: ListFilter)
    requires f.includeCompleted
    ensures StatusPasses(t, f) <==> t.status == Pending || t.status == Completed
  {
  }

  /** Asking for tasks due today that are also overdue lists nothing. */
  lemma DueTodayAndOverdueExclusive(ts: seq<Task>, f: ListFilter, today: Date)
    requires f.dueToday && f.overdue
    ensures Keep(ts, ListedBy(f, today)) == []
  {
    var r := Keep(ts, ListedBy(f, today));
    forall x | x in r
      ensures false
    {
    }
  }

  /** An overdue task is also before any day from today on. */
  lemma OverdueIsDueBefore(t: Task, f: ListFilter, today: Date, day: Date)
    requires DuePasses(t, f, today) && f.overdue && today <= day
    ensures t.due.Some? && t.due.value <= day
  {
  }

  /** Search never returns an archived task. */
  lemma SearchSkipsArchived(ts: seq<Task>, query: string)
    ensures forall x :: x in Keep(ts, FoundBy(query)) ==> x.status != Archived
  {
  }

  /** Search is case-insensitive in the query (for ASCII letters). */
  lemma {:induction false} SearchIgnoresQueryCase(t: Task, query: string)
    ensures Found(t, query) <==> Found(t, Lower(query))
  {
    LowerIsLowered(query);
    LowerOfLowered(Lower(query));
  }

  /** The empty query finds every task that is not archived. */
  lemma EmptySearchFindsAllLive(t: Task)
    ensures Found(t, "") <==> t.status != Archived
  {
    assert OccursAt(Lower(t.title), Lower(""), 0);
  }

  /** A task whose title holds the query is found unless archived. */
  lemma TitleHitFound(t: Task, query: string)
    requires t.status != Archived && Contains(Lower(t.title), Lower(query))
    ensures Found(t, query)
  {
  }

  /** A task is due on the day, overdue, completed that day, or none of these: never two. */
  lemma SummaryBucketsDisjoint(t: Task, day: Date)
    ensures !(DueOn(t, day) && OverdueOn(t, day))
    ensures CompletedOn(t, day) ==> !DueOn(t, day) && !OverdueOn(t, day) && !HighPriorityOn(t, day)
    ensures !(DueOn(t, day) && HighPriorityOn(t, day))
  {
  }

  /** A high-priority pending task that is overdue is reported in both the overdue and the
      high-priority bucket. */
  lemma OverdueHighInBoth(t: Task, day: Date)
    requires t.status == Pending && t.priority == High && t.due.Some? && t.due.value < day
    ensures OverdueOn(t, day) && HighPriorityOn(t, day)
  {
  }

  /** The tests `daily_summary` makes of one task, in its own order: the completion stamp
      first, then, for pending tasks only, due today, else overdue, then high priority. */
  lemma BucketTests(t: Task, day: Date)
    ensures Holds(t, CompletedBy(day)) <==>
      t.status == Completed && t.completedAt.Some? && t.completedAt.value.day == day
    ensures Holds(t, DueBy(day)) <==> t.status == Pending && t.due == Some(day)
    ensures Holds(t, OverdueBy(day)) <==>
      t.status == Pending && t.due != Some(day) && t.due.Some? && t.due.value < day
    ensures Holds(t, HighPriorityBy(day)) <==>
      t.status == Pending && t.priority == High && t.due != Some(day)
  {
  }

  /** Only pending tasks are due, overdue or high priority on a day. */
  lemma BucketsArePending(t: Task, day: Date)
    requires DueOn(t, day) || OverdueOn(t, day) || HighPriorityOn(t, day)
    ensures t.status == Pending
  {
  }
}

/** `daily_summary` and `_format_summary` (src/tracker.py): the four buckets of a day and the
    text that reports them. */
module Summary {
  import opened Wrappers
  import opened Text
  import opened Calendar
  import opened Parser
  import opened Tasks
  import opened Queries
  import opened Ordering

  /** The text of a day with nothing to report. */
  const QuietDay := "No tasks for today. Enjoy! \U{1F389}"

  function OverdueLine(n: nat): string {
    "\U{26A0}\U{FE0F} " + Decimal(n) + " overdue task(s)"
  }

  function DueTodayLine(n: nat): string {
    "\U{1F4C5} " + Decimal(n) + " task(s) due today"
  }

  function HighPriorityLine(n: nat): string {
    "\U{1F534} " + Decimal(n) + " high priority task(s)"
  }

  function CompletedLine(n: nat): string {
    "\U{2705} " + Decimal(n) + " completed today"
  }

  /** The line for a bucket, if the bucket has tasks. */
  function LineFor(bucket: seq<Task>, line: string): (r: seq<string>)
    ensures |r| == (if bucket == [] then 0 else 1)
  {
    if bucket == [] then [] else [line]
  }

  /** How many of the four buckets have tasks. */
  function NonEmptyCount(dueToday: seq<Task>, overdue: seq<Task>, completedToday: seq<Task>,
                         highPriority: seq<Task>): nat {
    (if overdue == [] then 0 else 1) + (if dueToday == [] then 0 else 1)
    + (if highPriority == [] then 0 else 1) + (if completedToday == [] then 0 else 1)
  }

  /** The report lines, in the order overdue, due today, high priority, completed. */
  function SummaryLines(dueToday: seq<Task>, overdue: seq<Task>, completedToday: seq<Task>,
                        highPriority: seq<Task>): (ls: seq<string>)
    ensures |ls| == NonEmptyCount(dueToday, overdue, completedToday, highPriority)
  {
    LineFor(overdue, OverdueLine(|overdue|))
    + LineFor(dueToday, DueTodayLine(|dueToday|))
    + LineFor(highPriority, HighPriorityLine(|highPriority|))
    + LineFor(completedToday, CompletedLine(|completedToday|))
  }

  /** `_format_summary(due_today, overdue, completed_today, high_priority)`. */
  function FormatSummary(dueToday: seq<Task>, overdue: seq<Task>, completedToday: seq<Task>,
                         highPriority: seq<Task>): string {
    var ls := SummaryLines(dueToday, overdue, completedToday, highPriority);
    if ls == [] then QuietDay else JoinLines(ls)
  }

  /** What `daily_summary` returns for the day `date`. */
  datatype DaySummary = DaySummary(
    date: Date,
    dueToday: seq<Task>,
    overdue: seq<Task>,
    completedToday: seq<Task>,
    highPriority: seq<Task>,
    text: string)

  /** The summary of `ts` for `day`: each bucket in store order, then the three pending
      buckets stably sorted by priority; completed tasks stay in store order. */
  function SummaryOf(ts: seq<Task>, day: Date): DaySummary {
    var dueToday := SortBy(Keep(ts, DueBy(day)), SummaryOrder);
    var overdue := SortBy(Keep(ts, OverdueBy(day)), SummaryOrder);
    var completed := Keep(ts, CompletedBy(day));
    var high := SortBy(Keep(ts, HighPriorityBy(day)), SummaryOrder);
    DaySummary(day, dueToday, overdue, completed, high, FormatSummary(dueToday, overdue, completed, high))
  }

  // ---------------------------------------------------------------------------------------
  // Properties of the text
  // ---------------------------------------------------------------------------------------

  /** Every line of `ls` starts with a character above the ASCII range. */
  predicate EmojiLed(ls: seq<string>) {
    forall k :: 0 <= k < |ls| ==> |ls[k]| > 0 && ls[k][0] > '\U{2000}'
  }

  lemma EmojiLedAppend(a: seq<string>, b: seq<string>)
    requires EmojiLed(a) && EmojiLed(b)
    ensures EmojiLed(a + b)
  {
    forall k | 0 <= k < |a + b|
      ensures |(a + b)[k]| > 0 && (a + b)[k][0] > '\U{2000}'
    {
      if k >= |a| {
        assert (a + b)[k] == b[k - |a|];
      }
    }
  }

  /** Every report line starts with an emoji, never with the 'N' of the quiet-day text. */
  lemma LinesStartWithEmoji(dueToday: seq<Task>, overdue: seq<Task>,
                            completedToday: seq<Task>, highPriority: seq<Task>)
    ensures EmojiLed(SummaryLines(dueToday, overdue, completedToday, highPriority))
  {
    var a := LineFor(overdue, OverdueLine(|overdue|));
    var b := LineFor(dueToday, DueTodayLine(|dueToday|));
    var c := LineFor(highPriority, HighPriorityLine(|highPriority|));
    var d := LineFor(completedToday, CompletedLine(|completedToday|));
    assert EmojiLed(a) && EmojiLed(b) && EmojiLed(c) && EmojiLed(d);
    EmojiLedAppend(a, b);
    EmojiLedAppend(a + b, c);
    EmojiLedAppend(a + b + c, d);
  }

  /** The quiet-day text appears exactly when no bucket has a task. */
  lemma {:induction false} QuietDayIffNothing(dueToday: seq<Task>, overdue: seq<Task>,
                                              completedToday: seq<Task>, highPriority: seq<Task>)
    ensures FormatSummary(dueToday, overdue, completedToday, highPriority) == QuietDay
      <==> dueToday == [] && overdue == [] && completedToday == [] && highPriority == []
  {
    var ls := SummaryLines(dueToday, overdue, completedToday, highPriority);
    if ls != [] {
      LinesStartWithEmoji(dueToday, overdue, completedToday, highPriority);
      JoinLinesStartsWithFirst(ls);
      var text := JoinLines(ls);
      assert text[0] == ls[0][0];
      assert QuietDay[0] == 'N';
    }
  }

  /** No line of `ls` holds a newline. */
  predicate NoNewlines(ls: seq<string>) {
    forall k :: 0 <= k < |ls| ==> '\n' !in ls[k]
  }

  /** No report line holds a newline. */
  lemma LinesHaveNoNewline(dueToday: seq<Task>, overdue: seq<Task>,
                           completedToday: seq<Task>, highPriority: seq<Task>)
    ensures NoNewlines(SummaryLines(dueToday, overdue, completedToday, highPriority))
  {
    var a := LineFor(overdue, OverdueLine(|overdue|));
    var b := LineFor(dueToday, DueTodayLine(|dueToday|));
    var c := LineFor(highPriority, HighPriorityLine(|highPriority|));
    var d := LineFor(completedToday, CompletedLine(|completedToday|));
    ReportLinesHaveNoNewline(|overdue|, |dueToday|, |highPriority|, |completedToday|);
    assert NoNewlines(a) && NoNewlines(b) && NoNewlines(c) && NoNewlines(d);
    NoNewlinesAppend(a, b);
    NoNewlinesAppend(a + b, c);
    NoNewlinesAppend(a + b + c, d);
  }

  lemma NoNewlinesAppend(a: seq<string>, b: seq<string>)
    requires NoNewlines(a) && NoNewlines(b)
    ensures NoNewlines(a + b)
  {
    forall k | 0 <= k < |a + b|
      ensures '\n' !in (a + b)[k]
    {
      if k >= |a| {
        assert (a + b)[k] == b[k - |a|];
      }
    }
  }

  lemma ReportLinesHaveNoNewline(overdue: nat, dueToday: nat, highPriority: nat, completed: nat)
    ensures '\n' !in OverdueLine(overdue) && '\n' !in DueTodayLine(dueToday)
    ensures '\n' !in HighPriorityLine(highPriority) && '\n' !in CompletedLine(completed)
  {
    OverdueLineHasNoNewline(overdue);
    DueTodayLineHasNoNewline(dueToday);
    HighPriorityLineHasNoNewline(highPriority);
    CompletedLineHasNoNewline(completed);
  }

  lemma OverdueLineHasNoNewline(n: nat)
    ensures '\n' !in OverdueLine(n)
  {
    LineHasNoNewline("\U{26A0}\U{FE0F} ", n, " overdue task(s)");
  }

  lemma DueTodayLineHasNoNewline(n: nat)
    ensures '\n' !in DueTodayLine(n)
  {
    LineHasNoNewline("\U{1F4C5} ", n, " task(s) due today");
  }

  lemma HighPriorityLineHasNoNewline(n: nat)
    ensures '\n' !in HighPriorityLine(n)
  {
    LineHasNoNewline("\U{1F534} ", n, " high priority task(s)");
  }

  lemma CompletedLineHasNoNewline(n: nat)
    ensures '\n' !in CompletedLine(n)
  {
    LineHasNoNewline("\U{2705} ", n, " completed today");
  }

  /** A count between two newline-free texts gives a newline-free line. */
  lemma LineHasNoNewline(before: string, n: nat, after: string)
    requires '\n' !in before && '\n' !in after
    ensures '\n' !in before + Decimal(n) + after
  {
  }

  /** The text has one line per non-empty bucket: as many newlines as buckets, less one. */
  lemma {:induction false} OneLinePerBucket(dueToday: seq<Task>, overdue: seq<Task>,
                                            completedToday: seq<Task>, highPriority: seq<Task>)
    requires NonEmptyCount(dueToday, overdue, completedToday, highPriority) > 0
    ensures CountOf(FormatSummary(dueToday, overdue, completedToday, highPriority), '\n')
      == NonEmptyCount(dueToday, overdue, completedToday, highPriority) - 1
  {
    LinesHaveNoNewline(dueToday, overdue, completedToday, highPriority);
    assert forall k :: 0 <= k < |SummaryLines(dueToday, overdue, completedToday, highPriority)| ==>
      '\n' !in SummaryLines(dueToday, overdue, completedToday, highPriority)[k];
    JoinLinesNewlines(SummaryLines(dueToday, overdue, completedToday, highPriority));
  }

  /** A non-empty bucket's line, with its count, is part of the text. */
  lemma {:induction false} BucketsReported(dueToday: seq<Task>, overdue: seq<Task>,
                                           completedToday: seq<Task>, highPriority: seq<Task>)
    ensures var text := FormatSummary(dueToday, overdue, completedToday, highPriority);
      && (overdue != [] ==> Contains(text, OverdueLine(|overdue|)))
      && (dueToday != [] ==> Contains(text, DueTodayLine(|dueToday|)))
      && (highPriority != [] ==> Contains(text, HighPriorityLine(|highPriority|)))
      && (completedToday != [] ==> Contains(text, CompletedLine(|completedToday|)))
  {
    var ls := SummaryLines(dueToday, overdue, completedToday, highPriority);
    var a := LineFor(overdue, OverdueLine(|overdue|));
    var b := LineFor(dueToday, DueTodayLine(|dueToday|));
    var c := LineFor(highPriority, HighPriorityLine(|highPriority|));
    var d := LineFor(completedToday, CompletedLine(|completedToday|));
    assert ls == a + b + c + d;
    if overdue != [] {
      assert ls[0] == OverdueLine(|overdue|);
      JoinLinesContainsEach(ls, 0);
    }
    if dueToday != [] {
      assert ls[|a|] == DueTodayLine(|dueToday|);
      JoinLinesContainsEach(ls, |a|);
    }
    if highPriority != [] {
      assert ls[|a| + |b|] == HighPriorityLine(|highPriority|);
      JoinLinesContainsEach(ls, |a| + |b|);
    }
    if completedToday != [] {
      assert ls[|a| + |b| + |c|] == CompletedLine(|completedToday|);
      JoinLinesContainsEach(ls, |a| + |b| + |c|);
    }
  }

  /** The count in a line reads back as the bucket's size. */
  lemma OverdueCountReadsBack(n: nat)
    ensures var line := OverdueLine(n);
      var digits := line[3..3 + |Decimal(n)|];
      AllDigits(digits) && DigitsValue(digits) == n
  {
    assert OverdueLine(n)[3..3 + |Decimal(n)|] == Decimal(n);
  }

  // ---------------------------------------------------------------------------------------
  // Properties of the buckets
  // ---------------------------------------------------------------------------------------

  /** Each bucket holds exactly the tasks of its criterion. */
  lemma SummaryBuckets(ts: seq<Task>, day: Date)
    ensures var s := SummaryOf(ts, day);
      && s.date == day
      && (forall x :: x in s.dueToday <==> x in ts && Holds(x, DueBy(day)))
      && (forall x :: x in s.overdue <==> x in ts && Holds(x, OverdueBy(day)))
      && (forall x :: x in s.completedToday <==> x in ts && Holds(x, CompletedBy(day)))
      && (forall x :: x in s.highPriority <==> x in ts && Holds(x, HighPriorityBy(day)))
  {
    var s := SummaryOf(ts, day);
    BucketMembers(s.dueToday, ts, DueBy(day));
    BucketMembers(s.overdue, ts, OverdueBy(day));
    BucketMembers(s.highPriority, ts, HighPriorityBy(day));
    KeptMembers(s.completedToday, ts, CompletedBy(day));
  }

  lemma KeptMembers(bucket: seq<Task>, ts: seq<Task>, c: Criterion)
    requires bucket == Keep(ts, c)
    ensures forall x :: x in bucket <==> x in ts && Holds(x, c)
  {
  }

  /** A bucket sorted for the summary holds the tasks of its criterion. */
  lemma BucketMembers(bucket: seq<Task>, ts: seq<Task>, c: Criterion)
    requires bucket == SortBy(Keep(ts, c), SummaryOrder)
    ensures forall x :: x in bucket <==> x in ts && Holds(x, c)
  {
    SortBySameMembers(Keep(ts, c), SummaryOrder);
  }

  /** The three pending buckets are stably sorted by priority. */
  lemma SummaryBucketsSorted(ts: seq<Task>, day: Date)
    ensures var s := SummaryOf(ts, day);
      && StablySorts(s.dueToday, Keep(ts, DueBy(day)), SummaryOrder)
      && StablySorts(s.overdue, Keep(ts, OverdueBy(day)), SummaryOrder)
      && StablySorts(s.highPriority, Keep(ts, HighPriorityBy(day)), SummaryOrder)
  {
    SortByStablySorts(Keep(ts, DueBy(day)), SummaryOrder);
    SortByStablySorts(Keep(ts, OverdueBy(day)), SummaryOrder);
    SortByStablySorts(Keep(ts, HighPriorityBy(day)), SummaryOrder);
  }

  /** A store with no tasks has a quiet day. */
  lemma EmptyStoreIsQuiet(day: Date)
    ensures SummaryOf([], day).text == QuietDay
    ensures SummaryOf([], day).dueToday == [] && SummaryOf([], day).overdue == []
  {
    QuietDayIffNothing([], [], [], []);
  }

  /** A day with a pending task due on it reports "N task(s) due today". */
  lemma {:induction false} DueTaskIsReported(ts: seq<Task>, day: Date, t: Task)
    requires t in ts && DueOn(t, day)
    ensures var s := SummaryOf(ts, day);
      |s.dueToday| >= 1 && Contains(s.text, DueTodayLine(|s.dueToday|))
  {
    SummaryBuckets(ts, day);
    var s := SummaryOf(ts, day);
    assert t in s.dueToday;
    BucketsReported(s.dueToday, s.overdue, s.completedToday, s.highPriority);
  }
}

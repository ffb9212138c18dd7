# tasky core in Dafny

tasky is a personal task tracker. It stores tasks in a flat list: each task has a title, an
optional due date, a priority, tags, notes, a status and timestamps. It has two parts that hold
real logic, and this project models both.

- **The inference engine** (`src/parser.py`). `parse_due_date` turns free text such as
  "tomorrow", "in 3 days", "next friday", "eom" or "2026-01-20" into a calendar date, or none.
  It tries its rules in a fixed order and the first match wins. `infer_priority` picks a tier,
  "high", "medium" or "low", from keywords in the title, how close the due date is, and the tags.
- **The task repository** (`src/tracker.py`). It adds, gets, completes, deletes or archives and
  updates tasks. It lists tasks through filters and a stable sort, searches them, and builds a
  daily summary with a text digest.

## Layout

| file | module | contents |
|---|---|---|
| `wrappers.dfy` | `Wrappers` | `Option` and `Result` |
| `text.dfy` | `Text` | `str.lower` and `str.strip`, substring tests, digits, `str(n)`, `"\n".join` |
| `calendar.dfy` | `Calendar` | proleptic Gregorian day numbers (`toordinal`/`fromordinal`), `weekday()` |
| `parser.dfy` | `Parser` | how `parse_due_date` classifies and resolves text, and `infer_priority` |
| `parser_properties.dfy` | `ParserProperties` | what each date rule and the priority rules promise |
| `tasks.dfy` | `Tasks` | the task record and the change each operation makes to one record |
| `queries.dfy` | `Queries` | first-match lookup, list filters, search matching, summary buckets, `Keep` |
| `ordering.dfy` | `Ordering` | the two sort keys, and a stable sort proved unique |
| `summary.dfy` | `Summary` | `daily_summary`'s buckets and `_format_summary`'s text |
| `store.dfy` | `Store` | each repository operation as a pure transition of the task list |
| `tracker.dfy` | `Tracker` | class `TaskStore`: the task list as a field, one method per operation |

## Design

- **Dates.** A date is its day number, as `date.toordinal()` gives it. `Weekday(d) == (d + 6) % 7`,
  so Monday is 0, as in Python. `FromOrdinal` inverts `ToOrdinal` on valid dates. The "end of
  month" rule therefore has the real calendar behind it: the first of the next month, minus one.
- **The date parser** runs in two stages. `Classify` scans the normalised text through the rules
  in the source's order and names the first that applies, as a `Phrase`. `Resolve` computes that
  phrase's date from `today`. `ParseDueDate(raw, today)` applies both to `Normalise(raw)`.
- **The repository.** Each operation is first written as a pure transition from a task list to an
  `Outcome`: the new list, the returned value, and whether the source writes the list back.
  `Tracker.TaskStore` holds the list in a field. Its methods walk that list with the source's own
  loops. Each method is proved to leave exactly the state and result of its transition. A ghost
  counter counts the write-backs.
- **Selections.** Every query keeps, in store order, the tasks that satisfy one `Criterion`. This is
  `Keep`, and `KeepSnoc` is the loop step of each query method. `list_tasks` and `daily_summary`
  then sort with a stable insertion sort, `SortBy`. `StableSortUnique` shows that any stable sort
  by the same key gives the same list, so the model agrees with Python's `list.sort`.
- **Behaviour worth noting.** Each point is what the code does, and the model does the same:
  - `complete_task` and `delete_task` make a single pass (src/tracker.py:214-215 and
    src/tracker.py:240-241). Each task is tested for "same id, or the token is in the title". So
    a title match early in the list wins over a later task whose id is the token
    (`Store.TitleMatchShadowsId`, `Store.ShadowingExample`). Neither loop skips archived tasks,
    so `complete_task` can complete an archived task.
  - `update_task` with a non-empty due text that no rule recognises calls `.isoformat()` on
    `None` (src/tracker.py:283). That raises before the list is saved. The model returns
    `InvalidDue` and leaves the list unchanged.
  - "this <weekday>" never gives a past day, although the comment at src/parser.py:119 says it
    could. The code adds 7 when the day is already behind (src/parser.py:120-121), so the result
    lies 0 to 6 days ahead (`ParserProperties.DayNameResolves`).
  - The summary ranks an unknown priority with "low" (src/tracker.py:351-353). The list ranks it
    after "low" (src/tracker.py:168-171).

## Model

| member | source | states |
|---|---|---|
| `Text.Lower` | src/parser.py:34 | same length; each character is folded to lower case (ASCII) |
| `Text.Strip` | src/parser.py:34 | the input's infix that starts after its leading whitespace, with only whitespace after it, and neither starts nor ends with whitespace |
| `Text.StripOfTrimmed` | src/parser.py:34 | text with no surrounding whitespace is left alone by strip |
| `Text.LowerOfLowered` | src/parser.py:34 | text with no upper-case letter is its own lower-case form |
| `Text.LeadingDigits` | src/parser.py:56 | the length of the greedy `\d+` run: all digits, followed by a non-digit or the end |
| `Text.LeadingDigitsOfConcat` | src/parser.py:56 | the greedy run stops exactly where a digit string meets a non-digit |
| `Text.PadDigits` | src/tracker.py:82 | the zero-padded field of an ISO date has the exact width, is all digits, and reads back as the number |
| `Text.Decimal` | src/tracker.py:370 | `str(n)` is a non-empty digit string that reads back as `n`, with no leading zero |
| `Text.ContainsInfix` | src/tracker.py:215 | a string contains each of its slices |
| `Text.ContainsTransitive` | src/tracker.py:405 | a needle in a part of a string is in the string |
| `Text.JoinLinesContainsEach` | src/tracker.py:384 | every line occurs in the joined text |
| `Text.JoinLinesNewlines` | src/tracker.py:384 | joining newline-free lines gives exactly one newline fewer than there are lines |
| `Calendar.Weekday` | src/parser.py:69 | `weekday()` lies in 0..6 |
| `Calendar.WeekdayShift` | src/parser.py:72 | moving `k` days moves the weekday `k` steps round the week |
| `Calendar.FromOrdinal` | src/parser.py:90 | the date of each day number is a valid calendar date with that number |
| `Calendar.ToFromOrdinal` | src/parser.py:41 | converting a valid date to its number and back gives the same date |
| `Calendar.ToOrdinalInjective` | src/parser.py:41 | distinct valid dates have distinct numbers |
| `Calendar.ToOrdinal` | src/parser.py:41 | the day number of a (year, month, day) date, counted from 0001-01-01 as `toordinal()` does; `Calendar.ToFromOrdinal` and `Calendar.ToOrdinalInjective` are its promises |
| `Parser.ScanWeekdays` | src/parser.py:97-109 | returns the first entry of the weekday table, in dictionary order, whose key occurs in the text; none exactly when no key occurs |
| `Parser.WeekdayNamesWellFormed` | src/parser.py:97-105 | every table key is a non-empty word of lower-case letters naming a weekday 0..6 |
| `Parser.Normalise` | src/parser.py:34 | the lower-cased, stripped text: no upper-case letter, no whitespace at either end, never longer than the input |
| `Parser.DayOffset` | src/parser.py:111-127 | the offset lands on the named weekday; for weekdays 0..6 it is 8 to 14 with "next", 0 to 6 with "this", 1 to 7 bare |
| `Parser.FirstOfNextMonth` | src/parser.py:86-89 | a valid first of a month, in today's year or the next |
| `Parser.Classify` | src/parser.py:38-130 | a phrase it names is well formed: an ISO result is a real calendar date (which rule wins is stated by the `ParserProperties.Interpret...` lemmas) |
| `Parser.Resolve` | src/parser.py:46-130 | dates every recognised phrase; only an unrecognised phrase gives none |
| `Parser.ParseDueDate` | src/parser.py:34-130 | none exactly when no rule recognises the normalised text |
| `Parser.Interpret` | src/parser.py:38-130 | none exactly when no rule recognises the text |
| `Parser.LowerAll` | src/parser.py:160 | the lower-cased tags, one for one |
| `Parser.InferPriority` | src/parser.py:159-202 | always one of the three tiers; `ParserProperties.HighExactly` and `ParserProperties.LowExactly` state when each tier results |
| `ParserProperties.NextWeekIsNextMonday` | src/parser.py:68-72 | "next week" is a Monday 1 to 7 days ahead, never today |
| `ParserProperties.EndOfWeekIsComingFriday` | src/parser.py:75-81 | "end of week" is a Friday 0 to 6 days ahead, and is today exactly when today is a Friday |
| `ParserProperties.LastOfMonth` | src/parser.py:84-90 | the last day of a date's month is valid, in the same month, and not before the date |
| `ParserProperties.LastDayPrecedesNextFirst` | src/parser.py:86-90 | the last day of a date's month and the first of the next month (January of the next year after December) are valid, consecutive days, and the date is not after that last day |
| `ParserProperties.DayAfterLastIsFirst` | src/parser.py:90 | the day after the last of a month is the 1st |
| `ParserProperties.FromOrdinalOf` | src/parser.py:90 | a day number names exactly the valid date it was made from |
| `ParserProperties.EndOfMonthOrdinal` | src/parser.py:84-90 | "end of month" is the number of the last day of today's month |
| `ParserProperties.EndOfMonthIsLastDay` | src/parser.py:84-90 | "end of month" is today's month's last day: same year and month, the month's length as the day, followed by a 1st, not before today |
| `ParserProperties.DayNameResolves` | src/parser.py:108-127 | a weekday phrase lands on the named weekday: 8-14 days ahead with "next", 0-6 with "this", 1-7 bare |
| `ParserProperties.NormaliseIdempotent` | src/parser.py:34 | normalising twice is normalising once |
| `ParserProperties.CaseAndPaddingIgnored` | src/parser.py:34 | case and surrounding whitespace never change the parsed date |
| `ParserProperties.NormalOfPlain` | src/parser.py:34 | trimmed lower-case text is already normal |
| `ParserProperties.NoWeekdayInNumerals` | src/parser.py:108-109 | text of digits and dashes holds no weekday name |
| `ParserProperties.ParseIso` | src/parser.py:38-43 | an ISO-shaped text gives the date it spells when `fromisoformat` accepts it, and none otherwise, since every later rule needs letters |
| `ParserProperties.ClassifyNumerals` | src/parser.py:38-43 | text of digits and dashes is an ISO date if it has that shape and a real date, otherwise unrecognised |
| `ParserProperties.IsoText` | src/tracker.py:82 | `isoformat` of a date has the ISO shape and its fields read back |
| `ParserProperties.IsoRoundTrip` | src/parser.py:38-41 | parsing the ISO text of a valid date returns that date |
| `ParserProperties.StoredDueRoundTrip` | src/tracker.py:82 | a stored due date round-trips through its ISO text and the parser |
| `ParserProperties.NotIsoIfLetterFirst` | src/parser.py:38 | text starting with a letter is not ISO-shaped |
| `ParserProperties.CountBeforeOf` | src/parser.py:56 | a count followed by the unit word reads as its digits' value; any other word gives none |
| `ParserProperties.CountsAfterIn` | src/parser.py:56-65 | after "in ", the day and week rules read the count before " day" and " week" |
| `ParserProperties.InDaysCountOf` | src/parser.py:56-58 | "in N day..." gives the count N |
| `ParserProperties.WeeksNotDays` | src/parser.py:56-65 | a count followed by " week" is not a day count but is a week count |
| `ParserProperties.InWeeksCountOf` | src/parser.py:56-65 | "in N week..." passes over the day rule and gives the week count N |
| `ParserProperties.NoCountRule` | src/parser.py:56-65 | text not starting with "i" matches neither count rule |
| `ParserProperties.InAWeekCountOf` | src/parser.py:62-64 | "in a week..." gives a week count of 1 |
| `ParserProperties.ClassifyDayCount` | src/parser.py:56-59 | a day count classifies as "in N days" |
| `ParserProperties.ClassifyWeekCount` | src/parser.py:62-65 | failing that, a week count classifies as "in N weeks" |
| `ParserProperties.InterpretRelativeWords` | src/parser.py:46-53 | "today", "end of day" and "eod" give today; "tomorrow" gives today + 1; "yesterday" gives today - 1 |
| `ParserProperties.InterpretDayCount` | src/parser.py:56-59 | "in N days" gives today + N |
| `ParserProperties.InterpretWeekCount` | src/parser.py:62-65 | "in N weeks" gives today + 7N |
| `ParserProperties.InterpretNextWeek` | src/parser.py:68-72 | "next week" gives a Monday 1 to 7 days ahead |
| `ParserProperties.InterpretEndOfWeek` | src/parser.py:75-81 | "end of week" and "eow" give the coming Friday, today on a Friday |
| `ParserProperties.ClassifyEndOfMonth` | src/parser.py:84 | "end of month" and "eom" classify as end of month |
| `ParserProperties.InterpretEndOfMonth` | src/parser.py:84-90 | "end of month" and "eom" give the last day of today's month |
| `ParserProperties.InterpretWeekday` | src/parser.py:97-127 | the first table key found decides the weekday; "next", else "this", else nothing, decides how far ahead it lies |
| `ParserProperties.HighKeywordInTitle` | src/parser.py:164-171 | an urgency keyword in the lower-cased title makes the priority high |
| `ParserProperties.HighKeywordAsTag` | src/parser.py:169-173 | a tag equal, once lower-cased, to an urgency keyword makes it high |
| `ParserProperties.DueNowIsHigh` | src/parser.py:176-182 | a due date today or in the past makes it high |
| `ParserProperties.DueThisWeekIsMedium` | src/parser.py:176-186 | a due date 1 to 7 days ahead makes it medium unless an urgency keyword makes it high |
| `ParserProperties.DistantDueIgnored` | src/parser.py:176-186 | a due date more than 7 days ahead counts as no due date |
| `ParserProperties.HighExactly` | src/parser.py:164-182 | the priority is high exactly when an urgency keyword is in the title or the tags, or the due date is today or earlier |
| `ParserProperties.MediumKeywordInTitle` | src/parser.py:188-193 | with no urgency signal and no due date up to today, a medium keyword in the title gives medium |
| `ParserProperties.WorkTagIsMedium` | src/parser.py:195-199 | with no urgency signal and no due date up to today, a work tag gives medium |
| `ParserProperties.LowExactly` | src/parser.py:159-202 | the priority is low exactly when no urgency keyword, no due date within the week, no medium keyword and no work tag is present |
| `ParserProperties.LowerAllAppend` | src/parser.py:160 | lower-casing tags works piecewise over concatenation |
| `ParserProperties.MoreTagsNeverLower` | src/parser.py:159-202 | adding tags never lowers the priority |
| `ParserProperties.EarlierDueNeverLower` | src/parser.py:176-186 | an earlier due date never gives a lower priority |
| `ParserProperties.DueNeverLowers` | src/parser.py:176-186 | setting a due date never lowers the priority |
| `ParserProperties.PriorityIgnoresCase` | src/parser.py:159-160 | case in the title and the tags never changes the priority |
| `ParserProperties.ShoutedTomorrowNormalised` | src/parser.py:34 | "TOMORROW" normalises to "tomorrow" |
| `ParserProperties.ParseShoutedTomorrow` | src/parser.py:34-50 | "TOMORROW" parses to today + 1 |
| `ParserProperties.UrgentFixBugIsHigh` | src/parser.py:164-171 | "URGENT: Fix bug" is high |
| `ParserProperties.BuyNewBookHasNoUrgencyKeyword` | src/parser.py:164-171 | "Buy new book" holds no urgency keyword |
| `ParserProperties.BuyNewBookHasNoMediumKeyword` | src/parser.py:189-193 | "Buy new book" holds no medium keyword |
| `ParserProperties.BuyNewBookIsLow` | src/parser.py:202 | "Buy new book" with no due date and no tags is low |
| `Tasks.Complete` | src/tracker.py:219-220 | the record becomes completed with stamp `now`; every other field is kept |
| `Tasks.Archive` | src/tracker.py:243 | the record becomes archived; every other field is kept |
| `Tasks.PatchedDue` | src/tracker.py:282-283 | an omitted due keeps the date; an empty one clears it; other text gives its parsed date, or a failure when no rule recognises it |
| `Tasks.ApplyPatch` | src/tracker.py:280-289 | succeeds exactly when the due text is acceptable; the result keeps the id, the status and both stamps |
| `Tasks.NewTask` | src/tracker.py:68-87 | the new record has the given id, title, tags and notes, is pending, is stamped `now`, and has no completion stamp |
| `Tasks.Matches` | src/tracker.py:215 | the token designates the task by exact id or by case-insensitive title substring; used by `Queries.FirstMatch` |
| `Queries.FirstMatch` | src/tracker.py:214-215 | the index of the first task the token designates by id or by case-insensitive title substring; none exactly when no task matches |
| `Queries.IndexOfId` | src/tracker.py:191-192 | the index of the first task with the id; none exactly when no task has it |
| `Queries.Ids` | src/tracker.py:78 | the ids of the list, in order |
| `Queries.IdTokenFindsIdOwner` | src/tracker.py:214-215 | with unique ids and no earlier title mentioning it, a task's id designates that task |
| `Queries.EmptyTokenDesignatesFirst` | src/tracker.py:215 | the empty token occurs in every title, so it designates the first task |
| `Queries.Listed` | src/tracker.py:131-165 | the conjunction of the status, priority, tag and due-date filters; `Store.ListContents` and the `Queries` filter lemmas state its consequences |
| `Queries.Found` | src/tracker.py:401-410 | not archived, and the lower-cased query is in the title, in non-empty notes, or in a tag; `Store.SearchContents` lifts it to the list |
| `Queries.Keep` | src/tracker.py:130-165 | the tasks satisfying a criterion, never more than the input, each one from the input |
| `Queries.KeepSnoc` | src/tracker.py:131-165 | one more task at the end of the input adds it to the selection exactly when it satisfies the criterion |
| `Queries.KeepAppend` | src/tracker.py:131-165 | selecting from two joined lists is joining the two selections |
| `Queries.KeepKeepCommutes` | src/tracker.py:131-165 | filters applied one after the other commute |
| `Queries.DefaultListsPending` | src/tracker.py:97-137 | the default listing admits exactly the pending tasks |
| `Queries.IncludeCompletedOverridesStatus` | src/tracker.py:133-137 | `include_completed` admits exactly the pending and completed tasks, whatever `status` says |
| `Queries.DueTodayAndOverdueExclusive` | src/tracker.py:152-158 | asking for tasks both due today and overdue lists nothing |
| `Queries.OverdueIsDueBefore` | src/tracker.py:156-163 | an overdue task has a due date before any day from today on |
| `Queries.SearchSkipsArchived` | src/tracker.py:402-403 | search never returns an archived task |
| `Queries.SearchIgnoresQueryCase` | src/tracker.py:398 | the query's case never changes what is found |
| `Queries.EmptySearchFindsAllLive` | src/tracker.py:398-409 | the empty query finds exactly the tasks that are not archived |
| `Queries.TitleHitFound` | src/tracker.py:405 | a task not archived whose title holds the query is found |
| `Queries.SummaryBucketsDisjoint` | src/tracker.py:327-348 | no task is both due today and overdue; a completed one is in no pending bucket; a task due today is not in the high-priority bucket |
| `Queries.OverdueHighInBoth` | src/tracker.py:343-348 | an overdue high-priority pending task is in both the overdue and the high-priority bucket |
| `Queries.BucketTests` | src/tracker.py:327-348 | each bucket's criterion is exactly the test the loop makes |
| `Queries.BucketsArePending` | src/tracker.py:335-336 | only pending tasks are due, overdue or high priority |
| `Ordering.ListRank` | src/tracker.py:168-171 | ranks are at most 3, and a priority outside the three tiers ranks 3 |
| `Ordering.SummaryRank` | src/tracker.py:351-353 | ranks are at most 2, and low or unknown priorities rank 2 |
| `Ordering.KeyLeTotal` | src/tracker.py:170-173 | the sort key order is total and antisymmetric |
| `Ordering.KeyLeTransitive` | src/tracker.py:170-173 | the sort key order is transitive |
| `Ordering.WithKey` | src/tracker.py:175 | the tasks of one key, each taken from the input |
| `Ordering.Insert` | src/tracker.py:175 | inserting adds exactly that task |
| `Ordering.SortBy` | src/tracker.py:175 | sorting is a permutation |
| `Ordering.SortBySameMembers` | src/tracker.py:175 | sorting neither adds nor drops a task |
| `Ordering.InsertSorted` | src/tracker.py:175 | inserting into a sorted list keeps it sorted |
| `Ordering.InsertWithKey` | src/tracker.py:175 | insertion puts the task before every task with its key |
| `Ordering.SortByStablySorts` | src/tracker.py:175 | the result is sorted and keeps the input order within each key |
| `Ordering.StableSortUnique` | src/tracker.py:175 | two stable sorts of one list are equal |
| `Ordering.SortedSameKeysEqual` | src/tracker.py:175 | two sorted lists with the same tasks per key, in the same order, are equal |
| `Summary.LineFor` | src/tracker.py:369-379 | a bucket contributes one line when it has tasks, none otherwise |
| `Summary.FormatSummary` | src/tracker.py:365-384 | the four lines joined by newlines, or the quiet-day text; `Summary.QuietDayIffNothing`, `Summary.OneLinePerBucket` and `Summary.BucketsReported` are its promises |
| `Summary.SummaryOf` | src/tracker.py:311-362 | the day's four buckets and their text; `Summary.SummaryBuckets` and `Summary.SummaryBucketsSorted` are its promises |
| `Summary.SummaryLines` | src/tracker.py:367-379 | one line per non-empty bucket |
| `Summary.LinesStartWithEmoji` | src/tracker.py:369-379 | every report line starts with a character above the ASCII range |
| `Summary.QuietDayIffNothing` | src/tracker.py:381-382 | the quiet-day text appears exactly when all four buckets are empty |
| `Summary.LinesHaveNoNewline` | src/tracker.py:369-379 | no report line holds a newline |
| `Summary.ReportLinesHaveNoNewline` | src/tracker.py:369-379 | none of the four line forms holds a newline, whatever the count |
| `Summary.OneLinePerBucket` | src/tracker.py:367-384 | a report has one newline fewer than there are non-empty buckets |
| `Summary.BucketsReported` | src/tracker.py:369-384 | each non-empty bucket's line, with that bucket's size, is part of the text |
| `Summary.OverdueCountReadsBack` | src/tracker.py:370 | the number in the overdue line reads back as the bucket's size |
| `Summary.SummaryBuckets` | src/tracker.py:323-356 | each bucket holds exactly the tasks of its test, and the date is the day asked for |
| `Summary.SummaryBucketsSorted` | src/tracker.py:351-353 | the due-today, overdue and high-priority buckets are stably sorted by rank |
| `Summary.EmptyStoreIsQuiet` | src/tracker.py:381-382 | an empty store has empty buckets and the quiet-day text |
| `Summary.DueTaskIsReported` | src/tracker.py:339-373 | a pending task due on the day puts a "task(s) due today" line into the text |
| `Store.AddedTask` | src/tracker.py:68-93 | the new task goes last and the list is saved; it is pending with the given fields; an empty or absent due gives no date; without an explicit priority the inferred one is stored |
| `Store.AddStep` | src/tracker.py:68-93 | the add transition; `Store.AddedTask` and `Store.AddThenGet` are its promises |
| `Store.GetIn` | src/tracker.py:190-194 | the get lookup; `Store.GetFindsId` is its promise |
| `Store.CompleteStep` | src/tracker.py:211-224 | the complete transition; `Store.CompleteResult`, `Store.CompleteTouchesOnlyMatch` and `Store.CompleteIdempotent` are its promises |
| `Store.DeleteStep` | src/tracker.py:238-251 | the delete transition; `Store.ArchiveKeepsTask`, `Store.RemoveDropsTask` and `Store.DeleteMissingIsNoop` are its promises |
| `Store.UpdateStep` | src/tracker.py:276-294 | the update transition; `Store.UpdateResultCases` and `Store.UpdateIdempotent` are its promises |
| `Store.ListIn` | src/tracker.py:130-177 | the listing; `Store.ListContents` and `Store.ListOrdered` are its promises |
| `Store.SearchIn` | src/tracker.py:397-412 | the search result; `Store.SearchContents` is its promise |
| `Store.AddThenGet` | src/tracker.py:89-93 | a task added under a fresh id is what `get_task` returns for that id |
| `Store.AddKeepsIdsUnique` | src/tracker.py:78-90 | adding under a fresh id keeps the ids unique |
| `Store.AddedIsListed` | src/tracker.py:77-91 | a new task is in the default listing |
| `Store.GetFindsId` | src/tracker.py:190-194 | the task returned has the id asked for; none exactly when no task has it |
| `Store.CompleteResult` | src/tracker.py:211-224 | a designated task comes back completed and stored at its index; with none designated nothing changes or is saved |
| `Store.CompleteTouchesOnlyMatch` | src/tracker.py:214-222 | only the designated task can change; the list is saved exactly when that task was not completed yet; an already completed task is returned as stored with the list unchanged |
| `Store.CompleteKeepsIdsAndMatch` | src/tracker.py:219-220 | completing keeps ids and titles, so every token designates the same index afterwards |
| `Store.MatchesPreserved` | src/tracker.py:215 | lists with the same ids and titles are matched alike |
| `Store.CompleteIdempotent` | src/tracker.py:216-217 | completing again returns the same task, changes nothing and saves nothing |
| `Store.TitleMatchShadowsId` | src/tracker.py:214-215 | an earlier title holding a task's id makes the token match no later than that title |
| `Store.ShadowingExample` | src/tracker.py:214-222 | completing "task_2" completes the task titled "email task_2 notes" ahead of task_2 itself |
| `Store.TitleMentionsId` | src/tracker.py:215 | "task_2" occurs in "email task_2 notes" |
| `Store.ArchiveKeepsTask` | src/tracker.py:242-245 | archiving changes only the designated task's status, saves, and with unique ids `get_task` returns the archived task |
| `Store.RemoveDropsTask` | src/tracker.py:246-249 | deleting for good removes exactly the designated task, returns it, saves, and keeps the others in order |
| `Store.RemoveForgetsId` | src/tracker.py:246-249 | with unique ids the removed task's id is no longer found |
| `Store.DeleteMissingIsNoop` | src/tracker.py:240-251 | without a designated task nothing changes or is saved |
| `Store.PatchFields` | src/tracker.py:280-289 | each field the patch gives is replaced and each it leaves out is kept; the due date is the one the patch asks for |
| `Store.NoChangeIsIdentity` | src/tracker.py:280-289 | a patch giving nothing leaves the task as it was |
| `Store.PatchIdempotent` | src/tracker.py:280-289 | applying the same patch twice on the same day is applying it once |
| `Store.UpdateResultCases` | src/tracker.py:276-294 | not found exactly when no task has the id; otherwise only that task changes and the list is saved, unless the due text is unrecognised, when nothing changes |
| `Store.UpdateKeepsIds` | src/tracker.py:278-289 | an update keeps the list's ids |
| `Store.UpdateIdempotent` | src/tracker.py:276-294 | updating twice with the same patch on the same day leaves the list as once |
| `Store.ListContents` | src/tracker.py:130-177 | exactly the tasks the filters admit, each as often as stored, stably sorted by rank then due date |
| `Store.ListOrdered` | src/tracker.py:167-175 | earlier in a listing means no lower priority, and within a priority no later due date, undated tasks last |
| `Store.SearchContents` | src/tracker.py:397-412 | exactly the matching tasks that are not archived, never more than stored |
| `Tracker.TaskStore.constructor` | src/tracker.py:27-31 | a tracker without a data file starts with no tasks |
| `Tracker.TaskStore.AddTask` | src/tracker.py:68-93 | the new state and the returned task are those of the add transition; one write-back |
| `Tracker.TaskStore.GetTask` | src/tracker.py:190-194 | returns the first task with the id, none when there is none |
| `Tracker.TaskStore.CompleteTask` | src/tracker.py:211-224 | the new state and result are those of the complete transition; one write-back exactly when it saves |
| `Tracker.TaskStore.DeleteTask` | src/tracker.py:238-251 | the new state and result are those of the delete transition; one write-back exactly when it saves |
| `Tracker.TaskStore.UpdateTask` | src/tracker.py:276-294 | the new state and result are those of the update transition; one write-back exactly when it saves |
| `Tracker.TaskStore.ListTasks` | src/tracker.py:126-177 | returns the listing: filtered in store order, then stably sorted |
| `Tracker.TaskStore.SearchTasks` | src/tracker.py:397-412 | returns the found tasks in store order |
| `Tracker.TaskStore.DailySummary` | src/tracker.py:311-362 | returns the summary of the stored tasks for the day |

## Left out

- JSON persistence: `_load_tasks`, `_save_tasks` and the data directory. The list is a field, and a ghost counter records each write-back.
- `src/server.py`, the HTTP layer, is not part of this model. That includes its empty-title check.
- The clock, `date.today()` and `uuid.uuid4()` become parameters: `today`, `now` and the new task's `id`.
- Timestamps are an `Instant` of a day number and a time of day, not ISO text with a "Z" suffix. Only the day is ever read back.
- `list_tasks`'s `due_before` and `daily_summary`'s `target_date` are taken as already-parsed dates. The `ValueError` that `fromisoformat` raises on bad text there is not modelled.
- Stored due dates are kept as day numbers, not ISO strings. `ParserProperties.StoredDueRoundTrip` shows the two forms carry the same date for years 1 to 9999.
- The list sort compares due dates as dates. Missing dates are placed last, which is what the source's "9999-99-99" sentinel does to ISO strings.
- Python integers and dates are unbounded here. The `date` range limit and its `OverflowError` are not modelled.
- Text.Lower: folds ASCII letters only, not Unicode case. Likewise `\d` means the ASCII digits.
- A stored priority `Other(label)` stands for a label outside the three tiers only; `Other("high")`, `Other("medium")` and `Other("low")` are never built, as the three tiers have their own constructors.
- `tags=None` is modelled as the empty tag list, which is what `tags or []` stores.
- A stored priority outside the three tiers is `Other(label)`. The list and summary sorts rank it as the source does. A priority filter equal to the empty label is treated as off, as the source's truthiness test does.
- `dict`s shared between the loaded list and the returned value are not modelled as aliases. The returned task is a value equal to the stored one.

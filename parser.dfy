/** Natural-language due dates and priority inference (src/parser.py).
    "Today" is a parameter: the source reads it from the clock. */
module Parser {
  import opened Wrappers
  import opened Text
  import opened Calendar

  // ---------------------------------------------------------------------------------------
  // parse_due_date
  // ---------------------------------------------------------------------------------------

  /** What a weekday phrase says beside the day's name. */
  datatype Modifier = Next | This | Bare

  /** What a normalised phrase means, according to the first rule of the cascade it satisfies. */
  datatype Phrase =
    | IsoDate(date: CivilDate)
    | Today
    | Tomorrow
    | Yesterday
    | InDays(days: nat)
    | InWeeks(weeks: nat)
    | NextWeek
    | EndOfWeek
    | EndOfMonth
    | EndOfDay
    | DayName(weekday: int, modifier: Modifier)
    | Unrecognised
  {
    /** An ISO phrase carries a real calendar date. */
    predicate Valid() {
      IsoDate? ==> date.Valid()
    }
  }

  /** The input is lower-cased, then stripped of surrounding whitespace. */
  function Normalise(raw: string): (t: string)
    ensures IsLowered(t)
    ensures t == [] || (!IsSpace(t[0]) && !IsSpace(t[|t| - 1]))
    ensures |t| <= |raw|
  {
    var l := Lower(raw);
    var t := Strip(l);
    assert forall i :: 0 <= i < |t| ==> t[i] == l[LeadingSpaces(l) + i];
    t
  }

  /** `re.match(r"^\d{4}-\d{2}-\d{2}$", t)`. */
  predicate IsIsoShape(t: string) {
    |t| == 10 && t[4] == '-' && t[7] == '-'
    && AllDigits(t[..4]) && AllDigits(t[5..7]) && AllDigits(t[8..])
  }

  /** The year, month and day fields of an ISO-shaped string, as written. */
  function IsoFields(t: string): CivilDate
    requires IsIsoShape(t)
  {
    CivilDate(DigitsValue(t[..4]), DigitsValue(t[5..7]), DigitsValue(t[8..]))
  }

  /** `date.fromisoformat` accepts the fields: a real month and day, and a year from 1
      (four digits cannot exceed 9999). Year 0000 and days such as February 30 are refused. */
  predicate IsoAccepts(c: CivilDate) {
    1 <= c.year && c.Valid()
  }

  /** A greedy `(\d+)` at the start of `u` followed by `word`: the count it matched. */
  function CountBefore(u: string, word: string): Option<nat> {
    var n := LeadingDigits(u);
    if n > 0 && StartsWith(u[n..], word) then Some(DigitsValue(u[..n])) else None
  }

  /** `re.match(r"in (\d+) days?", t)`, anchored at the start only: the matched count. */
  function InDaysCount(t: string): Option<nat> {
    if StartsWith(t, "in ") then CountBefore(t[3..], " day") else None
  }

  /** `re.match(r"in (?:a|(\d+)) weeks?", t)`: the matched count, 1 for "a". */
  function InWeeksCount(t: string): Option<nat> {
    if StartsWith(t, "in a week") then Some(1)
    else if StartsWith(t, "in ") then CountBefore(t[3..], " week")
    else None
  }

  /** The weekday table, in the enumeration order of the source's dictionary. */
  const WeekdayNames: seq<(string, int)> := [
    ("monday", 0), ("mon", 0),
    ("tuesday", 1), ("tue", 1), ("tues", 1),
    ("wednesday", 2), ("wed", 2),
    ("thursday", 3), ("thu", 3), ("thur", 3), ("thurs", 3),
    ("friday", 4), ("fri", 4),
    ("saturday", 5), ("sat", 5),
    ("sunday", 6), ("sun", 6)
  ]

  /** Every key of the table is a word of lower-case letters naming a day 0..6. */
  lemma WeekdayNamesWellFormed()
    ensures forall k :: 0 <= k < |WeekdayNames| ==>
      |WeekdayNames[k].0| > 0 && IsLetterWord(WeekdayNames[k].0) && 0 <= WeekdayNames[k].1 < 7
  {
  }

  /** A word of lower-case ASCII letters only. */
  predicate IsLetterWord(w: string) {
    forall i :: 0 <= i < |w| ==> 'a' <= w[i] <= 'z'
  }

  /** The index of the first table entry, from `k` on, whose key occurs in `t`. */
  function ScanWeekdays(t: string, k: nat): (r: Option<nat>)
    requires k <= |WeekdayNames|
    ensures r.Some? ==> k <= r.value < |WeekdayNames| && Contains(t, WeekdayNames[r.value].0)
    ensures r.Some? ==> forall j :: k <= j < r.value ==> !Contains(t, WeekdayNames[j].0)
    ensures r.None? ==> forall j :: k <= j < |WeekdayNames| ==> !Contains(t, WeekdayNames[j].0)
    decreases |WeekdayNames| - k
  {
    if k == |WeekdayNames| then None
    else if Contains(t, WeekdayNames[k].0) then Some(k)
    else ScanWeekdays(t, k + 1)
  }

  function ModifierOf(t: string): Modifier {
    if Contains(t, "next") then Next else if Contains(t, "this") then This else Bare
  }

  /** The cascade of `parse_due_date`, on the normalised text: the first rule that applies. */
  function Classify(t: string): (p: Phrase)
    ensures p.Valid()
  {
    if IsIsoShape(t) && IsoAccepts(IsoFields(t)) then IsoDate(IsoFields(t))
    else if t == "today" then Today
    else if t == "tomorrow" then Tomorrow
    else if t == "yesterday" then Yesterday
    else if InDaysCount(t).Some? then InDays(InDaysCount(t).value)
    else if InWeeksCount(t).Some? then InWeeks(InWeeksCount(t).value)
    else if t == "next week" then NextWeek
    else if t == "end of week" || t == "eow" then EndOfWeek
    else if t == "end of month" || t == "eom" then EndOfMonth
    else if t == "end of day" || t == "eod" then EndOfDay
    else
      match ScanWeekdays(t, 0)
      case Some(k) => DayName(WeekdayNames[k].1, ModifierOf(t))
      case None => Unrecognised
  }

  /** Days from a day with weekday `today` to the named weekday `day`. */
  function DayOffset(day: int, today: int, m: Modifier): (r: int)
    ensures (today + r - day) % 7 == 0
    ensures 0 <= day < 7 && 0 <= today < 7 ==>
      && (m == Next ==> 8 <= r <= 14)
      && (m == This ==> 0 <= r <= 6)
      && (m == Bare ==> 1 <= r <= 7)
  {
    var ahead := day - today;
    match m
    case Next => (if ahead <= 0 then ahead + 7 else ahead) + 7
    case This => if ahead < 0 then ahead + 7 else ahead
    case Bare => if ahead <= 0 then ahead + 7 else ahead
  }

  /** The first day of the month after the one holding `d`. */
  function FirstOfNextMonth(d: Date): (c: CivilDate)
    ensures c.Valid() && c.day == 1
    ensures c.year == FromOrdinal(d).year || c.year == FromOrdinal(d).year + 1
  {
    var c := FromOrdinal(d);
    if c.month == 12 then CivilDate(c.year + 1, 1, 1) else CivilDate(c.year, c.month + 1, 1)
  }

  /** The date a phrase denotes relative to `today`. Python's `%` floors, which for the
      positive modulus 7 agrees with Dafny's Euclidean `%`. */
  function Resolve(p: Phrase, today: Date): (r: Option<Date>)
    requires p.Valid()
    ensures r.None? <==> p.Unrecognised?
  {
    match p
    case IsoDate(c) => Some(ToOrdinal(c))
    case Today => Some(today)
    case Tomorrow => Some(today + 1)
    case Yesterday => Some(today - 1)
    case InDays(n) => Some(today + n)
    case InWeeks(n) => Some(today + 7 * n)
    case NextWeek =>
      var untilMonday := (7 - Weekday(today)) % 7;
      Some(today + (if untilMonday == 0 then 7 else untilMonday))
    case EndOfWeek =>
      var untilFriday := (4 - Weekday(today)) % 7;
      if untilFriday == 0 && Weekday(today) == 4 then Some(today)
      else Some(today + (if untilFriday <= 0 then untilFriday + 7 else untilFriday))
    case EndOfMonth => Some(ToOrdinal(FirstOfNextMonth(today)) - 1)
    case EndOfDay => Some(today)
    case DayName(w, m) => Some(today + DayOffset(w, Weekday(today), m))
    case Unrecognised => None
  }

  /** `parse_due_date(raw)` on the day `today`. */
  function ParseDueDate(raw: string, today: Date): (r: Option<Date>)
    ensures r.None? <==> Classify(Normalise(raw)) == Unrecognised
  {
    Interpret(Normalise(raw), today)
  }

  /** The date the normalised text `t` denotes on the day `today`, if any. */
  function Interpret(t: string, today: Date): (r: Option<Date>)
    ensures r.None? <==> Classify(t) == Unrecognised
  {
    Resolve(Classify(t), today)
  }

  // ---------------------------------------------------------------------------------------
  // infer_priority
  // ---------------------------------------------------------------------------------------

  /** A task's priority. The three tiers are the only values the core produces; `Other` is any
      other label a caller stored (the HTTP layer passes the request's value through). */
  datatype Priority = High | Medium | Low | Other(name: string)

  const HighKeywords: seq<string> :=
    ["urgent", "asap", "critical", "emergency", "important", "deadline", "must", "blocker", "p0", "p1"]

  const MediumKeywords: seq<string> := ["soon", "this week", "review", "follow up", "check"]

  const WorkTags: seq<string> := ["work", "job", "meeting", "project"]

  /** Some word of `words` occurs in `text`. */
  predicate MentionsAny(text: string, words: seq<string>) {
    exists k :: 0 <= k < |words| && Contains(text, words[k])
  }

  /** Some word of `words` equals some label of `labels`. */
  predicate IncludesAny(labels: seq<string>, words: seq<string>) {
    exists k :: 0 <= k < |words| && words[k] in labels
  }

  /** `[t.lower() for t in tags]`. */
  function LowerAll(tags: seq<string>): (r: seq<string>)
    ensures |r| == |tags| && forall i :: 0 <= i < |tags| ==> r[i] == Lower(tags[i])
  {
    seq(|tags|, i requires 0 <= i < |tags| => Lower(tags[i]))
  }

  /** `infer_priority(title, due, tags)` on the day `today` (`tags=None` is the empty list). */
  function InferPriority(title: string, due: Option<Date>, tags: seq<string>, today: Date): (p: Priority)
    ensures p == High || p == Medium || p == Low
  {
    var titleLower := Lower(title);
    var tagsLower := LowerAll(tags);
    if MentionsAny(titleLower, HighKeywords) || IncludesAny(tagsLower, HighKeywords) then High
    else if due.Some? && due.value - today < 0 then High     // overdue
    else if due.Some? && due.value - today == 0 then High    // due today
    else if due.Some? && due.value - today <= 2 then Medium  // due very soon
    else if due.Some? && due.value - today <= 7 then Medium  // due this week
    else if MentionsAny(titleLower, MediumKeywords) then Medium
    else if IncludesAny(tagsLower, WorkTags) then Medium
    else Low
  }
}

/** What `parse_due_date` and `infer_priority` promise, proved about the model in Parser. */
module ParserProperties {
  import opened Wrappers
  import opened Text
  import opened Calendar
  import opened Parser

  // ---------------------------------------------------------------------------------------
  // The date arithmetic of each rule
  // ---------------------------------------------------------------------------------------

  /** "next week" is the first Monday strictly after today: one to seven days ahead. */
  lemma NextWeekIsNextMonday(today: Date)
    ensures var r := Resolve(NextWeek, today).value;
      Weekday(r) == 0 && today < r <= today + 7
  {
    var r := Resolve(NextWeek, today).value;
    WeekdayShift(today, r - today);
  }

  /** "end of week" is a Friday zero to six days ahead; it is today exactly when today is a Friday. */
  lemma EndOfWeekIsComingFriday(today: Date)
    ensures var r := Resolve(EndOfWeek, today).value;
      Weekday(r) == 4 && today <= r <= today + 6 && (r == today <==> Weekday(today) == 4)
  {
    var r := Resolve(EndOfWeek, today).value;
    WeekdayShift(today, r - today);
  }

  /** The last day of a valid date's month is a valid date, followed by the first of the next month. */
  lemma LastDayPrecedesNextFirst(c: CivilDate)
    requires c.Valid()
    ensures var last := CivilDate(c.year, c.month, DaysInMonth(c.year, c.month));
      var first := if c.month == 12 then CivilDate(c.year + 1, 1, 1) else CivilDate(c.year, c.month + 1, 1);
      last.Valid() && first.Valid() && ToOrdinal(last) + 1 == ToOrdinal(first) && ToOrdinal(c) <= ToOrdinal(last)
  {
    MonthStep(c.year, c.month);
    if c.month == 12 {
      YearStep(c.year);
    }
  }

  /** The last day of the month `c` falls in. */
  function LastOfMonth(c: CivilDate): (last: CivilDate)
    requires c.Valid()
    ensures last.Valid() && last.year == c.year && last.month == c.month && c.day <= last.day
  {
    CivilDate(c.year, c.month, DaysInMonth(c.year, c.month))
  }

  /** The day after a month's last day is the first of a month. */
  lemma DayAfterLastIsFirst(c: CivilDate)
    requires c.Valid()
    ensures FromOrdinal(ToOrdinal(LastOfMonth(c)) + 1).day == 1
  {
    var n := ToOrdinal(LastOfMonth(c)) + 1;
    LastDayPrecedesNextFirst(c);
    if c.month == 12 {
      FromOrdinalOf(CivilDate(c.year + 1, 1, 1), n);
    } else {
      FromOrdinalOf(CivilDate(c.year, c.month + 1, 1), n);
    }
  }

  /** A valid date is the one its own day number converts back to. */
  lemma FromOrdinalOf(c: CivilDate, n: Date)
    requires c.Valid() && ToOrdinal(c) == n
    ensures FromOrdinal(n) == c
  {
    ToFromOrdinal(c);
  }

  /** "end of month" resolves to the day number of the last day of today's month. */
  lemma EndOfMonthOrdinal(today: Date)
    ensures Resolve(EndOfMonth, today).value == ToOrdinal(LastOfMonth(FromOrdinal(today)))
  {
    var c := FromOrdinal(today);
    var first := FirstOfNextMonth(today);
    assert first == if c.month == 12 then CivilDate(c.year + 1, 1, 1) else CivilDate(c.year, c.month + 1, 1);
    LastDayPrecedesNextFirst(c);
    assert Resolve(EndOfMonth, today).value == ToOrdinal(first) - 1;
  }

  /** "end of month" is the last day of today's month: the same year and month, its day the
      month's length, and the day after it a first of the month (December rolls into January). */
  lemma EndOfMonthIsLastDay(today: Date)
    ensures var r := Resolve(EndOfMonth, today).value;
      var c := FromOrdinal(today);
      FromOrdinal(r) == CivilDate(c.year, c.month, DaysInMonth(c.year, c.month))
      && FromOrdinal(r + 1).day == 1
      && today <= r
  {
    var c := FromOrdinal(today);
    EndOfMonthOrdinal(today);
    ToFromOrdinal(LastOfMonth(c));
    DayAfterLastIsFirst(c);
    LastDayPrecedesNextFirst(c);
  }

  /** A weekday phrase lands on the named weekday: 8 to 14 days ahead with "next", 0 to 6 with
      "this" (never in the past), and 1 to 7 for the bare name. */
  lemma DayNameResolves(w: int, m: Modifier, today: Date)
    requires 0 <= w < 7
    ensures var r := Resolve(DayName(w, m), today).value;
      Weekday(r) == w
      && (m == Next ==> today + 8 <= r <= today + 14)
      && (m == This ==> today <= r <= today + 6)
      && (m == Bare ==> today + 1 <= r <= today + 7)
  {
    var r := Resolve(DayName(w, m), today).value;
    WeekdayShift(today, r - today);
  }

  // ---------------------------------------------------------------------------------------
  // Normalisation
  // ---------------------------------------------------------------------------------------

  /** Normalising twice is normalising once. */
  lemma NormaliseIdempotent(raw: string)
    ensures Normalise(Normalise(raw)) == Normalise(raw)
  {
    var s := Normalise(raw);
    LowerIsLowered(raw);
    assert IsLowered(s) by {
      forall i | 0 <= i < |s| ensures !IsUpper(s[i]) {
        assert s[i] in Lower(raw);
      }
    }
    LowerOfLowered(s);
    StripOfTrimmed(s);
  }

  /** Case and surrounding whitespace do not matter: the phrase is read after normalising. */
  lemma CaseAndPaddingIgnored(raw: string, today: Date)
    ensures ParseDueDate(raw, today) == ParseDueDate(Normalise(raw), today)
  {
    NormaliseIdempotent(raw);
  }

  /** Text made only of lower-case-free characters, neither starting nor ending with whitespace,
      is already normal. */
  lemma NormalOfPlain(t: string)
    requires IsLowered(t)
    requires t == [] || (!IsSpace(t[0]) && !IsSpace(t[|t| - 1]))
    ensures Normalise(t) == t
  {
    LowerOfLowered(t);
    StripOfTrimmed(t);
  }

  // ---------------------------------------------------------------------------------------
  // ISO dates
  // ---------------------------------------------------------------------------------------

  /** No weekday name occurs in a string of digits and dashes. */
  lemma NoWeekdayInNumerals(t: string)
    requires forall i :: 0 <= i < |t| ==> IsDigit(t[i]) || t[i] == '-'
    ensures ScanWeekdays(t, 0).None?
  {
    WeekdayNamesWellFormed();
    forall k | 0 <= k < |WeekdayNames|
      ensures !Contains(t, WeekdayNames[k].0)
    {
      NotContainedByFirstChar(t, WeekdayNames[k].0);
    }
  }

  /** A `YYYY-MM-DD` string is exactly the date it spells when that date exists (year 1 on),
      and no date at all otherwise: every later rule needs letters. */
  lemma ParseIso(raw: string, today: Date)
    requires IsIsoShape(Normalise(raw))
    ensures var f := IsoFields(Normalise(raw));
      ParseDueDate(raw, today) == if IsoAccepts(f) then Some(ToOrdinal(f)) else None
  {
    var t := Normalise(raw);
    forall i | 0 <= i < |t|
      ensures IsDigit(t[i]) || t[i] == '-'
    {
      if i < 4 {
        assert t[..4][i] == t[i];
      } else if 5 <= i < 7 {
        assert t[5..7][i - 5] == t[i];
      } else if 8 <= i {
        assert t[8..][i - 8] == t[i];
      }
    }
    ClassifyNumerals(t);
  }

  /** For a string of digits and dashes only the ISO rule can apply. */
  lemma ClassifyNumerals(t: string)
    requires |t| > 0
    requires forall i :: 0 <= i < |t| ==> IsDigit(t[i]) || t[i] == '-'
    ensures Classify(t) == if IsIsoShape(t) && IsoAccepts(IsoFields(t)) then IsoDate(IsoFields(t)) else Unrecognised
  {
    NoWeekdayInNumerals(t);
    var c := t[0];
    assert IsDigit(c) || c == '-';
    assert !StartsWith(t, "in ") && !StartsWith(t, "in a week") by {
      if |t| >= 3 {
        assert t[..3][0] == c;
      }
    }
    assert t != "today" && t != "tomorrow" && t != "yesterday" && t != "next week";
    assert t != "end of week" && t != "eow" && t != "end of month" && t != "eom";
    assert t != "end of day" && t != "eod";
    assert InDaysCount(t).None? && InWeeksCount(t).None?;
  }

  /** `date.isoformat()`: four-digit year, two-digit month and day, dash-separated. */
  function IsoText(c: CivilDate): (s: string)
    requires 0 <= c.year <= 9999 && 1 <= c.month <= 12 && 1 <= c.day <= 31
    ensures IsIsoShape(s) && IsoFields(s) == c
  {
    var s := PadDigits(c.year, 4) + "-" + PadDigits(c.month, 2) + "-" + PadDigits(c.day, 2);
    assert s[..4] == PadDigits(c.year, 4);
    assert s[5..7] == PadDigits(c.month, 2);
    assert s[8..] == PadDigits(c.day, 2);
    s
  }

  /** Writing a date in ISO form and parsing it back gives the same day, for Python's years. */
  lemma IsoRoundTrip(c: CivilDate, today: Date)
    requires c.Valid() && 1 <= c.year <= 9999
    ensures ParseDueDate(IsoText(c), today) == Some(ToOrdinal(c))
  {
    var s := IsoText(c);
    assert IsLowered(s) by {
      forall i | 0 <= i < |s| ensures !IsUpper(s[i]) {
        if i != 4 && i != 7 {
          if i < 4 { assert s[..4][i] == s[i]; }
          else if i < 7 { assert s[5..7][i - 5] == s[i]; }
          else { assert s[8..][i - 8] == s[i]; }
        }
      }
    }
    assert IsDigit(s[..4][0]) && IsDigit(s[8..][1]);
    NormalOfPlain(s);
    ParseIso(s, today);
  }

  /** A stored due date survives the text round trip through `isoformat` and `fromisoformat`. */
  lemma StoredDueRoundTrip(d: Date, today: Date)
    requires 1 <= FromOrdinal(d).year <= 9999
    ensures ParseDueDate(IsoText(FromOrdinal(d)), today) == Some(d)
  {
    IsoRoundTrip(FromOrdinal(d), today);
  }

  // ---------------------------------------------------------------------------------------
  // The word rules
  // ---------------------------------------------------------------------------------------

  /** A phrase that starts with a letter is not an ISO date. */
  lemma NotIsoIfLetterFirst(t: string)
    requires |t| > 0 && 'a' <= t[0] <= 'z'
    ensures !IsIsoShape(t)
  {
    if |t| == 10 {
      assert t[..4][0] == t[0];
    }
  }

  /** A digit run followed by a non-digit is read whole, and the count stands exactly when
      the word follows it. */
  lemma CountBeforeOf(digits: string, rest: string, word: string)
    requires |digits| > 0 && AllDigits(digits) && (rest == [] || !IsDigit(rest[0]))
    ensures CountBefore(digits + rest, word) ==
      if StartsWith(rest, word) then Some(DigitsValue(digits)) else None
  {
    LeadingDigitsOfConcat(digits, rest);
    var u := digits + rest;
    assert u[|digits|..] == rest;
    assert u[..|digits|] == digits;
  }

  /** A digit after "in " rules out "in a week", leaving both rules to read the count. */
  lemma CountsAfterIn(u: string)
    requires |u| > 0 && IsDigit(u[0])
    ensures InDaysCount("in " + u) == CountBefore(u, " day")
    ensures InWeeksCount("in " + u) == CountBefore(u, " week")
  {
    var t := "in " + u;
    assert t[..3] == "in ";
    assert t[3..] == u;
    if |t| >= 9 {
      assert t[..9][3] == u[0];
    }
  }

  /** The count an `in N day(s)` prefix carries. */
  lemma InDaysCountOf(t: string, digits: string, rest: string)
    requires |digits| > 0 && AllDigits(digits) && StartsWith(rest, " day")
    requires t == "in " + (digits + rest)
    ensures InDaysCount(t) == Some(DigitsValue(digits))
  {
    CountBeforeOf(digits, rest, " day");
    CountsAfterIn(digits + rest);
  }

  /** A week count is no day count. */
  lemma WeeksNotDays(digits: string, rest: string)
    requires |digits| > 0 && AllDigits(digits) && StartsWith(rest, " week")
    ensures CountBefore(digits + rest, " day").None?
    ensures CountBefore(digits + rest, " week") == Some(DigitsValue(digits))
  {
    assert !StartsWith(rest, " day") by {
      assert rest[..4][1] == 'w';
    }
    CountBeforeOf(digits, rest, " day");
    CountBeforeOf(digits, rest, " week");
  }

  /** The count an `in N week(s)` prefix carries, which the day rule does not take. */
  lemma InWeeksCountOf(t: string, digits: string, rest: string)
    requires |digits| > 0 && AllDigits(digits) && StartsWith(rest, " week")
    requires t == "in " + (digits + rest)
    ensures InDaysCount(t).None? && InWeeksCount(t) == Some(DigitsValue(digits))
  {
    CountsAfterIn(digits + rest);
    WeeksNotDays(digits, rest);
  }

  /** Text that does not start with 'i' matches neither count rule. */
  lemma NoCountRule(t: string)
    requires |t| > 0 && t[0] != 'i'
    ensures InDaysCount(t).None? && InWeeksCount(t).None?
  {
    if |t| >= 3 {
      assert t[..3][0] == t[0];
    }
    if |t| >= 9 {
      assert t[..9][0] == t[0];
    }
  }

  /** `in a week...` carries the count 1, which the day rule does not take. */
  lemma InAWeekCountOf(t: string, rest: string)
    requires t == "in a week" + rest
    ensures InDaysCount(t).None? && InWeeksCount(t) == Some(1)
  {
    assert t[..9] == "in a week";
    assert t[..3] == "in ";
    assert t[3..][0] == 'a';
    assert LeadingDigits(t[3..]) == 0;
  }

  /** A matched day count decides the phrase: the text starts with "in ", so it is no ISO date
      and none of the fixed words. */
  lemma ClassifyDayCount(t: string)
    requires InDaysCount(t).Some?
    ensures Classify(t) == InDays(InDaysCount(t).value)
  {
    assert t[..3][0] == t[0];
    NotIsoIfLetterFirst(t);
    assert t != "today" && t != "tomorrow" && t != "yesterday";
  }

  /** A matched week count decides the phrase once the day rule has not matched. */
  lemma ClassifyWeekCount(t: string)
    requires InDaysCount(t).None? && InWeeksCount(t).Some?
    ensures Classify(t) == InWeeks(InWeeksCount(t).value)
  {
    assert t[..3][0] == t[0];
    NotIsoIfLetterFirst(t);
    assert t != "today" && t != "tomorrow" && t != "yesterday";
  }

  /** The fixed words: "today", "end of day" and "eod" give today, "tomorrow" the day after,
      "yesterday" the day before. */
  lemma InterpretRelativeWords(t: string, today: Date)
    ensures t == "today" || t == "end of day" || t == "eod" ==> Interpret(t, today) == Some(today)
    ensures t == "tomorrow" ==> Interpret(t, today) == Some(today + 1)
    ensures t == "yesterday" ==> Interpret(t, today) == Some(today - 1)
  {
    if t == "end of day" || t == "eod" {
      NoCountRule(t);
      NotIsoIfLetterFirst(t);
      assert Classify(t) == EndOfDay;
    }
  }

  /** `in N day(s)`, read as a prefix the way `re.match` reads it, is today plus N days;
      `InDaysCountOf` says which texts carry which N. */
  lemma InterpretDayCount(t: string, today: Date)
    requires InDaysCount(t).Some?
    ensures Interpret(t, today) == Some(today + InDaysCount(t).value)
  {
    ClassifyDayCount(t);
  }

  /** `in N week(s)` and `in a week(s)`, where the day rule does not match, are today plus
      N weeks; `InWeeksCountOf` and `InAWeekCountOf` say which texts carry which N. */
  lemma InterpretWeekCount(t: string, today: Date)
    requires InDaysCount(t).None? && InWeeksCount(t).Some?
    ensures Interpret(t, today) == Some(today + 7 * InWeeksCount(t).value)
  {
    ClassifyWeekCount(t);
  }

  /** "next week" is the first Monday strictly after today. */
  lemma InterpretNextWeek(t: string, today: Date)
    requires t == "next week"
    ensures var r := Interpret(t, today);
      r.Some? && Weekday(r.value) == 0 && today < r.value <= today + 7
  {
    NoCountRule(t);
    NotIsoIfLetterFirst(t);
    assert Classify(t) == NextWeek;
    NextWeekIsNextMonday(today);
  }

  /** "end of week" and "eow" give the coming Friday, today itself on a Friday. */
  lemma InterpretEndOfWeek(t: string, today: Date)
    requires t == "end of week" || t == "eow"
    ensures var r := Interpret(t, today);
      r.Some? && Weekday(r.value) == 4 && today <= r.value <= today + 6
      && (r.value == today <==> Weekday(today) == 4)
  {
    NoCountRule(t);
    NotIsoIfLetterFirst(t);
    assert Classify(t) == EndOfWeek;
    EndOfWeekIsComingFriday(today);
  }

  lemma ClassifyEndOfMonth(t: string)
    requires t == "end of month" || t == "eom"
    ensures Classify(t) == EndOfMonth
  {
    NoCountRule(t);
    NotIsoIfLetterFirst(t);
  }

  /** "end of month" and "eom" give the last day of today's month. */
  lemma InterpretEndOfMonth(t: string, today: Date)
    requires t == "end of month" || t == "eom"
    ensures var r := Interpret(t, today);
      var c := FromOrdinal(today);
      r.Some? && FromOrdinal(r.value) == CivilDate(c.year, c.month, DaysInMonth(c.year, c.month))
      && FromOrdinal(r.value + 1).day == 1
  {
    ClassifyEndOfMonth(t);
    assert Interpret(t, today) == Resolve(EndOfMonth, today);
    EndOfMonthIsLastDay(today);
  }

  /** Once no earlier rule applies, a weekday name found anywhere in the text decides: the first
      table key that occurs wins, the result falls on that key's weekday, and "next", else "this",
      else nothing fixes how far ahead it lies. */
  lemma InterpretWeekday(t: string, today: Date)
    requires Classify(t).DayName?
    ensures var r := Interpret(t, today);
      r.Some?
      && (exists k :: 0 <= k < |WeekdayNames| && Contains(t, WeekdayNames[k].0)
            && (forall j :: 0 <= j < k ==> !Contains(t, WeekdayNames[j].0))
            && Weekday(r.value) == WeekdayNames[k].1)
      && (Contains(t, "next") ==> today + 8 <= r.value <= today + 14)
      && (!Contains(t, "next") && Contains(t, "this") ==> today <= r.value <= today + 6)
      && (!Contains(t, "next") && !Contains(t, "this") ==> today + 1 <= r.value <= today + 7)
  {
    var k := ScanWeekdays(t, 0).value;
    assert Classify(t) == DayName(WeekdayNames[k].1, ModifierOf(t));
    WeekdayNamesWellFormed();
    DayNameResolves(WeekdayNames[k].1, ModifierOf(t), today);
  }

  // ---------------------------------------------------------------------------------------
  // infer_priority
  // ---------------------------------------------------------------------------------------

  /** The three tiers from most to least urgent. */
  function Tier(p: Priority): nat {
    match p
    case High => 0
    case Medium => 1
    case Low => 2
    case Other(_) => 3
  }

  /** An urgency keyword anywhere in the title decides "high", whatever the due date and tags. */
  lemma HighKeywordInTitle(title: string, due: Option<Date>, tags: seq<string>, today: Date, k: nat)
    requires k < |HighKeywords| && Contains(Lower(title), HighKeywords[k])
    ensures InferPriority(title, due, tags, today) == High
  {
  }

  /** A tag equal (ignoring case) to an urgency keyword decides "high" as well. */
  lemma HighKeywordAsTag(title: string, due: Option<Date>, tags: seq<string>, today: Date, k: nat, i: nat)
    requires k < |HighKeywords| && i < |tags| && Lower(tags[i]) == HighKeywords[k]
    ensures InferPriority(title, due, tags, today) == High
  {
    assert HighKeywords[k] in LowerAll(tags) by {
      assert LowerAll(tags)[i] == HighKeywords[k];
    }
  }

  /** A task due today or overdue is "high". */
  lemma DueNowIsHigh(title: string, d: Date, tags: seq<string>, today: Date)
    requires d <= today
    ensures InferPriority(title, Some(d), tags, today) == High
  {
  }

  /** A task due one to seven days ahead is "medium" unless an urgency keyword makes it "high". */
  lemma DueThisWeekIsMedium(title: string, d: Date, tags: seq<string>, today: Date)
    requires today < d <= today + 7
    ensures InferPriority(title, Some(d), tags, today) ==
      if MentionsAny(Lower(title), HighKeywords) || IncludesAny(LowerAll(tags), HighKeywords) then High
      else Medium
  {
  }

  /** A due date more than a week ahead counts for nothing: the result is the one without it. */
  lemma DistantDueIgnored(title: string, d: Date, tags: seq<string>, today: Date)
    requires d > today + 7
    ensures InferPriority(title, Some(d), tags, today) == InferPriority(title, None, tags, today)
  {
  }

  /** Without urgency signals and without a due date within the week, the title's medium
      keywords and the work tags decide between "medium" and "low". */
  lemma LowExactly(title: string, due: Option<Date>, tags: seq<string>, today: Date)
    ensures InferPriority(title, due, tags, today) == Low <==>
      !MentionsAny(Lower(title), HighKeywords) && !IncludesAny(LowerAll(tags), HighKeywords)
      && (due.None? || due.value > today + 7)
      && !MentionsAny(Lower(title), MediumKeywords) && !IncludesAny(LowerAll(tags), WorkTags)
  {
  }

  /** The priority is "high" exactly when an urgency keyword is in the title or among the tags,
      or the task is due today or earlier. */
  lemma HighExactly(title: string, due: Option<Date>, tags: seq<string>, today: Date)
    ensures InferPriority(title, due, tags, today) == High <==>
      MentionsAny(Lower(title), HighKeywords) || IncludesAny(LowerAll(tags), HighKeywords)
      || (due.Some? && due.value <= today)
  {
  }

  /** Without an urgency keyword and without a due date up to today, a medium keyword in the
      title makes the priority "medium", whatever the tags and a later due date say. */
  lemma MediumKeywordInTitle(title: string, due: Option<Date>, tags: seq<string>, today: Date, k: nat)
    requires k < |MediumKeywords| && Contains(Lower(title), MediumKeywords[k])
    requires !MentionsAny(Lower(title), HighKeywords) && !IncludesAny(LowerAll(tags), HighKeywords)
    requires due.None? || due.value > today
    ensures InferPriority(title, due, tags, today) == Medium
  {
  }

  /** Without an urgency keyword and without a due date up to today, a work tag (compared
      case-insensitively) makes the priority "medium". */
  lemma WorkTagIsMedium(title: string, due: Option<Date>, tags: seq<string>, today: Date, k: nat, i: nat)
    requires k < |WorkTags| && i < |tags| && Lower(tags[i]) == WorkTags[k]
    requires !MentionsAny(Lower(title), HighKeywords) && !IncludesAny(LowerAll(tags), HighKeywords)
    requires due.None? || due.value > today
    ensures InferPriority(title, due, tags, today) == Medium
  {
    assert LowerAll(tags)[i] == WorkTags[k];
  }

  /** Lower-casing is applied to a concatenation piecewise. */
  lemma LowerAllAppend(a: seq<string>, b: seq<string>)
    ensures LowerAll(a + b) == LowerAll(a) + LowerAll(b)
  {
  }

  /** Adding tags never lowers the inferred priority. */
  lemma MoreTagsNeverLower(title: string, due: Option<Date>, tags: seq<string>, more: seq<string>, today: Date)
    ensures Tier(InferPriority(title, due, tags + more, today)) <= Tier(InferPriority(title, due, tags, today))
  {
    LowerAllAppend(tags, more);
    var before, after := LowerAll(tags), LowerAll(tags + more);
    assert forall w :: w in before ==> w in after;
    if IncludesAny(before, HighKeywords) {
      var k :| 0 <= k < |HighKeywords| && HighKeywords[k] in before;
      assert HighKeywords[k] in after;
    }
    if IncludesAny(before, WorkTags) {
      var k :| 0 <= k < |WorkTags| && WorkTags[k] in before;
      assert WorkTags[k] in after;
    }
  }

  /** An earlier due date never lowers the inferred priority. */
  lemma EarlierDueNeverLower(title: string, d1: Date, d2: Date, tags: seq<string>, today: Date)
    requires d1 <= d2
    ensures Tier(InferPriority(title, Some(d1), tags, today)) <= Tier(InferPriority(title, Some(d2), tags, today))
  {
  }

  /** Setting a due date never lowers the inferred priority. */
  lemma DueNeverLowers(title: string, d: Date, tags: seq<string>, today: Date)
    ensures Tier(InferPriority(title, Some(d), tags, today)) <= Tier(InferPriority(title, None, tags, today))
  {
  }

  /** The title and the tags are compared without regard to ASCII case. */
  lemma PriorityIgnoresCase(title: string, due: Option<Date>, tags: seq<string>, today: Date)
    ensures InferPriority(Lower(title), due, LowerAll(tags), today) == InferPriority(title, due, tags, today)
  {
    LowerIsLowered(title);
    LowerOfLowered(Lower(title));
    forall i | 0 <= i < |tags|
      ensures Lower(LowerAll(tags)[i]) == LowerAll(tags)[i]
    {
      LowerIsLowered(tags[i]);
      LowerOfLowered(Lower(tags[i]));
    }
    assert LowerAll(LowerAll(tags)) == LowerAll(tags);
  }

  // ---------------------------------------------------------------------------------------
  // Worked examples
  // ---------------------------------------------------------------------------------------

  lemma ShoutedTomorrowNormalised()
    ensures Normalise("TOMORROW") == "tomorrow"
  {
    assert Lower("TOMORROW") == "tomorrow";
    StripOfTrimmed("tomorrow");
  }

  /** Case does not matter: "TOMORROW" is the day after today. */
  lemma ParseShoutedTomorrow(today: Date)
    ensures ParseDueDate("TOMORROW", today) == Some(today + 1)
  {
    ShoutedTomorrowNormalised();
    InterpretRelativeWords("tomorrow", today);
  }

  /** "URGENT: Fix bug" is "high" through its first keyword. */
  lemma UrgentFixBugIsHigh(today: Date)
    ensures InferPriority("URGENT: Fix bug", None, [], today) == High
  {
    var t := Lower("URGENT: Fix bug");
    assert t[0..6] == "urgent";
    assert OccursAt(t, HighKeywords[0], 0);
  }

  lemma BuyNewBookHasNoUrgencyKeyword()
    ensures !MentionsAny(Lower("Buy new book"), HighKeywords)
  {
    var t := "buy new book";
    assert Lower("Buy new book") == t;
    forall k | 0 <= k < |HighKeywords|
      ensures !Contains(t, HighKeywords[k])
    {
      NotContainedByFirstPair(t, HighKeywords[k]);
    }
  }

  lemma BuyNewBookHasNoMediumKeyword()
    ensures !MentionsAny(Lower("Buy new book"), MediumKeywords)
  {
    var t := "buy new book";
    assert Lower("Buy new book") == t;
    forall k | 0 <= k < |MediumKeywords|
      ensures !Contains(t, MediumKeywords[k])
    {
      NotContainedByFirstPair(t, MediumKeywords[k]);
    }
  }

  /** "Buy new book", without due date or tags, falls through to "low". */
  lemma BuyNewBookIsLow(today: Date)
    ensures InferPriority("Buy new book", None, [], today) == Low
  {
    BuyNewBookHasNoUrgencyKeyword();
    BuyNewBookHasNoMediumKeyword();
  }
}

/**
 * Calendar dates as the mapper reads them: the four `strptime` formats it tries
 * in order, the day count `datetime` subtraction yields, the duration arithmetic
 * built on it, and the two output shapes (`_format_date`, `_parse_date_array`).
 *
 * Format grammar: every format is ten characters wide, with a four-digit year and
 * a two-digit month and day, and the date must exist in the proleptic Gregorian
 * calendar between years 1 and 9999.
 */
module Dates {
  import opened Results
  import opened PyStr
  import opened PyJson

  datatype Date = Date(year: int, month: int, day: int)

  predicate IsLeap(y: int)
  {
    y % 4 == 0 && (y % 100 != 0 || y % 400 == 0)
  }

  function DaysInMonth(y: int, m: int): int
    requires 1 <= m <= 12
  {
    if m == 2 then (if IsLeap(y) then 29 else 28)
    else if m == 4 || m == 6 || m == 9 || m == 11 then 30
    else 31
  }

  /** The dates a `datetime.date` can hold. */
  predicate ValidDate(d: Date)
  {
    1 <= d.year <= 9999 && 1 <= d.month <= 12 && 1 <= d.day <= DaysInMonth(d.year, d.month)
  }

  function DaysBeforeYear(y: int): int
    requires y >= 1
  {
    var p := y - 1;
    365 * p + p / 4 - p / 100 + p / 400
  }

  function DaysBeforeMonth(y: int, m: int): int
    requires 1 <= m <= 12
  {
    [0, 31, 59, 90, 120, 151, 181, 212, 243, 273, 304, 334][m - 1]
      + (if m > 2 && IsLeap(y) then 1 else 0)
  }

  /** `date.toordinal()`: 0001-01-01 is day 1. The difference of two day numbers
      is the `.days` of the difference of the two dates. */
  function DayNumber(d: Date): int
    requires ValidDate(d)
  {
    DaysBeforeYear(d.year) + DaysBeforeMonth(d.year, d.month) + d.day
  }

  function NextDay(d: Date): Date
    requires ValidDate(d)
  {
    if d.day < DaysInMonth(d.year, d.month) then d.(day := d.day + 1)
    else if d.month < 12 then Date(d.year, d.month + 1, 1)
    else Date(d.year + 1, 1, 1)
  }

  /** Counting the multiples of 4, 100 or 400 up to `y` adds one exactly at a
      multiple. */
  lemma StepBy4(y: int)
    ensures y / 4 == (y - 1) / 4 + (if y % 4 == 0 then 1 else 0)
  {
  }

  lemma StepBy100(y: int)
    ensures y / 100 == (y - 1) / 100 + (if y % 100 == 0 then 1 else 0)
  {
  }

  lemma StepBy400(y: int)
    ensures y / 400 == (y - 1) / 400 + (if y % 400 == 0 then 1 else 0)
  {
  }

  /** A multiple of 100 is a multiple of 4, and a multiple of 400 one of 100. */
  lemma CenturyMultiples(y: int)
    ensures y % 100 == 0 ==> y % 4 == 0
    ensures y % 400 == 0 ==> y % 100 == 0
  {
    if y % 100 == 0 {
      assert y == 4 * (25 * (y / 100));
    }
    if y % 400 == 0 {
      assert y == 100 * (4 * (y / 400));
    }
  }

  /** A year has 366 days exactly when it is a leap year. */
  lemma DaysInYear(y: int)
    requires y >= 1
    ensures DaysBeforeYear(y + 1) == DaysBeforeYear(y) + (if IsLeap(y) then 366 else 365)
  {
    StepBy4(y);
    StepBy100(y);
    StepBy400(y);
    CenturyMultiples(y);
  }

  /** Consecutive calendar days have consecutive day numbers, so `DayNumber` counts days. */
  lemma NextDayNumber(d: Date)
    requires ValidDate(d) && d != Date(9999, 12, 31)
    ensures ValidDate(NextDay(d))
    ensures DayNumber(NextDay(d)) == DayNumber(d) + 1
  {
    if d.day == DaysInMonth(d.year, d.month) && d.month == 12 {
      DaysInYear(d.year);
    }
  }

  /** The four formats, in the order the mapper tries them. */
  datatype DateFormat =
    | YearMonthDayDash   // %Y-%m-%d
    | DayMonthYearDash   // %d-%m-%Y
    | MonthDayYearSlash  // %m/%d/%Y
    | DayMonthYearSlash  // %d/%m/%Y

  const DateFormats: seq<DateFormat> :=
    [YearMonthDayDash, DayMonthYearDash, MonthDayYearSlash, DayMonthYearSlash]

  function Separator(f: DateFormat): char
  {
    if f == YearMonthDayDash || f == DayMonthYearDash then '-' else '/'
  }

  /** Where the year, month and day fields start in the ten-character text. */
  function YearAtPos(f: DateFormat): nat { if f == YearMonthDayDash then 0 else 6 }

  function MonthAtPos(f: DateFormat): nat
  {
    match f
    case YearMonthDayDash => 5
    case DayMonthYearDash => 3
    case MonthDayYearSlash => 0
    case DayMonthYearSlash => 3
  }

  function DayAtPos(f: DateFormat): nat
  {
    match f
    case YearMonthDayDash => 8
    case DayMonthYearDash => 0
    case MonthDayYearSlash => 3
    case DayMonthYearSlash => 0
  }

  /** Where the two separators stand. */
  function FirstSepPos(f: DateFormat): nat { if f == YearMonthDayDash then 4 else 2 }

  function SecondSepPos(f: DateFormat): nat { if f == YearMonthDayDash then 7 else 5 }

  predicate DigitsAt(s: string, i: nat, width: nat)
  {
    i + width <= |s| && forall k :: i <= k < i + width ==> IsDigit(s[k])
  }

  function Value2(s: string, i: nat): nat
    requires DigitsAt(s, i, 2)
  {
    10 * DigitValue(s[i]) + DigitValue(s[i + 1])
  }

  function Value4(s: string, i: nat): nat
    requires DigitsAt(s, i, 4)
  {
    1000 * DigitValue(s[i]) + 100 * DigitValue(s[i + 1]) + 10 * DigitValue(s[i + 2]) + DigitValue(s[i + 3])
  }

  /** `datetime.strptime(s, f).date()`, or `None` where it raises `ValueError`. */
  function ParseWith(f: DateFormat, s: string): (r: Option<Date>)
    ensures r.Some? ==> ValidDate(r.value)
  {
    if |s| == 10 && s[FirstSepPos(f)] == Separator(f) && s[SecondSepPos(f)] == Separator(f)
       && DigitsAt(s, YearAtPos(f), 4) && DigitsAt(s, MonthAtPos(f), 2) && DigitsAt(s, DayAtPos(f), 2)
    then
      var d := Date(Value4(s, YearAtPos(f)), Value2(s, MonthAtPos(f)), Value2(s, DayAtPos(f)));
      if ValidDate(d) then Some(d) else None
    else None
  }

  /** The first present value of `os`, or `None`. */
  function FirstSome(os: seq<Option<Date>>): (r: Option<Date>)
    ensures r.Some? <==> exists k :: 0 <= k < |os| && os[k].Some?
    ensures r.Some? ==> r in os
    ensures forall k :: 0 <= k < |os| && os[k].Some? && (forall j :: 0 <= j < k ==> os[j].None?) ==> r == os[k]
  {
    if os == [] then None
    else if os[0].Some? then os[0]
    else
      var r := FirstSome(os[1..]);
      assert forall k :: 1 <= k < |os| ==> os[k] == os[1..][k - 1];
      r
  }

  /** What each of `fs` makes of `s`, in order. */
  function Attempts(s: string, fs: seq<DateFormat>): (os: seq<Option<Date>>)
    ensures |os| == |fs| && forall k :: 0 <= k < |fs| ==> os[k] == ParseWith(fs[k], s)
  {
    seq(|fs|, k requires 0 <= k < |fs| => ParseWith(fs[k], s))
  }

  /** A date text as the mapper reads it: the first of the four formats that fits. */
  function ParseDate(s: string): (r: Option<Date>)
    ensures r.Some? ==> ValidDate(r.value)
  {
    FirstSome(Attempts(s, DateFormats))
  }

  /** The format at position `k` decides when it is the first that fits. */
  lemma ParseDateAt(s: string, k: nat)
    requires k < |DateFormats| && ParseWith(DateFormats[k], s).Some?
    requires forall j :: 0 <= j < k ==> ParseWith(DateFormats[j], s).None?
    ensures ParseDate(s) == ParseWith(DateFormats[k], s)
  {
    var os := Attempts(s, DateFormats);
    assert forall j :: 0 <= j < k ==> os[j].None?;
  }

  /** A text no format fits is not a date. */
  lemma ParseDateNone(s: string)
    requires forall j :: 0 <= j < |DateFormats| ==> ParseWith(DateFormats[j], s).None?
    ensures ParseDate(s).None?
  {
    var os := Attempts(s, DateFormats);
    assert forall j :: 0 <= j < |os| ==> os[j].None?;
  }

  /** The loop over the formats that every date helper of the mapper runs:
      each `strptime` that raises `ValueError` moves on to the next format. */
  method TryFormats(s: string) returns (r: Option<Date>)
    ensures r == ParseDate(s)
  {
    var i := 0;
    while i < |DateFormats|
      invariant 0 <= i <= |DateFormats|
      invariant forall j :: 0 <= j < i ==> ParseWith(DateFormats[j], s).None?
    {
      var attempt := ParseWith(DateFormats[i], s);
      if attempt.Some? {
        ParseDateAt(s, i);
        return attempt;
      }
      i := i + 1;
    }
    ParseDateNone(s);
    r := None;
  }

  function Pad2(n: nat): (r: string)
    requires n < 100
    ensures |r| == 2 && DigitsAt(r, 0, 2) && Value2(r, 0) == n
  {
    [DigitChar(n / 10), DigitChar(n % 10)]
  }

  function Pad4(n: nat): (r: string)
    requires n < 10000
    ensures |r| == 4 && DigitsAt(r, 0, 4) && Value4(r, 0) == n
  {
    var hi, lo := Pad2(n / 100), Pad2(n % 100);
    var r := hi + lo;
    assert r[0] == hi[0] && r[1] == hi[1] && r[2] == lo[0] && r[3] == lo[1];
    assert Value4(r, 0) == 100 * Value2(hi, 0) + Value2(lo, 0);
    r
  }

  /** How a format writes a date (`date.strftime(f)`). */
  function Render(f: DateFormat, d: Date): (r: string)
    requires ValidDate(d)
    ensures |r| == 10
  {
    var y := Pad4(d.year);
    var m := Pad2(d.month);
    var dd := Pad2(d.day);
    var sep := [Separator(f)];
    match f
    case YearMonthDayDash => y + sep + m + sep + dd
    case DayMonthYearDash => dd + sep + m + sep + y
    case MonthDayYearSlash => m + sep + dd + sep + y
    case DayMonthYearSlash => dd + sep + m + sep + y
  }

  /** `date.isoformat()` */
  function IsoText(d: Date): string
    requires ValidDate(d)
  {
    Render(YearMonthDayDash, d)
  }

  /** Where each part of a rendered date stands. */
  lemma RenderLayout(f: DateFormat, d: Date)
    requires ValidDate(d)
    ensures var s := Render(f, d);
            s[FirstSepPos(f)] == Separator(f) && s[SecondSepPos(f)] == Separator(f)
    ensures var s := Render(f, d);
            forall k :: 0 <= k < 4 ==> s[YearAtPos(f) + k] == Pad4(d.year)[k]
    ensures var s := Render(f, d);
            forall k :: 0 <= k < 2 ==> s[MonthAtPos(f) + k] == Pad2(d.month)[k] && s[DayAtPos(f) + k] == Pad2(d.day)[k]
  {
  }

  /** The year, month and day fields of a rendered date hold its numbers. */
  lemma RenderFields(f: DateFormat, d: Date)
    requires ValidDate(d)
    ensures var s := Render(f, d);
            && DigitsAt(s, YearAtPos(f), 4) && Value4(s, YearAtPos(f)) == d.year
            && DigitsAt(s, MonthAtPos(f), 2) && Value2(s, MonthAtPos(f)) == d.month
            && DigitsAt(s, DayAtPos(f), 2) && Value2(s, DayAtPos(f)) == d.day
  {
    var s := Render(f, d);
    RenderLayout(f, d);
    var y, m, dd := YearAtPos(f), MonthAtPos(f), DayAtPos(f);
    assert DigitsAt(s, y, 4) && Value4(s, y) == d.year by {
      assert forall k :: 0 <= k < 4 ==> s[y + k] == Pad4(d.year)[k];
    }
    assert DigitsAt(s, m, 2) && Value2(s, m) == d.month by {
      assert forall k :: 0 <= k < 2 ==> s[m + k] == Pad2(d.month)[k];
    }
    assert DigitsAt(s, dd, 2) && Value2(s, dd) == d.day by {
      assert forall k :: 0 <= k < 2 ==> s[dd + k] == Pad2(d.day)[k];
    }
  }

  /** Every format reads back what it writes. */
  lemma ParseWithRender(f: DateFormat, d: Date)
    requires ValidDate(d)
    ensures ParseWith(f, Render(f, d)) == Some(d)
  {
    RenderLayout(f, d);
    RenderFields(f, d);
  }

  /** Only the ISO format has a dash at position 4. */
  lemma IsoRejectsOthers(f: DateFormat, d: Date)
    requires ValidDate(d) && f != YearMonthDayDash
    ensures ParseWith(YearMonthDayDash, Render(f, d)).None?
  {
    RenderLayout(f, d);
    var s := Render(f, d);
    if f == MonthDayYearSlash {
      assert s[4] == Pad2(d.day)[1];
    } else {
      assert s[4] == Pad2(d.month)[1];
    }
  }

  /** The ISO text of a date reads back as that date. */
  lemma ParseDateIso(d: Date)
    requires ValidDate(d)
    ensures ParseDate(IsoText(d)) == Some(d)
  {
    ParseWithRender(YearMonthDayDash, d);
  }

  /** A day-first dashed text reads back as its date: the ISO format never fits it. */
  lemma ParseDateDayFirstDash(d: Date)
    requires ValidDate(d)
    ensures ParseDate(Render(DayMonthYearDash, d)) == Some(d)
  {
    IsoRejectsOthers(DayMonthYearDash, d);
    ParseWithRender(DayMonthYearDash, d);
    ParseDateAt(Render(DayMonthYearDash, d), 1);
  }

  /** A text neither dashed format fits is read month-first if it can be, else day-first. */
  lemma ParseDateSlashed(s: string)
    requires ParseWith(YearMonthDayDash, s).None? && ParseWith(DayMonthYearDash, s).None?
    ensures ParseDate(s) == if ParseWith(MonthDayYearSlash, s).Some? then ParseWith(MonthDayYearSlash, s)
                            else ParseWith(DayMonthYearSlash, s)
  {
    var os := Attempts(s, DateFormats);
    assert os[0].None? && os[1].None?;
    assert os[2] == ParseWith(MonthDayYearSlash, s) && os[3] == ParseWith(DayMonthYearSlash, s);
    if os[2].Some? {
      assert forall j :: 0 <= j < 2 ==> os[j].None?;
    } else if os[3].Some? {
      assert forall j :: 0 <= j < 3 ==> os[j].None?;
    } else {
      assert forall j :: 0 <= j < |os| ==> os[j].None?;
    }
  }

  /** A month-first slashed text reads back as its date: neither dashed format fits it. */
  lemma ParseDateMonthFirstSlash(d: Date)
    requires ValidDate(d)
    ensures ParseDate(Render(MonthDayYearSlash, d)) == Some(d)
  {
    var s := Render(MonthDayYearSlash, d);
    assert ParseWith(YearMonthDayDash, s).None? by {
      IsoRejectsOthers(MonthDayYearSlash, d);
    }
    assert ParseWith(DayMonthYearDash, s).None? by {
      RenderLayout(MonthDayYearSlash, d);
    }
    ParseWithRender(MonthDayYearSlash, d);
    ParseDateSlashed(s);
  }

  /** Read month-first, a day-first slashed text swaps day and month, and fits only
      when the day can be a month. */
  lemma MonthFirstReadsDayFirst(d: Date)
    requires ValidDate(d)
    ensures ParseWith(MonthDayYearSlash, Render(DayMonthYearSlash, d)) ==
            (if d.day <= 12 then Some(Date(d.year, d.day, d.month)) else None)
  {
    RenderLayout(DayMonthYearSlash, d);
    RenderFields(DayMonthYearSlash, d);
  }

  /** A day-first slashed text is tried as month-first before it is tried as
      day-first, so it reads back as its own date only when its day cannot be a
      month or equals the month; otherwise day and month come back swapped. */
  lemma ParseDateDayFirstSlash(d: Date)
    requires ValidDate(d)
    ensures ParseDate(Render(DayMonthYearSlash, d)) == Some(d) <==> d.day > 12 || d.day == d.month
    ensures d.day <= 12 ==> ParseDate(Render(DayMonthYearSlash, d)) == Some(Date(d.year, d.day, d.month))
  {
    var s := Render(DayMonthYearSlash, d);
    assert ParseWith(YearMonthDayDash, s).None? by {
      IsoRejectsOthers(DayMonthYearSlash, d);
    }
    assert ParseWith(DayMonthYearDash, s).None? by {
      RenderLayout(DayMonthYearSlash, d);
    }
    MonthFirstReadsDayFirst(d);
    ParseWithRender(DayMonthYearSlash, d);
    ParseDateSlashed(s);
  }

  /** The `to_date` of an entry: "present" or "current" in any letter case stand for today. */
  function ToDateOf(t: string, today: Date): Option<Date>
  {
    if Lower(t) == "present" || Lower(t) == "current" then Some(today) else ParseDate(t)
  }

  /** The two dates of an entry, when both are texts that parse; `None` where the
      mapper's `try` falls back to zero (an unparsable text, a missing value, or a
      value that is not a string). */
  function EntryDates(from: Json, to: Json, today: Date): (r: Option<(Date, Date)>)
    requires ValidDate(today)
    ensures r.Some? ==> ValidDate(r.value.0) && ValidDate(r.value.1)
  {
    if from.JStr? && to.JStr? then
      match (ParseDate(from.s), ToDateOf(to.s, today))
      case (Some(a), Some(b)) => Some((a, b))
      case _ => None
    else None
  }

  /** `(to_dt - from_dt).days` */
  function DaySpan(dates: (Date, Date)): int
    requires ValidDate(dates.0) && ValidDate(dates.1)
  {
    DayNumber(dates.1) - DayNumber(dates.0)
  }

  /** `_calculate_experience_from_dates`: whole years of 365 days, then whole months
      of 30 days in what is left; `(0, 0)` when a date does not parse. */
  function ExperienceFromDates(from: Json, to: Json, today: Date): (r: (int, int))
    requires ValidDate(today)
    ensures EntryDates(from, to, today).None? ==> r == (0, 0)
    ensures EntryDates(from, to, today).Some? ==>
              var n := DaySpan(EntryDates(from, to, today).value);
              && 365 * r.0 <= n < 365 * r.0 + 365
              && 365 * r.0 + 30 * r.1 <= n < 365 * r.0 + 30 * r.1 + 30
    ensures 0 <= r.1 <= 12
  {
    match EntryDates(from, to, today)
    case None => (0, 0)
    case Some(dates) =>
      var n := DaySpan(dates);
      (n / 365, (n % 365) / 30)
  }

  /** `_calculate_years_from_dates`: whole years of 365 days, or 0. */
  function YearsFromDates(from: Json, to: Json, today: Date): (r: int)
    requires ValidDate(today)
    ensures EntryDates(from, to, today).None? ==> r == 0
    ensures EntryDates(from, to, today).Some? ==>
              var n := DaySpan(EntryDates(from, to, today).value);
              365 * r <= n < 365 * r + 365
  {
    match EntryDates(from, to, today)
    case None => 0
    case Some(dates) => DaySpan(dates) / 365
  }

  /** Calendar months from the month of one date to the month of the other. */
  function MonthsBetween(dates: (Date, Date)): int
  {
    (dates.1.year - dates.0.year) * 12 + (dates.1.month - dates.0.month)
  }

  /** `_calculate_months_from_dates`: the calendar months not covered by the whole
      years, never below 0. */
  function MonthsFromDates(from: Json, to: Json, today: Date): (r: int)
    requires ValidDate(today)
    ensures r >= 0
    ensures EntryDates(from, to, today).None? ==> r == 0
  {
    match EntryDates(from, to, today)
    case None => 0
    case Some(dates) =>
      var months := MonthsBetween(dates) - DaySpan(dates) / 365 * 12;
      if months < 0 then 0 else months
  }

  /** The years and the months of the current entry add up to the calendar months
      between its dates; the months are cut off at 0 exactly when the whole years
      already cover at least those calendar months. */
  lemma YearsMonthsAddUp(from: Json, to: Json, today: Date)
    requires ValidDate(today)
    requires EntryDates(from, to, today).Some?
    ensures var m := MonthsFromDates(from, to, today);
            var y := YearsFromDates(from, to, today);
            var between := MonthsBetween(EntryDates(from, to, today).value);
            && (between > 12 * y ==> 12 * y + m == between)
            && (between <= 12 * y ==> m == 0)
  {
  }

  /** An ongoing entry is measured up to today. */
  lemma PresentIsToday(from: string, to: string, today: Date)
    requires ValidDate(today) && ParseDate(from).Some?
    requires Lower(to) == "present" || Lower(to) == "current"
    ensures EntryDates(JStr(from), JStr(to), today) == Some((ParseDate(from).value, today))
  {
  }

  const IsoTimeSuffix := "T18:30:00.000Z"

  /** `_format_date`: the ISO date with a fixed time of day, or `None` when the value
      is empty, not a string, or fits none of the formats. */
  function FormatDate(j: Json): (r: Json)
    ensures r.JNull? || (r.JStr? && |r.s| == 24 && EndsWith(r.s, IsoTimeSuffix))
    ensures r.JStr? <==> j.JStr? && ParseDate(j.s).Some?
    ensures r.JStr? ==> |r.s| >= 10 && ParseDate(r.s[..10]) == ParseDate(j.s)
  {
    if !Truthy(j) || !j.JStr? then JNull
    else
      match ParseDate(j.s)
      case None => JNull
      case Some(d) =>
        var r := IsoText(d) + IsoTimeSuffix;
        assert r[|r| - |IsoTimeSuffix|..] == IsoTimeSuffix;
        assert r[..10] == IsoText(d);
        ParseDateIso(d);
        JStr(r)
  }

  /** A date already in ISO form keeps its text: only the time is appended. */
  lemma FormatDateIso(d: Date)
    requires ValidDate(d)
    ensures FormatDate(JStr(IsoText(d))) == JStr(IsoText(d) + IsoTimeSuffix)
  {
    ParseDateIso(d);
  }

  /** `\b(20\d{2}|19\d{2})\b` matches at `i`: "19" or "20" and two digits, with no
      word character (ASCII letter, digit, underscore) touching either end. */
  predicate YearAt(s: string, i: int)
  {
    && 0 <= i && i + 4 <= |s|
    && ((s[i] == '1' && s[i + 1] == '9') || (s[i] == '2' && s[i + 1] == '0'))
    && IsDigit(s[i + 2]) && IsDigit(s[i + 3])
    && (i == 0 || !IsWordChar(s[i - 1]))
    && (i + 4 == |s| || !IsWordChar(s[i + 4]))
  }

  /** `re.search` for that pattern: the leftmost match at or after `from`, or -1. */
  function FindYear(s: string, from: nat): (r: int)
    ensures r == -1 || (from <= r && YearAt(s, r))
    ensures r == -1 ==> forall i :: from <= i ==> !YearAt(s, i)
    ensures r != -1 ==> forall i :: from <= i < r ==> !YearAt(s, i)
    decreases |s| - from
  {
    if from + 4 > |s| then -1
    else if YearAt(s, from) then from
    else FindYear(s, from + 1)
  }

  /** The leftmost match is the one `FindYear` finds. */
  lemma FindYearIs(s: string, k: nat)
    requires YearAt(s, k) && forall i :: 0 <= i < k ==> !YearAt(s, i)
    ensures FindYear(s, 0) == k
  {
  }

  /** A text with no digit holds no year. */
  lemma NoDigitNoYear(s: string)
    requires forall i :: 0 <= i < |s| ==> !IsDigit(s[i])
    ensures FindYear(s, 0) == -1
  {
  }

  /** The year a found match denotes. */
  function YearValue(s: string, i: int): nat
    requires YearAt(s, i)
  {
    assert DigitsAt(s, i, 4);
    Value4(s, i)
  }

  /** `_parse_date_array`: `None` for an empty value or an ongoing marker, the
      `[year, month, day]` of the first format that fits, else `[year, 1, 1]` from
      the first year found in the text, else `None`. A non-empty value that is not a
      string has no `.lower()` and the mapping fails. */
  function ParseDateArray(j: Json): (r: Result<Json, MapError>)
    ensures r.Err? <==> Truthy(j) && !j.JStr?
    ensures r.Ok? && r.value.JList? ==>
              |r.value.items| == 3 && forall k :: 0 <= k < 3 ==> r.value.items[k].JInt?
  {
    if !Truthy(j) then Ok(JNull)
    else if !j.JStr? then Err(MappingFailed)
    else if Lower(j.s) == "present" || Lower(j.s) == "current" then Ok(JNull)
    else
      match ParseDate(j.s)
      case Some(d) => Ok(JList([JInt(d.year), JInt(d.month), JInt(d.day)]))
      case None =>
        var i := FindYear(j.s, 0);
        if i < 0 then Ok(JNull) else Ok(JList([JInt(YearValue(j.s, i)), JInt(1), JInt(1)]))
  }

  /** An empty value, "present" or "current" in any letter case gives `None`. */
  lemma ParseDateArrayNoneCases(j: Json)
    requires !Truthy(j) || (j.JStr? && (Lower(j.s) == "present" || Lower(j.s) == "current"))
    ensures ParseDateArray(j) == Ok(JNull)
  {
  }

  /** A text no format reads falls back to `[year, 1, 1]` of its leftmost year. */
  lemma ParseDateArrayYearFallback(s: string, k: int)
    requires ParseDate(s).None?
    requires YearAt(s, k) && forall i :: 0 <= i < k ==> !YearAt(s, i)
    ensures ParseDateArray(JStr(s)) == Ok(JList([JInt(YearValue(s, k)), JInt(1), JInt(1)]))
  {
    assert Lower(s)[k] == s[k];
    assert Lower(s) != "present" && Lower(s) != "current";
    FindYearIs(s, k);
  }

  /** A text no format reads and holding no year gives `None`. */
  lemma ParseDateArrayNoYear(s: string)
    requires ParseDate(s).None?
    requires forall i :: !YearAt(s, i)
    ensures ParseDateArray(JStr(s)) == Ok(JNull)
  {
    assert FindYear(s, 0) == -1;
  }

  /** The parts of a parsed date array form a valid date, and a text that parses
      gives exactly its date. */
  lemma ParseDateArrayValid(s: string)
    requires s != "" && Lower(s) != "present" && Lower(s) != "current"
    ensures var r := ParseDateArray(JStr(s));
            r.Ok? && (r.value.JNull? || r.value.JList?)
    ensures var r := ParseDateArray(JStr(s));
            r.value.JList? ==>
              ValidDate(Date(r.value.items[0].i, r.value.items[1].i, r.value.items[2].i))
    ensures ParseDate(s).Some? ==>
              var d := ParseDate(s).value;
              ParseDateArray(JStr(s)) == Ok(JList([JInt(d.year), JInt(d.month), JInt(d.day)]))
  {
    if ParseDate(s).None? {
      var i := FindYear(s, 0);
      if i >= 0 {
        assert 1900 <= YearValue(s, i) <= 2099;
      }
    }
  }
}

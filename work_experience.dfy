/**
 * The work-experience section: which entry is the current one, how long it has
 * lasted, and how much experience the other entries add up to.
 */
module WorkExperience {
  import opened Results
  import opened PyStr
  import opened PyJson
  import opened Dates

  /** The lower-cased `str()` of an entry's `to_date` ("" when it has none). */
  function ToDateText(e: Fields): string
  {
    Lower(Str(GetOr(e, "to_date", JStr(""))))
  }

  /** The first test of the selection: the entry has not ended. */
  predicate IsOngoing(e: Fields)
  {
    var t := ToDateText(e);
    t == "present" || t == "current" || t == "" || Contains(t, "present")
  }

  const ResearchTerms := ["phd", "ph.d", "research", "student", "candidate"]

  /** The second test of the selection: the designation names research or study. */
  predicate IsResearchRole(e: Fields)
  {
    ContainsAny(Lower(Str(GetOr(e, "designation", JStr("")))), ResearchTerms)
  }

  /** The index of the first element at or after `from` that satisfies `p`, or -1:
      the `for … break` search both selection passes perform. */
  function FirstFrom<T>(xs: seq<T>, p: T -> bool, from: nat): (r: int)
    requires from <= |xs|
    decreases |xs| - from
    ensures r == -1 || (from <= r < |xs| && p(xs[r]))
    ensures forall j :: from <= j < |xs| && (r < 0 || j < r) ==> !p(xs[j])
  {
    if from == |xs| then -1
    else if p(xs[from]) then from
    else FirstFrom(xs, p, from + 1)
  }

  /** The search from `from` stops at the first element satisfying `p`. */
  lemma {:induction false} FirstFromAt<T>(xs: seq<T>, p: T -> bool, from: nat, i: nat)
    requires from <= i < |xs| && p(xs[i])
    requires forall j :: from <= j < i ==> !p(xs[j])
    ensures FirstFrom(xs, p, from) == i
    decreases i - from
  {
    if from < i {
      FirstFromAt(xs, p, from + 1, i);
    }
  }

  /** The search from `from` finds nothing when no later element satisfies `p`. */
  lemma {:induction false} FirstFromNone<T>(xs: seq<T>, p: T -> bool, from: nat)
    requires from <= |xs|
    requires forall j :: from <= j < |xs| ==> !p(xs[j])
    ensures FirstFrom(xs, p, from) == -1
    decreases |xs| - from
  {
    if from < |xs| {
      FirstFromNone(xs, p, from + 1);
    }
  }

  /** The index of the first ongoing entry at or after `from`, or -1. */
  function FirstOngoingFrom(es: seq<Fields>, from: nat): (r: int)
    requires from <= |es|
    ensures r == -1 || (from <= r < |es| && IsOngoing(es[r]))
    ensures forall j {:trigger IsOngoing(es[j])} :: from <= j < |es| && (r < 0 || j < r) ==> !IsOngoing(es[j])
  {
    FirstFrom(es, IsOngoing, from)
  }

  /** The index of the first entry with a research designation at or after `from`, or -1. */
  function FirstResearchFrom(es: seq<Fields>, from: nat): (r: int)
    requires from <= |es|
    ensures r == -1 || (from <= r < |es| && IsResearchRole(es[r]))
    ensures forall j {:trigger IsResearchRole(es[j])} :: from <= j < |es| && (r < 0 || j < r) ==> !IsResearchRole(es[j])
  {
    FirstFrom(es, IsResearchRole, from)
  }

  /** The search from `from` stops at the first ongoing entry. */
  lemma FirstOngoingAt(es: seq<Fields>, from: nat, i: nat)
    requires from <= i < |es| && IsOngoing(es[i])
    requires forall j {:trigger IsOngoing(es[j])} :: from <= j < i ==> !IsOngoing(es[j])
    ensures FirstOngoingFrom(es, from) == i
  {
    FirstFromAt(es, IsOngoing, from, i);
  }

  /** The search from `from` stops at the first research entry. */
  lemma FirstResearchAt(es: seq<Fields>, from: nat, i: nat)
    requires from <= i < |es| && IsResearchRole(es[i])
    requires forall j {:trigger IsResearchRole(es[j])} :: from <= j < i ==> !IsResearchRole(es[j])
    ensures FirstResearchFrom(es, from) == i
  {
    FirstFromAt(es, IsResearchRole, from, i);
  }

  /** The search from `from` finds nothing when no later entry is ongoing. */
  lemma NoOngoingFrom(es: seq<Fields>, from: nat)
    requires from <= |es|
    requires forall j {:trigger IsOngoing(es[j])} :: from <= j < |es| ==> !IsOngoing(es[j])
    ensures FirstOngoingFrom(es, from) == -1
  {
    FirstFromNone(es, IsOngoing, from);
  }

  /** The search from `from` finds nothing when no later entry is a research role. */
  lemma NoResearchFrom(es: seq<Fields>, from: nat)
    requires from <= |es|
    requires forall j {:trigger IsResearchRole(es[j])} :: from <= j < |es| ==> !IsResearchRole(es[j])
    ensures FirstResearchFrom(es, from) == -1
  {
    FirstFromNone(es, IsResearchRole, from);
  }

  /** The index of `current_exp`: the first ongoing entry unless it is an empty dict
      (which Python treats as not found), else the first research entry, else the
      first entry; -1 for an empty list. */
  function SelectCurrent(es: seq<Fields>): (k: int)
    ensures es == [] <==> k == -1
    ensures -1 <= k < |es|
  {
    if es == [] then -1
    else
      var t1 := FirstOngoingFrom(es, 0);
      if t1 >= 0 && es[t1] != [] then t1
      else
        var t2 := FirstResearchFrom(es, 0);
        if t2 >= 0 then t2 else 0
  }

  /** Tier 1: the first ongoing entry is chosen when it is not empty. */
  lemma CurrentIsFirstOngoing(es: seq<Fields>, i: nat)
    requires i < |es| && IsOngoing(es[i]) && es[i] != []
    requires forall j {:trigger IsOngoing(es[j])} :: 0 <= j < i ==> !IsOngoing(es[j])
    ensures SelectCurrent(es) == i
  {
    FirstOngoingAt(es, 0, i);
  }

  /** Tier 2: when no entry is ongoing, the first research entry is chosen. */
  lemma CurrentIsFirstResearch(es: seq<Fields>, i: nat)
    requires i < |es|
    requires forall j {:trigger IsOngoing(es[j])} :: 0 <= j < |es| ==> !IsOngoing(es[j])
    requires IsResearchRole(es[i]) && forall j {:trigger IsResearchRole(es[j])} :: 0 <= j < i ==> !IsResearchRole(es[j])
    ensures SelectCurrent(es) == i
  {
    NoOngoingFrom(es, 0);
    FirstResearchAt(es, 0, i);
  }

  /** An empty dict that is the first ongoing entry does not stop the search: the
      first research entry is chosen instead. */
  lemma EmptyOngoingFallsThrough(es: seq<Fields>, i: nat)
    requires i < |es| && FirstOngoingFrom(es, 0) >= 0 && es[FirstOngoingFrom(es, 0)] == []
    requires IsResearchRole(es[i]) && forall j {:trigger IsResearchRole(es[j])} :: 0 <= j < i ==> !IsResearchRole(es[j])
    ensures SelectCurrent(es) == i
  {
    FirstResearchAt(es, 0, i);
  }

  /** Tier 3: with neither, the first entry is chosen. */
  lemma CurrentIsFirstEntry(es: seq<Fields>)
    requires es != []
    requires forall j {:trigger IsOngoing(es[j])} :: 0 <= j < |es| ==> !IsOngoing(es[j])
    requires forall j {:trigger IsResearchRole(es[j])} :: 0 <= j < |es| ==> !IsResearchRole(es[j])
    ensures SelectCurrent(es) == 0
  {
    NoOngoingFrom(es, 0);
    NoResearchFrom(es, 0);
  }

  /** The entry chosen is empty only when it is the first entry, reached by tier 3. */
  lemma EmptyCurrentIsFirst(es: seq<Fields>)
    requires es != [] && es[SelectCurrent(es)] == []
    ensures SelectCurrent(es) == 0
  {
    var t2 := FirstResearchFrom(es, 0);
    if t2 >= 0 {
      ResearchRoleNotEmpty(es[t2]);
    }
  }

  /** An empty dict never has a research designation. */
  lemma ResearchRoleNotEmpty(e: Fields)
    requires IsResearchRole(e)
    ensures e != []
  {
    if e == [] {
      assert Lower(Str(JStr(""))) == "";
      forall k | 0 <= k < |ResearchTerms| ensures !Contains("", ResearchTerms[k]) {
        ForeignCharNotContained("", {}, ResearchTerms[k], 0);
      }
    }
  }

  /** The selection loops of `_map_work_experience`: a first pass that breaks at the
      first ongoing entry, a second pass over designations when the first found
      nothing (or an empty dict), and the first entry as the last resort. */
  method FindCurrentExperience(es: seq<Fields>) returns (k: int)
    ensures k == SelectCurrent(es)
  {
    k := -1;
    var i := 0;
    while i < |es|
      invariant 0 <= i <= |es|
      invariant FirstOngoingFrom(es, i) == FirstOngoingFrom(es, 0)
    {
      if IsOngoing(es[i]) {
        k := i;
        break;
      }
      i := i + 1;
    }
    if (k < 0 || es[k] == []) && es != [] {
      var found := -1;
      i := 0;
      while i < |es|
        invariant 0 <= i <= |es|
        invariant FirstResearchFrom(es, i) == FirstResearchFrom(es, 0)
      {
        if IsResearchRole(es[i]) {
          found := i;
          break;
        }
        i := i + 1;
      }
      if found >= 0 {
        ResearchRoleNotEmpty(es[found]);
        k := found;
      } else {
        k := 0;
      }
    }
  }

  /** `int(exp.get(key, 0)) if exp.get(key) is not None else 0`: `None` where `int`
      raises `ValueError` or `TypeError` and the entry is skipped. */
  function DeclaredInt(e: Fields, key: string): Option<int>
  {
    var v := GetOr(e, key, JNull);
    if v.JNull? then Some(0) else IntOf(v)
  }

  /** The years and months one previous entry adds: its declared values, or, when
      both are 0, the span of its dates if both are given; `None` when skipped. */
  function EntryDuration(e: Fields, today: Date): Option<(int, int)>
    requires ValidDate(today)
  {
    match (DeclaredInt(e, "years"), DeclaredInt(e, "months"))
    case (Some(y), Some(m)) =>
      if y == 0 && m == 0 then
        var from := GetOr(e, "from_date", JStr(""));
        var to := GetOr(e, "to_date", JStr(""));
        if Truthy(from) && Truthy(to) then Some(ExperienceFromDates(from, to, today)) else Some((0, 0))
      else Some((y, m))
    case _ => None
  }

  /** A declared duration other than zero is taken as it is, dates aside. */
  lemma DeclaredDurationWins(e: Fields, today: Date, y: int, m: int)
    requires ValidDate(today)
    requires DeclaredInt(e, "years") == Some(y) && DeclaredInt(e, "months") == Some(m)
    requires y != 0 || m != 0
    ensures EntryDuration(e, today) == Some((y, m))
  {
  }

  /** A declared `years` or `months` that is not `None` and that `int()` refuses
      ("2.5", "abc", a list, a dict) makes the entry count for nothing. */
  lemma UnparsableDurationSkipped(e: Fields, today: Date)
    requires ValidDate(today)
    requires (var v := GetOr(e, "years", JNull); v != JNull && IntOf(v).None?)
          || (var v := GetOr(e, "months", JNull); v != JNull && IntOf(v).None?)
    ensures EntryDuration(e, today).None?
  {
  }

  /** The empty text is such a value: `int("")` raises. */
  lemma EmptyDurationRefused()
    ensures IntOf(JStr("")).None?
  {
    assert Strip("") == "";
  }

  /** Whether the loop of `_calculate_previous_experience` counts an entry: it skips
      every entry equal to the current one under Python's `==`. */
  predicate IsPrevious(e: Fields, current: Fields)
  {
    !PyEq(JObj(e), JObj(current))
  }

  /** What one entry adds to the totals: nothing when it is skipped. */
  function Contribution(e: Fields, current: Fields, today: Date): Option<(int, int)>
    requires ValidDate(today)
  {
    if IsPrevious(e, current) then EntryDuration(e, today) else None
  }

  /** Adds an entry's years and months to the totals, unless it was skipped. */
  function AddContribution(acc: (int, int), d: Option<(int, int)>): (int, int)
  {
    if d.Some? then (acc.0 + d.value.0, acc.1 + d.value.1) else acc
  }

  /** The totals of what `f` makes of each entry, in order. */
  function SumBy(es: seq<Fields>, f: Fields --> Option<(int, int)>): (int, int)
    requires forall e :: f.requires(e)
  {
    if es == [] then (0, 0)
    else AddContribution(SumBy(es[..|es| - 1], f), f(es[|es| - 1]))
  }

  /** An entry `f` skips can be dropped without changing the totals. */
  lemma {:induction false} SumByDrop(es: seq<Fields>, f: Fields --> Option<(int, int)>, k: nat)
    requires forall e :: f.requires(e)
    requires k < |es| && f(es[k]).None?
    ensures SumBy(es, f) == SumBy(es[..k] + es[k + 1..], f)
  {
    var rest := es[..k] + es[k + 1..];
    if k < |es| - 1 {
      var front := es[..|es| - 1];
      assert front[k] == es[k];
      SumByDrop(front, f, k);
      assert rest[..|rest| - 1] == front[..k] + front[k + 1..];
      assert rest[|rest| - 1] == es[|es| - 1];
    } else {
      assert rest == es[..|es| - 1];
    }
  }

  function ContributionOf(current: Fields, today: Date): Fields --> Option<(int, int)>
  {
    e requires ValidDate(today) => Contribution(e, current, today)
  }

  /** `(total_years, total_months)` before normalisation: the sums over the
      entries counted and not skipped. */
  function RawPrevious(es: seq<Fields>, current: Fields, today: Date): (int, int)
    requires ValidDate(today)
  {
    SumBy(es, ContributionOf(current, today))
  }

  /** The totals after one more entry. */
  lemma RawPreviousStep(es: seq<Fields>, i: nat, current: Fields, today: Date)
    requires ValidDate(today) && i < |es|
    ensures RawPrevious(es[..i + 1], current, today)
            == AddContribution(RawPrevious(es[..i], current, today), Contribution(es[i], current, today))
  {
    assert es[..i + 1][..i] == es[..i];
  }

  /** The current entry adds nothing: the totals are those of the other entries. */
  lemma CurrentNotCounted(es: seq<Fields>, k: nat, today: Date)
    requires ValidDate(today) && k < |es|
    ensures RawPrevious(es, es[k], today) == RawPrevious(es[..k] + es[k + 1..], es[k], today)
  {
    PyEqReflexive(JObj(es[k]));
    SumByDrop(es, ContributionOf(es[k], today), k);
  }

  /** Whole years are carried out of the months: `y += m // 12; m %= 12`. */
  function NormalizeMonths(raw: (int, int)): (r: (int, int))
    ensures 0 <= r.1 < 12
    ensures 12 * r.0 + r.1 == 12 * raw.0 + raw.1
  {
    (raw.0 + raw.1 / 12, raw.1 % 12)
  }

  /** `_calculate_previous_experience`: the loop that adds up the entries other than
      the current one, then carries whole years out of the months. */
  method CalculatePreviousExperience(es: seq<Fields>, current: Fields, today: Date) returns (years: int, months: int)
    requires ValidDate(today)
    ensures (years, months) == NormalizeMonths(RawPrevious(es, current, today))
    ensures 0 <= months < 12
    ensures 12 * years + months == 12 * RawPrevious(es, current, today).0 + RawPrevious(es, current, today).1
  {
    var total := (0, 0);
    var i := 0;
    while i < |es|
      invariant 0 <= i <= |es|
      invariant total == RawPrevious(es[..i], current, today)
    {
      RawPreviousStep(es, i, current, today);
      var e := es[i];
      if IsPrevious(e, current) {
        total := AddContribution(total, EntryDuration(e, today));
      }
      i := i + 1;
    }
    assert es[..i] == es;
    years, months := total.0 + total.1 / 12, total.1 % 12;
  }

  /** The `currentExperience` dict. */
  datatype CurrentExperience = CurrentExperience(
    empApplnWorkExperienceId: Json,
    empApplnEntriesId: Json,
    workExperienceTypeId: Json,
    functionalAreaId: Json,
    functionalAreaOthers: Json,
    employmentType: Json,
    designation: Json,
    years: Json,
    months: Json,
    noticePeriod: Json,
    currentSalary: Json,
    institution: Json,
    experienceDocumentList: Json,
    functionalArea: Json,
    fromDate: Json,
    toDate: Json,
    isPartTime: Json,
    isCurrentExperience: Json)

  /** The dict built for the current entry. Reading `to_date` for the `is_current`
      argument calls `.lower()` on it, so a `to_date` that is present but not a
      string makes the mapping fail, as does a non-string `from_date` that is not empty. */
  function CurrentExperienceOf(e: Fields, today: Date): (r: Result<CurrentExperience, MapError>)
    requires ValidDate(today)
    ensures r.Ok? ==> r.value.years == JStr(IntToStr(YearsFromDates(GetOr(e, "from_date", JNull), GetOr(e, "to_date", JNull), today)))
    ensures r.Ok? ==> r.value.months == JStr(IntToStr(MonthsFromDates(GetOr(e, "from_date", JNull), GetOr(e, "to_date", JNull), today)))
    ensures r.Ok? <==> ParseDateArray(GetOr(e, "from_date", JNull)).Ok? && GetOr(e, "to_date", JStr("")).JStr?
  {
    var from := GetOr(e, "from_date", JNull);
    var to := GetOr(e, "to_date", JNull);
    var fromDate :- ParseDateArray(from);
    if !GetOr(e, "to_date", JStr("")).JStr? then Err(MappingFailed)
    else
      assert to.JNull? || to.JStr?;
      var toDate := ParseDateArray(to).value;
      Ok(CurrentExperience(
        empApplnWorkExperienceId := JInt(0),
        empApplnEntriesId := JInt(0),
        workExperienceTypeId := JStr("2"),
        functionalAreaId := JStr("13"),
        functionalAreaOthers := JNull,
        employmentType := GetOr(e, "employment_type", JStr("fulltime")),
        designation := GetOr(e, "designation", JStr("")),
        years := JStr(IntToStr(YearsFromDates(from, to, today))),
        months := JStr(IntToStr(MonthsFromDates(from, to, today))),
        noticePeriod := JStr(Str(GetOr(e, "notice_period", JInt(30)))),
        currentSalary := JStr(Str(GetOr(e, "current_salary", JInt(0)))),
        institution := GetOr(e, "company", JStr("")),
        experienceDocumentList := JList([]),
        functionalArea := JNull,
        fromDate := fromDate,
        toDate := toDate,
        isPartTime := JNull,
        isCurrentExperience := JNull))
  }

  /** The `professionalExperienceDTO` dict. */
  datatype ProfessionalExperience = ProfessionalExperience(
    isCurrentlyWorking: Json,
    currentExperience: Option<CurrentExperience>,
    professionalExperienceList: Json,
    totalPreviousExperienceYears: Json,
    totalPreviousExperienceMonths: Json,
    totalPartTimePreviousExperienceYears: Json,
    totalPartTimePreviousExperienceMonths: Json,
    recognisedExpYears: Json,
    recognisedExpMonths: Json,
    fullTimeYears: Json,
    fullTimeMonths: Json,
    partTimeYears: Json,
    partTimeMonths: Json,
    majorAchievements: Json,
    expectedSalary: Json,
    experienceInformation: Json,
    majorAchievementsList: Json)

  function ExperienceSection(working: bool, current: Option<CurrentExperience>, totals: (int, int)): ProfessionalExperience
  {
    ProfessionalExperience(
      isCurrentlyWorking := JStr(if working then "Yes" else "No"),
      currentExperience := current,
      professionalExperienceList := JNull,
      totalPreviousExperienceYears := JStr(IntToStr(totals.0)),
      totalPreviousExperienceMonths := JStr(IntToStr(totals.1)),
      totalPartTimePreviousExperienceYears := JStr("0"),
      totalPartTimePreviousExperienceMonths := JStr("0"),
      recognisedExpYears := JNull,
      recognisedExpMonths := JNull,
      fullTimeYears := JNull,
      fullTimeMonths := JNull,
      partTimeYears := JNull,
      partTimeMonths := JNull,
      majorAchievements := JNull,
      expectedSalary := JNull,
      experienceInformation := JNull,
      majorAchievementsList := JNull)
  }

  /** The previous-experience totals when entry `k` is the current one: those of
      the other entries, with whole years carried out of the months. */
  function PreviousTotals(es: seq<Fields>, k: nat, today: Date): (r: (int, int))
    requires ValidDate(today) && k < |es|
    ensures var raw := RawPrevious(es[..k] + es[k + 1..], es[k], today);
            0 <= r.1 < 12 && 12 * r.0 + r.1 == 12 * raw.0 + raw.1
  {
    CurrentNotCounted(es, k, today);
    NormalizeMonths(RawPrevious(es, es[k], today))
  }

  /** `_map_work_experience(work_exp)`: an empty value gives a section that is not
      working with zero totals; a list of dicts gives the current entry and the
      previous totals; anything else has entries without `.get` and fails. */
  function WorkSection(work: Json, today: Date): Result<ProfessionalExperience, MapError>
    requires ValidDate(today)
  {
    if !Truthy(work) then Ok(ExperienceSection(false, None, (0, 0)))
    else
      match AsDictList(work)
      case None => Err(MappingFailed)
      case Some(es) =>
        var cur := es[SelectCurrent(es)];
        var totals := PreviousTotals(es, SelectCurrent(es), today);
        if cur == [] then Ok(ExperienceSection(false, None, totals))
        else
          var dto :- CurrentExperienceOf(cur, today);
          Ok(ExperienceSection(true, Some(dto), totals))
  }

  /** An empty work history is not current work, with "0" totals. */
  lemma NoWorkNotWorking(work: Json, today: Date)
    requires ValidDate(today) && !Truthy(work)
    ensures var r := WorkSection(work, today);
            r.Ok? && r.value.isCurrentlyWorking == JStr("No") && r.value.currentExperience.None?
            && r.value.totalPreviousExperienceYears == JStr("0") && r.value.totalPreviousExperienceMonths == JStr("0")
  {
  }

  /** A non-empty list is current work exactly when the chosen entry is not an empty
      dict, which can only be the first entry; the current entry's dict is present
      exactly then. */
  lemma WorkingIffChosenNotEmpty(work: Json, es: seq<Fields>, today: Date)
    requires ValidDate(today) && es != [] && AsDictList(work) == Some(es)
    requires WorkSection(work, today).Ok?
    ensures var r := WorkSection(work, today).value;
            (r.isCurrentlyWorking == JStr("Yes") <==> es[SelectCurrent(es)] != [])
            && (r.currentExperience.Some? <==> es[SelectCurrent(es)] != [])
    ensures es[SelectCurrent(es)] == [] ==> es[0] == []
  {
    if es[SelectCurrent(es)] == [] {
      EmptyCurrentIsFirst(es);
    }
  }

  /** `_map_work_experience` as the source runs it: the selection loops, then the
      accumulation loop, then the dicts. */
  method MapWorkExperience(work: Json, today: Date) returns (r: Result<ProfessionalExperience, MapError>)
    requires ValidDate(today)
    ensures r == WorkSection(work, today)
  {
    if !Truthy(work) {
      return Ok(ExperienceSection(false, None, (0, 0)));
    }
    var entries := AsDictList(work);
    if entries.None? {
      return Err(MappingFailed);
    }
    var es := entries.value;
    var k := FindCurrentExperience(es);
    var cur := es[k];
    var years, months := CalculatePreviousExperience(es, cur, today);
    if cur == [] {
      r := Ok(ExperienceSection(false, None, (years, months)));
    } else {
      var dto := CurrentExperienceOf(cur, today);
      if dto.Err? {
        return Err(MappingFailed);
      }
      r := Ok(ExperienceSection(true, Some(dto.value), (years, months)));
    }
  }
}

/**
 * The per-entry rules of the education section: the qualification level id, the
 * highest level over all entries, the course-name normalisation, the completion
 * year and the ongoing status.
 */
module Education {
  import opened Results
  import opened PyStr
  import opened PyJson
  import opened Dates

  /** `_map_qualification_level`'s table, in its iteration order. */
  const LevelTable: seq<(string, string)> := [
    ("class 10", "1"), ("class 12", "2"), ("ug", "3"), ("pg", "4"), ("phd", "5"),
    ("ph.d", "5"), ("doctorate", "5"), ("master", "4"), ("msc", "4"), ("m.sc", "4"),
    ("bachelor", "3"), ("bsc", "3"), ("b.sc", "3")
  ]

  /** The level id used when nothing is known: undergraduate. */
  const DefaultLevelId := "3"

  /** One of "1" to "5". */
  predicate IsLevelId(r: string)
  {
    |r| == 1 && '1' <= r[0] <= '5'
  }

  /** The index of the first table key that occurs in `text`, or -1. */
  function FirstKeyIn(table: seq<(string, string)>, text: string): (r: int)
    ensures -1 <= r < |table|
    ensures r >= 0 ==> Contains(text, table[r].0)
    ensures r >= 0 ==> forall i :: 0 <= i < r ==> !Contains(text, table[i].0)
    ensures r == -1 <==> forall i :: 0 <= i < |table| ==> !Contains(text, table[i].0)
  {
    if table == [] then -1
    else if Contains(text, table[0].0) then 0
    else
      var r := FirstKeyIn(table[1..], text);
      assert forall i :: 1 <= i < |table| ==> table[i] == table[1..][i - 1];
      if r < 0 then -1 else r + 1
  }

  /** The first key the text holds is the one `FirstKeyIn` finds. */
  lemma FirstKeyInIs(table: seq<(string, string)>, text: string, i: nat)
    requires i < |table| && Contains(text, table[i].0)
    requires forall j :: 0 <= j < i ==> !Contains(text, table[j].0)
    ensures FirstKeyIn(table, text) == i
  {
  }

  /** `_map_qualification_level(level)`: the id of the first key contained in the
      stripped, lower-cased level, else undergraduate. */
  function MapQualificationLevel(level: Json): (r: string)
    ensures IsLevelId(r)
    ensures !Truthy(level) ==> r == DefaultLevelId
  {
    if !Truthy(level) then DefaultLevelId else LevelIdOf(Lower(Strip(Str(level))))
  }

  /** The id the table gives a stripped, lower-cased level text. */
  function LevelIdOf(text: string): (r: string)
    ensures IsLevelId(r)
  {
    var k := FirstKeyIn(LevelTable, text);
    if k < 0 then DefaultLevelId else LevelIdAt(k)
  }

  function LevelIdAt(k: nat): (r: string)
    requires k < |LevelTable|
    ensures IsLevelId(r)
  {
    LevelTable[k].1
  }

  /** The key that decides is the first in table order that the level text holds. */
  lemma LevelIdOfFirstKey(text: string, i: nat)
    requires i < |LevelTable| && Contains(text, LevelTable[i].0)
    requires forall j :: 0 <= j < i ==> !Contains(text, LevelTable[j].0)
    ensures LevelIdOf(text) == LevelTable[i].1
  {
    FirstKeyInIs(LevelTable, text, i);
  }

  /** A level text holding no key of the table gets the undergraduate id. */
  lemma LevelIdOfNoKey(text: string)
    requires forall j :: 0 <= j < |LevelTable| ==> !Contains(text, LevelTable[j].0)
    ensures LevelIdOf(text) == DefaultLevelId
  {
  }

  const DoctoralTerms := ["phd", "ph.d", "doctorate"]
  const PostgraduateTerms := ["pg", "post graduate", "master", "msc", "m.sc"]
  const UndergraduateTerms := ["ug", "undergraduate", "bachelor", "bsc", "b.sc"]
  const Class12Terms := ["class 12", "12th"]
  const Class10Terms := ["class 10", "10th"]

  /** The ordinal `_find_highest_qualification` gives one entry's level text; the
      first tier with a term in the text wins, and `None` means the entry is ignored. */
  function ClassifyLevel(text: string): (r: Option<int>)
    ensures r.Some? ==> 1 <= r.value <= 5
    ensures r.None? <==> !ContainsAny(text, DoctoralTerms) && !ContainsAny(text, PostgraduateTerms)
                         && !ContainsAny(text, UndergraduateTerms) && !ContainsAny(text, Class12Terms)
                         && !ContainsAny(text, Class10Terms)
  {
    if ContainsAny(text, DoctoralTerms) then Some(5)
    else if ContainsAny(text, PostgraduateTerms) then Some(4)
    else if ContainsAny(text, UndergraduateTerms) then Some(3)
    else if ContainsAny(text, Class12Terms) then Some(2)
    else if ContainsAny(text, Class10Terms) then Some(1)
    else None
  }

  /** The terms of tier `k`, from 1 (class 10) to 5 (doctoral). */
  function TierTerms(k: int): seq<string>
    requires 1 <= k <= 5
  {
    if k == 5 then DoctoralTerms
    else if k == 4 then PostgraduateTerms
    else if k == 3 then UndergraduateTerms
    else if k == 2 then Class12Terms
    else Class10Terms
  }

  /** The cascade ranks the tiers 5 > 4 > 3 > 2 > 1: a text gets ordinal `k` exactly
      when it holds a term of tier `k` and no term of a higher tier. */
  lemma ClassifyLevelIff(text: string, k: int)
    requires 1 <= k <= 5
    ensures ClassifyLevel(text) == Some(k) <==>
              ContainsAny(text, TierTerms(k)) && forall h :: k < h <= 5 ==> !ContainsAny(text, TierTerms(h))
  {
    assert TierTerms(5) == DoctoralTerms && TierTerms(4) == PostgraduateTerms;
    assert TierTerms(3) == UndergraduateTerms && TierTerms(2) == Class12Terms;
    if ClassifyLevel(text) == Some(k) {
      forall h | k < h <= 5 ensures !ContainsAny(text, TierTerms(h)) {
      }
    }
  }

  /** The text an entry is classified by. */
  function LevelText(edu: Fields): string
  {
    Lower(Strip(Str(GetOr(edu, "qualification_level", JStr("")))))
  }

  function LevelOf(edu: Fields): Option<int>
  {
    ClassifyLevel(LevelText(edu))
  }

  /** The ordinal of each entry, or `None` where the entry is ignored. */
  function Ordinals(edus: seq<Fields>): (os: seq<Option<int>>)
    ensures |os| == |edus| && forall i :: 0 <= i < |edus| ==> os[i] == LevelOf(edus[i])
  {
    seq(|edus|, i requires 0 <= i < |edus| => LevelOf(edus[i]))
  }

  /** The `levels` list: the present ordinals, in order. */
  function Collect(os: seq<Option<int>>): (r: seq<int>)
    ensures |r| <= |os|
  {
    if os == [] then []
    else
      var rest := Collect(os[..|os| - 1]);
      match os[|os| - 1]
      case Some(l) => rest + [l]
      case None => rest
  }

  /** Collecting one more ordinal appends it when it is present. */
  lemma CollectStep(os: seq<Option<int>>, i: nat)
    requires i < |os|
    ensures Collect(os[..i + 1]) == Collect(os[..i]) + (if os[i].Some? then [os[i].value] else [])
  {
    assert os[..i + 1][..i] == os[..i];
  }

  /** Every ordinal collected is present in the input. */
  lemma {:induction false} CollectSound(os: seq<Option<int>>, i: nat)
    requires i < |Collect(os)|
    ensures exists j :: 0 <= j < |os| && os[j] == Some(Collect(os)[i])
  {
    var front := os[..|os| - 1];
    if i < |Collect(front)| {
      CollectSound(front, i);
      var j :| 0 <= j < |front| && front[j] == Some(Collect(front)[i]);
      assert os[j] == front[j];
    } else {
      assert os[|os| - 1] == Some(Collect(os)[i]);
    }
  }

  /** Every present ordinal is collected. */
  lemma {:induction false} CollectComplete(os: seq<Option<int>>, j: nat)
    requires j < |os| && os[j].Some?
    ensures os[j].value in Collect(os)
  {
    var front := os[..|os| - 1];
    if j < |front| {
      assert front[j] == os[j];
      CollectComplete(front, j);
    }
  }

  /** Nothing is collected exactly when nothing is present. */
  lemma CollectEmpty(os: seq<Option<int>>)
    ensures Collect(os) == [] <==> forall j :: 0 <= j < |os| ==> os[j].None?
  {
    if Collect(os) == [] {
      forall j | 0 <= j < |os| ensures os[j].None? {
        if os[j].Some? {
          CollectComplete(os, j);
        }
      }
    } else {
      CollectSound(os, 0);
    }
  }

  function SeqMax(xs: seq<int>): (m: int)
    requires xs != []
    ensures m in xs
    ensures forall i :: 0 <= i < |xs| ==> xs[i] <= m
  {
    if |xs| == 1 then xs[0]
    else
      var m := SeqMax(xs[1..]);
      assert forall i :: 1 <= i < |xs| ==> xs[i] == xs[1..][i - 1];
      if xs[0] > m then xs[0] else m
  }

  /** The numeral of a level ordinal is its one digit. */
  lemma LevelNumeral(m: int)
    requires 1 <= m <= 5
    ensures IntToStr(m) == [DigitChar(m)] && IsLevelId(IntToStr(m))
  {
  }

  /** The highest level over the entries, as the numeral of its ordinal. */
  function HighestQualification(edus: seq<Fields>): string
  {
    var levels := Collect(Ordinals(edus));
    if levels == [] then DefaultLevelId else IntToStr(SeqMax(levels))
  }

  /** "3" when no entry is classified; otherwise the ordinal of some classified entry
      that no other classified entry exceeds. The result is always a level id. */
  lemma HighestQualificationIsMax(edus: seq<Fields>)
    ensures IsLevelId(HighestQualification(edus))
    ensures (forall j :: 0 <= j < |edus| ==> LevelOf(edus[j]).None?) ==>
              HighestQualification(edus) == DefaultLevelId
    ensures (exists j :: 0 <= j < |edus| && LevelOf(edus[j]).Some?) ==>
              exists j :: 0 <= j < |edus| && LevelOf(edus[j]).Some?
                          && HighestQualification(edus) == IntToStr(LevelOf(edus[j]).value)
                          && forall k :: 0 <= k < |edus| && LevelOf(edus[k]).Some? ==>
                                           LevelOf(edus[k]).value <= LevelOf(edus[j]).value
  {
    var os := Ordinals(edus);
    var levels := Collect(os);
    CollectEmpty(os);
    if levels != [] {
      var j := CollectedMax(os);
      assert forall k :: 0 <= k < |edus| ==> os[k] == LevelOf(edus[k]);
      LevelNumeral(os[j].value);
    }
  }

  /** The maximum of the collected ordinals is the ordinal at some position `j`, and
      no present ordinal exceeds it. */
  lemma CollectedMax(os: seq<Option<int>>) returns (j: nat)
    requires Collect(os) != []
    ensures j < |os| && os[j] == Some(SeqMax(Collect(os)))
    ensures forall k :: 0 <= k < |os| && os[k].Some? ==> os[k].value <= os[j].value
  {
    var levels := Collect(os);
    var m := SeqMax(levels);
    var i :| 0 <= i < |levels| && levels[i] == m;
    CollectSound(os, i);
    j :| 0 <= j < |os| && os[j] == Some(m);
    forall k | 0 <= k < |os| && os[k].Some?
      ensures os[k].value <= m
    {
      CollectComplete(os, k);
    }
  }

  /** `_find_highest_qualification`: collect the ordinals, then take their maximum. */
  method FindHighestQualification(education: seq<Fields>) returns (r: string)
    ensures r == HighestQualification(education)
  {
    ghost var os := Ordinals(education);
    var levels: seq<int> := [];
    var i := 0;
    while i < |education|
      invariant 0 <= i <= |education|
      invariant levels == Collect(os[..i])
    {
      CollectStep(os, i);
      var level := LevelOf(education[i]);
      if level.Some? {
        levels := levels + [level.value];
      }
      i := i + 1;
    }
    assert os[..i] == os;
    if levels == [] {
      r := DefaultLevelId;
    } else {
      r := IntToStr(SeqMax(levels));
    }
  }

  /** A level written out as "post graduate". */
  const PostGraduate := "post graduate"

  /** The characters of "post graduate". */
  const PostGraduateChars := {'p', 'o', 's', 't', ' ', 'g', 'r', 'a', 'd', 'u', 'e'}

  lemma PostGraduateSpelling()
    ensures OnlyChars(PostGraduate, PostGraduateChars)
  {
  }

  /** No key of the first table occurs in "post graduate". */
  lemma PostGraduateHasNoKey()
    ensures forall j :: 0 <= j < |LevelTable| ==> !Contains(PostGraduate, LevelTable[j].0)
  {
    var t, a := PostGraduate, PostGraduateChars;
    PostGraduateSpelling();
    forall j | 0 <= j < |LevelTable| ensures !Contains(t, LevelTable[j].0) {
      var key := LevelTable[j].0;
      if j == 2 || j == 3 {
        PairNotContained(t, key);
      } else if j <= 1 || j == 6 {
        ForeignCharNotContained(t, a, key, if j == 6 then 2 else 0);
      } else if j == 4 || j == 5 {
        ForeignCharNotContained(t, a, key, 1);
      } else {
        ForeignCharNotContained(t, a, key, 0);
      }
    }
  }

  /** "post graduate" holds no doctoral term. */
  lemma PostGraduateNotDoctoral()
    ensures !ContainsAny(PostGraduate, DoctoralTerms)
  {
    var t, a := PostGraduate, PostGraduateChars;
    PostGraduateSpelling();
    forall k | 0 <= k < |DoctoralTerms| ensures !Contains(t, DoctoralTerms[k]) {
      ForeignCharNotContained(t, a, DoctoralTerms[k], if k == 2 then 2 else 1);
    }
  }

  /** "post graduate" is a postgraduate level for the highest-level classification. */
  lemma PostGraduateClassified()
    ensures ClassifyLevel(PostGraduate) == Some(4)
  {
    PostGraduateNotDoctoral();
    assert ContainsAny(PostGraduate, PostgraduateTerms) by {
      assert PostGraduate[0..|PostGraduate|] == PostGraduate;
      ContainsAt(PostGraduate, PostgraduateTerms[1], 0);
    }
    ClassifyLevelIff(PostGraduate, 4);
  }

  /** The two tables disagree: the first has no "post graduate" key, so a
      post-graduate entry gets level id "3" while it counts as 4 for the highest level. */
  lemma LevelTablesDisagree()
    ensures MapQualificationLevel(JStr(PostGraduate)) == "3"
    ensures ClassifyLevel(PostGraduate) == Some(4)
  {
    PostGraduateText();
    PostGraduateHasNoKey();
    LevelIdOfNoKey(PostGraduate);
    PostGraduateClassified();
  }

  /** The level text of "post graduate" is itself. */
  lemma PostGraduateText()
    ensures Lower(Strip(Str(JStr(PostGraduate)))) == PostGraduate
  {
    var t := PostGraduate;
    assert Str(JStr(t)) == t;
    StripNoSpace(t);
    assert Lower(t) == t;
  }

  const DesignationTerms := ["researcher", "scholar", "candidate", "student"]
  const InstitutionTerms := ["university", "college", "institute", "school", "mumbai", "delhi", "iit", "mit", "harvard", "stanford"]
  const DegreeTokens := ["PH.D", "M.SC", "B.SC", "B.TECH", "M.TECH", "MBA", "CLASS"]

  /** The degree a designation-like course stands for, by level. */
  function DesignationDegree(q: string): Option<string>
  {
    if Contains(q, "phd") || Contains(q, "ph.d") then Some("Ph.D.")
    else if Contains(q, "pg") || Contains(q, "master") then Some("M.Sc.")
    else if Contains(q, "ug") || Contains(q, "bachelor") then Some("B.Sc.")
    else if Contains(q, "class 12") then Some("Class 12")
    else if Contains(q, "class 10") then Some("Class 10")
    else None
  }

  /** The degree an institution-like or unknown course stands for, by level; it
      also knows "msc" and "bsc". */
  function LevelDegree(q: string): Option<string>
  {
    if Contains(q, "phd") || Contains(q, "ph.d") then Some("Ph.D.")
    else if Contains(q, "pg") || Contains(q, "master") || Contains(q, "msc") then Some("M.Sc.")
    else if Contains(q, "ug") || Contains(q, "bachelor") || Contains(q, "bsc") then Some("B.Sc.")
    else if Contains(q, "class 12") then Some("Class 12")
    else if Contains(q, "class 10") then Some("Class 10")
    else None
  }

  /** Every level the designation rule knows, the institution rule knows too. */
  lemma DesignationDegreeIncluded(q: string)
    ensures DesignationDegree(q).Some? ==> LevelDegree(q).Some?
  {
  }

  predicate IsDegreeName(r: string)
  {
    r == "Ph.D." || r == "M.Sc." || r == "B.Sc." || r == "Class 12" || r == "Class 10"
  }

  /** `_normalize_course_name(course, qualification_level)` */
  function NormalizeCourseName(course: Json, level: Json): (r: string)
    ensures !Truthy(course) ==> r == ""
    ensures Truthy(course) ==> IsDegreeName(r) || r == Strip(Str(course))
  {
    if !Truthy(course) then "" else CourseText(Strip(Str(course)), Lower(Str(level)))
  }

  /** The rules on the stripped course `c` and the lower-cased level `q`: a
      designation or an institution given as the course is replaced by the degree
      of the level, a course naming a degree is kept, anything else is replaced by
      the degree of the level when there is one. */
  function CourseText(c: string, q: string): (r: string)
    ensures IsDegreeName(r) || r == c
  {
    if ContainsAny(Lower(c), DesignationTerms) && DesignationDegree(q).Some? then DesignationDegree(q).value
    else if ContainsAny(Lower(c), InstitutionTerms) && LevelDegree(q).Some? then LevelDegree(q).value
    else if ContainsAny(Upper(c), DegreeTokens) then c
    else if LevelDegree(q).Some? then LevelDegree(q).value
    else c
  }

  /** A designation given as the course of a doctoral entry becomes "Ph.D.". */
  lemma CourseDesignationDoctoral(course: Json, level: Json)
    requires Truthy(course) && ContainsAny(Lower(Strip(Str(course))), DesignationTerms)
    requires Contains(Lower(Str(level)), "phd") || Contains(Lower(Str(level)), "ph.d")
    ensures NormalizeCourseName(course, level) == "Ph.D."
  {
  }

  /** A course already written as a degree, with no designation or institution term,
      is kept as it is, only stripped. */
  lemma CourseDegreeKept(course: Json, level: Json)
    requires Truthy(course)
    requires var c := Strip(Str(course));
             !ContainsAny(Lower(c), DesignationTerms) && !ContainsAny(Lower(c), InstitutionTerms)
             && ContainsAny(Upper(c), DegreeTokens)
    ensures NormalizeCourseName(course, level) == Strip(Str(course))
  {
  }

  /** When the level names no known degree, no rule applies and the stripped course
      comes back. */
  lemma CourseUnmapped(course: Json, level: Json)
    requires Truthy(course) && LevelDegree(Lower(Str(level))).None?
    ensures NormalizeCourseName(course, level) == Strip(Str(course))
  {
    DesignationDegreeIncluded(Lower(Str(level)));
  }

  /** The characters of the five degree names once lower-cased. */
  const DegreeNameChars: set<char> := {'p', 'h', '.', 'd', 'm', 's', 'c', 'b', 'l', 'a', ' ', '0', '1', '2'}

  /** A text written in those characters holds no designation or institution term:
      each term has a letter outside them. */
  lemma DegreeCharsAvoidTerms(low: string)
    requires OnlyChars(low, DegreeNameChars)
    ensures !ContainsAny(low, DesignationTerms) && !ContainsAny(low, InstitutionTerms)
  {
    var a := DegreeNameChars;
    ForeignCharNotContained(low, a, "researcher", 0);
    ForeignCharNotContained(low, a, "scholar", 3);
    ForeignCharNotContained(low, a, "candidate", 2);
    ForeignCharNotContained(low, a, "student", 2);
    ForeignCharNotContained(low, a, "university", 0);
    ForeignCharNotContained(low, a, "college", 1);
    ForeignCharNotContained(low, a, "institute", 0);
    ForeignCharNotContained(low, a, "school", 3);
    ForeignCharNotContained(low, a, "mumbai", 1);
    ForeignCharNotContained(low, a, "delhi", 1);
    ForeignCharNotContained(low, a, "iit", 0);
    ForeignCharNotContained(low, a, "mit", 1);
    ForeignCharNotContained(low, a, "harvard", 2);
    ForeignCharNotContained(low, a, "stanford", 1);
  }

  /** Each degree name, upper-cased, holds a degree token, and lower-cased, uses
      only the degree-name characters. */
  lemma DegreeNameShape(name: string)
    requires IsDegreeName(name)
    ensures OnlyChars(Lower(name), DegreeNameChars)
    ensures ContainsAny(Upper(name), DegreeTokens)
  {
    if name == "Ph.D." {
      assert Upper(name) == "PH.D.";
      ContainsAt("PH.D.", DegreeTokens[0], 0);
    } else if name == "M.Sc." {
      assert Upper(name) == "M.SC.";
      ContainsAt("M.SC.", DegreeTokens[1], 0);
    } else if name == "B.Sc." {
      assert Upper(name) == "B.SC.";
      ContainsAt("B.SC.", DegreeTokens[2], 0);
    } else if name == "Class 12" {
      assert Upper(name) == "CLASS 12";
      ContainsAt("CLASS 12", DegreeTokens[6], 0);
    } else {
      assert Upper(name) == "CLASS 10";
      ContainsAt("CLASS 10", DegreeTokens[6], 0);
    }
  }

  /** The five degree names are fixed points of the rules, whatever the level. */
  lemma DegreeNameStable(name: string, q: string)
    requires IsDegreeName(name)
    ensures CourseText(name, q) == name
  {
    DegreeNameShape(name);
    DegreeCharsAvoidTerms(Lower(name));
  }

  /** Normalising a normalised course changes nothing. */
  lemma NormalizeCourseNameIdempotent(course: Json, level: Json)
    requires NormalizeCourseName(course, level) != ""
    ensures NormalizeCourseName(JStr(NormalizeCourseName(course, level)), level) == NormalizeCourseName(course, level)
  {
    var c := Strip(Str(course));
    var q := Lower(Str(level));
    var r := CourseText(c, q);
    assert NormalizeCourseName(course, level) == r;
    assert Strip(Str(JStr(r))) == r by {
      assert Str(JStr(r)) == r;
      StripNoSpace(r);
    }
    assert NormalizeCourseName(JStr(r), level) == CourseText(r, q);
    CourseTextIdempotent(c, q);
  }

  lemma CourseTextIdempotent(c: string, q: string)
    ensures CourseText(CourseText(c, q), q) == CourseText(c, q)
  {
    if IsDegreeName(CourseText(c, q)) {
      DegreeNameStable(CourseText(c, q), q);
    }
  }

  /** `(\d{4})-(\d{4})` matches at `i`. */
  predicate RangeAt(s: string, i: int)
  {
    0 <= i && DigitsAt(s, i, 4) && i + 9 <= |s| && s[i + 4] == '-' && DigitsAt(s, i + 5, 4)
  }

  /** `re.search` for a year range: the leftmost match at or after `from`, or -1. */
  function FindRange(s: string, from: nat): (r: int)
    ensures r == -1 || (from <= r && RangeAt(s, r))
    ensures r == -1 ==> forall i :: from <= i ==> !RangeAt(s, i)
    ensures r != -1 ==> forall i :: from <= i < r ==> !RangeAt(s, i)
    decreases |s| - from
  {
    if from + 9 > |s| then -1
    else if RangeAt(s, from) then from
    else FindRange(s, from + 1)
  }

  predicate IsYearText(r: string)
  {
    |r| == 4 && AllDigits(r)
  }

  /** `_extract_year_from_completion`: "" for an empty value, else the year found in
      the stripped text. */
  function ExtractYearFromCompletion(j: Json): (r: string)
    ensures !Truthy(j) ==> r == ""
  {
    if !Truthy(j) then "" else CompletionYear(Strip(Str(j)))
  }

  /** The year of a stripped completion text: the text itself when it is four digits,
      else the end year of the first range, else the first 19xx/20xx year, else "". */
  function CompletionYear(c: string): (r: string)
    ensures r == "" || (IsYearText(r) && exists i :: OccursAt(c, r, i))
  {
    if IsDigitString(c) && |c| == 4 then
      assert OccursAt(c, c, 0);
      c
    else
      var i := FindRange(c, 0);
      if i >= 0 then
        var y := c[i + 5..i + 9];
        assert forall j :: 0 <= j < 4 ==> y[j] == c[i + 5 + j];
        assert IsYearText(y);
        assert OccursAt(c, y, i + 5);
        y
      else
        var k := FindYear(c, 0);
        if k >= 0 then
          var y := c[k..k + 4];
          assert y[0] == c[k] && y[1] == c[k + 1] && y[2] == c[k + 2] && y[3] == c[k + 3];
          assert IsYearText(y);
          assert OccursAt(c, y, k);
          y
        else ""
  }

  /** A range beats every bare year: the end year of the leftmost range is taken,
      even when a year occurs before it. */
  lemma RangeWins(c: string, i: int)
    requires RangeAt(c, i) && forall j :: 0 <= j < i ==> !RangeAt(c, j)
    ensures CompletionYear(c) == c[i + 5..i + 9]
  {
    assert !(IsDigitString(c) && |c| == 4);
    assert FindRange(c, 0) == i;
  }

  /** With no range anywhere, the leftmost bounded 19xx/20xx year is taken. */
  lemma FirstYearWins(c: string, k: int)
    requires forall i :: !RangeAt(c, i)
    requires YearAt(c, k) && forall j :: 0 <= j < k ==> !YearAt(c, j)
    ensures CompletionYear(c) == c[k..k + 4]
  {
    if IsDigitString(c) && |c| == 4 {
      assert k == 0;
      assert c[0..4] == c;
    } else {
      assert FindRange(c, 0) == -1;
      assert FindYear(c, 0) == k;
    }
  }

  /** A text that is not itself four digits and holds neither a range nor a year
      gives "". */
  lemma NoYearEmpty(c: string)
    requires !(IsDigitString(c) && |c| == 4)
    requires forall i :: !RangeAt(c, i)
    requires forall i :: !YearAt(c, i)
    ensures CompletionYear(c) == ""
  {
    assert FindRange(c, 0) == -1;
    assert FindYear(c, 0) == -1;
  }

  /** "2014 and 2016-2018" gives "2018": the range wins over the earlier year. */
  lemma RangeBeatsEarlierYear()
    ensures CompletionYear("2014 and 2016-2018") == "2018"
  {
    var c := "2014 and 2016-2018";
    assert RangeAt(c, 9);
    forall j | 0 <= j < 9 ensures !RangeAt(c, j) {
      assert c[j + 4] != '-';
    }
    RangeWins(c, 9);
    assert c[14..18] == "2018";
  }

  /** A bare year comes back unchanged. */
  lemma ExactYearKept(s: string)
    requires IsYearText(s)
    ensures ExtractYearFromCompletion(JStr(s)) == s
  {
    StripNoSpace(s);
  }

  /** A range gives its end year. */
  lemma RangeGivesEndYear(a: string, b: string)
    requires IsYearText(a) && IsYearText(b)
    ensures ExtractYearFromCompletion(JStr(a + "-" + b)) == b
  {
    var s := a + "-" + b;
    RangeTextShape(a, b);
    assert Str(JStr(s)) == s;
    StripNoSpace(s);
  }

  /** The text of a range starts and ends with a digit, is a range at 0, and ends
      with its second year. */
  lemma RangeTextShape(a: string, b: string)
    requires IsYearText(a) && IsYearText(b)
    ensures var s := a + "-" + b;
            && |s| == 9 && IsDigit(s[0]) && IsDigit(s[8])
            && FindRange(s, 0) == 0 && s[5..9] == b
  {
    var s := a + "-" + b;
    assert forall k :: 0 <= k < 4 ==> s[k] == a[k] && s[5 + k] == b[k];
    assert RangeAt(s, 0);
    assert s[5..9] == b;
  }

  /** A text without digits, such as "Thesis submitted", "Ongoing" or "Pursuing",
      gives "". */
  lemma NoDigitsNoYear(c: string)
    requires forall i :: 0 <= i < |c| ==> !IsDigit(c[i])
    ensures CompletionYear(c) == ""
  {
    forall i ensures !RangeAt(c, i) {
      if 0 <= i < |c| {
        assert !IsDigit(c[i]);
      }
    }
    NoDigitNoYear(c);
  }

  /** A year after a text without digits, such as "Thesis submitted 2024", is found:
      the year wins over the ongoing phrase. */
  lemma EmbeddedYearFound(prefix: string, year: string)
    requires prefix != [] && !IsWordChar(prefix[|prefix| - 1])
    requires forall i :: 0 <= i < |prefix| ==> !IsDigit(prefix[i])
    requires IsYearText(year) && (year[..2] == "19" || year[..2] == "20")
    ensures CompletionYear(prefix + year) == year
  {
    var s := prefix + year;
    var n := |prefix|;
    assert !IsDigitString(s) by {
      assert !IsDigit(s[0]);
    }
    assert FindRange(s, 0) == -1 by {
      forall i ensures !RangeAt(s, i) {
        if 0 <= i < n {
          assert !IsDigit(s[i]);
        }
      }
    }
    assert FindYear(s, 0) == n by {
      assert year[0] == year[..2][0] && year[1] == year[..2][1];
      assert YearAt(s, n);
      assert forall i :: 0 <= i < n ==> !YearAt(s, i);
      FindYearIs(s, n);
    }
    assert s[n..n + 4] == year;
  }

  const OngoingPhrases := ["thesis submitted", "ongoing", "pursuing", "current"]

  /** `_get_current_status`: the title-cased status text when it names an ongoing
      state, else `None`. */
  function GetCurrentStatus(j: Json): (r: Json)
    ensures r.JNull? || r.JStr?
    ensures r.JStr? <==> Truthy(j) && ContainsAny(Lower(Strip(Str(j))), OngoingPhrases)
    ensures r.JStr? ==> Lower(r.s) == Lower(Strip(Str(j)))
    ensures r.JStr? ==> Title(r.s) == r.s
  {
    if !Truthy(j) then JNull
    else
      var s := Lower(Strip(Str(j)));
      if ContainsAny(s, OngoingPhrases) then
        LowerTitleFrom(s, false);
        LowerIdempotent(Strip(Str(j)));
        TitleIdempotent(s);
        JStr(Title(s))
      else JNull
  }
}

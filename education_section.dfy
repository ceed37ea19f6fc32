/**
 * `_map_education_data`: the `educationalDetailDTO` dict, with one entry per
 * education record and the highest level over all of them.
 */
module EducationSection {
  import opened Results
  import opened PyStr
  import opened PyJson
  import opened MasterData
  import opened Education

  /** One dict of `qualificationLevelsList`. */
  datatype QualificationEntry = QualificationEntry(
    empApplnEducationalDetailsId: Json,
    empApplnEntriesId: Json,
    qualificationName: Json,
    qualificationLevelId: Json,
    qualificationOthers: Json,
    currentStatus: Json,
    course: Json,
    specialization: Json,
    yearOfCompletion: Json,
    gradeOrPercentage: Json,
    institute: Json,
    boardOrUniversity: Json,
    documentList: Json,
    qualificationLevelName: Json,
    countryId: Json,
    stateId: Json,
    stateOther: Json,
    erpInstitute: Json,
    erpBoardOrUniversity: Json,
    qualificationLevelCode: Json,
    countryName: Json,
    stateName: Json)

  /** The `educationalDetailDTO` dict. */
  datatype EducationDetail = EducationDetail(
    highestQualificationLevelId: Json,
    highestQualificationAlbum: Json,
    highestQualification: Json,
    qualificationLevelsList: seq<QualificationEntry>,
    eligibilityTestList: Json,
    otherQualificationLevelsList: Json,
    empEducationalDetailsMap: Json,
    eligibilityTestDetails: Json,
    empEducationalDetailsDTOS: Json,
    studentEducationalDetailsDTOList: Json)

  /** The entry for one education record. The status falls back to the year of
      completion when no `current_status` is given; the country to "India". */
  function EntryOf(catalog: Catalog, edu: Fields): QualificationEntry
  {
    var level := GetOr(edu, "qualification_level", JStr(""));
    QualificationEntry(
      empApplnEducationalDetailsId := JInt(0),
      empApplnEntriesId := JInt(0),
      qualificationName := JNull,
      qualificationLevelId := JStr(MapQualificationLevel(level)),
      qualificationOthers := JNull,
      currentStatus := GetCurrentStatus(GetOr(edu, "current_status", GetOr(edu, "year_of_completion", JStr("")))),
      course := JStr(NormalizeCourseName(GetOr(edu, "course", JStr("")), level)),
      specialization := GetOr(edu, "specialization", JStr("")),
      yearOfCompletion := JStr(ExtractYearFromCompletion(GetOr(edu, "year_of_completion", JStr("")))),
      gradeOrPercentage := GetOr(edu, "grade_or_percentage", JStr("")),
      institute := GetOr(edu, "institute", JStr("")),
      boardOrUniversity := GetOr(edu, "board_or_university", JStr("")),
      documentList := JList([]),
      qualificationLevelName := JNull,
      countryId := JStr(FindMasterId(catalog, "country", GetOr(edu, "country", JStr("India")))),
      stateId := JStr(FindMasterId(catalog, "state", GetOr(edu, "state", JStr("")))),
      stateOther := JNull,
      erpInstitute := JNull,
      erpBoardOrUniversity := JNull,
      qualificationLevelCode := JNull,
      countryName := JNull,
      stateName := JNull)
  }

  /** Every entry has a level id from the first table, a status that is `None` or
      text, a course text and a completion year that is four digits or empty. */
  lemma EntryShape(catalog: Catalog, edu: Fields)
    ensures var r := EntryOf(catalog, edu);
            && r.qualificationLevelId.JStr? && IsLevelId(r.qualificationLevelId.s)
            && (r.currentStatus.JNull? || r.currentStatus.JStr?)
            && r.course.JStr? && r.yearOfCompletion.JStr?
            && (r.yearOfCompletion.s == "" || IsYearText(r.yearOfCompletion.s))
  {
  }

  /** The section with the given highest level and entries; the other fields are
      `None` but for the empty details map. */
  function EducationDetailWith(highest: Json, entries: seq<QualificationEntry>): EducationDetail
  {
    EducationDetail(
      highestQualificationLevelId := highest,
      highestQualificationAlbum := JNull,
      highestQualification := JNull,
      qualificationLevelsList := entries,
      eligibilityTestList := JNull,
      otherQualificationLevelsList := JNull,
      empEducationalDetailsMap := JObj([]),
      eligibilityTestDetails := JNull,
      empEducationalDetailsDTOS := JNull,
      studentEducationalDetailsDTOList := JNull)
  }

  /** `[f(x) for x in xs]` */
  function MapEach<A, B>(xs: seq<A>, f: A -> B): (r: seq<B>)
    ensures |r| == |xs| && forall i :: 0 <= i < |xs| ==> r[i] == f(xs[i])
  {
    seq(|xs|, i requires 0 <= i < |xs| => f(xs[i]))
  }

  lemma MapEachStep<A, B>(xs: seq<A>, f: A -> B, i: nat)
    requires i < |xs|
    ensures MapEach(xs[..i + 1], f) == MapEach(xs[..i], f) + [f(xs[i])]
  {
    assert forall k :: 0 <= k <= i ==> xs[..i + 1][k] == xs[k];
  }

  function EntryFor(catalog: Catalog): Fields -> QualificationEntry
  {
    edu => EntryOf(catalog, edu)
  }

  /** The entries of the records, in order. */
  function Entries(catalog: Catalog, es: seq<Fields>): (r: seq<QualificationEntry>)
    ensures |r| == |es|
  {
    MapEach(es, EntryFor(catalog))
  }

  lemma HighestIsLevelId(es: seq<Fields>)
    ensures IsLevelId(HighestQualification(es))
  {
    HighestQualificationIsMax(es);
  }

  /** `_map_education_data(education)`: an empty value gives no entries and no
      highest level; a list of dicts gives one entry per record, in order, and the
      highest level; anything else fails when its members are asked for `.get`. */
  function EducationSectionOf(catalog: Catalog, education: Json): (r: Result<EducationDetail, MapError>)
    ensures r.Ok? <==> !Truthy(education) || AsDictList(education).Some?
    ensures r.Ok? ==> (r.value.qualificationLevelsList == [] <==> r.value.highestQualificationLevelId == JNull)
    ensures r.Ok? && Truthy(education) ==> |r.value.qualificationLevelsList| == |AsDictList(education).value|
    ensures r.Ok? && r.value.highestQualificationLevelId != JNull ==>
              r.value.highestQualificationLevelId.JStr? && IsLevelId(r.value.highestQualificationLevelId.s)
  {
    if !Truthy(education) then Ok(EducationDetailWith(JNull, []))
    else
      match AsDictList(education)
      case None => Err(MappingFailed)
      case Some(es) =>
        HighestIsLevelId(es);
        Ok(EducationDetailWith(JStr(HighestQualification(es)), Entries(catalog, es)))
  }

  /** `_map_education_data` as the source runs it: the highest-level loop, then one
      pass that appends an entry per record. */
  method MapEducationData(catalog: Catalog, education: Json) returns (r: Result<EducationDetail, MapError>)
    ensures r == EducationSectionOf(catalog, education)
  {
    if !Truthy(education) {
      return Ok(EducationDetailWith(JNull, []));
    }
    var records := AsDictList(education);
    if records.None? {
      return Err(MappingFailed);
    }
    var es := records.value;
    var highest := FindHighestQualification(es);
    var levels: seq<QualificationEntry> := [];
    var i := 0;
    while i < |es|
      invariant 0 <= i <= |es|
      invariant levels == Entries(catalog, es[..i])
    {
      MapEachStep(es, EntryFor(catalog), i);
      levels := levels + [EntryOf(catalog, es[i])];
      i := i + 1;
    }
    assert es[..i] == es;
    r := Ok(EducationDetailWith(JStr(highest), levels));
  }

  /** For a list of records, the section holds the entries of the records in
      order, and its highest level is the level id `_find_highest_qualification`
      gives them. */
  lemma SectionOfRecords(catalog: Catalog, education: Json, es: seq<Fields>)
    requires Truthy(education) && AsDictList(education) == Some(es)
    ensures var r := EducationSectionOf(catalog, education).value;
            && r.highestQualificationLevelId == JStr(HighestQualification(es))
            && r.qualificationLevelsList == Entries(catalog, es)
  {
  }
}

/**
 * `_map_research_experience`: the `researchDetailDTO` dict. The base DTO holds
 * the same dict with no research, which stands when the extracted data has no
 * research section.
 */
module Research {
  import opened Results
  import opened PyJson
  import opened ResumeParser

  /** The nested `researchEntries` dict. */
  datatype ResearchEntries = ResearchEntries(
    empApplnAddtnlInfoEntriesId: Json,
    isResearchExperience: Json,
    researchEntriesHeadings: Json,
    entriesId: Json,
    parameterId: Json,
    addtnlInfoValue: Json)

  /** The `researchDetailDTO` dict. */
  datatype ResearchDetail = ResearchDetail(
    isResearchExperience: Json,
    inflibnetVidwanNo: Json,
    scopusId: Json,
    hIndex: Json,
    researchEntries: ResearchEntries,
    isInterviewedBefore: Json,
    interviewedBeforeDepartment: Json,
    interviewedBeforeYear: Json,
    interviewedBeforeApplicationNo: Json,
    interviewedBeforeSubject: Json,
    vacancyInformationId: Json,
    aboutVacancyOthers: Json,
    otherInformation: Json,
    orcidId: Json,
    hindex: Json)

  /** The dict with the given top-level and nested research flags; every other
      field is `None` but for the interview flag "No" and vacancy id "5". */
  function ResearchDetailWith(flag: Json, entriesFlag: Json): ResearchDetail
  {
    ResearchDetail(
      isResearchExperience := flag,
      inflibnetVidwanNo := JNull,
      scopusId := JNull,
      hIndex := JNull,
      researchEntries := ResearchEntries(
        empApplnAddtnlInfoEntriesId := JNull,
        isResearchExperience := entriesFlag,
        researchEntriesHeadings := JNull,
        entriesId := JNull,
        parameterId := JNull,
        addtnlInfoValue := JNull),
      isInterviewedBefore := JStr("No"),
      interviewedBeforeDepartment := JNull,
      interviewedBeforeYear := JNull,
      interviewedBeforeApplicationNo := JNull,
      interviewedBeforeSubject := JNull,
      vacancyInformationId := JStr("5"),
      aboutVacancyOthers := JNull,
      otherInformation := JNull,
      orcidId := JNull,
      hindex := JNull)
  }

  /** The research dict of `_create_base_dto`: no research, and no nested flag. */
  const BaseResearch := ResearchDetailWith(JStr("No"), JNull)

  function YesNo(b: bool): Json
  {
    JStr(if b then "Yes" else "No")
  }

  /** `_map_research_experience(info)`: "Yes" in both flags exactly when
      `has_research` (default `False`) is truthy; a value that is not a dict has
      no `.get` and fails. */
  function ResearchSection(info: Json): (r: Result<ResearchDetail, MapError>)
    ensures r.Ok? <==> info.JObj?
    ensures r.Ok? ==> r.value.researchEntries.isResearchExperience == r.value.isResearchExperience
    ensures r.Ok? ==> (r.value.isResearchExperience == JStr("Yes") <==> Truthy(GetOr(info.fields, "has_research", JBool(false))))
    ensures r.Ok? ==> r.value.isResearchExperience in {JStr("Yes"), JStr("No")}
  {
    match AsDict(info)
    case None => Err(MappingFailed)
    case Some(fs) =>
      var hasResearch := GetOr(fs, "has_research", JBool(false));
      Ok(ResearchDetailWith(YesNo(Truthy(hasResearch)), YesNo(Truthy(hasResearch))))
  }

  /** A dict that reports no research maps to the base dict except for the nested
      flag, which the base leaves `None` and the mapping sets to "No". */
  lemma NoResearchNearlyBase(info: Json)
    requires info.JObj? && !Truthy(GetOr(info.fields, "has_research", JBool(false)))
    ensures ResearchSection(info).value.researchEntries.isResearchExperience == JStr("No")
    ensures BaseResearch.researchEntries.isResearchExperience == JNull
    ensures ResearchSection(info).value ==
            BaseResearch.(researchEntries := BaseResearch.researchEntries.(isResearchExperience := JStr("No")))
  {
  }

  /** On a dict the sanitiser produced, the flags read "No" only when
      `has_research` is absent or was `None`, `""`, `[]` or `{}`: a `False` or a
      `0` has become a non-empty string and reads "Yes". */
  lemma SanitizedResearchFlag(fs: Fields)
    ensures var r := ResearchSection(Sanitize(JObj(fs)));
            var v := GetOr(fs, "has_research", JNull);
            r.Ok? && (r.value.isResearchExperience == JStr("No") <==>
                      !HasField(fs, "has_research") || v == JNull || v == JStr("") || v == JList([]) || v == JObj([]))
  {
    SanitizeGet(fs, "has_research");
    SanitizeTruthy(GetOr(fs, "has_research", JNull));
  }

  /** In particular an answer of `"has_research": false` reaches the mapper as
      the string "False" and is reported as research experience. */
  lemma SanitizedFalseReadsYes()
    ensures var r := ResearchSection(Sanitize(JObj([("has_research", JBool(false))])));
            r.Ok? && r.value.isResearchExperience == JStr("Yes")
  {
    SanitizedResearchFlag([("has_research", JBool(false))]);
  }
}

/**
 * `DTOMapper.map_to_dto`: the base DTO of a job application with each section
 * the extracted data holds mapped into it. A section whose key is absent keeps
 * its base value; any exception raised while mapping fails the whole call. The
 * master-data catalog and the current date are parameters.
 */
module DtoMapper {
  import opened Results
  import opened PyJson
  import opened Dates
  import opened MasterData
  import opened Personal
  import opened EducationSection
  import opened WorkExperience
  import opened Research
  import opened AdditionalInfo
  import opened ResumeParser

  /** A section of the DTO: the empty dict `{}` of the base DTO, or a mapped dict. */
  datatype Section<T> = EmptyDict | Filled(value: T)

  /** The `jobDetailDTO` dict. */
  datatype JobDetail = JobDetail(
    empApplnEntriesId: Json,
    postAppliedFor: Json,
    subjectCategoryIds: Json,
    specializationIds: Json,
    empApplnSubjectCategoryDTO: Json,
    preferredLocationIds: Json,
    empDTO: Json,
    empJobDetails: Json,
    erpRoomEmpMappingDTO: Json,
    empGuestContractDetailsDTO: Json,
    subjectCategory: Json,
    subjectSpecialization: Json,
    empApplnCampusPrefDTOList: Json)

  const BaseJobDetail := JobDetail(
      empApplnEntriesId := JInt(0),
      postAppliedFor := JStr("1"),
      subjectCategoryIds := JList([JList([])]),
      specializationIds := JNull,
      empApplnSubjectCategoryDTO := JList([]),
      preferredLocationIds := JList([]),
      empDTO := JNull,
      empJobDetails := JNull,
      erpRoomEmpMappingDTO := JNull,
      empGuestContractDetailsDTO := JNull,
      subjectCategory := JNull,
      subjectSpecialization := JNull,
      empApplnCampusPrefDTOList := JNull)

  /** The DTO `map_to_dto` returns. */
  datatype Dto = Dto(
    empApplnEntriesId: Json,
    saveMode: Json,
    applicationNo: Json,
    empApplicationRegistrationId: Json,
    isAvailableForTheInterview: Json,
    empApplnInterviewSchedulesId: Json,
    interviewRound: Json,
    isAcceptOffer: Json,
    reportingDate: Json,
    joiningDate: Json,
    jobDetailDTO: JobDetail,
    empApplnPersonalDataDTO: Section<PersonalData>,
    addressDetailDTO: Section<PersonalData>,
    educationalDetailDTO: Section<EducationDetail>,
    professionalExperienceDTO: Section<ProfessionalExperience>,
    researchDetailDTO: ResearchDetail,
    additionalPersonalDataDTO: Json,
    empJobDetailsDTO: Json,
    empApplnNonAvailabilityDTO: Json,
    jobCategoryDTO: Json,
    empGratuityNomineesDTO: Json,
    empPfNomineesDTO: Json,
    regretLetterfileUploadDownloadDTO: Json,
    familyDetailsAddtnlList: Json,
    dependentDetailsAddtnlList: Json,
    additionalInformations: Option<AdditionalInformations>,
    empApplnSubjectCategory: Json,
    empApplnSubjectCategorySpecialization: Json,
    locationPref: Json,
    academic: Json,
    maritalStatusDTO: Json,
    submissionDate: Json,
    identityRow: Json,
    campusPreference: Json,
    applicantWorkFlowStatusCode: Json,
    applicationWorkFlowStatusCode: Json,
    empAppliedEmployeCategory: Json,
    majorAchievements: Json,
    offerLetterfileUploadDownloadDTO: Json)

  /** `_create_base_dto()` */
  const BaseDto := Dto(
      empApplnEntriesId := JInt(0),
      saveMode := JStr("save draft"),
      applicationNo := JNull,
      empApplicationRegistrationId := JNull,
      isAvailableForTheInterview := JNull,
      empApplnInterviewSchedulesId := JNull,
      interviewRound := JNull,
      isAcceptOffer := JNull,
      reportingDate := JNull,
      joiningDate := JNull,
      jobDetailDTO := BaseJobDetail,
      empApplnPersonalDataDTO := EmptyDict,
      addressDetailDTO := EmptyDict,
      educationalDetailDTO := EmptyDict,
      professionalExperienceDTO := EmptyDict,
      researchDetailDTO := BaseResearch,
      additionalPersonalDataDTO := JNull,
      empJobDetailsDTO := JNull,
      empApplnNonAvailabilityDTO := JNull,
      jobCategoryDTO := JNull,
      empGratuityNomineesDTO := JNull,
      empPfNomineesDTO := JNull,
      regretLetterfileUploadDownloadDTO := JNull,
      familyDetailsAddtnlList := JNull,
      dependentDetailsAddtnlList := JNull,
      additionalInformations := None,
      empApplnSubjectCategory := JNull,
      empApplnSubjectCategorySpecialization := JNull,
      locationPref := JNull,
      academic := JBool(false),
      maritalStatusDTO := JNull,
      submissionDate := JNull,
      identityRow := JNull,
      campusPreference := JNull,
      applicantWorkFlowStatusCode := JNull,
      applicationWorkFlowStatusCode := JNull,
      empAppliedEmployeCategory := JNull,
      majorAchievements := JNull,
      offerLetterfileUploadDownloadDTO := JNull)

  /** `key in extracted` followed by `extracted[key]`: `None` when the key is not
      there. Both steps can raise: `in` on a value that is not a dict, list or
      string, and the subscript on a list or string that holds the key. */
  function Lookup(extracted: Json, key: string): (r: Result<Option<Json>, MapError>)
    ensures extracted.JObj? ==> r == Ok(Get(extracted.fields, key))
    ensures r.Ok? ==> extracted.JObj? || r.value.None?
  {
    match In(key, extracted)
    case None => Err(MappingFailed)
    case Some(found) =>
      if !found then Ok(None)
      else
        match Subscript(extracted, key)
        case None => Err(MappingFailed)
        case Some(v) => Ok(Some(v))
  }

  /** The personal and address dicts, both from `personal_info`. */
  function WithPersonal(catalog: Catalog, dto: Dto, extracted: Json): Result<Dto, MapError>
  {
    var found :- Lookup(extracted, "personal_info");
    if found.None? then Ok(dto)
    else
      var p :- PersonalDataOf(catalog, found.value);
      var a :- AddressDataOf(found.value);
      Ok(dto.(empApplnPersonalDataDTO := Filled(p), addressDetailDTO := Filled(a)))
  }

  function WithEducation(catalog: Catalog, dto: Dto, extracted: Json): Result<Dto, MapError>
  {
    var found :- Lookup(extracted, "education");
    if found.None? then Ok(dto)
    else
      var e :- EducationSectionOf(catalog, found.value);
      Ok(dto.(educationalDetailDTO := Filled(e)))
  }

  function WithWork(today: Date, dto: Dto, extracted: Json): Result<Dto, MapError>
    requires ValidDate(today)
  {
    var found :- Lookup(extracted, "work_experience");
    if found.None? then Ok(dto)
    else
      var w :- WorkSection(found.value, today);
      Ok(dto.(professionalExperienceDTO := Filled(w)))
  }

  function WithResearch(dto: Dto, extracted: Json): Result<Dto, MapError>
  {
    var found :- Lookup(extracted, "research_experience");
    if found.None? then Ok(dto)
    else
      var d :- ResearchSection(found.value);
      Ok(dto.(researchDetailDTO := d))
  }

  function WithAdditional(dto: Dto, extracted: Json): Result<Dto, MapError>
  {
    var found :- Lookup(extracted, "additional_informations");
    if found.None? then Ok(dto)
    else
      var a :- AdditionalInfoOf(found.value);
      Ok(dto.(additionalInformations := Some(a)))
  }

  /** `map_to_dto(extracted_data)`, section by section in the source's order. */
  function DtoOf(catalog: Catalog, today: Date, extracted: Json): Result<Dto, MapError>
    requires ValidDate(today)
  {
    var d1 :- WithPersonal(catalog, BaseDto, extracted);
    var d2 :- WithEducation(catalog, d1, extracted);
    var d3 :- WithWork(today, d2, extracted);
    var d4 :- WithResearch(d3, extracted);
    WithAdditional(d4, extracted)
  }

  /** The personal and address stage of `map_to_dto`. */
  method MapPersonalStage(catalog: Catalog, dto: Dto, extracted: Json) returns (r: Result<Dto, MapError>)
    ensures r == WithPersonal(catalog, dto, extracted)
  {
    var found := Lookup(extracted, "personal_info");
    if found.Err? {
      return Err(MappingFailed);
    }
    if found.value.None? {
      return Ok(dto);
    }
    var p := PersonalDataOf(catalog, found.value.value);
    if p.Err? {
      return Err(MappingFailed);
    }
    var a := AddressDataOf(found.value.value);
    if a.Err? {
      return Err(MappingFailed);
    }
    r := Ok(dto.(empApplnPersonalDataDTO := Filled(p.value), addressDetailDTO := Filled(a.value)));
  }

  /** The education stage, with the loop of `_map_education_data`. */
  method MapEducationStage(catalog: Catalog, dto: Dto, extracted: Json) returns (r: Result<Dto, MapError>)
    ensures r == WithEducation(catalog, dto, extracted)
  {
    var found := Lookup(extracted, "education");
    if found.Err? {
      return Err(MappingFailed);
    }
    if found.value.None? {
      return Ok(dto);
    }
    var e := MapEducationData(catalog, found.value.value);
    if e.Err? {
      return Err(MappingFailed);
    }
    r := Ok(dto.(educationalDetailDTO := Filled(e.value)));
  }

  /** The work stage, with the loops of `_map_work_experience`. */
  method MapWorkStage(today: Date, dto: Dto, extracted: Json) returns (r: Result<Dto, MapError>)
    requires ValidDate(today)
    ensures r == WithWork(today, dto, extracted)
  {
    var found := Lookup(extracted, "work_experience");
    if found.Err? {
      return Err(MappingFailed);
    }
    if found.value.None? {
      return Ok(dto);
    }
    var w := MapWorkExperience(found.value.value, today);
    if w.Err? {
      return Err(MappingFailed);
    }
    r := Ok(dto.(professionalExperienceDTO := Filled(w.value)));
  }

  /** The additional-information stage, with the award loop. */
  method MapAdditionalStage(dto: Dto, extracted: Json) returns (r: Result<Dto, MapError>)
    ensures r == WithAdditional(dto, extracted)
  {
    var found := Lookup(extracted, "additional_informations");
    if found.Err? {
      return Err(MappingFailed);
    }
    if found.value.None? {
      return Ok(dto);
    }
    var a := MapAdditionalInfo(found.value.value);
    if a.Err? {
      return Err(MappingFailed);
    }
    r := Ok(dto.(additionalInformations := Some(a.value)));
  }

  /** `map_to_dto` as the source runs it: each section is looked up and mapped in
      turn, and the first failure ends the call. */
  method MapToDto(catalog: Catalog, today: Date, extracted: Json) returns (r: Result<Dto, MapError>)
    requires ValidDate(today)
    ensures r == DtoOf(catalog, today, extracted)
  {
    r := MapPersonalStage(catalog, BaseDto, extracted);
    if r.Ok? {
      r := MapEducationStage(catalog, r.value, extracted);
    }
    if r.Ok? {
      r := MapWorkStage(today, r.value, extracted);
    }
    if r.Ok? {
      r := WithResearch(r.value, extracted);
    }
    if r.Ok? {
      r := MapAdditionalStage(r.value, extracted);
    }
  }

  /** The DTO with its six section fields put back to their base values. */
  function WithoutSections(d: Dto): Dto
  {
    d.(empApplnPersonalDataDTO := EmptyDict, addressDetailDTO := EmptyDict,
       educationalDetailDTO := EmptyDict, professionalExperienceDTO := EmptyDict,
       researchDetailDTO := BaseResearch, additionalInformations := None)
  }

  /** The `in` test is false for every section name `map_to_dto` looks up. */
  predicate HoldsNoSection(extracted: Json)
  {
    && In("personal_info", extracted) == Some(false)
    && In("education", extracted) == Some(false)
    && In("work_experience", extracted) == Some(false)
    && In("research_experience", extracted) == Some(false)
    && In("additional_informations", extracted) == Some(false)
  }

  /** A section name `map_to_dto` looks up. */
  predicate SectionKey(k: string)
  {
    k in {"personal_info", "education", "work_experience", "research_experience", "additional_informations"}
  }

  lemma PersonalKeepsFrame(catalog: Catalog, d: Dto, e: Json)
    ensures WithPersonal(catalog, d, e).Ok? ==> WithoutSections(WithPersonal(catalog, d, e).value) == WithoutSections(d)
  {
  }

  lemma EducationKeepsFrame(catalog: Catalog, d: Dto, e: Json)
    ensures WithEducation(catalog, d, e).Ok? ==> WithoutSections(WithEducation(catalog, d, e).value) == WithoutSections(d)
  {
  }

  lemma WorkKeepsFrame(today: Date, d: Dto, e: Json)
    requires ValidDate(today)
    ensures WithWork(today, d, e).Ok? ==> WithoutSections(WithWork(today, d, e).value) == WithoutSections(d)
  {
  }

  lemma ResearchKeepsFrame(d: Dto, e: Json)
    ensures WithResearch(d, e).Ok? ==> WithoutSections(WithResearch(d, e).value) == WithoutSections(d)
  {
  }

  lemma AdditionalKeepsFrame(d: Dto, e: Json)
    ensures WithAdditional(d, e).Ok? ==> WithoutSections(WithAdditional(d, e).value) == WithoutSections(d)
  {
  }

  /** Nothing but the six section fields of the base DTO is ever changed: the job
      details, the save mode and every other field keep their base values. */
  lemma OnlySectionsChange(catalog: Catalog, today: Date, extracted: Json)
    requires ValidDate(today)
    ensures var r := DtoOf(catalog, today, extracted);
            r.Ok? ==> WithoutSections(r.value) == BaseDto
  {
    var r := DtoOf(catalog, today, extracted);
    if r.Ok? {
      var d1 := WithPersonal(catalog, BaseDto, extracted).value;
      var d2 := WithEducation(catalog, d1, extracted).value;
      var d3 := WithWork(today, d2, extracted).value;
      var d4 := WithResearch(d3, extracted).value;
      PersonalKeepsFrame(catalog, BaseDto, extracted);
      EducationKeepsFrame(catalog, d1, extracted);
      WorkKeepsFrame(today, d2, extracted);
      ResearchKeepsFrame(d3, extracted);
      AdditionalKeepsFrame(d4, extracted);
    }
  }

  lemma LookupAbsent(extracted: Json, key: string)
    requires In(key, extracted) == Some(false)
    ensures Lookup(extracted, key) == Ok(None)
  {
  }

  lemma AbsentStagesKeep(catalog: Catalog, today: Date, d: Dto, e: Json)
    requires ValidDate(today)
    requires Lookup(e, "personal_info") == Ok(None) && Lookup(e, "education") == Ok(None)
    requires Lookup(e, "work_experience") == Ok(None) && Lookup(e, "research_experience") == Ok(None)
    requires Lookup(e, "additional_informations") == Ok(None)
    ensures WithPersonal(catalog, d, e) == Ok(d) && WithEducation(catalog, d, e) == Ok(d)
    ensures WithWork(today, d, e) == Ok(d) && WithResearch(d, e) == Ok(d) && WithAdditional(d, e) == Ok(d)
  {
  }

  /** Extracted data that holds none of the section names, a dict, a list or a
      string, gives the base DTO unchanged. */
  lemma NoSectionsIsBase(catalog: Catalog, today: Date, extracted: Json)
    requires ValidDate(today)
    requires HoldsNoSection(extracted)
    ensures DtoOf(catalog, today, extracted) == Ok(BaseDto)
  {
    LookupAbsent(extracted, "personal_info");
    LookupAbsent(extracted, "education");
    LookupAbsent(extracted, "work_experience");
    LookupAbsent(extracted, "research_experience");
    LookupAbsent(extracted, "additional_informations");
    AbsentStagesKeep(catalog, today, BaseDto, extracted);
  }

  /** A stage of `map_to_dto` on a dict fails exactly when its section is present
      and cannot be mapped, leaves the other sections alone, and puts the mapper's
      result in its own section. */
  lemma PersonalStageFails(catalog: Catalog, d: Dto, fs: Fields)
    ensures var v := GetOr(fs, "personal_info", JNull);
            WithPersonal(catalog, d, JObj(fs)).Err? <==> HasField(fs, "personal_info") && !v.JObj?
  {
  }

  lemma PersonalStageFrame(catalog: Catalog, d: Dto, fs: Fields)
    ensures var r := WithPersonal(catalog, d, JObj(fs));
            r.Ok? ==>
              && r.value.educationalDetailDTO == d.educationalDetailDTO
              && r.value.professionalExperienceDTO == d.professionalExperienceDTO
              && r.value.researchDetailDTO == d.researchDetailDTO
              && r.value.additionalInformations == d.additionalInformations
  {
  }

  lemma PersonalStageValue(catalog: Catalog, d: Dto, fs: Fields)
    ensures var r := WithPersonal(catalog, d, JObj(fs));
            var v := GetOr(fs, "personal_info", JNull);
            r.Ok? ==>
              if HasField(fs, "personal_info") then
                r.value.empApplnPersonalDataDTO.Filled? && PersonalDataOf(catalog, v) == Ok(r.value.empApplnPersonalDataDTO.value)
              && r.value.addressDetailDTO.Filled? && AddressDataOf(v) == Ok(r.value.addressDetailDTO.value)
              else r.value == d
  {
  }

  lemma EducationStageFails(catalog: Catalog, d: Dto, fs: Fields)
    ensures var v := GetOr(fs, "education", JNull);
            WithEducation(catalog, d, JObj(fs)).Err? <==> HasField(fs, "education") && Truthy(v) && AsDictList(v).None?
  {
  }

  lemma EducationStageFrame(catalog: Catalog, d: Dto, fs: Fields)
    ensures var r := WithEducation(catalog, d, JObj(fs));
            r.Ok? ==>
              && r.value.empApplnPersonalDataDTO == d.empApplnPersonalDataDTO
              && r.value.addressDetailDTO == d.addressDetailDTO
              && r.value.professionalExperienceDTO == d.professionalExperienceDTO
              && r.value.researchDetailDTO == d.researchDetailDTO
              && r.value.additionalInformations == d.additionalInformations
  {
  }

  lemma EducationStageValue(catalog: Catalog, d: Dto, fs: Fields)
    ensures var r := WithEducation(catalog, d, JObj(fs));
            var v := GetOr(fs, "education", JNull);
            r.Ok? ==>
              if HasField(fs, "education") then
                r.value.educationalDetailDTO.Filled? && EducationSectionOf(catalog, v) == Ok(r.value.educationalDetailDTO.value)
              else r.value == d
  {
  }

  lemma WorkStageFails(today: Date, d: Dto, fs: Fields)
    requires ValidDate(today)
    ensures var v := GetOr(fs, "work_experience", JNull);
            WithWork(today, d, JObj(fs)).Err? <==> HasField(fs, "work_experience") && WorkSection(v, today).Err?
  {
  }

  lemma WorkStageFrame(today: Date, d: Dto, fs: Fields)
    requires ValidDate(today)
    ensures var r := WithWork(today, d, JObj(fs));
            r.Ok? ==>
              && r.value.empApplnPersonalDataDTO == d.empApplnPersonalDataDTO
              && r.value.addressDetailDTO == d.addressDetailDTO
              && r.value.educationalDetailDTO == d.educationalDetailDTO
              && r.value.researchDetailDTO == d.researchDetailDTO
              && r.value.additionalInformations == d.additionalInformations
  {
  }

  lemma WorkStageValue(today: Date, d: Dto, fs: Fields)
    requires ValidDate(today)
    ensures var r := WithWork(today, d, JObj(fs));
            var v := GetOr(fs, "work_experience", JNull);
            r.Ok? ==>
              if HasField(fs, "work_experience") then
                r.value.professionalExperienceDTO.Filled? && WorkSection(v, today) == Ok(r.value.professionalExperienceDTO.value)
              else r.value == d
  {
  }

  lemma ResearchStageFails(d: Dto, fs: Fields)
    ensures var v := GetOr(fs, "research_experience", JNull);
            WithResearch(d, JObj(fs)).Err? <==> HasField(fs, "research_experience") && !v.JObj?
  {
  }

  lemma ResearchStageFrame(d: Dto, fs: Fields)
    ensures var r := WithResearch(d, JObj(fs));
            r.Ok? ==>
              && r.value.empApplnPersonalDataDTO == d.empApplnPersonalDataDTO
              && r.value.addressDetailDTO == d.addressDetailDTO
              && r.value.educationalDetailDTO == d.educationalDetailDTO
              && r.value.professionalExperienceDTO == d.professionalExperienceDTO
              && r.value.additionalInformations == d.additionalInformations
  {
  }

  lemma ResearchStageValue(d: Dto, fs: Fields)
    ensures var r := WithResearch(d, JObj(fs));
            var v := GetOr(fs, "research_experience", JNull);
            r.Ok? ==>
              if HasField(fs, "research_experience") then
                ResearchSection(v) == Ok(r.value.researchDetailDTO)
              else r.value == d
  {
  }

  lemma AdditionalStageFails(d: Dto, fs: Fields)
    ensures var v := GetOr(fs, "additional_informations", JNull);
            WithAdditional(d, JObj(fs)).Err? <==> HasField(fs, "additional_informations") && !v.JObj?
  {
  }

  lemma AdditionalStageFrame(d: Dto, fs: Fields)
    ensures var r := WithAdditional(d, JObj(fs));
            r.Ok? ==>
              && r.value.empApplnPersonalDataDTO == d.empApplnPersonalDataDTO
              && r.value.addressDetailDTO == d.addressDetailDTO
              && r.value.educationalDetailDTO == d.educationalDetailDTO
              && r.value.professionalExperienceDTO == d.professionalExperienceDTO
              && r.value.researchDetailDTO == d.researchDetailDTO
  {
  }

  lemma AdditionalStageValue(d: Dto, fs: Fields)
    ensures var r := WithAdditional(d, JObj(fs));
            var v := GetOr(fs, "additional_informations", JNull);
            r.Ok? ==>
              if HasField(fs, "additional_informations") then
                r.value.additionalInformations.Some? && AdditionalInfoOf(v) == Ok(r.value.additionalInformations.value)
              else r.value == d
  {
  }

  /** A section of a dict of extracted data that is present but cannot be mapped:
      personal data, research or additional information that is not a dict, a
      non-empty education value that is not a list of dicts, or work experience
      whose mapping fails. */
  predicate SomeSectionFails(today: Date, fs: Fields)
    requires ValidDate(today)
  {
    || (HasField(fs, "personal_info") && !GetOr(fs, "personal_info", JNull).JObj?)
    || (HasField(fs, "education") && Truthy(GetOr(fs, "education", JNull)) && AsDictList(GetOr(fs, "education", JNull)).None?)
    || (HasField(fs, "work_experience") && WorkSection(GetOr(fs, "work_experience", JNull), today).Err?)
    || (HasField(fs, "research_experience") && !GetOr(fs, "research_experience", JNull).JObj?)
    || (HasField(fs, "additional_informations") && !GetOr(fs, "additional_informations", JNull).JObj?)
  }

  /** For a dict of extracted data, the mapping fails exactly when some section that
      is present cannot be mapped. */
  lemma DictFailsIff(catalog: Catalog, today: Date, fs: Fields)
    requires ValidDate(today)
    ensures DtoOf(catalog, today, JObj(fs)).Err? <==> SomeSectionFails(today, fs)
  {
    var e := JObj(fs);
    PersonalStageFails(catalog, BaseDto, fs);
    var d1 := WithPersonal(catalog, BaseDto, e);
    if d1.Ok? {
      EducationStageFails(catalog, d1.value, fs);
      var d2 := WithEducation(catalog, d1.value, e);
      if d2.Ok? {
        WorkStageFails(today, d2.value, fs);
        var d3 := WithWork(today, d2.value, e);
        if d3.Ok? {
          ResearchStageFails(d3.value, fs);
          var d4 := WithResearch(d3.value, e);
          if d4.Ok? {
            AdditionalStageFails(d4.value, fs);
          }
        }
      }
    }
  }

  /** For a dict of extracted data that maps, the personal and the address dicts
      are the mappers' results on `personal_info` when it is present, and stay
      empty dicts when it is absent. */
  lemma DictPersonalMapped(catalog: Catalog, today: Date, fs: Fields)
    requires ValidDate(today)
    requires DtoOf(catalog, today, JObj(fs)).Ok?
    ensures var r := DtoOf(catalog, today, JObj(fs)).value;
            var v := GetOr(fs, "personal_info", JNull);
            if HasField(fs, "personal_info") then
              && r.empApplnPersonalDataDTO.Filled? && PersonalDataOf(catalog, v) == Ok(r.empApplnPersonalDataDTO.value)
              && r.addressDetailDTO.Filled? && AddressDataOf(v) == Ok(r.addressDetailDTO.value)
            else r.empApplnPersonalDataDTO == EmptyDict && r.addressDetailDTO == EmptyDict
  {
    var e := JObj(fs);
    PersonalStageValue(catalog, BaseDto, fs);
    var d1 := WithPersonal(catalog, BaseDto, e).value;
    EducationStageFrame(catalog, d1, fs);
    var d2 := WithEducation(catalog, d1, e).value;
    WorkStageFrame(today, d2, fs);
    var d3 := WithWork(today, d2, e).value;
    ResearchStageFrame(d3, fs);
    var d4 := WithResearch(d3, e).value;
    AdditionalStageFrame(d4, fs);
  }

  /** For a dict of extracted data that maps, the education and the work sections
      are their mappers' results on the values under their keys when present, and
      stay empty dicts when absent. */
  lemma DictEducationWorkMapped(catalog: Catalog, today: Date, fs: Fields)
    requires ValidDate(today)
    requires DtoOf(catalog, today, JObj(fs)).Ok?
    ensures var r := DtoOf(catalog, today, JObj(fs)).value;
            var v := GetOr(fs, "education", JNull);
            if HasField(fs, "education") then
              r.educationalDetailDTO.Filled? && EducationSectionOf(catalog, v) == Ok(r.educationalDetailDTO.value)
            else r.educationalDetailDTO == EmptyDict
    ensures var r := DtoOf(catalog, today, JObj(fs)).value;
            var v := GetOr(fs, "work_experience", JNull);
            if HasField(fs, "work_experience") then
              r.professionalExperienceDTO.Filled? && WorkSection(v, today) == Ok(r.professionalExperienceDTO.value)
            else r.professionalExperienceDTO == EmptyDict
  {
    var e := JObj(fs);
    PersonalStageFrame(catalog, BaseDto, fs);
    var d1 := WithPersonal(catalog, BaseDto, e).value;
    EducationStageValue(catalog, d1, fs);
    var d2 := WithEducation(catalog, d1, e).value;
    WorkStageValue(today, d2, fs);
    var d3 := WithWork(today, d2, e).value;
    ResearchStageFrame(d3, fs);
    var d4 := WithResearch(d3, e).value;
    AdditionalStageFrame(d4, fs);
  }

  /** For a dict of extracted data that maps, the research details and the
      additional information are their mappers' results when their keys are
      present; otherwise the base research details stay and no additional
      information is set. */
  lemma DictResearchAdditionalMapped(catalog: Catalog, today: Date, fs: Fields)
    requires ValidDate(today)
    requires DtoOf(catalog, today, JObj(fs)).Ok?
    ensures var r := DtoOf(catalog, today, JObj(fs)).value;
            var v := GetOr(fs, "research_experience", JNull);
            if HasField(fs, "research_experience") then ResearchSection(v) == Ok(r.researchDetailDTO)
            else r.researchDetailDTO == BaseResearch
    ensures var r := DtoOf(catalog, today, JObj(fs)).value;
            var v := GetOr(fs, "additional_informations", JNull);
            if HasField(fs, "additional_informations") then
              r.additionalInformations.Some? && AdditionalInfoOf(v) == Ok(r.additionalInformations.value)
            else r.additionalInformations.None?
  {
    var e := JObj(fs);
    PersonalStageFrame(catalog, BaseDto, fs);
    var d1 := WithPersonal(catalog, BaseDto, e).value;
    EducationStageFrame(catalog, d1, fs);
    var d2 := WithEducation(catalog, d1, e).value;
    WorkStageFrame(today, d2, fs);
    var d3 := WithWork(today, d2, e).value;
    ResearchStageValue(d3, fs);
    var d4 := WithResearch(d3, e).value;
    AdditionalStageValue(d4, fs);
  }

  /** Extracted data that is neither a dict, a list nor a string cannot be searched
      for a section, and the mapping fails. */
  lemma ScalarFails(catalog: Catalog, today: Date, extracted: Json)
    requires ValidDate(today)
    requires extracted.JNull? || extracted.JBool? || extracted.JInt?
    ensures DtoOf(catalog, today, extracted) == Err(MappingFailed)
  {
  }

  /** A list or string that holds a section name passes the `in` test but cannot
      be subscripted by it, and the mapping fails. */
  lemma SectionNameInSequenceFails(catalog: Catalog, today: Date, extracted: Json, k: string)
    requires ValidDate(today)
    requires extracted.JList? || extracted.JStr?
    requires SectionKey(k) && In(k, extracted) == Some(true)
    ensures DtoOf(catalog, today, extracted) == Err(MappingFailed)
  {
  }
}

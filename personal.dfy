/**
 * `_map_personal_data` and `_map_address_data`: the two dicts built from the
 * same `personal_info`. They share one set of 55 keys; the first fills the
 * personal keys and leaves the address keys `None`, the second does the reverse.
 */
module Personal {
  import opened Results
  import opened PyStr
  import opened PyJson
  import opened Dates
  import opened MasterData

  /** The `empApplnPersonalDataDTO` and `addressDetailDTO` dicts. */
  datatype PersonalData = PersonalData(
    empApplnPersonalDataId: Json,
    empApplnEntriesId: Json,
    applicantName: Json,
    genderId: Json,
    fatherName: Json,
    motherName: Json,
    dateOfBirth: Json,
    emailId: Json,
    mobileNoCountryCode: Json,
    mobileNo: Json,
    alternateNo: Json,
    aadharNo: Json,
    maritalStatusId: Json,
    nationalityId: Json,
    passportNo: Json,
    religionId: Json,
    isMinority: Json,
    reservationCategoryId: Json,
    bloodGroupId: Json,
    isDifferentlyAbled: Json,
    differentlyAbledId: Json,
    differentlyAbledDetails: Json,
    currentAddressLine1: Json,
    currentAddressLine2: Json,
    currentCountryId: Json,
    currentStateId: Json,
    currentStateOthers: Json,
    currentCityId: Json,
    currentCityOthers: Json,
    currentPincode: Json,
    isPermanentEqualsCurrent: Json,
    permanentAddressLine1: Json,
    permanentAddressLine2: Json,
    permanentCountryId: Json,
    permanentStateId: Json,
    permanentStateOthers: Json,
    permanentCityId: Json,
    permanentCityOthers: Json,
    permanentPincode: Json,
    profilePhotoUrl: Json,
    isUanNo: Json,
    uanNo: Json,
    highestQualificationLevel: Json,
    originalFileName: Json,
    uniqueFileName: Json,
    newFile: Json,
    processCode: Json,
    actualPath: Json,
    tempPath: Json,
    orcidNo: Json,
    vidwanNo: Json,
    scopusNo: Json,
    resumeUploadDTO: Json,
    resumeUrl: Json,
    hindexNo: Json)

  /** Both dicts start from zero ids and `None` everywhere else. */
  const Blank := PersonalData(
      empApplnPersonalDataId := JInt(0),
      empApplnEntriesId := JInt(0),
      applicantName := JNull,
      genderId := JNull,
      fatherName := JNull,
      motherName := JNull,
      dateOfBirth := JNull,
      emailId := JNull,
      mobileNoCountryCode := JNull,
      mobileNo := JNull,
      alternateNo := JNull,
      aadharNo := JNull,
      maritalStatusId := JNull,
      nationalityId := JNull,
      passportNo := JNull,
      religionId := JNull,
      isMinority := JNull,
      reservationCategoryId := JNull,
      bloodGroupId := JNull,
      isDifferentlyAbled := JNull,
      differentlyAbledId := JNull,
      differentlyAbledDetails := JNull,
      currentAddressLine1 := JNull,
      currentAddressLine2 := JNull,
      currentCountryId := JNull,
      currentStateId := JNull,
      currentStateOthers := JNull,
      currentCityId := JNull,
      currentCityOthers := JNull,
      currentPincode := JNull,
      isPermanentEqualsCurrent := JNull,
      permanentAddressLine1 := JNull,
      permanentAddressLine2 := JNull,
      permanentCountryId := JNull,
      permanentStateId := JNull,
      permanentStateOthers := JNull,
      permanentCityId := JNull,
      permanentCityOthers := JNull,
      permanentPincode := JNull,
      profilePhotoUrl := JNull,
      isUanNo := JNull,
      uanNo := JNull,
      highestQualificationLevel := JNull,
      originalFileName := JNull,
      uniqueFileName := JNull,
      newFile := JNull,
      processCode := JNull,
      actualPath := JNull,
      tempPath := JNull,
      orcidNo := JNull,
      vidwanNo := JNull,
      scopusNo := JNull,
      resumeUploadDTO := JNull,
      resumeUrl := JNull,
      hindexNo := JNull)

  /** `_map_personal_data(personal_info)`: the applicant's own fields, with ids
      looked up in the catalog, a date of birth in ISO form, and the source's fixed
      defaults ("+91", not a minority, reservation category "3", not differently
      abled). A value that is not a dict has no `.get` and fails. */
  function PersonalDataOf(catalog: Catalog, info: Json): (r: Result<PersonalData, MapError>)
    ensures r.Ok? <==> info.JObj?
  {
    match AsDict(info)
    case None => Err(MappingFailed)
    case Some(fs) =>
      Ok(Blank.(
        applicantName := GetOr(fs, "name", JStr("")),
        genderId := JStr(FindMasterId(catalog, "gender", GetOr(fs, "gender", JStr("")))),
        dateOfBirth := FormatDate(GetOr(fs, "date_of_birth", JNull)),
        emailId := GetOr(fs, "email", JStr("")),
        mobileNoCountryCode := JStr("+91"),
        mobileNo := GetOr(fs, "phone", JStr("")),
        aadharNo := GetOr(fs, "aadhar_no", JNull),
        maritalStatusId := JStr(FindMasterId(catalog, "marital_status", GetOr(fs, "marital_status", JStr("")))),
        nationalityId := JStr(FindMasterId(catalog, "country", GetOr(fs, "nationality", JStr("India")))),
        passportNo := GetOr(fs, "passport_no", JNull),
        religionId := JStr(FindMasterId(catalog, "religion", GetOr(fs, "religion", JStr("")))),
        isMinority := JStr("No"),
        reservationCategoryId := JStr("3"),
        bloodGroupId := JStr(FindMasterId(catalog, "blood_group", GetOr(fs, "blood_group", JStr("")))),
        isDifferentlyAbled := JStr("No"),
        newFile := JBool(false)))
  }

  /** `_map_address_data(personal_info)`: the address (default "") as both the
      current and the permanent first line, country "1" for both, and the
      permanent address marked as equal to the current one. */
  function AddressDataOf(info: Json): (r: Result<PersonalData, MapError>)
    ensures r.Ok? <==> info.JObj?
  {
    match AsDict(info)
    case None => Err(MappingFailed)
    case Some(fs) =>
      var address := GetOr(fs, "address", JStr(""));
      Ok(Blank.(
        currentAddressLine1 := address,
        currentCountryId := JStr("1"),
        isPermanentEqualsCurrent := JStr("Yes"),
        permanentAddressLine1 := address,
        permanentCountryId := JStr("1")))
  }

  /** No key other than the two ids is set in both dicts. */
  predicate SplitKeys(p: PersonalData, a: PersonalData)
  {
    && (p.applicantName == JNull || a.applicantName == JNull)
    && (p.genderId == JNull || a.genderId == JNull)
    && (p.fatherName == JNull || a.fatherName == JNull)
    && (p.motherName == JNull || a.motherName == JNull)
    && (p.dateOfBirth == JNull || a.dateOfBirth == JNull)
    && (p.emailId == JNull || a.emailId == JNull)
    && (p.mobileNoCountryCode == JNull || a.mobileNoCountryCode == JNull)
    && (p.mobileNo == JNull || a.mobileNo == JNull)
    && (p.alternateNo == JNull || a.alternateNo == JNull)
    && (p.aadharNo == JNull || a.aadharNo == JNull)
    && (p.maritalStatusId == JNull || a.maritalStatusId == JNull)
    && (p.nationalityId == JNull || a.nationalityId == JNull)
    && (p.passportNo == JNull || a.passportNo == JNull)
    && (p.religionId == JNull || a.religionId == JNull)
    && (p.isMinority == JNull || a.isMinority == JNull)
    && (p.reservationCategoryId == JNull || a.reservationCategoryId == JNull)
    && (p.bloodGroupId == JNull || a.bloodGroupId == JNull)
    && (p.isDifferentlyAbled == JNull || a.isDifferentlyAbled == JNull)
    && (p.differentlyAbledId == JNull || a.differentlyAbledId == JNull)
    && (p.differentlyAbledDetails == JNull || a.differentlyAbledDetails == JNull)
    && (p.currentAddressLine1 == JNull || a.currentAddressLine1 == JNull)
    && (p.currentAddressLine2 == JNull || a.currentAddressLine2 == JNull)
    && (p.currentCountryId == JNull || a.currentCountryId == JNull)
    && (p.currentStateId == JNull || a.currentStateId == JNull)
    && (p.currentStateOthers == JNull || a.currentStateOthers == JNull)
    && (p.currentCityId == JNull || a.currentCityId == JNull)
    && (p.currentCityOthers == JNull || a.currentCityOthers == JNull)
    && (p.currentPincode == JNull || a.currentPincode == JNull)
    && (p.isPermanentEqualsCurrent == JNull || a.isPermanentEqualsCurrent == JNull)
    && (p.permanentAddressLine1 == JNull || a.permanentAddressLine1 == JNull)
    && (p.permanentAddressLine2 == JNull || a.permanentAddressLine2 == JNull)
    && (p.permanentCountryId == JNull || a.permanentCountryId == JNull)
    && (p.permanentStateId == JNull || a.permanentStateId == JNull)
    && (p.permanentStateOthers == JNull || a.permanentStateOthers == JNull)
    && (p.permanentCityId == JNull || a.permanentCityId == JNull)
    && (p.permanentCityOthers == JNull || a.permanentCityOthers == JNull)
    && (p.permanentPincode == JNull || a.permanentPincode == JNull)
    && (p.profilePhotoUrl == JNull || a.profilePhotoUrl == JNull)
    && (p.isUanNo == JNull || a.isUanNo == JNull)
    && (p.uanNo == JNull || a.uanNo == JNull)
    && (p.highestQualificationLevel == JNull || a.highestQualificationLevel == JNull)
    && (p.originalFileName == JNull || a.originalFileName == JNull)
    && (p.uniqueFileName == JNull || a.uniqueFileName == JNull)
    && (p.newFile == JNull || a.newFile == JNull)
    && (p.processCode == JNull || a.processCode == JNull)
    && (p.actualPath == JNull || a.actualPath == JNull)
    && (p.tempPath == JNull || a.tempPath == JNull)
    && (p.orcidNo == JNull || a.orcidNo == JNull)
    && (p.vidwanNo == JNull || a.vidwanNo == JNull)
    && (p.scopusNo == JNull || a.scopusNo == JNull)
    && (p.resumeUploadDTO == JNull || a.resumeUploadDTO == JNull)
    && (p.resumeUrl == JNull || a.resumeUrl == JNull)
    && (p.hindexNo == JNull || a.hindexNo == JNull)
  }

  /** The two dicts built from one `personal_info` split the keys between them:
      apart from the two ids, which both set to 0, no key is set in both. */
  lemma PersonalAndAddressComplement(catalog: Catalog, info: Json)
    requires info.JObj?
    ensures var p, a := PersonalDataOf(catalog, info).value, AddressDataOf(info).value;
            && p.empApplnPersonalDataId == a.empApplnPersonalDataId == JInt(0)
            && p.empApplnEntriesId == a.empApplnEntriesId == JInt(0)
            && SplitKeys(p, a)
  {
  }

  /** The permanent address repeats the current one: the same first line, the
      address given or "", and the same country. */
  lemma PermanentIsCurrent(info: Json)
    requires info.JObj?
    ensures var a := AddressDataOf(info).value;
            && a.isPermanentEqualsCurrent == JStr("Yes")
            && a.permanentAddressLine1 == a.currentAddressLine1 == GetOr(info.fields, "address", JStr(""))
            && a.permanentCountryId == a.currentCountryId == JStr("1")
            && a.permanentAddressLine2 == a.currentAddressLine2 == JNull
  {
  }

  /** A looked-up id is the default id or the id of an entry of its category. */
  predicate CatalogId(catalog: Catalog, category: string, v: Json)
  {
    v == JStr(DefaultId)
    || (v.JStr? && category in catalog && exists i :: 0 <= i < |catalog[category]| && catalog[category][i].id == v.s)
  }

  /** Every id of the personal dict comes from the catalog or is the default; a
      missing nationality is looked up as "India". */
  lemma PersonalIdsFromCatalog(catalog: Catalog, info: Json)
    requires info.JObj?
    ensures var p := PersonalDataOf(catalog, info).value;
            && CatalogId(catalog, "gender", p.genderId)
            && CatalogId(catalog, "marital_status", p.maritalStatusId)
            && CatalogId(catalog, "country", p.nationalityId)
            && CatalogId(catalog, "religion", p.religionId)
            && CatalogId(catalog, "blood_group", p.bloodGroupId)
    ensures !HasField(info.fields, "nationality") ==>
              PersonalDataOf(catalog, info).value.nationalityId == JStr(FindMasterId(catalog, "country", JStr("India")))
  {
  }

  /** The date of birth is `None` or an ISO date with the fixed time of day, it is
      a date exactly when a string that one of the formats reads was given, and its
      ISO part reads back as the date given. */
  lemma BirthDateIso(catalog: Catalog, info: Json)
    requires info.JObj?
    ensures var d := PersonalDataOf(catalog, info).value.dateOfBirth;
            var given := GetOr(info.fields, "date_of_birth", JNull);
            && (d.JNull? || (d.JStr? && |d.s| == 24 && EndsWith(d.s, IsoTimeSuffix)))
            && (d.JStr? <==> given.JStr? && ParseDate(given.s).Some?)
            && (d.JStr? ==> |d.s| >= 10 && ParseDate(d.s[..10]) == ParseDate(given.s))
  {
  }
}
